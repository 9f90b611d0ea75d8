/** block_claim on the heap. */
module ClaimOps {
  import opened Types
  import BlockSpec
  import ClaimProofs
  import opened Store
  import opened IntrusiveList
  import BlockOps

  /** Progress of the first pass at position j of the claim list, `taken` blocks owned so far:
      what is left, started here, ends where the whole pass from s ends. */
  ghost predicate SettledSoFar(cfg: Config, s: Node, n: Node, j: nat, taken: nat, now: int) {
    j <= |n.claiming| &&
    var t := BlockSpec.Settle(cfg, BlockSpec.Listing(n, s.claiming), n.claiming[j..], now);
    BlockSpec.Settle(cfg, s, s.claiming, now) == BlockSpec.Settled(t.node, n.claiming[..j] + t.kept, taken + t.taken)
  }

  lemma SettleStarts(cfg: Config, s: Node, now: int)
    ensures SettledSoFar(cfg, s, s, 0, 0, now)
  {
    var t := BlockSpec.Settle(cfg, s, s.claiming, now);
    assert BlockSpec.Listing(s, s.claiming) == s && s.claiming[0..] == s.claiming;
    assert s.claiming[..0] + t.kept == t.kept;
  }

  lemma SettleEnds(cfg: Config, s: Node, n: Node, taken: nat, now: int)
    requires SettledSoFar(cfg, s, n, |n.claiming|, taken, now)
    ensures var r := BlockSpec.Settle(cfg, s, s.claiming, now);
      BlockSpec.Listing(r.node, r.kept) == n && r.taken == taken
  {
    assert n.claiming[..|n.claiming|] + [] == n.claiming;
  }

  /** n with its j-th listed block unlisted. */
  function Unlisted(n: Node, j: nat): Node
    requires j < |n.claiming|
  {
    n.(claiming := n.claiming[..j] + n.claiming[j + 1..], amount := (n.amount - 1) % 0x100)
  }

  lemma UnlistedParts(n: Node, j: nat)
    requires j < |n.claiming|
    ensures var l := Unlisted(n, j).claiming; l[..j] == n.claiming[..j] && l[j..] == n.claiming[j + 1..]
    ensures n.claiming[j..] == [n.claiming[j]] + n.claiming[j + 1..]
  {
  }

  lemma SettleTakes(cfg: Config, s: Node, n: Node, j: nat, taken: nat, now: int)
    requires SettledSoFar(cfg, s, n, j, taken, now) && j < |n.claiming|
    requires n.claiming[j] < |n.blocks| == |n.tables| && BlockSpec.Judge(n.blocks[n.claiming[j]]) == BlockSpec.Take
    ensures SettledSoFar(cfg, s, Unlisted(BlockSpec.OwnBlock(cfg, n, n.claiming[j], now), j), j, taken + 1, now)
  {
    var m := BlockSpec.OwnBlock(cfg, n, n.claiming[j], now);
    UnlistedParts(n, j);
    UnlistedParts(m, j);
    var less := BlockSpec.Listing(n, s.claiming).(amount := (n.amount - 1) % 0x100);
    assert BlockSpec.Listing(Unlisted(m, j), s.claiming) == BlockSpec.OwnBlock(cfg, less, n.claiming[j], now);
  }

  lemma SettleDrops(cfg: Config, s: Node, n: Node, j: nat, taken: nat, now: int)
    requires SettledSoFar(cfg, s, n, j, taken, now) && j < |n.claiming|
    requires n.claiming[j] < |n.blocks| == |n.tables| && BlockSpec.Judge(n.blocks[n.claiming[j]]) == BlockSpec.Drop
    ensures SettledSoFar(cfg, s, Unlisted(n, j), j, taken, now)
  {
    UnlistedParts(n, j);
  }

  lemma SettleKeeps(cfg: Config, s: Node, n: Node, j: nat, taken: nat, now: int)
    requires SettledSoFar(cfg, s, n, j, taken, now) && j < |n.claiming|
    requires n.claiming[j] < |n.blocks| == |n.tables| && BlockSpec.Judge(n.blocks[n.claiming[j]]) == BlockSpec.Keep
    ensures SettledSoFar(cfg, s, n, j + 1, taken, now)
  {
    UnlistedParts(n, j);
    var t := BlockSpec.Settle(cfg, BlockSpec.Listing(n, s.claiming), n.claiming[j + 1..], now);
    assert n.claiming[..j] + ([n.claiming[j]] + t.kept) == n.claiming[..j + 1] + t.kept;
  }

  /** The ring holds the listed blocks. */
  ghost predicate Linked(d: Daemon)
    reads d, d.claims.head, d.claims.nodes
  {
    d.claims.Threads(d.claiming) && |d.claims.nodes| == d.cfg.numberOfBlocks && d.TmpLinks()
  }

  /** list_del on the claim list. */
  method Unlist(d: Daemon, pos: ListHead, ghost j: nat)
    requires d.Valid() && Linked(d) && j < |d.claiming| && d.claims.Stands(pos, d.claiming, j)
    modifies d`claiming, d`amount, d.claims.head, d.claims.nodes
    ensures d.Valid() && Linked(d) && d.State() == Unlisted(old(d.State()), j)
  {
    d.claims.Delete(pos, d.claiming, j);
    d.claiming := d.claiming[..j] + d.claiming[j + 1..];
    d.amount := (d.amount - 1) % 0x100;
  }

  /** The first loop of block_claim has come to position j. */
  ghost predicate Settling(d: Daemon, pos: ListHead, j: nat, taken: nat, now: int, s: Node)
    reads d, d.blocks, d.addresses, d.addresses[..], d.claims.head, d.claims.nodes
  {
    && d.Valid() && Linked(d) && d.claims.Stands(pos, d.claiming, j)
    && SettledSoFar(d.cfg, s, d.State(), j, taken, now)
  }

  /** The block at position j is owned, and its entry goes. */
  method TakeOne(d: Daemon, pos: ListHead, q: ListHead, ghost j: nat, now: int, ghost s: Node, ghost taken: nat)
    requires Settling(d, pos, j, taken, now, s) && j < |d.claiming| && d.claims.Stands(q, d.claiming, j + 1)
    requires d.claiming[j] < d.blocks.Length && pos.index == d.claiming[j]
    requires BlockSpec.Judge(d.blocks[d.claiming[j]]) == BlockSpec.Take
    modifies d`claiming, d`amount, d`trace, d.blocks, d.addresses, d.claims.head, d.claims.nodes
    ensures Settling(d, q, j, taken + 1, now, s) && |d.claiming| < |old(d.claiming)|
    ensures forall k :: 0 <= k < d.addresses.Length ==> d.addresses[k] == old(d.addresses[k]) || fresh(d.addresses[k])
  {
    SettleTakes(d.cfg, s, d.State(), j, taken, now);
    BlockOps.BlockOwn(d, pos.index, now);
    UnlistAt(d, pos, q, j);
  }

  /** The entry at position j goes. */
  method DropOne(d: Daemon, pos: ListHead, q: ListHead, ghost j: nat, ghost now: int, ghost s: Node, ghost taken: nat)
    requires Settling(d, pos, j, taken, now, s) && j < |d.claiming| && d.claims.Stands(q, d.claiming, j + 1)
    requires d.claiming[j] < d.blocks.Length && BlockSpec.Judge(d.blocks[d.claiming[j]]) == BlockSpec.Drop
    modifies d`claiming, d`amount, d.claims.head, d.claims.nodes
    ensures Settling(d, q, j, taken, now, s) && |d.claiming| < |old(d.claiming)|
  {
    SettleDrops(d.cfg, s, d.State(), j, taken, now);
    UnlistAt(d, pos, q, j);
  }

  /** One round of that loop. */
  method SettleOne(d: Daemon, pos: ListHead, ghost j: nat, now: int, ghost s: Node, taken: nat)
      returns (q: ListHead, ghost j': nat, taken': nat)
    requires Settling(d, pos, j, taken, now, s) && pos != d.claims.head
    modifies d`claiming, d`amount, d`trace, d.blocks, d.addresses, d.claims.head, d.claims.nodes
    ensures Settling(d, q, j', taken', now, s) && |d.claiming| - j' < |old(d.claiming)| - j
    ensures forall k :: 0 <= k < d.addresses.Length ==> d.addresses[k] == old(d.addresses[k]) || fresh(d.addresses[k])
  {
    d.claims.Positions(d.claiming, pos, j);
    var b := pos.index;
    q := d.claims.Next(pos, d.claiming, j);
    j', taken' := j, taken;
    if d.blocks[b].claimingCounts == CLAIMS_BEFORE_OWNING {
      TakeOne(d, pos, q, j, now, s, taken);
      taken' := taken + 1;
    } else if d.blocks[b].state != Claiming {
      DropOne(d, pos, q, j, now, s, taken);
    } else {
      SettleKeeps(d.cfg, s, d.State(), j, taken, now);
      j' := j + 1;
    }
  }

  /** The entry at position j goes, and the next one takes its place. */
  method UnlistAt(d: Daemon, pos: ListHead, q: ListHead, ghost j: nat)
    requires d.Valid() && Linked(d) && j < |d.claiming|
    requires d.claims.Stands(pos, d.claiming, j) && d.claims.Stands(q, d.claiming, j + 1)
    modifies d`claiming, d`amount, d.claims.head, d.claims.nodes
    ensures d.Valid() && Linked(d) && d.State() == Unlisted(old(d.State()), j)
    ensures d.claims.Stands(q, d.claiming, j)
  {
    Unlist(d, pos, j);
  }

  /** The first loop of block_claim: list_for_each_safe over the claim list. */
  method SettleAll(d: Daemon, now: int) returns (taken: nat)
    requires d.Valid() && Linked(d)
    modifies d`claiming, d`amount, d`trace, d.blocks, d.addresses, d.claims.head, d.claims.nodes
    ensures d.Valid() && Linked(d)
    ensures var r := BlockSpec.Settle(d.cfg, old(d.State()), old(d.claiming), now);
      d.State() == BlockSpec.Listing(r.node, r.kept) && taken == r.taken
    ensures forall k :: 0 <= k < d.addresses.Length ==> d.addresses[k] == old(d.addresses[k]) || fresh(d.addresses[k])
  {
    ghost var s := d.State();
    ghost var j: nat := 0;
    taken := 0;
    SettleStarts(d.cfg, s, now);
    var pos := d.claims.First(d.claiming);
    while pos != d.claims.head
      invariant Settling(d, pos, j, taken, now, s)
      invariant forall k :: 0 <= k < d.addresses.Length ==> d.addresses[k] == old(d.addresses[k]) || fresh(d.addresses[k])
      decreases |d.claiming| - j
    {
      pos, j, taken := SettleOne(d, pos, j, now, s, taken);
    }
    d.claims.Positions(d.claiming, pos, j);
    SettleEnds(d.cfg, s, d.State(), taken, now);
  }

  /** list_add_tail on the claim list. */
  method Enlist(d: Daemon, b: nat)
    requires d.Valid() && Linked(d) && b < d.blocks.Length && b !in d.claiming
    modifies d`claiming, d`amount, d`trace, d.claims.head, d.claims.nodes
    ensures d.Valid() && Linked(d) && d.State() == Enlisted(old(d.State()), b)
  {
    d.claims.Append(b, d.claiming);
    d.claiming := d.claiming + [b];
    d.amount := (d.amount + 1) % 0x100;
    d.trace := d.trace + [Selected(b)];
  }

  /** n with block b listed. */
  function Enlisted(n: Node, b: nat): Node {
    n.(claiming := n.claiming + [b], amount := (n.amount + 1) % 0x100, trace := n.trace + [Selected(b)])
  }

  /** Put a FREE block on the claim list. */
  method Select(d: Daemon, b: nat, now: int)
    requires d.Valid() && Linked(d) && b < d.blocks.Length && b !in d.claiming
    modifies d`claiming, d`amount, d`trace, d.blocks, d.claims.head, d.claims.nodes
    ensures d.Valid() && Linked(d) && d.State() == BlockSpec.Select(d.cfg, old(d.State()), b, now)
  {
    BlockOps.WriteBlock(d, b, d.blocks[b].(state := Claiming, claimingCounts := 0,
                                           timeout := now + d.cfg.tentativeTimeout));
    Enlist(d, b);
  }

  ghost function SelectedOne(cfg: Config, n: Node, rand: nat, now: int): Node {
    match BlockSpec.FindFree(n.blocks, rand)
    case Some(b) => BlockSpec.Select(cfg, n, b, now)
    case None => n
  }

  lemma SelectManyStep(cfg: Config, n: Node, i: nat, rnd: nat -> nat, now: int)
    ensures BlockSpec.SelectMany(cfg, n, i + 1, rnd, now)
         == SelectedOne(cfg, BlockSpec.SelectMany(cfg, n, i, rnd, now), rnd(i), now)
  {
  }

  /** Every listed block is CLAIMING, so none of them is FREE. */
  ghost predicate Claimants(d: Daemon)
    reads d, d.blocks, d.addresses, d.addresses[..], d.claims.head, d.claims.nodes
  {
    d.Valid() && Linked(d) && ClaimProofs.AllKept(d.blocks[..], d.claiming)
  }

  /** One round of the second loop of block_claim. */
  method SelectOne(d: Daemon, rand: nat, now: int)
    requires Claimants(d)
    modifies d`claiming, d`amount, d`trace, d.blocks, d.claims.head, d.claims.nodes, d.tmpNodes
    ensures Claimants(d) && d.State() == SelectedOne(d.cfg, old(d.State()), rand, now)
  {
    var f := BlockOps.FindFree(d, rand);
    if f.Some? {
      assert f.value !in d.claiming;
      Select(d, f.value, now);
    }
  }

  /** The second loop of block_claim. */
  method SelectMany(d: Daemon, draws: nat, rnd: nat -> nat, now: int)
    requires Claimants(d)
    modifies d`claiming, d`amount, d`trace, d.blocks, d.claims.head, d.claims.nodes, d.tmpNodes
    ensures Claimants(d) && d.State() == BlockSpec.SelectMany(d.cfg, old(d.State()), draws, rnd, now)
  {
    ghost var s := d.State();
    for i := 0 to draws
      invariant Claimants(d) && d.State() == BlockSpec.SelectMany(d.cfg, s, i, rnd, now)
    {
      SelectManyStep(d.cfg, s, i, rnd, now);
      SelectOne(d, rnd(i), now);
    }
  }

  lemma {:induction false} DistinctAt(s: seq<nat>, k: nat)
    requires Distinct(s) && k < |s|
    ensures s[k] !in s[..k]
    decreases |s|
  {
    if k > 0 {
      DistinctAt(s[1..], k - 1);
      assert s[..k] == [s[0]] + s[1..][..k - 1];
      assert s[k] == s[1..][k - 1] && s[k] in s[1..];
    }
  }

  lemma CountOneMore(blocks: seq<Block>, listed: seq<nat>, k: nat)
    requires Distinct(listed) && k < |listed| && listed[k] < |blocks|
    ensures var b := BlockSpec.CountInquiry(blocks, listed[..k]);
      BlockSpec.CountInquiry(blocks, listed[..k + 1]) == b[listed[k] := BlockSpec.Counted(b[listed[k]])]
  {
    DistinctAt(listed, k);
    assert listed[..k + 1] == listed[..k] + [listed[k]];
  }

  /** The traversal is at position k, and the first k listed blocks have been counted. */
  ghost predicate CountedFirst(d: Daemon, s: Node, pos: ListHead, k: nat)
    reads d, d.blocks, d.addresses, d.addresses[..], d.claims.head, d.claims.nodes
  {
    && d.Valid() && Linked(d) && d.claims.Stands(pos, s.claiming, k)
    && d.State() == s.(blocks := BlockSpec.CountInquiry(s.blocks, s.claiming[..k]))
  }

  method CountOne(d: Daemon, ghost s: Node, pos: ListHead, ghost k: nat) returns (q: ListHead)
    requires CountedFirst(d, s, pos, k) && pos != d.claims.head && Distinct(s.claiming) && d.blocks.Length == |s.blocks|
    modifies d.blocks
    ensures k < |s.claiming| && CountedFirst(d, s, q, k + 1)
  {
    d.claims.Positions(s.claiming, pos, k);
    CountOneMore(s.blocks, s.claiming, k);
    var b := pos.index;
    q := d.claims.Next(pos, d.claiming, k);
    BlockOps.WriteBlock(d, b, d.blocks[b].(claimingCounts := (d.blocks[b].claimingCounts + 1) % 0x100));
  }

  lemma AllCounted(d: Daemon, s: Node, pos: ListHead, k: nat)
    requires CountedFirst(d, s, pos, k) && pos == d.claims.head
    ensures d.State() == s.(blocks := BlockSpec.CountInquiry(s.blocks, s.claiming))
  {
    d.claims.Positions(s.claiming, pos, k);
    assert s.claiming[..|s.claiming|] == s.claiming;
  }

  /** The last loop of block_claim: count the inquiry for every listed block. */
  method CountInquiry(d: Daemon)
    requires d.Valid() && Linked(d) && Distinct(d.claiming)
    modifies d.blocks
    ensures d.Valid() && Linked(d)
    ensures d.State() == old(d.State()).(blocks := BlockSpec.CountInquiry(old(d.State()).blocks, d.claiming))
  {
    ghost var s := d.State();
    ghost var k: nat := 0;
    assert s.blocks == BlockSpec.CountInquiry(s.blocks, s.claiming[..0]);
    var pos := d.claims.First(d.claiming);
    while pos != d.claims.head
      invariant CountedFirst(d, s, pos, k)
      decreases |s.claiming| - k
    {
      pos := CountOne(d, s, pos, k);
      k := k + 1;
    }
    AllCounted(d, s, pos, k);
  }

  /** The payload of the inquiry, written by a traversal into an array as long as the 8-bit amount says. */
  method Payloads(d: Daemon) returns (payload: array<Payload>)
    requires d.Valid() && Linked(d) && |d.claiming| == d.amount
    ensures fresh(payload) && payload[..] == BlockSpec.InquirePacket(d.cfg, d.claiming).payload
  {
    payload := new Payload[d.amount](_ => Payload(0, 0));
    var index: nat := 0;
    var pos := d.claims.First(d.claiming);
    while pos != d.claims.head
      invariant d.claims.Stands(pos, d.claiming, index)
      invariant forall k :: 0 <= k < index ==> payload[k] == Payload(d.claiming[k], 0)
      decreases |d.claiming| - index
    {
      d.claims.Positions(d.claiming, pos, index);
      payload[index] := Payload(pos.index, 0);
      pos := d.claims.Next(pos, d.claiming, index);
      index := index + 1;
    }
    d.claims.Positions(d.claiming, pos, index);
  }

  /** The sending part of block_claim. */
  method SendInquiry(d: Daemon)
    requires d.Valid() && Linked(d) && Distinct(d.claiming) && |d.claiming| == d.amount
    modifies d`trace, d.blocks
    ensures d.Valid() && Linked(d) && d.State() == BlockSpec.SendInquiry(d.cfg, d.link, old(d.State()))
  {
    if d.amount < 1 {
      return;
    }
    ghost var s := d.State();
    var payload := Payloads(d);
    var ok := BlockOps.Send(d, Packet(d.cfg.nodeId, Inquire, payload[..]));
    if ok {
      CountInquiry(d);
    }
    assert d.State().blocks == BlockSpec.SendInquiry(d.cfg, d.link, s).blocks;
  }

  /** The claim list after the first pass and after the second. */
  lemma ListsFit(cfg: Config, n: Node, num: int, now: int, rnd: nat -> nat)
    requires ClaimProofs.NodeInv(cfg, n) && num <= 0xff
    ensures var s := BlockSpec.Settle(cfg, n, n.claiming, now); ClaimProofs.AllKept(s.node.blocks, s.kept)
    ensures var p := BlockSpec.Picked(cfg, BlockSpec.Settle(cfg, n, n.claiming, now), num, rnd, now);
      Distinct(p.claiming) && |p.claiming| == p.amount
  {
    ClaimProofs.SettleAll(cfg, n, now);
    ClaimProofs.PickedKeepsInv(cfg, BlockSpec.Settle(cfg, n, n.claiming, now), num, rnd, now);
  }

  method SelectUpTo(d: Daemon, needed: int, now: int, rnd: nat -> nat)
    requires Claimants(d)
    modifies d`claiming, d`amount, d`trace, d.blocks, d.claims.head, d.claims.nodes, d.tmpNodes
    ensures d.Valid() && Linked(d) && d.State() == BlockSpec.SelectUpTo(d.cfg, old(d.State()), needed, rnd, now)
  {
    if needed > d.amount {
      SelectMany(d, needed - d.amount, rnd, now);
    }
  }

  /** The first two passes of block_claim. */
  method Pick(d: Daemon, num: int, now: int, rnd: nat -> nat)
    requires d.Valid() && Linked(d)
    requires var s := BlockSpec.Settle(d.cfg, d.State(), d.claiming, now); ClaimProofs.AllKept(s.node.blocks, s.kept)
    modifies d`claiming, d`amount, d`trace, d.blocks, d.addresses, d.claims.head, d.claims.nodes, d.tmpNodes
    ensures d.Valid() && Linked(d)
    ensures d.State() == BlockSpec.Picked(d.cfg, BlockSpec.Settle(d.cfg, old(d.State()), old(d.claiming), now), num, rnd, now)
    ensures forall k :: 0 <= k < d.addresses.Length ==> d.addresses[k] == old(d.addresses[k]) || fresh(d.addresses[k])
  {
    var taken := SettleAll(d, now);
    SelectUpTo(d, num - taken, now, rnd);
  }

  /** block_claim */
  method BlockClaim(d: Daemon, num: int, now: int, rnd: nat -> nat)
    requires d.Valid() && Linked(d) && ClaimProofs.NodeInv(d.cfg, d.State()) && num <= 0xff
    modifies d`claiming, d`amount, d`trace, d.blocks, d.addresses, d.claims.head, d.claims.nodes, d.tmpNodes
    ensures d.Valid() && Linked(d) && d.State() == BlockSpec.BlockClaim(d.cfg, d.link, old(d.State()), num, now, rnd)
    ensures forall k :: 0 <= k < d.addresses.Length ==> d.addresses[k] == old(d.addresses[k]) || fresh(d.addresses[k])
  {
    ListsFit(d.cfg, d.State(), num, now, rnd);
    Pick(d, num, now, rnd);
    SendInquiry(d);
  }
}
