/** block.c as functions on a node's state. The methods of module BlockOps are proved
    against these functions; the lemmas about them are in the other modules. */
module BlockSpec {
  import opened Types
  import LeaseTable

  /** Ascending indices of the blocks in state s. */
  function Indices(blocks: seq<Block>, s: BlockState): (r: seq<nat>)
    ensures forall i: nat {:trigger i in r} :: i in r <==> i < |blocks| && blocks[i].state == s
  {
    if blocks == [] then []
    else
      var last := |blocks| - 1;
      Indices(blocks[..last], s) + if blocks[last].state == s then [last] else []
  }

  lemma NoIndices(blocks: seq<Block>, s: BlockState)
    requires |Indices(blocks, s)| == 0
    ensures forall i :: 0 <= i < |blocks| ==> blocks[i].state != s
  {
    forall i: nat | i < |blocks| ensures blocks[i].state != s {
      assert i !in Indices(blocks, s);
    }
  }

  ghost predicate Ascending(s: seq<nat>) {
    forall j, k :: 0 <= j < k < |s| ==> s[j] < s[k]
  }

  lemma {:induction false} IndicesAscend(blocks: seq<Block>, s: BlockState)
    ensures Ascending(Indices(blocks, s))
  {
    if blocks != [] {
      var last := |blocks| - 1;
      var p, r := Indices(blocks[..last], s), Indices(blocks, s);
      IndicesAscend(blocks[..last], s);
      forall j, k | 0 <= j < k < |r| ensures r[j] < r[k] {
        assert r[j] == p[j] && p[j] in p;
      }
    }
  }

  /** A block is found at the position that the number of those before it says. */
  lemma {:induction false} PositionOf(blocks: seq<Block>, s: BlockState, b: nat)
    requires b < |blocks| && blocks[b].state == s
    ensures |Indices(blocks[..b], s)| < |Indices(blocks, s)| && Indices(blocks, s)[|Indices(blocks[..b], s)|] == b
  {
    var last := |blocks| - 1;
    if b < last {
      assert blocks[..last][..b] == blocks[..b];
      PositionOf(blocks[..last], s, b);
    }
  }

  // ---------------------------------------------------------------- owning, freeing

  function OwnBlock(cfg: Config, n: Node, b: nat, now: int): Node
    requires b < |n.blocks| && b < |n.tables|
  {
    n.(blocks := n.blocks[b := n.blocks[b].(state := Ours, firstClaimed := now, nodeId := cfg.nodeId)],
       tables := n.tables[b := if n.tables[b].Some? then n.tables[b] else Some(LeaseTable.Blank(n.blocks[b].subnetLen))],
       trace := n.trace + [Owned(b)])
  }

  function FreedBlock(b: Block, hasTable: bool): Block {
    var c := if b.state.Blocked? then b else b.(nodeId := NO_NODE, state := Free);
    if hasTable then c.(needlessSince := 0) else c
  }

  function FreeBlock(n: Node, b: nat): Node
    requires b < |n.blocks| && b < |n.tables|
  {
    n.(blocks := n.blocks[b := FreedBlock(n.blocks[b], n.tables[b].Some?)], tables := n.tables[b := None])
  }

  // ---------------------------------------------------------------- claiming

  lemma RemainderBelow(r: nat, n: nat)
    requires n > 0
    ensures 0 <= r % n < n
  {
  }

  /** block_find_free: the r-th of the FREE blocks, r taken modulo their number. */
  function FindFree(blocks: seq<Block>, r: nat): (f: Option<nat>)
    ensures f.None? <==> forall i :: 0 <= i < |blocks| ==> !blocks[i].state.Free?
    ensures f.Some? ==> f.value < |blocks| && blocks[f.value].state.Free?
  {
    var free := Indices(blocks, Free);
    if |free| == 0 then
      NoIndices(blocks, Free);
      None
    else
      RemainderBelow(r, |free|);
      assert free[0] in free && free[r % |free|] in free;
      Some(free[r % |free|])
  }

  /** Every FREE block is found, by exactly the numbers that are its rank among the FREE blocks modulo how
      many there are. */
  lemma {:induction false} FindsEach(blocks: seq<Block>, r: nat, b: nat)
    requires b < |blocks| && blocks[b].state.Free?
    ensures |Indices(blocks, Free)| > 0
    ensures FindFree(blocks, r) == Some(b) <==> r % |Indices(blocks, Free)| == |Indices(blocks[..b], Free)|
  {
    PositionOf(blocks, Free, b);
    IndicesAscend(blocks, Free);
  }

  /** One entry of the claim list at the start of block_claim: owned after the third
      inquiry whatever its state, kept while CLAIMING, dropped otherwise. */
  datatype Verdict = Take | Drop | Keep

  function Judge(b: Block): Verdict {
    if b.claimingCounts == CLAIMS_BEFORE_OWNING then Take
    else if !b.state.Claiming? then Drop
    else Keep
  }

  datatype Settled = Settled(node: Node, kept: seq<nat>, taken: nat)

  /** First pass of block_claim over the rest of the claim list. */
  function Settle(cfg: Config, n: Node, todo: seq<nat>, now: int): (s: Settled)
    decreases |todo|
  {
    if todo == [] then Settled(n, [], 0)
    else if todo[0] >= |n.blocks| || todo[0] >= |n.tables| then Settle(cfg, n, todo[1..], now)
    else
      var less := n.(amount := (n.amount - 1) % 0x100);
      match Judge(n.blocks[todo[0]])
      case Take =>
        var s := Settle(cfg, OwnBlock(cfg, less, todo[0], now), todo[1..], now);
        s.(taken := s.taken + 1)
      case Drop => Settle(cfg, less, todo[1..], now)
      case Keep =>
        var s := Settle(cfg, n, todo[1..], now);
        s.(kept := [todo[0]] + s.kept)
  }

  function Select(cfg: Config, n: Node, b: nat, now: int): Node
    requires b < |n.blocks|
  {
    n.(blocks := n.blocks[b := n.blocks[b].(state := Claiming, claimingCounts := 0,
                                            timeout := now + cfg.tentativeTimeout)],
       claiming := n.claiming + [b],
       amount := (n.amount + 1) % 0x100,
       trace := n.trace + [Selected(b)])
  }

  /** Second pass: `draws` random picks among the FREE blocks. */
  function SelectMany(cfg: Config, n: Node, draws: nat, rnd: nat -> nat, now: int): Node
    decreases draws
  {
    if draws == 0 then n
    else
      var m := SelectMany(cfg, n, draws - 1, rnd, now);
      match FindFree(m.blocks, rnd(draws - 1))
      case Some(b) => Select(cfg, m, b, now)
      case None => m
  }

  function InquirePacket(cfg: Config, claiming: seq<nat>): Packet {
    Packet(cfg.nodeId, Inquire, seq(|claiming|, k requires 0 <= k < |claiming| => Payload(claiming[k], 0)))
  }

  function CountInquiry(blocks: seq<Block>, listed: seq<nat>): (r: seq<Block>)
    ensures |r| == |blocks|
    ensures forall i {:trigger r[i]} :: 0 <= i < |blocks| ==>
      r[i] == if i in listed then Counted(blocks[i]) else blocks[i]
  {
    seq(|blocks|, i requires 0 <= i < |blocks| => if i in listed then Counted(blocks[i]) else blocks[i])
  }

  function Counted(b: Block): Block {
    b.(claimingCounts := (b.claimingCounts + 1) % 0x100)
  }

  /** Third pass: inquire all listed blocks, and count the inquiry if it was sent. */
  function SendInquiry(cfg: Config, link: Link, n: Node): Node {
    if n.amount < 1 then n
    else
      var ok := link(|n.trace|);
      n.(trace := n.trace + [Sent(InquirePacket(cfg, n.claiming), ok)],
         blocks := if ok then CountInquiry(n.blocks, n.claiming) else n.blocks)
  }

  /** n with another claim list in place of its own. */
  function Listing(n: Node, list: seq<nat>): Node {
    n.(claiming := list)
  }

  function Picked(cfg: Config, s: Settled, num: int, rnd: nat -> nat, now: int): Node {
    SelectUpTo(cfg, Listing(s.node, s.kept), num - s.taken, rnd, now)
  }

  /** Select blocks until `needed` are being claimed, as far as there are FREE ones. */
  function SelectUpTo(cfg: Config, n: Node, needed: int, rnd: nat -> nat, now: int): Node {
    if needed > n.amount then SelectMany(cfg, n, needed - n.amount, rnd, now) else n
  }

  function BlockClaim(cfg: Config, link: Link, n: Node, num: int, now: int, rnd: nat -> nat): Node {
    SendInquiry(cfg, link, Picked(cfg, Settle(cfg, n, n.claiming, now), num, rnd, now))
  }

  // ---------------------------------------------------------------- refreshing claims

  /** block_timeout / block_refresh_factor, the part of the timeout left before a refresh. */
  function RefreshGap(cfg: Config): (g: nat)
    ensures g <= cfg.blockTimeout
  {
    cfg.blockTimeout / cfg.refreshFactor
  }

  function Threshold(cfg: Config, now: int): int {
    now + cfg.blockTimeout - RefreshGap(cfg)
  }

  predicate Stale(cfg: Config, b: Block, now: int) {
    b.state.Ours? && b.timeout < Threshold(cfg, now)
  }

  predicate AnyStale(cfg: Config, blocks: seq<Block>, group: seq<nat>, now: int) {
    exists i :: i in group && i < |blocks| && Stale(cfg, blocks[i], now)
  }

  function SetTimeouts(blocks: seq<Block>, group: seq<nat>, t: int): (r: seq<Block>)
    ensures |r| == |blocks|
    ensures forall i {:trigger r[i]} :: 0 <= i < |blocks| ==>
      r[i] == if i in group then blocks[i].(timeout := t) else blocks[i]
  {
    seq(|blocks|, i requires 0 <= i < |blocks| => if i in group then blocks[i].(timeout := t) else blocks[i])
  }

  function ClaimPacket(cfg: Config, group: seq<nat>): Packet {
    Packet(cfg.nodeId, UpdateClaim,
           seq(|group|, k requires 0 <= k < |group| => Payload(group[k], cfg.blockTimeout)))
  }

  function SendClaim(cfg: Config, link: Link, n: Node, group: seq<nat>, now: int): Node {
    var ok := link(|n.trace|);
    n.(trace := n.trace + [Sent(ClaimPacket(cfg, group), ok)],
       blocks := if ok then SetTimeouts(n.blocks, group, now + cfg.blockTimeout) else n.blocks)
  }

  function Head(ours: seq<nat>): (k: nat)
    ensures k <= |ours| && k <= UPDATE_CLAIM_MAX_BLOCKS && (ours != [] ==> k >= 1)
  {
    if |ours| < UPDATE_CLAIM_MAX_BLOCKS then |ours| else UPDATE_CLAIM_MAX_BLOCKS
  }

  /** Owned blocks in groups of 32; a group is announced when one of its blocks is stale. */
  function SendGroups(cfg: Config, link: Link, n: Node, ours: seq<nat>, now: int): Node
    decreases |ours|
  {
    if ours == [] then n
    else
      SendGroups(cfg, link, SendGroup(cfg, link, n, ours[..Head(ours)], now), ours[Head(ours)..], now)
  }

  function SendGroup(cfg: Config, link: Link, n: Node, group: seq<nat>, now: int): Node {
    if AnyStale(cfg, n.blocks, group, now) then SendClaim(cfg, link, n, group, now) else n
  }

  /** block_update_claims */
  function Refresh(cfg: Config, link: Link, n: Node, now: int): Node {
    SendGroups(cfg, link, n, Indices(n.blocks, Ours), now)
  }

  // ---------------------------------------------------------------- timeouts

  predicate TimedOut(b: Block, now: int) {
    b.timeout < now && !b.state.Blocked? && !b.state.Free?
  }

  /** block_check_timeouts on one block and its table. */
  function CheckBlock(b: Block, t: Option<seq<Lease>>, now: int): (Block, Option<seq<Lease>>) {
    var (c, u) := if TimedOut(b, now) then (FreedBlock(b, t.Some?), None) else (b, t);
    if u.None? then (c, u)
    else
      var e := LeaseTable.Expire(u.value, now);
      if !c.state.Ours? && LeaseTable.Count(e, Available) == c.subnetLen then (FreedBlock(c, true), None)
      else (c, Some(e))
  }

  function CheckTimeouts(n: Node, now: int): (r: Node)
    requires |n.blocks| == |n.tables|
    ensures |r.blocks| == |r.tables| == |n.blocks|
  {
    n.(blocks := seq(|n.blocks|, i requires 0 <= i < |n.blocks| => CheckBlock(n.blocks[i], n.tables[i], now).0),
       tables := seq(|n.blocks|, i requires 0 <= i < |n.blocks| => CheckBlock(n.blocks[i], n.tables[i], now).1))
  }

  // ---------------------------------------------------------------- counting and dropping

  function NumAvailable(t: Option<seq<Lease>>): nat {
    if t.Some? then LeaseTable.Count(t.value, Available) else 0
  }

  /** block_num_free_leases */
  function NumFree(blocks: seq<Block>, tables: seq<Option<seq<Lease>>>): nat
    requires |blocks| == |tables|
  {
    if blocks == [] then 0
    else
      var last := |blocks| - 1;
      NumFree(blocks[..last], tables[..last]) + if blocks[last].state.Ours? then NumAvailable(tables[last]) else 0
  }

  lemma NumFreeStep(blocks: seq<Block>, tables: seq<Option<seq<Lease>>>, i: nat)
    requires i < |blocks| == |tables|
    ensures NumFree(blocks[..i + 1], tables[..i + 1])
         == NumFree(blocks[..i], tables[..i]) + if blocks[i].state.Ours? then NumAvailable(tables[i]) else 0
  {
    assert blocks[..i + 1][..i] == blocks[..i] && tables[..i + 1][..i] == tables[..i];
  }

  /** block_find_free_leases: the earliest claimed owned block with an available lease. */
  function FindFreeLeases(blocks: seq<Block>, tables: seq<Option<seq<Lease>>>): (f: Option<nat>)
    requires |blocks| == |tables|
    ensures f.Some? ==> f.value < |blocks| && Serves(blocks[f.value], tables[f.value])
  {
    if blocks == [] then None
    else
      var last := |blocks| - 1;
      var f := FindFreeLeases(blocks[..last], tables[..last]);
      if Serves(blocks[last], tables[last])
         && (f.None? || blocks[f.value].firstClaimed > blocks[last].firstClaimed) then Some(last)
      else f
  }

  /** The block found serves, no serving block was claimed before it, and among equally old
      ones it is the first; none is found exactly when no block serves. */
  lemma {:induction false} FindsOldest(blocks: seq<Block>, tables: seq<Option<seq<Lease>>>)
    requires |blocks| == |tables|
    ensures var f := FindFreeLeases(blocks, tables);
      && (f.None? <==> forall i :: 0 <= i < |blocks| ==> !Serves(blocks[i], tables[i]))
      && (f.Some? ==> forall i :: 0 <= i < |blocks| && Serves(blocks[i], tables[i]) ==>
            if i < f.value then blocks[f.value].firstClaimed < blocks[i].firstClaimed
            else blocks[f.value].firstClaimed <= blocks[i].firstClaimed)
  {
    if blocks != [] {
      FindsOldest(blocks[..|blocks| - 1], tables[..|blocks| - 1]);
    }
  }

  lemma FindFreeLeasesStep(blocks: seq<Block>, tables: seq<Option<seq<Lease>>>, i: nat)
    requires i < |blocks| == |tables|
    ensures var f := FindFreeLeases(blocks[..i], tables[..i]);
      FindFreeLeases(blocks[..i + 1], tables[..i + 1]) ==
        if Serves(blocks[i], tables[i]) && (f.None? || blocks[f.value].firstClaimed > blocks[i].firstClaimed)
        then Some(i) else f
  {
    assert blocks[..i + 1][..i] == blocks[..i] && tables[..i + 1][..i] == tables[..i];
  }

  predicate Serves(b: Block, t: Option<seq<Lease>>) {
    b.state.Ours? && NumAvailable(t) > 0
  }

  /** The candidate of block_drop_unused: the youngest owned block with every lease available. */
  function FindUnused(cfg: Config, blocks: seq<Block>, tables: seq<Option<seq<Lease>>>): (f: Option<nat>)
    requires |blocks| == |tables|
    ensures f.Some? ==> f.value < |blocks| && Unused(cfg, blocks[f.value], tables[f.value])
  {
    if blocks == [] then None
    else
      var last := |blocks| - 1;
      var f := FindUnused(cfg, blocks[..last], tables[..last]);
      if Unused(cfg, blocks[last], tables[last])
         && (f.None? || blocks[f.value].firstClaimed < blocks[last].firstClaimed) then Some(last)
      else f
  }

  /** The block found is unused, no unused block was claimed after it, and among equally young
      ones it is the first; none is found exactly when no block is unused. */
  lemma {:induction false} FindsYoungest(cfg: Config, blocks: seq<Block>, tables: seq<Option<seq<Lease>>>)
    requires |blocks| == |tables|
    ensures var f := FindUnused(cfg, blocks, tables);
      && (f.None? <==> forall i :: 0 <= i < |blocks| ==> !Unused(cfg, blocks[i], tables[i]))
      && (f.Some? ==> forall i :: 0 <= i < |blocks| && Unused(cfg, blocks[i], tables[i]) ==>
            if i < f.value then blocks[i].firstClaimed < blocks[f.value].firstClaimed
            else blocks[i].firstClaimed <= blocks[f.value].firstClaimed)
  {
    if blocks != [] {
      FindsYoungest(cfg, blocks[..|blocks| - 1], tables[..|blocks| - 1]);
    }
  }

  lemma FindUnusedStep(cfg: Config, blocks: seq<Block>, tables: seq<Option<seq<Lease>>>, i: nat)
    requires i < |blocks| == |tables|
    ensures var f := FindUnused(cfg, blocks[..i], tables[..i]);
      FindUnused(cfg, blocks[..i + 1], tables[..i + 1]) ==
        if Unused(cfg, blocks[i], tables[i]) && (f.None? || blocks[f.value].firstClaimed < blocks[i].firstClaimed)
        then Some(i) else f
  {
    assert blocks[..i + 1][..i] == blocks[..i] && tables[..i + 1][..i] == tables[..i];
  }

  predicate Unused(cfg: Config, b: Block, t: Option<seq<Lease>>) {
    b.state.Ours? && NumAvailable(t) == cfg.blockSize
  }

  /** Mark an unused block as needless, or free it once it has been marked for long enough. */
  function Retire(cfg: Config, n: Node, i: nat, now: int): Node
    requires i < |n.blocks| == |n.tables|
  {
    if n.blocks[i].needlessSince == 0 then
      n.(blocks := n.blocks[i := n.blocks[i].(needlessSince := now)], needlessMarks := true)
    else if n.blocks[i].needlessSince <= now - cfg.needlessTimeout then
      FreeBlock(n, i).(needlessMarks := false)
    else n
  }

  /** block_drop_unused */
  function DropUnused(cfg: Config, n: Node, now: int): Node
    requires |n.blocks| == |n.tables|
  {
    match FindUnused(cfg, n.blocks, n.tables)
    case None => n
    case Some(i) => Retire(cfg, n, i, now)
  }

  function UnmarkNeedless(n: Node): Node {
    n.(blocks := seq(|n.blocks|, i requires 0 <= i < |n.blocks| => n.blocks[i].(needlessSince := 0)),
       needlessMarks := false)
  }
}
