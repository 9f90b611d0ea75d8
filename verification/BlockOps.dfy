/** block.c on the heap. Every method leaves the state that the function of the same name in
    BlockSpec describes. */
module BlockOps {
  import opened Types
  import LeaseTable
  import BlockSpec
  import IntrusiveList
  import RefreshProofs
  import ClaimProofs
  import opened Store
  import LeaseOps

  // ---------------------------------------------------------------- allocating, owning, freeing

  method NewTable(len: byte) returns (t: array<Lease>)
    ensures fresh(t) && t[..] == LeaseTable.Blank(len)
  {
    t := new Lease[len](_ => EMPTY_LEASE);
    for j := 0 to t.Length
      invariant forall k :: 0 <= k < t.Length ==> t[k] == EMPTY_LEASE
    {
      t[j] := t[j].(state := Available, leaseEnd := 0);
    }
  }

  /** block_alloc: a table of available leases, unless there is a table already. */
  method BlockAlloc(d: Daemon, i: nat)
    requires d.Valid() && i < d.blocks.Length
    modifies d.addresses
    ensures d.Valid() && d.blocks[..] == old(d.blocks[..])
    ensures d.addresses[i] != null && (d.addresses[i] == old(d.addresses[i]) || fresh(d.addresses[i]))
    ensures forall k :: 0 <= k < d.addresses.Length && k != i ==> d.addresses[k] == old(d.addresses[k])
    ensures d.Tables() == if old(d.addresses[i]) != null then old(d.Tables())
                          else old(d.Tables())[i := Some(LeaseTable.Blank(d.cfg.blockSize))]
  {
    if d.addresses[i] != null {
      return;
    }
    ghost var was := d.Tables();
    assert Placed(d.cfg, i, d.State().blocks[i]);
    var t := NewTable(d.blocks[i].subnetLen);
    d.addresses[i] := t;
    assert d.Tables() == was[i := Some(LeaseTable.Blank(d.cfg.blockSize))];
    assert TableInv(d.cfg, d.State()) by {
      forall k | 0 <= k < d.blocks.Length
        ensures Placed(d.cfg, k, d.State().blocks[k]) && TableFits(d.cfg, d.State().blocks[k], d.State().tables[k])
      {
        assert Placed(d.cfg, k, old(d.State()).blocks[k]) && TableFits(d.cfg, old(d.State()).blocks[k], was[k]);
      }
    }
  }

  /** block_own */
  method BlockOwn(d: Daemon, i: nat, now: int)
    requires d.Valid() && i < d.blocks.Length
    modifies d`trace, d.blocks, d.addresses
    ensures d.Valid() && d.State() == BlockSpec.OwnBlock(d.cfg, old(d.State()), i, now)
    ensures d.addresses[i] == old(d.addresses[i]) || fresh(d.addresses[i])
    ensures forall k :: 0 <= k < d.addresses.Length && k != i ==> d.addresses[k] == old(d.addresses[k])
  {
    ghost var s := d.State();
    assert Placed(d.cfg, i, s.blocks[i]);
    BlockAlloc(d, i);
    d.blocks[i] := d.blocks[i].(state := Ours, firstClaimed := now, nodeId := d.cfg.nodeId);
    d.trace := d.trace + [Owned(i)];
    assert d.State() == BlockSpec.OwnBlock(d.cfg, s, i, now);
    ClaimProofs.OwnKeepsTables(d.cfg, s, i, now);
  }

  /** block_free */
  method BlockFree(d: Daemon, i: nat)
    requires d.Valid() && i < d.blocks.Length
    modifies d.blocks, d.addresses
    ensures d.Valid() && d.State() == BlockSpec.FreeBlock(old(d.State()), i)
    ensures d.addresses[i] == null
    ensures forall k :: 0 <= k < d.addresses.Length && k != i ==> d.addresses[k] == old(d.addresses[k])
  {
    ghost var s := d.State();
    if d.blocks[i].state != Blocked {
      d.blocks[i] := d.blocks[i].(nodeId := NO_NODE, state := Free);
    }
    if d.addresses[i] != null {
      d.addresses[i] := null;
      d.blocks[i] := d.blocks[i].(needlessSince := 0);
    }
    ghost var r := BlockSpec.FreeBlock(s, i);
    assert d.blocks[..] == r.blocks && d.Tables() == r.tables;
    assert TableInv(d.cfg, r) by {
      forall k | 0 <= k < |r.blocks| ensures Placed(d.cfg, k, r.blocks[k]) && TableFits(d.cfg, r.blocks[k], r.tables[k]) {
        assert Placed(d.cfg, k, s.blocks[k]) && TableFits(d.cfg, s.blocks[k], s.tables[k]);
      }
    }
  }

  // ---------------------------------------------------------------- searching and counting

  /** The nodes of the ring belong to these blocks, in this order. */
  ghost predicate Carries(s: seq<IntrusiveList.ListHead>, indices: seq<nat>) {
    |s| == |indices| && forall k :: 0 <= k < |s| ==> s[k].index == indices[k]
  }

  /** The ring holds the FREE ones of the first i blocks, through their tmp_list fields. */
  ghost predicate Collected(d: Daemon, head: IntrusiveList.ListHead, s: seq<IntrusiveList.ListHead>, i: nat)
    reads head, s, d.blocks
  {
    && d.TmpLinks() && i <= d.blocks.Length <= |d.tmpNodes| && head !in d.tmpNodes
    && IntrusiveList.Ring(head, s) && (forall k :: 0 <= k < |s| ==> s[k] in d.tmpNodes)
    && Carries(s, BlockSpec.Indices(d.blocks[..i], Free))
  }

  lemma NotCarried(d: Daemon, head: IntrusiveList.ListHead, s: seq<IntrusiveList.ListHead>, i: nat)
    requires Collected(d, head, s, i) && i < d.blocks.Length
    ensures d.tmpNodes[i] !in s && d.tmpNodes[i] != head && d.blocks[..i + 1][..i] == d.blocks[..i]
  {
    forall k | 0 <= k < |s| ensures s[k].index < i {
      assert BlockSpec.Indices(d.blocks[..i], Free)[k] in BlockSpec.Indices(d.blocks[..i], Free);
    }
    assert d.tmpNodes[i] in d.tmpNodes;
  }

  /** One round of the first loop of block_find_free. */
  method CollectOne(d: Daemon, head: IntrusiveList.ListHead, ghost s: seq<IntrusiveList.ListHead>, i: nat)
      returns (ghost s': seq<IntrusiveList.ListHead>, more: nat)
    requires Collected(d, head, s, i) && i < d.blocks.Length
    modifies head, d.tmpNodes
    ensures Collected(d, head, s', i + 1) && |s'| == |s| + more
  {
    NotCarried(d, head, s, i);
    s', more := s, 0;
    if d.blocks[i].state == Free {
      IntrusiveList.ListAddTail(d.tmpNodes[i], head, s);
      s', more := s + [d.tmpNodes[i]], 1;
    }
  }

  /** The first loop of block_find_free. */
  method CollectFree(d: Daemon) returns (head: IntrusiveList.ListHead, ghost s: seq<IntrusiveList.ListHead>, num: nat)
    requires d.Valid() && d.TmpLinks()
    modifies d.tmpNodes
    ensures fresh(head) && Collected(d, head, s, d.blocks.Length) && num == |s|
  {
    head := new IntrusiveList.ListHead(0);
    IntrusiveList.InitListHead(head);
    s, num := [], 0;
    var more;
    for i := 0 to d.blocks.Length
      invariant fresh(head) && Collected(d, head, s, i) && num == |s|
    {
      s, more := CollectOne(d, head, s, i);
      num := num + more;
    }
  }

  /** The second loop takes blocks off the ring until a random one is met. */
  method TakeRandom(d: Daemon, head: IntrusiveList.ListHead, ghost s: seq<IntrusiveList.ListHead>, r: nat) returns (b: nat)
    requires Collected(d, head, s, d.blocks.Length) && r < |s|
    modifies head, d.tmpNodes
    ensures var free := BlockSpec.Indices(d.blocks[..], Free); |free| == |s| && b == free[r]
  {
    assert d.blocks[..d.blocks.Length] == d.blocks[..];
    var x := IntrusiveList.TakeNth(head, r, s);
    b := x.index;
  }

  /** block_find_free */
  method FindFree(d: Daemon, rand: nat) returns (f: Option<nat>)
    requires d.Valid() && d.TmpLinks()
    modifies d.tmpNodes
    ensures d.Valid() && d.State() == old(d.State()) && f == BlockSpec.FindFree(d.blocks[..], rand)
  {
    ghost var s;
    var head, num;
    head, s, num := CollectFree(d);
    assert d.blocks[..d.blocks.Length] == d.blocks[..];
    if num == 0 {
      return None;
    }
    var b := TakeRandom(d, head, s, rand % num);
    return Some(b);
  }

  /** block_num_free_leases */
  method NumFreeLeases(d: Daemon) returns (num: nat)
    requires d.Valid()
    ensures num == BlockSpec.NumFree(d.blocks[..], d.Tables())
  {
    ghost var blocks, tables := d.blocks[..], d.Tables();
    num := 0;
    for i := 0 to d.blocks.Length
      invariant num == BlockSpec.NumFree(blocks[..i], tables[..i])
    {
      BlockSpec.NumFreeStep(blocks, tables, i);
      if d.blocks[i].state == Ours {
        assert TableFits(d.cfg, d.State().blocks[i], d.State().tables[i]);
        var n := LeaseOps.Num(d, i, Available);
        num := num + n;
      }
    }
    assert blocks[..d.blocks.Length] == blocks && tables[..d.blocks.Length] == tables;
  }

  method Serves(d: Daemon, i: nat) returns (serves: bool)
    requires d.Valid() && i < d.blocks.Length
    ensures serves <==> BlockSpec.Serves(d.blocks[i], d.Tables()[i])
  {
    assert TableFits(d.cfg, d.State().blocks[i], d.State().tables[i]);
    serves := false;
    if d.blocks[i].state == Ours {
      serves := LeaseOps.HasFree(d, i);
    }
  }

  method Unused(d: Daemon, i: nat) returns (unused: bool)
    requires d.Valid() && i < d.blocks.Length
    ensures unused <==> BlockSpec.Unused(d.cfg, d.blocks[i], d.Tables()[i])
  {
    assert TableFits(d.cfg, d.State().blocks[i], d.State().tables[i]);
    unused := false;
    if d.blocks[i].state == Ours {
      var n := LeaseOps.Num(d, i, Available);
      unused := n == d.cfg.blockSize;
    }
  }

  /** block_find_free_leases */
  method FindFreeLeases(d: Daemon) returns (selected: Option<nat>)
    requires d.Valid()
    ensures selected == BlockSpec.FindFreeLeases(d.blocks[..], d.Tables())
  {
    ghost var blocks, tables := d.blocks[..], d.Tables();
    selected := None;
    for i := 0 to d.blocks.Length
      invariant selected == BlockSpec.FindFreeLeases(blocks[..i], tables[..i])
    {
      BlockSpec.FindFreeLeasesStep(blocks, tables, i);
      var serves := Serves(d, i);
      if serves && (selected.None? || d.blocks[selected.value].firstClaimed > d.blocks[i].firstClaimed) {
        selected := Some(i);
      }
    }
    assert blocks[..d.blocks.Length] == blocks && tables[..d.blocks.Length] == tables;
  }

  /** The search loop of block_drop_unused. */
  method FindUnused(d: Daemon) returns (freeable: Option<nat>)
    requires d.Valid()
    ensures freeable == BlockSpec.FindUnused(d.cfg, d.blocks[..], d.Tables())
  {
    ghost var blocks, tables := d.blocks[..], d.Tables();
    freeable := None;
    for i := 0 to d.blocks.Length
      invariant freeable == BlockSpec.FindUnused(d.cfg, blocks[..i], tables[..i])
    {
      BlockSpec.FindUnusedStep(d.cfg, blocks, tables, i);
      var unused := Unused(d, i);
      if unused && (freeable.None? || d.blocks[freeable.value].firstClaimed < d.blocks[i].firstClaimed) {
        freeable := Some(i);
      }
    }
    assert blocks[..d.blocks.Length] == blocks && tables[..d.blocks.Length] == tables;
  }

  // ---------------------------------------------------------------- dropping

  /** A write to one block that keeps its place and does not make it owned. */
  method WriteBlock(d: Daemon, i: nat, b: Block)
    requires d.Valid() && i < d.blocks.Length
    requires b.index == d.blocks[i].index && b.subnet == d.blocks[i].subnet && b.subnetLen == d.blocks[i].subnetLen
    requires b.state.Ours? ==> d.blocks[i].state.Ours?
    modifies d.blocks
    ensures d.Valid() && d.State() == old(d.State()).(blocks := old(d.State()).blocks[i := b])
  {
    ghost var s := d.State();
    d.blocks[i] := b;
    assert d.State().blocks == s.blocks[i := b];
    forall k | 0 <= k < d.blocks.Length
      ensures Placed(d.cfg, k, d.State().blocks[k]) && TableFits(d.cfg, d.State().blocks[k], d.State().tables[k])
    {
      assert Placed(d.cfg, k, s.blocks[k]) && TableFits(d.cfg, s.blocks[k], s.tables[k]);
    }
  }

  method MarkNeedless(d: Daemon, i: nat, now: int)
    requires d.Valid() && i < d.blocks.Length
    modifies d`needlessMarks, d.blocks
    ensures d.Valid()
    ensures d.State() == old(d.State()).(needlessMarks := true,
      blocks := old(d.State()).blocks[i := old(d.State()).blocks[i].(needlessSince := now)])
  {
    WriteBlock(d, i, d.blocks[i].(needlessSince := now));
    d.needlessMarks := true;
  }

  method Retire(d: Daemon, i: nat, now: int)
    requires d.Valid() && i < d.blocks.Length
    modifies d`needlessMarks, d.blocks, d.addresses
    ensures d.Valid() && d.State() == BlockSpec.Retire(d.cfg, old(d.State()), i, now)
    ensures forall k :: 0 <= k < d.addresses.Length ==> d.addresses[k] == null || d.addresses[k] == old(d.addresses[k])
  {
    if d.blocks[i].needlessSince == 0 {
      MarkNeedless(d, i, now);
    } else if d.blocks[i].needlessSince <= now - d.cfg.needlessTimeout {
      BlockFree(d, i);
      d.needlessMarks := false;
    }
  }

  /** block_drop_unused */
  method DropUnused(d: Daemon, now: int)
    requires d.Valid()
    modifies d`needlessMarks, d.blocks, d.addresses
    ensures d.Valid() && d.State() == BlockSpec.DropUnused(d.cfg, old(d.State()), now)
    ensures forall k :: 0 <= k < d.addresses.Length ==> d.addresses[k] == null || d.addresses[k] == old(d.addresses[k])
  {
    var freeable := FindUnused(d);
    if freeable.Some? {
      Retire(d, freeable.value, now);
    }
  }

  /** block_unmark_needless */
  method UnmarkNeedless(d: Daemon)
    requires d.Valid()
    modifies d`needlessMarks, d.blocks
    ensures d.Valid() && d.State() == BlockSpec.UnmarkNeedless(old(d.State()))
  {
    ghost var s := d.State();
    for i := 0 to d.blocks.Length
      invariant d.Valid() && d.State() == s.(blocks := d.State().blocks)
      invariant forall k :: 0 <= k < i ==> d.blocks[k] == s.blocks[k].(needlessSince := 0)
      invariant forall k :: i <= k < d.blocks.Length ==> d.blocks[k] == s.blocks[k]
    {
      WriteBlock(d, i, d.blocks[i].(needlessSince := 0));
    }
    d.needlessMarks := false;
    assert d.State().blocks == BlockSpec.UnmarkNeedless(s).blocks;
  }

  // ---------------------------------------------------------------- refreshing claims

  lemma SetTimeoutsOneMore(blocks: seq<Block>, group: seq<nat>, k: nat, t: int)
    requires k < |group| && group[k] < |blocks|
    ensures var b := BlockSpec.SetTimeouts(blocks, group[..k], t);
      BlockSpec.SetTimeouts(blocks, group[..k + 1], t) == b[group[k] := b[group[k]].(timeout := t)]
  {
    assert group[..k + 1] == group[..k] + [group[k]];
  }

  method SetTimeouts(d: Daemon, group: seq<nat>, t: int)
    requires d.Valid() && forall k :: 0 <= k < |group| ==> group[k] < d.blocks.Length
    modifies d.blocks
    ensures d.Valid()
    ensures d.State() == old(d.State()).(blocks := BlockSpec.SetTimeouts(old(d.State()).blocks, group, t))
  {
    ghost var s := d.State();
    for k := 0 to |group|
      invariant d.Valid() && d.State() == s.(blocks := BlockSpec.SetTimeouts(s.blocks, group[..k], t))
    {
      SetTimeoutsOneMore(s.blocks, group, k, t);
      WriteBlock(d, group[k], d.blocks[group[k]].(timeout := t));
    }
    assert group[..|group|] == group;
  }

  /** _block_update_claim_send */
  method UpdateClaimSend(d: Daemon, group: seq<nat>, now: int)
    requires d.Valid() && forall k :: 0 <= k < |group| ==> group[k] < d.blocks.Length
    modifies d`trace, d.blocks
    ensures d.Valid() && d.State() == BlockSpec.SendClaim(d.cfg, d.link, old(d.State()), group, now)
  {
    ghost var s := d.State();
    var ok := Send(d, BlockSpec.ClaimPacket(d.cfg, group));
    ghost var m := d.State();
    assert m.blocks == s.blocks;
    if ok {
      SetTimeouts(d, group, now + d.cfg.blockTimeout);
      assert d.State() == m.(blocks := BlockSpec.SetTimeouts(s.blocks, group, now + d.cfg.blockTimeout));
    }
  }

  /** A multicast send attempt. */
  method Send(d: Daemon, p: Packet) returns (ok: bool)
    requires d.Valid()
    modifies d`trace
    ensures d.Valid() && ok == d.link(|old(d.trace)|)
    ensures d.State() == old(d.State()).(trace := old(d.trace) + [Sent(p, ok)])
  {
    ok := d.link(|d.trace|);
    d.trace := d.trace + [Sent(p, ok)];
  }

  /** The owned blocks from index i on. */
  function OursFrom(blocks: seq<Block>, i: nat): seq<nat>
    requires i <= |blocks|
    decreases |blocks| - i
  {
    if i == |blocks| then [] else (if blocks[i].state.Ours? then [i] else []) + OursFrom(blocks, i + 1)
  }

  lemma {:induction false} OursFromSplits(blocks: seq<Block>, i: nat)
    requires i <= |blocks|
    ensures BlockSpec.Indices(blocks[..i], Ours) + OursFrom(blocks, i) == BlockSpec.Indices(blocks, Ours)
    decreases |blocks| - i
  {
    if i == |blocks| {
      assert blocks[..i] == blocks;
    } else {
      OursFromSplits(blocks, i + 1);
      assert blocks[..i + 1][..i] == blocks[..i];
    }
  }

  lemma {:induction false} OursFromSame(a: seq<Block>, b: seq<Block>, i: nat)
    requires |a| == |b| && i <= |a| && forall k :: 0 <= k < |a| ==> a[k].state == b[k].state
    ensures OursFrom(a, i) == OursFrom(b, i)
    decreases |a| - i
  {
    if i < |a| {
      OursFromSame(a, b, i + 1);
    }
  }

  /** What is left to do of a refresh that has reached index i with `pending` not yet sent. */
  ghost function Rest(cfg: Config, link: Link, n: Node, pending: seq<nat>, i: nat, now: int): Node
    requires i <= |n.blocks|
  {
    BlockSpec.SendGroups(cfg, link, n, pending + OursFrom(n.blocks, i), now)
  }

  lemma RestStart(cfg: Config, link: Link, n: Node, now: int)
    ensures BlockSpec.Refresh(cfg, link, n, now) == Rest(cfg, link, n, [], 0, now)
  {
    OursFromSplits(n.blocks, 0);
    assert BlockSpec.Indices(n.blocks[..0], Ours) == [];
    assert [] + OursFrom(n.blocks, 0) == OursFrom(n.blocks, 0);
  }

  lemma RestSkip(cfg: Config, link: Link, n: Node, pending: seq<nat>, i: nat, now: int)
    requires i < |n.blocks|
    ensures Rest(cfg, link, n, pending, i, now)
         == Rest(cfg, link, n, if n.blocks[i].state.Ours? then pending + [i] else pending, i + 1, now)
  {
    var later := OursFrom(n.blocks, i + 1);
    assert pending + ([i] + later) == pending + [i] + later && [] + later == later;
  }

  /** A full group of 32 is settled before anything else. */
  lemma RestFull(cfg: Config, link: Link, n: Node, pending: seq<nat>, i: nat, now: int)
    requires i <= |n.blocks| && |pending| == UPDATE_CLAIM_MAX_BLOCKS && RefreshProofs.OwnedHere(n, pending)
    ensures var m := BlockSpec.SendGroup(cfg, link, n, pending, now);
      |m.blocks| == |n.blocks| && Rest(cfg, link, n, pending, i, now) == Rest(cfg, link, m, [], i, now)
  {
    var m := BlockSpec.SendGroup(cfg, link, n, pending, now);
    var rest := OursFrom(n.blocks, i);
    assert (pending + rest)[..UPDATE_CLAIM_MAX_BLOCKS] == pending;
    assert (pending + rest)[UPDATE_CLAIM_MAX_BLOCKS..] == rest == [] + rest;
    if BlockSpec.AnyStale(cfg, n.blocks, pending, now) {
      RefreshProofs.SendClaimStep(cfg, link, n, pending, now);
    }
    OursFromSame(n.blocks, m.blocks, i);
  }

  lemma RestEnd(cfg: Config, link: Link, n: Node, pending: seq<nat>, now: int)
    requires |pending| < UPDATE_CLAIM_MAX_BLOCKS
    ensures Rest(cfg, link, n, pending, |n.blocks|, now) == BlockSpec.SendGroup(cfg, link, n, pending, now)
  {
    assert pending + OursFrom(n.blocks, |n.blocks|) == pending;
    if pending == [] {
      assert !BlockSpec.AnyStale(cfg, n.blocks, pending, now);
    } else {
      assert pending[..BlockSpec.Head(pending)] == pending && pending[BlockSpec.Head(pending)..] == [];
      assert BlockSpec.SendGroups(cfg, link, BlockSpec.SendGroup(cfg, link, n, pending, now), [], now)
          == BlockSpec.SendGroup(cfg, link, n, pending, now);
    }
  }

  ghost predicate SomeStale(cfg: Config, blocks: seq<Block>, now: int) {
    exists i :: 0 <= i < |blocks| && BlockSpec.Stale(cfg, blocks[i], now)
  }

  /** The first loop of block_update_claims: does any claim need a refresh? */
  method NeedsRefresh(d: Daemon, now: int) returns (needed: bool)
    requires d.Valid()
    ensures needed <==> SomeStale(d.cfg, d.blocks[..], now)
  {
    var timeoutFactor := now + d.cfg.blockTimeout - d.cfg.blockTimeout / d.cfg.refreshFactor;
    assert timeoutFactor == BlockSpec.Threshold(d.cfg, now);
    needed := false;
    for i := 0 to d.blocks.Length
      invariant forall k :: 0 <= k < i ==> !BlockSpec.Stale(d.cfg, d.blocks[k], now)
    {
      if d.blocks[i].state == Ours && d.blocks[i].timeout < timeoutFactor {
        assert BlockSpec.Stale(d.cfg, d.blocks[..][i], now);
        return true;
      }
    }
  }

  /** A group is sent, iff one of its blocks is below the baseline. */
  method SendIf(d: Daemon, sendPacket: bool, group: seq<nat>, now: int)
    requires d.Valid() && RefreshProofs.OwnedHere(d.State(), group)
    requires sendPacket <==> BlockSpec.AnyStale(d.cfg, d.blocks[..], group, now)
    modifies d`trace, d.blocks
    ensures d.Valid() && d.State() == BlockSpec.SendGroup(d.cfg, d.link, old(d.State()), group, now)
  {
    if sendPacket {
      assert forall k :: 0 <= k < |group| ==> group[k] in group;
      UpdateClaimSend(d, group, now);
    }
  }

  /** The second loop of block_update_claims has reached index i: `pending` is collected but
      not settled, sendPacket says whether it is to be sent, and `goal` is where all ends. */
  ghost predicate Midway(d: Daemon, i: nat, pending: seq<nat>, sendPacket: bool, now: int, goal: Node)
    reads d, d.blocks, d.addresses, d.addresses[..]
  {
    && d.Valid() && i <= d.blocks.Length
    && |pending| < UPDATE_CLAIM_MAX_BLOCKS && RefreshProofs.OwnedHere(d.State(), pending)
    && (sendPacket <==> BlockSpec.AnyStale(d.cfg, d.blocks[..], pending, now))
    && Rest(d.cfg, d.link, d.State(), pending, i, now) == goal
  }

  /** A full group is settled. */
  method SettleFull(d: Daemon, i: nat, pending: seq<nat>, sendPacket: bool, now: int, ghost goal: Node)
    requires d.Valid() && i <= d.blocks.Length && |pending| == UPDATE_CLAIM_MAX_BLOCKS
    requires RefreshProofs.OwnedHere(d.State(), pending)
    requires sendPacket <==> BlockSpec.AnyStale(d.cfg, d.blocks[..], pending, now)
    requires Rest(d.cfg, d.link, d.State(), pending, i, now) == goal
    modifies d`trace, d.blocks
    ensures Midway(d, i, [], false, now, goal)
  {
    RestFull(d.cfg, d.link, d.State(), pending, i, now);
    SendIf(d, sendPacket, pending, now);
  }

  /** One round of that loop. */
  method RefreshOne(d: Daemon, i: nat, pending: seq<nat>, sendPacket: bool, now: int, ghost goal: Node)
      returns (pending': seq<nat>, sendPacket': bool)
    requires i < d.blocks.Length && Midway(d, i, pending, sendPacket, now, goal)
    modifies d`trace, d.blocks
    ensures Midway(d, i + 1, pending', sendPacket', now, goal)
  {
    RestSkip(d.cfg, d.link, d.State(), pending, i, now);
    pending', sendPacket' := pending, sendPacket;
    if d.blocks[i].state == Ours {
      if d.blocks[i].timeout < now + d.cfg.blockTimeout - d.cfg.blockTimeout / d.cfg.refreshFactor {
        sendPacket' := true;
      }
      pending' := pending + [i];
      StaleOneMore(d.cfg, d.blocks[..], pending, i, now);
      if |pending'| == UPDATE_CLAIM_MAX_BLOCKS {
        SettleFull(d, i + 1, pending', sendPacket', now, goal);
        pending', sendPacket' := [], false;
      }
    }
  }

  lemma StaleOneMore(cfg: Config, blocks: seq<Block>, pending: seq<nat>, i: nat, now: int)
    requires i < |blocks|
    ensures BlockSpec.AnyStale(cfg, blocks, pending + [i], now) <==>
            BlockSpec.AnyStale(cfg, blocks, pending, now) || BlockSpec.Stale(cfg, blocks[i], now)
  {
    if BlockSpec.AnyStale(cfg, blocks, pending, now) {
      var k :| k in pending && k < |blocks| && BlockSpec.Stale(cfg, blocks[k], now);
      assert k in pending + [i];
    }
    if BlockSpec.Stale(cfg, blocks[i], now) { assert i in pending + [i]; }
  }

  /** block_update_claims */
  method UpdateClaims(d: Daemon, now: int)
    requires d.Valid()
    modifies d`trace, d.blocks
    ensures d.Valid() && d.State() == BlockSpec.Refresh(d.cfg, d.link, old(d.State()), now)
  {
    ghost var s := d.State();
    var needed := NeedsRefresh(d, now);
    if !needed {
      RefreshProofs.RefreshPackets(d.cfg, d.link, s, now);
      return;
    }
    RefreshAll(d, now);
  }

  /** The second loop of block_update_claims. */
  method RefreshAll(d: Daemon, now: int)
    requires d.Valid()
    modifies d`trace, d.blocks
    ensures d.Valid() && d.State() == BlockSpec.Refresh(d.cfg, d.link, old(d.State()), now)
  {
    ghost var goal := BlockSpec.Refresh(d.cfg, d.link, d.State(), now);
    var pending: seq<nat>, sendPacket := [], false;
    RestStart(d.cfg, d.link, d.State(), now);
    for i := 0 to d.blocks.Length
      invariant Midway(d, i, pending, sendPacket, now, goal)
    {
      pending, sendPacket := RefreshOne(d, i, pending, sendPacket, now, goal);
    }
    RestEnd(d.cfg, d.link, d.State(), pending, now);
    SendIf(d, sendPacket, pending, now);
  }

  // ---------------------------------------------------------------- timeouts

  /** n with block i and its table replaced by what block_check_timeouts makes of them. */
  ghost function CheckedAt(n: Node, i: nat, now: int): Node
    requires i < |n.blocks| == |n.tables|
  {
    var (b, t) := BlockSpec.CheckBlock(n.blocks[i], n.tables[i], now);
    n.(blocks := n.blocks[i := b], tables := n.tables[i := t])
  }

  /** One round of the loop: expire the block. */
  method ExpireBlock(d: Daemon, i: nat, now: int)
    requires d.Valid() && i < d.blocks.Length
    modifies d.blocks, d.addresses
    ensures d.Valid()
    ensures d.State() == if BlockSpec.TimedOut(old(d.blocks[i]), now) then BlockSpec.FreeBlock(old(d.State()), i) else old(d.State())
    ensures d.addresses[i] == null || d.addresses[i] == old(d.addresses[i])
    ensures forall k :: 0 <= k < d.addresses.Length && k != i ==> d.addresses[k] == old(d.addresses[k])
  {
    if d.blocks[i].timeout < now && d.blocks[i].state != Blocked && d.blocks[i].state != Free {
      BlockFree(d, i);
    }
  }

  /** One round of the loop: expire the leases of the block, and give up a cached table that
      holds no lease any more. */
  method ExpireLeases(d: Daemon, i: nat, now: int)
    requires d.Valid() && i < d.blocks.Length
    modifies d.blocks, d.addresses, d.addresses[i]
    ensures d.Valid()
    ensures d.State() == LeasesExpired(old(d.State()), i, now)
    ensures d.addresses[i] == null || d.addresses[i] == old(d.addresses[i])
    ensures forall k :: 0 <= k < d.addresses.Length && k != i ==> d.addresses[k] == old(d.addresses[k])
  {
    ghost var s := d.State();
    assert TableFits(d.cfg, s.blocks[i], s.tables[i]);
    if d.blocks[i].state == Ours {
      var freeLeases := LeaseOps.CheckTimeouts(d, i, now);
      assert d.State() == LeasesExpired(s, i, now);
    } else if d.addresses[i] != null {
      var freeLeases := LeaseOps.CheckTimeouts(d, i, now);
      ghost var m := s.(tables := s.tables[i := Some(LeaseTable.Expire(s.tables[i].value, now))]);
      assert d.State() == m;
      if freeLeases == d.blocks[i].subnetLen {
        BlockFree(d, i);
        assert d.State() == BlockSpec.FreeBlock(m, i);
      }
    }
  }

  ghost function LeasesExpired(n: Node, i: nat, now: int): Node
    requires i < |n.blocks| == |n.tables|
  {
    if n.tables[i].None? then n
    else
      var e := LeaseTable.Expire(n.tables[i].value, now);
      var m := n.(tables := n.tables[i := Some(e)]);
      if !n.blocks[i].state.Ours? && LeaseTable.Count(e, Available) == n.blocks[i].subnetLen
      then BlockSpec.FreeBlock(m, i) else m
  }

  lemma CheckedInTwo(n: Node, i: nat, now: int)
    requires i < |n.blocks| == |n.tables|
    ensures CheckedAt(n, i, now) ==
      LeasesExpired(if BlockSpec.TimedOut(n.blocks[i], now) then BlockSpec.FreeBlock(n, i) else n, i, now)
  {
    var m := if BlockSpec.TimedOut(n.blocks[i], now) then BlockSpec.FreeBlock(n, i) else n;
    var r, c := LeasesExpired(m, i, now), CheckedAt(n, i, now);
    assert n.blocks[i := n.blocks[i]] == n.blocks && n.tables[i := n.tables[i]] == n.tables;
    assert r.blocks == c.blocks && r.tables == c.tables;
  }

  method CheckOne(d: Daemon, i: nat, now: int)
    requires d.Valid() && i < d.blocks.Length
    modifies d.blocks, d.addresses, d.addresses[i]
    ensures d.Valid() && d.State() == CheckedAt(old(d.State()), i, now)
    ensures d.addresses[i] == null || d.addresses[i] == old(d.addresses[i])
    ensures forall k :: 0 <= k < d.addresses.Length && k != i ==> d.addresses[k] == old(d.addresses[k])
  {
    CheckedInTwo(d.State(), i, now);
    ExpireBlock(d, i, now);
    ExpireLeases(d, i, now);
  }

  /** The blocks below index i checked, the others not yet. */
  ghost predicate CheckedUpTo(s: Node, n: Node, i: nat, now: int)
    requires i <= |s.blocks| == |s.tables|
  {
    && |n.blocks| == |n.tables| == |s.blocks| && n == s.(blocks := n.blocks, tables := n.tables)
    && (forall k {:trigger n.blocks[k]} {:trigger n.tables[k]} :: 0 <= k < |s.blocks| ==>
          (n.blocks[k], n.tables[k]) ==
            if k < i then BlockSpec.CheckBlock(s.blocks[k], s.tables[k], now) else (s.blocks[k], s.tables[k]))
  }

  lemma CheckedOneMore(s: Node, n: Node, i: nat, now: int)
    requires i < |s.blocks| == |s.tables| && CheckedUpTo(s, n, i, now)
    ensures CheckedUpTo(s, CheckedAt(n, i, now), i + 1, now)
  {
    assert n.blocks[i] == s.blocks[i] && n.tables[i] == s.tables[i];
  }

  lemma CheckedAll(s: Node, n: Node, now: int)
    requires |s.blocks| == |s.tables| && CheckedUpTo(s, n, |s.blocks|, now)
    ensures n == BlockSpec.CheckTimeouts(s, now)
  {
    var r := BlockSpec.CheckTimeouts(s, now);
    assert n.blocks == r.blocks && n.tables == r.tables;
  }

  /** block_check_timeouts */
  method CheckTimeouts(d: Daemon, now: int)
    requires d.Valid()
    modifies d.blocks, d.addresses, d.addresses[..]
    ensures d.Valid() && d.State() == BlockSpec.CheckTimeouts(old(d.State()), now)
    ensures forall k :: 0 <= k < d.addresses.Length ==> d.addresses[k] == null || d.addresses[k] == old(d.addresses[k])
  {
    ghost var s := d.State();
    for i := 0 to d.blocks.Length
      invariant d.Valid() && CheckedUpTo(s, d.State(), i, now)
      invariant forall k :: 0 <= k < d.addresses.Length ==> d.addresses[k] == null || d.addresses[k] == old(d.addresses[k])
    {
      CheckedOneMore(s, d.State(), i, now);
      CheckOne(d, i, now);
    }
    CheckedAll(s, d.State(), now);
  }
}
