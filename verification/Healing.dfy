/** After a partition several nodes may own the same block. One round of refreshes, delivered in any
    order, leaves every block that some owner announces with its highest owner alone. */
module Healing {
  import opened Types
  import opened BlockSpec
  import RefreshProofs
  import opened Network
  import opened Convergence
  import Termination

  /** The claims node i sends when it refreshes at its time now. */
  function Announcement(net: Net, i: nat, now: int): seq<Msg>
    requires i < |net.nodes| == |net.cfgs|
  {
    var n := net.nodes[i];
    SpreadAll(i, SentSince(Refresh(net.cfgs[i], UP, n, now).trace, |n.trace|), |net.nodes|)
  }

  function Announcements(net: Net, clocks: seq<int>): seq<seq<Msg>>
    requires |net.nodes| == |net.cfgs| == |clocks|
  {
    seq(|net.nodes|, i requires 0 <= i < |net.nodes| => Announcement(net, i, clocks[i]))
  }

  /** Every node runs block_update_claims once; nothing else is under way. */
  function AnnounceAll(net: Net, clocks: seq<int>): Net
    requires |net.nodes| == |net.cfgs| == |clocks|
  {
    Net(net.cfgs,
        seq(|net.nodes|, i requires 0 <= i < |net.nodes| => Refresh(net.cfgs[i], UP, net.nodes[i], clocks[i])),
        Gather(Announcements(net, clocks)))
  }

  /** w owns b and every other owner of b has a lower id. */
  ghost predicate TopOwner(net: Net, b: nat, w: nat) {
    && w < |net.nodes| == |net.cfgs| && Owns(net, w, b)
    && forall j :: 0 <= j < |net.nodes| && j != w && Owns(net, j, b) ==> net.cfgs[j].nodeId < net.cfgs[w].nodeId
  }

  predicate Owns(net: Net, j: nat, b: nat) {
    j < |net.nodes| && b < |net.nodes[j].blocks| && net.nodes[j].blocks[b].state.Ours?
  }

  lemma SentByItself(net: Net, i: nat, now: int, m: Msg)
    requires i < |net.nodes| == |net.cfgs|
    ensures m in Announcement(net, i, now) ==> m.src == i
  {
    var n := net.nodes[i];
    InSpreadAll(i, SentSince(Refresh(net.cfgs[i], UP, n, now).trace, |n.trace|), |net.nodes|, m);
  }

  lemma InAnnouncements(net: Net, clocks: seq<int>, m: Msg)
    requires |net.nodes| == |net.cfgs| == |clocks|
    ensures m in AnnounceAll(net, clocks).flight <==>
            m.src < |net.nodes| && m in Announcement(net, m.src, clocks[m.src])
  {
    var parts := Announcements(net, clocks);
    InGather(parts, m);
    forall i | 0 <= i < |parts| ensures m in parts[i] ==> m.src == i {
      SentByItself(net, i, clocks[i], m);
    }
    if m.src < |net.nodes| { assert parts[m.src] == Announcement(net, m.src, clocks[m.src]); }
  }

  lemma AnnouncementIsAnswer(net: Net, i: nat, now: int, m: Msg)
    requires i < |net.nodes| == |net.cfgs| && m in Announcement(net, i, now)
    ensures AnswerMsg(net, i, m)
  {
    var n := net.nodes[i];
    var r := Refresh(net.cfgs[i], UP, n, now);
    InSpreadAll(i, SentSince(r.trace, |n.trace|), |net.nodes|, m);
    InSentSince(r.trace, |n.trace|, m.packet);
    var k :| |n.trace| <= k < |r.trace| && r.trace[k] == Sent(m.packet, true);
    RefreshProofs.RefreshSteps(net.cfgs[i], UP, n, now);
    assert RefreshProofs.OwnClaim(net.cfgs[i], n.blocks, r.trace[k]);
  }

  /** The refresh of node i announces b: i owns it, and a block of its group of 32 is due. */
  ghost predicate Heralds(net: Net, clocks: seq<int>, i: nat, b: nat)
    requires |net.nodes| == |net.cfgs| == |clocks|
  {
    i < |net.nodes| && RefreshProofs.Swept(net.cfgs[i], net.nodes[i].blocks, b, clocks[i])
  }

  /** Such a block is announced to every other node. */
  lemma HeraldIsHeard(net: Net, clocks: seq<int>, w: nat, b: nat, j: nat) returns (m: Msg)
    requires |net.nodes| == |net.cfgs| == |clocks| && j < |net.nodes| && j != w && Heralds(net, clocks, w, b)
    ensures m in AnnounceAll(net, clocks).flight && m.src == w && m.dst == j
    ensures m.packet.command.UpdateClaim? && Lists(m.packet, b)
  {
    var (n, now) := (net.nodes[w], clocks[w]);
    var r := Refresh(net.cfgs[w], UP, n, now);
    RefreshProofs.RefreshSteps(net.cfgs[w], UP, n, now);
    RefreshProofs.AnnouncedExactly(net.cfgs[w], UP, n, now, b);
    var k :| |n.trace| <= k < |r.trace| && RefreshProofs.Announces(r.trace[k], b);
    assert RefreshProofs.OwnClaim(net.cfgs[w], n.blocks, r.trace[k]);
    m := Msg(w, j, r.trace[k].packet);
    assert r.trace[k] == Sent(m.packet, true);
    InSentSince(r.trace, |n.trace|, m.packet);
    InSpreadAll(w, SentSince(r.trace, |n.trace|), |net.nodes|, m);
    InAnnouncements(net, clocks, m);
  }

  lemma SameStates(net: Net, clocks: seq<int>, i: nat)
    requires i < |net.nodes| == |net.cfgs| == |clocks|
    ensures var (n, r) := (net.nodes[i], AnnounceAll(net, clocks).nodes[i]);
      |r.blocks| == |n.blocks| && forall b :: 0 <= b < |n.blocks| ==> r.blocks[b].state == n.blocks[b].state
  {
    RefreshProofs.RefreshSteps(net.cfgs[i], UP, net.nodes[i], clocks[i]);
  }

  lemma AnnounceAllSane(net: Net, size: nat, clocks: seq<int>)
    requires Sane(net, size) && |clocks| == |net.nodes|
    ensures Sane(AnnounceAll(net, clocks), size)
    ensures forall m :: m in AnnounceAll(net, clocks).flight ==>
      m.src < |net.nodes| && m in Announcement(net, m.src, clocks[m.src]) && AnswerMsg(net, m.src, m)
  {
    var r := AnnounceAll(net, clocks);
    forall i | 0 <= i < |r.nodes| ensures |r.nodes[i].blocks| == size {
      SameStates(net, clocks, i);
    }
    forall m | m in r.flight
      ensures m.src < |net.nodes| && m in Announcement(net, m.src, clocks[m.src]) && AnswerMsg(net, m.src, m)
    {
      InAnnouncements(net, clocks, m);
      AnnouncementIsAnswer(net, m.src, clocks[m.src], m);
    }
  }

  /** The announcement of any owner, the highest or not, reaches the others or makes the highest answer. */
  lemma AnnouncedReminds(net: Net, clocks: seq<int>, b: nat, w: nat, i: nat, j: nat) returns (m: Msg)
    requires |net.nodes| == |net.cfgs| == |clocks| && Heralds(net, clocks, i, b)
    requires w < |net.nodes| && j < |net.nodes| && j != w
    ensures m in AnnounceAll(net, clocks).flight && Reminder(m, b, w, j)
  {
    m := HeraldIsHeard(net, clocks, i, b, if i == w then j else w);
  }

  lemma TopOwnerPrevails(net: Net, size: nat, clocks: seq<int>, b: nat, w: nat, i: nat)
    requires Sane(net, size) && |clocks| == |net.nodes| && b < size && TopOwner(net, b, w)
    requires Heralds(net, clocks, i, b)
    ensures Prevails(AnnounceAll(net, clocks), size, b, w, true)
  {
    var r := AnnounceAll(net, clocks);
    AnnounceAllSane(net, size, clocks);
    SameStates(net, clocks, w);
    forall j | 0 <= j < |r.nodes| && j != w
      ensures |r.nodes[j].blocks| == size && Settling(r, b, w, j, true)
      ensures r.nodes[j].blocks[b].state.Ours? ==> r.cfgs[j].nodeId < r.cfgs[w].nodeId
    {
      SameStates(net, clocks, j);
      assert Owns(net, j, b) <==> net.nodes[j].blocks[b].state.Ours?;
      var m := AnnouncedReminds(net, clocks, b, w, i, j);
    }
    forall m | m in r.flight && Lists(m.packet, b) ensures Outranked(r, m, w, true) {
      assert AnswerMsg(net, m.src, m);
      assert Owns(net, m.src, b);
    }
  }

  lemma {:induction false} HasTopOwner(net: Net, b: nat, k: nat) returns (w: nat)
    requires k <= |net.nodes| == |net.cfgs| && exists i :: 0 <= i < k && Owns(net, i, b)
    requires forall i, j :: 0 <= i < j < |net.cfgs| ==> net.cfgs[i].nodeId != net.cfgs[j].nodeId
    ensures w < k && Owns(net, w, b)
    ensures forall j :: 0 <= j < k && j != w && Owns(net, j, b) ==> net.cfgs[j].nodeId < net.cfgs[w].nodeId
  {
    if exists i :: 0 <= i < k - 1 && Owns(net, i, b) {
      w := HasTopOwner(net, b, k - 1);
      if Owns(net, k - 1, b) && net.cfgs[k - 1].nodeId > net.cfgs[w].nodeId {
        w := k - 1;
      }
    } else {
      w := k - 1;
    }
  }

  lemma {:induction false} NobodyGains(net: Net, size: nat, b: nat, schedule: seq<(nat, int)>)
    requires Sane(net, size) && b < size && Feasible(net, schedule)
    requires forall j :: 0 <= j < |net.nodes| ==> !Owns(net, j, b)
    ensures forall j :: 0 <= j < |After(net, schedule).nodes| ==> !Owns(After(net, schedule), j, b)
    decreases |schedule|
  {
    if schedule != [] {
      var (k, now) := schedule[0];
      var r := Deliver(net, k, now);
      StaysSane(net, size, k, now);
      forall j | 0 <= j < |r.nodes| ensures !Owns(r, j, b) {
        StateAt(net, size, k, now, b, j);
        assert !Owns(net, j, b);
      }
      NobodyGains(r, size, b, schedule[1..]);
    }
  }

  /** Exactly one node owns b, and every other node has recorded a claim of it. */
  ghost predicate SoleOwner(net: Net, b: nat, w: nat) {
    && Owns(net, w, b)
    && forall j :: 0 <= j < |net.nodes| && j != w ==>
         b < |net.nodes[j].blocks| && net.nodes[j].blocks[b].state.Claimed?
  }

  ghost predicate Healed(net: Net, r: Net, b: nat) {
    if exists i :: 0 <= i < |net.nodes| && Owns(net, i, b)
    then exists w :: TopOwner(net, b, w) && SoleOwner(r, b, w)
    else forall j :: 0 <= j < |r.nodes| ==> !Owns(r, j, b)
  }

  /** If b is owned at all, then the refresh of some owner announces it. */
  ghost predicate SomeHerald(net: Net, clocks: seq<int>, b: nat)
    requires |net.nodes| == |net.cfgs| == |clocks|
  {
    (exists i :: 0 <= i < |net.nodes| && Owns(net, i, b)) ==> exists i: nat :: Heralds(net, clocks, i, b)
  }

  lemma HealsAt(net: Net, size: nat, clocks: seq<int>, schedule: seq<(nat, int)>, b: nat)
    requires Sane(net, size) && |clocks| == |net.nodes| && b < size
    requires SomeHerald(net, clocks, b)
    requires Feasible(AnnounceAll(net, clocks), schedule)
    requires After(AnnounceAll(net, clocks), schedule).flight == []
    ensures Healed(net, After(AnnounceAll(net, clocks), schedule), b)
  {
    var a := AnnounceAll(net, clocks);
    AnnounceAllSane(net, size, clocks);
    if exists i :: 0 <= i < |net.nodes| && Owns(net, i, b) {
      var w := HasTopOwner(net, b, |net.nodes|);
      assert TopOwner(net, b, w);
      var i: nat :| Heralds(net, clocks, i, b);
      TopOwnerPrevails(net, size, clocks, b, w, i);
      HighestOwnerPrevails(a, size, b, w, true, schedule);
      assert SoleOwner(After(a, schedule), b, w);
    } else {
      forall j | 0 <= j < |a.nodes| ensures !Owns(a, j, b) {
        SameStates(net, clocks, j);
        assert !Owns(net, j, b);
      }
      NobodyGains(a, size, b, schedule);
    }
  }

  /** Whatever owners a network starts with: when every node refreshes its claims and all packets are
      delivered in some order, the deliveries end, each block that some owner announces is left
      with its highest owner as the sole one, and no block without owners gains one. */
  lemma {:induction false} PartitionHeals(net: Net, size: nat, clocks: seq<int>, schedule: seq<(nat, int)>)
    requires Sane(net, size) && |clocks| == |net.nodes|
    requires Feasible(AnnounceAll(net, clocks), schedule)
    ensures |schedule| <= Termination.Measure(AnnounceAll(net, clocks), size)
    ensures var r := After(AnnounceAll(net, clocks), schedule);
      r.flight == [] ==> forall b: nat :: b < size && SomeHerald(net, clocks, b) ==> Healed(net, r, b)
  {
    var a := AnnounceAll(net, clocks);
    var r := After(a, schedule);
    AnnounceAllSane(net, size, clocks);
    Termination.DeliveriesEnd(a, size, schedule);
    if r.flight == [] {
      forall b: nat | b < size && SomeHerald(net, clocks, b)
        ensures Healed(net, r, b)
      {
        HealsAt(net, size, clocks, schedule, b);
      }
    }
  }
}
