/** Whom the other nodes record as the owner of a block, which is where they forward a client's
    renewal. After a conflict it is whoever they heard last, and that may be a loser; the next
    refresh of the winner puts it right. */
module RecordedOwner {
  import opened Types
  import opened BlockSpec
  import RefreshProofs
  import HandlerProofs
  import opened Network
  import opened Convergence
  import opened Healing
  import Termination

  /** Node j has the block claimed by node s on record. */
  predicate Names(net: Net, j: nat, b: nat, s: nat) {
    && j < |net.nodes| && b < |net.nodes[j].blocks| && s < |net.cfgs|
    && net.nodes[j].blocks[b].state.Claimed?
    && net.nodes[j].blocks[b].nodeId == net.cfgs[s].nodeId && net.nodes[j].blocks[b].owner == s
  }

  /** A claim of b by node s, for node j. */
  predicate ClaimFor(m: Msg, b: nat, s: nat, j: nat) {
    m.src == s && m.dst == j && m.packet.command.UpdateClaim? && Lists(m.packet, b)
  }

  // ---------------------------------------------------------------- one delivery

  lemma Untouched(net: Net, size: nat, k: nat, now: int, b: nat, j: nat)
    requires Sane(net, size) && Deliverable(net, k, now) && b < size && j < |net.nodes|
    requires !net.nodes[j].blocks[b].state.Ours? && (net.flight[k].dst == j ==> !Lists(net.flight[k].packet, b))
    ensures var r := Deliver(net, k, now); |r.nodes[j].blocks| == size && r.nodes[j].blocks[b] == net.nodes[j].blocks[b]
  {
    var m := net.flight[k];
    StateAt(net, size, k, now, b, j);
    if m.dst == j { HandlerProofs.PacketExact(net.cfgs[j], UP, net.nodes[j], m.packet, m.src, now, b); }
  }

  /** A claim of b that leaves the receiver without the block is on record there. */
  lemma Recorded(net: Net, size: nat, k: nat, now: int, b: nat, s: nat, j: nat)
    requires Sane(net, size) && Deliverable(net, k, now) && b < size && ClaimFor(net.flight[k], b, s, j)
    requires !Owns(Deliver(net, k, now), j, b)
    ensures Names(Deliver(net, k, now), j, b, s)
  {
    var m := net.flight[k];
    StateAt(net, size, k, now, b, j);
    HandlerProofs.PacketExact(net.cfgs[j], UP, net.nodes[j], m.packet, m.src, now, b);
  }

  // ---------------------------------------------------------------- the claim heard last

  /** Who sent the last packet about b that is delivered to j. */
  ghost function LastHeard(net: Net, schedule: seq<(nat, int)>, b: nat, j: nat): Option<nat>
    requires Feasible(net, schedule)
    decreases |schedule|
  {
    if schedule == [] then None
    else
      var later := LastHeard(Deliver(net, schedule[0].0, schedule[0].1), schedule[1..], b, j);
      var m := net.flight[schedule[0].0];
      if later.Some? then later else if m.dst == j && Lists(m.packet, b) then Some(m.src) else None
  }

  /** A node without the block at the end has the sender heard last on record. */
  lemma {:induction false} LastHeardIsRecorded(net: Net, size: nat, b: nat, w: nat, schedule: seq<(nat, int)>, j: nat)
    requires Prevails(net, size, b, w, true) && Feasible(net, schedule) && j < |net.nodes|
    requires !Owns(After(net, schedule), j, b)
    ensures var (r, heard) := (After(net, schedule), LastHeard(net, schedule, b, j));
      && r.cfgs == net.cfgs && j < |r.nodes| && |r.nodes[j].blocks| == size
      && (heard.Some? ==> Names(r, j, b, heard.value))
      && (heard.None? ==> r.nodes[j].blocks[b] == net.nodes[j].blocks[b])
    decreases |schedule|
  {
    if schedule != [] {
      var (k, now) := schedule[0];
      var (m, next) := (net.flight[k], Deliver(net, k, now));
      assert m in net.flight;
      PrevailsStays(net, size, b, w, true, k, now);
      LastHeardIsRecorded(next, size, b, w, schedule[1..], j);
      if LastHeard(next, schedule[1..], b, j).None? {
        StateAt(net, size, k, now, b, j);
        if m.dst == j && Lists(m.packet, b) {
          assert Outranked(net, m, w, true);
          Recorded(net, size, k, now, b, m.src, j);
        } else {
          Untouched(net, size, k, now, b, j);
        }
      }
    }
  }

  /** A packet under way is heard before nothing is. */
  lemma {:induction false} WillHear(net: Net, schedule: seq<(nat, int)>, b: nat, j: nat, m: Msg)
    requires Feasible(net, schedule) && m in net.flight && m.dst == j && Lists(m.packet, b)
    requires After(net, schedule).flight == []
    ensures LastHeard(net, schedule, b, j).Some?
    decreases |schedule|
  {
    var (k, now) := schedule[0];
    InFlightAfter(net, k, now, m);
    if m != net.flight[k] {
      WillHear(Deliver(net, k, now), schedule[1..], b, j, m);
    }
  }

  /** A reminder under way is the packet heard, or makes w answer with one that will be. */
  lemma {:induction false} WillBeReminded(net: Net, size: nat, b: nat, w: nat, schedule: seq<(nat, int)>, j: nat, m: Msg)
    requires Prevails(net, size, b, w, true) && j < |net.nodes| && j != w
    requires Feasible(net, schedule) && After(net, schedule).flight == []
    requires m in net.flight && Reminder(m, b, w, j)
    ensures LastHeard(net, schedule, b, j).Some?
    decreases |schedule|
  {
    if m.dst == j {
      WillHear(net, schedule, b, j, m);
    } else {
      var (k, now) := schedule[0];
      var next := Deliver(net, k, now);
      PrevailsStays(net, size, b, w, true, k, now);
      InFlightAfter(net, k, now, m);
      if m == net.flight[k] {
        assert Outranked(net, m, w, true) && MsgOk(net, m);
        var a := Provoked(net, size, k, now, b, j);
        WillHear(next, schedule[1..], b, j, a);
      } else {
        WillBeReminded(next, size, b, w, schedule[1..], j, m);
      }
    }
  }

  /** After the round in which a conflict is resolved, a node names the winner if and only if the
      winner's claim is the last one it has heard. */
  lemma NamesWinnerExactly(net: Net, size: nat, clocks: seq<int>, schedule: seq<(nat, int)>, b: nat, w: nat, i: nat, j: nat)
    requires Sane(net, size) && |clocks| == |net.nodes| && b < size && TopOwner(net, b, w)
    requires Heralds(net, clocks, i, b) && j < |net.nodes| && j != w
    requires Feasible(AnnounceAll(net, clocks), schedule)
    requires After(AnnounceAll(net, clocks), schedule).flight == []
    ensures var (r, heard) := (After(AnnounceAll(net, clocks), schedule), LastHeard(AnnounceAll(net, clocks), schedule, b, j));
      heard.Some? && Names(r, j, b, heard.value) && (Names(r, j, b, w) <==> heard == Some(w))
  {
    var a := AnnounceAll(net, clocks);
    TopOwnerPrevails(net, size, clocks, b, w, i);
    HighestOwnerPrevails(a, size, b, w, true, schedule);
    LastHeardIsRecorded(a, size, b, w, schedule, j);
    var m := AnnouncedReminds(net, clocks, b, w, i, j);
    WillBeReminded(a, size, b, w, schedule, j, m);
  }

  // ---------------------------------------------------------------- any owner's claim may come last

  ghost predicate Bystands(net: Net, size: nat, j: nat) {
    j < |net.nodes| && forall c :: 0 <= c < size ==> !Owns(net, j, c)
  }

  lemma StillBystands(net: Net, size: nat, k: nat, now: int, j: nat)
    requires Sane(net, size) && Deliverable(net, k, now) && Bystands(net, size, j)
    ensures Bystands(Deliver(net, k, now), size, j)
  {
    forall c | 0 <= c < size ensures !Owns(Deliver(net, k, now), j, c) {
      StateAt(net, size, k, now, c, j);
      assert !Owns(net, j, c);
    }
  }

  /** A node that owns nothing answers nothing. */
  lemma BystanderIsSilent(net: Net, size: nat, k: nat, now: int)
    requires Sane(net, size) && Deliverable(net, k, now) && Bystands(net, size, net.flight[k].dst)
    ensures Deliver(net, k, now).flight == net.flight[..k] + net.flight[k + 1..]
  {
    var d := net.flight[k].dst;
    var (n, r) := (net.nodes[d], Deliver(net, k, now).nodes[d]);
    var sent := SentSince(r.trace, |n.trace|);
    Handled(net, size, k, now);
    if sent != [] {
      InSentSince(r.trace, |n.trace|, sent[0]);
      var i :| |n.trace| <= i < |r.trace| && r.trace[i] == Sent(sent[0], true);
      assert HandlerProofs.AnswerEvent(net.cfgs[d], n, r.trace[i]);
      assert RefreshProofs.OwnClaim(net.cfgs[d], n.blocks, r.trace[i]);
      var p := sent[0];
      assert Lists(p, p.payload[0].blockIndex);
      assert Owns(net, d, p.payload[0].blockIndex);
    }
  }

  /** Everything else is delivered before the packet at position k. */
  lemma {:induction false} DeliverLast(net: Net, size: nat, k: nat, b: nat, s: nat, j: nat)
      returns (schedule: seq<(nat, int)>)
    requires Sane(net, size) && k < |net.flight| && b < size && ClaimFor(net.flight[k], b, s, j) && Bystands(net, size, j)
    ensures Feasible(net, schedule)
    ensures After(net, schedule).flight == [] && Names(After(net, schedule), j, b, s)
    decreases Termination.Measure(net, size)
  {
    var i := if |net.flight| == 1 then 0 else if k == 0 then 1 else 0;
    assert net.flight[i] in net.flight && MsgOk(net, net.flight[i]);
    Termination.MeasureDecreases(net, size, i, 1);
    StaysSane(net, size, i, 1);
    StillBystands(net, size, i, 1, j);
    var next := Deliver(net, i, 1);
    var rest := [];
    if i == k {
      BystanderIsSilent(net, size, k, 1);
      assert !Owns(next, j, b);
      Recorded(net, size, k, 1, b, s, j);
    } else {
      rest := DeliverLast(next, size, if i < k then k - 1 else k, b, s, j);
    }
    schedule := [(i, 1)] + rest;
    assert schedule[1..] == rest;
  }

  /** In every network: any owner that announces b, the winner or a loser, is the one that a node without
      blocks names after some order of delivery that resolves the conflict. */
  lemma AnyOwnerMayBeNamed(net: Net, size: nat, clocks: seq<int>, b: nat, a: nat, j: nat) returns (schedule: seq<(nat, int)>)
    requires Sane(net, size) && |clocks| == |net.nodes| && b < size
    requires Heralds(net, clocks, a, b) && Bystands(net, size, j)
    ensures Feasible(AnnounceAll(net, clocks), schedule)
    ensures var r := After(AnnounceAll(net, clocks), schedule);
      r.flight == [] && Healed(net, r, b) && Names(r, j, b, a)
  {
    var start := AnnounceAll(net, clocks);
    AnnounceAllSane(net, size, clocks);
    assert Owns(net, a, b) && a != j;
    var m := HeraldIsHeard(net, clocks, a, b, j);
    forall c | 0 <= c < size ensures !Owns(start, j, c) {
      SameStates(net, clocks, j);
      assert !Owns(net, j, c);
    }
    var k :| 0 <= k < |start.flight| && start.flight[k] == m;
    schedule := DeliverLast(start, size, k, b, a, j);
    HealsAt(net, size, clocks, schedule, b);
  }

  // ---------------------------------------------------------------- the next refresh names the owner

  ghost predicate Naming(net: Net, b: nat, w: nat, j: nat) {
    Names(net, j, b, w) || exists m :: m in net.flight && ClaimFor(m, b, w, j)
  }

  /** w alone owns b, every packet about b is a claim of w, and every other node names w or has
      such a claim coming. */
  ghost predicate Spreading(net: Net, size: nat, b: nat, w: nat) {
    && Sane(net, size) && b < size && Owns(net, w, b)
    && (forall j :: 0 <= j < |net.nodes| && j != w ==> !Owns(net, j, b) && Naming(net, b, w, j))
    && (forall m :: m in net.flight && Lists(m.packet, b) ==> m.src == w && m.packet.command.UpdateClaim?)
  }

  lemma NamingStays(net: Net, size: nat, b: nat, w: nat, k: nat, now: int, j: nat)
    requires Spreading(net, size, b, w) && Deliverable(net, k, now) && j < |net.nodes| && j != w
    ensures !Owns(Deliver(net, k, now), j, b) && Naming(Deliver(net, k, now), b, w, j)
  {
    var m := net.flight[k];
    assert m in net.flight;
    StateAt(net, size, k, now, b, j);
    assert !Owns(net, j, b) && Naming(net, b, w, j);
    if m.dst == j && Lists(m.packet, b) {
      Recorded(net, size, k, now, b, w, j);
    } else {
      Untouched(net, size, k, now, b, j);
      if !Names(net, j, b, w) {
        var c :| c in net.flight && ClaimFor(c, b, w, j);
        InFlightAfter(net, k, now, c);
      }
    }
  }

  lemma SpreadingStays(net: Net, size: nat, b: nat, w: nat, k: nat, now: int)
    requires Spreading(net, size, b, w) && Deliverable(net, k, now)
    ensures Spreading(Deliver(net, k, now), size, b, w)
  {
    var (m, r) := (net.flight[k], Deliver(net, k, now));
    assert m in net.flight;
    StaysSane(net, size, k, now);
    StateAt(net, size, k, now, b, w);
    forall j | 0 <= j < |r.nodes| && j != w ensures !Owns(r, j, b) && Naming(r, b, w, j) {
      NamingStays(net, size, b, w, k, now, j);
    }
    forall a | a in r.flight && Lists(a.packet, b) ensures a.src == w && a.packet.command.UpdateClaim? {
      NewMsgs(net, size, k, now, a);
      assert a !in net.flight ==> Owns(net, m.dst, b);
    }
  }

  lemma {:induction false} AllName(net: Net, size: nat, b: nat, w: nat, schedule: seq<(nat, int)>)
    requires Spreading(net, size, b, w) && Feasible(net, schedule) && After(net, schedule).flight == []
    ensures var r := After(net, schedule);
      |r.nodes| == |net.nodes| && Owns(r, w, b) && forall j :: 0 <= j < |r.nodes| && j != w ==> Names(r, j, b, w)
    decreases |schedule|
  {
    if schedule == [] {
      forall j | 0 <= j < |net.nodes| && j != w ensures Names(net, j, b, w) {
        assert Naming(net, b, w, j);
      }
    } else {
      var (k, now) := schedule[0];
      SpreadingStays(net, size, b, w, k, now);
      AllName(Deliver(net, k, now), size, b, w, schedule[1..]);
    }
  }

  /** When the sole owner of a block announces it in its refresh and everything is delivered in any order,
      every other node has its id and address on record. */
  lemma SoleOwnerIsNamed(net: Net, size: nat, clocks: seq<int>, schedule: seq<(nat, int)>, b: nat, w: nat)
    requires Sane(net, size) && |clocks| == |net.nodes| && b < size && Owns(net, w, b)
    requires forall j :: 0 <= j < |net.nodes| && j != w ==> !Owns(net, j, b)
    requires Heralds(net, clocks, w, b)
    requires Feasible(AnnounceAll(net, clocks), schedule)
    requires After(AnnounceAll(net, clocks), schedule).flight == []
    ensures var r := After(AnnounceAll(net, clocks), schedule);
      |r.nodes| == |net.nodes| && Owns(r, w, b) && forall j :: 0 <= j < |r.nodes| && j != w ==> Names(r, j, b, w)
  {
    var a := AnnounceAll(net, clocks);
    AnnounceAllSane(net, size, clocks);
    SameStates(net, clocks, w);
    forall j | 0 <= j < |a.nodes| && j != w ensures !Owns(a, j, b) && Naming(a, b, w, j) {
      SameStates(net, clocks, j);
      assert !Owns(net, j, b);
      var m := HeraldIsHeard(net, clocks, w, b, j);
    }
    forall m | m in a.flight && Lists(m.packet, b) ensures m.src == w && m.packet.command.UpdateClaim? {
      assert AnswerMsg(net, m.src, m);
      assert Owns(net, m.src, b);
    }
    AllName(a, size, b, w, schedule);
  }

  /** Whatever owners a network starts with, some owner announcing b, and in whatever order two rounds of
      refreshes are delivered: after the first, whoever is named, the highest owner is alone; after
      the second, if w announces b in it, every other node names it. */
  lemma SecondRoundNamesWinner(net: Net, size: nat, clocks: seq<int>, schedule: seq<(nat, int)>,
                               clocks2: seq<int>, schedule2: seq<(nat, int)>, b: nat, w: nat, i: nat)
    requires Sane(net, size) && |clocks| == |clocks2| == |net.nodes| && b < size
    requires TopOwner(net, b, w) && Heralds(net, clocks, i, b)
    requires Feasible(AnnounceAll(net, clocks), schedule)
    requires After(AnnounceAll(net, clocks), schedule).flight == []
    requires var r := After(AnnounceAll(net, clocks), schedule);
      && |r.nodes| == |r.cfgs| == |net.nodes| && Heralds(r, clocks2, w, b)
      && Feasible(AnnounceAll(r, clocks2), schedule2) && After(AnnounceAll(r, clocks2), schedule2).flight == []
    ensures var r := After(AnnounceAll(net, clocks), schedule); var r2 := After(AnnounceAll(r, clocks2), schedule2);
      && SoleOwner(r, b, w)
      && |r2.nodes| == |net.nodes| && Owns(r2, w, b) && forall j :: 0 <= j < |r2.nodes| && j != w ==> Names(r2, j, b, w)
  {
    var a := AnnounceAll(net, clocks);
    var r := After(a, schedule);
    AnnounceAllSane(net, size, clocks);
    Termination.DeliveriesEnd(a, size, schedule);
    TopOwnerPrevails(net, size, clocks, b, w, i);
    HighestOwnerPrevails(a, size, b, w, true, schedule);
    SoleOwnerIsNamed(r, size, clocks2, schedule2, b, w);
  }
}
