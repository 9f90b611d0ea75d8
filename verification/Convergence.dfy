/** Conflicts about a block are resolved in favour of the highest id, and inquiries elect
    the highest claimant, whatever the order of delivery. */
module Convergence {
  import opened Types
  import RefreshProofs
  import opened HandlerProofs
  import opened Network

  // ---------------------------------------------------------------- one delivery

  /** A packet sent in answer: a claim, by the destination, of blocks it owns. */
  ghost predicate AnswerMsg(net: Net, d: nat, m: Msg)
    requires d < |net.nodes| == |net.cfgs|
  {
    && m.src == d && m.dst != d && m.dst < |net.nodes|
    && m.packet.command.UpdateClaim? && m.packet.nodeId == net.cfgs[d].nodeId
    && |m.packet.payload| <= 0xff
    && forall b: nat :: Lists(m.packet, b) ==> b < |net.nodes[d].blocks| && net.nodes[d].blocks[b].state.Ours?
  }

  lemma Handled(net: Net, size: nat, k: nat, now: int)
    requires Sane(net, size) && Deliverable(net, k, now)
    ensures MsgOk(net, net.flight[k])
    ensures var (m, r) := (net.flight[k], Deliver(net, k, now)); var d := m.dst;
      && r.nodes == net.nodes[d := r.nodes[d]]
      && Answers(net.cfgs[d], net.nodes[d], r.nodes[d])
      && (forall b :: 0 <= b < size ==> HandledAt(net.cfgs[d], net.nodes[d], r.nodes[d], m.packet, b, |m.packet.payload|))
  {
    var m := net.flight[k];
    assert m in net.flight;
    HandleEffect(net.cfgs[m.dst], UP, net.nodes[m.dst], m.packet, m.src, now, |m.packet.payload|);
  }

  lemma NewMsgs(net: Net, size: nat, k: nat, now: int, m: Msg)
    requires Sane(net, size) && Deliverable(net, k, now)
    requires MsgOk(net, net.flight[k])
    requires m in Deliver(net, k, now).flight
    ensures m in net.flight || AnswerMsg(net, net.flight[k].dst, m)
  {
    var d := net.flight[k].dst;
    var r := Deliver(net, k, now);
    Handled(net, size, k, now);
    InFlightAfter(net, k, now, m);
    if m !in net.flight {
      var n := net.nodes[d];
      var i :| |n.trace| <= i < |r.nodes[d].trace| && r.nodes[d].trace[i] == Sent(m.packet, true);
      assert AnswerEvent(net.cfgs[d], n, r.nodes[d].trace[i]);
    }
  }

  lemma StaysSane(net: Net, size: nat, k: nat, now: int)
    requires Sane(net, size) && Deliverable(net, k, now)
    ensures Sane(Deliver(net, k, now), size)
  {
    var r := Deliver(net, k, now);
    Handled(net, size, k, now);
    forall m | m in r.flight ensures MsgOk(r, m) {
      NewMsgs(net, size, k, now, m);
    }
  }

  /** State of block b at every node after the delivery. */
  lemma StateAt(net: Net, size: nat, k: nat, now: int, b: nat, j: nat)
    requires Sane(net, size) && Deliverable(net, k, now) && b < size && j < |net.nodes|
    ensures MsgOk(net, net.flight[k])
    ensures var (m, r) := (net.flight[k], Deliver(net, k, now)); var s := net.nodes[j].blocks[b].state;
      && |r.nodes[j].blocks| == size
      && r.nodes[j].blocks[b].state ==
           if j == m.dst && Lists(m.packet, b) then StateAfter(net.cfgs[j], s, m.packet) else s
  {
    var m := net.flight[k];
    Handled(net, size, k, now);
    assert HandledAt(net.cfgs[m.dst], net.nodes[m.dst], Deliver(net, k, now).nodes[m.dst], m.packet, b, |m.packet.payload|);
    assert ListsFirst(m.packet, b, |m.packet.payload|) <==> Lists(m.packet, b);
  }

  /** An owner that is provoked about b sends a claim listing b to every other node. */
  lemma Provoked(net: Net, size: nat, k: nat, now: int, b: nat, j: nat) returns (a: Msg)
    requires Sane(net, size) && Deliverable(net, k, now) && b < size
    requires MsgOk(net, net.flight[k]) && Lists(net.flight[k].packet, b)
    requires var d := net.flight[k].dst;
      Provokes(net.cfgs[d], net.nodes[d].blocks[b].state, net.flight[k].packet) && j < |net.nodes| && j != d
    ensures a in Deliver(net, k, now).flight && AnswerMsg(net, net.flight[k].dst, a)
    ensures a.dst == j && Lists(a.packet, b)
  {
    var m := net.flight[k];
    var d, n := m.dst, net.nodes[m.dst];
    var r := Deliver(net, k, now).nodes[d];
    Handled(net, size, k, now);
    assert HandledAt(net.cfgs[d], n, r, m.packet, b, |m.packet.payload|);
    assert ListsFirst(m.packet, b, |m.packet.payload|);
    var i :| |n.trace| <= i < |r.trace| && RefreshProofs.Announces(r.trace[i], b);
    assert AnswerEvent(net.cfgs[d], n, r.trace[i]);
    a := Msg(d, j, r.trace[i].packet);
    assert r.trace[i] == Sent(a.packet, true);
    InFlightAfter(net, k, now, a);
  }

  // ---------------------------------------------------------------- conflict resolution

  predicate Done(s: BlockState, claimsOnly: bool) {
    if claimsOnly then s.Claimed? else !s.Ours? && !s.Claiming?
  }

  /** Node j will hear from w about b: a claim of w is under way to j, or some packet about b
      is under way to w, which will answer to all. */
  predicate Reminder(m: Msg, b: nat, w: nat, j: nat) {
    Lists(m.packet, b) && ((m.src == w && m.dst == j && m.packet.command.UpdateClaim?) || m.dst == w)
  }

  ghost predicate Settling(net: Net, b: nat, w: nat, j: nat, claimsOnly: bool)
    requires j < |net.nodes| && b < |net.nodes[j].blocks|
  {
    Done(net.nodes[j].blocks[b].state, claimsOnly) || exists m :: m in net.flight && Reminder(m, b, w, j)
  }

  /** w owns b, every other owner and every other sender of a claim of b has a lower id, and
      every other node has settled on b or will hear from w. With claimsOnly, no inquiry about
      b is under way. */
  ghost predicate Prevails(net: Net, size: nat, b: nat, w: nat, claimsOnly: bool) {
    && Sane(net, size) && b < size && w < |net.nodes| && net.nodes[w].blocks[b].state.Ours?
    && (forall j :: 0 <= j < |net.nodes| && j != w && net.nodes[j].blocks[b].state.Ours? ==>
          net.cfgs[j].nodeId < net.cfgs[w].nodeId)
    && (forall m :: m in net.flight && Lists(m.packet, b) ==> Outranked(net, m, w, claimsOnly))
    && (forall j :: 0 <= j < |net.nodes| && j != w ==> Settling(net, b, w, j, claimsOnly))
  }

  ghost predicate Outranked(net: Net, m: Msg, w: nat, claimsOnly: bool)
    requires w < |net.cfgs|
  {
    && (m.packet.command.Inquire? ==> !claimsOnly)
    && (m.packet.command.UpdateClaim? ==> m.src == w || m.packet.nodeId < net.cfgs[w].nodeId)
  }

  lemma OwnerStays(net: Net, size: nat, b: nat, w: nat, claimsOnly: bool, k: nat, now: int)
    requires Prevails(net, size, b, w, claimsOnly) && Deliverable(net, k, now)
    ensures |Deliver(net, k, now).nodes[w].blocks| == size
    ensures Deliver(net, k, now).nodes[w].blocks[b].state.Ours?
  {
    var m := net.flight[k];
    assert m in net.flight;
    StateAt(net, size, k, now, b, w);
    if m.dst == w && Lists(m.packet, b) {
      assert Outranked(net, m, w, claimsOnly);
    }
  }

  lemma SettlingStays(net: Net, size: nat, b: nat, w: nat, claimsOnly: bool, k: nat, now: int, j: nat)
    requires Prevails(net, size, b, w, claimsOnly) && Deliverable(net, k, now)
    requires j < |net.nodes| && j != w
    ensures |Deliver(net, k, now).nodes[j].blocks| == size
    ensures Settling(Deliver(net, k, now), b, w, j, claimsOnly)
  {
    var m := net.flight[k];
    var r := Deliver(net, k, now);
    assert m in net.flight;
    StateAt(net, size, k, now, b, j);
    if Lists(m.packet, b) {
      assert Outranked(net, m, w, claimsOnly);
      if m.dst == w {
        var a := Provoked(net, size, k, now, b, j);
        assert Reminder(a, b, w, j);
      } else if !Done(r.nodes[j].blocks[b].state, claimsOnly) {
        assert Settling(net, b, w, j, claimsOnly);
        var a :| a in net.flight && Reminder(a, b, w, j);
        InFlightAfter(net, k, now, a);
      }
    } else if !Done(r.nodes[j].blocks[b].state, claimsOnly) {
      assert Settling(net, b, w, j, claimsOnly);
      var a :| a in net.flight && Reminder(a, b, w, j);
      InFlightAfter(net, k, now, a);
    }
  }

  lemma PrevailsStays(net: Net, size: nat, b: nat, w: nat, claimsOnly: bool, k: nat, now: int)
    requires Prevails(net, size, b, w, claimsOnly) && Deliverable(net, k, now)
    ensures Prevails(Deliver(net, k, now), size, b, w, claimsOnly)
  {
    var r := Deliver(net, k, now);
    StaysSane(net, size, k, now);
    Handled(net, size, k, now);
    OwnerStays(net, size, b, w, claimsOnly, k, now);
    forall j | 0 <= j < |r.nodes| && j != w ensures Settling(r, b, w, j, claimsOnly) {
      SettlingStays(net, size, b, w, claimsOnly, k, now, j);
    }
    forall j | 0 <= j < |r.nodes| && j != w && r.nodes[j].blocks[b].state.Ours?
      ensures r.cfgs[j].nodeId < r.cfgs[w].nodeId
    {
      StateAt(net, size, k, now, b, j);
      assert net.nodes[j].blocks[b].state.Ours?;
    }
    forall m | m in r.flight && Lists(m.packet, b) ensures Outranked(r, m, w, claimsOnly) {
      NewMsgs(net, size, k, now, m);
      if m in net.flight { assert Outranked(net, m, w, claimsOnly); }
    }
  }

  /** Conflict resolution: once nothing is under way, w owns b and no other node owns or
      claims it; if only claims were under way, every other node has recorded a claim of it. */
  lemma {:induction false} HighestOwnerPrevails(net: Net, size: nat, b: nat, w: nat, claimsOnly: bool,
                                                schedule: seq<(nat, int)>)
    requires Prevails(net, size, b, w, claimsOnly) && Feasible(net, schedule)
    requires After(net, schedule).flight == []
    ensures var r := After(net, schedule);
      && |r.nodes| == |net.nodes| && (forall j :: 0 <= j < |r.nodes| ==> |r.nodes[j].blocks| == size)
      && r.nodes[w].blocks[b].state.Ours?
      && (forall j :: 0 <= j < |r.nodes| && j != w ==> Done(r.nodes[j].blocks[b].state, claimsOnly))
    decreases |schedule|
  {
    if schedule == [] {
      forall j | 0 <= j < |net.nodes| && j != w ensures Done(net.nodes[j].blocks[b].state, claimsOnly) {
        assert Settling(net, b, w, j, claimsOnly);
      }
    } else {
      var (k, now) := schedule[0];
      PrevailsStays(net, size, b, w, claimsOnly, k, now);
      HighestOwnerPrevails(Deliver(net, k, now), size, b, w, claimsOnly, schedule[1..]);
    }
  }

  // ---------------------------------------------------------------- election

  predicate Canvass(m: Msg, b: nat, w: nat, j: nat) {
    m.src == w && m.dst == j && m.packet.command.Inquire? && Lists(m.packet, b)
  }

  ghost predicate Yielding(net: Net, b: nat, w: nat, j: nat)
    requires j < |net.nodes| && b < |net.nodes[j].blocks|
  {
    net.nodes[j].blocks[b].state.Tentative? || exists m :: m in net.flight && Canvass(m, b, w, j)
  }

  /** Nobody owns b, w is its highest claimant, only inquiries about b are under way, all from
      w or lower ids, and every other node is tentative or has the inquiry of w coming. */
  ghost predicate Leads(net: Net, size: nat, b: nat, w: nat) {
    && Sane(net, size) && b < size && w < |net.nodes| && net.nodes[w].blocks[b].state.Claiming?
    && (forall j :: 0 <= j < |net.nodes| ==> !net.nodes[j].blocks[b].state.Ours?)
    && (forall j :: 0 <= j < |net.nodes| && j != w && net.nodes[j].blocks[b].state.Claiming? ==>
          net.cfgs[j].nodeId < net.cfgs[w].nodeId)
    && (forall m :: m in net.flight && Lists(m.packet, b) ==>
          m.packet.command.Inquire? && m.packet.nodeId <= net.cfgs[w].nodeId)
    && (forall j :: 0 <= j < |net.nodes| && j != w ==> Yielding(net, b, w, j))
  }

  lemma YieldingStays(net: Net, size: nat, b: nat, w: nat, k: nat, now: int, j: nat)
    requires Leads(net, size, b, w) && Deliverable(net, k, now)
    requires j < |net.nodes| && j != w
    ensures |Deliver(net, k, now).nodes[j].blocks| == size
    ensures Yielding(Deliver(net, k, now), b, w, j)
  {
    var m := net.flight[k];
    var r := Deliver(net, k, now);
    assert m in net.flight;
    StateAt(net, size, k, now, b, j);
    if !r.nodes[j].blocks[b].state.Tentative? {
      assert Yielding(net, b, w, j);
      var a :| a in net.flight && Canvass(a, b, w, j);
      InFlightAfter(net, k, now, a);
    }
  }

  lemma LeadsStays(net: Net, size: nat, b: nat, w: nat, k: nat, now: int)
    requires Leads(net, size, b, w) && Deliverable(net, k, now)
    ensures Leads(Deliver(net, k, now), size, b, w)
  {
    var m := net.flight[k];
    var r := Deliver(net, k, now);
    assert m in net.flight;
    StaysSane(net, size, k, now);
    forall j | 0 <= j < |r.nodes|
      ensures |r.nodes[j].blocks| == size && !r.nodes[j].blocks[b].state.Ours?
      ensures j != w && r.nodes[j].blocks[b].state.Claiming? ==> r.cfgs[j].nodeId < r.cfgs[w].nodeId
      ensures j == w ==> r.nodes[j].blocks[b].state.Claiming?
    {
      StateAt(net, size, k, now, b, j);
    }
    forall j | 0 <= j < |r.nodes| && j != w ensures Yielding(r, b, w, j) {
      YieldingStays(net, size, b, w, k, now, j);
    }
    forall a | a in r.flight && Lists(a.packet, b)
      ensures a.packet.command.Inquire? && a.packet.nodeId <= r.cfgs[w].nodeId
    {
      NewMsgs(net, size, k, now, a);
    }
  }

  /** Inquiry election: once nothing is under way, the highest claimant is the only one left
      claiming b, and every other node holds it tentative. */
  lemma {:induction false} HighestClaimantWins(net: Net, size: nat, b: nat, w: nat, schedule: seq<(nat, int)>)
    requires Leads(net, size, b, w) && Feasible(net, schedule)
    requires After(net, schedule).flight == []
    ensures var r := After(net, schedule);
      && |r.nodes| == |net.nodes| && (forall j :: 0 <= j < |r.nodes| ==> |r.nodes[j].blocks| == size)
      && r.nodes[w].blocks[b].state.Claiming?
      && (forall j :: 0 <= j < |r.nodes| && j != w ==> r.nodes[j].blocks[b].state.Tentative?)
    decreases |schedule|
  {
    if schedule == [] {
      forall j | 0 <= j < |net.nodes| && j != w ensures net.nodes[j].blocks[b].state.Tentative? {
        assert Yielding(net, b, w, j);
      }
    } else {
      var (k, now) := schedule[0];
      LeadsStays(net, size, b, w, k, now);
      HighestClaimantWins(Deliver(net, k, now), size, b, w, schedule[1..]);
    }
  }
}
