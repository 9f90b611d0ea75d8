/** Deliveries come to rest. An answer to a claim is sent by a node whose id is above the
    sender's, so a measure on the rank of the sender goes down with every delivery. */
module Termination {
  import opened Types
  import opened HandlerProofs
  import opened Network
  import opened Convergence

  /** Rank from the top: how many nodes have an id above this one. */
  function Above(cfgs: seq<Config>, id: NodeId): (a: nat)
    ensures a <= |cfgs|
  {
    if cfgs == [] then 0
    else Above(cfgs[..|cfgs| - 1], id) + if cfgs[|cfgs| - 1].nodeId > id then 1 else 0
  }

  /** Deliveries one claim can cause, itself included, when a nodes are above its sender and
      an answer puts at most fan packets under way. */
  function Cost(a: nat, fan: nat): (c: nat)
    ensures c >= 1
  {
    if a == 0 then 1 else 1 + fan * Cost(a - 1, fan)
  }

  function Weight(cfgs: seq<Config>, fan: nat, m: Msg): (w: nat)
    ensures w >= 1
  {
    if m.packet.command.UpdateClaim? then Cost(Above(cfgs, m.packet.nodeId), fan)
    else 1 + fan * Cost(|cfgs|, fan)
  }

  function Total(cfgs: seq<Config>, fan: nat, flight: seq<Msg>): nat {
    if flight == [] then 0 else Weight(cfgs, fan, flight[0]) + Total(cfgs, fan, flight[1..])
  }

  /** Most packets that handling one packet of up to 255 entries can put under way. */
  function Fan(size: nat, nodes: nat): nat {
    0xff * size * nodes
  }

  function Measure(net: Net, size: nat): nat {
    Total(net.cfgs, Fan(size, |net.cfgs|), net.flight)
  }

  // ---------------------------------------------------------------- arithmetic of the measure

  lemma {:induction false} AboveAntitone(cfgs: seq<Config>, low: NodeId, high: NodeId)
    requires low <= high
    ensures Above(cfgs, high) <= Above(cfgs, low)
    ensures low < high && (exists i :: 0 <= i < |cfgs| && cfgs[i].nodeId == high) ==>
            Above(cfgs, high) < Above(cfgs, low)
  {
    if cfgs != [] {
      var rest := cfgs[..|cfgs| - 1];
      AboveAntitone(rest, low, high);
      if low < high && exists i :: 0 <= i < |cfgs| && cfgs[i].nodeId == high {
        var i :| 0 <= i < |cfgs| && cfgs[i].nodeId == high;
        if i < |rest| { assert rest[i].nodeId == high; }
      }
    }
  }

  lemma TimesMonotone(f: nat, x: nat, y: nat)
    requires x <= y
    ensures f * x <= f * y && x * f <= y * f
  {
  }

  lemma Distribute(n: nat, x: nat)
    requires n >= 1
    ensures n * x == x + (n - 1) * x
  {
  }

  lemma {:induction false} CostMonotone(a: nat, b: nat, fan: nat)
    requires a <= b
    ensures Cost(a, fan) <= Cost(b, fan)
  {
    if a > 0 {
      CostMonotone(a - 1, b - 1, fan);
      TimesMonotone(fan, Cost(a - 1, fan), Cost(b - 1, fan));
    }
  }

  lemma {:induction false} TotalConcat(cfgs: seq<Config>, fan: nat, s: seq<Msg>, t: seq<Msg>)
    ensures Total(cfgs, fan, s + t) == Total(cfgs, fan, s) + Total(cfgs, fan, t)
  {
    if s == [] {
      assert s + t == t;
    } else {
      TotalConcat(cfgs, fan, s[1..], t);
      assert (s + t)[1..] == s[1..] + t;
    }
  }

  lemma TotalWithout(cfgs: seq<Config>, fan: nat, s: seq<Msg>, k: nat)
    requires k < |s|
    ensures Total(cfgs, fan, s[..k] + s[k + 1..]) == Total(cfgs, fan, s) - Weight(cfgs, fan, s[k])
  {
    assert s == s[..k] + s[k..] && s[k..][1..] == s[k + 1..];
    TotalConcat(cfgs, fan, s[..k], s[k..]);
    TotalConcat(cfgs, fan, s[..k], s[k + 1..]);
  }

  lemma {:induction false} TotalAtMost(cfgs: seq<Config>, fan: nat, s: seq<Msg>, each: nat)
    requires forall m {:trigger m in s} :: m in s ==> Weight(cfgs, fan, m) <= each
    ensures Total(cfgs, fan, s) <= |s| * each
  {
    if |s| > 0 {
      forall m | m in s[1..] ensures Weight(cfgs, fan, m) <= each {
        assert m in s;
      }
      TotalAtMost(cfgs, fan, s[1..], each);
      Distribute(|s|, each);
      assert s[0] in s;
    }
  }

  lemma {:induction false} SentSinceLength(trace: seq<Event>, from: nat)
    requires from <= |trace|
    ensures |SentSince(trace, from)| <= |trace| - from
    decreases |trace|
  {
    if |trace| > from {
      SentSinceLength(trace[..|trace| - 1], from);
    }
  }

  lemma {:induction false} SpreadLength(src: nat, p: Packet, k: nat)
    ensures |Spread(src, p, k)| <= k
  {
    if k > 0 {
      SpreadLength(src, p, k - 1);
    }
  }

  lemma {:induction false} SpreadAllLength(src: nat, packets: seq<Packet>, k: nat)
    ensures |SpreadAll(src, packets, k)| <= |packets| * k
  {
    if |packets| > 0 {
      SpreadAllLength(src, packets[..|packets| - 1], k);
      SpreadLength(src, packets[|packets| - 1], k);
      Distribute(|packets|, k);
    }
  }

  // ---------------------------------------------------------------- one delivery

  /** The packets that the delivery at position k puts under way. */
  function NewFlight(net: Net, k: nat, now: int): seq<Msg>
    requires Deliverable(net, k, now)
  {
    var d := net.flight[k].dst;
    SpreadAll(d, SentSince(Deliver(net, k, now).nodes[d].trace, |net.nodes[d].trace|), |net.nodes|)
  }

  lemma FewAnswers(net: Net, size: nat, k: nat, now: int)
    requires Sane(net, size) && Deliverable(net, k, now)
    ensures |NewFlight(net, k, now)| <= Fan(size, |net.nodes|)
  {
    var m := net.flight[k];
    var d, len := m.dst, |m.packet.payload|;
    assert m in net.flight;
    var n, r := net.nodes[d], Deliver(net, k, now).nodes[d];
    Handled(net, size, k, now);
    HandleSendsFew(net.cfgs[d], UP, n, m.packet, m.src, now, len);
    SentSinceLength(r.trace, |n.trace|);
    SpreadAllLength(d, SentSince(r.trace, |n.trace|), |net.nodes|);
    TimesMonotone(size, len, 0xff);
    TimesMonotone(|net.nodes|, |SentSince(r.trace, |n.trace|)|, len * size);
    TimesMonotone(|net.nodes|, len * size, 0xff * size);
  }

  lemma AnswersWeigh(net: Net, size: nat, k: nat, now: int)
    requires Sane(net, size) && Deliverable(net, k, now)
    ensures var d := net.flight[k].dst; var fan := Fan(size, |net.cfgs|);
      forall a :: a in NewFlight(net, k, now) ==>
        Weight(net.cfgs, fan, a) == Cost(Above(net.cfgs, net.cfgs[d].nodeId), fan)
  {
    var d := net.flight[k].dst;
    var n, r := net.nodes[d], Deliver(net, k, now).nodes[d];
    Handled(net, size, k, now);
    forall a | a in NewFlight(net, k, now)
      ensures a.packet.command.UpdateClaim? && a.packet.nodeId == net.cfgs[d].nodeId
    {
      InSpreadAll(d, SentSince(r.trace, |n.trace|), |net.nodes|, a);
      InSentSince(r.trace, |n.trace|, a.packet);
      var i :| |n.trace| <= i < |r.trace| && r.trace[i] == Sent(a.packet, true);
      assert AnswerEvent(net.cfgs[d], n, r.trace[i]);
    }
  }

  /** A claim answered at all comes from a lower id than the one that answers. */
  lemma AnsweredIsLower(net: Net, size: nat, k: nat, now: int)
    requires Sane(net, size) && Deliverable(net, k, now)
    requires net.flight[k].packet.command.UpdateClaim? && NewFlight(net, k, now) != []
    ensures net.flight[k].packet.nodeId < net.cfgs[net.flight[k].dst].nodeId
  {
    var m := net.flight[k];
    var n := net.nodes[m.dst];
    if m.packet.nodeId >= net.cfgs[m.dst].nodeId {
      HigherClaimIsSilent(net.cfgs[m.dst], UP, n, m.packet, m.src, now, |m.packet.payload|);
      SentSinceLength(n.trace, |n.trace|);
      SpreadAllLength(m.dst, [], |net.nodes|);
    }
  }

  lemma NewWeightFits(net: Net, size: nat, k: nat, now: int)
    requires Sane(net, size) && Deliverable(net, k, now)
    ensures var fan := Fan(size, |net.cfgs|);
      Total(net.cfgs, fan, NewFlight(net, k, now)) < Weight(net.cfgs, fan, net.flight[k])
  {
    var m, new' := net.flight[k], NewFlight(net, k, now);
    var fan := Fan(size, |net.cfgs|);
    if new' != [] {
      var each := Cost(Above(net.cfgs, net.cfgs[m.dst].nodeId), fan);
      AnswersWeigh(net, size, k, now);
      TotalAtMost(net.cfgs, fan, new', each);
      FewAnswers(net, size, k, now);
      TimesMonotone(each, |new'|, fan);
      var bound := |net.cfgs|;
      if m.packet.command.UpdateClaim? {
        AnsweredIsLower(net, size, k, now);
        AboveAntitone(net.cfgs, m.packet.nodeId, net.cfgs[m.dst].nodeId);
        bound := Above(net.cfgs, m.packet.nodeId) - 1;
      }
      CostMonotone(Above(net.cfgs, net.cfgs[m.dst].nodeId), bound, fan);
      TimesMonotone(fan, each, Cost(bound, fan));
    }
  }

  lemma MeasureDecreases(net: Net, size: nat, k: nat, now: int)
    requires Sane(net, size) && Deliverable(net, k, now)
    ensures Measure(Deliver(net, k, now), size) < Measure(net, size)
  {
    var fan := Fan(size, |net.cfgs|);
    TotalWithout(net.cfgs, fan, net.flight, k);
    TotalConcat(net.cfgs, fan, net.flight[..k] + net.flight[k + 1..], NewFlight(net, k, now));
    NewWeightFits(net, size, k, now);
  }

  // ---------------------------------------------------------------- all deliveries

  /** No schedule is longer than the measure of the network it starts from. */
  lemma {:induction false} DeliveriesEnd(net: Net, size: nat, schedule: seq<(nat, int)>)
    requires Sane(net, size) && Feasible(net, schedule)
    ensures |schedule| <= Measure(net, size)
    ensures Sane(After(net, schedule), size)
    decreases |schedule|
  {
    if schedule != [] {
      var (k, now) := schedule[0];
      MeasureDecreases(net, size, k, now);
      StaysSane(net, size, k, now);
      DeliveriesEnd(Deliver(net, k, now), size, schedule[1..]);
    }
  }

  /** Every schedule can be carried on to one after which nothing is under way. */
  lemma {:induction false} CanDrain(net: Net, size: nat) returns (schedule: seq<(nat, int)>)
    requires Sane(net, size)
    ensures Feasible(net, schedule) && After(net, schedule).flight == []
    decreases Measure(net, size)
  {
    if net.flight == [] {
      schedule := [];
    } else {
      assert net.flight[0] in net.flight && MsgOk(net, net.flight[0]);
      MeasureDecreases(net, size, 0, 1);
      StaysSane(net, size, 0, 1);
      var rest := CanDrain(Deliver(net, 0, 1), size);
      schedule := [(0, 1)] + rest;
      assert schedule[1..] == rest;
    }
  }
}
