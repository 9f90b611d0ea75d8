/** N nodes and the multicast packets under way between them. Delivery is lossless and in
    any order; a packet sent by a node goes to every other node (netsock.c turns multicast
    loopback off). */
module Network {
  import opened Types
  import ConsensusSpec

  datatype Msg = Msg(src: nat, dst: nat, packet: Packet)

  /** The flight is a bag kept as a sequence: any position may be delivered next. */
  datatype Net = Net(cfgs: seq<Config>, nodes: seq<Node>, flight: seq<Msg>)

  /** No send fails. */
  const UP: Link := (k: nat) => true

  function SentSince(trace: seq<Event>, from: nat): seq<Packet>
    decreases |trace|
  {
    if |trace| <= from then []
    else
      var e := trace[|trace| - 1];
      SentSince(trace[..|trace| - 1], from) + if e.Sent? && e.ok then [e.packet] else []
  }

  /** One copy of the packet for each of the first k nodes except the sender. */
  function Spread(src: nat, p: Packet, k: nat): seq<Msg> {
    if k == 0 then [] else Spread(src, p, k - 1) + if k - 1 == src then [] else [Msg(src, k - 1, p)]
  }

  function SpreadAll(src: nat, packets: seq<Packet>, k: nat): seq<Msg> {
    if packets == [] then []
    else SpreadAll(src, packets[..|packets| - 1], k) + Spread(src, packets[|packets| - 1], k)
  }

  /** Everything in one flight. */
  function Gather(parts: seq<seq<Msg>>): seq<Msg> {
    if parts == [] then [] else Gather(parts[..|parts| - 1]) + parts[|parts| - 1]
  }

  lemma {:induction false} InGather(parts: seq<seq<Msg>>, m: Msg)
    ensures m in Gather(parts) <==> exists i :: 0 <= i < |parts| && m in parts[i]
  {
    if parts != [] {
      InGather(parts[..|parts| - 1], m);
    }
  }

  ghost predicate MsgOk(net: Net, m: Msg) {
    && m.src < |net.cfgs| && m.dst < |net.nodes| && m.src != m.dst
    && m.packet.nodeId == net.cfgs[m.src].nodeId
    && |m.packet.payload| <= 0xff
  }

  ghost predicate Sane(net: Net, size: nat) {
    && |net.cfgs| == |net.nodes|
    && (forall i, j :: 0 <= i < j < |net.cfgs| ==> net.cfgs[i].nodeId != net.cfgs[j].nodeId)
    && (forall i :: 0 <= i < |net.nodes| ==> |net.nodes[i].blocks| == size)
    && (forall m :: m in net.flight ==> MsgOk(net, m))
  }

  predicate Deliverable(net: Net, k: nat, now: int) {
    |net.cfgs| == |net.nodes| && k < |net.flight| && net.flight[k].dst < |net.nodes| && now > 0
  }

  /** The packet at position k reaches its destination, which handles it at its time now. */
  function Deliver(net: Net, k: nat, now: int): Net
    requires Deliverable(net, k, now)
  {
    var m := net.flight[k];
    var n := net.nodes[m.dst];
    var r := ConsensusSpec.Handle(net.cfgs[m.dst], UP, n, m.packet, m.src, now);
    net.(nodes := net.nodes[m.dst := r],
         flight := net.flight[..k] + net.flight[k + 1..]
                   + SpreadAll(m.dst, SentSince(r.trace, |n.trace|), |net.nodes|))
  }

  // ---------------------------------------------------------------- what is added to the flight

  lemma {:induction false} InSpread(src: nat, p: Packet, k: nat, m: Msg)
    ensures m in Spread(src, p, k) <==> m.src == src && m.packet == p && m.dst < k && m.dst != src
  {
    if k > 0 {
      InSpread(src, p, k - 1, m);
    }
  }

  lemma {:induction false} InSpreadAll(src: nat, packets: seq<Packet>, k: nat, m: Msg)
    ensures m in SpreadAll(src, packets, k) <==>
            m.src == src && m.packet in packets && m.dst < k && m.dst != src
  {
    if packets != [] {
      var last := |packets| - 1;
      InSpreadAll(src, packets[..last], k, m);
      InSpread(src, packets[last], k, m);
      assert packets == packets[..last] + [packets[last]];
    }
  }

  ghost predicate SentIn(trace: seq<Event>, from: nat, p: Packet) {
    exists k :: from <= k < |trace| && trace[k] == Sent(p, true)
  }

  lemma {:induction false} SentSinceHas(trace: seq<Event>, from: nat, k: nat, p: Packet)
    requires from <= k < |trace| && trace[k] == Sent(p, true)
    ensures p in SentSince(trace, from)
    decreases |trace|
  {
    var last := |trace| - 1;
    if k < last {
      assert trace[..last][k] == Sent(p, true);
      SentSinceHas(trace[..last], from, k, p);
    }
  }

  lemma {:induction false} SentSinceOnly(trace: seq<Event>, from: nat, p: Packet)
    requires p in SentSince(trace, from)
    ensures SentIn(trace, from, p)
    decreases |trace|
  {
    var last := |trace| - 1;
    if p in SentSince(trace[..last], from) {
      SentSinceOnly(trace[..last], from, p);
      var k :| from <= k < last && trace[..last][k] == Sent(p, true);
      assert trace[k] == Sent(p, true);
    } else {
      assert trace[last] == Sent(p, true);
    }
  }

  lemma InSentSince(trace: seq<Event>, from: nat, p: Packet)
    ensures p in SentSince(trace, from) <==> SentIn(trace, from, p)
  {
    if p in SentSince(trace, from) {
      SentSinceOnly(trace, from, p);
    }
    if SentIn(trace, from, p) {
      var k :| from <= k < |trace| && trace[k] == Sent(p, true);
      SentSinceHas(trace, from, k, p);
    }
  }

  lemma InRest<T>(s: seq<T>, k: nat, x: T)
    requires k < |s|
    ensures x in s[..k] + s[k + 1..] ==> x in s
    ensures x in s && x != s[k] ==> x in s[..k] + s[k + 1..]
  {
    assert s == s[..k] + [s[k]] + s[k + 1..];
  }

  /** m carries a packet that node d sent in a step from n to r. */
  ghost predicate SentNow(n: Node, r: Node, d: nat, nodes: nat, m: Msg) {
    m.src == d && m.dst < nodes && m.dst != d && SentIn(r.trace, |n.trace|, m.packet)
  }

  /** After a delivery: the packets that were under way except the delivered one, and the
      packets its destination sent. */
  lemma InFlightAfter(net: Net, k: nat, now: int, m: Msg)
    requires Deliverable(net, k, now)
    ensures var d := net.flight[k].dst; var r := Deliver(net, k, now);
      && (m in r.flight ==> m in net.flight || SentNow(net.nodes[d], r.nodes[d], d, |net.nodes|, m))
      && (SentNow(net.nodes[d], r.nodes[d], d, |net.nodes|, m) ==> m in r.flight)
      && (m in net.flight && m != net.flight[k] ==> m in r.flight)
  {
    var d := net.flight[k].dst;
    var r := Deliver(net, k, now);
    InSpreadAll(d, SentSince(r.nodes[d].trace, |net.nodes[d].trace|), |net.nodes|, m);
    InSentSince(r.nodes[d].trace, |net.nodes[d].trace|, m.packet);
    InRest(net.flight, k, m);
  }

  // ---------------------------------------------------------------- runs of deliveries

  /** A schedule names, step by step, the position delivered and the receiver's clock. */
  ghost predicate Feasible(net: Net, schedule: seq<(nat, int)>)
    decreases |schedule|
  {
    schedule == [] ||
    (Deliverable(net, schedule[0].0, schedule[0].1)
     && Feasible(Deliver(net, schedule[0].0, schedule[0].1), schedule[1..]))
  }

  ghost function After(net: Net, schedule: seq<(nat, int)>): Net
    requires Feasible(net, schedule)
    decreases |schedule|
  {
    if schedule == [] then net else After(Deliver(net, schedule[0].0, schedule[0].1), schedule[1..])
  }
}
