/** All claimants of a network send their inquiries at once, as block_claim does after its second
    pass, and these are delivered in any order. */
module Election {
  import opened Types
  import opened BlockSpec
  import ClaimProofs
  import opened Network
  import opened Convergence
  import Termination
  import opened Healing

  /** Every node is about to send its inquiry: it lists exactly the blocks it is claiming. */
  ghost predicate Canvassing(net: Net, size: nat) {
    Sane(net, size) && forall i :: 0 <= i < |net.nodes| ==> Candidate(net.nodes[i])
  }

  ghost predicate Candidate(n: Node) {
    ClaimInv(n) && ClaimProofs.AllKept(n.blocks, n.claiming)
  }

  function Inquiry(net: Net, i: nat): seq<Msg>
    requires i < |net.nodes| == |net.cfgs|
  {
    var n := net.nodes[i];
    SpreadAll(i, SentSince(SendInquiry(net.cfgs[i], UP, n).trace, |n.trace|), |net.nodes|)
  }

  function Inquiries(net: Net): seq<seq<Msg>>
    requires |net.nodes| == |net.cfgs|
  {
    seq(|net.nodes|, i requires 0 <= i < |net.nodes| => Inquiry(net, i))
  }

  /** Every node sends its inquiry; nothing else is under way. */
  function InquireAll(net: Net): Net
    requires |net.nodes| == |net.cfgs|
  {
    Net(net.cfgs, seq(|net.nodes|, i requires 0 <= i < |net.nodes| => SendInquiry(net.cfgs[i], UP, net.nodes[i])),
        Gather(Inquiries(net)))
  }

  /** Node i claims b. */
  predicate Bids(net: Net, i: nat, b: nat) {
    i < |net.nodes| && b < |net.nodes[i].blocks| && net.nodes[i].blocks[b].state.Claiming?
  }

  /** m is the inquiry of its sender, on its way to some other node. */
  ghost predicate IsInquiry(net: Net, m: Msg) {
    && m.src < |net.nodes| == |net.cfgs| && m.dst < |net.nodes| && m.dst != m.src
    && net.nodes[m.src].amount >= 1
    && m.packet == InquirePacket(net.cfgs[m.src], net.nodes[m.src].claiming)
  }

  lemma InInquiry(net: Net, i: nat, m: Msg)
    requires i < |net.nodes| == |net.cfgs|
    ensures m in Inquiry(net, i) <==> m.src == i && IsInquiry(net, m)
  {
    var n := net.nodes[i];
    var t := SendInquiry(net.cfgs[i], UP, n).trace;
    InSpreadAll(i, SentSince(t, |n.trace|), |net.nodes|, m);
    InSentSince(t, |n.trace|, m.packet);
    if n.amount >= 1 {
      assert t[|n.trace|] == Sent(InquirePacket(net.cfgs[i], n.claiming), true);
    }
  }

  lemma InInquiries(net: Net, m: Msg)
    requires |net.nodes| == |net.cfgs|
    ensures m in InquireAll(net).flight <==> IsInquiry(net, m)
  {
    var parts := Inquiries(net);
    InGather(parts, m);
    forall i | 0 <= i < |parts| ensures m in parts[i] <==> m.src == i && IsInquiry(net, m) {
      InInquiry(net, i, m);
    }
    if IsInquiry(net, m) { assert m in parts[m.src]; }
  }

  /** The inquiry of a claimant of b lists b and nobody else's does. */
  lemma ListsBids(net: Net, size: nat, m: Msg, b: nat)
    requires Canvassing(net, size) && IsInquiry(net, m)
    ensures Lists(m.packet, b) <==> Bids(net, m.src, b)
    ensures |m.packet.payload| <= 0xff
  {
    var n := net.nodes[m.src];
    ClaimProofs.InquirePacketLists(net.cfgs[m.src], n.claiming, b);
    assert Candidate(n);
    if b in n.claiming {
      assert Listable(n, b) && Judge(n.blocks[b]) == Keep;
    }
  }

  /** A claimant's inquiry is on its way to every other node. */
  lemma BidIsSent(net: Net, size: nat, i: nat, b: nat, j: nat) returns (m: Msg)
    requires Canvassing(net, size) && Bids(net, i, b) && j < |net.nodes| && j != i
    ensures m in InquireAll(net).flight && m.src == i && m.dst == j && m.packet.command.Inquire? && Lists(m.packet, b)
  {
    var n := net.nodes[i];
    assert Candidate(n) && b in n.claiming;
    m := Msg(i, j, InquirePacket(net.cfgs[i], n.claiming));
    assert IsInquiry(net, m);
    InInquiries(net, m);
    ListsBids(net, size, m, b);
  }

  lemma InquireAllSane(net: Net, size: nat)
    requires Canvassing(net, size)
    ensures Sane(InquireAll(net), size)
    ensures forall m :: m in InquireAll(net).flight ==> IsInquiry(net, m)
  {
    var r := InquireAll(net);
    forall m | m in r.flight ensures IsInquiry(net, m) && MsgOk(r, m) {
      InInquiries(net, m);
      ListsBids(net, size, m, 0);
    }
    forall i | 0 <= i < |r.nodes| ensures |r.nodes[i].blocks| == size {
      SameState(net, i, 0);
    }
  }

  lemma SameState(net: Net, i: nat, b: nat)
    requires i < |net.nodes| == |net.cfgs|
    ensures var (n, r) := (net.nodes[i], InquireAll(net).nodes[i]);
      |r.blocks| == |n.blocks| && (b < |n.blocks| ==> r.blocks[b].state == n.blocks[b].state)
  {
  }

  /** w claims b and every other claimant has a lower id. */
  ghost predicate TopBidder(net: Net, b: nat, w: nat) {
    && w < |net.nodes| == |net.cfgs| && Bids(net, w, b)
    && forall j :: 0 <= j < |net.nodes| && j != w && Bids(net, j, b) ==> net.cfgs[j].nodeId < net.cfgs[w].nodeId
  }

  lemma TopBidderLeads(net: Net, size: nat, b: nat, w: nat)
    requires Canvassing(net, size) && b < size && TopBidder(net, b, w)
    requires forall j :: 0 <= j < |net.nodes| ==> !Owns(net, j, b)
    ensures Leads(InquireAll(net), size, b, w)
  {
    var r := InquireAll(net);
    InquireAllSane(net, size);
    SameState(net, w, b);
    forall j | 0 <= j < |r.nodes|
      ensures |r.nodes[j].blocks| == size && !r.nodes[j].blocks[b].state.Ours?
      ensures j != w && r.nodes[j].blocks[b].state.Claiming? ==> r.cfgs[j].nodeId < r.cfgs[w].nodeId
    {
      SameState(net, j, b);
      assert !Owns(net, j, b) && (Bids(net, j, b) <==> net.nodes[j].blocks[b].state.Claiming?);
    }
    forall j | 0 <= j < |r.nodes| && j != w ensures Yielding(r, b, w, j) {
      var m := BidIsSent(net, size, w, b, j);
      assert Canvass(m, b, w, j);
    }
    forall m | m in r.flight && Lists(m.packet, b)
      ensures m.packet.command.Inquire? && m.packet.nodeId <= r.cfgs[w].nodeId
    {
      ListsBids(net, size, m, b);
    }
  }

  lemma OwnerPrevails(net: Net, size: nat, b: nat, w: nat)
    requires Canvassing(net, size) && b < size && Owns(net, w, b)
    requires forall j :: 0 <= j < |net.nodes| && j != w ==> !Owns(net, j, b)
    ensures Prevails(InquireAll(net), size, b, w, false)
  {
    var r := InquireAll(net);
    InquireAllSane(net, size);
    SameState(net, w, b);
    forall j | 0 <= j < |r.nodes| && j != w
      ensures |r.nodes[j].blocks| == size && !r.nodes[j].blocks[b].state.Ours? && Settling(r, b, w, j, false)
    {
      SameState(net, j, b);
      assert !Owns(net, j, b);
      if Bids(net, j, b) {
        var m := BidIsSent(net, size, j, b, w);
        assert Reminder(m, b, w, j);
      }
    }
    forall m | m in r.flight && Lists(m.packet, b) ensures Outranked(r, m, w, false) {
      assert IsInquiry(net, m);
    }
  }

  lemma {:induction false} HasTopBidder(net: Net, b: nat, k: nat) returns (w: nat)
    requires k <= |net.nodes| == |net.cfgs| && exists i :: 0 <= i < k && Bids(net, i, b)
    requires forall i, j :: 0 <= i < j < |net.cfgs| ==> net.cfgs[i].nodeId != net.cfgs[j].nodeId
    ensures w < k && Bids(net, w, b)
    ensures forall j :: 0 <= j < k && j != w && Bids(net, j, b) ==> net.cfgs[j].nodeId < net.cfgs[w].nodeId
  {
    if exists i :: 0 <= i < k - 1 && Bids(net, i, b) {
      w := HasTopBidder(net, b, k - 1);
      if Bids(net, k - 1, b) && net.cfgs[k - 1].nodeId > net.cfgs[w].nodeId {
        w := k - 1;
      }
    } else {
      w := k - 1;
    }
  }

  /** w alone claims b and everybody else holds it tentative. */
  ghost predicate Elected(net: Net, b: nat, w: nat) {
    && Bids(net, w, b)
    && forall j :: 0 <= j < |net.nodes| && j != w ==>
         b < |net.nodes[j].blocks| && net.nodes[j].blocks[b].state.Tentative?
  }

  /** w owns b, and nobody else owns or claims it. */
  ghost predicate Unchallenged(net: Net, b: nat, w: nat) {
    Owns(net, w, b) && forall j :: 0 <= j < |net.nodes| && j != w ==> !Owns(net, j, b) && !Bids(net, j, b)
  }

  ghost predicate Unowned(net: Net, b: nat) {
    forall j :: 0 <= j < |net.nodes| ==> !Owns(net, j, b)
  }

  ghost predicate OnlyOwner(net: Net, b: nat, w: nat) {
    Owns(net, w, b) && forall j :: 0 <= j < |net.nodes| && j != w ==> !Owns(net, j, b)
  }

  /** A block that nobody owns is left to its highest claimant alone, once all inquiries are delivered. */
  lemma {:induction false} ElectionHolds(net: Net, size: nat, schedule: seq<(nat, int)>, b: nat)
    requires Canvassing(net, size) && b < size && Feasible(InquireAll(net), schedule)
    requires After(InquireAll(net), schedule).flight == []
    requires Unowned(net, b) && exists i :: 0 <= i < |net.nodes| && Bids(net, i, b)
    ensures exists w :: TopBidder(net, b, w) && Elected(After(InquireAll(net), schedule), b, w)
  {
    var w := HasTopBidder(net, b, |net.nodes|);
    assert TopBidder(net, b, w);
    TopBidderLeads(net, size, b, w);
    HighestClaimantWins(InquireAll(net), size, b, w, schedule);
    assert Elected(After(InquireAll(net), schedule), b, w);
  }

  /** A single owner keeps its block, and all claimants have given it up. */
  lemma {:induction false} OwnerHolds(net: Net, size: nat, schedule: seq<(nat, int)>, b: nat, w: nat)
    requires Canvassing(net, size) && b < size && Feasible(InquireAll(net), schedule)
    requires After(InquireAll(net), schedule).flight == []
    requires OnlyOwner(net, b, w)
    ensures Unchallenged(After(InquireAll(net), schedule), b, w)
  {
    OwnerPrevails(net, size, b, w);
    HighestOwnerPrevails(InquireAll(net), size, b, w, false, schedule);
  }

  /** The round ends, whatever the order of delivery. */
  lemma {:induction false} InquiriesEnd(net: Net, size: nat, schedule: seq<(nat, int)>)
    requires Canvassing(net, size) && Feasible(InquireAll(net), schedule)
    ensures |schedule| <= Termination.Measure(InquireAll(net), size)
  {
    InquireAllSane(net, size);
    Termination.DeliveriesEnd(InquireAll(net), size, schedule);
  }
}
