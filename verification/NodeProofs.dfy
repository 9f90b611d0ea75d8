/** Every operation of a node keeps NodeInv, so it holds in every reachable state. */
module NodeProofs {
  import opened Types
  import LeaseTable
  import opened BlockSpec
  import opened ConsensusSpec
  import DhcpSpec
  import HouseSpec
  import HouseProofs
  import opened ClaimProofs

  // ---------------------------------------------------------------- weakening a block

  /** c is b at the same place and with the same counter, in the same state or no longer
      claiming or owned. */
  predicate Weaker(b: Block, c: Block) {
    && c.index == b.index && c.subnet == b.subnet && c.subnetLen == b.subnetLen
    && c.claimingCounts == b.claimingCounts
    && (c.state == b.state || c.state.Free? || c.state.Tentative? || c.state.Claimed?)
  }

  ghost predicate WeakStep(cfg: Config, n: Node, r: Node) {
    && r.claiming == n.claiming && r.amount == n.amount && r.trace == n.trace
    && |r.blocks| == |n.blocks| && |r.tables| == |n.tables| == |n.blocks|
    && (forall i {:trigger r.blocks[i]} {:trigger r.tables[i]} :: 0 <= i < |n.blocks| ==>
          Weaker(n.blocks[i], r.blocks[i]) && TableFits(cfg, r.blocks[i], r.tables[i]))
  }

  lemma WeakKeepsList(cfg: Config, n: Node, r: Node)
    requires ClaimInv(n) && WeakStep(cfg, n, r)
    ensures ClaimInv(r)
  {
    forall b | b in r.claiming ensures Listable(r, b) {
      assert Listable(n, b);
      assert Weaker(n.blocks[b], r.blocks[b]);
    }
    forall b: nat | b < |r.blocks| && r.blocks[b].state.Claiming? ensures b in r.claiming {
      assert Weaker(n.blocks[b], r.blocks[b]);
    }
  }

  lemma WeakKeepsInv(cfg: Config, n: Node, r: Node)
    requires NodeInv(cfg, n) && WeakStep(cfg, n, r)
    ensures NodeInv(cfg, r)
  {
    WeakKeepsList(cfg, n, r);
    assert TableInv(cfg, r) by {
      forall i | 0 <= i < |r.blocks| ensures Placed(cfg, i, r.blocks[i]) && TableFits(cfg, r.blocks[i], r.tables[i]) {
        assert Placed(cfg, i, n.blocks[i]) && Weaker(n.blocks[i], r.blocks[i]);
      }
    }
    forall b | b in r.claiming ensures CountsInquiries(r, b) {
      assert CountsInquiries(n, b);
      assert Weaker(n.blocks[b], r.blocks[b]);
    }
  }

  // ---------------------------------------------------------------- one lemma per operation

  lemma {:induction false} InitialInv(cfg: Config, now: int)
    ensures NodeInv(cfg, Initial(cfg, now))
    ensures forall b {:trigger b in Initial(cfg, now).blocks} :: b in Initial(cfg, now).blocks ==>
      b.state.Free? && b.claimingCounts == 0 && b.nodeId == NO_NODE && b.needlessSince == 0 && b.timeout == now + cfg.blockTimeout
  {
    var n := Initial(cfg, now);
    forall i | 0 <= i < |n.blocks| ensures Placed(cfg, i, n.blocks[i]) && TableFits(cfg, n.blocks[i], n.tables[i]) {
    }
  }

  lemma {:induction false} TimeoutsKeepInv(cfg: Config, n: Node, now: int)
    requires NodeInv(cfg, n)
    ensures NodeInv(cfg, CheckTimeouts(n, now))
  {
    var r := CheckTimeouts(n, now);
    forall i | 0 <= i < |n.blocks|
      ensures Weaker(n.blocks[i], r.blocks[i]) && TableFits(cfg, r.blocks[i], r.tables[i])
    {
      assert TableFits(cfg, n.blocks[i], n.tables[i]);
    }
    WeakKeepsInv(cfg, n, r);
  }

  lemma {:induction false} DropKeepsNode(cfg: Config, n: Node, now: int)
    requires NodeInv(cfg, n)
    ensures NodeInv(cfg, DropUnused(cfg, n, now))
  {
    var r := DropUnused(cfg, n, now);
    forall i | 0 <= i < |n.blocks|
      ensures Weaker(n.blocks[i], r.blocks[i]) && TableFits(cfg, r.blocks[i], r.tables[i])
    {
      assert TableFits(cfg, n.blocks[i], n.tables[i]);
    }
    WeakKeepsInv(cfg, n, r);
  }

  lemma UnmarkKeepsInv(cfg: Config, n: Node)
    requires NodeInv(cfg, n)
    ensures NodeInv(cfg, UnmarkNeedless(n))
  {
    var r := UnmarkNeedless(n);
    forall i | 0 <= i < |n.blocks|
      ensures Weaker(n.blocks[i], r.blocks[i]) && TableFits(cfg, r.blocks[i], r.tables[i])
    {
      assert TableFits(cfg, n.blocks[i], n.tables[i]);
    }
    WeakKeepsInv(cfg, n, r);
  }

  lemma BlockWriteKeepsInv(cfg: Config, n: Node, b: nat, c: Block)
    requires NodeInv(cfg, n) && b < |n.blocks|
    requires Weaker(n.blocks[b], c)
    ensures NodeInv(cfg, n.(blocks := n.blocks[b := c]))
  {
    var r := n.(blocks := n.blocks[b := c]);
    forall i | 0 <= i < |n.blocks|
      ensures Weaker(n.blocks[i], r.blocks[i]) && TableFits(cfg, r.blocks[i], r.tables[i])
    {
      assert TableFits(cfg, n.blocks[i], n.tables[i]);
    }
    WeakKeepsInv(cfg, n, r);
  }

  lemma AnswerKeepsInv(cfg: Config, link: Link, n: Node, b: nat, now: int)
    requires NodeInv(cfg, n) && b < |n.blocks|
    ensures NodeInv(cfg, Answer(cfg, link, n, b, now))
  {
    BlockWriteKeepsInv(cfg, n, b, n.blocks[b].(timeout := 0));
    RefreshKeepsInv(cfg, link, n.(blocks := n.blocks[b := n.blocks[b].(timeout := 0)]), now);
  }

  lemma EntryKeepsInv(cfg: Config, link: Link, n: Node, p: Packet, sender: int, e: Payload, now: int)
    requires NodeInv(cfg, n)
    ensures NodeInv(cfg, Entry(cfg, link, n, p, sender, e, now))
  {
    var b := e.blockIndex;
    if b < |n.blocks| {
      AnswerKeepsInv(cfg, link, n, b, now);
      BlockWriteKeepsInv(cfg, n, b, if p.command.UpdateClaim? then ClaimedBy(n.blocks[b], p.nodeId, sender, now + e.timeout)
                                    else MadeTentative(cfg, n.blocks[b], now));
    }
  }

  lemma {:induction false} HandleKeepsInv(cfg: Config, link: Link, n: Node, p: Packet, sender: int, now: int, k: nat)
    requires NodeInv(cfg, n) && k <= |p.payload|
    ensures NodeInv(cfg, HandleFirst(cfg, link, n, p, sender, now, k))
  {
    if k > 0 {
      HandleKeepsInv(cfg, link, n, p, sender, now, k - 1);
      EntryKeepsInv(cfg, link, HandleFirst(cfg, link, n, p, sender, now, k - 1), p, sender, p.payload[k - 1], now);
    }
  }

  // ---------------------------------------------------------------- lease handlers

  lemma TableWriteKeepsInv(cfg: Config, n: Node, tables: seq<Option<seq<Lease>>>)
    requires NodeInv(cfg, n) && |tables| == |n.tables|
    requires forall i {:trigger tables[i]} :: 0 <= i < |tables| ==> TableFits(cfg, n.blocks[i], tables[i])
    ensures NodeInv(cfg, n.(tables := tables))
  {
    WeakKeepsInv(cfg, n, n.(tables := tables));
  }

  lemma SlotWriteKeepsInv(cfg: Config, n: Node, b: nat, j: nat, l: Lease)
    requires NodeInv(cfg, n)
    ensures NodeInv(cfg, DhcpSpec.SetSlot(n, b, j, l))
  {
    var r := DhcpSpec.SetSlot(n, b, j, l);
    forall i | 0 <= i < |r.tables| ensures TableFits(cfg, n.blocks[i], r.tables[i]) {
      assert TableFits(cfg, n.blocks[i], n.tables[i]);
    }
    TableWriteKeepsInv(cfg, n, r.tables);
  }

  lemma AllocKeepsInv(cfg: Config, n: Node, b: nat)
    requires NodeInv(cfg, n) && b < |n.blocks|
    ensures NodeInv(cfg, DhcpSpec.Allocated(n, b))
  {
    var r := DhcpSpec.Allocated(n, b);
    forall i | 0 <= i < |r.tables| ensures TableFits(cfg, n.blocks[i], r.tables[i]) {
      assert TableFits(cfg, n.blocks[i], n.tables[i]) && Placed(cfg, i, n.blocks[i]);
    }
    TableWriteKeepsInv(cfg, n, r.tables);
  }

  lemma {:induction false} DiscoverKeepsInv(cfg: Config, n: Node, chaddr: seq<byte>, xid: uint32, replied: bool, now: int)
    requires NodeInv(cfg, n)
    ensures NodeInv(cfg, DhcpSpec.Discover(cfg, n, chaddr, xid, replied, now).0)
  {
    match FindFreeLeases(n.blocks, n.tables)
    case None =>
    case Some(b) =>
      var j := LeaseTable.First(n.tables[b].value, Available);
      var l := Lease(chaddr, Offered, xid, now + OFFER_TIMEOUT);
      SlotWriteKeepsInv(cfg, n, b, j, l);
      BlockWriteKeepsInv(cfg, DhcpSpec.SetSlot(n, b, j, l), b, n.blocks[b].(needlessSince := 0));
  }

  lemma {:induction false} RequestKeepsInv(cfg: Config, n: Node, req: DhcpSpec.Request, now: int)
    requires NodeInv(cfg, n)
    ensures NodeInv(cfg, DhcpSpec.HandleRequest(cfg, n, req, now).0)
  {
    var leased := Lease(req.chaddr, Leased, req.xid, DhcpSpec.LeaseEnd(cfg, now));
    match DhcpSpec.Wanted(req)
    case Some(addr) =>
      match DhcpSpec.FindLease(cfg, n.blocks, addr) {
        case Outside =>
        case Mine(b, j) => SlotWriteKeepsInv(cfg, n, b, j, leased);
        case Foreign(b, j) =>
          AllocKeepsInv(cfg, n, b);
          SlotWriteKeepsInv(cfg, DhcpSpec.Allocated(n, b), b, j, leased.(state := Offered));
      }
    case None =>
      var b := DhcpSpec.FindOfferBlock(n.blocks, n.tables, req);
      if b < |n.blocks| {
        SlotWriteKeepsInv(cfg, n, b, DhcpSpec.FindOffer(n.tables[b].value, req), leased);
      }
  }

  // ---------------------------------------------------------------- house keeping

  lemma BalanceKeepsInv(cfg: Config, link: Link, n: Node, now: int, rnd: nat -> nat)
    requires NodeInv(cfg, n)
    ensures NodeInv(cfg, HouseSpec.Balance(cfg, link, n, now, rnd))
  {
    var needed := HouseSpec.BlocksNeeded(cfg, NumFree(n.blocks, n.tables));
    HouseProofs.NeededIsLeast(cfg, NumFree(n.blocks, n.tables));
    if needed < 0 {
      DropKeepsNode(cfg, n, now);
    } else {
      var m := if n.needlessMarks then UnmarkNeedless(n) else n;
      UnmarkKeepsInv(cfg, n);
      if needed > 0 {
        BlockClaimKeepsInv(cfg, link, m, needed, now, rnd);
      }
    }
  }

  lemma {:induction false} HouseKeepingKeepsInv(cfg: Config, link: Link, n: Node, now: int, rnd: nat -> nat)
    requires NodeInv(cfg, n)
    ensures NodeInv(cfg, HouseSpec.HouseKeeping(cfg, link, n, now, rnd))
  {
    TimeoutsKeepInv(cfg, n, now);
    BalanceKeepsInv(cfg, link, CheckTimeouts(n, now), now, rnd);
    RefreshKeepsInv(cfg, link, HouseSpec.Balance(cfg, link, CheckTimeouts(n, now), now, rnd), now);
  }

  // ---------------------------------------------------------------- runs

  /** Everything that can happen to a node: house keeping, a multicast message, a client's
      DHCPDISCOVER, DHCPREQUEST or DHCPRELEASE, a renewal or release forwarded by a peer, a
      peer's LEASEACK for a forwarded request. (A LEASENAK is passed on and changes nothing.) */
  datatype Action =
    | KeepHouse(now: int, rnd: nat -> nat)
    | Hear(now: int, packet: Packet, sender: int)
    | Discover(now: int, chaddr: seq<byte>, xid: uint32, replied: bool)
    | Serve(now: int, req: DhcpSpec.Request)
    | ReleaseBy(addr: uint32, chaddr: seq<byte>)
    | PeerRenews(now: int, addr: uint32)
    | PeerReleases(addr: uint32)
    | PeerAcks(now: int, req: DhcpSpec.Request)

  ghost function Step(cfg: Config, link: Link, n: Node, a: Action): (r: Node)
    requires NodeInv(cfg, n)
    ensures NodeInv(cfg, r)
  {
    match a
    case KeepHouse(now, rnd) =>
      HouseKeepingKeepsInv(cfg, link, n, now, rnd);
      HouseSpec.HouseKeeping(cfg, link, n, now, rnd)
    case Hear(now, p, sender) =>
      HandleKeepsInv(cfg, link, n, p, sender, now, |p.payload|);
      Handle(cfg, link, n, p, sender, now)
    case Discover(now, chaddr, xid, replied) =>
      DiscoverKeepsInv(cfg, n, chaddr, xid, replied, now);
      DhcpSpec.Discover(cfg, n, chaddr, xid, replied, now).0
    case Serve(now, req) =>
      RequestKeepsInv(cfg, n, req, now);
      DhcpSpec.HandleRequest(cfg, n, req, now).0
    case ReleaseBy(addr, chaddr) =>
      ReleaseKeepsInv(cfg, n, addr);
      DhcpSpec.Release(cfg, n, addr, chaddr)
    case PeerRenews(now, addr) =>
      RenewKeepsInv(cfg, n, addr, now);
      DhcpSpec.RemoteRequest(cfg, n, addr, now).0
    case PeerReleases(addr) =>
      ReleaseKeepsInv(cfg, n, addr);
      DhcpSpec.RemoteRelease(cfg, n, addr)
    case PeerAcks(now, req) =>
      RemoteAckKeepsInv(cfg, n, req, now);
      DhcpSpec.RemoteAck(cfg, n, req, now).0
  }

  lemma RemoteAckKeepsInv(cfg: Config, n: Node, req: DhcpSpec.Request, now: int)
    requires NodeInv(cfg, n)
    ensures NodeInv(cfg, DhcpSpec.RemoteAck(cfg, n, req, now).0)
  {
    match DhcpSpec.FindLease(cfg, n.blocks, if DhcpSpec.Wanted(req).Some? then DhcpSpec.Wanted(req).value else 0)
    case Foreign(b, j) =>
      SlotWriteKeepsInv(cfg, n, b, j, Lease(req.chaddr, Leased, req.xid, DhcpSpec.LeaseEnd(cfg, now)));
    case _ =>
  }

  lemma {:induction false} ReleaseKeepsInv(cfg: Config, n: Node, addr: uint32)
    requires NodeInv(cfg, n)
    ensures NodeInv(cfg, DhcpSpec.RemoteRelease(cfg, n, addr))
    ensures forall chaddr :: NodeInv(cfg, DhcpSpec.Release(cfg, n, addr, chaddr))
  {
    match DhcpSpec.FindLease(cfg, n.blocks, addr)
    case Mine(b, j) => SlotWriteKeepsInv(cfg, n, b, j, LeaseTable.Released(DhcpSpec.Slot(n, b, j)));
    case _ =>
  }

  lemma RenewKeepsInv(cfg: Config, n: Node, addr: uint32, now: int)
    requires NodeInv(cfg, n)
    ensures NodeInv(cfg, DhcpSpec.RemoteRequest(cfg, n, addr, now).0)
  {
    match DhcpSpec.FindLease(cfg, n.blocks, addr)
    case Mine(b, j) =>
      SlotWriteKeepsInv(cfg, n, b, j, DhcpSpec.Slot(n, b, j).(leaseEnd := DhcpSpec.LeaseEnd(cfg, now)));
    case _ =>
  }

  /** The state after any sequence of actions from a fresh start satisfies every invariant. */
  ghost function Run(cfg: Config, link: Link, start: int, actions: seq<Action>): (r: Node)
    ensures NodeInv(cfg, r)
  {
    if actions == [] then
      InitialInv(cfg, start);
      Initial(cfg, start)
    else Step(cfg, link, Run(cfg, link, start, actions[..|actions| - 1]), actions[|actions| - 1])
  }
}
