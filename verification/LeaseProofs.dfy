/** Lease exclusivity: an acknowledged lease stays with its client. */
module LeaseProofs {
  import opened Types
  import LeaseTable
  import opened BlockSpec
  import opened ConsensusSpec
  import opened DhcpSpec
  import HouseSpec
  import Bystander
  import RefreshProofs
  import opened ClaimProofs
  import opened NodeProofs

  /** Slot j of the owned block b is leased to client c. */
  predicate Holds(n: Node, b: nat, j: nat, c: seq<byte>) {
    && b < |n.blocks| && n.blocks[b].state.Ours? && HasSlot(n, b, j)
    && Slot(n, b, j).state.Leased? && Slot(n, b, j).chaddr == c
  }

  /** The slot is as it was, up to a lease end that did not go back and is not beyond `latest`. */
  predicate Kept(n: Node, r: Node, b: nat, j: nat, c: seq<byte>, latest: int) {
    Holds(r, b, j, c) && Slot(n, b, j).leaseEnd <= Slot(r, b, j).leaseEnd <= latest
  }

  // ---------------------------------------------------------------- one step

  lemma HouseKeepingKeeps(cfg: Config, link: Link, n: Node, now: int, rnd: nat -> nat, b: nat, j: nat, c: seq<byte>)
    requires NodeInv(cfg, n) && Holds(n, b, j, c) && now <= Slot(n, b, j).leaseEnd
    requires var r := HouseSpec.HouseKeeping(cfg, link, n, now, rnd); b < |r.blocks| && r.blocks[b].state.Ours?
    ensures var r := HouseSpec.HouseKeeping(cfg, link, n, now, rnd);
      Holds(r, b, j, c) && Slot(r, b, j) == Slot(n, b, j)
  {
    var e := CheckTimeouts(n, now);
    var d := HouseSpec.Balance(cfg, link, e, now, rnd);
    assert b !in n.claiming;
    Bystander.BalanceLeavesTables(cfg, link, e, now, rnd, b);
    RefreshProofs.RefreshSteps(cfg, link, d, now);
    assert e.blocks[b].state.Ours?;
    assert e.tables[b] == Some(LeaseTable.Expire(n.tables[b].value, now));
  }

  lemma {:induction false} HandleLeavesTables(cfg: Config, link: Link, n: Node, p: Packet, sender: int, now: int, k: nat)
    requires k <= |p.payload|
    ensures HandleFirst(cfg, link, n, p, sender, now, k).tables == n.tables
  {
    if k > 0 {
      HandleLeavesTables(cfg, link, n, p, sender, now, k - 1);
      var m, b := HandleFirst(cfg, link, n, p, sender, now, k - 1), p.payload[k - 1].blockIndex;
      if b < |m.blocks| {
        RefreshProofs.RefreshSteps(cfg, link, m.(blocks := m.blocks[b := m.blocks[b].(timeout := 0)]), now);
      }
    }
  }

  /** An offer goes to an AVAILABLE slot. */
  lemma DiscoverKeeps(cfg: Config, n: Node, chaddr: seq<byte>, xid: uint32, replied: bool, now: int,
                      b: nat, j: nat, c: seq<byte>)
    requires NodeInv(cfg, n) && Holds(n, b, j, c)
    ensures var r := DhcpSpec.Discover(cfg, n, chaddr, xid, replied, now).0;
      Holds(r, b, j, c) && Slot(r, b, j) == Slot(n, b, j)
  {
    match FindFreeLeases(n.blocks, n.tables)
    case None =>
    case Some(i) =>
      LeaseTable.CountZero(n.tables[i].value, Available);
  }

  lemma AckKeeps(cfg: Config, n: Node, i: nat, k: nat, req: DhcpSpec.Request, now: int, b: nat, j: nat, c: seq<byte>)
    requires Holds(n, b, j, c) && i < |n.blocks|
    requires (i, k) == (b, j) ==> req.chaddr == c
    ensures var r := AckLease(cfg, n, i, k, req, now).0;
      Holds(r, b, j, c) && (Slot(r, b, j) == Slot(n, b, j) || Slot(r, b, j).leaseEnd == LeaseEnd(cfg, now))
  {
  }

  /** A request acknowledges a slot only for its own client, or when it is not leased. */
  lemma RequestKeeps(cfg: Config, n: Node, req: DhcpSpec.Request, now: int, b: nat, j: nat, c: seq<byte>)
    requires NodeInv(cfg, n) && Holds(n, b, j, c)
    ensures var r := HandleRequest(cfg, n, req, now).0;
      Holds(r, b, j, c) && (Slot(r, b, j) == Slot(n, b, j) || Slot(r, b, j).leaseEnd == LeaseEnd(cfg, now))
  {
    match Wanted(req)
    case Some(addr) =>
      var f := FindLease(cfg, n.blocks, addr);
      if f.Mine? && !TakenByOther(Slot(n, f.block, f.slot), req) {
        AckKeeps(cfg, n, f.block, f.slot, req, now, b, j, c);
      }
    case None =>
      var i := FindOfferBlock(n.blocks, n.tables, req);
      if i < |n.blocks| {
        assert OfferedTo(n.tables[i].value[FindOffer(n.tables[i].value, req)], req);
        AckKeeps(cfg, n, i, FindOffer(n.tables[i].value, req), req, now, b, j, c);
      }
  }

  lemma RenewKeeps(cfg: Config, n: Node, addr: uint32, now: int, b: nat, j: nat, c: seq<byte>)
    requires NodeInv(cfg, n) && Holds(n, b, j, c)
    ensures var r := RemoteRequest(cfg, n, addr, now).0;
      Holds(r, b, j, c) && (Slot(r, b, j) == Slot(n, b, j) || Slot(r, b, j).leaseEnd == LeaseEnd(cfg, now))
  {
  }

  /** A peer's acknowledgement is for a block of a peer. */
  lemma RemoteAckKeeps(cfg: Config, n: Node, req: DhcpSpec.Request, now: int, b: nat, j: nat, c: seq<byte>)
    requires NodeInv(cfg, n) && Holds(n, b, j, c)
    ensures var r := RemoteAck(cfg, n, req, now).0; Holds(r, b, j, c) && Slot(r, b, j) == Slot(n, b, j)
  {
  }

  function Clock(a: Action, before: int): int {
    match a
    case KeepHouse(now, _) => now
    case Hear(now, _, _) => now
    case Discover(now, _, _, _) => now
    case Serve(now, _) => now
    case PeerRenews(now, _) => now
    case ReleaseBy(_, _) => before
    case PeerReleases(_) => before
    case PeerAcks(now, _) => now
  }

  /** The action ends the lease: its own client releases it, or a peer forwards a release of it. */
  predicate EndsLease(cfg: Config, n: Node, a: Action, b: nat, j: nat, c: seq<byte>) {
    match a
    case ReleaseBy(addr, chaddr) => FindLease(cfg, n.blocks, addr) == Mine(b, j) && chaddr == c
    case PeerReleases(addr) => FindLease(cfg, n.blocks, addr) == Mine(b, j)
    case _ => false
  }

  lemma StepKeepsLease(cfg: Config, link: Link, n: Node, a: Action, clock: int, b: nat, j: nat, c: seq<byte>)
    requires NodeInv(cfg, n) && Holds(n, b, j, c) && !EndsLease(cfg, n, a, b, j, c)
    requires Slot(n, b, j).leaseEnd <= LeaseEnd(cfg, clock) && clock <= Clock(a, clock)
    requires Clock(a, clock) <= Slot(n, b, j).leaseEnd
    requires Step(cfg, link, n, a).blocks[b].state.Ours?
    ensures Kept(n, Step(cfg, link, n, a), b, j, c, LeaseEnd(cfg, Clock(a, clock)))
  {
    match a
    case KeepHouse(now, rnd) => HouseKeepingKeeps(cfg, link, n, now, rnd, b, j, c);
    case Hear(now, p, sender) => HandleLeavesTables(cfg, link, n, p, sender, now, |p.payload|);
    case Discover(now, chaddr, xid, replied) => DiscoverKeeps(cfg, n, chaddr, xid, replied, now, b, j, c);
    case Serve(now, req) => RequestKeeps(cfg, n, req, now, b, j, c);
    case PeerRenews(now, addr) => RenewKeeps(cfg, n, addr, now, b, j, c);
    case ReleaseBy(_, _) =>
    case PeerReleases(_) =>
    case PeerAcks(now, req) => RemoteAckKeeps(cfg, n, req, now, b, j, c);
  }

  // ---------------------------------------------------------------- runs

  ghost function RunFrom(cfg: Config, link: Link, n: Node, actions: seq<Action>): (r: Node)
    requires NodeInv(cfg, n)
    ensures NodeInv(cfg, r)
    decreases |actions|
  {
    if actions == [] then n else RunFrom(cfg, link, Step(cfg, link, n, actions[0]), actions[1..])
  }

  /** Through the run the clock does not go back or pass the deadline, the block stays owned
      and nobody entitled to do so releases the slot. */
  ghost predicate Undisturbed(cfg: Config, link: Link, n: Node, clock: int, actions: seq<Action>,
                              b: nat, j: nat, c: seq<byte>, deadline: int)
    requires NodeInv(cfg, n)
    decreases |actions|
  {
    actions == [] ||
    (var a := actions[0]; var r := Step(cfg, link, n, a);
     && clock <= Clock(a, clock) <= deadline && !EndsLease(cfg, n, a, b, j, c)
     && b < |r.blocks| && r.blocks[b].state.Ours?
     && Undisturbed(cfg, link, r, Clock(a, clock), actions[1..], b, j, c, deadline))
  }

  /** Over any run, a lease stays with its client until its lease end has passed. */
  lemma {:induction false} LeaseIsExclusive(cfg: Config, link: Link, n: Node, clock: int, actions: seq<Action>,
                                            b: nat, j: nat, c: seq<byte>, deadline: int)
    requires NodeInv(cfg, n) && Holds(n, b, j, c)
    requires deadline <= Slot(n, b, j).leaseEnd <= LeaseEnd(cfg, clock)
    requires Undisturbed(cfg, link, n, clock, actions, b, j, c, deadline)
    ensures Holds(RunFrom(cfg, link, n, actions), b, j, c)
    decreases |actions|
  {
    if actions != [] {
      var a := actions[0];
      StepKeepsLease(cfg, link, n, a, clock, b, j, c);
      LeaseIsExclusive(cfg, link, Step(cfg, link, n, a), Clock(a, clock), actions[1..], b, j, c, deadline);
    }
  }

  /** r is n with slot j of block b leased to the requesting client until lease time plus ten
      seconds from now. The slot was not leased to anyone else, and other leases are kept. */
  ghost predicate Granted(cfg: Config, n: Node, r: Node, req: DhcpSpec.Request, now: int, b: nat, j: nat) {
    && Holds(r, b, j, req.chaddr) && Slot(r, b, j).leaseEnd == now + cfg.leaseTime + 10
    && (Slot(n, b, j).state.Leased? ==> Slot(n, b, j).chaddr == req.chaddr)
    && (forall c: nat, k: nat, d :: Holds(n, c, k, d) && (c, k) != (b, j) ==> Holds(r, c, k, d))
  }

  lemma AckLeaseGrants(cfg: Config, n: Node, b: nat, j: nat, req: DhcpSpec.Request, now: int)
    requires b < |n.blocks| && n.blocks[b].state.Ours? && HasSlot(n, b, j)
    requires Slot(n, b, j).state.Leased? ==> Slot(n, b, j).chaddr == req.chaddr
    ensures Granted(cfg, n, AckLease(cfg, n, b, j, req, now).0, req, now, b, j)
  {
    var r := AckLease(cfg, n, b, j, req, now).0;
    forall c: nat, k: nat, d | Holds(n, c, k, d) && (c, k) != (b, j) ensures Holds(r, c, k, d) {
      assert Slot(r, c, k) == Slot(n, c, k);
    }
  }

  /** The slot a request is acknowledged for: the one behind the wanted address, or the one
      offered in this transaction. */
  function AckedSlot(cfg: Config, n: Node, req: DhcpSpec.Request): (nat, nat)
    requires |n.blocks| == |n.tables|
  {
    match Wanted(req)
    case Some(addr) =>
      (match FindLease(cfg, n.blocks, addr)
       case Mine(b, j) => (b, j)
       case _ => (0, 0))
    case None =>
      var b := FindOfferBlock(n.blocks, n.tables, req);
      if b == |n.blocks| then (0, 0) else (b, FindOffer(n.tables[b].value, req))
  }

  /** An acknowledgement names the address of the slot it grants, and changes nothing else. */
  lemma {:induction false} AckGrants(cfg: Config, n: Node, req: DhcpSpec.Request, now: int)
    requires NodeInv(cfg, n) && HandleRequest(cfg, n, req, now).1.Ack?
    ensures var ((r, reply), (b, j)) := (HandleRequest(cfg, n, req, now), AckedSlot(cfg, n, req));
      && b < |n.blocks| && reply == Ack(AddrAdd(n.blocks[b].subnet, j))
      && Granted(cfg, n, r, req, now, b, j)
      && r == SetSlot(n, b, j, Lease(req.chaddr, Leased, req.xid, now + cfg.leaseTime + 10))
  {
    var (b, j) := AckedSlot(cfg, n, req);
    match Wanted(req)
    case Some(addr) =>
      assert FindLease(cfg, n.blocks, addr) == Mine(b, j);
      assert TableFits(cfg, n.blocks[b], n.tables[b]);
      AckLeaseGrants(cfg, n, b, j, req, now);
    case None =>
      assert OfferedTo(n.tables[b].value[j], req);
      AckLeaseGrants(cfg, n, b, j, req, now);
  }

  /** A granted lease stays with its client for at least lease time plus ten seconds. */
  lemma {:induction false} GrantedLeaseLasts(cfg: Config, link: Link, n: Node, r: Node, req: DhcpSpec.Request, now: int,
                                             b: nat, j: nat, actions: seq<Action>, deadline: int)
    requires NodeInv(cfg, r) && Granted(cfg, n, r, req, now, b, j) && deadline == now + cfg.leaseTime + 10
    requires Undisturbed(cfg, link, r, now, actions, b, j, req.chaddr, deadline)
    ensures Holds(RunFrom(cfg, link, r, actions), b, j, req.chaddr)
  {
    LeaseIsExclusive(cfg, link, r, now, actions, b, j, req.chaddr, deadline);
  }
}
