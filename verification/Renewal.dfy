/** A renewal that a peer forwards (dhcp.c:255-281): it is answered from where the address lies alone, and
    leases the slot to nobody. */
module Renewal {
  import opened Types
  import LeaseTable
  import opened BlockSpec
  import opened ClaimProofs
  import opened DhcpSpec
  import NodeProofs
  import opened LeaseProofs
  import opened RequestProofs
  import opened DiscoverProofs
  import Address

  /** The renewed slot is what it was, but for its lease end. */
  lemma OnlyTheEndMoves(cfg: Config, n: Node, addr: uint32, now: int, b: nat, j: nat)
    requires NodeInv(cfg, n) && FindLease(cfg, n.blocks, addr) == Mine(b, j)
    ensures var (r, answer) := RemoteRequest(cfg, n, addr, now);
      && answer == 0 && r.blocks == n.blocks && HasSlot(n, b, j) && HasSlot(r, b, j)
      && Slot(r, b, j) == Slot(n, b, j).(leaseEnd := LeaseEnd(cfg, now))
  {
    assert TableFits(cfg, n.blocks[b], n.tables[b]);
  }

  /** The answer to a forwarded renewal: 0 if and only if the address lies in an owned block, 1 if and only if
      in a block that is not owned, 2 if and only if in none; in the last two cases nothing changes. */
  lemma {:induction false} RenewalAnswers(cfg: Config, n: Node, addr: uint32, now: int)
    requires NodeInv(cfg, n)
    ensures var ((r, answer), f) := (RemoteRequest(cfg, n, addr, now), FindLease(cfg, n.blocks, addr));
      && (answer == 0 <==> f.Mine?) && (answer == 1 <==> f.Foreign?) && (answer == 2 <==> f.Outside?)
      && (!f.Mine? ==> r == n)
      && (f.Mine? ==> HasSlot(n, f.block, f.slot))
      && (f.Mine? ==> r == SetSlot(n, f.block, f.slot, Slot(n, f.block, f.slot).(leaseEnd := now + cfg.leaseTime + 10)))
  {
    var f := FindLease(cfg, n.blocks, addr);
    if f.Mine? { OnlyTheEndMoves(cfg, n, addr, now, f.block, f.slot); }
  }

  /** A forwarded renewal of an address of this node is acknowledged whoever the slot belongs to. Afterwards
      it is leased to a client if and only if it was before, and a request for the address is
      acknowledged to exactly the clients it would have been acknowledged to before. */
  lemma {:induction false} RenewalGrantsNothing(cfg: Config, n: Node, addr: uint32, now: int, b: nat, j: nat, c: seq<byte>,
                                                req: Request, later: int)
    requires NodeInv(cfg, n) && FindLease(cfg, n.blocks, addr) == Mine(b, j) && Wanted(req) == Some(addr)
    ensures var (r, answer) := RemoteRequest(cfg, n, addr, now);
      && answer == 0 && NodeInv(cfg, r)
      && (Holds(r, b, j, c) <==> Holds(n, b, j, c))
      && (HandleRequest(cfg, r, req, later).1.Ack? <==> Grantable(Slot(n, b, j), req))
  {
    NodeProofs.RenewKeepsInv(cfg, n, addr, now);
    OnlyTheEndMoves(cfg, n, addr, now, b, j);
    RequestDecides(cfg, RemoteRequest(cfg, n, addr, now).0, req, later);
  }

  /** A lease that was the client's before the renewal stays its own until the new lease end, over every
      run in which the node keeps the block and nobody entitled releases the slot. */
  lemma {:induction false} RenewedLeaseLasts(cfg: Config, link: Link, n: Node, addr: uint32, now: int, b: nat, j: nat,
                                             c: seq<byte>, actions: seq<NodeProofs.Action>, deadline: int)
    requires NodeInv(cfg, n) && FindLease(cfg, n.blocks, addr) == Mine(b, j) && deadline <= LeaseEnd(cfg, now)
    ensures var r := NodeProofs.Step(cfg, link, n, NodeProofs.PeerRenews(now, addr));
      && r == RemoteRequest(cfg, n, addr, now).0 && NodeInv(cfg, r)
      && (Undisturbed(cfg, link, r, now, actions, b, j, c, deadline) && Holds(n, b, j, c) ==>
            Holds(RunFrom(cfg, link, r, actions), b, j, c))
  {
    var r := RemoteRequest(cfg, n, addr, now).0;
    NodeProofs.RenewKeepsInv(cfg, n, addr, now);
    OnlyTheEndMoves(cfg, n, addr, now, b, j);
    if Undisturbed(cfg, link, r, now, actions, b, j, c, deadline) && Holds(n, b, j, c) {
      LeaseIsExclusive(cfg, link, r, now, actions, b, j, c, deadline);
    }
  }

  // ---------------------------------------------------------------- a renewal of a lease that nobody has

  /** Serving depends on what is available, which a renewal does not change. */
  lemma {:induction false} SameOldest(blocks: seq<Block>, t: seq<Option<seq<Lease>>>, u: seq<Option<seq<Lease>>>)
    requires |blocks| == |t| == |u| && forall i :: 0 <= i < |t| ==> NumAvailable(u[i]) == NumAvailable(t[i])
    ensures FindFreeLeases(blocks, u) == FindFreeLeases(blocks, t)
  {
    if blocks != [] {
      SameOldest(blocks[..|blocks| - 1], t[..|t| - 1], u[..|u| - 1]);
    }
  }

  lemma {:induction false} SameFirst(t: seq<Lease>, j: nat, l: Lease)
    requires j < |t| && l.state == t[j].state
    ensures LeaseTable.First(t[j := l], Available) == LeaseTable.First(t, Available)
    ensures LeaseTable.Count(t[j := l], Available) == LeaseTable.Count(t, Available)
  {
    LeaseTable.CountUpdate(t, j, l, Available);
    var last := |t| - 1;
    if j == last {
      assert t[j := l][..last] == t[..last];
    } else {
      assert t[j := l][..last] == t[..last][j := l];
      SameFirst(t[..last], j, l);
    }
  }

  /** The next offer after a forwarded renewal is what it would have been without it. */
  lemma {:induction false} OfferUnmoved(cfg: Config, n: Node, addr: uint32, now: int, chaddr: seq<byte>, xid: uint32,
                                        replied: bool, later: int)
    requires NodeInv(cfg, n)
    ensures var r := RemoteRequest(cfg, n, addr, now).0;
      |r.blocks| == |r.tables| && Discover(cfg, r, chaddr, xid, replied, later).1 == Discover(cfg, n, chaddr, xid, replied, later).1
  {
    var r := RemoteRequest(cfg, n, addr, now).0;
    match FindLease(cfg, n.blocks, addr)
    case Mine(b, j) =>
      OnlyTheEndMoves(cfg, n, addr, now, b, j);
      SameFirst(n.tables[b].value, j, Slot(r, b, j));
      SameOldest(n.blocks, n.tables, r.tables);
    case _ =>
  }

  /** In every node with a free lease there is an address whose forwarded renewal is acknowledged although its
      slot is AVAILABLE, and which the next client is offered. */
  lemma {:induction false} RenewedIsOffered(cfg: Config, n: Node, now: int, chaddr: seq<byte>, xid: uint32, replied: bool,
                                            later: int) returns (addr: uint32)
    requires NodeInv(cfg, n) && NumFree(n.blocks, n.tables) > 0 && Address.Span(cfg) <= Address.ADDRESSES
    ensures var ((r, answer), f) := (RemoteRequest(cfg, n, addr, now), FindLease(cfg, n.blocks, addr));
      && answer == 0 && f.Mine? && Slot(n, f.block, f.slot).state.Available?
      && |r.blocks| == |r.tables| && Discover(cfg, r, chaddr, xid, replied, later).1 == Offer(addr)
  {
    FreeWhenServing(n.blocks, n.tables);
    var b := FindFreeLeases(n.blocks, n.tables).value;
    OldestServes(n, b);
    var j := LeaseTable.First(n.tables[b].value, Available);
    assert Placed(cfg, b, n.blocks[b]) && TableFits(cfg, n.blocks[b], n.tables[b]);
    addr := Address.AddressOf(cfg, b, j);
    assert Address.IsSlot(cfg, b, j);
    Address.SlotIsFound(cfg, n.blocks, b, j);
    OfferUnmoved(cfg, n, addr, now, chaddr, xid, replied, later);
  }
}
