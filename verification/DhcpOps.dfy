/** The lease handlers of dhcp.c on the heap. Each leaves the state and gives the reply that
    the function of the same name in DhcpSpec describes. */
module DhcpOps {
  import opened Types
  import LeaseTable
  import opened DhcpSpec
  import opened Store
  import LeaseOps
  import BlockOps

  /** find_lease_from_address */
  method FindLease(d: Daemon, addr: uint32) returns (f: Found)
    requires d.Valid()
    ensures f == DhcpSpec.FindLease(d.cfg, d.blocks[..], addr)
    ensures f.Mine? ==> d.addresses[f.block] != null && f.slot < d.addresses[f.block].Length
  {
    var blockNumber := (addr - d.cfg.prefix) % 0x1_0000_0000 / d.cfg.blockSize;
    var leaseNumber := (addr - d.cfg.prefix) % 0x1_0000_0000 % d.cfg.blockSize;
    if blockNumber < d.blocks.Length {
      assert TableFits(d.cfg, d.State().blocks[blockNumber], d.State().tables[blockNumber]);
      if d.blocks[blockNumber].state == Ours {
        return Mine(blockNumber, leaseNumber);
      } else {
        return Foreign(blockNumber, leaseNumber);
      }
    }
    return Outside;
  }

  /** Rewrite slot j of the table of block b. */
  method WriteSlot(d: Daemon, b: nat, j: nat, l: Lease)
    requires d.Valid() && b < d.addresses.Length && d.addresses[b] != null && j < d.addresses[b].Length
    modifies d.addresses[b]
    ensures d.Valid() && d.State() == SetSlot(old(d.State()), b, j, l)
  {
    ghost var was := d.Tables();
    d.addresses[b][j] := l;
    assert forall k :: 0 <= k < d.addresses.Length && k != b ==> d.Tables()[k] == was[k];
    assert d.Tables() == was[b := Some(was[b].value[j := l])];
  }

  /** dhcp_hdl_discover */
  method Discover(d: Daemon, chaddr: seq<byte>, xid: uint32, replied: bool, now: int) returns (reply: Reply)
    requires d.Valid()
    modifies d.blocks, d.addresses[..]
    ensures d.Valid() && (d.State(), reply) == DhcpSpec.Discover(d.cfg, old(d.State()), chaddr, xid, replied, now)
  {
    ghost var s := d.State();
    var f := BlockOps.FindFreeLeases(d);
    if f.None? {
      return Silent;
    }
    var b := f.value;
    LeaseTable.CountZero(s.tables[b].value, Available);
    var j := LeaseOps.GetFreeLease(d, b);
    WriteSlot(d, b, j, Lease(chaddr, Offered, xid, now + OFFER_TIMEOUT));
    if replied {
      BlockOps.WriteBlock(d, b, d.blocks[b].(needlessSince := 0));
    }
    return Offer(AddrAdd(d.blocks[b].subnet, j));
  }

  /** dhcp_ack */
  method AckLease(d: Daemon, b: nat, j: nat, req: Request, now: int) returns (reply: Reply)
    requires d.Valid() && b < d.addresses.Length && d.addresses[b] != null && j < d.addresses[b].Length
    modifies d.addresses[b]
    ensures d.Valid() && (d.State(), reply) == DhcpSpec.AckLease(d.cfg, old(d.State()), b, j, req, now)
  {
    WriteSlot(d, b, j, Lease(req.chaddr, Leased, req.xid, now + d.cfg.leaseTime + LEASE_SERVER_DELTA));
    reply := Ack(AddrAdd(d.blocks[b].subnet, j));
  }

  /** The inner search loop of dhcp_hdl_request. */
  method FindOffer(d: Daemon, b: nat, req: Request) returns (j: nat)
    requires LeaseOps.HasTable(d, b)
    ensures j == DhcpSpec.FindOffer(d.addresses[b][..], req)
  {
    var t := d.addresses[b];
    j := 0;
    while j < t.Length
      invariant j <= t.Length && forall k :: 0 <= k < j ==> !OfferedTo(t[k], req)
    {
      if t[j].state == Offered && t[j].xid == req.xid {
        if req.chaddr == t[j].chaddr {
          return;
        }
      }
      j := j + 1;
    }
  }

  method Offers(d: Daemon, b: nat, req: Request) returns (offers: bool, j: nat)
    requires d.Valid() && b < d.blocks.Length
    ensures offers <==> DhcpSpec.Offers(d.blocks[b], d.Tables()[b], req)
    ensures offers ==> j == DhcpSpec.FindOffer(d.Tables()[b].value, req)
  {
    offers, j := false, 0;
    assert TableFits(d.cfg, d.State().blocks[b], d.State().tables[b]);
    if d.blocks[b].state == Ours {
      j := FindOffer(d, b, req);
      offers := j < d.addresses[b].Length;
    }
  }

  /** The outer search loop of dhcp_hdl_request. */
  method FindOfferBlock(d: Daemon, req: Request) returns (b: nat, j: nat)
    requires d.Valid()
    ensures b == DhcpSpec.FindOfferBlock(d.blocks[..], d.Tables(), req)
    ensures b < d.blocks.Length ==> j == DhcpSpec.FindOffer(d.Tables()[b].value, req)
  {
    b, j := 0, 0;
    while b < d.blocks.Length
      invariant b <= d.blocks.Length
      invariant forall k :: 0 <= k < b ==> !DhcpSpec.Offers(d.blocks[k], d.Tables()[k], req)
    {
      var offers, slot := Offers(d, b, req);
      if offers {
        j := slot;
        return;
      }
      b := b + 1;
    }
  }

  /** block_num_owned, which never leaves block 0. */
  method NumOwned(d: Daemon) returns (owned: nat)
    requires d.Valid()
    ensures owned == DhcpSpec.NumOwned(d.blocks[..])
  {
    owned := 0;
    for i := 0 to d.blocks.Length
      invariant owned == if d.blocks[0].state.Ours? then i else 0
    {
      if d.blocks[0].state == Ours {
        owned := owned + 1;
      }
    }
  }

  method Forward(d: Daemon, b: nat, j: nat, req: Request, now: int) returns (reply: Reply)
    requires d.Valid() && b < d.blocks.Length && j < d.cfg.blockSize
    modifies d.addresses, d.addresses[b]
    ensures d.Valid() && (d.State(), reply) == DhcpSpec.Forward(d.cfg, old(d.State()), b, j, req, now)
    ensures forall k :: 0 <= k < d.addresses.Length ==> d.addresses[k] == old(d.addresses[k]) || fresh(d.addresses[k])
  {
    ghost var s := d.State();
    assert Placed(d.cfg, b, s.blocks[b]);
    BlockOps.BlockAlloc(d, b);
    ghost var m := d.State();
    assert m == Allocated(s, b);
    assert TableFits(d.cfg, m.blocks[b], m.tables[b]);
    WriteSlot(d, b, j, Lease(req.chaddr, Offered, req.xid, now + d.cfg.leaseTime + LEASE_SERVER_DELTA));
    reply := Forwarded;
  }

  /** dhcp_hdl_request for an address inside the range. */
  method RequestSlot(d: Daemon, f: Found, req: Request, now: int) returns (reply: Reply)
    requires d.Valid() && !f.Outside? && f.block < d.blocks.Length && f.slot < d.cfg.blockSize
    requires f.Mine? <==> d.blocks[f.block].state.Ours?
    modifies d.addresses, d.addresses[f.block]
    ensures d.Valid() && (d.State(), reply) == DhcpSpec.RequestSlot(d.cfg, old(d.State()), f, req, now)
    ensures forall k :: 0 <= k < d.addresses.Length ==> d.addresses[k] == old(d.addresses[k]) || fresh(d.addresses[k])
  {
    var b, j := f.block, f.slot;
    assert TableFits(d.cfg, d.State().blocks[b], d.State().tables[b]);
    if d.blocks[b].state == Claimed {
      reply := Forward(d, b, j, req, now);
    } else if d.blocks[b].state == Ours {
      var lease := d.addresses[b][j];
      if lease.state != Offered || lease.xid != req.xid {
        if req.chaddr != lease.chaddr {
          if lease.state != Available {
            return Nak;
          }
        }
      }
      reply := AckLease(d, b, j, req, now);
    } else {
      var owned := NumOwned(d);
      reply := if owned > 0 then Nak else Silent;
    }
  }

  /** dhcp_hdl_request */
  method HandleRequest(d: Daemon, req: Request, now: int) returns (reply: Reply)
    requires d.Valid()
    modifies d.addresses, d.addresses[..]
    ensures d.Valid() && (d.State(), reply) == DhcpSpec.HandleRequest(d.cfg, old(d.State()), req, now)
    ensures forall k :: 0 <= k < d.addresses.Length ==> d.addresses[k] == old(d.addresses[k]) || fresh(d.addresses[k])
  {
    var wanted := Wanted(req);
    if wanted.Some? {
      var f := FindLease(d, wanted.value);
      if f.Outside? {
        return Nak;
      }
      reply := RequestSlot(d, f, req, now);
    } else {
      var b, j := FindOfferBlock(d, req);
      if b == d.blocks.Length {
        return Nak;
      }
      reply := AckLease(d, b, j, req, now);
    }
  }

  /** dhcp_hdl_release */
  method Release(d: Daemon, addr: uint32, chaddr: seq<byte>)
    requires d.Valid()
    modifies d.addresses[..]
    ensures d.Valid() && d.State() == DhcpSpec.Release(d.cfg, old(d.State()), addr, chaddr)
  {
    var f := FindLease(d, addr);
    if f.Mine? && chaddr == d.addresses[f.block][f.slot].chaddr {
      WriteSlot(d, f.block, f.slot, LeaseTable.Released(d.addresses[f.block][f.slot]));
    }
  }

  /** dhcp_release_lease */
  method RemoteRelease(d: Daemon, addr: uint32)
    requires d.Valid()
    modifies d.addresses[..]
    ensures d.Valid() && d.State() == DhcpSpec.RemoteRelease(d.cfg, old(d.State()), addr)
  {
    var f := FindLease(d, addr);
    if f.Mine? {
      WriteSlot(d, f.block, f.slot, LeaseTable.Released(d.addresses[f.block][f.slot]));
    }
  }

  /** dhcp_rhdl_ack */
  method RemoteAck(d: Daemon, req: Request, now: int) returns (r: AckResult)
    requires d.Valid()
    modifies d.addresses[..]
    ensures d.Valid() && (d.State(), r) == DhcpSpec.RemoteAck(d.cfg, old(d.State()), req, now)
  {
    var addr: uint32 := 0;
    if req.requested.Some? {
      addr := req.requested.value;
    } else if req.ciaddr != 0 {
      addr := req.ciaddr;
    }
    var f := FindLease(d, addr);
    if !f.Foreign? {
      return NotFound;
    }
    if d.addresses[f.block] == null {
      return NoTable;
    }
    assert TableFits(d.cfg, d.State().blocks[f.block], d.State().tables[f.block]);
    var reply := AckLease(d, f.block, f.slot, req, now);
    r := Answered(reply);
  }

  /** dhcp_rhdl_request */
  method RemoteRequest(d: Daemon, addr: uint32, now: int) returns (code: int)
    requires d.Valid()
    modifies d.addresses[..]
    ensures d.Valid() && (d.State(), code) == DhcpSpec.RemoteRequest(d.cfg, old(d.State()), addr, now)
  {
    var f := FindLease(d, addr);
    match f
    case Mine(b, j) =>
      WriteSlot(d, b, j, d.addresses[b][j].(leaseEnd := now + d.cfg.leaseTime + LEASE_SERVER_DELTA));
      return 0;
    case Foreign(_, _) => return 1;
    case Outside => return 2;
  }
}
