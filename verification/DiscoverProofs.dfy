/** What an offer promises: the lease it picks, and that the client can have it. */
module DiscoverProofs {
  import opened Types
  import LeaseTable
  import opened BlockSpec
  import opened DhcpSpec
  import opened HouseProofs
  import Address

  /** A block serves exactly when its share of the free leases is positive, so discover finds
      none exactly when the sum is zero. */
  lemma {:induction false} FreeWhenServing(blocks: seq<Block>, tables: seq<Option<seq<Lease>>>)
    requires |blocks| == |tables|
    ensures NumFree(blocks, tables) == 0 <==> FindFreeLeases(blocks, tables).None?
  {
    if blocks != [] {
      FreeWhenServing(blocks[..|blocks| - 1], tables[..|blocks| - 1]);
    }
  }

  lemma OldestServes(n: Node, b: nat)
    requires |n.blocks| == |n.tables| && FindFreeLeases(n.blocks, n.tables) == Some(b)
    ensures n.tables[b].Some?
    ensures LeaseTable.First(n.tables[b].value, Available) < |n.tables[b].value|
  {
    LeaseTable.CountZero(n.tables[b].value, Available);
  }

  /** Block b is an owned block with an available lease claimed no later than any other one. */
  ghost predicate Oldest(n: Node, b: nat) {
    && b < |n.blocks| == |n.tables| && Serves(n.blocks[b], n.tables[b])
    && forall i :: 0 <= i < |n.blocks| && Serves(n.blocks[i], n.tables[i]) ==>
         n.blocks[b].firstClaimed <= n.blocks[i].firstClaimed
  }

  /** Slot j of block b is the first available one of its table. */
  ghost predicate Lowest(n: Node, b: nat, j: nat) {
    && HasSlot(n, b, j) && Slot(n, b, j).state.Available?
    && forall k :: 0 <= k < j ==> !Slot(n, b, k).state.Available?
  }

  /** Nothing but the lease in slot j of block b and that block's needless mark may differ. */
  ghost predicate OnlySlotDiffers(n: Node, m: Node, b: nat, j: nat) {
    && |m.blocks| == |n.blocks| && |m.tables| == |n.tables|
    && m.claiming == n.claiming && m.amount == n.amount && m.needlessMarks == n.needlessMarks && m.trace == n.trace
    && (forall i :: 0 <= i < |n.blocks| && i != b ==> m.blocks[i] == n.blocks[i])
    && (b < |n.blocks| ==> m.blocks[b].(needlessSince := 0) == n.blocks[b].(needlessSince := 0))
    && (forall c, k :: HasSlot(m, c, k) <==> HasSlot(n, c, k))
    && (forall c, k :: (c != b || k != j) ==> Slot(m, c, k) == Slot(n, c, k))
  }

  /** Discover offers the lowest available slot of the earliest claimed serving block, changes
      no other slot and takes one free lease; the slot is held for twelve seconds, and an offer that
      was sent clears the needless mark of its block. It is silent exactly when no lease is free. */
  lemma DiscoverPicks(cfg: Config, n: Node, chaddr: seq<byte>, xid: uint32, replied: bool, now: int)
    requires TableInv(cfg, n)
    ensures var (m, reply) := Discover(cfg, n, chaddr, xid, replied, now);
      && |m.blocks| == |m.tables|
      && (reply.Silent? <==> NumFree(n.blocks, n.tables) == 0) && (reply.Silent? ==> m == n)
      && (!reply.Silent? ==>
            exists b: nat, j: nat :: Oldest(n, b) && Lowest(n, b, j) && reply == Offer(Address.AddressOf(cfg, b, j))
              && Slot(m, b, j) == Lease(chaddr, Offered, xid, now + 12)
              && m.blocks[b].needlessSince == (if replied then 0 else n.blocks[b].needlessSince)
              && OnlySlotDiffers(n, m, b, j)
              && NumFree(m.blocks, m.tables) == NumFree(n.blocks, n.tables) - 1)
  {
    FreeWhenServing(n.blocks, n.tables);
    FindsOldest(n.blocks, n.tables);
    match FindFreeLeases(n.blocks, n.tables)
    case None =>
    case Some(b) =>
      OldestServes(n, b);
      var j := LeaseTable.First(n.tables[b].value, Available);
      var m := Discover(cfg, n, chaddr, xid, replied, now).0;
      var l := Lease(chaddr, Offered, xid, now + OFFER_TIMEOUT);
      assert Oldest(n, b) && Lowest(n, b, j);
      assert Placed(cfg, b, n.blocks[b]);
      OneLess(n, m, b, j, l);
      SlotWritten(n, m, b, j, l);
  }

  /** m is n with slot j of block b rewritten, and at most the needless mark of b cleared. */
  ghost predicate Written(n: Node, m: Node, b: nat, j: nat, l: Lease) {
    && |n.blocks| == |n.tables| && b < |n.blocks| && HasSlot(n, b, j)
    && (m == SetSlot(n, b, j, l)
        || m == SetSlot(n, b, j, l).(blocks := n.blocks[b := n.blocks[b].(needlessSince := 0)]))
  }

  lemma OneLess(n: Node, m: Node, b: nat, j: nat, l: Lease)
    requires Written(n, m, b, j, l) && n.blocks[b].state.Ours?
    requires Slot(n, b, j).state.Available? && !l.state.Available?
    ensures NumFree(m.blocks, m.tables) == NumFree(n.blocks, n.tables) - 1
  {
    var t := n.tables[b].value;
    LeaseTable.CountUpdate(t, j, l, Available);
    NumFreeUpdate(n.blocks, n.tables, b, n.blocks[b], Some(t[j := l]));
    assert n.blocks[b := n.blocks[b]] == n.blocks;
    NumFreeSame(m.blocks, n.blocks, m.tables);
  }

  lemma SlotWritten(n: Node, m: Node, b: nat, j: nat, l: Lease)
    requires Written(n, m, b, j, l)
    ensures Slot(m, b, j) == l && OnlySlotDiffers(n, m, b, j)
  {
  }

  /** A client that asks for the address it was offered, in the same transaction, gets it,
      however the request names it, and its slot is then leased to it. */
  lemma {:induction false} OfferIsHonoured(cfg: Config, n: Node, req: Request, replied: bool, now: int, later: int)
    requires TableInv(cfg, n) && Address.Span(cfg) <= Address.ADDRESSES
    ensures var (m, offer) := Discover(cfg, n, req.chaddr, req.xid, replied, now);
      && |m.blocks| == |m.tables|
      && (offer.Offer? && Wanted(req) == Some(offer.addr) ==>
            var (r, f) := (HandleRequest(cfg, m, req, later), FindLease(cfg, n.blocks, offer.addr));
            && r.1 == Ack(offer.addr) && f.Mine?
            && Slot(r.0, f.block, f.slot) == Lease(req.chaddr, Leased, req.xid, LeaseEnd(cfg, later)))
  {
    match FindFreeLeases(n.blocks, n.tables)
    case None =>
    case Some(b) =>
      OldestServes(n, b);
      var j := LeaseTable.First(n.tables[b].value, Available);
      var (m, offer) := Discover(cfg, n, req.chaddr, req.xid, replied, now);
      assert Placed(cfg, b, n.blocks[b]) && TableFits(cfg, n.blocks[b], n.tables[b]);
      assert offer.addr == Address.AddressOf(cfg, b, j) && Address.IsSlot(cfg, b, j);
      Address.SlotIsFound(cfg, m.blocks, b, j);
      Address.SlotIsFound(cfg, n.blocks, b, j);
      assert FindLease(cfg, m.blocks, offer.addr) == Mine(b, j) == FindLease(cfg, n.blocks, offer.addr);
  }
}
