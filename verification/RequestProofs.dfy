/** Which requests a node acknowledges, refuses or forwards, and what each answer leaves behind. */
module RequestProofs {
  import opened Types
  import opened ClaimProofs
  import opened DhcpSpec
  import Address
  import NodeProofs

  /** The slot may go to this client: it is available, it is recorded for the client, or it was
      offered in this transaction. */
  ghost predicate Grantable(l: Lease, req: Request) {
    l.state.Available? || l.chaddr == req.chaddr || (l.state.Offered? && l.xid == req.xid)
  }

  /** Slot j of the owned block b is offered to the client, by its hardware address, in this transaction. */
  ghost predicate OfferAt(n: Node, b: nat, j: nat, req: Request) {
    && b < |n.blocks| && n.blocks[b].state.Ours? && HasSlot(n, b, j)
    && Slot(n, b, j).state.Offered? && Slot(n, b, j).xid == req.xid && Slot(n, b, j).chaddr == req.chaddr
  }

  /** Some slot of an owned block was offered to this client in this transaction. */
  ghost predicate HasOffer(n: Node, req: Request) {
    exists b: nat, j: nat :: OfferAt(n, b, j, req)
  }

  lemma OfferCounts(n: Node, b: nat, j: nat, req: Request)
    requires |n.blocks| == |n.tables| && OfferAt(n, b, j, req)
    ensures FindOfferBlock(n.blocks, n.tables, req) < |n.blocks|
  {
    assert OfferedTo(n.tables[b].value[j], req);
    assert Offers(n.blocks[b], n.tables[b], req);
  }

  lemma OfferIsFound(n: Node, req: Request)
    requires |n.blocks| == |n.tables|
    ensures FindOfferBlock(n.blocks, n.tables, req) < |n.blocks| <==> HasOffer(n, req)
  {
    var k := FindOfferBlock(n.blocks, n.tables, req);
    if k < |n.blocks| {
      assert OfferAt(n, k, FindOffer(n.tables[k].value, req), req);
    }
    forall b: nat, j: nat | OfferAt(n, b, j, req) ensures k < |n.blocks| { OfferCounts(n, b, j, req); }
  }

  /** The decision about an address: acknowledged, naming it, exactly when it lies in an owned block and its
      slot may go to the client; forwarded exactly when a peer claims its block; and otherwise
      refused, unless the block is neither owned nor claimed and block 0 is not owned: then there is
      no answer at all. */
  ghost predicate DecidedFor(cfg: Config, n: Node, req: Request, reply: Reply, addr: uint32)
    requires |n.blocks| == cfg.numberOfBlocks
  {
    match FindLease(cfg, n.blocks, addr)
    case Mine(b, j) => reply == if Grantable(Slot(n, b, j), req) then Ack(addr) else Nak
    case Foreign(b, j) =>
      reply == if n.blocks[b].state.Claimed? then Forwarded else if n.blocks[0].state.Ours? then Nak else Silent
    case Outside => reply == Nak
  }

  lemma WantedDecides(cfg: Config, n: Node, req: Request, now: int, addr: uint32)
    requires NodeInv(cfg, n) && Wanted(req) == Some(addr)
    ensures DecidedFor(cfg, n, req, HandleRequest(cfg, n, req, now).1, addr)
  {
    match FindLease(cfg, n.blocks, addr)
    case Mine(b, j) =>
      assert Placed(cfg, b, n.blocks[b]);
      Address.FoundIsThere(cfg, n.blocks, addr);
    case _ =>
  }

  /** The whole decision, on the fields of the request. The requested address decides when there is one,
      whatever ciaddr is; without one ciaddr does, unless it is 0.0.0.0; and with neither the request
      is acknowledged exactly when the client holds an offer of this transaction, else refused. */
  lemma {:induction false} RequestDecides(cfg: Config, n: Node, req: Request, now: int)
    requires NodeInv(cfg, n)
    ensures var reply := HandleRequest(cfg, n, req, now).1;
      match req.requested {
        case Some(addr) => DecidedFor(cfg, n, req, reply, addr)
        case None =>
          if req.ciaddr != 0 then DecidedFor(cfg, n, req, reply, req.ciaddr)
          else (reply.Ack? <==> HasOffer(n, req)) && (reply.Nak? <==> !HasOffer(n, req))
      }
  {
    if req.requested.Some? {
      WantedDecides(cfg, n, req, now, req.requested.value);
    } else if req.ciaddr != 0 {
      WantedDecides(cfg, n, req, now, req.ciaddr);
    } else {
      OfferIsFound(n, req);
    }
  }

  /** A client that holds a slot of an owned block and renews it by ciaddr, without a requested address, is
      acknowledged for it, and the slot is its own until lease time plus ten seconds from now. */
  lemma {:induction false} HolderRenews(cfg: Config, link: Link, n: Node, req: Request, now: int, b: nat, j: nat)
    requires NodeInv(cfg, n) && req.requested.None? && req.ciaddr != 0
    requires FindLease(cfg, n.blocks, req.ciaddr) == Mine(b, j) && Slot(n, b, j).chaddr == req.chaddr
    ensures var (r, reply) := HandleRequest(cfg, n, req, now);
      && reply == Ack(req.ciaddr) && NodeProofs.Step(cfg, link, n, NodeProofs.Serve(now, req)) == r
      && HasSlot(r, b, j) && Slot(r, b, j) == Lease(req.chaddr, Leased, req.xid, now + cfg.leaseTime + 10)
  {
    RequestDecides(cfg, n, req, now);
    assert TableFits(cfg, n.blocks[b], n.tables[b]);
  }

  /** The address that a peer's acknowledgement is about: the requested one, else ciaddr, which may be 0.0.0.0. */
  lemma {:induction false} AckDecides(cfg: Config, link: Link, n: Node, req: Request, now: int)
    requires NodeInv(cfg, n)
    ensures NodeProofs.Step(cfg, link, n, NodeProofs.PeerAcks(now, req)) == RemoteAck(cfg, n, req, now).0
    ensures var addr := if req.requested.Some? then req.requested.value else req.ciaddr;
      var ((r, found), f) := (RemoteAck(cfg, n, req, now), FindLease(cfg, n.blocks, addr));
      && (found.NotFound? <==> !f.Foreign?)
      && (found.NoTable? <==> f.Foreign? && n.tables[f.block].None?)
      && (found.Answered? ==> found == Answered(Ack(addr)))
      && (if found.Answered?
          then r == SetSlot(n, f.block, f.slot, Lease(req.chaddr, Leased, req.xid, now + cfg.leaseTime + 10))
          else r == n)
  {
    var addr := if req.requested.Some? then req.requested.value else req.ciaddr;
    var f := FindLease(cfg, n.blocks, addr);
    if f.Foreign? {
      assert Placed(cfg, f.block, n.blocks[f.block]);
      Address.FoundIsThere(cfg, n.blocks, addr);
    }
  }

  ghost predicate SomeOwned(blocks: seq<Block>) {
    exists i :: 0 <= i < |blocks| && blocks[i].state.Ours?
  }

  /** What block_num_owned stands for, the number of owned blocks. */
  function CountOwned(blocks: seq<Block>): nat {
    if blocks == [] then 0 else CountOwned(blocks[..|blocks| - 1]) + if blocks[|blocks| - 1].state.Ours? then 1 else 0
  }

  lemma {:induction false} CountOwnedBounds(blocks: seq<Block>)
    ensures CountOwned(blocks) <= |blocks|
    ensures CountOwned(blocks) == 0 <==> !SomeOwned(blocks)
    ensures CountOwned(blocks) == |blocks| <==> forall i :: 0 <= i < |blocks| ==> blocks[i].state.Ours?
  {
    if blocks != [] {
      var rest := blocks[..|blocks| - 1];
      CountOwnedBounds(rest);
      if SomeOwned(blocks) && !blocks[|blocks| - 1].state.Ours? {
        var i :| 0 <= i < |blocks| && blocks[i].state.Ours?;
        assert rest[i].state.Ours?;
      }
      if SomeOwned(rest) {
        var i :| 0 <= i < |rest| && rest[i].state.Ours?;
        assert blocks[i].state.Ours?;
      }
      assert forall i :: 0 <= i < |rest| ==> rest[i] == blocks[i];
    }
  }

  /** block_num_owned is right exactly when all blocks are owned, or none; it tells "some" from "none",
      which is all the request handler asks, exactly when block 0 is owned or no block is. */
  lemma {:induction false} NumOwnedRight(blocks: seq<Block>)
    ensures NumOwned(blocks) == CountOwned(blocks) <==>
            !SomeOwned(blocks) || forall i :: 0 <= i < |blocks| ==> blocks[i].state.Ours?
    ensures (NumOwned(blocks) > 0 <==> SomeOwned(blocks)) <==> (|blocks| > 0 && blocks[0].state.Ours?) || !SomeOwned(blocks)
  {
    CountOwnedBounds(blocks);
  }

  /** So a request for a block that is neither owned nor claimed is refused if and only if the node owns
      a block, as intended, exactly when it owns block 0 or none; otherwise the client waits in vain. */
  lemma {:induction false} RefusalIsRight(cfg: Config, n: Node, req: Request, now: int)
    requires NodeInv(cfg, n) && Wanted(req).Some?
    requires var f := FindLease(cfg, n.blocks, Wanted(req).value); f.Foreign? && !n.blocks[f.block].state.Claimed?
    ensures var reply := HandleRequest(cfg, n, req, now).1;
      && (reply.Nak? || reply.Silent?)
      && ((reply.Nak? <==> SomeOwned(n.blocks)) <==> n.blocks[0].state.Ours? || !SomeOwned(n.blocks))
  {
    NumOwnedRight(n.blocks);
  }

  /** r is n with slot j of the peer's block b remembered as offered to the client, in a table that is
      allocated if there was none. */
  ghost predicate Remembered(cfg: Config, n: Node, r: Node, req: Request, now: int, b: nat, j: nat) {
    && b < |n.blocks| && n.blocks[b].state.Claimed? && r.blocks == n.blocks && |r.tables| == |n.tables|
    && HasSlot(r, b, j) && Slot(r, b, j) == Lease(req.chaddr, Offered, req.xid, now + cfg.leaseTime + 10)
    && (forall c :: 0 <= c < |n.tables| && c != b ==> r.tables[c] == n.tables[c])
    && (forall k :: 0 <= k < cfg.blockSize && k != j ==> HasSlot(r, b, k) && Slot(r, b, k) == Slot(n, b, k))
  }

  ghost predicate ForwardedFor(cfg: Config, n: Node, r: Node, req: Request, now: int, f: Found) {
    f.Foreign? && Remembered(cfg, n, r, req, now, f.block, f.slot)
  }

  /** What an answer leaves behind: a refusal or silence changes nothing, and a forwarded request only
      the cached table of the peer's block. (LeaseProofs.AckGrants is the case of an acknowledgement.) */
  lemma {:induction false} AnswerLeaves(cfg: Config, n: Node, req: Request, now: int)
    requires NodeInv(cfg, n)
    ensures var (r, reply) := HandleRequest(cfg, n, req, now);
      && (reply.Nak? || reply.Silent? ==> r == n)
      && (reply.Forwarded? ==> Wanted(req).Some?)
      && (reply.Forwarded? ==> ForwardedFor(cfg, n, r, req, now, FindLease(cfg, n.blocks, Wanted(req).value)))
  {
    var (r, reply) := HandleRequest(cfg, n, req, now);
    if reply.Forwarded? {
      var f := FindLease(cfg, n.blocks, Wanted(req).value);
      ForwardRemembers(cfg, n, f.block, f.slot, req, now);
    }
  }

  lemma ForwardRemembers(cfg: Config, n: Node, b: nat, j: nat, req: Request, now: int)
    requires TableInv(cfg, n) && b < |n.blocks| && n.blocks[b].state.Claimed? && j < cfg.blockSize
    ensures Remembered(cfg, n, Forward(cfg, n, b, j, req, now).0, req, now, b, j)
  {
    assert Placed(cfg, b, n.blocks[b]) && TableFits(cfg, n.blocks[b], n.tables[b]);
  }
}
