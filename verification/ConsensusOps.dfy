/** The multicast handlers of ddhcp.c on the heap. */
module ConsensusOps {
  import opened Types
  import ConsensusSpec
  import opened Store
  import BlockOps

  /** Answer an inquiry or a claim about one of our blocks with our claims. */
  method Answer(d: Daemon, b: nat, now: int)
    requires d.Valid() && b < d.blocks.Length
    modifies d`trace, d.blocks
    ensures d.Valid() && d.State() == ConsensusSpec.Answer(d.cfg, d.link, old(d.State()), b, now)
  {
    BlockOps.WriteBlock(d, b, d.blocks[b].(timeout := 0));
    BlockOps.UpdateClaims(d, now);
  }

  method ClaimEntry(d: Daemon, id: NodeId, sender: int, e: Payload, now: int)
    requires d.Valid()
    modifies d`trace, d.blocks
    ensures d.Valid() && d.State() == ConsensusSpec.ClaimEntry(d.cfg, d.link, old(d.State()), id, sender, e, now)
  {
    var b := e.blockIndex;
    if b >= d.blocks.Length {
      return;
    }
    if d.blocks[b].state == Ours && id < d.cfg.nodeId {
      Answer(d, b, now);
    } else {
      BlockOps.WriteBlock(d, b, d.blocks[b].(state := Claimed, timeout := now + e.timeout, owner := sender, nodeId := id));
    }
  }

  method InquireEntry(d: Daemon, id: NodeId, e: Payload, now: int)
    requires d.Valid()
    modifies d`trace, d.blocks
    ensures d.Valid() && d.State() == ConsensusSpec.InquireEntry(d.cfg, d.link, old(d.State()), id, e, now)
  {
    var b := e.blockIndex;
    if b >= d.blocks.Length {
      return;
    }
    if d.blocks[b].state == Ours {
      Answer(d, b, now);
    } else if d.blocks[b].state == Claiming {
      if id > d.cfg.nodeId {
        BlockOps.WriteBlock(d, b, d.blocks[b].(state := Tentative, timeout := now + d.cfg.tentativeTimeout));
      }
    } else {
      BlockOps.WriteBlock(d, b, d.blocks[b].(state := Tentative, timeout := now + d.cfg.tentativeTimeout));
    }
  }

  /** ddhcp_block_process_claims */
  method ProcessClaims(d: Daemon, p: Packet, sender: int, now: int)
    requires d.Valid() && p.command.UpdateClaim?
    modifies d`trace, d.blocks
    ensures d.Valid() && d.State() == ConsensusSpec.Handle(d.cfg, d.link, old(d.State()), p, sender, now)
  {
    ghost var s := d.State();
    for i := 0 to |p.payload|
      invariant d.Valid() && d.State() == ConsensusSpec.HandleFirst(d.cfg, d.link, s, p, sender, now, i)
    {
      ClaimEntry(d, p.nodeId, sender, p.payload[i], now);
    }
  }

  /** ddhcp_block_process_inquire */
  method ProcessInquire(d: Daemon, p: Packet, sender: int, now: int)
    requires d.Valid() && p.command.Inquire?
    modifies d`trace, d.blocks
    ensures d.Valid() && d.State() == ConsensusSpec.Handle(d.cfg, d.link, old(d.State()), p, sender, now)
  {
    ghost var s := d.State();
    for i := 0 to |p.payload|
      invariant d.Valid() && d.State() == ConsensusSpec.HandleFirst(d.cfg, d.link, s, p, sender, now, i)
    {
      InquireEntry(d, p.nodeId, p.payload[i], now);
    }
  }
}
