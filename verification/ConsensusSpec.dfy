/** The two multicast handlers of ddhcp.c as functions on a node's state. */
module ConsensusSpec {
  import opened Types
  import BlockSpec

  /** ddhcp_block_init: every block FREE at its place, no table, nothing being claimed. */
  function Initial(cfg: Config, now: int): Node {
    Node(seq(cfg.numberOfBlocks, i requires 0 <= i < cfg.numberOfBlocks =>
           Block(i, Free, SubnetOf(cfg, i), cfg.blockSize, 0, NO_NODE, 0, 0, 0, now + cfg.blockTimeout)),
         seq(cfg.numberOfBlocks, _ => None), [], 0, false, [])
  }

  function ClaimedBy(b: Block, id: NodeId, sender: int, timeout: int): Block {
    b.(state := Claimed, timeout := timeout, owner := sender, nodeId := id)
  }

  /** One entry of an UPDATECLAIM: a claim of our block from a lower id is answered with
      our own claims; every other claim is recorded. */
  function ClaimEntry(cfg: Config, link: Link, n: Node, id: NodeId, sender: int, e: Payload, now: int): Node {
    var b := e.blockIndex;
    if b >= |n.blocks| then n
    else if n.blocks[b].state.Ours? && id < cfg.nodeId then Answer(cfg, link, n, b, now)
    else n.(blocks := n.blocks[b := ClaimedBy(n.blocks[b], id, sender, now + e.timeout)])
  }

  /** Reset the block's timeout, so that it is stale, and refresh. */
  function Answer(cfg: Config, link: Link, n: Node, b: nat, now: int): Node
    requires b < |n.blocks|
  {
    BlockSpec.Refresh(cfg, link, n.(blocks := n.blocks[b := n.blocks[b].(timeout := 0)]), now)
  }

  function MadeTentative(cfg: Config, b: Block, now: int): Block {
    b.(state := Tentative, timeout := now + cfg.tentativeTimeout)
  }

  /** One entry of an INQUIRE: an owner answers, a claimant yields to a higher id only,
      everybody else notes the interest. */
  function InquireEntry(cfg: Config, link: Link, n: Node, id: NodeId, e: Payload, now: int): Node {
    var b := e.blockIndex;
    if b >= |n.blocks| then n
    else if n.blocks[b].state.Ours? then Answer(cfg, link, n, b, now)
    else if n.blocks[b].state.Claiming? && id <= cfg.nodeId then n
    else n.(blocks := n.blocks[b := MadeTentative(cfg, n.blocks[b], now)])
  }

  function Entry(cfg: Config, link: Link, n: Node, p: Packet, sender: int, e: Payload, now: int): Node {
    match p.command
    case UpdateClaim => ClaimEntry(cfg, link, n, p.nodeId, sender, e, now)
    case Inquire => InquireEntry(cfg, link, n, p.nodeId, e, now)
  }

  /** A handler over the first k entries of its packet. */
  function HandleFirst(cfg: Config, link: Link, n: Node, p: Packet, sender: int, now: int, k: nat): Node
    requires k <= |p.payload|
  {
    if k == 0 then n
    else Entry(cfg, link, HandleFirst(cfg, link, n, p, sender, now, k - 1), p, sender, p.payload[k - 1], now)
  }

  /** ddhcp_block_process_claims, ddhcp_block_process_inquire */
  function Handle(cfg: Config, link: Link, n: Node, p: Packet, sender: int, now: int): Node {
    HandleFirst(cfg, link, n, p, sender, now, |p.payload|)
  }
}
