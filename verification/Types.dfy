/** Blocks, leases, configuration and messages of the daemon, and the value of
    one node's state. The heap object that holds this state is Store.Daemon. */
module Types {
  datatype Option<+T> = None | Some(value: T)

  type byte = x: int | 0 <= x < 0x100
  type uint16 = x: int | 0 <= x < 0x1_0000
  type uint32 = x: int | 0 <= x < 0x1_0000_0000

  /** The eight bytes of a node id, read as a big-endian number; Bytes.MemcmpIsNumeric
      shows that this order is the one of memcmp. */
  type NodeId = x: int | 0 <= x < 0x1_0000_0000_0000_0000

  const NO_NODE: NodeId := 0
  const UPDATE_CLAIM_MAX_BLOCKS := 32
  const CLAIMS_BEFORE_OWNING := 3
  const OFFER_TIMEOUT := 12
  const LEASE_SERVER_DELTA := 10
  const NO_CHADDR: seq<byte> := [0, 0, 0, 0, 0, 0, 0, 0, 0, 0, 0, 0, 0, 0, 0, 0]

  datatype BlockState = Free | Tentative | Claimed | Claiming | Ours | Blocked

  datatype LeaseState = Available | Offered | Leased

  datatype Lease = Lease(chaddr: seq<byte>, state: LeaseState, xid: uint32, leaseEnd: int)

  const EMPTY_LEASE := Lease(NO_CHADDR, Available, 0, 0)

  /** struct ddhcp_block without its lease table pointer, which lives in a parallel
      sequence (`Node.tables`), and without its list links (`Node.claiming`). */
  datatype Block = Block(
    index: nat, state: BlockState, subnet: uint32, subnetLen: byte, claimingCounts: byte,
    nodeId: NodeId, owner: int, firstClaimed: int, needlessSince: int, timeout: int)

  datatype ConfigRecord = ConfigRecord(
    nodeId: NodeId, numberOfBlocks: uint32, blockTimeout: uint16, refreshFactor: uint16,
    needlessTimeout: uint16, tentativeTimeout: uint16, blockSize: byte, spareLeases: byte,
    prefix: uint32, leaseTime: uint32)

  type Config = c: ConfigRecord | c.numberOfBlocks >= 1 && c.refreshFactor >= 1 && c.blockSize >= 1
    witness ConfigRecord(0, 1, 60, 4, 300, 15, 32, 2, 0, 300)

  datatype Command = UpdateClaim | Inquire

  datatype Payload = Payload(blockIndex: nat, timeout: nat)

  /** A multicast message; its count field is the length of the payload. */
  datatype Packet = Packet(nodeId: NodeId, command: Command, payload: seq<Payload>)

  /** What a node has done so far: each multicast send attempt with its outcome, each
      block picked for claiming and each block taken into ownership. */
  datatype Event = Sent(packet: Packet, ok: bool) | Selected(block: nat) | Owned(block: nat)

  /** Whether the send attempt logged at a given position of the trace goes through. */
  type Link = nat -> bool

  datatype Node = Node(
    blocks: seq<Block>, tables: seq<Option<seq<Lease>>>,
    claiming: seq<nat>, amount: byte, needlessMarks: bool, trace: seq<Event>)

  predicate Lists(p: Packet, b: nat) {
    exists k :: 0 <= k < |p.payload| && p.payload[k].blockIndex == b
  }

  /** Address of slot 0 of block i, in 32-bit arithmetic (addr_add). */
  function SubnetOf(cfg: Config, i: nat): uint32 {
    (cfg.prefix + i * cfg.blockSize) % 0x1_0000_0000
  }

  /** Every block sits at its own index and carries its subnet; every allocated lease
      table has one entry per address of the block, and owned blocks have a table. */
  ghost predicate TableInv(cfg: Config, n: Node) {
    && |n.blocks| == |n.tables| == cfg.numberOfBlocks
    && (forall i :: 0 <= i < |n.blocks| ==> Placed(cfg, i, n.blocks[i]))
    && (forall i :: 0 <= i < |n.blocks| ==> TableFits(cfg, n.blocks[i], n.tables[i]))
  }

  ghost predicate Placed(cfg: Config, i: nat, b: Block) {
    b.index == i && b.subnet == SubnetOf(cfg, i) && b.subnetLen == cfg.blockSize
  }

  ghost predicate TableFits(cfg: Config, b: Block, t: Option<seq<Lease>>) {
    && (t.Some? ==> |t.value| == cfg.blockSize)
    && (b.state.Ours? ==> t.Some?)
  }

  ghost predicate Distinct(s: seq<nat>) {
    s == [] || (s[0] !in s[1..] && Distinct(s[1..]))
  }

  /** The claim list has no duplicates, is as long as the 8-bit amount says, holds every
      CLAIMING block and no owned one, and no listed counter is above three. */
  ghost predicate ClaimInv(n: Node) {
    && Distinct(n.claiming)
    && |n.claiming| == n.amount
    && (forall b :: b in n.claiming ==> Listable(n, b))
    && (forall b :: 0 <= b < |n.blocks| && n.blocks[b].state.Claiming? ==> b in n.claiming)
  }

  ghost predicate Listable(n: Node, b: nat) {
    b < |n.blocks| && n.blocks[b].claimingCounts <= CLAIMS_BEFORE_OWNING && !n.blocks[b].state.Ours?
  }
}
