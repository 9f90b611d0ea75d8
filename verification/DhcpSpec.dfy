/** The lease handlers of dhcp.c as functions on a node's state. */
module DhcpSpec {
  import opened Types
  import LeaseTable
  import BlockSpec

  datatype Found = Mine(block: nat, slot: nat) | Foreign(block: nat, slot: nat) | Outside

  /** find_lease_from_address, with its 32-bit subtraction. */
  function FindLease(cfg: Config, blocks: seq<Block>, addr: uint32): (f: Found)
    ensures !f.Outside? ==> f.block < |blocks| && f.slot < cfg.blockSize
  {
    var offset := (addr - cfg.prefix) % 0x1_0000_0000;
    var b := offset / cfg.blockSize;
    if b >= |blocks| then Outside
    else if blocks[b].state.Ours? then Mine(b, offset % cfg.blockSize)
    else Foreign(b, offset % cfg.blockSize)
  }

  /** addr_add */
  function AddrAdd(subnet: uint32, add: nat): uint32 {
    (subnet + add) % 0x1_0000_0000
  }

  predicate HasSlot(n: Node, b: nat, j: nat) {
    b < |n.tables| && n.tables[b].Some? && j < |n.tables[b].value|
  }

  function Slot(n: Node, b: nat, j: nat): Lease {
    if HasSlot(n, b, j) then n.tables[b].value[j] else EMPTY_LEASE
  }

  function SetSlot(n: Node, b: nat, j: nat, l: Lease): Node {
    if HasSlot(n, b, j) then n.(tables := n.tables[b := Some(n.tables[b].value[j := l])]) else n
  }

  datatype Reply = Offer(addr: uint32) | Ack(addr: uint32) | Nak | Forwarded | Silent

  datatype Request = Request(chaddr: seq<byte>, xid: uint32, requested: Option<uint32>, ciaddr: uint32)

  /** dhcp_hdl_discover; `replied` says whether the offer could be sent. */
  function Discover(cfg: Config, n: Node, chaddr: seq<byte>, xid: uint32, replied: bool, now: int): (Node, Reply)
    requires |n.blocks| == |n.tables|
  {
    match BlockSpec.FindFreeLeases(n.blocks, n.tables)
    case None => (n, Silent)
    case Some(b) =>
      var j := LeaseTable.First(n.tables[b].value, Available);
      var m := SetSlot(n, b, j, Lease(chaddr, Offered, xid, now + OFFER_TIMEOUT));
      (if replied then m.(blocks := m.blocks[b := m.blocks[b].(needlessSince := 0)]) else m,
       Offer(AddrAdd(n.blocks[b].subnet, j)))
  }

  function LeaseEnd(cfg: Config, now: int): int {
    now + cfg.leaseTime + LEASE_SERVER_DELTA
  }

  /** dhcp_ack */
  function AckLease(cfg: Config, n: Node, b: nat, j: nat, req: Request, now: int): (Node, Reply)
    requires b < |n.blocks|
  {
    (SetSlot(n, b, j, Lease(req.chaddr, Leased, req.xid, LeaseEnd(cfg, now))),
     Ack(AddrAdd(n.blocks[b].subnet, j)))
  }

  /** The lease is neither offered in this transaction, nor recorded for this client, nor available. */
  predicate TakenByOther(l: Lease, req: Request) {
    && (!l.state.Offered? || l.xid != req.xid)
    && req.chaddr != l.chaddr
    && !l.state.Available?
  }

  /** block_num_owned looks at block 0 only, once per block. */
  function NumOwned(blocks: seq<Block>): nat {
    if |blocks| > 0 && blocks[0].state.Ours? then |blocks| else 0
  }

  predicate OfferedTo(l: Lease, req: Request) {
    l.state.Offered? && l.xid == req.xid && req.chaddr == l.chaddr
  }

  function FindOffer(t: seq<Lease>, req: Request): (k: nat)
    ensures k <= |t|
    ensures k < |t| ==> OfferedTo(t[k], req)
    ensures forall j :: 0 <= j < k ==> !OfferedTo(t[j], req)
  {
    if t == [] then 0
    else
      var k := FindOffer(t[..|t| - 1], req);
      if k < |t| - 1 then k
      else if OfferedTo(t[|t| - 1], req) then |t| - 1 else |t|
  }

  predicate Offers(b: Block, t: Option<seq<Lease>>, req: Request) {
    b.state.Ours? && t.Some? && FindOffer(t.value, req) < |t.value|
  }

  /** The first owned block holding an offer of this transaction to this client. */
  function FindOfferBlock(blocks: seq<Block>, tables: seq<Option<seq<Lease>>>, req: Request): (k: nat)
    requires |blocks| == |tables|
    ensures k <= |blocks|
    ensures k < |blocks| ==> Offers(blocks[k], tables[k], req)
    ensures forall j :: 0 <= j < k ==> !Offers(blocks[j], tables[j], req)
  {
    if blocks == [] then 0
    else
      var last := |blocks| - 1;
      var k := FindOfferBlock(blocks[..last], tables[..last], req);
      if k < last then k
      else if Offers(blocks[last], tables[last], req) then last else |blocks|
  }

  function Wanted(req: Request): Option<uint32> {
    if req.requested.Some? then req.requested
    else if req.ciaddr != 0 then Some(req.ciaddr)
    else None
  }

  /** block_alloc */
  function Allocated(n: Node, b: nat): Node
    requires b < |n.blocks| == |n.tables|
  {
    if n.tables[b].Some? then n
    else n.(tables := n.tables[b := Some(LeaseTable.Blank(n.blocks[b].subnetLen))])
  }

  /** A request for a slot of a peer's block: remembered as offered and forwarded. */
  function Forward(cfg: Config, n: Node, b: nat, j: nat, req: Request, now: int): (Node, Reply)
    requires b < |n.blocks| == |n.tables|
  {
    (SetSlot(Allocated(n, b), b, j, Lease(req.chaddr, Offered, req.xid, LeaseEnd(cfg, now))), Forwarded)
  }

  /** dhcp_hdl_request for a slot inside the range. */
  function RequestSlot(cfg: Config, n: Node, f: Found, req: Request, now: int): (Node, Reply)
    requires !f.Outside? && f.block < |n.blocks| == |n.tables|
  {
    if f.Mine? then
      if TakenByOther(Slot(n, f.block, f.slot), req) then (n, Nak) else AckLease(cfg, n, f.block, f.slot, req, now)
    else if n.blocks[f.block].state.Claimed? then Forward(cfg, n, f.block, f.slot, req, now)
    else (n, if NumOwned(n.blocks) > 0 then Nak else Silent)
  }

  /** dhcp_hdl_request */
  function HandleRequest(cfg: Config, n: Node, req: Request, now: int): (Node, Reply)
    requires |n.blocks| == |n.tables|
  {
    match Wanted(req)
    case Some(addr) =>
      var f := FindLease(cfg, n.blocks, addr);
      if f.Outside? then (n, Nak) else RequestSlot(cfg, n, f, req, now)
    case None =>
      var b := FindOfferBlock(n.blocks, n.tables, req);
      if b == |n.blocks| then (n, Nak)
      else AckLease(cfg, n, b, FindOffer(n.tables[b].value, req), req, now)
  }

  /** dhcp_hdl_release: only the recorded client may release. */
  function Release(cfg: Config, n: Node, addr: uint32, chaddr: seq<byte>): Node {
    match FindLease(cfg, n.blocks, addr)
    case Mine(b, j) =>
      if chaddr == Slot(n, b, j).chaddr then SetSlot(n, b, j, LeaseTable.Released(Slot(n, b, j))) else n
    case _ => n
  }

  /** dhcp_release_lease, run for a release forwarded by a peer. */
  function RemoteRelease(cfg: Config, n: Node, addr: uint32): Node {
    match FindLease(cfg, n.blocks, addr)
    case Mine(b, j) => SetSlot(n, b, j, LeaseTable.Released(Slot(n, b, j)))
    case _ => n
  }

  /** What a LEASEACK leads to: a reply to the client whose request was forwarded, nothing, or a write
      into a lease table that is no longer there. */
  datatype AckResult = Answered(reply: Reply) | NotFound | NoTable

  /** dhcp_rhdl_ack for the forwarded request: a slot of a peer's block is leased in the cached table.
      Without that table the original writes through a null pointer; the state is then left open
      here, as it was. */
  function RemoteAck(cfg: Config, n: Node, req: Request, now: int): (Node, AckResult)
    requires |n.blocks| == |n.tables|
  {
    match FindLease(cfg, n.blocks, if Wanted(req).Some? then Wanted(req).value else 0)
    case Foreign(b, j) =>
      if n.tables[b].None? then (n, NoTable)
      else
        var (r, reply) := AckLease(cfg, n, b, j, req, now);
        (r, Answered(reply))
    case _ => (n, NotFound)
  }

  /** dhcp_rhdl_request: a forwarded renewal moves lease_end and nothing else. */
  function RemoteRequest(cfg: Config, n: Node, addr: uint32, now: int): (Node, int) {
    match FindLease(cfg, n.blocks, addr)
    case Mine(b, j) => (SetSlot(n, b, j, Slot(n, b, j).(leaseEnd := LeaseEnd(cfg, now))), 0)
    case Foreign(_, _) => (n, 1)
    case Outside => (n, 2)
  }
}
