/** From a message of the protocol to the bytes on the wire and back: what the receiver hands to
    its handlers is what the sender sent. */
module Multicast {
  import opened Types
  import opened Bytes
  import opened PacketCodec
  import BlockSpec
  import ClaimProofs

  /** A message that fits the wire: at most 255 entries, 32-bit indices, 16-bit timeouts, and no
      timeouts in an inquiry. */
  ghost predicate Sendable(p: Packet) {
    && |p.payload| < 0x100
    && forall k :: 0 <= k < |p.payload| ==>
         && p.payload[k].blockIndex < 0x1_0000_0000 && p.payload[k].timeout < 0x1_0000
         && (p.command.Inquire? ==> p.payload[k].timeout == 0)
  }

  function EntriesOf(payload: seq<Payload>): (es: seq<Entry>)
    requires forall k :: 0 <= k < |payload| ==> payload[k].blockIndex < 0x1_0000_0000 && payload[k].timeout < 0x1_0000
    ensures |es| == |payload|
    ensures forall k :: 0 <= k < |es| ==> es[k] == Entry(payload[k].blockIndex, payload[k].timeout, 0)
  {
    if payload == [] then []
    else [Entry(payload[0].blockIndex, payload[0].timeout, 0)] + EntriesOf(payload[1..])
  }

  /** new_ddhcp_packet and the payload that its callers fill in. */
  function ToWire(cfg: Config, prefixLen: byte, p: Packet): Wire
    requires Sendable(p)
  {
    Wire(Encode(p.nodeId, 8), Encode(cfg.prefix, 4), prefixLen, cfg.blockSize,
         if p.command.UpdateClaim? then UPDATECLAIM else INQUIRE, |p.payload|, Entries(EntriesOf(p.payload)))
  }

  function PayloadOf(es: seq<Entry>): (payload: seq<Payload>)
    ensures |payload| == |es|
    ensures forall k :: 0 <= k < |es| ==> payload[k] == Payload(es[k].blockIndex, es[k].timeout)
  {
    seq(|es|, k requires 0 <= k < |es| => Payload(es[k].blockIndex, es[k].timeout))
  }

  /** ddhcp_check_packet */
  predicate ForUs(cfg: Config, prefixLen: byte, w: Wire) {
    w.prefix == Encode(cfg.prefix, 4) && w.prefixLen == prefixLen && w.blockSize == cfg.blockSize
  }

  function NodeIdOf(bs: seq<byte>): NodeId
    requires |bs| == 8
  {
    IdFits(bs);
    Value(bs)
  }

  lemma PowerOf8()
    ensures Power(8) == 0x1_0000_0000_0000_0000
  {
    assert Power(4) == 0x1_0000_0000 by { assert Power(2) == 0x1_0000; }
    assert Power(6) == 0x1_0000_0000_0000;
  }

  lemma IdFits(bs: seq<byte>)
    requires |bs| == 8
    ensures Value(bs) < 0x1_0000_0000_0000_0000
  {
    ValueBelow(bs);
    PowerOf8();
  }

  /** ddhcp_block_process: the message handed to a handler, if there is one for it. */
  function Receive(cfg: Config, prefixLen: byte, bs: seq<byte>): Option<Packet> {
    match Parse(bs)
    case Malformed => None
    case Ok(w) =>
      if !ForUs(cfg, prefixLen, w) || !w.body.Entries? || |w.nodeId| != 8 then None
      else if w.command == UPDATECLAIM then Some(Packet(NodeIdOf(w.nodeId), UpdateClaim, PayloadOf(w.body.entries)))
      else if w.command == INQUIRE then Some(Packet(NodeIdOf(w.nodeId), Inquire, PayloadOf(w.body.entries)))
      else None
  }

  lemma {:induction false} CarriedAt(command: byte, es: seq<Entry>, k: nat)
    requires k < |es|
    ensures |CarriedEntries(command, es)| == |es|
    ensures CarriedEntries(command, es)[k] == CarriedEntry(command, es[k])
    decreases |es|
  {
    var rest := CarriedEntries(command, es[1..]);
    if k > 0 {
      CarriedAt(command, es[1..], k - 1);
    } else if |es| > 1 {
      CarriedAt(command, es[1..], 0);
    }
  }

  lemma {:induction false} CarriedLength(command: byte, es: seq<Entry>)
    ensures |CarriedEntries(command, es)| == |es|
    decreases |es|
  {
    if es != [] { CarriedLength(command, es[1..]); }
  }

  lemma PayloadCarried(p: Packet)
    requires Sendable(p)
    ensures PayloadOf(CarriedEntries(if p.command.UpdateClaim? then UPDATECLAIM else INQUIRE, EntriesOf(p.payload)))
         == p.payload
  {
    var command := if p.command.UpdateClaim? then UPDATECLAIM else INQUIRE;
    var es := EntriesOf(p.payload);
    CarriedLength(command, es);
    forall k | 0 <= k < |es| ensures PayloadOf(CarriedEntries(command, es))[k] == p.payload[k] {
      CarriedAt(command, es, k);
    }
  }

  lemma EncodeFour(x: uint32, y: uint32)
    ensures Encode(x, 4) == Encode(y, 4) <==> x == y
  {
    Encode32(x);
    Encode32(y);
  }

  /** A message is received as it was sent by exactly the nodes of the same network: same prefix,
      prefix length and block size. All others drop it. */
  lemma ReceivedAsSent(sc: Config, sl: byte, rc: Config, rl: byte, p: Packet)
    requires Sendable(p)
    ensures Receive(rc, rl, Print(ToWire(sc, sl, p)))
         == if sc.prefix == rc.prefix && sl == rl && sc.blockSize == rc.blockSize then Some(p) else None
  {
    var w := ToWire(sc, sl, p);
    ParsePrinted(w);
    EncodeFour(sc.prefix, rc.prefix);
    PayloadCarried(p);
    PowerOf8();
    ValueEncode(p.nodeId, 8);
  }

  /** Every claim and every inquiry that a node in a reachable state puts together fits the wire. */
  lemma OwnMessagesFit(cfg: Config, n: Node, group: seq<nat>)
    requires ClaimProofs.NodeInv(cfg, n) && |group| <= UPDATE_CLAIM_MAX_BLOCKS
    requires forall b :: b in group ==> b < |n.blocks|
    ensures Sendable(BlockSpec.ClaimPacket(cfg, group))
    ensures Sendable(BlockSpec.InquirePacket(cfg, n.claiming))
  {
    var claim, inquiry := BlockSpec.ClaimPacket(cfg, group), BlockSpec.InquirePacket(cfg, n.claiming);
    forall k | 0 <= k < |claim.payload| ensures claim.payload[k].blockIndex < 0x1_0000_0000 {
      assert group[k] in group;
    }
    forall k | 0 <= k < |inquiry.payload| ensures inquiry.payload[k].blockIndex < 0x1_0000_0000 {
      assert Listable(n, n.claiming[k]) by { assert n.claiming[k] in n.claiming; }
    }
  }
}
