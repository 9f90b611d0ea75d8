/** Where each field lies in the bytes of a packet, and the numbers that stand for commands and options. The
    inverse laws of PacketCodec and DhcpCodec carry these positions over to what is printed. */
module WireLayout {
  import opened Types
  import opened Bytes
  import PacketCodec
  import DhcpCodec
  import Multicast

  /** Big-endian numbers of two and of four bytes at a position. */
  function Two(bs: seq<byte>, at: nat): nat
    requires at + 2 <= |bs|
  {
    var a: int, b: int := bs[at], bs[at + 1];
    0x100 * a + b
  }

  function Four(bs: seq<byte>, at: nat): nat
    requires at + 4 <= |bs|
  {
    var a: int, b: int, c: int, d: int := bs[at], bs[at + 1], bs[at + 2], bs[at + 3];
    0x100_0000 * a + 0x1_0000 * b + 0x100 * c + d
  }

  lemma ValueOfTwo(bs: seq<byte>, at: nat)
    requires at + 2 <= |bs|
    ensures Number16(bs[at..at + 2]) == Two(bs, at)
  {
    var s := bs[at..at + 2];
    assert s[..1][..0] == [];
    assert Value(s[..1]) == Value(s[..1][..0]) * 0x100 + s[0];
  }

  lemma ValueOfFour(bs: seq<byte>, at: nat)
    requires at + 4 <= |bs|
    ensures Number32(bs[at..at + 4]) == Four(bs, at)
  {
    var s := bs[at..at + 4];
    var s3 := s[..3];
    var s2 := s3[..2];
    var s1 := s2[..1];
    assert s1[..0] == [] && s1[0] == s[0] && s2[1] == s[1] && s3[2] == s[2];
    assert Value(s1) == s[0] && Value(s2) == Value(s1) * 0x100 + s[1] && Value(s3) == Value(s2) * 0x100 + s[2];
  }

  // ---------------------------------------------------------------- packets between nodes

  /** The length that a packet must have: 7 bytes an entry for command 1 and 4 for command 2 behind a header
      of 16 bytes, and 28 bytes for the commands 16 to 18. No other command has a length. */
  predicate RightLength(bs: seq<byte>)
    requires |bs| >= 16
  {
    var command: int, count: int := bs[14], bs[15];
    || (command == 1 && |bs| == 16 + 7 * count)
    || (command == 2 && |bs| == 16 + 4 * count)
    || (16 <= command <= 18 && |bs| == 44)
  }

  /** The header: eight bytes of node id, four of prefix, and one each of prefix length, block size, command
      and count. A packet is accepted exactly when its length is right. */
  lemma {:induction false} PacketHeader(bs: seq<byte>)
    ensures PacketCodec.Parse(bs).Ok? <==> |bs| >= 16 && RightLength(bs)
    ensures PacketCodec.Parse(bs).Ok? ==>
      var p := PacketCodec.Parse(bs).packet;
      && p.nodeId == bs[0..8] && p.prefix == bs[8..12]
      && p.prefixLen == bs[12] && p.blockSize == bs[13] && p.command == bs[14] && p.count == bs[15]
      && (p.command <= 2 ==> p.body.Entries? && |p.body.entries| == p.count)
  {
    if PacketCodec.Parse(bs).Ok? && bs[14] <= 2 {
      PacketCodec.EntriesParsed(bs[14], bs[16..], bs[15]);
    }
  }

  lemma {:induction false} EntryAt(command: byte, bs: seq<byte>, count: nat, k: nat)
    requires |bs| == count * PacketCodec.Width(command) && k < count
    ensures |PacketCodec.ParseEntries(command, bs)| == count
    ensures k * PacketCodec.Width(command) + PacketCodec.Width(command) <= |bs|
    ensures PacketCodec.ParseEntries(command, bs)[k]
         == PacketCodec.ParseEntry(command, bs[k * PacketCodec.Width(command)..][..PacketCodec.Width(command)])
    decreases |bs|
  {
    var w := PacketCodec.Width(command);
    assert count * w == w + (count - 1) * w;
    if k > 0 {
      EntryAt(command, bs[w..], count - 1, k - 1);
      assert k * w == w + (k - 1) * w;
      assert bs[w..][(k - 1) * w..] == bs[k * w..];
    } else if count > 1 {
      EntryAt(command, bs[w..], count - 1, 0);
    } else {
      assert bs[w..] == [];
    }
  }

  /** Entry k of an UPDATECLAIM: four bytes of block index, two of timeout and one reserved. */
  lemma {:induction false} ClaimEntryAt(bs: seq<byte>, k: nat)
    requires PacketCodec.Parse(bs).Ok? && bs[14] == 1 && k < bs[15]
    ensures PacketCodec.Parse(bs).packet.body.Entries? && |PacketCodec.Parse(bs).packet.body.entries| == bs[15]
    ensures 16 + 7 * k + 7 <= |bs|
    ensures PacketCodec.Parse(bs).packet.body.entries[k]
         == PacketCodec.Entry(Four(bs, 16 + 7 * k), Two(bs, 20 + 7 * k), bs[22 + 7 * k])
  {
    PacketHeader(bs);
    var (body, at) := (bs[16..], 16 + 7 * k);
    EntryAt(1, body, bs[15], k);
    var e := body[k * 7..][..7];
    assert e == bs[at..at + 7];
    assert e[..4] == bs[at..at + 4] && e[4..6] == bs[at + 4..at + 4 + 2] && e[6] == bs[at + 6];
    ValueOfFour(bs, at);
    ValueOfTwo(bs, at + 4);
  }

  /** Entry k of an INQUIRE: four bytes of block index. */
  lemma {:induction false} InquiryEntryAt(bs: seq<byte>, k: nat)
    requires PacketCodec.Parse(bs).Ok? && bs[14] == 2 && k < bs[15]
    ensures PacketCodec.Parse(bs).packet.body.Entries? && |PacketCodec.Parse(bs).packet.body.entries| == bs[15]
    ensures 16 + 4 * k + 4 <= |bs|
    ensures PacketCodec.Parse(bs).packet.body.entries[k] == PacketCodec.Entry(Four(bs, 16 + 4 * k), 0, 0)
  {
    PacketHeader(bs);
    var (body, at) := (bs[16..], 16 + 4 * k);
    EntryAt(2, body, bs[15], k);
    assert body[k * 4..][..4] == bs[at..at + 4];
    ValueOfFour(bs, at);
  }

  /** The renewal messages: address, transaction id and lease seconds of four bytes each, and sixteen of
      hardware address. */
  lemma {:induction false} RenewalAt(bs: seq<byte>)
    requires PacketCodec.Parse(bs).Ok? && bs[14] >= 16
    ensures |bs| == 44
    ensures PacketCodec.Parse(bs).packet.body ==
            PacketCodec.Renewal(PacketCodec.Renew(bs[28..44], Four(bs, 16), Four(bs, 20), Four(bs, 24)))
  {
    PacketHeader(bs);
    var body := bs[16..];
    assert body[..4] == bs[16..16 + 4] && body[4..8] == bs[20..20 + 4] && body[8..12] == bs[24..24 + 4] && body[12..] == bs[28..44];
    ValueOfFour(bs, 16);
    ValueOfFour(bs, 20);
    ValueOfFour(bs, 24);
  }

  /** What a node sends: claims have command 1 and inquiries command 2; the node id leads, in network order. */
  lemma {:induction false} MessageOnWire(cfg: Config, prefixLen: byte, p: Packet)
    requires Multicast.Sendable(p)
    ensures var bs := PacketCodec.Print(Multicast.ToWire(cfg, prefixLen, p));
      && |bs| >= 16 && Value(bs[0..8]) == p.nodeId && Four(bs, 8) == cfg.prefix
      && bs[12] == prefixLen && bs[13] == cfg.blockSize
      && bs[14] == (if p.command.UpdateClaim? then 1 else 2) && bs[15] == |p.payload|
  {
    var w := Multicast.ToWire(cfg, prefixLen, p);
    var bs := PacketCodec.Print(w);
    PacketCodec.ParsePrinted(w);
    PacketHeader(bs);
    Multicast.PowerOf8();
    ValueEncode(p.nodeId, 8);
    Encode32(cfg.prefix);
    assert bs[8..12] == bs[8..8 + 4];
    ValueOfFour(bs, 8);
  }

  // ---------------------------------------------------------------- DHCP messages

  /** The fields of the fixed header at their places. */
  function HeaderIn(bs: seq<byte>): DhcpCodec.Header
    requires |bs| >= 236
  {
    DhcpCodec.Header(bs[0], bs[1], bs[2], bs[3], Four(bs, 4), Two(bs, 8), Two(bs, 10), bs[12..16], bs[16..20], bs[20..24],
                     bs[24..28], bs[28..44], bs[44..108], bs[108..236])
  }

  /** A DHCP message is refused for its length or its cookie before anything else, and otherwise its header
      lies where section 2 of RFC 2131 puts it. */
  lemma {:induction false} DhcpHeader(bs: seq<byte>)
    ensures DhcpCodec.Parse(bs) == DhcpCodec.Failed(-1) <==> |bs| < 240
    ensures DhcpCodec.Parse(bs) == DhcpCodec.Failed(-7) <==>
            |bs| >= 240 && !(bs[236] == 99 && bs[237] == 130 && bs[238] == 83 && bs[239] == 99)
    ensures DhcpCodec.Parse(bs).Ok? ==> |bs| >= 240 && DhcpCodec.Parse(bs).message.header == HeaderIn(bs)
  {
    if |bs| >= 240 {
      var c := bs[236..240];
      assert c[0] == bs[236] && c[1] == bs[237] && c[2] == bs[238] && c[3] == bs[239];
      assert c == DhcpCodec.COOKIE <==> c[0] == 99 && c[1] == 130 && c[2] == 83 && c[3] == 99;
      ValueOfFour(bs, 4);
      ValueOfTwo(bs, 8);
      ValueOfTwo(bs, 10);
    }
  }

  /** The options are read from the front, as section 2 of RFC 2132 lays them out: 0 pads, 255 ends, and every other
      code is followed by a length and as many bytes; what follows is read in the same way. */
  lemma {:induction false} OptionsLaidOut(s: seq<byte>)
    ensures DhcpCodec.Fill(s) ==
      if s == [] then []
      else if s[0] == 255 then [DhcpCodec.DhcpOption(255, [])]
      else if s[0] == 0 then [DhcpCodec.DhcpOption(0, [])] + DhcpCodec.Fill(s[1..])
      else if |s| < 2 || 2 + s[1] > |s| then []
      else [DhcpCodec.DhcpOption(s[0], s[2..2 + s[1]])] + DhcpCodec.Fill(s[2 + s[1]..])
  {
  }

  /** The options begin at byte 240, and a message is refused with -6 exactly when no option before END has
      code 53, unless an option overruns it. */
  lemma {:induction false} OptionsBegin(bs: seq<byte>)
    requires |bs| >= 240
    ensures DhcpCodec.Parse(bs).Ok? ==> DhcpCodec.Parse(bs).message.options == DhcpCodec.Fill(bs[240..])
    ensures DhcpCodec.Parse(bs).Ok? ==> DhcpCodec.Holds(DhcpCodec.Fill(bs[240..]), 53)
    ensures DhcpCodec.Parse(bs) == DhcpCodec.Failed(-6) ==> !DhcpCodec.Holds(DhcpCodec.Fill(bs[240..]), 53)
  {
    if DhcpCodec.Count(bs[240..]).Tally? { DhcpCodec.FillExceedsCount(bs[240..]); }
  }
}
