/** DHCP messages of dhcp_packet.c: a fixed header, the cookie and the options (section 2 of
    RFC 2131 and section 2 of RFC 2132). Parsing makes two passes over the options, one
    that counts and one that fills an array of that size. */
module DhcpCodec {
  import opened Types
  import opened Bytes

  const PAD: byte := 0
  const END: byte := 255
  const MESSAGE_TYPE: byte := 53
  const COOKIE: seq<byte> := [99, 130, 83, 99]

  /** struct dhcp_option; its length field is the length of the payload. */
  datatype DhcpOption = DhcpOption(code: byte, payload: seq<byte>)

  datatype Header = Header(
    op: byte, htype: byte, hlen: byte, hops: byte, xid: uint32, secs: uint16, flags: uint16,
    ciaddr: seq<byte>, yiaddr: seq<byte>, siaddr: seq<byte>, giaddr: seq<byte>,
    chaddr: seq<byte>, sname: seq<byte>, file: seq<byte>)

  datatype Message = Message(header: Header, options: seq<DhcpOption>)

  /** Failed carries the negative return code. Corrupt: the second pass stores more entries
      than the first one counted, or its 8-bit index cannot reach the count. */
  datatype Parsed = Ok(message: Message) | Failed(code: int) | Corrupt

  const END_OPTION := DhcpOption(END, [])

  predicate Bare(code: byte) {
    code == PAD || code == END
  }

  ghost predicate HeaderFits(h: Header) {
    && |h.ciaddr| == |h.yiaddr| == |h.siaddr| == |h.giaddr| == 4
    && |h.chaddr| == 16 && |h.sname| == 64 && |h.file| == 128
  }

  ghost predicate OptionsFit(opts: seq<DhcpOption>) {
    forall k :: 0 <= k < |opts| ==> |opts[k].payload| < 0x100
  }

  // ---------------------------------------------------------------- printing

  function PrintNumbers(h: Header): (bs: seq<byte>)
    ensures |bs| == 12
  {
    [h.op, h.htype, h.hlen, h.hops] + Encode(h.xid, 4) + Encode(h.secs, 2) + Encode(h.flags, 2)
  }

  function PrintNames(h: Header): (bs: seq<byte>) {
    h.ciaddr + h.yiaddr + h.siaddr + h.giaddr + h.chaddr + h.sname + h.file
  }

  function PrintOption(o: DhcpOption): seq<byte>
    requires |o.payload| < 0x100
  {
    if Bare(o.code) then [o.code] else [o.code, |o.payload|] + o.payload
  }

  function PrintOptions(opts: seq<DhcpOption>): seq<byte>
    requires OptionsFit(opts)
  {
    if opts == [] then [] else PrintOption(opts[0]) + PrintOptions(opts[1..])
  }

  /** The serialising half of dhcp_packet_send. */
  function Print(m: Message): seq<byte>
    requires OptionsFit(m.options)
  {
    PrintNumbers(m.header) + PrintNames(m.header) + COOKIE + PrintOptions(m.options) + [END]
  }

  // ---------------------------------------------------------------- parsing

  function ParseHeader(bs: seq<byte>): Header
    requires |bs| >= 236
  {
    Header(bs[0], bs[1], bs[2], bs[3], Number32(bs[4..8]), Number16(bs[8..10]), Number16(bs[10..12]),
           bs[12..16], bs[16..20], bs[20..24], bs[24..28], bs[28..44], bs[44..108], bs[108..236])
  }

  /** Whether the option at the front reaches past the end (dhcp_packet.c:180). With one
      byte left, it does whatever the length byte behind the message is. */
  predicate Overruns(s: seq<byte>)
    requires s != []
  {
    |s| < 2 || s[1] + 2 > |s|
  }

  /** What the counting pass knows at the end, or that it returned -5. */
  datatype Tally = Tally(count: nat, typed: bool) | Overrun

  function Count(s: seq<byte>): Tally
    decreases |s|
  {
    if s == [] then Tally(0, false)
    else if s[0] == PAD then Count(s[1..])
    else if s[0] == END then Tally(1, false)
    else if Overruns(s) then Overrun
    else Plus(1, s[0] == MESSAGE_TYPE, Count(s[s[1] + 2..]))
  }

  function Plus(count: nat, typed: bool, t: Tally): Tally {
    if t.Overrun? then t else Tally(count + t.count, typed || t.typed)
  }

  /** The filling pass. */
  function Fill(s: seq<byte>): seq<DhcpOption>
    decreases |s|
  {
    if s == [] then []
    else if s[0] == END then [END_OPTION]
    else if s[0] == PAD then [DhcpOption(PAD, [])] + Fill(s[1..])
    else if Overruns(s) then []
    else [DhcpOption(s[0], s[2..s[1] + 2])] + Fill(s[s[1] + 2..])
  }

  /** ntoh_dhcp_packet */
  function Parse(bs: seq<byte>): Parsed {
    if |bs| < 240 then Failed(-1)
    else if bs[236..240] != COOKIE then Failed(-7)
    else match Count(bs[240..])
      case Overrun => Failed(-5)
      case Tally(count, typed) =>
        if !typed then Failed(-6)
        else if count < 0x100 && |Fill(bs[240..])| == count then Ok(Message(ParseHeader(bs), Fill(bs[240..])))
        else Corrupt
  }

  // ---------------------------------------------------------------- the two passes

  /** Number of PAD entries that the filling pass stores. */
  function Pads(opts: seq<DhcpOption>): nat {
    if opts == [] then 0 else (if opts[0].code == PAD then 1 else 0) + Pads(opts[1..])
  }

  ghost predicate Holds(opts: seq<DhcpOption>, code: byte) {
    exists k :: 0 <= k < |opts| && opts[k].code == code
  }

  lemma {:induction false} PadsAreHeld(opts: seq<DhcpOption>)
    ensures Pads(opts) > 0 <==> Holds(opts, PAD)
  {
    if opts != [] {
      PadsAreHeld(opts[1..]);
      assert forall k :: 0 <= k < |opts| - 1 ==> opts[1..][k] == opts[k + 1];
    }
  }

  /** The filling pass stores every PAD on top of what the counting pass counted. */
  lemma {:induction false} FillExceedsCount(s: seq<byte>)
    requires Count(s).Tally?
    ensures |Fill(s)| == Count(s).count + Pads(Fill(s))
    ensures Count(s).typed <==> Holds(Fill(s), MESSAGE_TYPE)
    decreases |s|
  {
    if s != [] && s[0] != END {
      var rest := if s[0] == PAD then s[1..] else s[s[1] + 2..];
      FillExceedsCount(rest);
      var f := Fill(s);
      assert f[1..] == Fill(rest);
      assert Holds(f, MESSAGE_TYPE) <==> f[0].code == MESSAGE_TYPE || Holds(f[1..], MESSAGE_TYPE) by {
        HoldsFirst(f, MESSAGE_TYPE);
      }
    }
  }

  lemma HoldsFirst(opts: seq<DhcpOption>, code: byte)
    requires opts != []
    ensures Holds(opts, code) <==> opts[0].code == code || Holds(opts[1..], code)
  {
    assert forall k :: 0 <= k < |opts| - 1 ==> opts[1..][k] == opts[k + 1];
  }

  /** The passes agree exactly on option lists without PAD and of at most 255 entries. */
  lemma PassesAgree(s: seq<byte>)
    requires Count(s).Tally?
    ensures (Count(s).count < 0x100 && |Fill(s)| == Count(s).count)
        <==> !Holds(Fill(s), PAD) && |Fill(s)| < 0x100
  {
    FillExceedsCount(s);
    PadsAreHeld(Fill(s));
  }

  // ---------------------------------------------------------------- round trips

  /** The options up to the first END, and that END: the printer ends every list with one. */
  function UpToEnd(opts: seq<DhcpOption>): seq<DhcpOption> {
    if opts == [] || opts[0].code == END then [END_OPTION]
    else [if opts[0].code == PAD then DhcpOption(PAD, []) else opts[0]] + UpToEnd(opts[1..])
  }

  lemma {:induction false} FillPrinted(opts: seq<DhcpOption>)
    requires OptionsFit(opts)
    ensures Count(PrintOptions(opts) + [END]).Tally?
    ensures Fill(PrintOptions(opts) + [END]) == UpToEnd(opts)
  {
    if opts != [] {
      var o, s := opts[0], PrintOptions(opts) + [END];
      var rest := PrintOptions(opts[1..]) + [END];
      assert s == PrintOption(o) + rest;
      assert s[0] == o.code;
      FillPrinted(opts[1..]);
      if o.code == PAD {
        assert s[1..] == rest;
      } else if o.code != END {
        assert s[1] == |o.payload| && s[2..s[1] + 2] == o.payload && s[s[1] + 2..] == rest;
      }
    }
  }

  lemma HeaderRoundTrip(h: Header, tail: seq<byte>)
    requires HeaderFits(h)
    ensures |PrintNumbers(h) + PrintNames(h)| == 236
    ensures ParseHeader(PrintNumbers(h) + PrintNames(h) + tail) == h
  {
    var numbers, names := PrintNumbers(h), PrintNames(h);
    var bs := numbers + names + tail;
    Encode32(h.xid);
    Encode16(h.secs);
    Encode16(h.flags);
    assert numbers[4..8] == Encode(h.xid, 4) && numbers[8..10] == Encode(h.secs, 2) && numbers[10..12] == Encode(h.flags, 2);
    assert bs[4..8] == numbers[4..8] && bs[8..10] == numbers[8..10] && bs[10..12] == numbers[10..12];
    assert bs[12..236] == names;
    NamesRoundTrip(h);
    assert bs[12..16] == names[..4] && bs[16..20] == names[4..8] && bs[20..24] == names[8..12] && bs[24..28] == names[12..16];
    assert bs[28..44] == names[16..32] && bs[44..108] == names[32..96] && bs[108..236] == names[96..];
  }

  lemma NamesRoundTrip(h: Header)
    requires HeaderFits(h)
    ensures var names := PrintNames(h);
      && |names| == 224
      && names[..4] == h.ciaddr && names[4..8] == h.yiaddr && names[8..12] == h.siaddr && names[12..16] == h.giaddr
      && names[16..32] == h.chaddr && names[32..96] == h.sname && names[96..] == h.file
  {
  }

  /** Parsing a printed message: the header and the options up to END come back exactly when
      these hold a message type, no PAD, and are at most 255 with END; without a message
      type the result is -6. */
  lemma ParsePrinted(m: Message)
    requires HeaderFits(m.header) && OptionsFit(m.options)
    ensures var kept := UpToEnd(m.options);
      && (Parse(Print(m)) == Ok(Message(m.header, kept))
          <==> Holds(kept, MESSAGE_TYPE) && !Holds(kept, PAD) && |kept| < 0x100)
      && (Parse(Print(m)) == Failed(-6) <==> !Holds(kept, MESSAGE_TYPE))
      && (Parse(Print(m)) == Corrupt <==> Holds(kept, MESSAGE_TYPE) && (Holds(kept, PAD) || |kept| >= 0x100))
  {
    var s := PrintOptions(m.options) + [END];
    PrintedParts(m);
    FillPrinted(m.options);
    FillExceedsCount(s);
    PassesAgree(s);
  }

  lemma PrintedParts(m: Message)
    requires HeaderFits(m.header) && OptionsFit(m.options)
    ensures var bs := Print(m);
      && |bs| >= 240 && bs[236..240] == COOKIE && bs[240..] == PrintOptions(m.options) + [END]
      && ParseHeader(bs) == m.header
  {
    var bs, s := Print(m), PrintOptions(m.options) + [END];
    var head := PrintNumbers(m.header) + PrintNames(m.header);
    assert bs == head + (COOKIE + s);
    HeaderRoundTrip(m.header, COOKIE + s);
    assert bs[236..240] == COOKIE && bs[240..] == s;
  }

  /** All options kept when none of them is PAD or END. */
  lemma {:induction false} UpToEndKeepsAll(opts: seq<DhcpOption>)
    requires !Holds(opts, PAD) && !Holds(opts, END)
    ensures UpToEnd(opts) == opts + [END_OPTION]
  {
    if opts != [] {
      HoldsFirst(opts, PAD);
      HoldsFirst(opts, END);
      UpToEndKeepsAll(opts[1..]);
      assert opts == [opts[0]] + opts[1..];
    }
  }

  /** A list with a message type and no PAD or END, of at most 254 options, comes back whole,
      followed by END. */
  lemma RoundTrip(m: Message)
    requires HeaderFits(m.header) && OptionsFit(m.options) && |m.options| < 0xff
    requires Holds(m.options, MESSAGE_TYPE) && !Holds(m.options, PAD) && !Holds(m.options, END)
    ensures Parse(Print(m)) == Ok(Message(m.header, m.options + [END_OPTION]))
  {
    UpToEndKeepsAll(m.options);
    var kept := m.options + [END_OPTION];
    var k :| 0 <= k < |m.options| && m.options[k].code == MESSAGE_TYPE;
    assert kept[k].code == MESSAGE_TYPE;
    ParsePrinted(m);
  }

  /** Bytes the entry at the front takes. */
  function Used(s: seq<byte>): (n: nat)
    requires s != [] && (Bare(s[0]) || !Overruns(s))
    ensures 0 < n <= |s|
  {
    if Bare(s[0]) then 1 else s[1] as int + 2
  }

  lemma FirstFilled(s: seq<byte>)
    requires s != [] && s[0] != END && Count(s).Tally?
    ensures Bare(s[0]) || !Overruns(s)
    ensures var f, rest := Fill(s), s[Used(s)..];
      && f != [] && f[1..] == Fill(rest) && Count(rest).Tally?
      && |f[0].payload| < 0x100 && PrintOption(f[0]) == s[..Used(s)]
  {
    if s[0] != PAD {
      assert [s[0], s[1]] + s[2..s[1] + 2] == s[..s[1] + 2];
    }
  }

  lemma PrintFront(opts: seq<DhcpOption>, s: seq<byte>, n: nat)
    requires opts != [] && OptionsFit(opts[1..]) && |opts[0].payload| < 0x100
    requires n <= |s| && PrintOption(opts[0]) == s[..n]
    requires PrintOptions(opts[1..]) <= s[n..]
    ensures OptionsFit(opts) && PrintOptions(opts) <= s
    ensures PrintOptions(opts) == s <==> PrintOptions(opts[1..]) == s[n..]
  {
    assert forall k :: 0 < k < |opts| ==> opts[k] == opts[1..][k - 1];
    assert s == s[..n] + s[n..];
    if PrintOptions(opts) == s {
      assert PrintOptions(opts)[n..] == PrintOptions(opts[1..]);
    }
  }

  lemma {:induction false} PrintFilled(s: seq<byte>)
    requires Count(s).Tally?
    ensures OptionsFit(Fill(s)) && PrintOptions(Fill(s)) <= s
    ensures PrintOptions(Fill(s)) == s || Holds(Fill(s), END)
    decreases |s|
  {
    if s != [] && s[0] == END {
      assert PrintOptions([END_OPTION]) == [END] + PrintOptions([]);
    } else if s != [] {
      FirstFilled(s);
      PrintFilled(s[Used(s)..]);
      PrintFront(Fill(s), s, Used(s));
      HoldsFirst(Fill(s), END);
    }
  }

  lemma Join(bs: seq<byte>, i: nat, j: nat, k: nat)
    requires i <= j <= k <= |bs|
    ensures bs[i..j] + bs[j..k] == bs[i..k]
  {
  }

  lemma NumbersParsed(bs: seq<byte>)
    requires |bs| >= 236
    ensures PrintNumbers(ParseHeader(bs)) == bs[0..12]
  {
    EncodeValue(bs[4..8]);
    EncodeValue(bs[8..10]);
    EncodeValue(bs[10..12]);
    assert [bs[0], bs[1], bs[2], bs[3]] == bs[0..4];
    Join(bs, 0, 4, 8);
    Join(bs, 0, 8, 10);
    Join(bs, 0, 10, 12);
  }

  lemma NamesParsed(bs: seq<byte>)
    requires |bs| >= 236
    ensures PrintNames(ParseHeader(bs)) == bs[12..236]
  {
    Join(bs, 12, 16, 20);
    Join(bs, 12, 20, 24);
    Join(bs, 12, 24, 28);
    Join(bs, 12, 28, 44);
    Join(bs, 12, 44, 108);
    Join(bs, 12, 108, 236);
  }

  /** Printing a parsed message gives back its bytes up to the first END, or all of them if
      there is none, and one more END. */
  lemma PrintParsed(bs: seq<byte>)
    requires Parse(bs).Ok?
    ensures var m := Parse(bs).message;
      && HeaderFits(m.header) && OptionsFit(m.options) && |m.options| < 0x100
      && Print(m)[..|Print(m)| - 1] <= bs
      && (Print(m)[..|Print(m)| - 1] == bs || Holds(m.options, END))
  {
    var m, s := Parse(bs).message, bs[240..];
    PrintFilled(s);
    NumbersParsed(bs);
    NamesParsed(bs);
    Join(bs, 0, 12, 236);
    Join(bs, 0, 236, 240);
    PrefixAfter(bs, 240, PrintOptions(m.options), END);
  }

  lemma PrefixAfter(bs: seq<byte>, n: nat, t: seq<byte>, last: byte)
    requires n <= |bs| && t <= bs[n..]
    ensures var p := bs[0..n] + t + [last]; p[..|p| - 1] <= bs && (t == bs[n..] ==> p[..|p| - 1] == bs)
  {
    assert bs == bs[0..n] + bs[n..];
  }
}
