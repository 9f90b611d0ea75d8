/** dhcp_packet.c on byte buffers: the cursor loops that measure, print and parse a message. */
module DhcpCodecOps {
  import opened Types
  import opened Bytes
  import opened DhcpCodec

  // ---------------------------------------------------------------- printing

  lemma PrintNext(opts: seq<DhcpOption>, i: nat)
    requires OptionsFit(opts) && i < |opts|
    ensures OptionsFit(opts[i..]) && OptionsFit(opts[i + 1..])
    ensures PrintOptions(opts[i..]) == PrintOption(opts[i]) + PrintOptions(opts[i + 1..])
  {
    assert opts[i..][1..] == opts[i + 1..];
  }

  /** _dhcp_packet_len */
  method DhcpPacketLen(options: array<DhcpOption>) returns (len: nat)
    requires OptionsFit(options[..])
    ensures len == 241 + |PrintOptions(options[..])|
  {
    ghost var opts := options[..];
    assert opts[0..] == opts;
    len := 240 + 1;
    for i := 0 to options.Length
      invariant len + |PrintOptions(opts[i..])| == 241 + |PrintOptions(opts)|
    {
      PrintNext(opts, i);
      if Bare(options[i].code) {
        len := len + 1;
      } else {
        len := len + 2 + |options[i].payload|;
      }
    }
  }

  method PutOption(o: DhcpOption, buffer: array<byte>, pos: nat) returns (next: nat)
    requires |o.payload| < 0x100 && pos + |PrintOption(o)| <= buffer.Length
    modifies buffer
    ensures next == pos + |PrintOption(o)|
    ensures buffer[..next] == old(buffer[..pos]) + PrintOption(o)
  {
    next := Put(buffer, pos, [o.code]);
    if !Bare(o.code) {
      next := Put(buffer, next, [|o.payload|]);
      next := Put(buffer, next, o.payload);
      assert old(buffer[..pos]) + [o.code] + [|o.payload|] + o.payload == old(buffer[..pos]) + PrintOption(o);
    }
  }

  method PutNumbers(h: Header, buffer: array<byte>) returns (next: nat)
    requires buffer.Length >= 12
    modifies buffer
    ensures next == 12 && buffer[..12] == PrintNumbers(h)
  {
    next := Put(buffer, 0, [h.op, h.htype, h.hlen, h.hops]);
    next := Put(buffer, next, Encode(h.xid, 4));
    next := Put(buffer, next, Encode(h.secs, 2));
    next := Put(buffer, next, Encode(h.flags, 2));
  }

  method PutNames(h: Header, buffer: array<byte>, pos: nat) returns (next: nat)
    requires HeaderFits(h) && pos + 224 <= buffer.Length
    modifies buffer
    ensures next == pos + 224 && buffer[..next] == old(buffer[..pos]) + PrintNames(h)
  {
    ghost var before := buffer[..pos];
    next := Put(buffer, pos, h.ciaddr);
    next := Put(buffer, next, h.yiaddr);
    next := Put(buffer, next, h.siaddr);
    next := Put(buffer, next, h.giaddr);
    next := Put(buffer, next, h.chaddr);
    next := Put(buffer, next, h.sname);
    next := Put(buffer, next, h.file);
    assert before + h.ciaddr + h.yiaddr + h.siaddr + h.giaddr + h.chaddr + h.sname + h.file == before + PrintNames(h);
  }

  ghost predicate Printed(opts: seq<DhcpOption>, i: nat, head: seq<byte>, printed: seq<byte>, size: nat) {
    && OptionsFit(opts) && i <= |opts|
    && printed + PrintOptions(opts[i..]) == head + PrintOptions(opts)
    && size == |head| + |PrintOptions(opts)| + 1
  }

  lemma PrintedNext(opts: seq<DhcpOption>, i: nat, head: seq<byte>, printed: seq<byte>, size: nat)
    requires Printed(opts, i, head, printed, size) && i < |opts|
    ensures |opts[i].payload| < 0x100 && |printed| + |PrintOption(opts[i])| < size
    ensures Printed(opts, i + 1, head, printed + PrintOption(opts[i]), size)
  {
    PrintNext(opts, i);
    var o, rest := PrintOption(opts[i]), PrintOptions(opts[i + 1..]);
    assert printed + (o + rest) == printed + o + rest;
    assert |printed + (o + rest)| == |head| + |PrintOptions(opts)|;
  }

  /** The options loop of dhcp_packet_send and the closing END. */
  method PutOptions(options: array<DhcpOption>, buffer: array<byte>, pos: nat)
    requires OptionsFit(options[..])
    requires buffer.Length == pos + |PrintOptions(options[..])| + 1
    modifies buffer
    ensures buffer[..] == old(buffer[..pos]) + PrintOptions(options[..]) + [END]
  {
    ghost var opts, head := options[..], buffer[..pos];
    assert opts[0..] == opts;
    var next: nat := pos;
    for i := 0 to options.Length
      invariant next < buffer.Length && Printed(opts, i, head, buffer[..next], buffer.Length)
      invariant options[..] == opts
    {
      PrintedNext(opts, i, head, buffer[..next], buffer.Length);
      next := PutOption(options[i], buffer, next);
    }
    assert opts[options.Length..] == [];
    assert buffer[..next] == head + PrintOptions(opts);
    buffer[buffer.Length - 1] := END;
    assert next + 1 == buffer.Length;
    assert buffer[..] == buffer[..next] + [END];
  }

  /** The serialising half of dhcp_packet_send, into a buffer of _dhcp_packet_len bytes. */
  method Serialise(h: Header, options: array<DhcpOption>) returns (buffer: array<byte>)
    requires HeaderFits(h) && OptionsFit(options[..])
    ensures buffer[..] == Print(Message(h, options[..]))
  {
    var len := DhcpPacketLen(options);
    buffer := new byte[len](_ => 0);
    var pos := PutNumbers(h, buffer);
    pos := PutNames(h, buffer, pos);
    pos := Put(buffer, pos, COOKIE);
    PutOptions(options, buffer, pos);
  }

  // ---------------------------------------------------------------- parsing

  /** Steps over the option at the cursor, or finds that it overruns (dhcp_packet.c:175-187). */
  method Skip(buffer: array<byte>, len: nat, pos: nat) returns (overruns: bool, next: nat)
    requires pos < len <= buffer.Length && !Bare(buffer[pos])
    ensures overruns <==> Overruns(buffer[pos..len])
    ensures !overruns ==> pos < next <= len && next == pos + Used(buffer[pos..len])
    ensures !overruns ==> buffer[pos..len][next - pos..] == buffer[next..len]
  {
    ghost var rest := buffer[pos..len];
    assert rest[0] == buffer[pos];
    if pos + 1 == len {
      return true, len;
    }
    assert rest[1] == buffer[pos + 1];
    next := pos + buffer[pos + 1] as int + 2;
    overruns := next > len;
  }

  ghost predicate Counted(all: Tally, rest: seq<byte>, count: nat, typed: bool, exit: bool) {
    all == if exit then Tally(count, typed) else Plus(count, typed, Count(rest))
  }

  /** The counting pass over the options, which start at 240. */
  method CountOptions(buffer: array<byte>, len: nat) returns (r: Tally)
    requires 240 <= len <= buffer.Length
    ensures r == Count(buffer[240..len])
  {
    ghost var all := Count(buffer[240..len]);
    var pos, count, typed, exit := 240, 0, false, false;
    while pos < len && !exit
      invariant 240 <= pos <= len && Counted(all, buffer[pos..len], count, typed, exit)
      decreases len - pos, !exit
    {
      if buffer[pos] == PAD {
        assert buffer[pos..len][1..] == buffer[pos + 1..len];
        pos := pos + 1;
      } else if buffer[pos] == END {
        count, exit := count + 1, true;
      } else {
        var overruns, next := Skip(buffer, len, pos);
        if overruns {
          return Overrun;
        }
        count, typed := count + 1, typed || buffer[pos] == MESSAGE_TYPE;
        pos := next;
      }
    }
    r := Tally(count, typed);
  }

  lemma SubSlice(buffer: array<byte>, pos: nat, len: nat, i: nat, j: nat)
    requires pos <= len <= buffer.Length && i <= j <= len - pos
    ensures buffer[pos..len][i..j] == buffer[pos + i..pos + j]
  {
    assert forall k :: 0 <= k < j - i ==> buffer[pos..len][i..j][k] == buffer[pos + i..pos + j][k];
  }

  /** Reads the entry at the cursor (dhcp_packet.c:208-233). */
  method Take(buffer: array<byte>, len: nat, pos: nat) returns (entry: DhcpOption, exit: bool, next: nat)
    requires pos < len <= buffer.Length && Count(buffer[pos..len]).Tally?
    ensures pos <= next <= len && (pos == next ==> exit)
    ensures Fill(buffer[pos..len]) == [entry] + (if exit then [] else Fill(buffer[next..len]))
    ensures Count(buffer[next..len]).Tally?
  {
    ghost var rest := buffer[pos..len];
    assert rest[0] == buffer[pos];
    if buffer[pos] == END {
      return END_OPTION, true, pos;
    }
    FirstFilled(rest);
    if buffer[pos] == PAD {
      assert rest[1..] == buffer[pos + 1..len];
      return DhcpOption(PAD, []), false, pos + 1;
    }
    next := pos + buffer[pos + 1] as int + 2;
    assert rest[1] == buffer[pos + 1];
    SubSlice(buffer, pos, len, 2, next - pos);
    assert rest[next - pos..] == buffer[next..len];
    entry, exit := DhcpOption(buffer[pos], buffer[pos + 2..next]), false;
  }

  ghost predicate Stored(all: seq<DhcpOption>, rest: seq<DhcpOption>, stored: nat, options: seq<DhcpOption>, i: byte) {
    && stored + |rest| == |all| && all[stored..] == rest
    && |options| <= |all| && i == stored % 0x100
    && (|options| < 0x100 ==> stored <= |options| && options[..stored] == all[..stored])
  }

  lemma StoredNext(all: seq<DhcpOption>, rest: seq<DhcpOption>, stored: nat, options: seq<DhcpOption>, i: byte)
    requires Stored(all, rest, stored, options, i) && rest != [] && i < |options|
    ensures Stored(all, rest[1..], stored + 1, options[i := rest[0]], (i + 1) % 0x100)
  {
    assert all[stored..][1..] == all[stored + 1..];
    var next := options[i := rest[0]];
    if |options| < 0x100 {
      assert i == stored;
      assert next[..stored + 1] == options[..stored] + [rest[0]];
      assert all[..stored + 1] == all[..stored] + [rest[0]];
    }
  }

  /** State of the filling pass with the bytes s still to read. */
  ghost predicate Filling(all: seq<DhcpOption>, s: seq<byte>, exit: bool, stored: nat, options: seq<DhcpOption>, i: byte) {
    Count(s).Tally? && Stored(all, if exit then [] else Fill(s), stored, options, i)
  }

  lemma FillingEnds(all: seq<DhcpOption>, s: seq<byte>, exit: bool, stored: nat, options: seq<DhcpOption>, i: byte)
    requires Filling(all, s, exit, stored, options, i)
    ensures s != [] && !exit && i >= |options| ==> |options| < 0x100 && |options| < |all|
    ensures s == [] || exit ==> (i == |options| <==> |options| < 0x100 && |options| == |all|)
    ensures (s == [] || exit) && i == |options| ==> options == all
  {
    if s == [] || exit {
      assert all[..stored] == all;
      if i == |options| { assert options[..stored] == options; }
    }
  }

  method StoreOne(buffer: array<byte>, len: nat, pos: nat, options: array<DhcpOption>, i: byte,
                  ghost all: seq<DhcpOption>, ghost stored: nat)
    returns (exit: bool, next: nat)
    requires pos < len <= buffer.Length && i < options.Length
    requires Filling(all, buffer[pos..len], false, stored, options[..], i)
    modifies options
    ensures pos <= next <= len && (pos == next ==> exit)
    ensures Filling(all, buffer[next..len], exit, stored + 1, options[..], (i + 1) % 0x100)
  {
    StoredNext(all, Fill(buffer[pos..len]), stored, options[..], i);
    ghost var before := options[..];
    var entry;
    entry, exit, next := Take(buffer, len, pos);
    options[i] := entry;
    assert options[..] == before[i as int := entry];
    assert Fill(buffer[pos..len])[1..] == if exit then [] else Fill(buffer[next..len]);
  }

  /** The filling pass, into an array as long as the counting pass found. It ends well
      exactly when it meets as many options as the array has room for, fewer than 256; then
      it has stored them all. */
  method FillOptions(buffer: array<byte>, len: nat, options: array<DhcpOption>) returns (ok: bool)
    requires 240 <= len <= buffer.Length
    requires Count(buffer[240..len]).Tally? && options.Length == Count(buffer[240..len]).count
    modifies options
    ensures ok <==> options.Length < 0x100 && |Fill(buffer[240..len])| == options.Length
    ensures ok ==> options[..] == Fill(buffer[240..len])
  {
    ghost var all := Fill(buffer[240..len]);
    FillExceedsCount(buffer[240..len]);
    var pos: nat, i: byte, exit := 240, 0, false;
    ghost var stored := 0;
    while pos < len && !exit
      invariant pos <= len && Filling(all, buffer[pos..len], exit, stored, options[..], i)
      decreases len - pos, !exit
    {
      FillingEnds(all, buffer[pos..len], exit, stored, options[..], i);
      if i >= options.Length {
        return false;
      }
      exit, pos := StoreOne(buffer, len, pos, options, i, all, stored);
      i, stored := (i + 1) % 0x100, stored + 1;
    }
    FillingEnds(all, buffer[pos..len], exit, stored, options[..], i);
    ok := i == options.Length;
  }

  /** ntoh_dhcp_packet on the first len bytes of a buffer. */
  method NtohDhcpPacket(buffer: array<byte>, len: nat) returns (r: Parsed)
    requires len <= buffer.Length
    ensures r == Parse(buffer[..len])
  {
    if len < 240 {
      return Failed(-1);
    }
    ghost var bs := buffer[..len];
    assert bs[240..] == buffer[240..len] && bs[236..240] == buffer[236..240];
    var header := ParseHeader(buffer[..len]);
    if buffer[236..240] != COOKIE {
      return Failed(-7);
    }
    var tally := CountOptions(buffer, len);
    if tally.Overrun? {
      return Failed(-5);
    }
    if !tally.typed {
      return Failed(-6);
    }
    var options := new DhcpOption[tally.count](_ => END_OPTION);
    var ok := FillOptions(buffer, len, options);
    r := if ok then Ok(Message(header, options[..])) else Corrupt;
  }
}
