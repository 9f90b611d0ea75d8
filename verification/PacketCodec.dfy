/** The inter-node packets of packet.c: their size, printing and parsing. */
module PacketCodec {
  import opened Types
  import opened Bytes

  const UPDATECLAIM: byte := 1
  const INQUIRE: byte := 2
  const RENEWLEASE: byte := 16
  const LEASEACK: byte := 17
  const LEASENAK: byte := 18

  datatype Entry = Entry(blockIndex: uint32, timeout: uint16, reserved: uint16)

  datatype Renew = Renew(chaddr: seq<byte>, address: uint32, xid: uint32, leaseSeconds: uint32)

  /** The union of struct ddhcp_mcast_packet. */
  datatype Body = Entries(entries: seq<Entry>) | Renewal(renew: Renew)

  datatype Wire = Wire(nodeId: seq<byte>, prefix: seq<byte>, prefixLen: byte, blockSize: byte,
                       command: byte, count: byte, body: Body)

  datatype Parsed = Ok(packet: Wire) | Malformed

  predicate ListsBlocks(command: byte) {
    command == UPDATECLAIM || command == INQUIRE
  }

  predicate Renews(command: byte) {
    command == RENEWLEASE || command == LEASEACK || command == LEASENAK
  }

  /** Bytes of one entry. */
  function Width(command: byte): nat {
    if command == UPDATECLAIM then 7 else 4
  }

  /** _packet_size */
  function PacketSize(command: byte, count: nat): int {
    if ListsBlocks(command) then 16 + count * Width(command)
    else if Renews(command) then 16 + 28
    else -1
  }

  /** A packet as the daemon builds it: fields of the right length, a body that fits the
      command, and as many entries as counted. */
  predicate WellFormed(p: Wire) {
    && |p.nodeId| == 8 && |p.prefix| == 4
    && (if ListsBlocks(p.command) then p.body.Entries? && |p.body.entries| == p.count
        else Renews(p.command) && p.body.Renewal? && |p.body.renew.chaddr| == 16)
  }

  // ---------------------------------------------------------------- the format

  function PrintHeader(p: Wire): seq<byte> {
    p.nodeId + p.prefix + [p.prefixLen, p.blockSize, p.command, p.count]
  }

  function PrintEntry(command: byte, e: Entry): (bs: seq<byte>)
    ensures |bs| == Width(command)
  {
    if command == UPDATECLAIM then Encode(e.blockIndex, 4) + Encode(e.timeout, 2) + [e.reserved % 0x100]
    else Encode(e.blockIndex, 4)
  }

  function PrintEntries(command: byte, es: seq<Entry>): seq<byte>
    decreases |es|
  {
    if es == [] then [] else PrintEntry(command, es[0]) + PrintEntries(command, es[1..])
  }

  function PrintRenew(r: Renew): seq<byte> {
    Encode(r.address, 4) + Encode(r.xid, 4) + Encode(r.leaseSeconds, 4) + r.chaddr
  }

  function Print(p: Wire): seq<byte> {
    PrintHeader(p) + match p.body
                     case Entries(es) => PrintEntries(p.command, es)
                     case Renewal(r) => PrintRenew(r)
  }

  function ParseEntry(command: byte, bs: seq<byte>): Entry
    requires |bs| == Width(command)
  {
    if command == UPDATECLAIM then Entry(Number32(bs[..4]), Number16(bs[4..6]), bs[6])
    else Entry(Number32(bs), 0, 0)
  }

  function ParseEntries(command: byte, bs: seq<byte>): seq<Entry>
    decreases |bs|
  {
    if |bs| < Width(command) then []
    else [ParseEntry(command, bs[..Width(command)])] + ParseEntries(command, bs[Width(command)..])
  }

  function ParseRenew(bs: seq<byte>): Renew
    requires |bs| == 28
  {
    Renew(bs[12..], Number32(bs[..4]), Number32(bs[4..8]), Number32(bs[8..12]))
  }

  /** ntoh_mcast_packet on a received packet. */
  function Parse(bs: seq<byte>): Parsed {
    if |bs| < 16 || PacketSize(bs[14], bs[15]) != |bs| then Malformed
    else Ok(Wire(bs[..8], bs[8..12], bs[12], bs[13], bs[14], bs[15],
                 if ListsBlocks(bs[14]) then Entries(ParseEntries(bs[14], bs[16..]))
                 else Renewal(ParseRenew(bs[16..]))))
  }

  // ---------------------------------------------------------------- round trips

  /** What of an entry is carried: an INQUIRE has the index only, an UPDATECLAIM one byte of
      the reserved field. */
  function CarriedEntry(command: byte, e: Entry): Entry {
    if command == UPDATECLAIM then e.(reserved := e.reserved % 0x100) else Entry(e.blockIndex, 0, 0)
  }

  function CarriedEntries(command: byte, es: seq<Entry>): seq<Entry>
    decreases |es|
  {
    if es == [] then [] else [CarriedEntry(command, es[0])] + CarriedEntries(command, es[1..])
  }

  function Carried(p: Wire): Wire {
    match p.body
    case Entries(es) => p.(body := Entries(CarriedEntries(p.command, es)))
    case Renewal(_) => p
  }

  lemma EntryRoundTrip(command: byte, e: Entry)
    ensures ParseEntry(command, PrintEntry(command, e)) == CarriedEntry(command, e)
  {
    var bs := PrintEntry(command, e);
    Encode32(e.blockIndex);
    Encode16(e.timeout);
    if command == UPDATECLAIM {
      assert bs[..4] == Encode(e.blockIndex, 4) && bs[4..6] == Encode(e.timeout, 2);
    }
  }

  lemma {:induction false} EntriesRoundTrip(command: byte, es: seq<Entry>)
    ensures |PrintEntries(command, es)| == |es| * Width(command)
    ensures ParseEntries(command, PrintEntries(command, es)) == CarriedEntries(command, es)
    decreases |es|
  {
    if es != [] {
      var w, bs := Width(command), PrintEntries(command, es);
      EntryRoundTrip(command, es[0]);
      EntriesRoundTrip(command, es[1..]);
      assert bs[..w] == PrintEntry(command, es[0]) && bs[w..] == PrintEntries(command, es[1..]);
    }
  }

  lemma RenewRoundTrip(r: Renew)
    requires |r.chaddr| == 16
    ensures |PrintRenew(r)| == 28 && ParseRenew(PrintRenew(r)) == r
  {
    var bs := PrintRenew(r);
    Encode32(r.address);
    Encode32(r.xid);
    Encode32(r.leaseSeconds);
    assert bs[..4] == Encode(r.address, 4) && bs[4..8] == Encode(r.xid, 4);
    assert bs[8..12] == Encode(r.leaseSeconds, 4) && bs[12..] == r.chaddr;
  }

  /** Parsing what was printed gives back the packet, up to what is not carried; and printing
      takes exactly the computed size. */
  lemma ParsePrinted(p: Wire)
    requires WellFormed(p)
    ensures |Print(p)| == PacketSize(p.command, p.count)
    ensures Parse(Print(p)) == Ok(Carried(p))
  {
    var bs := Print(p);
    match p.body {
      case Entries(es) => EntriesRoundTrip(p.command, es);
      case Renewal(r) => RenewRoundTrip(r);
    }
    assert bs[..8] == p.nodeId && bs[8..12] == p.prefix;
    assert bs[12] == p.prefixLen && bs[13] == p.blockSize && bs[14] == p.command && bs[15] == p.count;
    assert bs[16..] == match p.body
                       case Entries(es) => PrintEntries(p.command, es)
                       case Renewal(r) => PrintRenew(r);
  }

  lemma EntryParsed(command: byte, bs: seq<byte>)
    requires |bs| == Width(command)
    ensures PrintEntry(command, ParseEntry(command, bs)) == bs
  {
    if command == UPDATECLAIM {
      EncodeValue(bs[..4]);
      EncodeValue(bs[4..6]);
    } else {
      EncodeValue(bs);
    }
  }

  lemma OneEntryLess(count: nat, w: nat)
    requires count > 0
    ensures w <= count * w && count * w - w == (count - 1) * w
  {
  }

  lemma {:induction false} EntriesParsed(command: byte, bs: seq<byte>, count: nat)
    requires |bs| == count * Width(command)
    ensures PrintEntries(command, ParseEntries(command, bs)) == bs
    ensures |ParseEntries(command, bs)| == count
    decreases count
  {
    if count > 0 {
      var w := Width(command);
      OneEntryLess(count, w);
      EntryParsed(command, bs[..w]);
      EntriesParsed(command, bs[w..], count - 1);
      assert ParseEntries(command, bs)[1..] == ParseEntries(command, bs[w..]);
      assert bs == bs[..w] + bs[w..];
    }
  }

  lemma RenewParsed(bs: seq<byte>)
    requires |bs| == 28
    ensures PrintRenew(ParseRenew(bs)) == bs
  {
    EncodeValue(bs[..4]);
    EncodeValue(bs[4..8]);
    EncodeValue(bs[8..12]);
  }

  /** Printing what was parsed gives back the bytes. */
  lemma PrintParsed(bs: seq<byte>)
    requires Parse(bs).Ok?
    ensures WellFormed(Parse(bs).packet) && Print(Parse(bs).packet) == bs
  {
    var p := Parse(bs).packet;
    var rest := bs[16..];
    assert bs == PrintHeader(p) + rest;
    if ListsBlocks(p.command) {
      EntriesParsed(p.command, rest, p.count);
    } else {
      RenewParsed(rest);
    }
  }

  /** Exactly the byte strings that some packet prints as are accepted. */
  lemma AcceptsWhatIsPrinted(bs: seq<byte>)
    ensures Parse(bs).Ok? <==> exists p :: WellFormed(p) && Print(p) == bs
  {
    if Parse(bs).Ok? { PrintParsed(bs); }
    forall p | WellFormed(p) && Print(p) == bs ensures Parse(bs).Ok? { ParsePrinted(p); }
  }

  // ---------------------------------------------------------------- the loops

  ghost predicate Filled(p: Wire, es: seq<Entry>, i: nat, printed: seq<byte>, pos: nat, size: nat) {
    && i <= |es| && pos == |printed| && pos + (|es| - i) * Width(p.command) == size
    && printed + PrintEntries(p.command, es[i..]) == PrintHeader(p) + PrintEntries(p.command, es)
  }

  lemma FilledNext(p: Wire, es: seq<Entry>, i: nat, printed: seq<byte>, pos: nat, size: nat)
    requires Filled(p, es, i, printed, pos, size) && i < |es|
    ensures pos + Width(p.command) <= size
    ensures Filled(p, es, i + 1, printed + PrintEntry(p.command, es[i]), pos + Width(p.command), size)
  {
    var w := Width(p.command);
    assert (|es| - i) * w == (|es| - (i + 1)) * w + w;
    assert es[i..][1..] == es[i + 1..];
    var rest := PrintEntries(p.command, es[i + 1..]);
    assert printed + (PrintEntry(p.command, es[i]) + rest) == printed + PrintEntry(p.command, es[i]) + rest;
  }

  method PutEntry(command: byte, e: Entry, buffer: array<byte>, pos: nat) returns (next: nat)
    requires pos + Width(command) <= buffer.Length
    modifies buffer
    ensures next == pos + Width(command)
    ensures buffer[..next] == old(buffer[..pos]) + PrintEntry(command, e)
  {
    next := Put(buffer, pos, Encode(e.blockIndex, 4));
    if command == UPDATECLAIM {
      next := Put(buffer, next, Encode(e.timeout, 2));
      next := Put(buffer, next, [e.reserved % 0x100]);
      assert old(buffer[..pos]) + Encode(e.blockIndex, 4) + Encode(e.timeout, 2) + [e.reserved % 0x100]
          == old(buffer[..pos]) + PrintEntry(command, e);
    }
  }

  method PutHeader(p: Wire, buffer: array<byte>) returns (next: nat)
    requires |p.nodeId| == 8 && |p.prefix| == 4 && 16 <= buffer.Length
    modifies buffer
    ensures next == 16 && buffer[..16] == PrintHeader(p)
  {
    next := Put(buffer, 0, p.nodeId);
    next := Put(buffer, next, p.prefix);
    next := Put(buffer, next, [p.prefixLen, p.blockSize, p.command, p.count]);
  }

  method PutRenew(r: Renew, buffer: array<byte>, pos: nat)
    requires |r.chaddr| == 16 && pos + 28 == buffer.Length
    modifies buffer
    ensures buffer[..] == old(buffer[..pos]) + PrintRenew(r)
  {
    var next := Put(buffer, pos, Encode(r.address, 4));
    next := Put(buffer, next, Encode(r.xid, 4));
    next := Put(buffer, next, Encode(r.leaseSeconds, 4));
    next := Put(buffer, next, r.chaddr);
    assert buffer[..] == buffer[..next];
    assert old(buffer[..pos]) + Encode(r.address, 4) + Encode(r.xid, 4) + Encode(r.leaseSeconds, 4) + r.chaddr
        == old(buffer[..pos]) + PrintRenew(r);
  }

  method PutEntries(p: Wire, es: seq<Entry>, buffer: array<byte>)
    requires buffer.Length == 16 + |es| * Width(p.command) && buffer[..16] == PrintHeader(p)
    modifies buffer
    ensures buffer[..] == PrintHeader(p) + PrintEntries(p.command, es)
  {
    var pos: nat := 16;
    assert es[0..] == es;
    for i := 0 to |es|
      invariant pos <= buffer.Length && Filled(p, es, i, buffer[..pos], pos, buffer.Length)
    {
      FilledNext(p, es, i, buffer[..pos], pos, buffer.Length);
      pos := PutEntry(p.command, es[i], buffer, pos);
    }
    assert buffer[..] == buffer[..pos];
  }

  /** hton_packet */
  method HtonPacket(p: Wire, buffer: array<byte>)
    requires WellFormed(p) && buffer.Length == PacketSize(p.command, p.count)
    modifies buffer
    ensures buffer[..] == Print(p)
  {
    var pos := PutHeader(p, buffer);
    match p.body
    case Entries(es) => PutEntries(p, es, buffer);
    case Renewal(r) => PutRenew(r, buffer, pos);
  }

  ghost predicate Taken(command: byte, bs: seq<byte>, i: nat, count: nat, pos: nat, entries: seq<Entry>) {
    && i <= count && 16 <= pos <= |bs| && pos + (count - i) * Width(command) == |bs|
    && entries + ParseEntries(command, bs[pos..]) == ParseEntries(command, bs[16..])
  }

  lemma TakenNext(command: byte, bs: seq<byte>, i: nat, count: nat, pos: nat, entries: seq<Entry>)
    requires Taken(command, bs, i, count, pos, entries) && i < count
    ensures pos + Width(command) <= |bs|
    ensures Taken(command, bs, i + 1, count, pos + Width(command),
                  entries + [ParseEntry(command, bs[pos..pos + Width(command)])])
  {
    var w := Width(command);
    OneEntryLess(count - i, w);
    assert bs[pos..][..w] == bs[pos..pos + w] && bs[pos..][w..] == bs[pos + w..];
    var e, rest := ParseEntry(command, bs[pos..pos + w]), ParseEntries(command, bs[pos + w..]);
    assert entries + ([e] + rest) == entries + [e] + rest;
  }

  lemma TakenAll(command: byte, bs: seq<byte>, count: nat, pos: nat, entries: seq<Entry>)
    requires Taken(command, bs, count, count, pos, entries)
    ensures entries == ParseEntries(command, bs[16..])
  {
    assert (count - count) * Width(command) == 0;
    assert bs[pos..] == [] && ParseEntries(command, []) == [];
  }

  method TakeEntries(command: byte, count: byte, buffer: array<byte>, len: nat) returns (entries: seq<Entry>)
    requires len <= buffer.Length && 16 + count * Width(command) == len
    ensures entries == ParseEntries(command, buffer[..len][16..])
  {
    entries := [];
    ghost var bs := buffer[..len];
    var pos: nat, w := 16, Width(command);
    for i := 0 to count
      invariant Taken(command, bs, i, count, pos, entries)
    {
      TakenNext(command, bs, i, count, pos, entries);
      assert bs[pos..pos + w] == buffer[pos..pos + w];
      entries := entries + [ParseEntry(command, buffer[pos..pos + w])];
      pos := pos + w;
    }
    TakenAll(command, bs, count, pos, entries);
  }

  /** ntoh_mcast_packet on the first len bytes of a receive buffer. */
  method NtohMcastPacket(buffer: array<byte>, len: nat) returns (r: Parsed)
    requires 16 <= buffer.Length && len <= buffer.Length
    ensures r == Parse(buffer[..len])
  {
    var command, count := buffer[14], buffer[15];
    if PacketSize(command, count) != len {
      assert len >= 16 ==> buffer[..len][14] == command && buffer[..len][15] == count;
      return Malformed;
    }
    var header := Wire(buffer[..8], buffer[8..12], buffer[12], buffer[13], command, count, Entries([]));
    ghost var bs := buffer[..len];
    assert bs[..8] == buffer[..8] && bs[8..12] == buffer[8..12];
    if ListsBlocks(command) {
      var entries := TakeEntries(command, count, buffer, len);
      r := Ok(header.(body := Entries(entries)));
    } else {
      assert Renews(command) && len == 44;
      assert bs[16..] == buffer[16..44];
      r := Ok(header.(body := Renewal(ParseRenew(buffer[16..44]))));
    }
  }
}
