/** Big-endian numbers, and memcmp on byte strings of equal length. */
module Bytes {
  import opened Types

  /** The n low-order bytes of x, most significant first (htonl, htons). */
  function Encode(x: nat, n: nat): (bs: seq<byte>)
    ensures |bs| == n
  {
    if n == 0 then [] else Encode(x / 0x100, n - 1) + [x % 0x100]
  }

  /** ntohl, ntohs */
  function Value(bs: seq<byte>): nat {
    if bs == [] then 0 else Value(bs[..|bs| - 1]) * 0x100 + bs[|bs| - 1]
  }

  function Power(n: nat): (p: nat)
    ensures p >= 1
  {
    if n == 0 then 1 else 0x100 * Power(n - 1)
  }

  lemma {:induction false} ValueBelow(bs: seq<byte>)
    ensures Value(bs) < Power(|bs|)
  {
    if bs != [] {
      ValueBelow(bs[..|bs| - 1]);
    }
  }

  lemma {:induction false} EncodeValue(bs: seq<byte>)
    ensures Encode(Value(bs), |bs|) == bs
  {
    if bs != [] {
      EncodeValue(bs[..|bs| - 1]);
      assert Value(bs) / 0x100 == Value(bs[..|bs| - 1]) && Value(bs) % 0x100 == bs[|bs| - 1];
    }
  }

  lemma {:induction false} ValueEncode(x: nat, n: nat)
    requires x < Power(n)
    ensures Value(Encode(x, n)) == x
  {
    if n > 0 {
      ValueEncode(x / 0x100, n - 1);
      var bs := Encode(x, n);
      assert bs[..n - 1] == Encode(x / 0x100, n - 1) && bs[n - 1] == x % 0x100;
    }
  }

  lemma ValueFits(bs: seq<byte>)
    ensures |bs| == 2 ==> Value(bs) < 0x1_0000
    ensures |bs| == 4 ==> Value(bs) < 0x1_0000_0000
  {
    ValueBelow(bs);
    assert Power(2) == 0x1_0000 && Power(4) == 0x1_0000_0000 by {
      assert Power(1) == 0x100 && Power(2) == 0x1_0000 && Power(3) == 0x100_0000;
    }
  }

  function Number16(bs: seq<byte>): uint16
    requires |bs| == 2
  {
    ValueFits(bs);
    Value(bs)
  }

  function Number32(bs: seq<byte>): uint32
    requires |bs| == 4
  {
    ValueFits(bs);
    Value(bs)
  }

  lemma Encode32(x: uint32)
    ensures Number32(Encode(x, 4)) == x
  {
    ValueFits([0, 0, 0, 0]);
    assert Power(1) == 0x100 && Power(2) == 0x1_0000 && Power(3) == 0x100_0000 && Power(4) == 0x1_0000_0000;
    ValueEncode(x, 4);
  }

  lemma Encode16(x: uint16)
    ensures Number16(Encode(x, 2)) == x
  {
    assert Power(1) == 0x100 && Power(2) == 0x1_0000;
    ValueEncode(x, 2);
  }

  /** Difference at the first position where the strings differ. */
  function Memcmp(a: seq<byte>, b: seq<byte>): int
    requires |a| == |b|
  {
    if a == [] then 0
    else if a[0] != b[0] then a[0] - b[0]
    else Memcmp(a[1..], b[1..])
  }

  lemma {:induction false} ValueFromFront(x: byte, s: seq<byte>)
    ensures Value([x] + s) == x * Power(|s|) + Value(s)
  {
    if s != [] {
      var front := s[..|s| - 1];
      assert ([x] + s)[..|s|] == [x] + front;
      ValueFromFront(x, front);
      assert x * Power(|s|) == x * Power(|front|) * 0x100;
    }
  }

  /** memcmp orders byte strings of equal length as the numbers they spell. */
  lemma {:induction false} MemcmpIsNumeric(a: seq<byte>, b: seq<byte>)
    requires |a| == |b|
    ensures Memcmp(a, b) < 0 <==> Value(a) < Value(b)
    ensures Memcmp(a, b) == 0 <==> a == b
    ensures a == b <==> Value(a) == Value(b)
    decreases |a|
  {
    if a != [] {
      var s, t := a[1..], b[1..];
      assert a == [a[0]] + s && b == [b[0]] + t;
      ValueFromFront(a[0], s);
      ValueFromFront(b[0], t);
      ValueBelow(s);
      ValueBelow(t);
      MemcmpIsNumeric(s, t);
      FrontDecides(a[0], b[0], Value(s), Value(t), Power(|s|));
    }
  }

  lemma {:induction false} Gap(x: nat, y: nat, p: nat)
    requires x < y
    ensures x * p + p <= y * p
    decreases y - x
  {
    assert (x + 1) * p == x * p + p;
    if x + 1 < y { Gap(x + 1, y, p); }
  }

  lemma FrontDecides(x: byte, y: byte, u: nat, v: nat, p: nat)
    requires u < p && v < p
    ensures x < y ==> x * p + u < y * p + v
    ensures x > y ==> x * p + u > y * p + v
  {
    if x < y { Gap(x, y, p); }
    if x > y { Gap(y, x, p); }
  }

  /** memcpy of a few bytes to the cursor, which moves on (copy_var_to_buf_inc). */
  method Put(buffer: array<byte>, pos: nat, bs: seq<byte>) returns (next: nat)
    requires pos + |bs| <= buffer.Length
    modifies buffer
    ensures next == pos + |bs|
    ensures buffer[..next] == old(buffer[..pos]) + bs
  {
    for i := 0 to |bs|
      invariant buffer[..pos + i] == old(buffer[..pos]) + bs[..i]
    {
      buffer[pos + i] := bs[i];
      assert bs[..i + 1] == bs[..i] + [bs[i]];
    }
    assert bs[..|bs|] == bs;
    next := pos + |bs|;
  }
}
