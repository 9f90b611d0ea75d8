/** Number of blocks, subnet mask and broadcast address from the prefix length (main.c:411,
    dhcp_options.c:237-240 and 285-288). */
module Netmask {
  import opened Types
  import opened Bytes
  import Address

  /** 1 << k */
  function Pow2(k: nat): (p: nat)
    ensures p >= 1
  {
    if k == 0 then 1 else 2 * Pow2(k - 1)
  }

  lemma {:induction false} Pow2Sum(a: nat, b: nat)
    ensures Pow2(a + b) == Pow2(a) * Pow2(b)
  {
    if a > 0 {
      Pow2Sum(a - 1, b);
      assert 2 * (Pow2(a - 1) * Pow2(b)) == (2 * Pow2(a - 1)) * Pow2(b);
    }
  }

  /** ceil(log2(s)) */
  function CeilLog2(s: nat): (k: nat)
    requires s >= 1
    ensures s <= Pow2(k)
    ensures k > 0 ==> Pow2(k - 1) < s
  {
    if s == 1 then 0 else 1 + CeilLog2((s + 1) / 2)
  }

  /** The double of main.c:411 is cut to 0 when it is below 1. */
  function NumberOfBlocks(prefixLen: nat, size: nat): nat
    requires prefixLen <= 32 && size >= 1
  {
    var k := CeilLog2(size);
    if prefixLen + k <= 32 then Pow2(32 - prefixLen - k) else 0
  }

  predicate PowerOfTwo(size: nat)
    requires size >= 1
  {
    size == Pow2(CeilLog2(size))
  }

  lemma {:induction false} Pow2Grows(a: nat, b: nat)
    requires a <= b
    ensures Pow2(a) <= Pow2(b)
    decreases b
  {
    if a < b { Pow2Grows(a, b - 1); }
  }

  lemma TimesMonotone(n: nat, a: nat, b: nat)
    ensures a <= b ==> n * a <= n * b
    ensures a < b && n >= 1 ==> n * a < n * b
  {
    assert n * (b - a) == n * b - n * a;
  }

  /** n blocks of this size fit the range, twice as many would not, and they fill it exactly
      in the case given; no block fits exactly when one is larger than the range. */
  ghost predicate Fills(n: nat, size: nat, range: nat, exactly: bool) {
    && (n == 0 <==> size > range)
    && n * size <= range
    && (n > 0 ==> range < 2 * (n * size))
    && (n > 0 ==> (n * size == range <==> exactly))
  }

  /** The number fits the 32 bits it is cast to, unless the range is everything and a block one address. */
  lemma NumberFits(prefixLen: nat, size: nat)
    requires prefixLen <= 32 && size >= 1
    ensures NumberOfBlocks(prefixLen, size) <= 0xffff_ffff <==> prefixLen > 0 || size > 1
  {
    Pow2Of32();
    assert Pow2(32) == 2 * Pow2(31);
    if prefixLen + CeilLog2(size) <= 32 {
      if prefixLen > 0 || size > 1 {
        assert CeilLog2(size) > 0 || size <= Pow2(0);
        Pow2Grows(32 - prefixLen - CeilLog2(size), 31);
      }
    }
  }

  /** The blocks fill the range of the prefix exactly when their size is a power of two. */
  lemma BlocksFillRange(prefixLen: nat, size: nat)
    requires prefixLen <= 32 && size >= 1
    ensures Fills(NumberOfBlocks(prefixLen, size), size, Pow2(32 - prefixLen), PowerOfTwo(size))
    ensures NumberOfBlocks(prefixLen, size) <= 0xffff_ffff <==> prefixLen > 0 || size > 1
  {
    NumberFits(prefixLen, size);
    var k, rest := CeilLog2(size), 32 - prefixLen;
    NextPower(size);
    if k <= rest {
      FitPowers(rest - k, k, size);
    } else {
      Pow2Grows(rest, k - 1);
      NoneFits(size, Pow2(rest), PowerOfTwo(size));
    }
  }

  lemma NoneFits(size: nat, range: nat, exactly: bool)
    requires size > range
    ensures Fills(0, size, range, exactly)
  {
    assert 0 * size == 0;
  }

  lemma FitPowers(a: nat, k: nat, size: nat)
    requires size <= Pow2(k) < 2 * size
    ensures Fills(Pow2(a), size, Pow2(a + k), size == Pow2(k))
  {
    Pow2Sum(a, k);
    Fit(Pow2(a), size, Pow2(k), Pow2(a + k));
  }

  lemma NextPower(size: nat)
    requires size >= 1
    ensures size <= Pow2(CeilLog2(size)) < 2 * size
  {
  }

  lemma Fit(n: nat, size: nat, p: nat, range: nat)
    requires n >= 1 && size <= p < 2 * size && range == n * p
    ensures Fills(n, size, range, size == p)
  {
    TimesMonotone(n, size, p);
    TimesMonotone(n, p, 2 * size);
    TimesMonotone(p, 1, n);
    assert n * (2 * size) == 2 * (n * size);
  }

  // ---------------------------------------------------------------- bits

  /** | on machine words. */
  function Or(x: nat, y: nat): nat
    decreases x + y
  {
    if x == 0 && y == 0 then 0
    else 2 * Or(x / 2, y / 2) + if x % 2 == 1 || y % 2 == 1 then 1 else 0
  }

  /** x with its k low bits set. */
  function LowSet(x: nat, k: nat): nat {
    if k == 0 then x else 2 * LowSet(x / 2, k - 1) + 1
  }

  lemma Regrouped(a: nat, r: nat, s: nat, m: nat, p: nat)
    ensures m * p == p * m && (a * p + r) * m + s == a * (m * p) + (r * m + s)
  {
    assert (a * p + r) * m == a * p * m + r * m;
    assert a * p * m == a * (p * m);
  }

  /** x is split by m, and its quotient by p, which together split it by m * p. */
  lemma SplitTwice(x: nat, q: nat, s: nat, a: nat, r: nat, m: nat, p: nat)
    requires m >= 1 && p >= 1 && x == q * m + s && s < m && q == a * p + r && r < p
    ensures m * p >= 1 && x % (m * p) == r * m + s
  {
    Regrouped(a, r, s, m, p);
    Address.Under(r, p, s, m);
    Address.Divide(a, r * m + s, m * p);
  }

  lemma SplitRemainder(x: nat, m: nat, p: nat)
    requires m >= 1 && p >= 1
    ensures m * p >= 1 && x % (m * p) == x / m % p * m + x % m
  {
    Address.Recompose(x, m);
    Address.Recompose(x / m, p);
    SplitTwice(x, x / m, x % m, x / m / p, x / m % p, m, p);
  }

  lemma {:induction false} OrZero(x: nat)
    ensures Or(x, 0) == x
  {
    if x > 0 { OrZero(x / 2); }
  }

  lemma {:induction false} OrLow(x: nat, k: nat)
    ensures Or(x, Pow2(k) - 1) == LowSet(x, k)
    decreases k
  {
    if k == 0 {
      OrZero(x);
    } else {
      OrLow(x / 2, k - 1);
      assert (Pow2(k) - 1) / 2 == Pow2(k - 1) - 1 && (Pow2(k) - 1) % 2 == 1;
    }
  }

  /** Setting low bits rounds down to a multiple of 2^k and adds 2^k - 1. */
  lemma {:induction false} LowSetRounds(x: nat, k: nat)
    ensures LowSet(x, k) == x - x % Pow2(k) + Pow2(k) - 1
    decreases k
  {
    if k > 0 {
      LowSetRounds(x / 2, k - 1);
      SplitRemainder(x, 2, Pow2(k - 1));
    }
  }

  lemma TwiceHalf(h: nat, q: nat)
    ensures h * (2 * q) == 2 * (h * q)
  {
  }

  lemma {:induction false} LowSetAbove(h: nat, y: nat, k: nat, b: nat)
    requires k <= b
    ensures LowSet(h * Pow2(b) + y, k) == h * Pow2(b) + LowSet(y, k)
    decreases k
  {
    if k > 0 {
      var p := h * Pow2(b - 1);
      TwiceHalf(h, Pow2(b - 1));
      assert h * Pow2(b) + y == 2 * p + y && (2 * p + y) / 2 == p + y / 2;
      LowSetAbove(h, y / 2, k - 1, b - 1);
    }
  }

  lemma {:induction false} LowSetFits(y: nat, k: nat, b: nat)
    requires k <= b && y < Pow2(b)
    ensures LowSet(y, k) < Pow2(b)
    decreases k
  {
    if k > 0 { LowSetFits(y / 2, k - 1, b - 1); }
  }

  lemma LowSetFour(x: nat, k: nat)
    requires k >= 4
    ensures LowSet(x, k) == 16 * LowSet(x / 16, k - 4) + 15
  {
    assert LowSet(x, k) == 2 * LowSet(x / 2, k - 1) + 1;
    assert LowSet(x / 2, k - 1) == 2 * LowSet(x / 4, k - 2) + 1;
    assert LowSet(x / 4, k - 2) == 2 * LowSet(x / 8, k - 3) + 1;
    assert LowSet(x / 8, k - 3) == 2 * LowSet(x / 16, k - 4) + 1;
  }

  // ---------------------------------------------------------------- the bytes

  /** min(max(a, 0), 8) */
  function Clamp(a: int): nat {
    if a < 0 then 0 else if a > 8 then 8 else a
  }

  /** Byte i of the mask: 256 - (256 >> Clamp(prefixLen - 8 * i)). */
  function MaskByte(prefixLen: nat, i: nat): byte {
    (256 - 256 / Pow2(Clamp(prefixLen - 8 * i))) % 0x100
  }

  /** Byte i of the broadcast address, from byte i of the prefix. */
  function BroadcastByte(b: byte, prefixLen: nat, i: nat): byte {
    Or(b, Pow2(Clamp(8 * (i + 1) - prefixLen)) - 1) % 0x100
  }

  function MaskBytes(prefixLen: nat): seq<byte> {
    seq(4, i requires 0 <= i < 4 => MaskByte(prefixLen, i))
  }

  /** From the first n bytes of the prefix, which spell x. */
  function BroadcastBytes(x: nat, n: nat, prefixLen: nat): seq<byte> {
    seq(n, i requires 0 <= i < n => BroadcastByte(Encode(x, n)[i], prefixLen, i))
  }

  lemma Pow2Values()
    ensures Pow2(0) == 1 && Pow2(1) == 2 && Pow2(2) == 4 && Pow2(3) == 8 && Pow2(4) == 16
    ensures Pow2(5) == 32 && Pow2(6) == 64 && Pow2(7) == 128 && Pow2(8) == 256
  {
    assert Pow2(3) == 8;
    assert Pow2(6) == 64;
  }

  lemma ShiftedDown(s: nat)
    requires s <= 8
    ensures 256 / Pow2(s) == Pow2(8 - s) && 1 <= Pow2(8 - s) <= 256
  {
    Pow2Values();
    Pow2Sum(s, 8 - s);
    Pow2Grows(8 - s, 8);
    Address.Divide(Pow2(8 - s), 0, Pow2(s));
  }

  /** Host bits among the first n bytes. */
  function HostBits(prefixLen: nat, n: nat): nat {
    if prefixLen < 8 * n then 8 * n - prefixLen else 0
  }

  /** What the first n bytes of the mask lack to 256^n. */
  function Missing(prefixLen: nat, n: nat): nat {
    Pow2(HostBits(prefixLen, n))
  }

  lemma MaskStep(prefixLen: nat, i: nat, p: nat)
    ensures (p - Missing(prefixLen, i)) * 0x100 + MaskByte(prefixLen, i) == p * 0x100 - Missing(prefixLen, i + 1)
  {
    if prefixLen < 8 * i {
      NothingMasked(prefixLen, i);
    } else if prefixLen < 8 * (i + 1) {
      PartMasked(prefixLen, i);
    } else {
      AllMasked(prefixLen, i);
    }
  }

  lemma NothingMasked(prefixLen: nat, i: nat)
    requires prefixLen < 8 * i
    ensures MaskByte(prefixLen, i) == 0 && Missing(prefixLen, i + 1) == 0x100 * Missing(prefixLen, i)
  {
    Pow2Values();
    Pow2Sum(8, 8 * i - prefixLen);
  }

  lemma PartMasked(prefixLen: nat, i: nat)
    requires 8 * i <= prefixLen < 8 * (i + 1)
    ensures Missing(prefixLen, i) == 1 && MaskByte(prefixLen, i) == 0x100 - Missing(prefixLen, i + 1)
  {
    ShiftedDown(prefixLen - 8 * i);
    Pow2Values();
  }

  lemma AllMasked(prefixLen: nat, i: nat)
    requires 8 * (i + 1) <= prefixLen
    ensures Missing(prefixLen, i) == 1 && Missing(prefixLen, i + 1) == 1 && MaskByte(prefixLen, i) == 0xff
  {
    Pow2Values();
  }

  lemma {:induction false} MaskPrefix(prefixLen: nat, n: nat)
    requires n <= 4
    ensures Value(MaskBytes(prefixLen)[..n]) == Power(n) - Missing(prefixLen, n)
  {
    if n > 0 {
      var s := MaskBytes(prefixLen)[..n];
      assert s[..n - 1] == MaskBytes(prefixLen)[..n - 1];
      MaskPrefix(prefixLen, n - 1);
      MaskStep(prefixLen, n - 1, Power(n - 1));
    }
  }

  /** The mask has the prefixLen high bits set. */
  lemma SubnetMask(prefixLen: nat)
    requires prefixLen <= 32
    ensures Value(MaskBytes(prefixLen)) == 0x1_0000_0000 - Pow2(32 - prefixLen)
  {
    MaskPrefix(prefixLen, 4);
    ValueFits(MaskBytes(prefixLen));
    assert MaskBytes(prefixLen)[..4] == MaskBytes(prefixLen);
    assert Power(3) == 0x100_0000 && Power(4) == 0x1_0000_0000;
  }

  lemma LowSetInByte(x: nat, k: nat)
    requires k <= 8
    ensures LowSet(x, k) == x / 0x100 * 0x100 + LowSet(x % 0x100, k)
  {
    Pow2Values();
    LowSetAbove(x / 0x100, x % 0x100, k, 8);
  }

  lemma LowSetPastByte(x: nat, k: nat)
    requires k >= 8
    ensures LowSet(x, k) == LowSet(x / 0x100, k - 8) * 0x100 + 0xff
  {
    LowSetFour(x, k);
    LowSetFour(x / 16, k - 4);
    assert x / 16 / 16 == x / 0x100;
  }

  lemma ByteSet(b: byte, prefixLen: nat, i: nat)
    ensures BroadcastByte(b, prefixLen, i) == LowSet(b, Clamp(8 * (i + 1) - prefixLen))
  {
    var k := Clamp(8 * (i + 1) - prefixLen);
    OrLow(b, k);
    Pow2Values();
    LowSetFits(b, k, 8);
    OneByte(b, Pow2(k) - 1, LowSet(b, k));
  }

  lemma OneByte(x: nat, y: nat, r: nat)
    requires Or(x, y) == r < 0x100
    ensures Or(x, y) % 0x100 == r
  {
  }

  lemma BroadcastStep(x: nat, b: byte, prefixLen: nat, i: nat)
    requires b == x % 0x100
    ensures LowSet(x / 0x100, HostBits(prefixLen, i)) * 0x100 + BroadcastByte(b, prefixLen, i)
         == LowSet(x, HostBits(prefixLen, i + 1))
  {
    ByteSet(b, prefixLen, i);
    var k := HostBits(prefixLen, i + 1);
    if k >= 8 {
      LowSetPastByte(x, k);
      LowSetPastByte(b, 8);
    } else {
      LowSetInByte(x, k);
    }
  }

  lemma BroadcastInit(x: nat, prefixLen: nat, n: nat)
    requires n > 0
    ensures var s := BroadcastBytes(x, n, prefixLen);
      && s[..n - 1] == BroadcastBytes(x / 0x100, n - 1, prefixLen)
      && s[n - 1] == BroadcastByte(x % 0x100, prefixLen, n - 1)
  {
  }

  lemma {:induction false} BroadcastPrefix(x: nat, prefixLen: nat, n: nat)
    requires x < Power(n)
    ensures Value(BroadcastBytes(x, n, prefixLen)) == LowSet(x, HostBits(prefixLen, n))
  {
    if n > 0 {
      BroadcastInit(x, prefixLen, n);
      BroadcastPrefix(x / 0x100, prefixLen, n - 1);
      BroadcastStep(x, x % 0x100, prefixLen, n - 1);
    }
  }

  /** The broadcast address is the prefix with its 32 - prefixLen low bits set. */
  lemma Broadcast(prefix: uint32, prefixLen: nat)
    requires prefixLen <= 32
    ensures var range := Pow2(32 - prefixLen);
      Value(BroadcastBytes(prefix, 4, prefixLen)) == prefix - prefix % range + range - 1
  {
    LowSetRounds(prefix, 32 - prefixLen);
    assert Power(3) == 0x100_0000 && Power(4) == 0x1_0000_0000;
    BroadcastPrefix(prefix, prefixLen, 4);
  }

  predicate Aligned(prefix: uint32, prefixLen: nat)
    requires prefixLen <= 32
  {
    prefix % Pow2(32 - prefixLen) == 0
  }

  /** With blocks of a power of two addresses that fit the range, the broadcast address is the
      one of the last slot of the last block exactly when the prefix is aligned. */
  lemma {:induction false} BroadcastIsLastSlot(cfg: Config, prefixLen: nat)
    requires prefixLen <= 32 && cfg.numberOfBlocks == NumberOfBlocks(prefixLen, cfg.blockSize)
    requires PowerOfTwo(cfg.blockSize)
    ensures var broadcast := Value(BroadcastBytes(cfg.prefix, 4, prefixLen));
      && (Aligned(cfg.prefix, prefixLen)
          <==> broadcast == Address.AddressOf(cfg, cfg.numberOfBlocks - 1, cfg.blockSize - 1))
      && (Aligned(cfg.prefix, prefixLen) ==> broadcast == cfg.prefix + cfg.numberOfBlocks * cfg.blockSize - 1)
  {
    var range := Pow2(32 - prefixLen);
    Broadcast(cfg.prefix, prefixLen);
    RangeFilled(cfg, prefixLen);
    LastDistance(cfg, range);
    LastAddress(cfg.prefix, Address.AddressOf(cfg, cfg.numberOfBlocks - 1, cfg.blockSize - 1), range, Pow2(prefixLen));
  }

  lemma RangeFilled(cfg: Config, prefixLen: nat)
    requires prefixLen <= 32 && cfg.numberOfBlocks == NumberOfBlocks(prefixLen, cfg.blockSize)
    requires PowerOfTwo(cfg.blockSize)
    ensures cfg.numberOfBlocks * cfg.blockSize == Pow2(32 - prefixLen)
    ensures Pow2(prefixLen) * Pow2(32 - prefixLen) == 0x1_0000_0000
  {
    BlocksFillRange(prefixLen, cfg.blockSize);
    Pow2Sum(prefixLen, 32 - prefixLen);
    Pow2Of32();
  }

  lemma Pow2Of32()
    ensures Pow2(32) == 0x1_0000_0000
  {
    Pow2Values();
    Pow2Sum(8, 8);
    Pow2Sum(16, 16);
  }

  lemma LastDistance(cfg: Config, range: nat)
    requires range == cfg.numberOfBlocks * cfg.blockSize
    ensures (Address.AddressOf(cfg, cfg.numberOfBlocks - 1, cfg.blockSize - 1) - cfg.prefix) % 0x1_0000_0000
         == (range - 1) % 0x1_0000_0000
  {
    var n, s := cfg.numberOfBlocks, cfg.blockSize;
    Address.DistanceOf(cfg, n - 1, s - 1);
    Address.OffsetIs(cfg, n - 1, s - 1);
    assert (n - 1) * s + s == n * s;
  }

  /** The two candidates differ by the misalignment. */
  lemma LastAddress(prefix: uint32, last: uint32, range: nat, m: nat)
    requires range >= 1 && m * range == 0x1_0000_0000 && (last - prefix) % 0x1_0000_0000 == (range - 1) % 0x1_0000_0000
    ensures prefix % range == 0 <==> prefix - prefix % range + range - 1 == last
    ensures prefix % range == 0 ==> last == prefix + range - 1
  {
    Address.Locate(prefix, m, range);
    Address.Under(prefix / range, m, range - 1, range);
    assert range <= m * range by { if m >= 1 { TimesMonotone(range, 1, m); } }
    OneTurn(last - prefix, range - 1);
  }

  /** A difference of two addresses that is congruent to a smaller number is that number, or 2^32 below it. */
  lemma OneTurn(d: int, k: nat)
    requires -0x1_0000_0000 < d < 0x1_0000_0000 && k < 0x1_0000_0000 && d % 0x1_0000_0000 == k % 0x1_0000_0000
    ensures d == k || d == k - 0x1_0000_0000
  {
  }
}
