/** The mapping between addresses and slots of blocks: addr_add one way, the 32-bit
    subtraction of find_lease_from_address the other way. */
module Address {
  import opened Types
  import opened DhcpSpec

  const ADDRESSES := 0x1_0000_0000

  function AddressOf(cfg: Config, b: nat, j: nat): uint32 {
    AddrAdd(SubnetOf(cfg, b), j)
  }

  predicate IsSlot(cfg: Config, b: nat, j: nat) {
    b < cfg.numberOfBlocks && j < cfg.blockSize
  }

  predicate At(f: Found, b: nat, j: nat) {
    !f.Outside? && f.block == b && f.slot == j
  }

  lemma Recompose(x: nat, s: nat)
    requires s >= 1
    ensures x == x / s * s + x % s && 0 <= x % s < s
  {
  }

  lemma {:induction false} Under(b: nat, n: nat, j: nat, s: nat)
    requires b < n && j < s
    ensures b * s + j < n * s
    decreases n - b
  {
    assert (b + 1) * s == b * s + s;
    if b + 1 < n { Under(b + 1, n, j, s); }
  }

  lemma {:induction false} Over(b: nat, n: nat, s: nat)
    requires n <= b
    ensures n * s <= b * s
    decreases b - n
  {
    assert (n + 1) * s == n * s + s;
    if n < b { Over(b, n + 1, s); }
  }

  /** Quotient and remainder are unique. */
  lemma Divide(b: nat, j: nat, s: nat)
    requires j < s
    ensures (b * s + j) / s == b && (b * s + j) % s == j
  {
    Recompose(b * s + j, s);
    Unique(b, j, (b * s + j) / s, (b * s + j) % s, s);
  }

  lemma Unique(b: nat, j: nat, q: nat, r: nat, s: nat)
    requires j < s && r < s && b * s + j == q * s + r
    ensures b == q && j == r
  {
    if q > b { Under(b, q, j, s); }
    if q < b { Under(q, b, r, s); }
  }

  lemma Locate(d: nat, n: nat, s: nat)
    requires s >= 1
    ensures 0 <= d / s && 0 <= d % s < s && d == d / s * s + d % s
    ensures d / s < n <==> d < n * s
  {
    Recompose(d, s);
    if d / s < n { Under(d / s, n, d % s, s); } else { Over(d / s, n, s); }
  }

  /** Distance from the prefix, which wraps at 2^32. */
  function Distance(cfg: Config, addr: uint32): uint32 {
    (addr - cfg.prefix) % ADDRESSES
  }

  /** b blocks and j addresses */
  function Offset(cfg: Config, b: nat, j: nat): (d: nat)
    decreases b
  {
    if b == 0 then j else cfg.blockSize + Offset(cfg, b - 1, j)
  }

  /** Addresses that the blocks cover: numberOfBlocks * blockSize. */
  function Span(cfg: Config): nat {
    Offset(cfg, cfg.numberOfBlocks, 0)
  }

  lemma {:induction false} OffsetIs(cfg: Config, b: nat, j: nat)
    ensures Offset(cfg, b, j) == b * cfg.blockSize + j
    decreases b
  {
    if b > 0 {
      OffsetIs(cfg, b - 1, j);
      assert (b - 1) * cfg.blockSize + cfg.blockSize == b * cfg.blockSize;
    }
  }

  lemma AddSub(p: uint32, x: nat, j: nat)
    ensures (((p + x) % ADDRESSES + j) % ADDRESSES - p) % ADDRESSES == (x + j) % ADDRESSES
  {
  }

  lemma DistanceOf(cfg: Config, b: nat, j: nat)
    ensures Distance(cfg, AddressOf(cfg, b, j)) == Offset(cfg, b, j) % ADDRESSES
  {
    OffsetIs(cfg, b, j);
    AddSub(cfg.prefix, b * cfg.blockSize, j);
  }

  lemma SameDistance(cfg: Config, a: uint32, c: uint32)
    ensures a == c <==> Distance(cfg, a) == Distance(cfg, c)
  {
  }

  lemma OffsetsDistinct(cfg: Config, b: nat, j: nat, c: nat, k: nat)
    requires j < cfg.blockSize && k < cfg.blockSize && Offset(cfg, b, j) == Offset(cfg, c, k)
    ensures b == c && j == k
  {
    OffsetIs(cfg, b, j);
    OffsetIs(cfg, c, k);
    Divide(b, j, cfg.blockSize);
    Divide(c, k, cfg.blockSize);
  }

  lemma OffsetBelow(cfg: Config, b: nat, j: nat)
    requires IsSlot(cfg, b, j)
    ensures Offset(cfg, b, j) < Span(cfg)
  {
    OffsetIs(cfg, b, j);
    OffsetIs(cfg, cfg.numberOfBlocks, 0);
    Under(b, cfg.numberOfBlocks, j, cfg.blockSize);
  }

  /** Every distance below the span is the offset of a slot. */
  lemma SlotAt(cfg: Config, d: nat)
    ensures var b, j := d / cfg.blockSize, d % cfg.blockSize;
      Offset(cfg, b, j) == d && j < cfg.blockSize && (b < cfg.numberOfBlocks <==> d < Span(cfg))
  {
    Locate(d, cfg.numberOfBlocks, cfg.blockSize);
    OffsetIs(cfg, d / cfg.blockSize, d % cfg.blockSize);
    OffsetIs(cfg, cfg.numberOfBlocks, 0);
  }

  /** Block and slot come from the distance to the prefix. */
  lemma FoundByDistance(cfg: Config, blocks: seq<Block>, addr: uint32)
    requires |blocks| == cfg.numberOfBlocks
    ensures var f := FindLease(cfg, blocks, addr);
      && (f.Outside? <==> Distance(cfg, addr) >= Span(cfg))
      && (!f.Outside? ==> Distance(cfg, addr) == Offset(cfg, f.block, f.slot) && IsSlot(cfg, f.block, f.slot))
  {
    SlotAt(cfg, Distance(cfg, addr));
  }

  /** An address that is found is the address of the slot it is found at. */
  lemma {:induction false} FoundIsThere(cfg: Config, blocks: seq<Block>, addr: uint32)
    requires |blocks| == cfg.numberOfBlocks
    ensures var f := FindLease(cfg, blocks, addr); !f.Outside? ==> AddressOf(cfg, f.block, f.slot) == addr
  {
    var f := FindLease(cfg, blocks, addr);
    FoundByDistance(cfg, blocks, addr);
    if !f.Outside? { AddressAt(cfg, f.block, f.slot, addr); }
  }

  lemma AddressAt(cfg: Config, b: nat, j: nat, addr: uint32)
    ensures AddressOf(cfg, b, j) == addr <==> Distance(cfg, addr) == Offset(cfg, b, j) % ADDRESSES
  {
    DistanceOf(cfg, b, j);
    SameDistance(cfg, AddressOf(cfg, b, j), addr);
  }

  lemma SlotIsFound(cfg: Config, blocks: seq<Block>, b: nat, j: nat)
    requires |blocks| == cfg.numberOfBlocks && IsSlot(cfg, b, j) && Span(cfg) <= ADDRESSES
    ensures At(FindLease(cfg, blocks, AddressOf(cfg, b, j)), b, j)
  {
    OffsetBelow(cfg, b, j);
    DistanceOf(cfg, b, j);
    FoundFrom(cfg, blocks, AddressOf(cfg, b, j), b, j);
  }

  lemma FoundFrom(cfg: Config, blocks: seq<Block>, addr: uint32, b: nat, j: nat)
    requires |blocks| == cfg.numberOfBlocks && IsSlot(cfg, b, j)
    requires Distance(cfg, addr) == Offset(cfg, b, j) < Span(cfg)
    ensures At(FindLease(cfg, blocks, addr), b, j)
  {
    FoundByDistance(cfg, blocks, addr);
    FoundAt(cfg, FindLease(cfg, blocks, addr), b, j);
  }

  lemma FoundAt(cfg: Config, f: Found, b: nat, j: nat)
    requires !f.Outside? && IsSlot(cfg, f.block, f.slot) && IsSlot(cfg, b, j)
    requires Offset(cfg, f.block, f.slot) == Offset(cfg, b, j)
    ensures At(f, b, j)
  {
    OffsetsDistinct(cfg, b, j, f.block, f.slot);
  }

  /** With more than 2^32 addresses, the slot at offset 2^32 has the address of the first. */
  lemma WrappedSlot(cfg: Config) returns (b: nat, j: nat)
    requires Span(cfg) > ADDRESSES
    ensures IsSlot(cfg, b, j) && IsSlot(cfg, 0, 0) && (b > 0 || j > 0) && AddressOf(cfg, b, j) == AddressOf(cfg, 0, 0)
  {
    b, j := ADDRESSES / cfg.blockSize, ADDRESSES % cfg.blockSize;
    SlotAt(cfg, ADDRESSES);
    DistanceOf(cfg, 0, 0);
    AddressAt(cfg, b, j, AddressOf(cfg, 0, 0));
  }

  /** Looking up the address of a slot gives that slot back, for every slot, exactly when the
      blocks cover at most 2^32 addresses. */
  lemma {:induction false} LookupInverts(cfg: Config, blocks: seq<Block>)
    requires |blocks| == cfg.numberOfBlocks
    ensures (forall b, j :: IsSlot(cfg, b, j) ==> At(FindLease(cfg, blocks, AddressOf(cfg, b, j)), b, j))
        <==> Span(cfg) <= ADDRESSES
  {
    if Span(cfg) <= ADDRESSES {
      forall b: nat, j: nat | IsSlot(cfg, b, j) ensures At(FindLease(cfg, blocks, AddressOf(cfg, b, j)), b, j) {
        SlotIsFound(cfg, blocks, b, j);
      }
    } else {
      var b, j := WrappedSlot(cfg);
      assert !At(FindLease(cfg, blocks, AddressOf(cfg, 0, 0)), b, j) || !At(FindLease(cfg, blocks, AddressOf(cfg, 0, 0)), 0, 0);
    }
  }

  predicate SameAddress(cfg: Config, b: nat, j: nat, c: nat, k: nat) {
    IsSlot(cfg, b, j) && IsSlot(cfg, c, k) && AddressOf(cfg, b, j) == AddressOf(cfg, c, k)
  }

  lemma SameOffset(cfg: Config, b: nat, j: nat, c: nat, k: nat)
    requires IsSlot(cfg, b, j) && IsSlot(cfg, c, k) && Span(cfg) <= ADDRESSES
    requires Offset(cfg, b, j) % ADDRESSES == Offset(cfg, c, k) % ADDRESSES
    ensures b == c && j == k
  {
    OffsetBelow(cfg, b, j);
    OffsetBelow(cfg, c, k);
    OffsetsDistinct(cfg, b, j, c, k);
  }

  lemma SameSlot(cfg: Config, b: nat, j: nat, c: nat, k: nat)
    requires SameAddress(cfg, b, j, c, k) && Span(cfg) <= ADDRESSES
    ensures b == c && j == k
  {
    DistanceOf(cfg, b, j);
    DistanceOf(cfg, c, k);
    SameOffset(cfg, b, j, c, k);
  }

  /** Different slots have different addresses exactly when the blocks cover at most 2^32. */
  lemma {:induction false} AddressesDistinct(cfg: Config)
    ensures (forall b, j, c, k :: SameAddress(cfg, b, j, c, k) ==> b == c && j == k) <==> Span(cfg) <= ADDRESSES
  {
    if Span(cfg) <= ADDRESSES {
      forall b: nat, j: nat, c: nat, k: nat | SameAddress(cfg, b, j, c, k) ensures b == c && j == k {
        SameSlot(cfg, b, j, c, k);
      }
    } else {
      var b, j := WrappedSlot(cfg);
      assert SameAddress(cfg, b, j, 0, 0);
    }
  }

  predicate InRange(cfg: Config, addr: uint32) {
    cfg.prefix <= addr < cfg.prefix + Span(cfg)
  }

  /** Every address outside the range is rejected, and none inside, exactly when the range does
      not run past 2^32 or starts at 0. */
  lemma OutsideRejected(cfg: Config, blocks: seq<Block>)
    requires |blocks| == cfg.numberOfBlocks
    ensures (forall addr: uint32 :: FindLease(cfg, blocks, addr).Outside? <==> !InRange(cfg, addr))
        <==> cfg.prefix == 0 || cfg.prefix + Span(cfg) <= ADDRESSES
  {
    if cfg.prefix == 0 || cfg.prefix + Span(cfg) <= ADDRESSES {
      forall addr: uint32 ensures FindLease(cfg, blocks, addr).Outside? <==> !InRange(cfg, addr) {
        FoundByDistance(cfg, blocks, addr);
        RangeByDistance(cfg, addr, Span(cfg));
      }
    } else {
      FoundByDistance(cfg, blocks, 0);
      assert !InRange(cfg, 0) && !FindLease(cfg, blocks, 0).Outside?;
    }
  }

  lemma RangeByDistance(cfg: Config, addr: uint32, span: nat)
    requires cfg.prefix == 0 || cfg.prefix + span <= ADDRESSES
    ensures Distance(cfg, addr) < span <==> cfg.prefix <= addr < cfg.prefix + span
  {
  }
}
