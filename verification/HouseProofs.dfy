/** The house keeping decision: when it claims, how much, and when it drops. */
module HouseProofs {
  import opened Types
  import LeaseTable
  import opened BlockSpec
  import opened HouseSpec

  lemma Scale(q: int, s: int)
    requires s >= 1
    ensures (q + 1) * s == q * s + s && (q - 1) * s == q * s - s && -q * s == -(q * s)
    ensures q >= 1 ==> q * s >= s && q <= q * s
    ensures q <= -1 ==> q * s <= -s
  {
    if q >= 1 { assert q * s == (q - 1) * s + s; }
    if q <= -1 { assert q * s == (q + 1) * s - s; }
  }

  lemma Euclid(p: nat, s: nat)
    requires s >= 1
    ensures p / s >= 0 && p / s * s <= p < p / s * s + s
  {
    assert p == p / s * s + p % s;
  }

  lemma {:induction false} CDivTruncates(a: int, s: int)
    requires s >= 1
    ensures var q := CDiv(a, s);
      if a >= 0 then q >= 0 && q * s <= a < q * s + s else q <= 0 && q * s - s < a <= q * s
  {
    if a >= 0 {
      Euclid(a, s);
    } else {
      Euclid(-a, s);
      Scale(-a / s, s);
    }
  }

  /** Rounding as in house_keeping gives the least k with a <= k * s when a is positive,
      and is negative only from a whole -s on. */
  lemma RoundedUp(a: int, s: int)
    requires s >= 1
    ensures var k := CDiv(a, s) + if CRem(a, s) > 0 then 1 else 0;
      && (k < 0 <==> a <= -s) && (k > 0 <==> a > 0)
      && (k > 0 ==> (k - 1) * s < a <= k * s && k <= a)
  {
    CDivTruncates(a, s);
    Scale(CDiv(a, s), s);
    var m := CDiv(a, s) * s;
    assert CRem(a, s) == a - m;
  }

  /** The drop branch runs exactly when the free leases exceed the spare target by at least
      a block, the claim branch exactly below the target, and the number of blocks then
      requested is the least that reaches the target. */
  lemma {:induction false} NeededIsLeast(cfg: Config, freeLeases: nat)
    ensures var (k, s) := (BlocksNeeded(cfg, freeLeases), cfg.blockSize);
      && (k < 0 <==> freeLeases >= cfg.spareLeases + s)
      && (k > 0 <==> freeLeases < cfg.spareLeases)
      && (k > 0 ==> freeLeases + (k - 1) * s < cfg.spareLeases <= freeLeases + k * s)
      && k <= cfg.spareLeases
  {
    RoundedUp(cfg.spareLeases - freeLeases, cfg.blockSize);
  }

  // ---------------------------------------------------------------- effect on the free leases

  function Share(b: Block, t: Option<seq<Lease>>): nat {
    if b.state.Ours? then NumAvailable(t) else 0
  }

  lemma {:induction false} NumFreeUpdate(blocks: seq<Block>, tables: seq<Option<seq<Lease>>>, i: nat,
                                         b: Block, t: Option<seq<Lease>>)
    requires i < |blocks| == |tables|
    ensures NumFree(blocks[i := b], tables[i := t])
         == NumFree(blocks, tables) - Share(blocks[i], tables[i]) + Share(b, t)
  {
    var last := |blocks| - 1;
    if i == last {
      assert blocks[i := b][..last] == blocks[..last] && tables[i := t][..last] == tables[..last];
    } else {
      assert blocks[i := b][..last] == blocks[..last][i := b];
      assert tables[i := t][..last] == tables[..last][i := t];
      NumFreeUpdate(blocks[..last], tables[..last], i, b, t);
    }
  }

  lemma {:induction false} NumFreeSame(a: seq<Block>, b: seq<Block>, tables: seq<Option<seq<Lease>>>)
    requires |a| == |b| == |tables|
    requires forall i :: 0 <= i < |a| ==> a[i].state == b[i].state
    ensures NumFree(a, tables) == NumFree(b, tables)
  {
    if a != [] {
      NumFreeSame(a[..|a| - 1], b[..|b| - 1], tables[..|a| - 1]);
    }
  }

  /** block_drop_unused takes a block away only if none of its leases is offered or leased;
      a drop decided by house keeping leaves at least the spare target. */
  lemma {:induction false} DropLeavesSpare(cfg: Config, n: Node, now: int)
    requires TableInv(cfg, n)
    ensures var r := DropUnused(cfg, n, now);
      && |r.blocks| == |r.tables| == |n.blocks|
      && (forall i :: 0 <= i < |n.blocks| && n.blocks[i].state.Ours? && !r.blocks[i].state.Ours? ==>
            && NumFree(r.blocks, r.tables) == NumFree(n.blocks, n.tables) - cfg.blockSize
            && forall j :: 0 <= j < |n.tables[i].value| ==> n.tables[i].value[j].state.Available?)
      && (BlocksNeeded(cfg, NumFree(n.blocks, n.tables)) < 0 ==> NumFree(r.blocks, r.tables) >= cfg.spareLeases)
  {
    var r := DropUnused(cfg, n, now);
    NeededIsLeast(cfg, NumFree(n.blocks, n.tables));
    match FindUnused(cfg, n.blocks, n.tables)
    case None =>
    case Some(i) =>
      var b, t := n.blocks[i], n.tables[i];
      assert TableFits(cfg, b, t);
      LeaseTable.CountFull(t.value, Available);
      NumFreeUpdate(n.blocks, n.tables, i, FreedBlock(b, true), None);
      NumFreeSame(n.blocks, n.blocks[i := b.(needlessSince := now)], n.tables);
  }

  /** Owned, with every lease available, and claimed after every other such block, or first in index
      order among those claimed at the same time. */
  ghost predicate Spare(cfg: Config, n: Node, i: nat)
    requires |n.blocks| == |n.tables|
  {
    && i < |n.blocks| && Unused(cfg, n.blocks[i], n.tables[i])
    && forall k :: 0 <= k < |n.blocks| && Unused(cfg, n.blocks[k], n.tables[k]) ==>
         if k < i then n.blocks[k].firstClaimed < n.blocks[i].firstClaimed
         else n.blocks[k].firstClaimed <= n.blocks[i].firstClaimed
  }

  /** block_drop_unused gives up a block exactly when it is the spare one and was marked at least
      needless_timeout ago; an unmarked spare block is marked now, and every other block stays. */
  lemma {:induction false} DropsExactly(cfg: Config, n: Node, now: int, i: nat)
    requires TableInv(cfg, n) && i < |n.blocks|
    ensures var (r, b) := (DropUnused(cfg, n, now), n.blocks[i]); var due := 0 != b.needlessSince <= now - cfg.needlessTimeout;
      && |r.blocks| == |n.blocks|
      && (b.state.Ours? && !r.blocks[i].state.Ours? <==> Spare(cfg, n, i) && due)
      && (Spare(cfg, n, i) && b.needlessSince == 0 ==> r.blocks[i] == b.(needlessSince := now) && r.needlessMarks)
      && (!Spare(cfg, n, i) ==> r.blocks[i] == b && r.tables[i] == n.tables[i])
  {
    FindsYoungest(cfg, n.blocks, n.tables);
    assert TableFits(cfg, n.blocks[i], n.tables[i]);
  }
}
