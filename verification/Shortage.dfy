/** How the claim branch of house_keeping works off a shortage of leases: by exactly the blocks its
    first pass takes, without overshooting when it takes as many as were needed. */
module Shortage {
  import opened Types
  import LeaseTable
  import opened BlockSpec
  import opened ClaimProofs
  import HouseSpec
  import opened HouseProofs
  import NodeProofs
  import RefreshProofs

  function FreeLeases(n: Node): nat
    requires |n.blocks| == |n.tables|
  {
    NumFree(n.blocks, n.tables)
  }

  predicate IsDue(blocks: seq<Block>, b: nat) {
    b < |blocks| && blocks[b].claimingCounts == CLAIMS_BEFORE_OWNING
  }

  /** The available leases that a due block adds: those of its cached table, or all. */
  function Gain(cfg: Config, t: Option<seq<Lease>>): nat {
    if t.Some? then NumAvailable(t) else cfg.blockSize
  }

  /** What the listed blocks that have been inquired three times add. */
  function Gains(cfg: Config, blocks: seq<Block>, tables: seq<Option<seq<Lease>>>, todo: seq<nat>): nat
    requires |blocks| == |tables|
  {
    if todo == [] then 0
    else (if IsDue(blocks, todo[0]) then Gain(cfg, tables[todo[0]]) else 0) + Gains(cfg, blocks, tables, todo[1..])
  }

  /** How many of the listed blocks have been inquired three times. */
  function DueCount(blocks: seq<Block>, todo: seq<nat>): nat {
    if todo == [] then 0 else (if IsDue(blocks, todo[0]) then 1 else 0) + DueCount(blocks, todo[1..])
  }

  ghost predicate NoneOwned(blocks: seq<Block>, todo: seq<nat>) {
    forall k :: 0 <= k < |todo| ==> todo[k] < |blocks| && !blocks[todo[k]].state.Ours?
  }

  lemma {:induction false} GainsAgree(cfg: Config, n: Node, m: Node, todo: seq<nat>)
    requires |n.blocks| == |m.blocks| == |n.tables| == |m.tables|
    requires forall k :: 0 <= k < |todo| && todo[k] < |n.blocks| ==>
      && m.blocks[todo[k]].claimingCounts == n.blocks[todo[k]].claimingCounts
      && m.tables[todo[k]] == n.tables[todo[k]]
    ensures Gains(cfg, m.blocks, m.tables, todo) == Gains(cfg, n.blocks, n.tables, todo)
    ensures DueCount(m.blocks, todo) == DueCount(n.blocks, todo)
  {
    if todo != [] {
      GainsAgree(cfg, n, m, todo[1..]);
    }
  }

  /** Taking one block adds its gain. */
  lemma OwnGains(cfg: Config, n: Node, b: nat, now: int)
    requires TableInv(cfg, n) && b < |n.blocks| && !n.blocks[b].state.Ours?
    ensures var m := OwnBlock(cfg, n, b, now);
      TableInv(cfg, m) && FreeLeases(m) == FreeLeases(n) + Gain(cfg, n.tables[b])
  {
    var m := OwnBlock(cfg, n, b, now);
    assert Placed(cfg, b, n.blocks[b]);
    LeaseTable.CountFull(LeaseTable.Blank(cfg.blockSize), Available);
    NumFreeUpdate(n.blocks, n.tables, b, m.blocks[b], m.tables[b]);
    OwnKeepsTables(cfg, n, b, now);
  }

  /** It leaves the gains of the others. */
  lemma OthersGain(cfg: Config, n: Node, b: nat, rest: seq<nat>, now: int)
    requires b < |n.blocks| == |n.tables| && b !in rest && NoneOwned(n.blocks, rest)
    ensures var m := OwnBlock(cfg, n, b, now);
      && NoneOwned(m.blocks, rest) && DueCount(m.blocks, rest) == DueCount(n.blocks, rest)
      && Gains(cfg, m.blocks, m.tables, rest) == Gains(cfg, n.blocks, n.tables, rest)
  {
    var m := OwnBlock(cfg, n, b, now);
    forall k | 0 <= k < |rest| ensures m.blocks[rest[k]] == n.blocks[rest[k]] && m.tables[rest[k]] == n.tables[rest[k]] {
      assert rest[k] in rest;
    }
    GainsAgree(cfg, n, m, rest);
  }

  /** The first pass of block_claim adds the gains of the due blocks. */
  lemma {:induction false} SettleGains(cfg: Config, n: Node, todo: seq<nat>, now: int)
    requires TableInv(cfg, n) && Distinct(todo) && NoneOwned(n.blocks, todo)
    ensures var s := Settle(cfg, n, todo, now);
      && TableInv(cfg, s.node) && s.taken == DueCount(n.blocks, todo)
      && FreeLeases(s.node) == FreeLeases(n) + Gains(cfg, n.blocks, n.tables, todo)
    decreases |todo|
  {
    if todo != [] {
      var b: nat, rest: seq<nat> := todo[0], todo[1..];
      var less := n.(amount := (n.amount - 1) % 0x100);
      assert NoneOwned(n.blocks, rest);
      if IsDue(n.blocks, b) {
        OwnGains(cfg, less, b, now);
        OthersGain(cfg, less, b, rest, now);
        SettleGains(cfg, OwnBlock(cfg, less, b, now), rest, now);
      } else {
        SettleGains(cfg, n, rest, now);
        SettleGains(cfg, less, rest, now);
      }
    }
  }

  // ---------------------------------------------------------------- the other passes add nothing

  lemma SelectAdds(cfg: Config, n: Node, b: nat, now: int)
    requires b < |n.blocks| == |n.tables| && n.blocks[b].state.Free?
    ensures FreeLeases(Select(cfg, n, b, now)) == FreeLeases(n)
  {
    NumFreeUpdate(n.blocks, n.tables, b, Select(cfg, n, b, now).blocks[b], n.tables[b]);
    assert n.tables == n.tables[b := n.tables[b]];
  }

  lemma {:induction false} SelectManyAdds(cfg: Config, n: Node, draws: nat, rnd: nat -> nat, now: int)
    requires |n.blocks| == |n.tables|
    ensures var r := SelectMany(cfg, n, draws, rnd, now); |r.blocks| == |r.tables| && FreeLeases(r) == FreeLeases(n)
  {
    if draws > 0 {
      var m := SelectMany(cfg, n, draws - 1, rnd, now);
      SelectManyAdds(cfg, n, draws - 1, rnd, now);
      match FindFree(m.blocks, rnd(draws - 1))
      case Some(b) => SelectAdds(cfg, m, b, now);
      case None =>
    }
  }

  /** block_claim adds exactly the gains of the blocks it takes. */
  lemma ClaimGains(cfg: Config, link: Link, n: Node, num: int, now: int, rnd: nat -> nat)
    requires TableInv(cfg, n) && ClaimInv(n)
    ensures var r := BlockClaim(cfg, link, n, num, now, rnd);
      |r.blocks| == |r.tables| && FreeLeases(r) == FreeLeases(n) + Gains(cfg, n.blocks, n.tables, n.claiming)
  {
    ListedNotOwned(n);
    SettleGains(cfg, n, n.claiming, now);
    PassesAdd(cfg, link, n, num, now, rnd);
  }

  lemma ListedNotOwned(n: Node)
    requires ClaimInv(n)
    ensures NoneOwned(n.blocks, n.claiming)
  {
    forall k | 0 <= k < |n.claiming| ensures n.claiming[k] < |n.blocks| && !n.blocks[n.claiming[k]].state.Ours? {
      assert Listable(n, n.claiming[k]);
    }
  }

  lemma PassesAdd(cfg: Config, link: Link, n: Node, num: int, now: int, rnd: nat -> nat)
    requires var s := Settle(cfg, n, n.claiming, now); |s.node.blocks| == |s.node.tables|
    ensures var (s, r) := (Settle(cfg, n, n.claiming, now), BlockClaim(cfg, link, n, num, now, rnd));
      |r.blocks| == |r.tables| && FreeLeases(r) == FreeLeases(s.node)
  {
    var s := Settle(cfg, n, n.claiming, now);
    var m := Listing(s.node, s.kept);
    if num - s.taken > m.amount { SelectManyAdds(cfg, m, num - s.taken - m.amount, rnd, now); }
    var p := Picked(cfg, s, num, rnd, now);
    NumFreeSame(p.blocks, SendInquiry(cfg, link, p).blocks, p.tables);
  }

  lemma UnmarkAdds(cfg: Config, n: Node)
    requires |n.blocks| == |n.tables|
    ensures var u := UnmarkNeedless(n);
      && |u.blocks| == |u.tables| && FreeLeases(u) == FreeLeases(n) && u.claiming == n.claiming
      && Gains(cfg, u.blocks, u.tables, u.claiming) == Gains(cfg, n.blocks, n.tables, n.claiming)
  {
    var u := UnmarkNeedless(n);
    NumFreeSame(n.blocks, u.blocks, n.tables);
    GainsAgree(cfg, n, u, n.claiming);
  }

  lemma RefreshAdds(cfg: Config, link: Link, n: Node, now: int)
    requires |n.blocks| == |n.tables|
    ensures var r := Refresh(cfg, link, n, now); |r.blocks| == |r.tables| && FreeLeases(r) == FreeLeases(n)
  {
    var r := Refresh(cfg, link, n, now);
    RefreshProofs.RefreshSteps(cfg, link, n, now);
    NumFreeSame(n.blocks, r.blocks, n.tables);
  }

  // ---------------------------------------------------------------- house keeping

  /** House keeping that is short of leases after expiry adds the gains of the blocks it takes. */
  lemma HouseKeepingGains(cfg: Config, link: Link, n: Node, now: int, rnd: nat -> nat)
    requires NodeInv(cfg, n) && HouseSpec.BlocksNeeded(cfg, FreeLeases(CheckTimeouts(n, now))) > 0
    ensures var (e, r) := (CheckTimeouts(n, now), HouseSpec.HouseKeeping(cfg, link, n, now, rnd));
      |r.blocks| == |r.tables| && FreeLeases(r) == FreeLeases(e) + Gains(cfg, e.blocks, e.tables, e.claiming)
  {
    var e := CheckTimeouts(n, now);
    NodeProofs.TimeoutsKeepInv(cfg, n, now);
    NodeProofs.UnmarkKeepsInv(cfg, e);
    UnmarkAdds(cfg, e);
    ClaimGains(cfg, link, if e.needlessMarks then UnmarkNeedless(e) else e, HouseSpec.BlocksNeeded(cfg, FreeLeases(e)), now, rnd);
    RefreshAdds(cfg, link, HouseSpec.Balance(cfg, link, e, now, rnd), now);
  }

  /** No listed block that is due has a cached table. */
  ghost predicate NoneCached(n: Node, todo: seq<nat>)
    requires |n.blocks| == |n.tables|
  {
    forall k :: 0 <= k < |todo| && IsDue(n.blocks, todo[k]) ==> n.tables[todo[k]].None?
  }

  lemma {:induction false} UncachedGains(cfg: Config, n: Node, todo: seq<nat>)
    requires |n.blocks| == |n.tables| && NoneCached(n, todo)
    ensures Gains(cfg, n.blocks, n.tables, todo) == DueCount(n.blocks, todo) * cfg.blockSize
  {
    if todo != [] {
      UncachedGains(cfg, n, todo[1..]);
      Scale(DueCount(n.blocks, todo[1..]), cfg.blockSize);
    }
  }

  /** The number needed is the quotient rounded up, also when there are leases to spare. */
  lemma NeededBounds(cfg: Config, free: nat)
    ensures var (q, s) := (HouseSpec.BlocksNeeded(cfg, free), cfg.blockSize); q * s - s < cfg.spareLeases - free <= q * s
  {
    var (a, s) := (cfg.spareLeases - free, cfg.blockSize);
    CDivTruncates(a, s);
    Scale(HouseSpec.CDiv(a, s), s);
    var m := HouseSpec.CDiv(a, s) * s;
    assert HouseSpec.CRem(a, s) == a - m;
  }

  lemma RoundedUpOnce(p: int, q: int, a: int, s: int)
    requires s >= 1 && p * s - s < a <= p * s && q * s - s < a <= q * s
    ensures p == q
  {
    if p > q { assert (p - q) * s == p * s - q * s; Scale(p - q, s); }
    if q > p { assert (q - p) * s == q * s - p * s; Scale(q - p, s); }
  }

  lemma RoundedUpLess(p: int, q: int, k: int, a: int, s: int)
    requires s >= 1 && p * s - s < a - k * s <= p * s && q * s - s < a <= q * s
    ensures p == q - k
  {
    assert (q - k) * s == q * s - k * s;
    RoundedUpOnce(p, q - k, a - k * s, s);
  }

  /** Each block's worth of leases is one block less needed. */
  lemma NeededShifts(cfg: Config, free: nat, k: nat)
    ensures HouseSpec.BlocksNeeded(cfg, free + k * cfg.blockSize) == HouseSpec.BlocksNeeded(cfg, free) - k
  {
    NeededBounds(cfg, free);
    var more := free + k * cfg.blockSize;
    NeededBounds(cfg, more);
    RoundedUpLess(HouseSpec.BlocksNeeded(cfg, more), HouseSpec.BlocksNeeded(cfg, free), k, cfg.spareLeases - free, cfg.blockSize);
  }

  /** The blocks still needed after a house keeping that is short of leases: those needed before, less
      the due ones, if no listed block has a cached table. So the next house keeping neither
      claims nor drops exactly when as many were due as were needed. */
  lemma ClaimingSettles(cfg: Config, link: Link, n: Node, now: int, rnd: nat -> nat)
    requires NodeInv(cfg, n) && HouseSpec.BlocksNeeded(cfg, FreeLeases(CheckTimeouts(n, now))) > 0
    requires NoneCached(CheckTimeouts(n, now), CheckTimeouts(n, now).claiming)
    ensures var (e, r) := (CheckTimeouts(n, now), HouseSpec.HouseKeeping(cfg, link, n, now, rnd));
      && |r.blocks| == |r.tables|
      && HouseSpec.BlocksNeeded(cfg, FreeLeases(r)) == HouseSpec.BlocksNeeded(cfg, FreeLeases(e)) - DueCount(e.blocks, e.claiming)
  {
    var e := CheckTimeouts(n, now);
    HouseKeepingGains(cfg, link, n, now, rnd);
    UncachedGains(cfg, e, e.claiming);
    NeededShifts(cfg, FreeLeases(e), DueCount(e.blocks, e.claiming));
  }
}
