/** What house keeping does to the blocks a node owns: which it gives up, which it marks as needless, and
    which marks it clears. */
module Upkeep {
  import opened Types
  import opened BlockSpec
  import opened ClaimProofs
  import HouseSpec
  import opened HouseProofs
  import RefreshProofs
  import HandlerProofs
  import Bystander
  import NodeProofs

  /** There are leases to spare: a whole block beyond the target. */
  predicate Ample(cfg: Config, e: Node)
    requires |e.blocks| == |e.tables|
  {
    NumFree(e.blocks, e.tables) >= cfg.spareLeases + cfg.blockSize
  }

  /** The block has been marked as needless for long enough. */
  predicate MarkedLong(cfg: Config, b: Block, now: int) {
    b.needlessSince != 0 && b.needlessSince + cfg.needlessTimeout <= now
  }

  /** The mark of a block afterwards. */
  ghost function MarkAfter(cfg: Config, e: Node, i: nat, now: int): int
    requires i < |e.blocks| == |e.tables|
  {
    if Ample(cfg, e) then
      if Spare(cfg, e, i) && e.blocks[i].needlessSince == 0 then now else e.blocks[i].needlessSince
    else if e.needlessMarks then 0 else e.blocks[i].needlessSince
  }

  // ---------------------------------------------------------------- leases to spare

  lemma Retired(cfg: Config, e: Node, now: int, i: nat)
    requires TableInv(cfg, e) && i < |e.blocks|
    ensures var (r, b) := (DropUnused(cfg, e, now), e.blocks[i]); var given := Spare(cfg, e, i) && MarkedLong(cfg, b, now);
      && |r.blocks| == |r.tables| == |e.blocks| && r.claiming == e.claiming
      && r.blocks[i] == (if given then b.(state := Free, nodeId := NO_NODE, needlessSince := 0)
                         else b.(needlessSince := if Spare(cfg, e, i) && b.needlessSince == 0 then now else b.needlessSince))
      && r.tables[i] == (if given then None else e.tables[i])
  {
    FindsYoungest(cfg, e.blocks, e.tables);
    assert TableFits(cfg, e.blocks[i], e.tables[i]);
  }

  /** There is at most one spare block, and the flag says whether a mark was made or a block given up. */
  lemma Flagged(cfg: Config, e: Node, now: int)
    requires TableInv(cfg, e)
    ensures DropUnused(cfg, e, now).needlessMarks ==
            if exists i: nat :: Spare(cfg, e, i) && e.blocks[i].needlessSince == 0 then true
            else if exists i: nat :: Spare(cfg, e, i) && MarkedLong(cfg, e.blocks[i], now) then false
            else e.needlessMarks
  {
    FindsYoungest(cfg, e.blocks, e.tables);
    match FindUnused(cfg, e.blocks, e.tables)
    case Some(k) =>
      assert Spare(cfg, e, k);
      forall i: nat | Spare(cfg, e, i) ensures i == k {
      }
    case None =>
  }

  // ---------------------------------------------------------------- the other branch

  lemma Unmarked(cfg: Config, link: Link, e: Node, now: int, rnd: nat -> nat, i: nat)
    requires NodeInv(cfg, e) && i < |e.blocks| && !Ample(cfg, e)
    ensures var (r, b) := (HouseSpec.Balance(cfg, link, e, now, rnd), e.blocks[i]);
      && |r.blocks| == |r.tables| == |e.blocks| && !r.needlessMarks
      && r.blocks[i].needlessSince == (if e.needlessMarks then 0 else b.needlessSince)
      && (b.state.Ours? ==> r.blocks[i] == b.(needlessSince := r.blocks[i].needlessSince) && r.tables[i] == e.tables[i])
  {
    var u := if e.needlessMarks then UnmarkNeedless(e) else e;
    NeededIsLeast(cfg, NumFree(e.blocks, e.tables));
    var needed := HouseSpec.BlocksNeeded(cfg, NumFree(e.blocks, e.tables));
    if needed > 0 {
      ClaimKeepsMarks(cfg, link, u, needed, now, rnd, i);
      if e.blocks[i].state.Ours? {
        assert i in e.claiming ==> Listable(e, i);
        Bystander.ClaimAside(cfg, link, u, needed, now, rnd, i);
      }
    }
  }

  lemma {:induction false} SettleKeepsMarks(cfg: Config, n: Node, todo: seq<nat>, now: int, i: nat)
    requires i < |n.blocks| == |n.tables|
    ensures var r := Settle(cfg, n, todo, now).node;
      && |r.blocks| == |r.tables| == |n.blocks|
      && r.needlessMarks == n.needlessMarks && r.blocks[i].needlessSince == n.blocks[i].needlessSince
    decreases |todo|
  {
    if todo != [] {
      var less := n.(amount := (n.amount - 1) % 0x100);
      SettleKeepsMarks(cfg, n, todo[1..], now, i);
      SettleKeepsMarks(cfg, less, todo[1..], now, i);
      if todo[0] < |n.blocks| {
        SettleKeepsMarks(cfg, OwnBlock(cfg, less, todo[0], now), todo[1..], now, i);
      }
    }
  }

  lemma {:induction false} SelectKeepsMarks(cfg: Config, n: Node, draws: nat, rnd: nat -> nat, now: int, i: nat)
    requires i < |n.blocks|
    ensures var r := SelectMany(cfg, n, draws, rnd, now);
      && |r.blocks| == |n.blocks| && r.tables == n.tables
      && r.needlessMarks == n.needlessMarks && r.blocks[i].needlessSince == n.blocks[i].needlessSince
  {
    if draws > 0 {
      SelectKeepsMarks(cfg, n, draws - 1, rnd, now, i);
    }
  }

  lemma ClaimKeepsMarks(cfg: Config, link: Link, n: Node, num: int, now: int, rnd: nat -> nat, i: nat)
    requires i < |n.blocks| == |n.tables|
    ensures var r := BlockClaim(cfg, link, n, num, now, rnd);
      && |r.blocks| == |r.tables| == |n.blocks|
      && r.needlessMarks == n.needlessMarks && r.blocks[i].needlessSince == n.blocks[i].needlessSince
  {
    var s := Settle(cfg, n, n.claiming, now);
    var m := Listing(s.node, s.kept);
    SettleKeepsMarks(cfg, n, n.claiming, now, i);
    if num - s.taken > m.amount { SelectKeepsMarks(cfg, m, num - s.taken - m.amount, rnd, now, i); }
    InquiryKeepsMarks(cfg, link, Picked(cfg, s, num, rnd, now), i);
  }

  lemma InquiryKeepsMarks(cfg: Config, link: Link, n: Node, i: nat)
    requires i < |n.blocks|
    ensures var r := SendInquiry(cfg, link, n);
      && |r.blocks| == |n.blocks| && r.tables == n.tables
      && r.needlessMarks == n.needlessMarks && r.blocks[i].needlessSince == n.blocks[i].needlessSince
  {
  }

  // ---------------------------------------------------------------- house keeping

  /** Between expiry and refresh. */
  lemma Balanced(cfg: Config, link: Link, e: Node, now: int, rnd: nat -> nat, i: nat)
    requires NodeInv(cfg, e) && i < |e.blocks| && e.blocks[i].state.Ours?
    ensures var (r, b) := (HouseSpec.Balance(cfg, link, e, now, rnd), e.blocks[i]);
      var given := Ample(cfg, e) && Spare(cfg, e, i) && MarkedLong(cfg, b, now);
      && |r.blocks| == |r.tables| == |e.blocks|
      && r.blocks[i] == (if given then b.(state := Free, nodeId := NO_NODE, needlessSince := 0)
                         else b.(needlessSince := MarkAfter(cfg, e, i, now)))
      && r.tables[i] == (if given then None else e.tables[i])
  {
    NeededIsLeast(cfg, NumFree(e.blocks, e.tables));
    if Ample(cfg, e) {
      Retired(cfg, e, now, i);
    } else {
      Unmarked(cfg, link, e, now, rnd, i);
    }
  }

  /** What becomes of a block that the node owns after expiry. House keeping gives it up if and only if there
      are leases to spare, it is the youngest block without a lease, and it was marked at least
      needless_timeout ago. Otherwise only its mark and its timeout may change: with leases to spare
      the youngest block is marked now unless it is already, and with fewer all marks are cleared if
      the flag says that there are any. */
  lemma {:induction false} OwnedBlockAfter(cfg: Config, link: Link, n: Node, now: int, rnd: nat -> nat, i: nat)
    requires NodeInv(cfg, n) && i < |n.blocks| && CheckTimeouts(n, now).blocks[i].state.Ours?
    ensures var e := CheckTimeouts(n, now);
      var (r, b) := (HouseSpec.HouseKeeping(cfg, link, n, now, rnd), e.blocks[i]);
      var given := Ample(cfg, e) && Spare(cfg, e, i) && MarkedLong(cfg, b, now);
      && |r.blocks| == |r.tables| == |n.blocks|
      && (!r.blocks[i].state.Ours? <==> given)
      && (given ==> r.blocks[i] == b.(state := Free, nodeId := NO_NODE, needlessSince := 0) && r.tables[i].None?)
      && (!given ==> r.blocks[i] == b.(needlessSince := MarkAfter(cfg, e, i, now), timeout := r.blocks[i].timeout)
                     && r.tables[i] == e.tables[i])
  {
    var e := CheckTimeouts(n, now);
    NodeProofs.TimeoutsKeepInv(cfg, n, now);
    Balanced(cfg, link, e, now, rnd, i);
    var d := HouseSpec.Balance(cfg, link, e, now, rnd);
    RefreshProofs.RefreshSteps(cfg, link, d, now);
    if !d.blocks[i].state.Ours? { HandlerProofs.RefreshSpares(cfg, link, d, now, i); }
  }

  /** The marks flag afterwards, and with fewer leases the marks of all blocks, owned or not. */
  lemma {:induction false} MarksAfter(cfg: Config, link: Link, n: Node, now: int, rnd: nat -> nat)
    requires NodeInv(cfg, n)
    ensures var e := CheckTimeouts(n, now); var r := HouseSpec.HouseKeeping(cfg, link, n, now, rnd);
      if Ample(cfg, e) then
        r.needlessMarks == if exists i: nat :: Spare(cfg, e, i) && e.blocks[i].needlessSince == 0 then true
                           else if exists i: nat :: Spare(cfg, e, i) && MarkedLong(cfg, e.blocks[i], now) then false
                           else n.needlessMarks
      else
        && !r.needlessMarks && |r.blocks| == |e.blocks|
        && forall i :: 0 <= i < |r.blocks| ==>
             r.blocks[i].needlessSince == if n.needlessMarks then 0 else e.blocks[i].needlessSince
  {
    var e := CheckTimeouts(n, now);
    NodeProofs.TimeoutsKeepInv(cfg, n, now);
    NeededIsLeast(cfg, NumFree(e.blocks, e.tables));
    var d := HouseSpec.Balance(cfg, link, e, now, rnd);
    var r := HouseSpec.HouseKeeping(cfg, link, n, now, rnd);
    RefreshProofs.RefreshSteps(cfg, link, d, now);
    if Ample(cfg, e) {
      Flagged(cfg, e, now);
    } else {
      assert |e.blocks| >= 1;
      Unmarked(cfg, link, e, now, rnd, 0);
      forall i | 0 <= i < |r.blocks| ensures r.blocks[i].needlessSince == if n.needlessMarks then 0 else e.blocks[i].needlessSince {
        Unmarked(cfg, link, e, now, rnd, i);
      }
    }
  }
}
