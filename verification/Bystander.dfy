/** Blocks that block_claim leaves as they are: not FREE, and not on the claim list or no longer
    claimed there and inquired less than three times. */
module Bystander {
  import opened Types
  import opened BlockSpec
  import HouseSpec
  import RefreshProofs
  import ClaimProofs

  /** Block b and its table are the same, b is not listed, and nothing was sent about it. */
  ghost predicate Aside(n: Node, r: Node, b: nat) {
    && b < |n.blocks| == |r.blocks| == |n.tables| == |r.tables|
    && r.blocks[b] == n.blocks[b] && r.tables[b] == n.tables[b]
    && n.trace <= r.trace && !RefreshProofs.Announced(r.trace, |n.trace|, b)
  }

  lemma AsideTrans(n: Node, m: Node, r: Node, b: nat)
    requires Aside(n, m, b) && Aside(m, r, b)
    ensures Aside(n, r, b)
  {
    forall k | |n.trace| <= k < |r.trace| ensures !RefreshProofs.Announces(r.trace[k], b) {
      if k < |m.trace| { assert r.trace[k] == m.trace[k]; }
    }
  }

  lemma {:induction false} SettleAside(cfg: Config, n: Node, todo: seq<nat>, now: int, b: nat)
    requires b !in todo && b < |n.blocks| == |n.tables|
    ensures var s := Settle(cfg, n, todo, now); Aside(n, s.node, b) && b !in s.kept
    decreases |todo|
  {
    if todo != [] {
      var less := n.(amount := (n.amount - 1) % 0x100);
      SettleAside(cfg, n, todo[1..], now, b);
      SettleAside(cfg, less, todo[1..], now, b);
      if todo[0] < |n.blocks| {
        var m := OwnBlock(cfg, less, todo[0], now);
        SettleAside(cfg, m, todo[1..], now, b);
        AsideTrans(less, m, Settle(cfg, m, todo[1..], now).node, b);
      }
    }
  }

  lemma {:induction false} SelectAside(cfg: Config, n: Node, draws: nat, rnd: nat -> nat, now: int, b: nat)
    requires b < |n.blocks| == |n.tables| && b !in n.claiming && !n.blocks[b].state.Free?
    ensures var r := SelectMany(cfg, n, draws, rnd, now); Aside(n, r, b) && b !in r.claiming
  {
    if draws > 0 {
      var m := SelectMany(cfg, n, draws - 1, rnd, now);
      SelectAside(cfg, n, draws - 1, rnd, now, b);
      match FindFree(m.blocks, rnd(draws - 1))
      case Some(f) =>
        assert Aside(m, Select(cfg, m, f, now), b);
        AsideTrans(n, m, Select(cfg, m, f, now), b);
      case None =>
    }
  }

  lemma InquiryAside(cfg: Config, link: Link, n: Node, b: nat)
    requires b < |n.blocks| == |n.tables| && b !in n.claiming
    ensures Aside(n, SendInquiry(cfg, link, n), b)
  {
    ClaimProofs.InquirePacketLists(cfg, n.claiming, b);
  }

  lemma PickedAside(cfg: Config, s: Settled, num: int, now: int, rnd: nat -> nat, b: nat)
    requires b < |s.node.blocks| == |s.node.tables| && b !in s.kept && !s.node.blocks[b].state.Free?
    ensures var r := Picked(cfg, s, num, rnd, now); Aside(s.node, r, b) && b !in r.claiming
  {
    var m := Listing(s.node, s.kept);
    if num - s.taken > m.amount {
      SelectAside(cfg, m, num - s.taken - m.amount, rnd, now, b);
    }
  }

  lemma ClaimAside(cfg: Config, link: Link, n: Node, num: int, now: int, rnd: nat -> nat, b: nat)
    requires b !in n.claiming && b < |n.blocks| == |n.tables| && !n.blocks[b].state.Free?
    ensures var r := BlockClaim(cfg, link, n, num, now, rnd); Aside(n, r, b) && b !in r.claiming
  {
    var s := Settle(cfg, n, n.claiming, now);
    var p := Picked(cfg, s, num, rnd, now);
    SettleAside(cfg, n, n.claiming, now, b);
    PickedAside(cfg, s, num, now, rnd, b);
    InquiryAside(cfg, link, p, b);
    AsideTrans(n, s.node, p, b);
    AsideTrans(n, p, SendInquiry(cfg, link, p), b);
  }

  // ---------------------------------------------------------------- listed blocks

  /** The block is listed with three inquiries, so that block_claim takes it. */
  predicate Due(n: Node, b: nat)
    requires b < |n.blocks|
  {
    b in n.claiming && n.blocks[b].claimingCounts == CLAIMS_BEFORE_OWNING
  }

  /** The first pass only unlists a block that is no longer claimed, unless it is due. */
  lemma {:induction false} SettleSpares(cfg: Config, n: Node, todo: seq<nat>, now: int, b: nat)
    requires b < |n.blocks| == |n.tables| && Distinct(todo) && !n.blocks[b].state.Claiming?
    requires b in todo ==> n.blocks[b].claimingCounts != CLAIMS_BEFORE_OWNING
    ensures var s := Settle(cfg, n, todo, now); Aside(n, s.node, b) && b !in s.kept
    decreases |todo|
  {
    if b !in todo {
      SettleAside(cfg, n, todo, now, b);
    } else {
      var less := n.(amount := (n.amount - 1) % 0x100);
      SettleSpares(cfg, n, todo[1..], now, b);
      SettleSpares(cfg, less, todo[1..], now, b);
      if todo[0] != b && todo[0] < |n.blocks| {
        var m := OwnBlock(cfg, less, todo[0], now);
        SettleSpares(cfg, m, todo[1..], now, b);
        AsideTrans(less, m, Settle(cfg, m, todo[1..], now).node, b);
      }
    }
  }

  /** block_claim leaves a block alone that is neither FREE nor claimed nor due, and unlists it. */
  lemma ClaimSpares(cfg: Config, link: Link, n: Node, num: int, now: int, rnd: nat -> nat, b: nat)
    requires b < |n.blocks| == |n.tables| && Distinct(n.claiming) && !Due(n, b)
    requires !n.blocks[b].state.Free? && !n.blocks[b].state.Claiming?
    ensures var r := BlockClaim(cfg, link, n, num, now, rnd); Aside(n, r, b) && b !in r.claiming
  {
    var s := Settle(cfg, n, n.claiming, now);
    var p := Picked(cfg, s, num, rnd, now);
    SettleSpares(cfg, n, n.claiming, now, b);
    PickedAside(cfg, s, num, now, rnd, b);
    InquiryAside(cfg, link, p, b);
    AsideTrans(n, s.node, p, b);
    AsideTrans(n, p, SendInquiry(cfg, link, p), b);
  }

  // ---------------------------------------------------------------- FREE and unlisted blocks

  lemma {:induction false} SettleShape(cfg: Config, n: Node, todo: seq<nat>, now: int)
    requires |n.blocks| == |n.tables|
    ensures var s := Settle(cfg, n, todo, now); |s.node.blocks| == |s.node.tables| == |n.blocks|
    decreases |todo|
  {
    if todo != [] {
      var less := n.(amount := (n.amount - 1) % 0x100);
      SettleShape(cfg, n, todo[1..], now);
      SettleShape(cfg, less, todo[1..], now);
      if todo[0] < |n.blocks| {
        SettleShape(cfg, OwnBlock(cfg, less, todo[0], now), todo[1..], now);
      }
    }
  }

  lemma {:induction false} SelectGains(cfg: Config, n: Node, draws: nat, rnd: nat -> nat, now: int, b: nat)
    requires b < |n.blocks| == |n.tables|
    ensures var r := SelectMany(cfg, n, draws, rnd, now);
      |r.blocks| == |n.blocks| && r.tables == n.tables && (r.blocks[b].state.Ours? ==> n.blocks[b].state.Ours?)
  {
    if draws > 0 {
      SelectGains(cfg, n, draws - 1, rnd, now, b);
    }
  }

  lemma PickedGains(cfg: Config, s: Settled, num: int, now: int, rnd: nat -> nat, b: nat)
    requires b < |s.node.blocks| == |s.node.tables|
    ensures var r := Picked(cfg, s, num, rnd, now);
      && |r.blocks| == |r.tables| == |s.node.blocks|
      && (r.blocks[b].state.Ours? ==> s.node.blocks[b].state.Ours?)
  {
    var m := Listing(s.node, s.kept);
    if num - s.taken > m.amount {
      SelectGains(cfg, m, num - s.taken - m.amount, rnd, now, b);
    }
  }

  lemma InquiryGains(cfg: Config, link: Link, n: Node, b: nat)
    requires b < |n.blocks| == |n.tables|
    ensures var r := SendInquiry(cfg, link, n);
      |r.blocks| == |r.tables| == |n.blocks| && r.blocks[b].state == n.blocks[b].state
  {
  }

  /** block_claim takes no unlisted block. */
  lemma UnlistedNotTaken(cfg: Config, link: Link, n: Node, num: int, now: int, rnd: nat -> nat, b: nat)
    requires b !in n.claiming && b < |n.blocks| == |n.tables|
    ensures var r := BlockClaim(cfg, link, n, num, now, rnd);
      |r.blocks| == |r.tables| == |n.blocks| && (r.blocks[b].state.Ours? ==> n.blocks[b].state.Ours?)
  {
    var s := Settle(cfg, n, n.claiming, now);
    SettleShape(cfg, n, n.claiming, now);
    SettleAside(cfg, n, n.claiming, now, b);
    PickedGains(cfg, s, num, now, rnd, b);
    InquiryGains(cfg, link, Picked(cfg, s, num, rnd, now), b);
  }

  /** An unlisted block that is owned after the balancing was owned before, with the same table. */
  lemma BalanceLeavesTables(cfg: Config, link: Link, n: Node, now: int, rnd: nat -> nat, b: nat)
    requires b !in n.claiming && b < |n.blocks| == |n.tables|
    ensures var r := HouseSpec.Balance(cfg, link, n, now, rnd);
      && |r.blocks| == |r.tables| == |n.blocks|
      && (r.blocks[b].state.Ours? ==> n.blocks[b].state.Ours? && r.tables[b] == n.tables[b])
  {
    var needed := HouseSpec.BlocksNeeded(cfg, NumFree(n.blocks, n.tables));
    if needed > 0 {
      var m := if n.needlessMarks then UnmarkNeedless(n) else n;
      UnlistedNotTaken(cfg, link, m, needed, now, rnd, b);
      if m.blocks[b].state.Ours? {
        ClaimAside(cfg, link, m, needed, now, rnd, b);
      }
    }
  }
}
