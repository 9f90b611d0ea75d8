/** When exactly a node takes a block. block.c:140 looks at the counter before the state, so a
    block lost after the third inquiry is taken all the same. */
module Takeover {
  import opened Types
  import opened BlockSpec
  import opened ConsensusSpec
  import HouseSpec
  import RefreshProofs
  import HandlerProofs
  import opened ClaimProofs
  import opened Bystander
  import NodeProofs

  lemma SettleOne(cfg: Config, n: Node, b: nat, rest: seq<nat>, now: int)
    requires b < |n.blocks| == |n.tables| && b !in rest && !n.blocks[b].state.Ours?
    ensures var (s, due) := (Settle(cfg, n, [b] + rest, now), n.blocks[b].claimingCounts == CLAIMS_BEFORE_OWNING);
      && |s.node.blocks| == |s.node.tables| == |n.blocks|
      && (s.node.blocks[b].state.Ours? <==> due) && (due ==> b !in s.kept)
  {
    var less := n.(amount := (n.amount - 1) % 0x100);
    assert ([b] + rest)[1..] == rest;
    SettleAside(cfg, n, rest, now, b);
    SettleAside(cfg, less, rest, now, b);
    SettleAside(cfg, OwnBlock(cfg, less, b, now), rest, now, b);
  }

  /** The first pass of block_claim owns exactly the listed blocks that have been inquired
      three times. */
  lemma {:induction false} SettleOwns(cfg: Config, n: Node, todo: seq<nat>, now: int, b: nat)
    requires b < |n.blocks| == |n.tables| && b in todo && Distinct(todo) && !n.blocks[b].state.Ours?
    ensures var (s, due) := (Settle(cfg, n, todo, now), n.blocks[b].claimingCounts == CLAIMS_BEFORE_OWNING);
      && |s.node.blocks| == |s.node.tables| == |n.blocks|
      && (s.node.blocks[b].state.Ours? <==> due) && (due ==> b !in s.kept)
    decreases |todo|
  {
    if todo[0] == b {
      assert todo == [b] + todo[1..];
      SettleOne(cfg, n, b, todo[1..], now);
    } else {
      var less := n.(amount := (n.amount - 1) % 0x100);
      SettleOwns(cfg, n, todo[1..], now, b);
      SettleOwns(cfg, less, todo[1..], now, b);
      if todo[0] < |n.blocks| {
        SettleOwns(cfg, OwnBlock(cfg, less, todo[0], now), todo[1..], now, b);
      }
    }
  }

  /** block_claim takes exactly the listed blocks whose counter is three, whatever their state. */
  lemma ClaimTakesExactly(cfg: Config, link: Link, n: Node, num: int, now: int, rnd: nat -> nat, b: nat)
    requires NodeInv(cfg, n) && b < |n.blocks| && !n.blocks[b].state.Ours?
    ensures var r := BlockClaim(cfg, link, n, num, now, rnd);
      |r.blocks| == |r.tables| == |n.blocks| && (r.blocks[b].state.Ours? <==> Due(n, b))
  {
    if b !in n.claiming {
      UnlistedNotTaken(cfg, link, n, num, now, rnd, b);
    } else {
      var s := Settle(cfg, n, n.claiming, now);
      SettleOwns(cfg, n, n.claiming, now, b);
      PickedGains(cfg, s, num, now, rnd, b);
      if Due(n, b) { PickedAside(cfg, s, num, now, rnd, b); }
      InquiryGains(cfg, link, Picked(cfg, s, num, rnd, now), b);
    }
  }

  predicate Needy(cfg: Config, n: Node)
    requires |n.blocks| == |n.tables|
  {
    HouseSpec.BlocksNeeded(cfg, NumFree(n.blocks, n.tables)) > 0
  }

  /** Whether house keeping runs block_claim at this time. */
  ghost predicate Claims(cfg: Config, n: Node, now: int)
    requires |n.blocks| == |n.tables|
  {
    Needy(cfg, CheckTimeouts(n, now))
  }

  lemma BalanceTakesExactly(cfg: Config, link: Link, n: Node, now: int, rnd: nat -> nat, b: nat)
    requires NodeInv(cfg, n) && b < |n.blocks| && !n.blocks[b].state.Ours?
    ensures var r := HouseSpec.Balance(cfg, link, n, now, rnd);
      b < |r.blocks| && (r.blocks[b].state.Ours? <==> Due(n, b) && Needy(cfg, n))
  {
    if Needy(cfg, n) {
      var u := if n.needlessMarks then UnmarkNeedless(n) else n;
      NodeProofs.UnmarkKeepsInv(cfg, n);
      assert u.blocks[b].state == n.blocks[b].state && (Due(u, b) <==> Due(n, b));
      ClaimTakesExactly(cfg, link, u, HouseSpec.BlocksNeeded(cfg, NumFree(n.blocks, n.tables)), now, rnd, b);
    }
  }

  lemma TimeoutsKeepDue(n: Node, now: int, b: nat)
    requires b < |n.blocks| == |n.tables| && !n.blocks[b].state.Ours?
    ensures !CheckTimeouts(n, now).blocks[b].state.Ours?
    ensures Due(CheckTimeouts(n, now), b) <==> Due(n, b)
  {
  }

  /** House keeping takes a block exactly when it runs block_claim and the block is listed with
      three inquiries; neither the state of the block nor its recorded owner matters. */
  lemma {:induction false} HouseKeepingTakesExactly(cfg: Config, link: Link, n: Node, now: int, rnd: nat -> nat, b: nat)
    requires NodeInv(cfg, n) && b < |n.blocks| && !n.blocks[b].state.Ours?
    ensures var r := HouseSpec.HouseKeeping(cfg, link, n, now, rnd);
      b < |r.blocks| && (r.blocks[b].state.Ours? <==> Due(n, b) && Claims(cfg, n, now))
  {
    var m := CheckTimeouts(n, now);
    NodeProofs.TimeoutsKeepInv(cfg, n, now);
    TimeoutsKeepDue(n, now, b);
    BalanceTakesExactly(cfg, link, m, now, rnd, b);
    RefreshProofs.RefreshSteps(cfg, link, HouseSpec.Balance(cfg, link, m, now, rnd), now);
  }

  // ---------------------------------------------------------------- what is asked for

  ghost predicate NoneFree(blocks: seq<Block>) {
    forall i :: 0 <= i < |blocks| ==> !blocks[i].state.Free?
  }

  /** One draw: a FREE block is listed, unless there is none. */
  lemma DrawOne(cfg: Config, m: Node, r: nat, now: int)
    requires m.amount < 0xff
    ensures var f := FindFree(m.blocks, r);
      && (f.None? ==> NoneFree(m.blocks))
      && (f.Some? ==> var n := Select(cfg, m, f.value, now); n.amount == m.amount + 1 && n.claiming == m.claiming + [f.value])
  {
  }

  lemma {:induction false} SelectsAll(cfg: Config, n: Node, draws: nat, rnd: nat -> nat, now: int)
    requires n.amount + draws <= 0xff
    ensures var r := SelectMany(cfg, n, draws, rnd, now);
      && n.claiming <= r.claiming && r.amount <= n.amount + draws
      && (r.amount == n.amount + draws || NoneFree(r.blocks))
  {
    if draws > 0 {
      SelectsAll(cfg, n, draws - 1, rnd, now);
      DrawOne(cfg, SelectMany(cfg, n, draws - 1, rnd, now), rnd(draws - 1), now);
    }
  }

  lemma PicksEnough(cfg: Config, s: Settled, num: int, rnd: nat -> nat, now: int)
    requires num - s.taken <= 0xff
    ensures var p := Picked(cfg, s, num, rnd, now);
      s.kept <= p.claiming && (p.amount >= num - s.taken || NoneFree(p.blocks))
  {
    var m := Listing(s.node, s.kept);
    if num - s.taken > m.amount { SelectsAll(cfg, m, num - s.taken - m.amount, rnd, now); }
  }

  /** The inquiry changes counters only. */
  lemma InquiryKeepsStates(cfg: Config, link: Link, p: Node)
    requires AllKept(p.blocks, p.claiming)
    ensures var r := SendInquiry(cfg, link, p);
      && r.claiming == p.claiming && (NoneFree(p.blocks) ==> NoneFree(r.blocks))
      && forall b :: b in r.claiming ==> b < |r.blocks| && r.blocks[b].state.Claiming?
  {
  }

  /** After block_claim the listed blocks are all CLAIMING, those still being claimed before come first,
      and they are as many as were requested less those just taken, unless no block is FREE. */
  lemma ClaimsEnough(cfg: Config, link: Link, n: Node, num: int, now: int, rnd: nat -> nat)
    requires NodeInv(cfg, n) && num <= 0xff
    ensures var (s, r) := (Settle(cfg, n, n.claiming, now), BlockClaim(cfg, link, n, num, now, rnd));
      && s.kept <= r.claiming
      && (forall b :: b in r.claiming ==> b < |r.blocks| && r.blocks[b].state.Claiming?)
      && (|r.claiming| >= num - s.taken || NoneFree(r.blocks))
  {
    var s := Settle(cfg, n, n.claiming, now);
    SettleAll(cfg, n, now);
    PickedKeepsInv(cfg, s, num, rnd, now);
    PicksEnough(cfg, s, num, rnd, now);
    InquiryKeepsStates(cfg, link, Picked(cfg, s, num, rnd, now));
  }

  // ---------------------------------------------------------------- a lost block

  /** Ownership is not exclusive: for every state and every claim by another node that arrives
      after the third inquiry, the claim is recorded, and the next house keeping that needs
      blocks takes the block from its recorded owner. */
  lemma LostBlockIsTaken(cfg: Config, link: Link, n: Node, p: Packet, sender: int, heard: int,
                         now: int, rnd: nat -> nat, b: nat)
    requires NodeInv(cfg, n) && b < |n.blocks| && n.blocks[b].state.Claiming?
    requires n.blocks[b].claimingCounts == CLAIMS_BEFORE_OWNING
    requires p.command.UpdateClaim? && Lists(p, b)
    ensures var m := Handle(cfg, link, n, p, sender, heard);
      && NodeInv(cfg, m) && b < |m.blocks|
      && m.blocks[b].state.Claimed? && m.blocks[b].nodeId == p.nodeId
      && (var r := HouseSpec.HouseKeeping(cfg, link, m, now, rnd);
          b < |r.blocks| && (r.blocks[b].state.Ours? <==> Claims(cfg, m, now)))
  {
    HandlerProofs.PacketExact(cfg, link, n, p, sender, heard, b);
    NodeProofs.HandleKeepsInv(cfg, link, n, p, sender, heard, |p.payload|);
    HouseKeepingTakesExactly(cfg, link, Handle(cfg, link, n, p, sender, heard), now, rnd, b);
  }

  // ---------------------------------------------------------------- a late announcement

  lemma {:induction false} SettleKeepsTimeout(cfg: Config, n: Node, todo: seq<nat>, now: int, i: nat)
    requires i < |n.blocks|
    ensures var s := Settle(cfg, n, todo, now); |s.node.blocks| == |n.blocks| && s.node.blocks[i].timeout == n.blocks[i].timeout
    decreases |todo|
  {
    if todo != [] {
      var less := n.(amount := (n.amount - 1) % 0x100);
      SettleKeepsTimeout(cfg, n, todo[1..], now, i);
      SettleKeepsTimeout(cfg, less, todo[1..], now, i);
      if todo[0] < |n.blocks| && todo[0] < |n.tables| {
        SettleKeepsTimeout(cfg, OwnBlock(cfg, less, todo[0], now), todo[1..], now, i);
      }
    }
  }

  lemma {:induction false} SelectKeepsTimeout(cfg: Config, n: Node, draws: nat, rnd: nat -> nat, now: int, i: nat)
    requires i < |n.blocks|
    ensures var r := SelectMany(cfg, n, draws, rnd, now);
      |r.blocks| == |n.blocks| && (r.blocks[i].state.Ours? ==> r.blocks[i].timeout == n.blocks[i].timeout)
  {
    if draws > 0 {
      SelectKeepsTimeout(cfg, n, draws - 1, rnd, now, i);
    }
  }

  lemma ClaimKeepsTimeout(cfg: Config, link: Link, n: Node, num: int, now: int, rnd: nat -> nat, i: nat)
    requires i < |n.blocks|
    ensures var r := BlockClaim(cfg, link, n, num, now, rnd);
      |r.blocks| == |n.blocks| && (r.blocks[i].state.Ours? ==> r.blocks[i].timeout == n.blocks[i].timeout)
  {
    var s := Settle(cfg, n, n.claiming, now);
    var q := Listing(s.node, s.kept);
    SettleKeepsTimeout(cfg, n, n.claiming, now, i);
    if num - s.taken > q.amount { SelectKeepsTimeout(cfg, q, num - s.taken - q.amount, rnd, now, i); }
    InquirySparesTimeout(cfg, link, Picked(cfg, s, num, rnd, now), i);
  }

  lemma InquirySparesTimeout(cfg: Config, link: Link, n: Node, i: nat)
    requires i < |n.blocks|
    ensures var r := SendInquiry(cfg, link, n);
      |r.blocks| == |n.blocks| && r.blocks[i].state == n.blocks[i].state && r.blocks[i].timeout == n.blocks[i].timeout
  {
  }

  /** Owning a block does not touch its timeout: that of the claim it was lost to stays. */
  lemma BalanceKeepsTimeout(cfg: Config, link: Link, n: Node, now: int, rnd: nat -> nat, i: nat)
    requires i < |n.blocks| == |n.tables|
    ensures var r := HouseSpec.Balance(cfg, link, n, now, rnd);
      |r.blocks| == |n.blocks| && (r.blocks[i].state.Ours? ==> r.blocks[i].timeout == n.blocks[i].timeout)
  {
    var needed := HouseSpec.BlocksNeeded(cfg, NumFree(n.blocks, n.tables));
    if needed > 0 {
      ClaimKeepsTimeout(cfg, link, if n.needlessMarks then UnmarkNeedless(n) else n, needed, now, rnd, i);
    }
  }

  /** No block that is owned or about to be taken is due for a refresh. */
  ghost predicate AllLate(cfg: Config, n: Node, now: int) {
    forall i :: 0 <= i < |n.blocks| && (n.blocks[i].state.Ours? || Due(n, i)) ==> Threshold(cfg, now) <= n.blocks[i].timeout
  }

  lemma OwnedWasDue(cfg: Config, link: Link, n: Node, now: int, rnd: nat -> nat, i: nat)
    requires NodeInv(cfg, n) && i < |n.blocks| && AllLate(cfg, n, now)
    ensures var d := HouseSpec.Balance(cfg, link, CheckTimeouts(n, now), now, rnd);
      |d.blocks| == |n.blocks| && !Stale(cfg, d.blocks[i], now)
  {
    var m := CheckTimeouts(n, now);
    NodeProofs.TimeoutsKeepInv(cfg, n, now);
    BalanceKeepsTimeout(cfg, link, m, now, rnd, i);
    if !n.blocks[i].state.Ours? {
      TimeoutsKeepDue(n, now, i);
      BalanceTakesExactly(cfg, link, m, now, rnd, i);
    }
  }

  /** What is owned when the house keeping that claims comes to its refresh: the owned blocks that have
      not timed out, and the due ones, each with the timeout it had. */
  lemma OwnedAfterClaiming(cfg: Config, link: Link, n: Node, now: int, rnd: nat -> nat, i: nat)
    requires NodeInv(cfg, n) && i < |n.blocks| && Claims(cfg, n, now)
    ensures var (c, d) := (n.blocks[i], HouseSpec.Balance(cfg, link, CheckTimeouts(n, now), now, rnd));
      && |d.blocks| == |n.blocks|
      && (d.blocks[i].state.Ours? <==> (c.state.Ours? && now <= c.timeout) || Due(n, i))
      && (d.blocks[i].state.Ours? ==> d.blocks[i].timeout == c.timeout)
  {
    var m := CheckTimeouts(n, now);
    NodeProofs.TimeoutsKeepInv(cfg, n, now);
    BalanceKeepsTimeout(cfg, link, m, now, rnd, i);
    if i in n.claiming { assert Listable(n, i); }
    if m.blocks[i].state.Ours? {
      var u := if m.needlessMarks then UnmarkNeedless(m) else m;
      assert i !in u.claiming;
      ClaimAside(cfg, link, u, HouseSpec.BlocksNeeded(cfg, NumFree(m.blocks, m.tables)), now, rnd, i);
    } else {
      BalanceTakesExactly(cfg, link, m, now, rnd, i);
    }
  }

  /** When the house keeping that takes a lost block announces it: if and only if a block of its group of 32
      is below the refresh threshold, the block itself or another. Otherwise it keeps the timeout
      of the claim it was lost to. */
  lemma {:induction false} TakenAnnouncedExactly(cfg: Config, link: Link, n: Node, now: int, rnd: nat -> nat, b: nat)
    requires NodeInv(cfg, n) && b < |n.blocks| && !n.blocks[b].state.Ours? && Due(n, b) && Claims(cfg, n, now)
    requires RefreshProofs.Lossless(link)
    ensures var d := HouseSpec.Balance(cfg, link, CheckTimeouts(n, now), now, rnd);
      var (r, swept) := (HouseSpec.HouseKeeping(cfg, link, n, now, rnd), RefreshProofs.Swept(cfg, d.blocks, b, now));
      && b < |r.blocks| && r.blocks[b].state.Ours?
      && (RefreshProofs.Announced(r.trace, |d.trace|, b) <==> swept)
      && r.blocks[b].timeout == if swept then now + cfg.blockTimeout else n.blocks[b].timeout
  {
    var d := HouseSpec.Balance(cfg, link, CheckTimeouts(n, now), now, rnd);
    HouseKeepingTakesExactly(cfg, link, n, now, rnd, b);
    OwnedAfterClaiming(cfg, link, n, now, rnd, b);
    RefreshProofs.RefreshSteps(cfg, link, d, now);
    RefreshProofs.AnnouncedExactly(cfg, link, d, now, b);
  }

  /** A taken block keeps the timeout of the claim it was lost to, and as long as no owned block has come
      below the refresh threshold its new owner announces nothing: for every such state and every
      timeout that a claim named, however far ahead. */
  lemma {:induction false} TakenSilently(cfg: Config, link: Link, n: Node, now: int, rnd: nat -> nat, b: nat)
    requires NodeInv(cfg, n) && b < |n.blocks| && !n.blocks[b].state.Ours? && Due(n, b) && Claims(cfg, n, now)
    requires AllLate(cfg, n, now)
    ensures var r := HouseSpec.HouseKeeping(cfg, link, n, now, rnd);
      && b < |r.blocks| && r.blocks[b].state.Ours? && r.blocks[b].timeout == n.blocks[b].timeout
      && r == HouseSpec.Balance(cfg, link, CheckTimeouts(n, now), now, rnd)
  {
    var m := CheckTimeouts(n, now);
    var d := HouseSpec.Balance(cfg, link, m, now, rnd);
    forall i | 0 <= i < |d.blocks| ensures !Stale(cfg, d.blocks[i], now) {
      BalanceKeepsTimeout(cfg, link, m, now, rnd, 0);
      OwnedWasDue(cfg, link, n, now, rnd, i);
    }
    RefreshProofs.RefreshPackets(cfg, link, d, now);
    HouseKeepingTakesExactly(cfg, link, n, now, rnd, b);
    BalanceKeepsTimeout(cfg, link, m, now, rnd, b);
  }
}
