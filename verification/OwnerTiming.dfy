/** An owner that keeps house in time never lets a block it owns expire, and what it sends
    about one of its blocks during a step. Sends are lossless here. */
module OwnerTiming {
  import opened Types
  import opened BlockSpec
  import opened ConsensusSpec
  import HouseSpec
  import DhcpSpec
  import opened RefreshProofs
  import HandlerProofs
  import ClaimProofs
  import opened Bystander
  import opened NodeProofs
  import LeaseProofs

  /** Every owned block was fresh at the given time: its timeout is at least the refresh
      threshold of that time. */
  ghost predicate Fresh(cfg: Config, n: Node, at: int) {
    forall i {:trigger n.blocks[i]} :: 0 <= i < |n.blocks| ==> !Stale(cfg, n.blocks[i], at)
  }

  lemma FreshEarlier(cfg: Config, n: Node, at: int, earlier: int)
    requires Fresh(cfg, n, at) && earlier <= at
    ensures Fresh(cfg, n, earlier)
  {
  }

  lemma AnswerFresh(cfg: Config, link: Link, n: Node, b: nat, now: int)
    requires b < |n.blocks| && Lossless(link)
    ensures Fresh(cfg, Answer(cfg, link, n, b, now), now)
  {
    RefreshCovers(cfg, link, HandlerProofs.Expired(n, b), now);
  }

  lemma {:induction false} HandleFresh(cfg: Config, link: Link, n: Node, p: Packet, sender: int, now: int, k: nat, at: int)
    requires Lossless(link) && k <= |p.payload| && Fresh(cfg, n, at) && at <= now
    ensures Fresh(cfg, HandleFirst(cfg, link, n, p, sender, now, k), at)
  {
    if k > 0 {
      HandleFresh(cfg, link, n, p, sender, now, k - 1, at);
      var m, b := HandleFirst(cfg, link, n, p, sender, now, k - 1), p.payload[k - 1].blockIndex;
      if b < |m.blocks| && m.blocks[b].state.Ours? {
        AnswerFresh(cfg, link, m, b, now);
        FreshEarlier(cfg, Answer(cfg, link, m, b, now), now, at);
      }
    }
  }

  /** Serving clients changes no state and no timeout. */
  lemma ServiceKeepsBlocks(cfg: Config, link: Link, n: Node, a: Action, b: nat)
    requires ClaimProofs.NodeInv(cfg, n) && !a.KeepHouse? && !a.Hear? && b < |n.blocks|
    ensures var r := Step(cfg, link, n, a);
      && |r.blocks| == |n.blocks| && r.trace == n.trace && r.claiming == n.claiming
      && r.blocks[b].state == n.blocks[b].state && r.blocks[b].timeout == n.blocks[b].timeout
      && (!n.blocks[b].state.Ours? ==> r.blocks[b] == n.blocks[b])
  {
    if a.Serve? {
      RequestKeepsBlocks(cfg, n, a.req, a.now);
    }
  }

  lemma RequestKeepsBlocks(cfg: Config, n: Node, req: DhcpSpec.Request, now: int)
    requires |n.blocks| == |n.tables|
    ensures var r := DhcpSpec.HandleRequest(cfg, n, req, now).0;
      r.blocks == n.blocks && r.trace == n.trace && r.claiming == n.claiming
  {
  }

  /** House keeping at the right time lets no owned block time out. */
  lemma NoOwnedBlockExpires(cfg: Config, n: Node, keptAt: int, now: int, i: nat)
    requires Fresh(cfg, n, keptAt) && now <= Threshold(cfg, keptAt) && i < |n.blocks| == |n.tables|
    requires n.blocks[i].state.Ours?
    ensures !TimedOut(n.blocks[i], now)
    ensures CheckTimeouts(n, now).blocks[i] == n.blocks[i]
  {
    assert !Stale(cfg, n.blocks[i], keptAt);
  }

  /** The time of the last house keeping after an action. */
  function KeptAt(a: Action, keptAt: int): int {
    if a.KeepHouse? then a.now else keptAt
  }

  lemma {:induction false} StepFresh(cfg: Config, link: Link, n: Node, a: Action, keptAt: int, clock: int)
    requires ClaimProofs.NodeInv(cfg, n) && Lossless(link) && Fresh(cfg, n, keptAt)
    requires keptAt <= clock <= Clock(a, clock)
    ensures Fresh(cfg, Step(cfg, link, n, a), KeptAt(a, keptAt))
  {
    var r := Step(cfg, link, n, a);
    match a {
      case KeepHouse(now, rnd) =>
        RefreshCovers(cfg, link, HouseSpec.Balance(cfg, link, CheckTimeouts(n, now), now, rnd), now);
      case Hear(now, p, sender) =>
        HandleFresh(cfg, link, n, p, sender, now, |p.payload|, keptAt);
      case _ =>
        forall i | 0 <= i < |r.blocks| ensures !Stale(cfg, r.blocks[i], keptAt) {
          ServiceKeepsBlocks(cfg, link, n, a, i);
        }
    }
  }

  function Clock(a: Action, before: int): int {
    LeaseProofs.Clock(a, before)
  }

  /** Over the run the clock does not go back, and no step is later than the last house
      keeping plus h. */
  ghost predicate OnTime(a: Action, keptAt: int, clock: int, h: int) {
    clock <= Clock(a, clock) <= keptAt + h
  }

  ghost predicate RunOnTime(actions: seq<Action>, keptAt: int, clock: int, h: int)
    decreases |actions|
  {
    actions == [] ||
    (OnTime(actions[0], keptAt, clock, h)
     && RunOnTime(actions[1..], KeptAt(actions[0], keptAt), Clock(actions[0], clock), h))
  }

  /** At every house keeping of the run, block_check_timeouts leaves every owned block as it is. */
  ghost predicate NeverExpires(cfg: Config, link: Link, n: Node, actions: seq<Action>)
    requires ClaimProofs.NodeInv(cfg, n)
    decreases |actions|
  {
    actions == [] ||
    ((actions[0].KeepHouse? ==> OwnedSurvive(n, actions[0].now))
     && NeverExpires(cfg, link, Step(cfg, link, n, actions[0]), actions[1..]))
  }

  ghost predicate OwnedSurvive(n: Node, now: int)
    requires |n.blocks| == |n.tables|
  {
    forall i :: 0 <= i < |n.blocks| && n.blocks[i].state.Ours? ==> CheckTimeouts(n, now).blocks[i] == n.blocks[i]
  }

  /** With lossless sends and house keeping at least every h seconds, h at most the block
      timeout less the refresh gap, no owned block ever times out at its owner. */
  lemma {:induction false} OwnedNeverExpires(cfg: Config, link: Link, n: Node, actions: seq<Action>,
                                             keptAt: int, clock: int, h: int)
    requires ClaimProofs.NodeInv(cfg, n) && Lossless(link) && Fresh(cfg, n, keptAt) && keptAt <= clock
    requires h <= cfg.blockTimeout - RefreshGap(cfg) && RunOnTime(actions, keptAt, clock, h)
    ensures NeverExpires(cfg, link, n, actions)
    decreases |actions|
  {
    if actions != [] {
      var a := actions[0];
      if a.KeepHouse? {
        forall i | 0 <= i < |n.blocks| && n.blocks[i].state.Ours?
          ensures CheckTimeouts(n, a.now).blocks[i] == n.blocks[i]
        {
          NoOwnedBlockExpires(cfg, n, keptAt, a.now, i);
        }
      }
      StepFresh(cfg, link, n, a, keptAt, clock);
      OwnedNeverExpires(cfg, link, Step(cfg, link, n, a), actions[1..], KeptAt(a, keptAt), Clock(a, clock), h);
    }
  }

  // ---------------------------------------------------------------- what is sent about b

  /** A claim of this node: its id, and its block timeout in every entry. */
  predicate ClaimOf(cfg: Config, p: Packet) {
    p.command.UpdateClaim? && p.nodeId == cfg.nodeId
    && forall k :: 0 <= k < |p.payload| ==> p.payload[k].timeout == cfg.blockTimeout
  }

  /** From n to r everything sent about b is a claim, and the timeout of b moves to a full
      block timeout from now exactly when b was announced. */
  ghost predicate About(cfg: Config, n: Node, r: Node, b: nat, now: int) {
    && b < |n.blocks| == |r.blocks| && n.trace <= r.trace
    && (forall k :: |n.trace| <= k < |r.trace| && Announces(r.trace[k], b) ==> ClaimOf(cfg, r.trace[k].packet))
    && r.blocks[b].timeout == if Announced(r.trace, |n.trace|, b) then now + cfg.blockTimeout else n.blocks[b].timeout
  }

  lemma AboutTrans(cfg: Config, n: Node, m: Node, r: Node, b: nat, now: int)
    requires About(cfg, n, m, b, now) && About(cfg, m, r, b, now)
    ensures About(cfg, n, r, b, now)
  {
    if Announced(m.trace, |n.trace|, b) {
      var k :| |n.trace| <= k < |m.trace| && Announces(m.trace[k], b);
      assert Announces(r.trace[k], b);
    }
    forall k | |n.trace| <= k < |r.trace| && Announces(r.trace[k], b) ensures ClaimOf(cfg, r.trace[k].packet) {
      if k < |m.trace| { assert r.trace[k] == m.trace[k]; }
    }
  }

  lemma QuietAbout(cfg: Config, n: Node, r: Node, b: nat, now: int)
    requires b < |n.blocks| == |r.blocks| && r.blocks[b].timeout == n.blocks[b].timeout && r.trace == n.trace
    ensures About(cfg, n, r, b, now)
  {
  }

  lemma RefreshAbout(cfg: Config, link: Link, n: Node, b: nat, now: int)
    requires b < |n.blocks|
    ensures About(cfg, n, Refresh(cfg, link, n, now), b, now)
  {
    var r := Refresh(cfg, link, n, now);
    RefreshSteps(cfg, link, n, now);
    forall k | |n.trace| <= k < |r.trace| ensures ClaimOf(cfg, r.trace[k].packet) {
      assert OwnClaim(cfg, n.blocks, r.trace[k]);
    }
  }

  lemma AnswerAbout(cfg: Config, link: Link, n: Node, i: nat, b: nat, now: int)
    requires b < |n.blocks| && i < |n.blocks| && n.blocks[i].state.Ours? && Lossless(link) && now > 0
    ensures About(cfg, n, Answer(cfg, link, n, i, now), b, now)
  {
    var m := HandlerProofs.Expired(n, i);
    RefreshAbout(cfg, link, m, b, now);
    HandlerProofs.AnswerEffect(cfg, link, n, i, now);
    assert Answer(cfg, link, n, i, now) == Refresh(cfg, link, m, now);
  }

  lemma EntryAbout(cfg: Config, link: Link, n: Node, p: Packet, sender: int, e: Payload, b: nat, now: int)
    requires b < |n.blocks| && n.blocks[b].state.Ours? && Lossless(link) && now > 0
    requires var r := Entry(cfg, link, n, p, sender, e, now); b < |r.blocks| && r.blocks[b].state.Ours?
    ensures About(cfg, n, Entry(cfg, link, n, p, sender, e, now), b, now)
  {
    var i := e.blockIndex;
    if i < |n.blocks| && n.blocks[i].state.Ours? {
      AnswerAbout(cfg, link, n, i, b, now);
    }
    if i != b {
      QuietAbout(cfg, n, n, b, now);
    }
  }

  lemma {:induction false} HandleAbout(cfg: Config, link: Link, n: Node, p: Packet, sender: int, b: nat, now: int, k: nat)
    requires b < |n.blocks| && n.blocks[b].state.Ours? && Lossless(link) && now > 0 && k <= |p.payload|
    requires var r := HandleFirst(cfg, link, n, p, sender, now, k); b < |r.blocks| && r.blocks[b].state.Ours?
    ensures About(cfg, n, HandleFirst(cfg, link, n, p, sender, now, k), b, now)
  {
    if k > 0 {
      var m := HandleFirst(cfg, link, n, p, sender, now, k - 1);
      HandlerProofs.HandleEffect(cfg, link, n, p, sender, now, k - 1);
      HandlerProofs.EntryEffect(cfg, link, m, p, sender, p.payload[k - 1], now);
      HandleAbout(cfg, link, n, p, sender, b, now, k - 1);
      EntryAbout(cfg, link, m, p, sender, p.payload[k - 1], b, now);
      AboutTrans(cfg, n, m, HandleFirst(cfg, link, n, p, sender, now, k), b, now);
    }
  }

  lemma BalanceAbout(cfg: Config, link: Link, n: Node, b: nat, now: int, rnd: nat -> nat)
    requires b < |n.blocks| == |n.tables| && n.blocks[b].state.Ours? && b !in n.claiming
    requires var d := HouseSpec.Balance(cfg, link, n, now, rnd); b < |d.blocks| && d.blocks[b].state.Ours?
    ensures About(cfg, n, HouseSpec.Balance(cfg, link, n, now, rnd), b, now)
  {
    var needed := HouseSpec.BlocksNeeded(cfg, NumFree(n.blocks, n.tables));
    if needed < 0 {
      QuietAbout(cfg, n, DropUnused(cfg, n, now), b, now);
    } else {
      var m := if n.needlessMarks then UnmarkNeedless(n) else n;
      QuietAbout(cfg, n, m, b, now);
      if needed > 0 {
        ClaimAside(cfg, link, m, needed, now, rnd, b);
        assert About(cfg, m, BlockClaim(cfg, link, m, needed, now, rnd), b, now);
        AboutTrans(cfg, n, m, BlockClaim(cfg, link, m, needed, now, rnd), b, now);
      }
    }
  }

  lemma HouseKeepingAbout(cfg: Config, link: Link, n: Node, b: nat, now: int, rnd: nat -> nat)
    requires ClaimProofs.NodeInv(cfg, n) && b < |n.blocks| && n.blocks[b].state.Ours?
    requires var r := HouseSpec.HouseKeeping(cfg, link, n, now, rnd); b < |r.blocks| && r.blocks[b].state.Ours?
    ensures About(cfg, n, HouseSpec.HouseKeeping(cfg, link, n, now, rnd), b, now)
  {
    var e := CheckTimeouts(n, now);
    var d := HouseSpec.Balance(cfg, link, e, now, rnd);
    assert b !in n.claiming;
    BalanceLeavesTables(cfg, link, e, now, rnd, b);
    RefreshSteps(cfg, link, d, now);
    QuietAbout(cfg, n, e, b, now);
    BalanceAbout(cfg, link, e, b, now, rnd);
    RefreshAbout(cfg, link, d, b, now);
    AboutTrans(cfg, n, e, d, b, now);
    AboutTrans(cfg, n, d, Refresh(cfg, link, d, now), b, now);
  }

  /** One step of a node that owns b before and after. */
  lemma {:induction false} StepAbout(cfg: Config, link: Link, n: Node, a: Action, b: nat, clock: int)
    requires ClaimProofs.NodeInv(cfg, n) && Lossless(link) && b < |n.blocks| && n.blocks[b].state.Ours?
    requires 0 < clock <= Clock(a, clock)
    requires Step(cfg, link, n, a).blocks[b].state.Ours?
    ensures About(cfg, n, Step(cfg, link, n, a), b, Clock(a, clock))
  {
    match a
    case KeepHouse(now, rnd) => HouseKeepingAbout(cfg, link, n, b, now, rnd);
    case Hear(now, p, sender) => HandleAbout(cfg, link, n, p, sender, b, now, |p.payload|);
    case _ =>
      ServiceKeepsBlocks(cfg, link, n, a, b);
      QuietAbout(cfg, n, Step(cfg, link, n, a), b, Clock(a, clock));
  }
}
