/** How long a node has had its blocks. The time of taking is recorded in first_claimed and stays there, so
    that the block that serves is the one taken earliest, and the one given up the one taken latest. */
module Seniority {
  import opened Types
  import LeaseTable
  import opened BlockSpec
  import opened ConsensusSpec
  import opened ClaimProofs
  import HouseSpec
  import RefreshProofs
  import HandlerProofs
  import opened Bystander
  import Takeover
  import Upkeep
  import Expiry
  import DhcpSpec
  import opened NodeProofs
  import OwnershipProofs
  import DiscoverProofs
  import Address

  // ---------------------------------------------------------------- taking

  /** The block as block_own leaves it, and its table. */
  function Taken(cfg: Config, b: Block, now: int): Block {
    b.(state := Ours, firstClaimed := now, nodeId := cfg.nodeId)
  }

  function TakenTable(b: Block, t: Option<seq<Lease>>): Option<seq<Lease>> {
    if t.Some? then t else Some(seq(b.subnetLen, _ => Lease(NO_CHADDR, Available, 0, 0)))
  }

  ghost predicate TakenFrom(cfg: Config, n: Node, r: Node, b: nat, now: int) {
    && b < |n.blocks| == |n.tables| == |r.blocks| == |r.tables|
    && r.blocks[b] == Taken(cfg, n.blocks[b], now) && r.tables[b] == TakenTable(n.blocks[b], n.tables[b])
  }

  lemma {:induction false} SettleTakes(cfg: Config, n: Node, todo: seq<nat>, now: int, b: nat)
    requires b < |n.blocks| == |n.tables| && b in todo && Distinct(todo)
    requires n.blocks[b].claimingCounts == CLAIMS_BEFORE_OWNING
    ensures var s := Settle(cfg, n, todo, now); TakenFrom(cfg, n, s.node, b, now) && b !in s.kept
    decreases |todo|
  {
    var less := n.(amount := (n.amount - 1) % 0x100);
    if todo[0] == b {
      var m := OwnBlock(cfg, less, b, now);
      assert m.tables[b] == TakenTable(n.blocks[b], n.tables[b]);
      SettleAside(cfg, m, todo[1..], now, b);
    } else {
      SettleTakes(cfg, n, todo[1..], now, b);
      SettleTakes(cfg, less, todo[1..], now, b);
      if todo[0] < |n.blocks| {
        SettleTakes(cfg, OwnBlock(cfg, less, todo[0], now), todo[1..], now, b);
      }
    }
  }

  lemma ClaimTakes(cfg: Config, link: Link, n: Node, num: int, now: int, rnd: nat -> nat, b: nat)
    requires NodeInv(cfg, n) && b < |n.blocks| && Due(n, b)
    ensures TakenFrom(cfg, n, BlockClaim(cfg, link, n, num, now, rnd), b, now)
  {
    var s := Settle(cfg, n, n.claiming, now);
    SettleTakes(cfg, n, n.claiming, now, b);
    PickedAside(cfg, s, num, now, rnd, b);
    InquiryAside(cfg, link, Picked(cfg, s, num, rnd, now), b);
  }

  /** Every block that house keeping takes is dated with its time and named after the node; its table is
      the cached one, or has every lease available. */
  lemma {:induction false} TakenIsDated(cfg: Config, link: Link, n: Node, now: int, rnd: nat -> nat, b: nat)
    requires NodeInv(cfg, n) && b < |n.blocks| && !n.blocks[b].state.Ours?
    requires var r := HouseSpec.HouseKeeping(cfg, link, n, now, rnd); b < |r.blocks| && r.blocks[b].state.Ours?
    ensures var (e, r) := (CheckTimeouts(n, now), HouseSpec.HouseKeeping(cfg, link, n, now, rnd));
      && |r.blocks| == |r.tables|
      && r.blocks[b].firstClaimed == now && r.blocks[b].nodeId == cfg.nodeId
      && r.tables[b] == if e.tables[b].Some? then e.tables[b]
                        else Some(seq(cfg.blockSize, _ => Lease(NO_CHADDR, Available, 0, 0)))
  {
    var e := CheckTimeouts(n, now);
    NodeProofs.TimeoutsKeepInv(cfg, n, now);
    Takeover.HouseKeepingTakesExactly(cfg, link, n, now, rnd, b);
    Takeover.TimeoutsKeepDue(n, now, b);
    UnmarkKeepsInv(cfg, e);
    var u := if e.needlessMarks then UnmarkNeedless(e) else e;
    assert Placed(cfg, b, e.blocks[b]);
    ClaimTakes(cfg, link, u, HouseSpec.BlocksNeeded(cfg, NumFree(e.blocks, e.tables)), now, rnd, b);
    RefreshProofs.RefreshSteps(cfg, link, HouseSpec.Balance(cfg, link, e, now, rnd), now);
  }

  // ---------------------------------------------------------------- keeping

  lemma {:induction false} HandleKeepsDate(cfg: Config, link: Link, n: Node, p: Packet, sender: int, now: int, k: nat, b: nat)
    requires k <= |p.payload| && b < |n.blocks|
    ensures var r := HandleFirst(cfg, link, n, p, sender, now, k);
      |r.blocks| == |n.blocks| && r.blocks[b].firstClaimed == n.blocks[b].firstClaimed
  {
    if k > 0 {
      HandleKeepsDate(cfg, link, n, p, sender, now, k - 1, b);
      var m, i := HandleFirst(cfg, link, n, p, sender, now, k - 1), p.payload[k - 1].blockIndex;
      if i < |m.blocks| { RefreshProofs.RefreshSteps(cfg, link, HandlerProofs.Expired(m, i), now); }
    }
  }

  lemma KeepingKeepsDate(cfg: Config, link: Link, n: Node, now: int, rnd: nat -> nat, b: nat)
    requires NodeInv(cfg, n) && b < |n.blocks| && n.blocks[b].state.Ours?
    requires var r := HouseSpec.HouseKeeping(cfg, link, n, now, rnd); b < |r.blocks| && r.blocks[b].state.Ours?
    ensures HouseSpec.HouseKeeping(cfg, link, n, now, rnd).blocks[b].firstClaimed == n.blocks[b].firstClaimed
  {
    var e := CheckTimeouts(n, now);
    assert b in n.claiming ==> Listable(n, b);
    BalanceLeavesTables(cfg, link, e, now, rnd, b);
    RefreshProofs.RefreshSteps(cfg, link, HouseSpec.Balance(cfg, link, e, now, rnd), now);
    Expiry.BlockAfterExpiry(cfg, n, now, b);
    Upkeep.OwnedBlockAfter(cfg, link, n, now, rnd, b);
  }

  /** Nothing that happens to a node changes the date of a block that it keeps. */
  lemma {:induction false} DateStays(cfg: Config, link: Link, n: Node, a: Action, b: nat)
    requires NodeInv(cfg, n) && b < |n.blocks| && n.blocks[b].state.Ours?
    requires Step(cfg, link, n, a).blocks[b].state.Ours?
    ensures Step(cfg, link, n, a).blocks[b].firstClaimed == n.blocks[b].firstClaimed
  {
    match a
    case KeepHouse(now, rnd) => KeepingKeepsDate(cfg, link, n, now, rnd, b);
    case Hear(now, p, sender) => HandleKeepsDate(cfg, link, n, p, sender, now, |p.payload|, b);
    case _ => ServiceKeepsDate(cfg, link, n, a, b);
  }

  lemma ServiceKeepsDate(cfg: Config, link: Link, n: Node, a: Action, b: nat)
    requires NodeInv(cfg, n) && !a.KeepHouse? && !a.Hear? && b < |n.blocks|
    ensures Step(cfg, link, n, a).blocks[b].firstClaimed == n.blocks[b].firstClaimed
  {
    if a.Serve? { RequestKeepsDates(cfg, n, a.req, a.now); }
  }

  lemma RequestKeepsDates(cfg: Config, n: Node, req: DhcpSpec.Request, now: int)
    requires |n.blocks| == |n.tables|
    ensures DhcpSpec.HandleRequest(cfg, n, req, now).0.blocks == n.blocks
  {
  }

  // ---------------------------------------------------------------- over runs

  predicate Owns(n: Node, b: nat) {
    b < |n.blocks| && n.blocks[b].state.Ours?
  }

  /** The time of the house keeping in which the node came by the block, that it has had ever since. */
  ghost function TakenAt(cfg: Config, link: Link, start: int, actions: seq<Action>, b: nat): int {
    if actions == [] then start
    else
      var front, last := actions[..|actions| - 1], actions[|actions| - 1];
      if Owns(Run(cfg, link, start, front), b) || !last.KeepHouse? then TakenAt(cfg, link, start, front, b) else last.now
  }

  lemma {:induction false} DateIsTime(cfg: Config, link: Link, start: int, actions: seq<Action>, b: nat)
    requires Owns(Run(cfg, link, start, actions), b)
    ensures Run(cfg, link, start, actions).blocks[b].firstClaimed == TakenAt(cfg, link, start, actions, b)
  {
    if actions != [] {
      var front, a := actions[..|actions| - 1], actions[|actions| - 1];
      var m := Run(cfg, link, start, front);
      if Owns(m, b) {
        DateIsTime(cfg, link, start, front, b);
        DateStays(cfg, link, m, a, b);
      } else {
        OwnershipProofs.StepLogged(cfg, link, m, a);
        TakenIsDated(cfg, link, m, a.now, a.rnd, b);
      }
    }
  }

  /** Some slot of block b is offered. */
  ghost predicate OfferedFrom(cfg: Config, reply: DhcpSpec.Reply, b: nat) {
    exists j: nat :: j < cfg.blockSize && reply == DhcpSpec.Offer(Address.AddressOf(cfg, b, j))
  }

  /** After any run, a discover is offered a lease of a serving block that the node took no later than any
      other serving one; there is no offer exactly when no block serves. */
  lemma {:induction false} OffersFromOldest(cfg: Config, link: Link, start: int, actions: seq<Action>,
                                            chaddr: seq<byte>, xid: uint32, replied: bool, now: int)
    ensures var n := Run(cfg, link, start, actions);
      Step(cfg, link, n, Discover(now, chaddr, xid, replied)) == DhcpSpec.Discover(cfg, n, chaddr, xid, replied, now).0
    ensures var n := Run(cfg, link, start, actions); var reply := DhcpSpec.Discover(cfg, n, chaddr, xid, replied, now).1;
      if reply.Silent? then forall i :: 0 <= i < |n.blocks| ==> !Serves(n.blocks[i], n.tables[i])
      else exists b: nat :: b < |n.blocks| && Serves(n.blocks[b], n.tables[b]) && OfferedFrom(cfg, reply, b)
             && forall i: nat :: i < |n.blocks| && Serves(n.blocks[i], n.tables[i]) ==>
                  TakenAt(cfg, link, start, actions, b) <= TakenAt(cfg, link, start, actions, i)
  {
    var n := Run(cfg, link, start, actions);
    FindsOldest(n.blocks, n.tables);
    match FindFreeLeases(n.blocks, n.tables)
    case None =>
    case Some(b) =>
      DiscoverProofs.OldestServes(n, b);
      var j := LeaseTable.First(n.tables[b].value, Available);
      assert Placed(cfg, b, n.blocks[b]) && TableFits(cfg, n.blocks[b], n.tables[b]);
      assert DhcpSpec.Discover(cfg, n, chaddr, xid, replied, now).1 == DhcpSpec.Offer(Address.AddressOf(cfg, b, j));
      DateIsTime(cfg, link, start, actions, b);
      forall i: nat | i < |n.blocks| && Serves(n.blocks[i], n.tables[i])
        ensures TakenAt(cfg, link, start, actions, b) <= TakenAt(cfg, link, start, actions, i)
      {
        DateIsTime(cfg, link, start, actions, i);
      }
  }

  /** After any run, the block that a house keeping gives up for lack of need is an owned one without a lease,
      and the node took no other such block later. */
  lemma {:induction false} GivesUpYoungest(cfg: Config, link: Link, start: int, actions: seq<Action>,
                                           now: int, rnd: nat -> nat, b: nat, i: nat)
    requires var e := CheckTimeouts(Run(cfg, link, start, actions), now);
      && b < |e.blocks| && e.blocks[b].state.Ours?
      && i < |e.blocks| && Unused(cfg, e.blocks[i], e.tables[i])
    requires !Owns(HouseSpec.HouseKeeping(cfg, link, Run(cfg, link, start, actions), now, rnd), b)
    ensures var e := CheckTimeouts(Run(cfg, link, start, actions), now);
      && Unused(cfg, e.blocks[b], e.tables[b])
      && TakenAt(cfg, link, start, actions, i) <= TakenAt(cfg, link, start, actions, b)
  {
    var n := Run(cfg, link, start, actions);
    Upkeep.OwnedBlockAfter(cfg, link, n, now, rnd, b);
    Expiry.BlockAfterExpiry(cfg, n, now, b);
    Expiry.BlockAfterExpiry(cfg, n, now, i);
    DateIsTime(cfg, link, start, actions, b);
    DateIsTime(cfg, link, start, actions, i);
  }
}
