/** A renewal forwarded to the peer that claims the block, and the acknowledgement that comes back:
    whether the cached lease table is still there when it does. */
module Forwarding {
  import opened Types
  import LeaseTable
  import opened BlockSpec
  import opened ClaimProofs
  import opened DhcpSpec
  import HouseSpec
  import RefreshProofs
  import Address
  import NodeProofs
  import Bystander
  import Expiry
  import Takeover
  import RequestProofs
  import LeaseProofs
  import OwnershipProofs

  // ---------------------------------------------------------------- tables in house keeping

  /** The first pass of block_claim leaves the table of a block alone that is not due. */
  lemma {:induction false} SettleTables(cfg: Config, n: Node, todo: seq<nat>, now: int, b: nat)
    requires b < |n.blocks| == |n.tables| && Distinct(todo)
    requires b in todo ==> n.blocks[b].claimingCounts != CLAIMS_BEFORE_OWNING
    ensures var s := Settle(cfg, n, todo, now);
      |s.node.blocks| == |s.node.tables| == |n.blocks| && s.node.tables[b] == n.tables[b]
    decreases |todo|
  {
    if todo != [] {
      var less := n.(amount := (n.amount - 1) % 0x100);
      SettleTables(cfg, n, todo[1..], now, b);
      SettleTables(cfg, less, todo[1..], now, b);
      if todo[0] < |n.blocks| && todo[0] != b {
        SettleTables(cfg, OwnBlock(cfg, less, todo[0], now), todo[1..], now, b);
      }
    }
  }

  lemma PickedTables(cfg: Config, s: Settled, num: int, now: int, rnd: nat -> nat, b: nat)
    requires b < |s.node.blocks| == |s.node.tables|
    ensures Picked(cfg, s, num, rnd, now).tables == s.node.tables
  {
    var m := Listing(s.node, s.kept);
    if num - s.taken > m.amount {
      Bystander.SelectGains(cfg, m, num - s.taken - m.amount, rnd, now, b);
    }
  }

  lemma ClaimTables(cfg: Config, link: Link, n: Node, num: int, now: int, rnd: nat -> nat, b: nat)
    requires b < |n.blocks| == |n.tables| && Distinct(n.claiming) && !Bystander.Due(n, b)
    ensures var r := BlockClaim(cfg, link, n, num, now, rnd); |r.tables| == |n.tables| && r.tables[b] == n.tables[b]
  {
    SettleTables(cfg, n, n.claiming, now, b);
    PickedTables(cfg, Settle(cfg, n, n.claiming, now), num, now, rnd, b);
  }

  lemma BalanceTables(cfg: Config, link: Link, n: Node, now: int, rnd: nat -> nat, b: nat)
    requires NodeInv(cfg, n) && b < |n.blocks| && !n.blocks[b].state.Ours? && !(Bystander.Due(n, b) && Takeover.Needy(cfg, n))
    ensures var r := HouseSpec.Balance(cfg, link, n, now, rnd); |r.tables| == |n.tables| && r.tables[b] == n.tables[b]
  {
    var needed := HouseSpec.BlocksNeeded(cfg, NumFree(n.blocks, n.tables));
    if needed > 0 {
      ClaimTables(cfg, link, if n.needlessMarks then UnmarkNeedless(n) else n, needed, now, rnd, b);
    }
  }

  /** House keeping that does not take the block drops its table if the block lapses, and only expires
      leases in it otherwise. */
  lemma KeepingTables(cfg: Config, link: Link, n: Node, now: int, rnd: nat -> nat, b: nat)
    requires NodeInv(cfg, n) && b < |n.blocks| && n.blocks[b].state.Claimed? && n.tables[b].Some?
    requires !(Bystander.Due(n, b) && Takeover.Claims(cfg, n, now))
    ensures var r := HouseSpec.HouseKeeping(cfg, link, n, now, rnd);
      && |r.blocks| == |r.tables| == |n.blocks|
      && r.tables[b] == if Expiry.Lapses(n.blocks[b], n.tables[b], now) then None
                        else Some(LeaseTable.Expire(n.tables[b].value, now))
  {
    var e := CheckTimeouts(n, now);
    NodeProofs.TimeoutsKeepInv(cfg, n, now);
    NodeProofs.HouseKeepingKeepsInv(cfg, link, n, now, rnd);
    Expiry.TableStays(cfg, n, now, b);
    Expiry.LapsesExactly(cfg, n, now, b);
    BalanceTables(cfg, link, e, now, rnd, b);
    RefreshProofs.RefreshSteps(cfg, link, HouseSpec.Balance(cfg, link, e, now, rnd), now);
  }

  // ---------------------------------------------------------------- the acknowledgement

  /** The node takes the block in its house keeping at `later`. */
  ghost predicate Taken(cfg: Config, n: Node, b: nat, later: int)
    requires b < |n.blocks| == |n.tables|
  {
    Bystander.Due(n, b) && Takeover.Claims(cfg, n, later)
  }

  lemma ForwardedLasts(cfg: Config, n: Node, m: Node, req: Request, now: int, b: nat, j: nat, later: int)
    requires b < |n.blocks| && RequestProofs.Remembered(cfg, n, m, req, now, b, j)
    requires later <= n.blocks[b].timeout && later <= LeaseEnd(cfg, now)
    ensures !Expiry.Lapses(m.blocks[b], m.tables[b], later)
  {
    assert m.tables[b].value[j] == Slot(m, b, j);
  }

  /** After a renewal is forwarded and the node has kept house, the acknowledgement finds one of three
      things. If the node has taken the block, nothing; if the block has lapsed, no table; and in
      every other case the slot is leased to the client and the client is told the address it asked for. */
  lemma AckFinds(cfg: Config, link: Link, n: Node, req: Request, now: int, later: int, rnd: nat -> nat, last: int)
    requires NodeInv(cfg, n) && HandleRequest(cfg, n, req, now).1.Forwarded?
    ensures Wanted(req).Some? && FindLease(cfg, n.blocks, Wanted(req).value).Foreign?
    ensures var (f, m) := (FindLease(cfg, n.blocks, Wanted(req).value), HandleRequest(cfg, n, req, now).0);
      && m.blocks == n.blocks && |m.tables| == |m.blocks|
      && (var (b, r) := (f.block, HouseSpec.HouseKeeping(cfg, link, m, later, rnd));
          && |r.blocks| == |r.tables|
          && (var (after, found) := RemoteAck(cfg, r, req, last);
              if Taken(cfg, m, b, later) then after == r && found.NotFound?
              else if Expiry.Lapses(m.blocks[b], m.tables[b], later) then after == r && found.NoTable?
              else && found == Answered(Ack(Wanted(req).value)) && HasSlot(after, b, f.slot)
                   && Slot(after, b, f.slot) == Lease(req.chaddr, Leased, req.xid, LeaseEnd(cfg, last))))
      && (later <= n.blocks[f.block].timeout && later <= LeaseEnd(cfg, now) ==>
            !Expiry.Lapses(m.blocks[f.block], m.tables[f.block], later))
  {
    var (addr, m) := (Wanted(req).value, HandleRequest(cfg, n, req, now).0);
    var f := FindLease(cfg, n.blocks, addr);
    RequestProofs.AnswerLeaves(cfg, n, req, now);
    NodeProofs.RequestKeepsInv(cfg, n, req, now);
    AckAfterKeeping(cfg, link, m, req, f.block, f.slot, later, rnd, last);
    if later <= n.blocks[f.block].timeout && later <= LeaseEnd(cfg, now) {
      ForwardedLasts(cfg, n, m, req, now, f.block, f.slot, later);
    }
  }

  lemma AckAfterKeeping(cfg: Config, link: Link, m: Node, req: Request, b: nat, j: nat, later: int, rnd: nat -> nat, last: int)
    requires NodeInv(cfg, m) && Wanted(req).Some? && FindLease(cfg, m.blocks, Wanted(req).value) == Foreign(b, j)
    requires m.blocks[b].state.Claimed? && m.tables[b].Some?
    ensures var r := HouseSpec.HouseKeeping(cfg, link, m, later, rnd);
      && |r.blocks| == |r.tables|
      && (var (after, found) := RemoteAck(cfg, r, req, last);
          if Taken(cfg, m, b, later) then after == r && found.NotFound?
          else if Expiry.Lapses(m.blocks[b], m.tables[b], later) then after == r && found.NoTable?
          else && found == Answered(Ack(Wanted(req).value)) && HasSlot(after, b, j)
               && Slot(after, b, j) == Lease(req.chaddr, Leased, req.xid, LeaseEnd(cfg, last)))
  {
    var r := HouseSpec.HouseKeeping(cfg, link, m, later, rnd);
    NodeProofs.HouseKeepingKeepsInv(cfg, link, m, later, rnd);
    Takeover.HouseKeepingTakesExactly(cfg, link, m, later, rnd, b);
    if !Taken(cfg, m, b, later) {
      KeepingTables(cfg, link, m, later, rnd, b);
      assert FindLease(cfg, r.blocks, Wanted(req).value) == Foreign(b, j);
      assert Placed(cfg, b, r.blocks[b]);
      Address.FoundIsThere(cfg, r.blocks, Wanted(req).value);
      assert TableFits(cfg, m.blocks[b], m.tables[b]);
    }
  }

  // ---------------------------------------------------------------- over a run

  /** A block of another node, of which leases are cached. */
  predicate Cached(n: Node, b: nat) {
    b < |n.blocks| == |n.tables| && !n.blocks[b].state.Ours? && n.tables[b].Some?
  }

  /** block_check_timeouts drops the cached table. */
  ghost predicate Drops(n: Node, b: nat, now: int)
    requires Cached(n, b)
  {
    TimedOut(n.blocks[b], now) || Expiry.AllDead(n.tables[b].value, now)
  }

  lemma KeepingCaches(cfg: Config, link: Link, n: Node, now: int, rnd: nat -> nat, b: nat)
    requires NodeInv(cfg, n) && Cached(n, b) && !Drops(n, b, now) && !Taken(cfg, n, b, now)
    ensures Cached(HouseSpec.HouseKeeping(cfg, link, n, now, rnd), b)
  {
    var e := CheckTimeouts(n, now);
    NodeProofs.TimeoutsKeepInv(cfg, n, now);
    NodeProofs.HouseKeepingKeepsInv(cfg, link, n, now, rnd);
    Expiry.LeasesLapse(cfg, n, now, b);
    Takeover.TimeoutsKeepDue(n, now, b);
    Takeover.HouseKeepingTakesExactly(cfg, link, n, now, rnd, b);
    BalanceTables(cfg, link, e, now, rnd, b);
    RefreshProofs.RefreshSteps(cfg, link, HouseSpec.Balance(cfg, link, e, now, rnd), now);
  }

  lemma ServingCaches(cfg: Config, link: Link, n: Node, a: NodeProofs.Action, b: nat)
    requires NodeInv(cfg, n) && Cached(n, b) && !a.KeepHouse? && !a.Hear?
    ensures Cached(NodeProofs.Step(cfg, link, n, a), b)
  {
    if a.Serve? { ServeCaches(cfg, n, a.req, a.now, b); }
    OwnershipProofs.StepLogged(cfg, link, n, a);
  }

  lemma ServeCaches(cfg: Config, n: Node, req: Request, now: int, b: nat)
    requires NodeInv(cfg, n) && Cached(n, b)
    ensures Cached(HandleRequest(cfg, n, req, now).0, b)
  {
  }

  /** No house keeping of the run drops the cached table of b or takes the block. */
  ghost predicate Undropped(cfg: Config, link: Link, n: Node, actions: seq<NodeProofs.Action>, b: nat)
    requires NodeInv(cfg, n)
    decreases |actions|
  {
    actions == [] ||
    (&& (actions[0].KeepHouse? && Cached(n, b) ==> !Drops(n, b, actions[0].now) && !Taken(cfg, n, b, actions[0].now))
     && Undropped(cfg, link, NodeProofs.Step(cfg, link, n, actions[0]), actions[1..], b))
  }

  lemma {:induction false} StillCached(cfg: Config, link: Link, n: Node, actions: seq<NodeProofs.Action>, b: nat)
    requires NodeInv(cfg, n) && Cached(n, b) && Undropped(cfg, link, n, actions, b)
    ensures Cached(LeaseProofs.RunFrom(cfg, link, n, actions), b)
    decreases |actions|
  {
    if actions != [] {
      var a := actions[0];
      match a {
        case KeepHouse(now, rnd) => KeepingCaches(cfg, link, n, now, rnd, b);
        case Hear(now, p, sender) =>
          LeaseProofs.HandleLeavesTables(cfg, link, n, p, sender, now, |p.payload|);
          OwnershipProofs.StepLogged(cfg, link, n, a);
        case _ => ServingCaches(cfg, link, n, a, b);
      }
      StillCached(cfg, link, NodeProofs.Step(cfg, link, n, a), actions[1..], b);
    }
  }

  lemma CachedAnswers(cfg: Config, n: Node, req: Request, b: nat, j: nat, blocks: seq<Block>, now: int)
    requires NodeInv(cfg, n) && Cached(n, b) && Wanted(req).Some? && |blocks| == |n.blocks|
    requires FindLease(cfg, blocks, Wanted(req).value) == Foreign(b, j)
    ensures var (after, found) := RemoteAck(cfg, n, req, now);
      && found == Answered(Ack(Wanted(req).value)) && HasSlot(after, b, j)
      && Slot(after, b, j) == Lease(req.chaddr, Leased, req.xid, LeaseEnd(cfg, now))
  {
    assert Placed(cfg, b, n.blocks[b]) && TableFits(cfg, n.blocks[b], n.tables[b]);
    assert FindLease(cfg, n.blocks, Wanted(req).value) == Foreign(b, j);
    Address.FoundIsThere(cfg, n.blocks, Wanted(req).value);
  }

  /** Whatever happens between a forwarded renewal and its acknowledgement, as long as no house keeping
      drops the cached table or takes the block: the slot is leased to the client, and the client is
      told the address it asked for. */
  lemma {:induction false} AckFindsAfterRun(cfg: Config, link: Link, n: Node, req: Request, now: int,
                                            actions: seq<NodeProofs.Action>, last: int)
    requires NodeInv(cfg, n) && HandleRequest(cfg, n, req, now).1.Forwarded?
    ensures Wanted(req).Some? && FindLease(cfg, n.blocks, Wanted(req).value).Foreign?
    ensures var (f, m) := (FindLease(cfg, n.blocks, Wanted(req).value), HandleRequest(cfg, n, req, now).0);
      && NodeInv(cfg, m)
      && (Undropped(cfg, link, m, actions, f.block) ==>
            var (after, found) := RemoteAck(cfg, LeaseProofs.RunFrom(cfg, link, m, actions), req, last);
            && found == Answered(Ack(Wanted(req).value)) && HasSlot(after, f.block, f.slot)
            && Slot(after, f.block, f.slot) == Lease(req.chaddr, Leased, req.xid, LeaseEnd(cfg, last)))
  {
    var (f, m) := (FindLease(cfg, n.blocks, Wanted(req).value), HandleRequest(cfg, n, req, now).0);
    RequestProofs.AnswerLeaves(cfg, n, req, now);
    NodeProofs.RequestKeepsInv(cfg, n, req, now);
    if Undropped(cfg, link, m, actions, f.block) {
      StillCached(cfg, link, m, actions, f.block);
      CachedAnswers(cfg, LeaseProofs.RunFrom(cfg, link, m, actions), req, f.block, f.slot, n.blocks, last);
    }
  }
}
