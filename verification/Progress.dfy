/** When a node that hears nothing gets the blocks it needs in four house keepings. So do several at once,
    if their packets are slow: that is how two nodes come to own the same block. */
module Progress {
  import opened Types
  import opened BlockSpec
  import ConsensusSpec
  import HouseSpec
  import HouseProofs
  import opened ClaimProofs
  import NodeProofs
  import RefreshProofs
  import Bystander
  import Takeover
  import Shortage
  import Network
  import Healing

  /** Blocks the node needs when it has no free lease. */
  function Wants(cfg: Config): int {
    HouseSpec.BlocksNeeded(cfg, 0)
  }

  /** The listed blocks are being claimed until then and have been inquired k times; all others are FREE. */
  ghost predicate Shape(n: Node, list: seq<nat>, k: nat, until: int) {
    && n.claiming == list && |n.blocks| == |n.tables| && !n.needlessMarks
    && (forall i :: 0 <= i < |n.tables| ==> n.tables[i] == None)
    && (forall i {:trigger n.blocks[i]} :: 0 <= i < |n.blocks| ==> InShape(n.blocks[i], i in list, k, until))
  }

  predicate InShape(b: Block, listed: bool, k: nat, until: int) {
    if listed then b.state.Claiming? && b.claimingCounts == k && b.timeout == until else b.state.Free?
  }

  /** As many blocks are listed as are needed, or all of them. */
  ghost predicate Enough(n: Node, needed: int) {
    |n.claiming| <= needed && (|n.claiming| == needed || forall i :: 0 <= i < |n.blocks| ==> i in n.claiming)
  }

  // ---------------------------------------------------------------- what does not happen

  lemma NothingLapses(n: Node, list: seq<nat>, k: nat, until: int, now: int)
    requires Shape(n, list, k, until) && now <= until
    ensures CheckTimeouts(n, now) == n
  {
    var e := CheckTimeouts(n, now);
    assert e.blocks == n.blocks && e.tables == n.tables;
  }

  lemma {:induction false} NothingFree(blocks: seq<Block>, tables: seq<Option<seq<Lease>>>)
    requires |blocks| == |tables| && forall i :: 0 <= i < |blocks| ==> !blocks[i].state.Ours?
    ensures NumFree(blocks, tables) == 0
  {
    if blocks != [] {
      NothingFree(blocks[..|blocks| - 1], tables[..|blocks| - 1]);
    }
  }

  lemma NothingRefreshed(cfg: Config, link: Link, n: Node, now: int)
    requires forall i :: 0 <= i < |n.blocks| ==> !n.blocks[i].state.Ours?
    ensures Refresh(cfg, link, n, now) == n
  {
    RefreshProofs.RefreshPackets(cfg, link, n, now);
  }

  lemma {:induction false} AllStay(cfg: Config, n: Node, todo: seq<nat>, now: int)
    requires |n.blocks| == |n.tables| && AllKept(n.blocks, todo)
    ensures Settle(cfg, n, todo, now) == Settled(n, todo, 0)
    decreases |todo|
  {
    if todo != [] {
      assert todo[0] in todo && forall b :: b in todo[1..] ==> b in todo;
      AllStay(cfg, n, todo[1..], now);
      assert [todo[0]] + todo[1..] == todo;
    }
  }

  lemma {:induction false} NothingDrawn(cfg: Config, n: Node, draws: nat, rnd: nat -> nat, now: int)
    requires forall i :: 0 <= i < |n.blocks| ==> !n.blocks[i].state.Free?
    ensures SelectMany(cfg, n, draws, rnd, now) == n
  {
    if draws > 0 {
      NothingDrawn(cfg, n, draws - 1, rnd, now);
    }
  }

  // ---------------------------------------------------------------- the first house keeping

  lemma DrawnShape(cfg: Config, n: Node, b: nat, now: int)
    requires Shape(n, n.claiming, 0, now + cfg.tentativeTimeout) && b < |n.blocks| && n.blocks[b].state.Free?
    ensures var r := Select(cfg, n, b, now); Shape(r, r.claiming, 0, now + cfg.tentativeTimeout)
  {
    var r := Select(cfg, n, b, now);
    forall i | 0 <= i < |r.blocks| ensures InShape(r.blocks[i], i in r.claiming, 0, now + cfg.tentativeTimeout) {
      assert InShape(n.blocks[i], i in n.claiming, 0, now + cfg.tentativeTimeout);
    }
  }

  lemma {:induction false} DrawsShape(cfg: Config, n: Node, draws: nat, rnd: nat -> nat, now: int)
    requires Shape(n, [], 0, now + cfg.tentativeTimeout)
    ensures var r := SelectMany(cfg, n, draws, rnd, now);
      Shape(r, r.claiming, 0, now + cfg.tentativeTimeout) && Enough(r, draws)
  {
    if draws > 0 {
      var m := SelectMany(cfg, n, draws - 1, rnd, now);
      DrawsShape(cfg, n, draws - 1, rnd, now);
      match FindFree(m.blocks, rnd(draws - 1))
      case Some(b) =>
        DrawnShape(cfg, m, b, now);
        assert InShape(m.blocks[b], b in m.claiming, 0, now + cfg.tentativeTimeout);
      case None =>
        forall i | 0 <= i < |m.blocks| ensures i in m.claiming {
          assert InShape(m.blocks[i], i in m.claiming, 0, now + cfg.tentativeTimeout);
        }
    }
  }

  lemma CountedShape(b: Block, listed: bool, k: nat, until: int)
    requires InShape(b, listed, k, until) && k < CLAIMS_BEFORE_OWNING
    ensures InShape(if listed then Counted(b) else b, listed, k + 1, until)
  {
  }

  /** The inquiry counts, and there is nothing to refresh. */
  lemma Asks(cfg: Config, link: Link, n: Node, list: seq<nat>, k: nat, until: int, now: int)
    requires ClaimInv(n) && Shape(n, list, k, until) && RefreshProofs.Lossless(link) && list != [] && k < CLAIMS_BEFORE_OWNING
    ensures var r := SendInquiry(cfg, link, n);
      Shape(r, list, k + 1, until) && |r.blocks| == |n.blocks| && Refresh(cfg, link, r, now) == r
    ensures Enough(n, Wants(cfg)) ==> Enough(SendInquiry(cfg, link, n), Wants(cfg))
  {
    var r := SendInquiry(cfg, link, n);
    forall i | 0 <= i < |r.blocks| ensures InShape(r.blocks[i], i in list, k + 1, until) {
      CountedShape(n.blocks[i], i in list, k, until);
    }
    NotOurs(r, list, k + 1, until);
    NothingRefreshed(cfg, link, r, now);
  }

  ghost predicate OwnsNone(n: Node) {
    forall i :: 0 <= i < |n.blocks| ==> !n.blocks[i].state.Ours?
  }

  lemma NotOurs(n: Node, list: seq<nat>, k: nat, until: int)
    requires Shape(n, list, k, until)
    ensures OwnsNone(n)
  {
    forall i | 0 <= i < |n.blocks| ensures !n.blocks[i].state.Ours? {
      assert InShape(n.blocks[i], i in list, k, until);
    }
  }

  /** What house keeping does of a node that owns nothing and wants blocks; e is its state after expiry. */
  lemma OnlyClaims(cfg: Config, link: Link, n: Node, e: Node, now: int, rnd: nat -> nat)
    requires |n.blocks| == |n.tables| && e == CheckTimeouts(n, now) && OwnsNone(e) && !e.needlessMarks && Wants(cfg) > 0
    ensures HouseSpec.HouseKeeping(cfg, link, n, now, rnd) ==
            Refresh(cfg, link, BlockClaim(cfg, link, e, Wants(cfg), now, rnd), now)
  {
    NothingFree(e.blocks, e.tables);
  }

  /** The node claims the listed blocks, which it has inquired k times. */
  ghost predicate Pursues(cfg: Config, n: Node, list: seq<nat>, k: nat, until: int) {
    list != [] && Shape(n, list, k, until) && Enough(n, Wants(cfg))
  }

  /** One house keeping whose selection ends in p. */
  lemma Asked(cfg: Config, link: Link, n: Node, e: Node, now: int, rnd: nat -> nat, p: Node, list: seq<nat>, k: nat, until: int)
    requires |n.blocks| == |n.tables| && e == CheckTimeouts(n, now) && OwnsNone(e) && !e.needlessMarks && Wants(cfg) > 0
    requires p == Picked(cfg, Settle(cfg, e, e.claiming, now), Wants(cfg), rnd, now) && RefreshProofs.Lossless(link)
    requires ClaimInv(p) && Pursues(cfg, p, list, k, until) && k < CLAIMS_BEFORE_OWNING
    ensures Pursues(cfg, HouseSpec.HouseKeeping(cfg, link, n, now, rnd), list, k + 1, until)
  {
    OnlyClaims(cfg, link, n, e, now, rnd);
    Asks(cfg, link, p, list, k, until, now);
    assert HouseSpec.HouseKeeping(cfg, link, n, now, rnd) == SendInquiry(cfg, link, p);
  }

  // ---------------------------------------------------------------- starting

  /** All blocks are FREE and the first pass leaves nothing listed: blocks are selected. */
  lemma FirstDraws(cfg: Config, e: Node, now: int, rnd: nat -> nat) returns (list: seq<nat>)
    requires NodeInv(cfg, e) && Wants(cfg) > 0
    requires var s := Settle(cfg, e, e.claiming, now);
      s.kept == [] && s.taken == 0 && Shape(Listing(s.node, []), [], 0, now + cfg.tentativeTimeout)
    ensures var p := Picked(cfg, Settle(cfg, e, e.claiming, now), Wants(cfg), rnd, now);
      ClaimInv(p) && Pursues(cfg, p, list, 0, now + cfg.tentativeTimeout)
  {
    var f := Listing(Settle(cfg, e, e.claiming, now).node, []);
    SettleAll(cfg, e, now);
    list := AllDraws(cfg, f, now, rnd);
  }

  lemma AllDraws(cfg: Config, f: Node, now: int, rnd: nat -> nat) returns (list: seq<nat>)
    requires Ready(cfg, f) && Wants(cfg) > 0 && Shape(f, [], 0, now + cfg.tentativeTimeout)
    ensures var p := SelectMany(cfg, f, Wants(cfg), rnd, now);
      ClaimInv(p) && Pursues(cfg, p, list, 0, now + cfg.tentativeTimeout)
  {
    HouseProofs.NeededIsLeast(cfg, 0);
    var p := SelectMany(cfg, f, Wants(cfg), rnd, now);
    DrawsShape(cfg, f, Wants(cfg), rnd, now);
    SelectManyKeepsInv(cfg, f, Wants(cfg), rnd, now);
    assert |p.blocks| >= 1 && (p.claiming == [] ==> 0 !in p.claiming);
    list := p.claiming;
  }

  lemma Begins(cfg: Config, link: Link, n: Node, now: int, rnd: nat -> nat) returns (list: seq<nat>)
    requires NodeInv(cfg, n) && Shape(n, [], 0, now + cfg.tentativeTimeout) && Wants(cfg) > 0 && RefreshProofs.Lossless(link)
    ensures Pursues(cfg, HouseSpec.HouseKeeping(cfg, link, n, now, rnd), list, 1, now + cfg.tentativeTimeout)
  {
    var until := now + cfg.tentativeTimeout;
    NothingLapses(n, [], 0, until, now);
    NotOurs(n, [], 0, until);
    assert Settle(cfg, n, [], now) == Settled(n, [], 0) && Listing(n, []) == n;
    list := FirstDraws(cfg, n, now, rnd);
    Asked(cfg, link, n, n, now, rnd, Picked(cfg, Settle(cfg, n, [], now), Wants(cfg), rnd, now), list, 0, until);
  }

  // ---------------------------------------------------------------- waiting

  lemma NoneDrawn(cfg: Config, n: Node, list: seq<nat>, k: nat, until: int, now: int, rnd: nat -> nat)
    requires NodeInv(cfg, n) && Shape(n, list, k, until) && k < CLAIMS_BEFORE_OWNING && Enough(n, Wants(cfg))
    ensures Picked(cfg, Settle(cfg, n, list, now), Wants(cfg), rnd, now) == n
  {
    ShapeKept(n, list, k, until);
    AllStay(cfg, n, list, now);
    assert Listing(n, list) == n;
    if Wants(cfg) > n.amount { AllListedNoneFree(n, list, k, until); }
    NoMoreDrawn(cfg, n, Wants(cfg), rnd, now);
  }

  lemma NoMoreDrawn(cfg: Config, n: Node, needed: int, rnd: nat -> nat, now: int)
    requires needed <= n.amount || forall i :: 0 <= i < |n.blocks| ==> !n.blocks[i].state.Free?
    ensures SelectUpTo(cfg, n, needed, rnd, now) == n
  {
    if needed > n.amount { NothingDrawn(cfg, n, needed - n.amount, rnd, now); }
  }

  lemma ShapeKept(n: Node, list: seq<nat>, k: nat, until: int)
    requires ClaimInv(n) && Shape(n, list, k, until) && k < CLAIMS_BEFORE_OWNING
    ensures AllKept(n.blocks, list)
  {
    forall b | b in list ensures b < |n.blocks| && Judge(n.blocks[b]) == Keep {
      assert Listable(n, b) && InShape(n.blocks[b], true, k, until);
    }
  }

  lemma AllListedNoneFree(n: Node, list: seq<nat>, k: nat, until: int)
    requires Shape(n, list, k, until) && forall i :: 0 <= i < |n.blocks| ==> i in n.claiming
    ensures forall i :: 0 <= i < |n.blocks| ==> !n.blocks[i].state.Free?
  {
    forall i | 0 <= i < |n.blocks| ensures !n.blocks[i].state.Free? {
      assert InShape(n.blocks[i], i in list, k, until);
    }
  }

  lemma Waits(cfg: Config, link: Link, n: Node, list: seq<nat>, k: nat, until: int, now: int, rnd: nat -> nat)
    requires NodeInv(cfg, n) && Pursues(cfg, n, list, k, until) && k < CLAIMS_BEFORE_OWNING && now <= until
    requires Wants(cfg) > 0 && RefreshProofs.Lossless(link)
    ensures Pursues(cfg, HouseSpec.HouseKeeping(cfg, link, n, now, rnd), list, k + 1, until)
  {
    NothingLapses(n, list, k, until, now);
    NotOurs(n, list, k, until);
    NoneDrawn(cfg, n, list, k, until, now, rnd);
    Asked(cfg, link, n, n, now, rnd, n, list, k, until);
  }

  // ---------------------------------------------------------------- starting over

  /** The claims have lapsed. */
  lemma AllLapse(n: Node, list: seq<nat>, k: nat, until: int, now: int)
    requires Shape(n, list, k, until) && until < now
    ensures var e := CheckTimeouts(n, now);
      && e == n.(blocks := e.blocks) && |e.blocks| == |n.blocks|
      && forall i {:trigger e.blocks[i]} :: 0 <= i < |e.blocks| ==>
           e.blocks[i].state.Free? && (i in list ==> e.blocks[i].claimingCounts == k)
  {
    var e := CheckTimeouts(n, now);
    assert e.tables == n.tables;
    forall i | 0 <= i < |e.blocks| ensures e.blocks[i].state.Free? && (i in list ==> e.blocks[i].claimingCounts == k) {
      assert InShape(n.blocks[i], i in list, k, until);
    }
  }

  lemma {:induction false} AllDropped(cfg: Config, n: Node, todo: seq<nat>, now: int)
    requires |n.blocks| == |n.tables| && |todo| <= n.amount
    requires forall b {:trigger b in todo} :: b in todo ==> b < |n.blocks| && Judge(n.blocks[b]) == Drop
    ensures Settle(cfg, n, todo, now) == Settled(n.(amount := n.amount - |todo|), [], 0)
    decreases |todo|
  {
    if todo != [] {
      assert todo[0] in todo && forall b :: b in todo[1..] ==> b in todo;
      AllDropped(cfg, n.(amount := n.amount - 1), todo[1..], now);
    } else {
      assert n.(amount := n.amount) == n;
    }
  }

  lemma LapsedAreDropped(cfg: Config, e: Node, list: seq<nat>, k: nat, now: int, until: int)
    requires NodeInv(cfg, e) && e.claiming == list && k < CLAIMS_BEFORE_OWNING && !e.needlessMarks
    requires forall i :: 0 <= i < |e.tables| ==> e.tables[i] == None
    requires forall i {:trigger e.blocks[i]} :: 0 <= i < |e.blocks| ==>
      e.blocks[i].state.Free? && (i in list ==> e.blocks[i].claimingCounts == k)
    ensures var s := Settle(cfg, e, list, now); s.kept == [] && s.taken == 0 && Shape(Listing(s.node, []), [], 0, until)
  {
    forall b | b in list ensures b < |e.blocks| && Judge(e.blocks[b]) == Drop {
      assert Listable(e, b);
    }
    AllDropped(cfg, e, list, now);
  }

  /** A node that keeps house only after its claims have run out starts over. */
  lemma StartsOver(cfg: Config, link: Link, n: Node, list: seq<nat>, k: nat, until: int, now: int, rnd: nat -> nat)
      returns (next: seq<nat>)
    requires NodeInv(cfg, n) && Pursues(cfg, n, list, k, until) && k < CLAIMS_BEFORE_OWNING && until < now
    requires Wants(cfg) > 0 && RefreshProofs.Lossless(link)
    ensures Pursues(cfg, HouseSpec.HouseKeeping(cfg, link, n, now, rnd), next, 1, now + cfg.tentativeTimeout)
  {
    var e := CheckTimeouts(n, now);
    NodeProofs.TimeoutsKeepInv(cfg, n, now);
    AllLapse(n, list, k, until, now);
    LapsedAreDropped(cfg, e, list, k, now, now + cfg.tentativeTimeout);
    next := FirstDraws(cfg, e, now, rnd);
    var p := Picked(cfg, Settle(cfg, e, list, now), Wants(cfg), rnd, now);
    Asked(cfg, link, n, e, now, rnd, p, next, 0, now + cfg.tentativeTimeout);
  }

  // ---------------------------------------------------------------- owning

  lemma {:induction false} AllDue(n: Node, todo: seq<nat>)
    requires forall b :: b in todo ==> b < |n.blocks| && n.blocks[b].claimingCounts == CLAIMS_BEFORE_OWNING
    ensures Shortage.DueCount(n.blocks, todo) == |todo|
  {
    if todo != [] {
      assert forall b :: b in todo[1..] ==> b in todo;
      AllDue(n, todo[1..]);
      assert todo[0] in todo;
    }
  }

  /** Expiry takes nothing from the count of a claim, and gives no leases. */
  lemma StillDue(n: Node, list: seq<nat>, until: int, now: int)
    requires Shape(n, list, CLAIMS_BEFORE_OWNING, until)
    ensures var e := CheckTimeouts(n, now);
      && e == n.(blocks := e.blocks) && OwnsNone(e)
      && forall i {:trigger e.blocks[i]} :: 0 <= i < |e.blocks| && i in list ==> e.blocks[i].claimingCounts == CLAIMS_BEFORE_OWNING
  {
    var e := CheckTimeouts(n, now);
    assert e.tables == n.tables;
    forall i | 0 <= i < |e.blocks|
      ensures !e.blocks[i].state.Ours? && (i in list ==> e.blocks[i].claimingCounts == CLAIMS_BEFORE_OWNING)
    {
      assert InShape(n.blocks[i], i in list, CLAIMS_BEFORE_OWNING, until);
    }
  }

  /** After the third inquiry all listed blocks are owned, whether or not their claims have run out. */
  lemma Ends(cfg: Config, link: Link, n: Node, list: seq<nat>, until: int, now: int, rnd: nat -> nat)
    requires NodeInv(cfg, n) && Shape(n, list, CLAIMS_BEFORE_OWNING, until) && Wants(cfg) > 0
    ensures var r := HouseSpec.HouseKeeping(cfg, link, n, now, rnd);
      && |r.blocks| == |r.tables| == |n.blocks| && (forall b :: b in list ==> b < |r.blocks| && r.blocks[b].state.Ours?)
      && HouseSpec.BlocksNeeded(cfg, NumFree(r.blocks, r.tables)) == Wants(cfg) - |list|
  {
    var e := CheckTimeouts(n, now);
    NodeProofs.HouseKeepingKeepsInv(cfg, link, n, now, rnd);
    StillDue(n, list, until, now);
    NothingFree(e.blocks, e.tables);
    forall b | b in list ensures b < |n.blocks| && Bystander.Due(n, b) {
      assert Listable(n, b) && InShape(n.blocks[b], true, CLAIMS_BEFORE_OWNING, until);
    }
    NotOurs(n, list, CLAIMS_BEFORE_OWNING, until);
    forall b | b in list ensures HouseSpec.HouseKeeping(cfg, link, n, now, rnd).blocks[b].state.Ours? {
      Takeover.HouseKeepingTakesExactly(cfg, link, n, now, rnd, b);
    }
    AllDue(e, list);
    Shortage.ClaimingSettles(cfg, link, n, now, rnd);
  }

  // ---------------------------------------------------------------- all four

  /** When a node starts and keeps house, and its random numbers. */
  datatype Launch = Launch(start: int, times: nat -> int, rnd: nat -> nat -> nat)

  /** The state after the first k house keepings, with nothing heard in between. */
  ghost function Quiet(cfg: Config, link: Link, l: Launch, k: nat): (r: Node)
    ensures NodeInv(cfg, r)
  {
    if k == 0 then
      NodeProofs.InitialInv(cfg, l.start);
      ConsensusSpec.Initial(cfg, l.start)
    else
      var n := Quiet(cfg, link, l, k - 1);
      NodeProofs.HouseKeepingKeepsInv(cfg, link, n, l.times(k - 1), l.rnd(k - 1));
      HouseSpec.HouseKeeping(cfg, link, n, l.times(k - 1), l.rnd(k - 1))
  }

  /** The second and the third house keeping come within a tentative timeout of the first. */
  predicate Prompt(cfg: Config, l: Launch) {
    l.times(1) <= l.times(0) + cfg.tentativeTimeout && l.times(2) <= l.times(0) + cfg.tentativeTimeout
  }

  /** The node owns the listed blocks, which are as many as it wants, or all there are. */
  ghost predicate Satisfied(cfg: Config, n: Node, list: seq<nat>) {
    && Distinct(list) && |n.blocks| == |n.tables| && (forall b :: b in list ==> b < |n.blocks| && n.blocks[b].state.Ours?)
    && (|list| == Wants(cfg) || forall i :: 0 <= i < |n.blocks| ==> i in list)
    && HouseSpec.BlocksNeeded(cfg, NumFree(n.blocks, n.tables)) == Wants(cfg) - |list|
  }

  /** One more house keeping before the third inquiry: the claims go on, or the node starts over. */
  lemma Continues(cfg: Config, link: Link, n: Node, list: seq<nat>, k: nat, until: int, now: int, rnd: nat -> nat, r: Node)
      returns (next: seq<nat>)
    requires NodeInv(cfg, n) && Pursues(cfg, n, list, k, until) && k < CLAIMS_BEFORE_OWNING
    requires Wants(cfg) > 0 && RefreshProofs.Lossless(link) && r == HouseSpec.HouseKeeping(cfg, link, n, now, rnd)
    ensures var t := Tallied(cfg, k, until, now); Pursues(cfg, r, next, t.0, t.1)
  {
    if now <= until {
      Waits(cfg, link, n, list, k, until, now, rnd);
      next := list;
    } else {
      next := StartsOver(cfg, link, n, list, k, until, now, rnd);
    }
  }

  /** How often the claimed blocks have been inquired, and until when they are claimed, after one more
      house keeping. */
  function Tallied(cfg: Config, k: nat, until: int, now: int): (nat, int) {
    if now <= until then (k + 1, until) else (1, now + cfg.tentativeTimeout)
  }

  /** The same after k house keepings. */
  function Tally(cfg: Config, l: Launch, k: nat): (nat, int)
    requires k >= 1
  {
    if k == 1 then (1, l.times(0) + cfg.tentativeTimeout)
    else Tallied(cfg, Tally(cfg, l, k - 1).0, Tally(cfg, l, k - 1).1, l.times(k - 1))
  }

  lemma FirstClaiming(cfg: Config, link: Link, l: Launch) returns (list: seq<nat>)
    requires Wants(cfg) > 0 && RefreshProofs.Lossless(link)
    ensures Pursues(cfg, Quiet(cfg, link, l, 1), list, Tally(cfg, l, 1).0, Tally(cfg, l, 1).1)
  {
    list := Begins(cfg, link, Quiet(cfg, link, l, 0), l.times(0), l.rnd(0));
  }

  lemma {:induction false} Claiming(cfg: Config, link: Link, l: Launch, k: nat) returns (list: seq<nat>)
    requires Wants(cfg) > 0 && RefreshProofs.Lossless(link) && k >= 1
    requires forall i :: 1 <= i < k ==> Tally(cfg, l, i).0 < CLAIMS_BEFORE_OWNING
    ensures Pursues(cfg, Quiet(cfg, link, l, k), list, Tally(cfg, l, k).0, Tally(cfg, l, k).1)
  {
    if k == 1 {
      list := FirstClaiming(cfg, link, l);
    } else {
      var before := Claiming(cfg, link, l, k - 1);
      var m, r := Quiet(cfg, link, l, k - 1), Quiet(cfg, link, l, k);
      list := Continues(cfg, link, m, before, Tally(cfg, l, k - 1).0, Tally(cfg, l, k - 1).1, l.times(k - 1), l.rnd(k - 1), r);
    }
  }

  /** Progress: a node that hears of nobody and whose sends succeed owns, after its fourth house keeping, as
      many blocks as it wants, or all there are, if and only if the second and third come within a
      tentative timeout of the first; otherwise it has started over and owns nothing. */
  lemma {:induction false} FourKeepingsExactly(cfg: Config, link: Link, l: Launch) returns (list: seq<nat>)
    requires Wants(cfg) > 0 && RefreshProofs.Lossless(link)
    ensures var r := Quiet(cfg, link, l, 4); if Prompt(cfg, l) then Satisfied(cfg, r, list) else OwnsNone(r)
  {
    assert Tally(cfg, l, 1).0 == 1 && Tally(cfg, l, 2).0 <= 2;
    if Prompt(cfg, l) {
      list := Claiming(cfg, link, l, 3);
      Ends(cfg, link, Quiet(cfg, link, l, 3), list, Tally(cfg, l, 3).1, l.times(3), l.rnd(3));
    } else {
      assert Tally(cfg, l, 3).0 < CLAIMS_BEFORE_OWNING;
      list := Claiming(cfg, link, l, 4);
      NotOurs(Quiet(cfg, link, l, 4), list, Tally(cfg, l, 4).0, Tally(cfg, l, 4).1);
    }
  }

  // ---------------------------------------------------------------- two owners

  /** Node j of the network keeps house, and what it sends is under way. */
  function HouseKept(net: Network.Net, j: nat, now: int, rnd: nat -> nat): Network.Net
    requires j < |net.nodes| == |net.cfgs| && |net.nodes[j].blocks| == |net.nodes[j].tables|
  {
    var n := net.nodes[j];
    var r := HouseSpec.HouseKeeping(net.cfgs[j], Network.UP, n, now, rnd);
    net.(nodes := net.nodes[j := r],
         flight := net.flight + Network.SpreadAll(j, Network.SentSince(r.trace, |n.trace|), |net.nodes|))
  }

  /** If one node owns a block, another one's house keeping makes them both own it if and only if it lists
      the block with three inquiries and has too few leases. */
  lemma {:induction false} BothOwnExactly(net: Network.Net, i: nat, j: nat, b: nat, now: int, rnd: nat -> nat)
    requires j < |net.nodes| == |net.cfgs| && i != j && NodeInv(net.cfgs[j], net.nodes[j]) && b < |net.nodes[j].blocks|
    requires Healing.Owns(net, i, b) && !Healing.Owns(net, j, b)
    ensures var r := HouseKept(net, j, now, rnd);
      Healing.Owns(r, i, b) && Healing.Owns(r, j, b)
      <==> Bystander.Due(net.nodes[j], b) && Takeover.Claims(net.cfgs[j], net.nodes[j], now)
  {
    Takeover.HouseKeepingTakesExactly(net.cfgs[j], Network.UP, net.nodes[j], now, rnd, b);
  }

  /** Every node has started, wants all blocks, and has kept house four times before any packet has arrived. */
  ghost predicate SlowStart(net: Network.Net, launches: seq<Launch>) {
    && |net.nodes| == |net.cfgs| == |launches|
    && forall i :: 0 <= i < |net.nodes| ==>
         && Prompt(net.cfgs[i], launches[i]) && Wants(net.cfgs[i]) >= net.cfgs[i].numberOfBlocks
         && net.nodes[i] == Quiet(net.cfgs[i], Network.UP, launches[i], 4)
  }

  ghost function Elements(list: seq<nat>): (r: set<nat>)
    ensures forall b {:trigger b in r} :: b in r <==> b in list
  {
    if list == [] then {} else {list[0]} + Elements(list[1..])
  }

  lemma {:induction false} ElementCount(list: seq<nat>)
    requires Distinct(list)
    ensures |Elements(list)| == |list|
  {
    if list != [] {
      ElementCount(list[1..]);
    }
  }

  lemma Bounded(a: set<nat>, b: set<nat>)
    requires a <= b
    ensures |a| <= |b|
  {
    assert b == a + (b - a);
  }

  lemma {:induction false} BelowCount(elements: set<nat>, n: nat)
    requires forall b :: b in elements ==> b < n
    ensures |elements| <= n
  {
    if n == 0 {
      assert elements == {};
    } else {
      var rest := elements - {n - 1};
      BelowCount(rest, n - 1);
      assert elements <= rest + {n - 1};
      Bounded(elements, rest + {n - 1});
    }
  }

  /** A list without repetition of n numbers below n holds them all. */
  lemma AllListed(list: seq<nat>, n: nat, b: nat)
    requires Distinct(list) && |list| >= n && b < n && forall c :: c in list ==> c < n
    ensures b in list
  {
    ElementCount(list);
    if b !in list {
      BelowCount(Elements(list) + {b}, n);
    }
  }

  /** Then every node owns every block. */
  lemma AllOwnEverything(net: Network.Net, launches: seq<Launch>, i: nat, b: nat)
    requires SlowStart(net, launches) && i < |net.nodes| && b < net.cfgs[i].numberOfBlocks
    ensures Healing.Owns(net, i, b)
  {
    var list := FourKeepingsExactly(net.cfgs[i], Network.UP, launches[i]);
    assert TableInv(net.cfgs[i], net.nodes[i]);
    if |list| == Wants(net.cfgs[i]) {
      AllListed(list, net.cfgs[i].numberOfBlocks, b);
    }
    assert b in list;
  }
}
