/** A block becomes owned only through block_claim, after three successful inquiries. */
module OwnershipProofs {
  import opened Types
  import opened BlockSpec
  import opened ConsensusSpec
  import DhcpSpec
  import HouseSpec
  import RefreshProofs
  import opened ClaimProofs
  import opened NodeProofs

  ghost predicate OwnedIn(trace: seq<Event>, from: nat, b: nat) {
    exists p :: from <= p < |trace| && trace[p] == Owned(b)
  }

  /** From n to r the trace only grows, and blocks owned in r but not in n are logged as taken. */
  ghost predicate Logged(n: Node, r: Node) {
    && n.trace <= r.trace && |r.blocks| == |n.blocks|
    && (forall b :: 0 <= b < |n.blocks| ==> LoggedAt(n, r, b))
  }

  ghost predicate LoggedAt(n: Node, r: Node, b: nat)
    requires b < |n.blocks| == |r.blocks|
  {
    r.blocks[b].state.Ours? ==> n.blocks[b].state.Ours? || OwnedIn(r.trace, |n.trace|, b)
  }

  lemma LoggedTrans(n: Node, m: Node, r: Node)
    requires Logged(n, m) && Logged(m, r)
    ensures Logged(n, r)
  {
    forall b | 0 <= b < |n.blocks| ensures LoggedAt(n, r, b) {
      assert LoggedAt(m, r, b) && LoggedAt(n, m, b);
      if r.blocks[b].state.Ours? && !m.blocks[b].state.Ours? {
        var p :| |m.trace| <= p < |r.trace| && r.trace[p] == Owned(b);
      } else if r.blocks[b].state.Ours? && !n.blocks[b].state.Ours? {
        var p :| |n.trace| <= p < |m.trace| && m.trace[p] == Owned(b);
        assert r.trace[p] == Owned(b);
      }
    }
  }

  /** No block becomes owned. */
  ghost predicate NoneGained(n: Node, r: Node) {
    && n.trace <= r.trace && |r.blocks| == |n.blocks|
    && (forall b {:trigger r.blocks[b]} :: 0 <= b < |n.blocks| && r.blocks[b].state.Ours? ==> n.blocks[b].state.Ours?)
  }

  lemma NoneGainedLogged(n: Node, r: Node)
    requires NoneGained(n, r)
    ensures Logged(n, r)
  {
    forall b | 0 <= b < |n.blocks| ensures LoggedAt(n, r, b) {
    }
  }

  lemma RefreshGainsNone(cfg: Config, link: Link, n: Node, now: int)
    ensures NoneGained(n, Refresh(cfg, link, n, now))
  {
    RefreshProofs.RefreshSteps(cfg, link, n, now);
  }

  lemma OwnLogged(cfg: Config, n: Node, b: nat, now: int)
    requires b < |n.blocks| && b < |n.tables|
    ensures Logged(n, OwnBlock(cfg, n, b, now))
  {
    var r := OwnBlock(cfg, n, b, now);
    assert r.trace[|n.trace|] == Owned(b);
    forall c | 0 <= c < |n.blocks| ensures LoggedAt(n, r, c) {
      if c == b { assert OwnedIn(r.trace, |n.trace|, b); }
    }
  }

  /** Only blocks and trace matter. */
  lemma SameLogged(n: Node, m: Node, r: Node)
    requires Logged(m, r) && m.blocks == n.blocks && m.trace == n.trace
    ensures Logged(n, r)
  {
    forall b | 0 <= b < |n.blocks| ensures LoggedAt(n, r, b) {
      assert LoggedAt(m, r, b);
    }
  }

  lemma {:induction false} SettleLogged(cfg: Config, n: Node, todo: seq<nat>, now: int)
    ensures Logged(n, Settle(cfg, n, todo, now).node)
    decreases |todo|
  {
    if todo == [] {
      NoneGainedLogged(n, n);
    } else {
      var b, less := todo[0], n.(amount := (n.amount - 1) % 0x100);
      SettleLogged(cfg, n, todo[1..], now);
      SettleLogged(cfg, less, todo[1..], now);
      SameLogged(n, less, Settle(cfg, less, todo[1..], now).node);
      if b < |n.blocks| && b < |n.tables| {
        OwnLogged(cfg, less, b, now);
        SettleLogged(cfg, OwnBlock(cfg, less, b, now), todo[1..], now);
        LoggedTrans(less, OwnBlock(cfg, less, b, now), Settle(cfg, OwnBlock(cfg, less, b, now), todo[1..], now).node);
        SameLogged(n, less, Settle(cfg, OwnBlock(cfg, less, b, now), todo[1..], now).node);
      }
    }
  }

  lemma {:induction false} SelectGainsNone(cfg: Config, n: Node, draws: nat, rnd: nat -> nat, now: int)
    ensures NoneGained(n, SelectMany(cfg, n, draws, rnd, now))
  {
    if draws > 0 {
      SelectGainsNone(cfg, n, draws - 1, rnd, now);
    }
  }

  lemma InquiryGainsNone(cfg: Config, link: Link, n: Node)
    ensures NoneGained(n, SendInquiry(cfg, link, n))
  {
  }

  lemma BlockClaimLogged(cfg: Config, link: Link, n: Node, num: int, now: int, rnd: nat -> nat)
    ensures Logged(n, BlockClaim(cfg, link, n, num, now, rnd))
  {
    var s := Settle(cfg, n, n.claiming, now);
    var p := Picked(cfg, s, num, rnd, now);
    SettleLogged(cfg, n, n.claiming, now);
    var m := Listing(s.node, s.kept);
    if num - s.taken > m.amount {
      SelectGainsNone(cfg, m, num - s.taken - m.amount, rnd, now);
    }
    InquiryGainsNone(cfg, link, p);
    NoneGainedLogged(s.node, p);
    NoneGainedLogged(p, SendInquiry(cfg, link, p));
    LoggedTrans(n, s.node, p);
    LoggedTrans(n, p, SendInquiry(cfg, link, p));
  }

  lemma BalanceLogged(cfg: Config, link: Link, n: Node, now: int, rnd: nat -> nat)
    requires |n.blocks| == |n.tables|
    ensures Logged(n, HouseSpec.Balance(cfg, link, n, now, rnd))
  {
    var needed := HouseSpec.BlocksNeeded(cfg, NumFree(n.blocks, n.tables));
    if needed < 0 {
      NoneGainedLogged(n, DropUnused(cfg, n, now));
    } else {
      var m := if n.needlessMarks then UnmarkNeedless(n) else n;
      NoneGainedLogged(n, m);
      if needed > 0 {
        BlockClaimLogged(cfg, link, m, needed, now, rnd);
        LoggedTrans(n, m, BlockClaim(cfg, link, m, needed, now, rnd));
      }
    }
  }

  lemma TimeoutsGainNone(n: Node, now: int)
    requires |n.blocks| == |n.tables|
    ensures NoneGained(n, CheckTimeouts(n, now))
  {
  }

  lemma HouseKeepingLogged(cfg: Config, link: Link, n: Node, now: int, rnd: nat -> nat)
    requires |n.blocks| == |n.tables|
    ensures Logged(n, HouseSpec.HouseKeeping(cfg, link, n, now, rnd))
  {
    var c := CheckTimeouts(n, now);
    var d := HouseSpec.Balance(cfg, link, c, now, rnd);
    TimeoutsGainNone(n, now);
    NoneGainedLogged(n, c);
    BalanceLogged(cfg, link, c, now, rnd);
    RefreshGainsNone(cfg, link, d, now);
    NoneGainedLogged(d, Refresh(cfg, link, d, now));
    LoggedTrans(n, c, d);
    LoggedTrans(n, d, Refresh(cfg, link, d, now));
  }

  lemma {:induction false} HandleGainsNone(cfg: Config, link: Link, n: Node, p: Packet, sender: int, now: int, k: nat)
    requires k <= |p.payload|
    ensures NoneGained(n, HandleFirst(cfg, link, n, p, sender, now, k))
  {
    if k > 0 {
      HandleGainsNone(cfg, link, n, p, sender, now, k - 1);
      var m, b := HandleFirst(cfg, link, n, p, sender, now, k - 1), p.payload[k - 1].blockIndex;
      if b < |m.blocks| {
        RefreshGainsNone(cfg, link, m.(blocks := m.blocks[b := m.blocks[b].(timeout := 0)]), now);
      }
    }
  }

  lemma RequestGainsNone(cfg: Config, n: Node, req: DhcpSpec.Request, now: int)
    requires |n.blocks| == |n.tables|
    ensures NoneGained(n, DhcpSpec.HandleRequest(cfg, n, req, now).0)
  {
  }

  lemma ServiceGainsNone(cfg: Config, link: Link, n: Node, a: Action)
    requires NodeInv(cfg, n) && !a.KeepHouse? && !a.Hear?
    ensures NoneGained(n, Step(cfg, link, n, a))
  {
    if a.Serve? {
      RequestGainsNone(cfg, n, a.req, a.now);
    }
  }

  lemma {:induction false} StepLogged(cfg: Config, link: Link, n: Node, a: Action)
    requires NodeInv(cfg, n)
    ensures Logged(n, Step(cfg, link, n, a))
    ensures !a.KeepHouse? ==> NoneGained(n, Step(cfg, link, n, a))
  {
    match a {
      case KeepHouse(now, rnd) => HouseKeepingLogged(cfg, link, n, now, rnd);
      case Hear(now, p, sender) => HandleGainsNone(cfg, link, n, p, sender, now, |p.payload|);
      case _ => ServiceGainsNone(cfg, link, n, a);
    }
    if !a.KeepHouse? { NoneGainedLogged(n, Step(cfg, link, n, a)); }
  }

  lemma OwnedAt(n: Node, r: Node, b: nat)
    requires Logged(n, r) && OwnedAfterThree(r.trace)
    requires b < |n.blocks| && !n.blocks[b].state.Ours? && r.blocks[b].state.Ours?
    ensures exists p :: |n.trace| <= p < |r.trace| && r.trace[p] == Owned(b) && ThreeInquiries(r.trace[..p], b)
  {
    assert LoggedAt(n, r, b);
    var p :| |n.trace| <= p < |r.trace| && r.trace[p] == Owned(b);
    EachOwnedAfterThree(r.trace, p);
  }

  /** Whatever step a node takes from a state that satisfies the invariants, as every
      reachable state does (NodeProofs.Run): a block that becomes owned does so in house
      keeping, at a point of the trace where exactly three successful inquiries had listed
      it since it was last selected from the FREE blocks. */
  lemma {:induction false} ThreeInquiriesBeforeOwning(cfg: Config, link: Link, n: Node, a: Action, b: nat)
    requires NodeInv(cfg, n) && b < |n.blocks|
    requires !n.blocks[b].state.Ours? && Step(cfg, link, n, a).blocks[b].state.Ours?
    ensures a.KeepHouse?
    ensures var r := Step(cfg, link, n, a);
      exists p :: |n.trace| <= p < |r.trace| && r.trace[p] == Owned(b) && ThreeInquiries(r.trace[..p], b)
  {
    StepLogged(cfg, link, n, a);
    OwnedAt(n, Step(cfg, link, n, a), b);
  }
}
