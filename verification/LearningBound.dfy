/** The bounds of PeerTiming.LearningIsSound are exact: wherever one of them fails, there are an owner in
    time, a newcomer and a run in which the newcomer claims the owned block. */
module LearningBound {
  import opened Types
  import LeaseTable
  import opened BlockSpec
  import opened ConsensusSpec
  import HouseSpec
  import HandlerProofs
  import opened RefreshProofs
  import opened ClaimProofs
  import opened NodeProofs
  import Network
  import opened OwnerTiming
  import opened PeerTiming

  /** A network of one block of one address, with one spare lease wanted. */
  function Tied(id: NodeId, timeout: uint16, factor: uint16): Config
    requires factor >= 1
  {
    ConfigRecord(id, 1, timeout, factor, 300, 2, 1, 1, 0, 300)
  }

  /** It owns the block, and its claim runs out at time t. */
  function Keeper(t: int, trace: seq<Event>): Node {
    Node([Block(0, Ours, 0, 1, 0, 1, 0, 1, 0, t)], [Some([EMPTY_LEASE])], [], 0, false, trace)
  }

  lemma KeeperValid(oc: Config, t: int)
    requires oc == Tied(1, oc.blockTimeout, oc.refreshFactor)
    ensures NodeInv(oc, Keeper(t, []))
  {
    var n := Keeper(t, []);
    assert Placed(oc, 0, n.blocks[0]) && TableFits(oc, n.blocks[0], n.tables[0]);
  }

  lemma OneFree(blocks: seq<Block>, tables: seq<Option<seq<Lease>>>)
    requires |blocks| == |tables| == 1
    ensures NumFree(blocks, tables) == if blocks[0].state.Ours? then NumAvailable(tables[0]) else 0
  {
    assert NumFree(blocks[..0], tables[..0]) == 0;
  }

  /** House keeping before the claim is due for a refresh leaves everything as it is. */
  lemma KeeperKeeps(oc: Config, t: int, trace: seq<Event>, now: int, rnd: nat -> nat)
    requires oc == Tied(1, oc.blockTimeout, oc.refreshFactor) && Threshold(oc, now) <= t
    ensures HouseSpec.HouseKeeping(oc, Network.UP, Keeper(t, trace), now, rnd) == Keeper(t, trace)
  {
    var n := Keeper(t, trace);
    assert LeaseTable.Expire([EMPTY_LEASE], now) == [EMPTY_LEASE];
    var e := CheckTimeouts(n, now);
    assert e.blocks == n.blocks && e.tables == n.tables;
    assert e == n;
    assert LeaseTable.Count([EMPTY_LEASE], Available) == 1;
    OneFree(n.blocks, n.tables);
    assert HouseSpec.Balance(oc, Network.UP, n, now, rnd) == n;
    RefreshPackets(oc, Network.UP, n, now);
  }

  // ---------------------------------------------------------------- the newcomer

  lemma PickOnly(cfg: Config, pl: Link, n: Node, now: int, rnd: nat -> nat)
    requires |n.blocks| == 1 && n.blocks[0].state.Free? && n.claiming == [] && n.amount == 0
    ensures var r := BlockClaim(cfg, pl, n, 1, now, rnd); |r.blocks| == 1 && r.blocks[0].state.Claiming?
  {
    assert Settle(cfg, n, [], now) == Settled(n, [], 0);
    assert Listing(n, []) == n;
    assert SelectMany(cfg, n, 0, rnd, now) == n;
    assert FindFree(n.blocks, rnd(0)) == Some(0);
    assert SelectMany(cfg, n, 1, rnd, now) == Select(cfg, n, 0, now);
  }

  /** It claims the block at its first house keeping if nothing is on record, or the record has run out. */
  lemma NewcomerClaims(cfg: Config, pl: Link, n: Node, now: int, rnd: nat -> nat)
    requires cfg == Tied(2, cfg.blockTimeout, cfg.refreshFactor) && NodeInv(cfg, n)
    requires n.tables == [None] && n.claiming == []
    requires n.blocks[0].state.Free? || (n.blocks[0].state.Claimed? && n.blocks[0].timeout < now)
    ensures var r := HouseSpec.HouseKeeping(cfg, pl, n, now, rnd); |r.blocks| == 1 && r.blocks[0].state.Claiming?
  {
    var e := CheckTimeouts(n, now);
    assert e.blocks[0].state.Free?;
    OneFree(e.blocks, e.tables);
    assert HouseSpec.BlocksNeeded(cfg, 0) == 1;
    PickOnly(cfg, pl, if e.needlessMarks then UnmarkNeedless(e) else e, now, rnd);
    RefreshSteps(cfg, pl, HouseSpec.Balance(cfg, pl, e, now, rnd), now);
  }

  // ---------------------------------------------------------------- runs

  /** The owner keeps house a second after i, and then something else happens. */
  function Watch(i: int, rnd: nat -> nat, rest: seq<Move>): seq<Move> {
    [OwnerDoes(KeepHouse(i + 1, rnd))] + rest
  }

  /** The owner keeps house at each second after c up to end, and then something else happens. */
  function Vigil(c: int, end: int, rnd: nat -> nat, last: seq<Move>): seq<Move>
    decreases end - c
  {
    if end <= c then last else Watch(c, rnd, Vigil(c + 1, end, rnd, last))
  }

  /** The owner's block is in the state of Keeper. */
  ghost predicate Watched(oc: Config, pc: Config, s: Pair, t: int) {
    && oc == Tied(1, oc.blockTimeout, oc.refreshFactor) && NodeInv(oc, s.owner) && NodeInv(pc, s.peer)
    && s.owner == Keeper(t, s.owner.trace)
  }

  lemma KeeperMoves(oc: Config, pc: Config, pl: Link, sender: int, s: Pair, t: int, now: int, rnd: nat -> nat)
    requires Watched(oc, pc, s, t) && Threshold(oc, now) <= t
    ensures PairStep(oc, pc, pl, sender, s, OwnerDoes(KeepHouse(now, rnd))) == Pair(s.owner, s.peer, now, now)
  {
    KeeperKeeps(oc, t, s.owner.trace, now, rnd);
    assert Network.SentSince(s.owner.trace, |s.owner.trace|) == [];
  }

  /** A run that is allowed and after which the newcomer has put out its hand for the block. */
  ghost predicate Fails(oc: Config, pc: Config, pl: Link, sender: int, s: Pair, moves: seq<Move>, h: int, k: Knowledge) {
    && NodeInv(oc, s.owner) && NodeInv(pc, s.peer)
    && AllAllowed(oc, pc, pl, sender, s, moves, 0, h, k)
    && !HandsOff(PairRun(oc, pc, pl, sender, s, moves).peer, 0)
  }

  lemma FirstMove(oc: Config, pc: Config, pl: Link, sender: int, s: Pair, m: Move, r: Pair, rest: seq<Move>, h: int, k: Knowledge)
    requires NodeInv(oc, s.owner) && NodeInv(pc, s.peer) && r == PairStep(oc, pc, pl, sender, s, m)
    requires Allowed(oc, s, m, r, 0, h, k) && Fails(oc, pc, pl, sender, r, rest, h, k)
    ensures Fails(oc, pc, pl, sender, s, [m] + rest, h, k)
  {
    assert ([m] + rest)[1..] == rest;
  }

  lemma KeeperAllowed(oc: Config, pc: Config, s: Pair, t: int, now: int, rnd: nat -> nat, h: int, k: Knowledge)
    requires Watched(oc, pc, s, t) && s.clock <= now <= s.keptAt + h
    ensures Allowed(oc, s, OwnerDoes(KeepHouse(now, rnd)), Pair(s.owner, s.peer, now, now), 0, h, k)
  {
  }

  /** The pair with its clock and last house keeping at c. */
  function AtTime(s: Pair, c: int): Pair {
    s.(keptAt := c, clock := c)
  }

  lemma VigilStep(oc: Config, pc: Config, pl: Link, sender: int, s: Pair, t: int, c: int, rnd: nat -> nat, rest: seq<Move>,
                  h: int, k: Knowledge)
    requires Watched(oc, pc, s, t) && Threshold(oc, c + 1) <= t && h >= 1
    requires Fails(oc, pc, pl, sender, AtTime(s, c + 1), rest, h, k)
    ensures Fails(oc, pc, pl, sender, AtTime(s, c), Watch(c, rnd, rest), h, k)
  {
    KeeperMoves(oc, pc, pl, sender, AtTime(s, c), t, c + 1, rnd);
    KeeperAllowed(oc, pc, AtTime(s, c), t, c + 1, rnd, h, k);
    FirstMove(oc, pc, pl, sender, AtTime(s, c), OwnerDoes(KeepHouse(c + 1, rnd)), AtTime(s, c + 1), rest, h, k);
  }

  /** What a step back in time keeps at each second, the whole vigil keeps. */
  lemma {:induction false} VigilKeeps(fails: (Pair, seq<Move>) -> bool, s: Pair, c: int, end: int, rnd: nat -> nat, last: seq<Move>)
    requires c <= end && fails(AtTime(s, end), last)
    requires forall i, rest :: c <= i < end && fails(AtTime(s, i + 1), rest) ==>
      fails(AtTime(s, i), Watch(i, rnd, rest))
    ensures fails(AtTime(s, c), Vigil(c, end, rnd, last))
    decreases end - c
  {
    if c < end {
      VigilKeeps(fails, s, c + 1, end, rnd, last);
    }
  }

  lemma VigilRuns(oc: Config, pc: Config, pl: Link, sender: int, s: Pair, t: int, c: int, end: int, rnd: nat -> nat,
                  last: seq<Move>, h: int, k: Knowledge)
    requires Watched(oc, pc, s, t) && c <= end && Threshold(oc, end) <= t && h >= 1
    requires Fails(oc, pc, pl, sender, AtTime(s, end), last, h, k)
    ensures Fails(oc, pc, pl, sender, AtTime(s, c), Vigil(c, end, rnd, last), h, k)
  {
    var fails := (x: Pair, moves: seq<Move>) => Fails(oc, pc, pl, sender, x, moves, h, k);
    forall i, rest | c <= i < end && fails(AtTime(s, i + 1), rest)
      ensures fails(AtTime(s, i), Watch(i, rnd, rest))
    {
      VigilStep(oc, pc, pl, sender, s, t, i, rnd, rest, h, k);
    }
    VigilKeeps(fails, s, c, end, rnd, last);
  }

  /** The newcomer keeps house, in time and after listening, with nothing on record or a record run out. */
  lemma LastMove(oc: Config, pc: Config, pl: Link, sender: int, s: Pair, t: int, now: int, rnd: nat -> nat, h: int, k: Knowledge)
    requires Watched(oc, pc, s, t) && pc == Tied(2, pc.blockTimeout, pc.refreshFactor)
    requires s.clock <= now <= s.keptAt + h && (k.Learning? ==> k.joined + oc.blockTimeout <= now)
    requires s.peer.tables == [None] && s.peer.claiming == []
    requires s.peer.blocks[0].state.Free? || (s.peer.blocks[0].state.Claimed? && s.peer.blocks[0].timeout < now)
    ensures Fails(oc, pc, pl, sender, s, [PeerDoes(KeepHouse(now, rnd))], h, k)
  {
    var m := PeerDoes(KeepHouse(now, rnd));
    NewcomerClaims(pc, pl, s.peer, now, rnd);
    assert [m] == [m] + [];
    FirstMove(oc, pc, pl, sender, s, m, PairStep(oc, pc, pl, sender, s, m), [], h, k);
  }

  // ---------------------------------------------------------------- the claim is not announced in time

  /** When the owner of a claim that runs out lag seconds after the join last kept house, at the latest. */
  function LastKept(oc: Config, joined: int, lag: int): int {
    var due := joined + lag + RefreshGap(oc) - oc.blockTimeout;
    if due < joined then due else joined
  }

  function Scene(timeout: uint16, factor: uint16, joined: int, lag: int): (s: (Config, Config, Node, int))
    requires factor >= 1
  {
    (Tied(1, timeout, factor), Tied(2, timeout, factor), Keeper(joined + lag, []), LastKept(Tied(1, timeout, factor), joined, lag))
  }

  /** block_timeout / block_refresh_factor */
  function Gap(timeout: uint16, factor: uint16): nat
    requires factor >= 1
  {
    RefreshGap(Tied(1, timeout, factor))
  }

  ghost predicate Claimed(timeout: uint16, factor: uint16, h: int, lag: int, joined: int, pl: Link, sender: int, moves: seq<Move>)
    requires factor >= 1
  {
    var (oc, pc, owner, keptAt) := Scene(timeout, factor, joined, lag);
    NodeInv(oc, owner) && Fails(oc, pc, pl, sender, Joining(oc, pc, owner, keptAt, joined), moves, h, Learning(joined, lag))
  }

  lemma SceneSet(timeout: uint16, factor: uint16, joined: int, lag: int)
    requires factor >= 1 && joined >= 1
    ensures var (oc, pc, owner, keptAt) := Scene(timeout, factor, joined, lag);
      && Established(oc, owner, 0, keptAt, joined, lag)
      && Watched(oc, pc, Joining(oc, pc, owner, keptAt, joined), joined + lag)
  {
    KeeperValid(Tied(1, timeout, factor), joined + lag);
    InitialInv(Tied(2, timeout, factor), joined);
  }

  /** The owner keeps house in time until the newcomer does, and has no reason to announce the block. */
  lemma SilentThroughout(oc: Config, pc: Config, pl: Link, sender: int, s: Pair, t: int, rnd: nat -> nat, h: int, k: Knowledge)
      returns (moves: seq<Move>)
    requires Watched(oc, pc, s, t) && pc == Tied(2, pc.blockTimeout, pc.refreshFactor) && k.Learning? && s.clock == k.joined
    requires s.peer.tables == [None] && s.peer.claiming == [] && s.peer.blocks[0].state.Free? && h >= 1
    requires if s.keptAt == s.clock then Threshold(oc, k.joined) <= t && Threshold(oc, k.joined + oc.blockTimeout - h) <= t
             else k.joined + oc.blockTimeout <= s.keptAt + h
    ensures Fails(oc, pc, pl, sender, s, moves, h, k)
  {
    var first := k.joined + oc.blockTimeout;
    moves := [PeerDoes(KeepHouse(first, rnd))];
    if s.keptAt != s.clock {
      LastMove(oc, pc, pl, sender, s, t, first, rnd, h, k);
    } else {
      var end := if oc.blockTimeout >= h then first - h else k.joined;
      LastMove(oc, pc, pl, sender, AtTime(s, end), t, first, rnd, h, k);
      assert s == AtTime(s, k.joined);
      VigilRuns(oc, pc, pl, sender, s, t, k.joined, end, rnd, moves, h, k);
      moves := Vigil(k.joined, end, rnd, moves);
    }
  }

  /** Nothing is said about the block until the newcomer keeps house. */
  lemma Overslept(timeout: uint16, factor: uint16, h: int, lag: int, joined: int, pl: Link, sender: int, rnd: nat -> nat)
      returns (moves: seq<Move>)
    requires factor >= 1 && h >= 1 && joined >= 1 && Gap(timeout, factor) + h + lag >= 2 * timeout
    ensures Claimed(timeout, factor, h, lag, joined, pl, sender, moves)
  {
    var (oc, pc, owner, keptAt) := Scene(timeout, factor, joined, lag);
    SceneSet(timeout, factor, joined, lag);
    var s := Joining(oc, pc, owner, keptAt, joined);
    moves := SilentThroughout(oc, pc, pl, sender, s, joined + lag, rnd, h, Learning(joined, lag));
  }

  // ---------------------------------------------------------------- the record runs out

  /** Some node inquires the block. */
  const INQUIRY := Packet(3, Inquire, [Payload(0, 0)])

  lemma KeeperAnswers(oc: Config, t: int, trace: seq<Event>, now: int, from: int)
    requires oc == Tied(1, oc.blockTimeout, oc.refreshFactor) && now > 0
    ensures var (n, o) := (Keeper(t, trace), Handle(oc, Network.UP, Keeper(t, trace), INQUIRY, from, now));
      o == Keeper(now + oc.blockTimeout, o.trace) && About(oc, n, o, 0, now) && Announced(o.trace, |trace|, 0)
  {
    var n := Keeper(t, trace);
    var o := Handle(oc, Network.UP, n, INQUIRY, from, now);
    assert o == Answer(oc, Network.UP, n, 0, now) by {
      assert HandleFirst(oc, Network.UP, n, INQUIRY, from, now, 0) == n;
    }
    RefreshSteps(oc, Network.UP, HandlerProofs.Expired(n, 0), now);
    HandlerProofs.AnswerEffect(oc, Network.UP, n, 0, now);
    AnswerAbout(oc, Network.UP, n, 0, 0, now);
    assert o.blocks == Keeper(now + oc.blockTimeout, o.trace).blocks;
  }

  lemma AnswerRecorded(oc: Config, pc: Config, pl: Link, sender: int, n: Node, o: Node, peer: Node, now: int, from: int)
    requires About(oc, n, o, 0, now) && Announced(o.trace, |n.trace|, 0)
    requires NodeInv(pc, peer) && |peer.blocks| == 1 && !peer.blocks[0].state.Ours?
    ensures var q := Step(pc, pl, peer, Hear(now, INQUIRY, from));
      var r := HandleAll(pc, pl, q, Network.SentSince(o.trace, |n.trace|), sender, now);
      && r.tables == peer.tables && r.claiming == peer.claiming && |r.blocks| == 1
      && Records(oc, r.blocks[0], now + oc.blockTimeout)
  {
    var q := Step(pc, pl, peer, Hear(now, INQUIRY, from));
    HandlerProofs.PacketExact(pc, pl, peer, INQUIRY, from, now, 0);
    SentAbout(oc, n, o, 0, now);
    AllRecord(oc, pc, pl, q, Network.SentSince(o.trace, |n.trace|), sender, now, 0);
  }

  lemma InquiryAnswered(oc: Config, pc: Config, pl: Link, sender: int, s: Pair, t: int, now: int, from: int)
    requires Watched(oc, pc, s, t) && now > 0 && |s.peer.blocks| == 1 && !s.peer.blocks[0].state.Ours?
    ensures var r := PairStep(oc, pc, pl, sender, s, Others(now, INQUIRY, from));
      && Watched(oc, pc, r, now + oc.blockTimeout) && r.keptAt == s.keptAt && r.clock == now
      && r.peer.tables == s.peer.tables && r.peer.claiming == s.peer.claiming && |r.peer.blocks| == 1
      && Records(oc, r.peer.blocks[0], now + oc.blockTimeout)
  {
    KeeperAnswers(oc, t, s.owner.trace, now, from);
    AnswerRecorded(oc, pc, pl, sender, s.owner, Handle(oc, Network.UP, s.owner, INQUIRY, from, now), s.peer, now, from);
  }

  /** After the answer the owner is silent for the refresh gap, and the newcomer keeps house one second after
      its record has run out. */
  lemma SilentAfterwards(oc: Config, pc: Config, pl: Link, sender: int, s: Pair, joined: int, rnd: nat -> nat, h: int, k: Knowledge)
      returns (moves: seq<Move>)
    requires Watched(oc, pc, s, joined + oc.blockTimeout) && pc == Tied(2, pc.blockTimeout, pc.refreshFactor)
    requires s.clock == joined <= s.keptAt + h && h >= 1 && RefreshGap(oc) + h > oc.blockTimeout
    requires s.peer.tables == [None] && s.peer.claiming == [] && Records(oc, s.peer.blocks[0], joined + oc.blockTimeout)
    requires k.Learning? ==> k.joined == joined
    ensures Fails(oc, pc, pl, sender, s, moves, h, k)
  {
    var t := joined + oc.blockTimeout;
    var end := if oc.blockTimeout + 1 >= h then t + 1 - h else joined;
    var m, r, last := OwnerDoes(KeepHouse(joined, rnd)), AtTime(s, joined), [PeerDoes(KeepHouse(t + 1, rnd))];
    LastMove(oc, pc, pl, sender, AtTime(s, end), t, t + 1, rnd, h, k);
    VigilRuns(oc, pc, pl, sender, s, t, joined, end, rnd, last, h, k);
    KeeperMoves(oc, pc, pl, sender, s, t, joined, rnd);
    KeeperAllowed(oc, pc, s, t, joined, rnd, h, k);
    FirstMove(oc, pc, pl, sender, s, m, r, Vigil(joined, end, rnd, last), h, k);
    moves := [m] + Vigil(joined, end, rnd, last);
  }

  lemma RanOut(timeout: uint16, factor: uint16, h: int, lag: int, joined: int, pl: Link, sender: int, rnd: nat -> nat)
      returns (moves: seq<Move>)
    requires factor >= 1 && h >= 1 && joined >= 1 && Gap(timeout, factor) + h > timeout
    requires lag >= timeout - Gap(timeout, factor) - h
    ensures Claimed(timeout, factor, h, lag, joined, pl, sender, moves)
  {
    var (oc, pc, owner, keptAt) := Scene(timeout, factor, joined, lag);
    var k := Learning(joined, lag);
    SceneSet(timeout, factor, joined, lag);
    var s := Joining(oc, pc, owner, keptAt, joined);
    var m := Others(joined, INQUIRY, 0);
    var r := PairStep(oc, pc, pl, sender, s, m);
    InquiryAnswered(oc, pc, pl, sender, s, joined + lag, joined, 0);
    var rest := SilentAfterwards(oc, pc, pl, sender, r, joined, rnd, h, k);
    FirstMove(oc, pc, pl, sender, s, m, r, rest, h, k);
    moves := [m] + rest;
  }

  // ---------------------------------------------------------------- exactly when

  /** Everything in the situation of LearningIsSound but its two bounds. */
  ghost predicate Situation(oc: Config, pc: Config, pl: Link, sender: int, owner: Node, keptAt: int, moves: seq<Move>, b: nat,
                            timeout: uint16, factor: uint16, h: int, lag: int, joined: int) {
    && oc.blockTimeout == timeout && oc.refreshFactor == factor && b < pc.numberOfBlocks
    && Established(oc, owner, b, keptAt, joined, lag)
    && AllAllowed(oc, pc, pl, sender, Joining(oc, pc, owner, keptAt, joined), moves, b, h, Learning(joined, lag))
  }

  /** No newcomer ever puts out its hand for a block that stays owned. */
  ghost predicate NewcomersHarmless(timeout: uint16, factor: uint16, h: int, lag: int, joined: int) {
    forall oc, pc, pl, sender, owner, keptAt, moves, b {:trigger Situation(oc, pc, pl, sender, owner, keptAt, moves, b, timeout, factor, h, lag, joined)} ::
      Situation(oc, pc, pl, sender, owner, keptAt, moves, b, timeout, factor, h, lag, joined) ==>
        HandsOff(PairRun(oc, pc, pl, sender, Joining(oc, pc, owner, keptAt, joined), moves).peer, b)
  }

  /** For every block timeout, refresh factor, house keeping interval h of a second or more, time of joining and
      lag that leaves the owner in time when the newcomer joins: newcomers are harmless if and only if the
      refresh gap + h is at most the block timeout, and with lag below two of them. */
  lemma {:induction false} LearningExactly(timeout: uint16, factor: uint16, h: int, lag: int, joined: int)
    requires factor >= 1 && h >= 1 && joined >= 1 && lag >= timeout - Gap(timeout, factor) - h
    ensures NewcomersHarmless(timeout, factor, h, lag, joined)
        <==> Gap(timeout, factor) + h <= timeout && Gap(timeout, factor) + h + lag < 2 * timeout
  {
    var gap := Gap(timeout, factor);
    if gap + h <= timeout && gap + h + lag < 2 * timeout {
      forall oc, pc, pl, sender, owner, keptAt, moves, b
        | Situation(oc, pc, pl, sender, owner, keptAt, moves, b, timeout, factor, h, lag, joined)
        ensures HandsOff(PairRun(oc, pc, pl, sender, Joining(oc, pc, owner, keptAt, joined), moves).peer, b)
      {
        LearningIsSound(oc, pc, pl, sender, owner, keptAt, joined, lag, moves, b, h);
      }
    } else {
      var (oc, pc, owner, keptAt) := Scene(timeout, factor, joined, lag);
      var pl: Link, rnd: nat -> nat := k => true, k => k;
      var moves;
      if gap + h + lag >= 2 * timeout {
        moves := Overslept(timeout, factor, h, lag, joined, pl, 0, rnd);
      } else {
        moves := RanOut(timeout, factor, h, lag, joined, pl, 0, rnd);
      }
      SceneSet(timeout, factor, joined, lag);
      assert Situation(oc, pc, pl, 0, owner, keptAt, moves, 0, timeout, factor, h, lag, joined);
    }
  }

  /** In particular, when the owner last announced before the newcomer joined (lag below the block timeout),
      the gap + h may be the whole block timeout; when it announced in the very second of the join, it
      may not. */
  lemma {:induction false} TieNeedsTheSecond(timeout: uint16, factor: uint16, h: int, joined: int)
    requires factor >= 1 && h >= 1 && joined >= 1 && Gap(timeout, factor) + h == timeout
    ensures NewcomersHarmless(timeout, factor, h, timeout - 1, joined)
    ensures !NewcomersHarmless(timeout, factor, h, timeout, joined)
  {
    LearningExactly(timeout, factor, h, timeout - 1, joined);
    LearningExactly(timeout, factor, h, timeout, joined);
  }
}
