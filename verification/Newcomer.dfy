/** A daemon that joins a network and is driven by its event loop: the learning phase of main.c gives it the
    time that PeerTiming.LearningIsSound asks for. */
module Newcomer {
  import opened Types
  import BlockSpec
  import opened Schedule
  import opened ClaimProofs
  import opened NodeProofs
  import opened OwnerTiming
  import opened PeerTiming
  import opened Uptime

  /** What the peer does of its own accord, in order. */
  function PeerActions(moves: seq<Move>): seq<Action> {
    if moves == [] then []
    else (if moves[0].PeerDoes? then [moves[0].a] else []) + PeerActions(moves[1..])
  }

  /** No house keeping comes before that time. */
  ghost predicate Late(actions: seq<Action>, from: int) {
    forall i :: 0 <= i < |actions| && actions[i].KeepHouse? ==> actions[i].now >= from
  }

  lemma {:induction false} EventsKeepNoHouse(events: seq<Action>, clock: int, latest: int, from: int)
    requires Uptime.Handled(events, clock, latest)
    ensures Late(events, from)
    decreases |events|
  {
    if events != [] {
      EventsKeepNoHouse(events[1..], Clock(events[0], clock), latest, from);
      assert forall i :: 1 <= i < |events| ==> events[i] == events[1..][i - 1];
    }
  }

  lemma LateTogether(a: seq<Action>, b: seq<Action>, c: seq<Action>, from: int)
    requires Late(a, from) && Late(b, from) && Late(c, from)
    ensures Late(a + (b + c), from)
  {
  }

  /** An event loop that is learning until then keeps no house before. */
  lemma {:induction false} KeepsLate(cfg: Config, l: Loop, rounds: seq<Round>, last: int, clock: int, gap: int, busy: int, from: int)
    requires Orderly(rounds, last, clock, gap, busy) && (last >= from || (l.learning && l.due >= from))
    ensures Late(Doings(cfg, l, rounds), from)
    decreases |rounds|
  {
    if rounds != [] {
      var (r, m) := (rounds[0], Next(cfg, l, rounds[0].turn));
      HandledBy(r.events, r.turn.now, r.at);
      EventsKeepNoHouse(r.events, r.turn.now, r.at, from);
      KeepsLate(cfg, m, rounds[1..], r.turn.now, r.at, gap, busy, from);
      LateTogether(r.events, Keeping(l, r), Doings(cfg, m, rounds[1..]), from);
    }
  }

  /** A run that is allowed for a peer that knows, and in which the peer keeps no house early, is allowed
      for a peer that learns. */
  lemma {:induction false} LearnsAllowed(oc: Config, pc: Config, pl: Link, sender: int, s: Pair, moves: seq<Move>, b: nat,
                                         h: int, joined: int, lag: int)
    requires NodeInv(oc, s.owner) && NodeInv(pc, s.peer) && AllAllowed(oc, pc, pl, sender, s, moves, b, h, Learned)
    requires Late(PeerActions(moves), joined + oc.blockTimeout)
    ensures AllAllowed(oc, pc, pl, sender, s, moves, b, h, Learning(joined, lag))
    decreases |moves|
  {
    if moves != [] {
      var (m, rest) := (moves[0], PeerActions(moves[1..]));
      if m.PeerDoes? {
        assert PeerActions(moves) == [m.a] + rest && PeerActions(moves)[0] == m.a;
        assert forall i :: 0 <= i < |rest| ==> rest[i] == PeerActions(moves)[i + 1];
      } else {
        assert PeerActions(moves) == rest;
      }
      LearnsAllowed(oc, pc, pl, sender, PairStep(oc, pc, pl, sender, s, m), moves[1..], b, h, joined, lag);
    }
  }

  /** A daemon that joins with a learning phase never selects, claims or owns a block that another node owns
      throughout: whatever the turns of its event loop bring and whatever others multicast, under
      the bounds of LearningIsSound on the owner. What it does is the beginning of what its loop
      makes it do. */
  lemma {:induction false} NewcomerHarmless(oc: Config, pc: Config, pl: Link, sender: int, owner: Node, keptAt: int, joined: int,
                                            lag: int, moves: seq<Move>, b: nat, h: int,
                                            rounds: seq<Round>, gap: int, busy: int)
    requires Established(oc, owner, b, keptAt, joined, lag) && b < pc.numberOfBlocks
    requires pc.blockTimeout == oc.blockTimeout
    requires BlockSpec.RefreshGap(oc) + h <= oc.blockTimeout && BlockSpec.RefreshGap(oc) + h + lag < 2 * oc.blockTimeout
    requires Orderly(rounds, joined, joined, gap, busy)
    requires PeerActions(moves) <= Doings(pc, Start(pc, true, joined), rounds)
    requires AllAllowed(oc, pc, pl, sender, Joining(oc, pc, owner, keptAt, joined), moves, b, h, Learned)
    ensures HandsOff(PairRun(oc, pc, pl, sender, Joining(oc, pc, owner, keptAt, joined), moves).peer, b)
  {
    var s := Joining(oc, pc, owner, keptAt, joined);
    KeepsLate(pc, Start(pc, true, joined), rounds, joined, joined, gap, busy, joined + oc.blockTimeout);
    LearnsAllowed(oc, pc, pl, sender, s, moves, b, h, joined, lag);
    LearningIsSound(oc, pc, pl, sender, owner, keptAt, joined, lag, moves, b, h);
  }
}
