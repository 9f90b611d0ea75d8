/** A daemon driven by the turns of its event loop, from its start: no block it owns ever expires. */
module Uptime {
  import opened Types
  import BlockSpec
  import ConsensusSpec
  import opened Schedule
  import RefreshProofs
  import opened ClaimProofs
  import opened NodeProofs
  import OwnershipProofs
  import LeaseProofs
  import opened OwnerTiming

  /** One turn of the loop: what arrives and is handled in it, and when and with what random numbers
      house keeping runs, if it does. */
  datatype Round = Round(turn: Turn, events: seq<Action>, at: int, rnd: nat -> nat)

  function Turns(rounds: seq<Round>): seq<Turn> {
    if rounds == [] then [] else [rounds[0].turn] + Turns(rounds[1..])
  }

  function Keeping(l: Loop, r: Round): seq<Action> {
    if Keeps(l, r.turn) then [KeepHouse(r.at, r.rnd)] else []
  }

  /** Everything the rounds make the node do, in order. */
  function Doings(cfg: Config, l: Loop, rounds: seq<Round>): seq<Action>
    decreases |rounds|
  {
    if rounds == [] then []
    else rounds[0].events + (Keeping(l, rounds[0]) + Doings(cfg, Next(cfg, l, rounds[0].turn), rounds[1..]))
  }

  /** The clock after some events that are handled in order by the time `latest`; none is house keeping. */
  ghost predicate Handled(events: seq<Action>, clock: int, latest: int)
    decreases |events|
  {
    if events == [] then clock <= latest
    else
      !events[0].KeepHouse? && clock <= Clock(events[0], clock) && Handled(events[1..], Clock(events[0], clock), latest)
  }

  /** Turns are at most gap apart, each one's events are handled and house is kept within busy seconds,
      and no turn begins before the one before has ended. */
  ghost predicate Orderly(rounds: seq<Round>, last: int, clock: int, gap: int, busy: int)
    decreases |rounds|
  {
    rounds == [] ||
    (var (r, now) := (rounds[0], rounds[0].turn.now);
     && last <= clock <= now <= last + gap && Handled(r.events, now, r.at) && r.at <= now + busy
     && Orderly(rounds[1..], now, r.at, gap, busy))
  }

  lemma {:induction false} TurnsTick(rounds: seq<Round>, last: int, clock: int, gap: int, busy: int)
    requires Orderly(rounds, last, clock, gap, busy)
    ensures Ticks(Turns(rounds), last, gap)
    decreases |rounds|
  {
    if rounds != [] {
      TurnsTick(rounds[1..], rounds[0].turn.now, rounds[0].at, gap, busy);
    }
  }

  // ---------------------------------------------------------------- on time

  lemma {:induction false} EventsOnTime(events: seq<Action>, rest: seq<Action>, keptAt: int, clock: int, from: int,
                                        latest: int, h: int)
    requires clock <= from && Handled(events, from, latest) && latest <= keptAt + h
    requires forall c :: c <= latest ==> RunOnTime(rest, keptAt, c, h)
    ensures RunOnTime(events + rest, keptAt, clock, h)
    decreases |events|
  {
    HandledBy(events, from, latest);
    if events == [] {
      assert events + rest == rest;
    } else {
      EventsOnTime(events[1..], rest, keptAt, Clock(events[0], clock), Clock(events[0], from), latest, h);
      assert (events + rest)[1..] == events[1..] + rest;
    }
  }

  lemma {:induction false} HandledBy(events: seq<Action>, clock: int, latest: int)
    requires Handled(events, clock, latest)
    ensures clock <= latest && (events != [] ==> Clock(events[0], clock) <= latest)
    decreases |events|
  {
    if events != [] {
      HandledBy(events[1..], Clock(events[0], clock), latest);
    }
  }

  /** After the first house keeping, everything is done at most h seconds after the last one. */
  lemma {:induction false} RoundsOnTime(cfg: Config, l: Loop, rounds: seq<Round>, last: int, end: int, clock: int,
                                        kept: int, keptAt: int, gap: int, busy: int, h: int)
    requires Orderly(rounds, last, end, gap, busy) && InTime(cfg, l, Turns(rounds), kept, h - busy)
    requires kept <= keptAt && clock <= end
    ensures RunOnTime(Doings(cfg, l, rounds), keptAt, clock, h)
    decreases |rounds|
  {
    if rounds != [] {
      var (r, m) := (rounds[0], Next(cfg, l, rounds[0].turn));
      assert Turns(rounds)[1..] == Turns(rounds[1..]);
      HandledBy(r.events, r.turn.now, r.at);
      var rest := Keeping(l, r) + Doings(cfg, m, rounds[1..]);
      forall c | c <= r.at ensures RunOnTime(rest, keptAt, c, h) {
        if Keeps(l, r.turn) {
          RoundsOnTime(cfg, m, rounds[1..], r.turn.now, r.at, r.at, r.turn.now, r.at, gap, busy, h);
          assert rest[1..] == Doings(cfg, m, rounds[1..]);
        } else {
          RoundsOnTime(cfg, m, rounds[1..], r.turn.now, r.at, c, kept, keptAt, gap, busy, h);
          assert rest == Doings(cfg, m, rounds[1..]);
        }
      }
      EventsOnTime(r.events, rest, keptAt, clock, r.turn.now, r.at, h);
    }
  }

  // ---------------------------------------------------------------- before the first house keeping

  ghost predicate OwnsNothing(n: Node) {
    forall i :: 0 <= i < |n.blocks| ==> !n.blocks[i].state.Ours?
  }

  lemma OwnsNothingStill(cfg: Config, link: Link, n: Node, a: Action)
    requires NodeInv(cfg, n) && OwnsNothing(n) && !a.KeepHouse?
    ensures OwnsNothing(Step(cfg, link, n, a))
  {
    OwnershipProofs.StepLogged(cfg, link, n, a);
  }

  /** The first of some actions that are no house keeping. */
  lemma FirstEvent(cfg: Config, link: Link, n: Node, a: Action, m: Node, rest: seq<Action>)
    requires NodeInv(cfg, n) && !a.KeepHouse? && m == Step(cfg, link, n, a) && NeverExpires(cfg, link, m, rest)
    ensures NeverExpires(cfg, link, n, [a] + rest)
  {
    assert ([a] + rest)[1..] == rest;
  }

  predicate NoKeeping(events: seq<Action>) {
    events == [] || (!events[0].KeepHouse? && NoKeeping(events[1..]))
  }

  lemma {:induction false} HandledKeepsNoHouse(events: seq<Action>, clock: int, latest: int)
    requires Handled(events, clock, latest)
    ensures NoKeeping(events)
    decreases |events|
  {
    if events != [] { HandledKeepsNoHouse(events[1..], Clock(events[0], clock), latest); }
  }

  lemma {:induction false} EventsGainNothing(cfg: Config, link: Link, n: Node, events: seq<Action>)
    requires NodeInv(cfg, n) && OwnsNothing(n) && NoKeeping(events)
    ensures OwnsNothing(LeaseProofs.RunFrom(cfg, link, n, events))
    decreases |events|
  {
    if events != [] {
      var m := Step(cfg, link, n, events[0]);
      OwnsNothingStill(cfg, link, n, events[0]);
      EventsGainNothing(cfg, link, m, events[1..]);
    }
  }

  lemma Regroup<T>(xs: seq<T>, ys: seq<T>)
    requires xs != []
    ensures xs + ys == [xs[0]] + (xs[1..] + ys)
  {
  }

  lemma {:induction false} EventsHarmless(cfg: Config, link: Link, n: Node, events: seq<Action>, rest: seq<Action>)
    requires NodeInv(cfg, n) && NoKeeping(events)
    requires NeverExpires(cfg, link, LeaseProofs.RunFrom(cfg, link, n, events), rest)
    ensures NeverExpires(cfg, link, n, events + rest)
    decreases |events|
  {
    if events == [] {
      assert events + rest == rest;
    } else {
      var m := Step(cfg, link, n, events[0]);
      EventsHarmless(cfg, link, m, events[1..], rest);
      FirstEvent(cfg, link, n, events[0], m, events[1..] + rest);
      Regroup(events, rest);
    }
  }

  /** The first house keeping, and everything after it. */
  lemma FromFirstKeeping(cfg: Config, link: Link, n: Node, l: Loop, r: Round, rest: seq<Round>, gap: int, busy: int, h: int)
    requires NodeInv(cfg, n) && OwnsNothing(n) && RefreshProofs.Lossless(link) && r.turn.now <= r.at
    requires Orderly(rest, r.turn.now, r.at, gap, busy) && InTime(cfg, l, Turns(rest), r.turn.now, h - busy)
    requires h <= cfg.blockTimeout - BlockSpec.RefreshGap(cfg)
    ensures NeverExpires(cfg, link, n, [KeepHouse(r.at, r.rnd)] + Doings(cfg, l, rest))
  {
    var a := KeepHouse(r.at, r.rnd);
    StepFresh(cfg, link, n, a, r.at, r.at);
    RoundsOnTime(cfg, l, rest, r.turn.now, r.at, r.at, r.turn.now, r.at, gap, busy, h);
    OwnedNeverExpires(cfg, link, Step(cfg, link, n, a), Doings(cfg, l, rest), r.at, r.at, h);
    assert ([a] + Doings(cfg, l, rest))[1..] == Doings(cfg, l, rest);
  }

  lemma {:induction false} UntilFirstKeeping(cfg: Config, link: Link, n: Node, l: Loop, rounds: seq<Round>, last: int,
                                             clock: int, gap: int, busy: int, h: int)
    requires NodeInv(cfg, n) && OwnsNothing(n) && RefreshProofs.Lossless(link)
    requires Orderly(rounds, last, clock, gap, busy) && InTimeOnceKept(cfg, l, Turns(rounds), h - busy)
    requires h <= cfg.blockTimeout - BlockSpec.RefreshGap(cfg)
    ensures NeverExpires(cfg, link, n, Doings(cfg, l, rounds))
    decreases |rounds|
  {
    if rounds != [] {
      var (r, m) := (rounds[0], Next(cfg, l, rounds[0].turn));
      assert Turns(rounds)[1..] == Turns(rounds[1..]);
      var rest := Keeping(l, r) + Doings(cfg, m, rounds[1..]);
      var after := LeaseProofs.RunFrom(cfg, link, n, r.events);
      HandledBy(r.events, r.turn.now, r.at);
      HandledKeepsNoHouse(r.events, r.turn.now, r.at);
      EventsGainNothing(cfg, link, n, r.events);
      if Keeps(l, r.turn) {
        FromFirstKeeping(cfg, link, after, m, r, rounds[1..], gap, busy, h);
      } else {
        UntilFirstKeeping(cfg, link, after, m, rounds[1..], r.turn.now, r.at, gap, busy, h);
        assert rest == Doings(cfg, m, rounds[1..]);
      }
      EventsHarmless(cfg, link, n, r.events, rest);
    }
  }

  // ---------------------------------------------------------------- from the start

  /** Whatever a daemon hears and serves from its start on, with its sends arriving: if half the tentative
      timeout, the time between two turns of its loop and the time it spends in one are together at
      most the block timeout less the refresh gap, no block it owns ever expires. */
  lemma OwnedNeverExpiresFromStart(cfg: Config, link: Link, learn: bool, start: int, rounds: seq<Round>, gap: nat, busy: nat)
    requires RefreshProofs.Lossless(link) && Orderly(rounds, start, start, gap, busy)
    requires cfg.tentativeTimeout / 2 + gap + busy <= cfg.blockTimeout - BlockSpec.RefreshGap(cfg)
    ensures NodeInv(cfg, ConsensusSpec.Initial(cfg, start))
    ensures NeverExpires(cfg, link, ConsensusSpec.Initial(cfg, start), Doings(cfg, Start(cfg, learn, start), rounds))
  {
    var h := cfg.tentativeTimeout / 2 + gap + busy;
    InitialInv(cfg, start);
    TurnsTick(rounds, start, start, gap, busy);
    HouseKeptInTime(cfg, learn, start, Turns(rounds), gap);
    UntilFirstKeeping(cfg, link, ConsensusSpec.Initial(cfg, start), Start(cfg, learn, start), rounds, start, start, gap, busy, h);
  }
}
