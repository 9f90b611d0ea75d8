/** When the event loop of main.c keeps house: not before the learning phase is over, and then at least
    every half tentative timeout plus the time between two turns, but not more often than every half
    tentative timeout unless a handler asks. */
module Schedule {
  import opened Types

  /** The loop's variables learning_phase and timeout_time. */
  datatype Loop = Loop(learning: bool, due: int)

  /** One turn: the clock when epoll_wait returns, and whether some handler asks for house keeping. */
  datatype Turn = Turn(now: int, asked: bool)

  /** main.c:499-509; `learn` is off with the -L option. */
  function Start(cfg: Config, learn: bool, now: int): Loop {
    Loop(learn, if learn then now + cfg.blockTimeout else now)
  }

  function Next(cfg: Config, l: Loop, t: Turn): Loop {
    if l.due <= t.now then Loop(false, t.now + cfg.tentativeTimeout / 2) else l
  }

  /** Whether this turn keeps house. */
  predicate Keeps(l: Loop, t: Turn) {
    if l.due <= t.now then true else t.asked && !l.learning
  }

  /** Times of house keeping over a series of turns. */
  function Kept(cfg: Config, l: Loop, turns: seq<Turn>): seq<int>
    decreases |turns|
  {
    if turns == [] then []
    else (if Keeps(l, turns[0]) then [turns[0].now] else []) + Kept(cfg, Next(cfg, l, turns[0]), turns[1..])
  }

  /** The clock does not go back and no two turns are more than gap apart. */
  ghost predicate Ticks(turns: seq<Turn>, clock: int, gap: int)
    decreases |turns|
  {
    turns == [] || (clock <= turns[0].now <= clock + gap && Ticks(turns[1..], turns[0].now, gap))
  }

  lemma {:induction false} KeptLate(cfg: Config, l: Loop, turns: seq<Turn>, clock: int, gap: int, from: int)
    requires Ticks(turns, clock, gap) && (clock >= from || (l.learning && l.due >= from))
    ensures forall k :: 0 <= k < |Kept(cfg, l, turns)| ==> Kept(cfg, l, turns)[k] >= from
    decreases |turns|
  {
    if turns != [] {
      KeptLate(cfg, Next(cfg, l, turns[0]), turns[1..], turns[0].now, gap, from);
    }
  }

  /** A node that learns keeps no house before it has listened for a block timeout, whatever
      its handlers ask for. */
  lemma LearningComesFirst(cfg: Config, turns: seq<Turn>, start: int, gap: int)
    requires Ticks(turns, start, gap)
    ensures var times := Kept(cfg, Start(cfg, true, start), turns);
      forall k :: 0 <= k < |times| ==> times[k] >= start + cfg.blockTimeout
  {
    KeptLate(cfg, Start(cfg, true, start), turns, start, gap, start + cfg.blockTimeout);
  }

  /** At each turn the last house keeping is at most h ago. */
  ghost predicate InTime(cfg: Config, l: Loop, turns: seq<Turn>, keptAt: int, h: int)
    decreases |turns|
  {
    turns == [] ||
    (turns[0].now <= keptAt + h
     && InTime(cfg, Next(cfg, l, turns[0]), turns[1..], if Keeps(l, turns[0]) then turns[0].now else keptAt, h))
  }

  /** The same from the first house keeping on. */
  ghost predicate InTimeOnceKept(cfg: Config, l: Loop, turns: seq<Turn>, h: int)
    decreases |turns|
  {
    turns == [] ||
    (var m := Next(cfg, l, turns[0]);
     if Keeps(l, turns[0]) then InTime(cfg, m, turns[1..], turns[0].now, h) else InTimeOnceKept(cfg, m, turns[1..], h))
  }

  /** The next house keeping is due at most half a tentative timeout after the last one, and was
      not due yet when the clock was last read. */
  ghost predicate Awaits(cfg: Config, l: Loop, keptAt: int, clock: int) {
    && !l.learning && keptAt <= clock && l.due <= keptAt + cfg.tentativeTimeout / 2
    && (clock == keptAt || clock < l.due)
  }

  lemma {:induction false} KeepsInTime(cfg: Config, l: Loop, turns: seq<Turn>, clock: int, keptAt: int, gap: nat)
    requires Ticks(turns, clock, gap) && Awaits(cfg, l, keptAt, clock)
    ensures InTime(cfg, l, turns, keptAt, cfg.tentativeTimeout / 2 + gap)
    decreases |turns|
  {
    if turns != [] {
      var t := turns[0];
      KeepsInTime(cfg, Next(cfg, l, t), turns[1..], t.now, if Keeps(l, t) then t.now else keptAt, gap);
    }
  }

  lemma {:induction false} FirstThenInTime(cfg: Config, l: Loop, turns: seq<Turn>, clock: int, gap: nat)
    requires Ticks(turns, clock, gap) && (l.learning || l.due <= clock)
    ensures InTimeOnceKept(cfg, l, turns, cfg.tentativeTimeout / 2 + gap)
    decreases |turns|
  {
    if turns != [] {
      var (t, m) := (turns[0], Next(cfg, l, turns[0]));
      if Keeps(l, t) {
        KeepsInTime(cfg, m, turns[1..], t.now, t.now, gap);
      } else {
        FirstThenInTime(cfg, m, turns[1..], t.now, gap);
      }
    }
  }

  /** From its first house keeping on, a node keeps house at least every h seconds, where h is
      half the tentative timeout plus the time between two turns of the loop. */
  lemma HouseKeptInTime(cfg: Config, learn: bool, start: int, turns: seq<Turn>, gap: nat)
    requires Ticks(turns, start, gap)
    ensures InTimeOnceKept(cfg, Start(cfg, learn, start), turns, cfg.tentativeTimeout / 2 + gap)
  {
    FirstThenInTime(cfg, Start(cfg, learn, start), turns, start, gap);
  }

  // ---------------------------------------------------------------- not too often

  /** Time of the first turn that is not before `from`. */
  function FirstFrom(turns: seq<Turn>, from: int): Option<int> {
    if turns == [] then None else if turns[0].now >= from then Some(turns[0].now) else FirstFrom(turns[1..], from)
  }

  lemma {:induction false} FirstKept(cfg: Config, l: Loop, turns: seq<Turn>)
    requires l.learning || forall k :: 0 <= k < |turns| ==> !turns[k].asked
    ensures var (times, first) := (Kept(cfg, l, turns), FirstFrom(turns, l.due));
      (times == [] <==> first.None?) && (times != [] ==> first == Some(times[0]))
    decreases |turns|
  {
    if turns != [] && !Keeps(l, turns[0]) {
      FirstKept(cfg, Next(cfg, l, turns[0]), turns[1..]);
    }
  }

  /** The first house keeping of a node that learns is at the first turn not before start + block timeout,
      whatever its handlers ask for; without a learning phase it is at the first turn. */
  lemma FirstKeeping(cfg: Config, learn: bool, start: int, turns: seq<Turn>, gap: int)
    requires Ticks(turns, start, gap)
    ensures var times := Kept(cfg, Start(cfg, learn, start), turns);
      if learn then
        var first := FirstFrom(turns, start + cfg.blockTimeout);
        (times == [] <==> first.None?) && (times != [] ==> first == Some(times[0]))
      else turns != [] ==> times != [] && times[0] == turns[0].now
  {
    if learn { FirstKept(cfg, Start(cfg, learn, start), turns); }
  }

  lemma {:induction false} NotBeforeDue(cfg: Config, l: Loop, turns: seq<Turn>, clock: int, gap: int)
    requires Ticks(turns, clock, gap) && forall k :: 0 <= k < |turns| ==> !turns[k].asked
    ensures forall k :: 0 <= k < |Kept(cfg, l, turns)| ==> Kept(cfg, l, turns)[k] >= l.due
    decreases |turns|
  {
    if turns != [] {
      var (t, m) := (turns[0], Next(cfg, l, turns[0]));
      NotBeforeDue(cfg, m, turns[1..], t.now, gap);
    }
  }

  /** Successive times are at least that far apart. */
  ghost predicate Apart(times: seq<int>, d: int) {
    forall k :: 0 < k < |times| ==> times[k] >= times[k - 1] + d
  }

  lemma ApartFrom(t: int, rest: seq<int>, d: int)
    requires Apart(rest, d) && (rest != [] ==> rest[0] >= t + d)
    ensures Apart([t] + rest, d)
  {
    var times := [t] + rest;
    forall k | 0 < k < |times| ensures times[k] >= times[k - 1] + d {
      assert times[k] == rest[k - 1];
      if k > 1 { assert times[k - 1] == rest[k - 2]; }
    }
  }

  /** Unless a handler asks for it, house is not kept again before half a tentative timeout has passed. */
  lemma {:induction false} KeepsApart(cfg: Config, l: Loop, turns: seq<Turn>, clock: int, gap: int)
    requires Ticks(turns, clock, gap) && forall k :: 0 <= k < |turns| ==> !turns[k].asked
    ensures Apart(Kept(cfg, l, turns), cfg.tentativeTimeout / 2)
    decreases |turns|
  {
    if turns != [] {
      var (t, m) := (turns[0], Next(cfg, l, turns[0]));
      KeepsApart(cfg, m, turns[1..], t.now, gap);
      NotBeforeDue(cfg, m, turns[1..], t.now, gap);
      if Keeps(l, t) {
        ApartFrom(t.now, Kept(cfg, m, turns[1..]), cfg.tentativeTimeout / 2);
      }
    }
  }

  /** Every house keeping is asked for in its own turn, and not while learning, or comes at least half a
      tentative timeout after the last one that was due, if there was one. */
  ghost predicate Warranted(cfg: Config, l: Loop, turns: seq<Turn>, lastDue: Option<int>)
    decreases |turns|
  {
    turns == [] ||
    (var t := turns[0];
     && (Keeps(l, t) ==> (t.asked && !l.learning) || lastDue.None? || t.now >= lastDue.value + cfg.tentativeTimeout / 2)
     && Warranted(cfg, Next(cfg, l, t), turns[1..], if l.due <= t.now then Some(t.now) else lastDue))
  }

  lemma {:induction false} WarrantedFrom(cfg: Config, l: Loop, turns: seq<Turn>, lastDue: Option<int>)
    requires lastDue.Some? ==> l.due >= lastDue.value + cfg.tentativeTimeout / 2
    ensures Warranted(cfg, l, turns, lastDue)
    decreases |turns|
  {
    if turns != [] {
      var t := turns[0];
      WarrantedFrom(cfg, Next(cfg, l, t), turns[1..], if l.due <= t.now then Some(t.now) else lastDue);
    }
  }

  lemma KeepingIsWarranted(cfg: Config, learn: bool, start: int, turns: seq<Turn>)
    ensures Warranted(cfg, Start(cfg, learn, start), turns, None)
  {
    WarrantedFrom(cfg, Start(cfg, learn, start), turns, None);
  }

  /** A request is granted: a turn in which a handler asks keeps house, unless the node is learning. */
  lemma {:induction false} AskedIsKept(cfg: Config, l: Loop, turns: seq<Turn>, k: nat)
    requires !l.learning && k < |turns| && turns[k].asked
    ensures turns[k].now in Kept(cfg, l, turns)
    decreases |turns|
  {
    if k > 0 {
      AskedIsKept(cfg, Next(cfg, l, turns[0]), turns[1..], k - 1);
    }
  }

  // ---------------------------------------------------------------- the loop itself

  class EventLoop {
    const cfg: Config
    var learningPhase: bool
    var timeoutTime: int

    function State(): Loop
      reads this
    {
      Loop(learningPhase, timeoutTime)
    }

    constructor (cfg: Config, learningPhase: bool, now: int)
      ensures this.cfg == cfg && State() == Start(cfg, learningPhase, now)
    {
      this.cfg := cfg;
      this.learningPhase := learningPhase;
      timeoutTime := if learningPhase then now + cfg.blockTimeout else now;
    }

    /** One turn of the loop; `asked` is what the handlers returned, or-ed together. */
    method TakeTurn(now: int, asked: bool) returns (keep: bool)
      modifies this
      ensures State() == Next(cfg, old(State()), Turn(now, asked)) && keep == Keeps(old(State()), Turn(now, asked))
    {
      var needHouseKeeping := false;
      if timeoutTime <= now {
        needHouseKeeping := true;
        timeoutTime := now + cfg.tentativeTimeout / 2;
        if learningPhase {
          learningPhase := false;
        }
      }
      needHouseKeeping := needHouseKeeping || asked;
      keep := needHouseKeeping && !learningPhase;
    }
  }
}
