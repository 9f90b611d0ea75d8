/** An owner and one peer in a network of any number of nodes, whose multicasts reach everybody at
    the moment they are sent. The peer keeps its record of the owner's claim as long as the block
    stays owned, and a peer that has just joined learns of the claim before it may claim anything. */
module PeerTiming {
  import opened Types
  import opened BlockSpec
  import opened ConsensusSpec
  import HouseSpec
  import opened RefreshProofs
  import HandlerProofs
  import opened ClaimProofs
  import opened Bystander
  import opened NodeProofs
  import Expiry
  import Takeover
  import Network
  import opened OwnerTiming

  // ---------------------------------------------------------------- the peer

  /** The peer has the owner's claim of b on record, running out when the owner's does. */
  predicate Records(oc: Config, b: Block, timeout: int) {
    b.state.Claimed? && b.nodeId == oc.nodeId && b.timeout == timeout
  }

  /** From n to r the block has not come closer to being taken. */
  ghost predicate NoCloser(n: Node, r: Node, b: nat) {
    && b < |n.blocks| == |r.blocks| && r.tables == n.tables && r.claiming == n.claiming
    && r.blocks[b].claimingCounts == n.blocks[b].claimingCounts && !r.blocks[b].state.Ours?
  }

  lemma {:induction false} UniformTimeout(p: Packet, b: nat, k: nat, t: nat)
    requires k <= |p.payload| && HandlerProofs.ListsFirst(p, b, k)
    requires forall i :: 0 <= i < |p.payload| ==> p.payload[i].timeout == t
    ensures HandlerProofs.LastTimeout(p, b, k) == t
  {
    if p.payload[k - 1].blockIndex != b {
      HandlerProofs.ListsFirstStep(p, b, k);
      UniformTimeout(p, b, k - 1, t);
    }
  }

  lemma PacketRecords(oc: Config, cfg: Config, link: Link, n: Node, p: Packet, sender: int, now: int, b: nat)
    requires b < |n.blocks| && !n.blocks[b].state.Ours? && (Lists(p, b) ==> ClaimOf(oc, p))
    ensures var r := Handle(cfg, link, n, p, sender, now);
      && NoCloser(n, r, b)
      && (if Lists(p, b) then Records(oc, r.blocks[b], now + oc.blockTimeout) else r.blocks[b] == n.blocks[b])
  {
    HandlerProofs.PacketExact(cfg, link, n, p, sender, now, b);
    if Lists(p, b) {
      assert HandlerProofs.ListsFirst(p, b, |p.payload|);
      UniformTimeout(p, b, |p.payload|, oc.blockTimeout);
    }
  }

  /** The peer handles a series of packets. */
  ghost function HandleAll(cfg: Config, link: Link, n: Node, ps: seq<Packet>, sender: int, now: int): (r: Node)
    requires NodeInv(cfg, n)
    ensures NodeInv(cfg, r)
  {
    if ps == [] then n
    else
      var m := HandleAll(cfg, link, n, ps[..|ps| - 1], sender, now);
      var p := ps[|ps| - 1];
      HandleKeepsInv(cfg, link, m, p, sender, now, |p.payload|);
      Handle(cfg, link, m, p, sender, now)
  }

  ghost predicate SomeLists(ps: seq<Packet>, b: nat) {
    exists p :: p in ps && Lists(p, b)
  }

  lemma {:induction false} AllRecord(oc: Config, cfg: Config, link: Link, n: Node, ps: seq<Packet>, sender: int, now: int,
                                     b: nat)
    requires NodeInv(cfg, n) && b < |n.blocks| && !n.blocks[b].state.Ours?
    requires forall p :: p in ps && Lists(p, b) ==> ClaimOf(oc, p)
    ensures var r := HandleAll(cfg, link, n, ps, sender, now);
      && NoCloser(n, r, b)
      && (if SomeLists(ps, b) then Records(oc, r.blocks[b], now + oc.blockTimeout) else r.blocks[b] == n.blocks[b])
  {
    if ps != [] {
      var front, p := ps[..|ps| - 1], ps[|ps| - 1];
      assert ps == front + [p];
      assert SomeLists(ps, b) <==> SomeLists(front, b) || Lists(p, b);
      AllRecord(oc, cfg, link, n, front, sender, now, b);
      PacketRecords(oc, cfg, link, HandleAll(cfg, link, n, front, sender, now), p, sender, now, b);
    }
  }

  // ---------------------------------------------------------------- the peer's own house keeping

  /** The block is as it was, up to its needless mark. */
  predicate SameRecord(b: Block, c: Block) {
    c == b.(needlessSince := c.needlessSince)
  }

  lemma BalanceSpares(cfg: Config, link: Link, n: Node, now: int, rnd: nat -> nat, b: nat)
    requires NodeInv(cfg, n) && b < |n.blocks| && n.blocks[b].state.Claimed? && !(Due(n, b) && Takeover.Needy(cfg, n))
    ensures var r := HouseSpec.Balance(cfg, link, n, now, rnd);
      |r.blocks| == |n.blocks| && SameRecord(n.blocks[b], r.blocks[b]) && (r.claiming == n.claiming || b !in r.claiming)
  {
    var needed := HouseSpec.BlocksNeeded(cfg, NumFree(n.blocks, n.tables));
    if needed > 0 {
      var m := if n.needlessMarks then UnmarkNeedless(n) else n;
      ClaimSpares(cfg, link, m, needed, now, rnd, b);
    }
  }

  lemma TimeoutsSpare(cfg: Config, n: Node, now: int, b: nat)
    requires NodeInv(cfg, n) && b < |n.blocks| && n.blocks[b].state.Claimed?
    ensures var (e, lapses) := (CheckTimeouts(n, now), Expiry.Lapses(n.blocks[b], n.tables[b], now));
      && (!lapses ==> e.blocks[b] == n.blocks[b]) && (lapses ==> e.blocks[b].state.Free?)
      && e.claiming == n.claiming && (Due(e, b) <==> Due(n, b))
  {
    Expiry.LapsesExactly(cfg, n, now, b);
  }

  /** The peer's house keeping leaves a record alone that does not lapse, unless it takes the block. */
  lemma KeepingSpares(cfg: Config, link: Link, n: Node, now: int, rnd: nat -> nat, b: nat)
    requires NodeInv(cfg, n) && b < |n.blocks| && n.blocks[b].state.Claimed?
    requires !Expiry.Lapses(n.blocks[b], n.tables[b], now) && !(Due(n, b) && Takeover.Claims(cfg, n, now))
    ensures var r := HouseSpec.HouseKeeping(cfg, link, n, now, rnd);
      |r.blocks| == |n.blocks| && SameRecord(n.blocks[b], r.blocks[b]) && (r.claiming == n.claiming || b !in r.claiming)
  {
    var e := CheckTimeouts(n, now);
    TimeoutsSpare(cfg, n, now, b);
    TimeoutsKeepInv(cfg, n, now);
    BalanceSpares(cfg, link, e, now, rnd, b);
    var d := HouseSpec.Balance(cfg, link, e, now, rnd);
    RefreshSteps(cfg, link, d, now);
    HandlerProofs.RefreshSpares(cfg, link, d, now, b);
  }

  /** A record that does not lapse survives the peer's house keeping if and only if the block is not listed
      with three inquiries or the node has leases enough not to run block_claim. */
  lemma {:induction false} RecordSurvivesExactly(cfg: Config, link: Link, n: Node, now: int, rnd: nat -> nat, b: nat)
    requires NodeInv(cfg, n) && b < |n.blocks| && n.blocks[b].state.Claimed?
    requires !Expiry.Lapses(n.blocks[b], n.tables[b], now)
    ensures var r := HouseSpec.HouseKeeping(cfg, link, n, now, rnd);
      b < |r.blocks| && (SameRecord(n.blocks[b], r.blocks[b]) <==> !(Due(n, b) && Takeover.Claims(cfg, n, now)))
  {
    if Due(n, b) && Takeover.Claims(cfg, n, now) {
      Takeover.HouseKeepingTakesExactly(cfg, link, n, now, rnd, b);
    } else {
      KeepingSpares(cfg, link, n, now, rnd, b);
    }
  }

  /** A claim on record that has not run out is dropped all the same exactly when the peer caches
      leases of the block and none of them is live (block.c:475-480). */
  lemma LiveRecordFreed(cfg: Config, n: Node, now: int, b: nat)
    requires NodeInv(cfg, n) && b < |n.blocks| && n.blocks[b].state.Claimed? && now <= n.blocks[b].timeout
    ensures CheckTimeouts(n, now).blocks[b].state.Free? <==> n.tables[b].Some? && Expiry.AllDead(n.tables[b].value, now)
  {
    TimeoutsSpare(cfg, n, now, b);
  }

  // ---------------------------------------------------------------- the pair

  datatype Pair = Pair(owner: Node, peer: Node, keptAt: int, clock: int)

  /** Something the owner or the peer does, or a multicast of some other node. */
  datatype Move = OwnerDoes(a: Action) | PeerDoes(a: Action) | Others(now: int, packet: Packet, from: int)

  function When(m: Move, clock: int): int {
    match m
    case OwnerDoes(a) => Clock(a, clock)
    case PeerDoes(a) => Clock(a, clock)
    case Others(now, _, _) => now
  }

  /** The owner acts, and the peer, in state q, hears what it sends; `sender` is the owner's address. */
  ghost function OwnerActs(oc: Config, pc: Config, pl: Link, sender: int, s: Pair, q: Node, a: Action): (r: Pair)
    requires NodeInv(oc, s.owner) && NodeInv(pc, q)
    ensures NodeInv(oc, r.owner) && NodeInv(pc, r.peer)
  {
    var (o, now) := (Step(oc, Network.UP, s.owner, a), Clock(a, s.clock));
    Pair(o, HandleAll(pc, pl, q, Network.SentSince(o.trace, |s.owner.trace|), sender, now), KeptAt(a, s.keptAt), now)
  }

  /** A multicast of another node reaches both, and then the owner's answer the peer. What the peer
      sends reaches the owner as moves of its own, at any later time. */
  ghost function PairStep(oc: Config, pc: Config, pl: Link, sender: int, s: Pair, m: Move): (r: Pair)
    requires NodeInv(oc, s.owner) && NodeInv(pc, s.peer)
    ensures NodeInv(oc, r.owner) && NodeInv(pc, r.peer)
  {
    match m
    case OwnerDoes(a) => OwnerActs(oc, pc, pl, sender, s, s.peer, a)
    case PeerDoes(a) => Pair(s.owner, Step(pc, pl, s.peer, a), s.keptAt, When(m, s.clock))
    case Others(now, p, from) =>
      OwnerActs(oc, pc, pl, sender, s, Step(pc, pl, s.peer, Hear(now, p, from)), Hear(now, p, from))
  }

  /** What is known of the peer: it has the claim on record, or it has joined at some time, when the
      owner's claim was to run out at most `lag` seconds later, and listens. */
  datatype Knowledge = Learned | Learning(joined: int, lag: int)

  /** How late the owner may keep house. */
  ghost predicate Margin(oc: Config, h: int, k: Knowledge) {
    && RefreshGap(oc) + h <= oc.blockTimeout
    && (k.Learning? ==> RefreshGap(oc) + h + k.lag < 2 * oc.blockTimeout)
  }

  /** The peer has the claim on record; or, while it is learning, the owner has not announced the
      block since the peer joined. */
  predicate Informed(oc: Config, s: Pair, b: nat, k: Knowledge)
    requires b < |s.owner.blocks| && b < |s.peer.blocks|
  {
    || Records(oc, s.peer.blocks[b], s.owner.blocks[b].timeout)
    || (k.Learning? && s.owner.blocks[b].timeout <= k.joined + k.lag)
  }

  ghost predicate OwnerInv(oc: Config, s: Pair, b: nat) {
    && NodeInv(oc, s.owner) && b < |s.owner.blocks| && s.owner.blocks[b].state.Ours?
    && Fresh(oc, s.owner, s.keptAt) && 0 < s.clock && s.keptAt <= s.clock
  }

  /** The peer neither owns the block nor is about to take it; one that has joined does not list it. */
  ghost predicate PeerInv(pc: Config, n: Node, b: nat, k: Knowledge) {
    && NodeInv(pc, n) && b < |n.blocks| && !n.blocks[b].state.Ours? && !Due(n, b)
    && (k.Learning? ==> b !in n.claiming)
  }

  ghost predicate PairInv(oc: Config, pc: Config, s: Pair, b: nat, k: Knowledge) {
    OwnerInv(oc, s, b) && PeerInv(pc, s.peer, b, k) && Informed(oc, s, b, k)
  }

  /** The conditions on one move: in time; the owner still owns b afterwards; multicasts reach the peer
      only together with the owner; the peer caches no table of b without live leases when it keeps
      house, and while it is learning it keeps no house before it has listened for a block timeout. */
  ghost predicate Allowed(oc: Config, s: Pair, m: Move, r: Pair, b: nat, h: int, k: Knowledge) {
    && s.clock <= When(m, s.clock) <= s.keptAt + h
    && b < |r.owner.blocks| && r.owner.blocks[b].state.Ours?
    && (m.PeerDoes? ==> !m.a.Hear?)
    && (m.PeerDoes? && m.a.KeepHouse? ==>
          && b < |s.peer.tables| && (s.peer.tables[b].Some? ==> !Expiry.AllDead(s.peer.tables[b].value, m.a.now))
          && (k.Learning? ==> k.joined + oc.blockTimeout <= m.a.now))
  }

  lemma SentAbout(oc: Config, n: Node, o: Node, b: nat, now: int)
    requires About(oc, n, o, b, now)
    ensures var sent := Network.SentSince(o.trace, |n.trace|);
      && (forall p :: p in sent && Lists(p, b) ==> ClaimOf(oc, p))
      && (SomeLists(sent, b) <==> Announced(o.trace, |n.trace|, b))
  {
    var sent := Network.SentSince(o.trace, |n.trace|);
    forall p | p in sent && Lists(p, b) ensures ClaimOf(oc, p) && Announced(o.trace, |n.trace|, b) {
      Network.InSentSince(o.trace, |n.trace|, p);
      var k :| |n.trace| <= k < |o.trace| && o.trace[k] == Sent(p, true);
      assert Announces(o.trace[k], b);
    }
    if Announced(o.trace, |n.trace|, b) {
      var k :| |n.trace| <= k < |o.trace| && Announces(o.trace[k], b);
      assert o.trace[k] == Sent(o.trace[k].packet, true);
      Network.InSentSince(o.trace, |n.trace|, o.trace[k].packet);
    }
  }

  /** The owner acts on a peer that knows what it did, or will hear of it now. */
  lemma OwnerMoves(oc: Config, pc: Config, pl: Link, sender: int, s: Pair, q: Node, a: Action, b: nat, k: Knowledge)
    requires PairInv(oc, pc, s, b, k) && s.clock <= Clock(a, s.clock) && NodeInv(pc, q) && NoCloser(s.peer, q, b)
    requires Step(oc, Network.UP, s.owner, a).blocks[b].state.Ours?
    requires q.blocks[b] == s.peer.blocks[b] || Announced(Step(oc, Network.UP, s.owner, a).trace, |s.owner.trace|, b)
    ensures PairInv(oc, pc, OwnerActs(oc, pc, pl, sender, s, q, a), b, k)
  {
    var n, now := s.owner, Clock(a, s.clock);
    var o := Step(oc, Network.UP, n, a);
    StepFresh(oc, Network.UP, n, a, s.keptAt, s.clock);
    StepAbout(oc, Network.UP, n, a, b, s.clock);
    SentAbout(oc, n, o, b, now);
    AllRecord(oc, pc, pl, q, Network.SentSince(o.trace, |n.trace|), sender, now, b);
  }

  /** An owner that keeps its block through a packet about it has announced the block. */
  lemma KeptIsAnnounced(oc: Config, n: Node, p: Packet, from: int, now: int, b: nat)
    requires b < |n.blocks| && n.blocks[b].state.Ours? && now > 0 && Lists(p, b)
    ensures var o := Handle(oc, Network.UP, n, p, from, now);
      |o.blocks| == |n.blocks| && (o.blocks[b].state.Ours? ==> Announced(o.trace, |n.trace|, b))
  {
    var o := Handle(oc, Network.UP, n, p, from, now);
    HandlerProofs.HandleEffect(oc, Network.UP, n, p, from, now, |p.payload|);
    assert HandlerProofs.HandledAt(oc, n, o, p, b, |p.payload|);
    assert HandlerProofs.ListsFirst(p, b, |p.payload|);
  }

  lemma OthersMove(oc: Config, pc: Config, pl: Link, sender: int, s: Pair, now: int, p: Packet, from: int, b: nat, k: Knowledge)
    requires PairInv(oc, pc, s, b, k) && s.clock <= now
    requires Step(oc, Network.UP, s.owner, Hear(now, p, from)).blocks[b].state.Ours?
    ensures PairInv(oc, pc, PairStep(oc, pc, pl, sender, s, Others(now, p, from)), b, k)
  {
    var a := Hear(now, p, from);
    var q := Step(pc, pl, s.peer, a);
    HandlerProofs.PacketExact(pc, pl, s.peer, p, from, now, b);
    if Lists(p, b) { KeptIsAnnounced(oc, s.owner, p, from, now, b); }
    OwnerMoves(oc, pc, pl, sender, s, q, a, b, k);
  }

  /** When the peer keeps house, the claim is on record and has not run out. */
  lemma RecordIsLive(oc: Config, pc: Config, s: Pair, b: nat, h: int, k: Knowledge, now: int)
    requires PairInv(oc, pc, s, b, k) && Margin(oc, h, k)
    requires now <= s.keptAt + h && (k.Learning? ==> k.joined + oc.blockTimeout <= now)
    ensures Records(oc, s.peer.blocks[b], s.owner.blocks[b].timeout) && now <= s.peer.blocks[b].timeout
  {
    assert !Stale(oc, s.owner.blocks[b], s.keptAt);
  }

  lemma PeerMoves(oc: Config, pc: Config, pl: Link, sender: int, s: Pair, a: Action, b: nat, h: int, k: Knowledge)
    requires PairInv(oc, pc, s, b, k) && Margin(oc, h, k)
    requires var m := PeerDoes(a); Allowed(oc, s, m, PairStep(oc, pc, pl, sender, s, m), b, h, k)
    ensures PairInv(oc, pc, PairStep(oc, pc, pl, sender, s, PeerDoes(a)), b, k)
  {
    if a.KeepHouse? {
      RecordIsLive(oc, pc, s, b, h, k, a.now);
      KeepingSpares(pc, pl, s.peer, a.now, a.rnd, b);
    } else {
      ServiceKeepsBlocks(pc, pl, s.peer, a, b);
    }
  }

  lemma PairMoves(oc: Config, pc: Config, pl: Link, sender: int, s: Pair, m: Move, b: nat, h: int, k: Knowledge)
    requires PairInv(oc, pc, s, b, k) && Margin(oc, h, k)
    requires Allowed(oc, s, m, PairStep(oc, pc, pl, sender, s, m), b, h, k)
    ensures PairInv(oc, pc, PairStep(oc, pc, pl, sender, s, m), b, k)
  {
    match m
    case OwnerDoes(a) => OwnerMoves(oc, pc, pl, sender, s, s.peer, a, b, k);
    case PeerDoes(a) => PeerMoves(oc, pc, pl, sender, s, a, b, h, k);
    case Others(now, p, from) => OthersMove(oc, pc, pl, sender, s, now, p, from, b, k);
  }

  // ---------------------------------------------------------------- runs

  ghost function PairRun(oc: Config, pc: Config, pl: Link, sender: int, s: Pair, moves: seq<Move>): (r: Pair)
    requires NodeInv(oc, s.owner) && NodeInv(pc, s.peer)
    ensures NodeInv(oc, r.owner) && NodeInv(pc, r.peer)
    decreases |moves|
  {
    if moves == [] then s
    else PairRun(oc, pc, pl, sender, PairStep(oc, pc, pl, sender, s, moves[0]), moves[1..])
  }

  ghost predicate AllAllowed(oc: Config, pc: Config, pl: Link, sender: int, s: Pair, moves: seq<Move>, b: nat, h: int, k: Knowledge)
    requires NodeInv(oc, s.owner) && NodeInv(pc, s.peer)
    decreases |moves|
  {
    moves == [] ||
    (var r := PairStep(oc, pc, pl, sender, s, moves[0]);
     Allowed(oc, s, moves[0], r, b, h, k) && AllAllowed(oc, pc, pl, sender, r, moves[1..], b, h, k))
  }

  lemma {:induction false} PairInvHolds(oc: Config, pc: Config, pl: Link, sender: int, s: Pair, moves: seq<Move>,
                                        b: nat, h: int, k: Knowledge)
    requires PairInv(oc, pc, s, b, k) && Margin(oc, h, k)
    requires AllAllowed(oc, pc, pl, sender, s, moves, b, h, k)
    ensures PairInv(oc, pc, PairRun(oc, pc, pl, sender, s, moves), b, k)
    decreases |moves|
  {
    if moves != [] {
      PairMoves(oc, pc, pl, sender, s, moves[0], b, h, k);
      PairInvHolds(oc, pc, pl, sender, PairStep(oc, pc, pl, sender, s, moves[0]), moves[1..], b, h, k);
    }
  }

  /** A recorded claim never times out at the peer while its owner keeps the block and keeps house at
      least every h seconds, h at most the block timeout less the refresh gap, whatever other nodes
      multicast about the block. */
  lemma {:induction false} RecordNeverExpires(oc: Config, pc: Config, pl: Link, sender: int, s: Pair, moves: seq<Move>,
                                              b: nat, h: int)
    requires PairInv(oc, pc, s, b, Learned) && h <= oc.blockTimeout - RefreshGap(oc)
    requires AllAllowed(oc, pc, pl, sender, s, moves, b, h, Learned)
    ensures var r := PairRun(oc, pc, pl, sender, s, moves);
      b < |r.owner.blocks| && b < |r.peer.blocks| && Records(oc, r.peer.blocks[b], r.owner.blocks[b].timeout)
  {
    PairInvHolds(oc, pc, pl, sender, s, moves, b, h, Learned);
  }

  /** The pair at the moment the peer joins, with an empty state. */
  ghost function Joining(oc: Config, pc: Config, owner: Node, keptAt: int, joined: int): (s: Pair)
    requires NodeInv(oc, owner)
    ensures NodeInv(oc, s.owner) && NodeInv(pc, s.peer)
  {
    InitialInv(pc, joined);
    Pair(owner, Initial(pc, joined), keptAt, joined)
  }

  /** The owner has b, has kept its claims fresh, and its claim of b runs out at most lag seconds after
      the peer joins. With an owner that last announced b at the time t, lag is t + timeout - joined. */
  ghost predicate Established(oc: Config, owner: Node, b: nat, keptAt: int, joined: int, lag: int) {
    && NodeInv(oc, owner) && b < |owner.blocks| && owner.blocks[b].state.Ours?
    && Fresh(oc, owner, keptAt) && keptAt <= joined && 0 < joined
    && owner.blocks[b].timeout <= joined + lag
  }

  /** The peer has not put out its hand for b. */
  predicate HandsOff(n: Node, b: nat) {
    b < |n.blocks| && b !in n.claiming && !n.blocks[b].state.Ours? && !n.blocks[b].state.Claiming?
  }

  /** Learning phase: a peer that joins while another node owns b, and that first keeps house after
      listening for a block timeout, never selects or owns b as long as the owner keeps it. The refresh
      gap + h may be up to the block timeout, and with lag must stay below two of them. */
  lemma {:induction false} LearningIsSound(oc: Config, pc: Config, pl: Link, sender: int, owner: Node, keptAt: int, joined: int,
                                           lag: int, moves: seq<Move>, b: nat, h: int)
    requires Established(oc, owner, b, keptAt, joined, lag) && b < pc.numberOfBlocks
    requires RefreshGap(oc) + h <= oc.blockTimeout && RefreshGap(oc) + h + lag < 2 * oc.blockTimeout
    requires AllAllowed(oc, pc, pl, sender, Joining(oc, pc, owner, keptAt, joined), moves, b, h, Learning(joined, lag))
    ensures HandsOff(PairRun(oc, pc, pl, sender, Joining(oc, pc, owner, keptAt, joined), moves).peer, b)
  {
    var s := Joining(oc, pc, owner, keptAt, joined);
    assert PairInv(oc, pc, s, b, Learning(joined, lag));
    PairInvHolds(oc, pc, pl, sender, s, moves, b, h, Learning(joined, lag));
    assert ClaimInv(PairRun(oc, pc, pl, sender, s, moves).peer);
  }
}
