/** What one delivered packet does to a node: the state of each block, and the claims sent
    in answer. */
module HandlerProofs {
  import opened Types
  import opened BlockSpec
  import opened ConsensusSpec
  import opened RefreshProofs

  /** State of a listed block after the packet. */
  function StateAfter(cfg: Config, s: BlockState, p: Packet): BlockState {
    match p.command
    case UpdateClaim => if s.Ours? && p.nodeId < cfg.nodeId then Ours else Claimed
    case Inquire =>
      if s.Ours? then Ours else if s.Claiming? && p.nodeId <= cfg.nodeId then Claiming else Tentative
  }

  /** An owner answers an inquiry, and a claim from a lower id. */
  predicate Provokes(cfg: Config, s: BlockState, p: Packet) {
    s.Ours? && (p.command.Inquire? || p.nodeId < cfg.nodeId)
  }

  predicate ListsFirst(p: Packet, b: nat, k: nat)
    requires k <= |p.payload|
  {
    exists j :: 0 <= j < k && p.payload[j].blockIndex == b
  }

  lemma ListsFirstStep(p: Packet, b: nat, k: nat)
    requires 0 < k <= |p.payload|
    ensures ListsFirst(p, b, k) <==> ListsFirst(p, b, k - 1) || p.payload[k - 1].blockIndex == b
  {
  }

  /** An answer of this node: a successful claim listing only blocks it owned in n. */
  ghost predicate AnswerEvent(cfg: Config, n: Node, e: Event) {
    OwnClaim(cfg, n.blocks, e) && e.ok
  }

  /** From n to r only claims of blocks owned in n are sent, and no block is gained. */
  ghost predicate Answers(cfg: Config, n: Node, r: Node) {
    && n.trace <= r.trace && |r.blocks| == |n.blocks|
    && (forall k :: |n.trace| <= k < |r.trace| ==> AnswerEvent(cfg, n, r.trace[k]))
    && (forall b {:trigger r.blocks[b]} :: 0 <= b < |n.blocks| && r.blocks[b].state.Ours? ==> n.blocks[b].state.Ours?)
  }

  lemma AnswersTrans(cfg: Config, n: Node, m: Node, r: Node)
    requires Answers(cfg, n, m) && Answers(cfg, m, r)
    ensures Answers(cfg, n, r)
  {
    forall k | |n.trace| <= k < |r.trace| ensures AnswerEvent(cfg, n, r.trace[k]) {
      if k < |m.trace| {
        assert r.trace[k] == m.trace[k];
      } else {
        assert AnswerEvent(cfg, m, r.trace[k]);
      }
    }
  }

  // ---------------------------------------------------------------- answering

  function Expired(n: Node, b: nat): Node
    requires b < |n.blocks|
  {
    n.(blocks := n.blocks[b := n.blocks[b].(timeout := 0)])
  }

  lemma AnswerEffect(cfg: Config, link: Link, n: Node, b: nat, now: int)
    requires b < |n.blocks| && Lossless(link)
    ensures var r := Answer(cfg, link, n, b, now);
      && Answers(cfg, n, r)
      && (forall i :: 0 <= i < |n.blocks| ==> r.blocks[i].state == n.blocks[i].state)
      && (n.blocks[b].state.Ours? && now > 0 ==> Announced(r.trace, |n.trace|, b))
  {
    var m := Expired(n, b);
    RefreshSteps(cfg, link, m, now);
    RefreshCovers(cfg, link, m, now);
    var r := Refresh(cfg, link, m, now);
    forall k | |n.trace| <= k < |r.trace| ensures AnswerEvent(cfg, n, r.trace[k]) {
      assert OwnClaim(cfg, m.blocks, r.trace[k]);
    }
  }

  lemma EntryEffect(cfg: Config, link: Link, n: Node, p: Packet, sender: int, e: Payload, now: int)
    requires Lossless(link) && now > 0
    ensures var (r, b) := (Entry(cfg, link, n, p, sender, e, now), e.blockIndex);
      && Answers(cfg, n, r)
      && (forall i :: 0 <= i < |n.blocks| ==>
            r.blocks[i].state == if i == b then StateAfter(cfg, n.blocks[i].state, p) else n.blocks[i].state)
      && (b < |n.blocks| && Provokes(cfg, n.blocks[b].state, p) ==> Announced(r.trace, |n.trace|, b))
      && (!(b < |n.blocks| && Provokes(cfg, n.blocks[b].state, p)) ==> r.trace == n.trace)
  {
    var b := e.blockIndex;
    if b < |n.blocks| && n.blocks[b].state.Ours? {
      AnswerEffect(cfg, link, n, b, now);
    }
  }

  /** The state of block b after the first k entries of a packet, and whether it was announced. */
  ghost predicate HandledAt(cfg: Config, n: Node, r: Node, p: Packet, b: nat, k: nat)
    requires b < |n.blocks| == |r.blocks| && k <= |p.payload|
  {
    var s := n.blocks[b].state;
    && r.blocks[b].state == (if ListsFirst(p, b, k) then StateAfter(cfg, s, p) else s)
    && (ListsFirst(p, b, k) && Provokes(cfg, s, p) ==> Announced(r.trace, |n.trace|, b))
  }

  lemma HandledStep(cfg: Config, n: Node, m: Node, r: Node, p: Packet, b: nat, k: nat)
    requires 0 < k <= |p.payload| && b < |n.blocks| == |m.blocks| == |r.blocks|
    requires n.trace <= m.trace <= r.trace
    requires HandledAt(cfg, n, m, p, b, k - 1)
    requires r.blocks[b].state == if b == p.payload[k - 1].blockIndex then StateAfter(cfg, m.blocks[b].state, p)
                                  else m.blocks[b].state
    requires b == p.payload[k - 1].blockIndex && Provokes(cfg, m.blocks[b].state, p) ==>
      Announced(r.trace, |m.trace|, b)
    ensures HandledAt(cfg, n, r, p, b, k)
  {
    ListsFirstStep(p, b, k);
    if Announced(m.trace, |n.trace|, b) {
      var i :| |n.trace| <= i < |m.trace| && Announces(m.trace[i], b);
      assert Announces(r.trace[i], b);
    }
    if Announced(r.trace, |m.trace|, b) {
      var i :| |m.trace| <= i < |r.trace| && Announces(r.trace[i], b);
      assert Announced(r.trace, |n.trace|, b);
    }
  }

  lemma {:induction false} HandleEffect(cfg: Config, link: Link, n: Node, p: Packet, sender: int, now: int, k: nat)
    requires Lossless(link) && now > 0 && k <= |p.payload|
    ensures var r := HandleFirst(cfg, link, n, p, sender, now, k);
      && Answers(cfg, n, r)
      && (forall b :: 0 <= b < |n.blocks| ==> HandledAt(cfg, n, r, p, b, k))
  {
    if k > 0 {
      var m := HandleFirst(cfg, link, n, p, sender, now, k - 1);
      var r := HandleFirst(cfg, link, n, p, sender, now, k);
      HandleEffect(cfg, link, n, p, sender, now, k - 1);
      EntryEffect(cfg, link, m, p, sender, p.payload[k - 1], now);
      AnswersTrans(cfg, n, m, r);
      forall b | 0 <= b < |n.blocks| ensures HandledAt(cfg, n, r, p, b, k) {
        assert HandledAt(cfg, n, m, p, b, k - 1);
        HandledStep(cfg, n, m, r, p, b, k);
      }
    }
  }

  /** A claim from an id that is not lower provokes no answer. */
  lemma {:induction false} HigherClaimIsSilent(cfg: Config, link: Link, n: Node, p: Packet, sender: int, now: int, k: nat)
    requires Lossless(link) && now > 0 && k <= |p.payload|
    requires p.command.UpdateClaim? && p.nodeId >= cfg.nodeId
    ensures HandleFirst(cfg, link, n, p, sender, now, k).trace == n.trace
  {
    if k > 0 {
      HigherClaimIsSilent(cfg, link, n, p, sender, now, k - 1);
      EntryEffect(cfg, link, HandleFirst(cfg, link, n, p, sender, now, k - 1), p, sender, p.payload[k - 1], now);
    }
  }

  // ---------------------------------------------------------------- what is recorded

  /** What an entry with timeout t leaves of a block whose state does not make the node answer. */
  function BlockAfter(cfg: Config, c: Block, p: Packet, sender: int, t: nat, now: int): Block {
    match p.command
    case UpdateClaim => ClaimedBy(c, p.nodeId, sender, now + t)
    case Inquire => if c.state.Claiming? && p.nodeId <= cfg.nodeId then c else MadeTentative(cfg, c, now)
  }

  /** A block of this node that no packet of this kind and sender makes it defend. */
  predicate Passive(cfg: Config, s: BlockState, p: Packet) {
    !s.Ours? || (p.command.UpdateClaim? && p.nodeId >= cfg.nodeId)
  }

  /** Timeout in the last of the first k entries that lists b. */
  function LastTimeout(p: Packet, b: nat, k: nat): nat
    requires k <= |p.payload|
  {
    if k == 0 then 0
    else if p.payload[k - 1].blockIndex == b then p.payload[k - 1].timeout
    else LastTimeout(p, b, k - 1)
  }

  /** A refresh leaves a block alone that is not owned. */
  lemma RefreshSpares(cfg: Config, link: Link, n: Node, now: int, b: nat)
    requires b < |n.blocks| && !n.blocks[b].state.Ours?
    ensures var r := Refresh(cfg, link, n, now); |r.blocks| == |n.blocks| && r.blocks[b] == n.blocks[b]
  {
    var r := Refresh(cfg, link, n, now);
    RefreshSteps(cfg, link, n, now);
    forall k | |n.trace| <= k < |r.trace| ensures !Announces(r.trace[k], b) {
      assert OwnClaim(cfg, n.blocks, r.trace[k]);
    }
  }

  lemma EntryExact(cfg: Config, link: Link, n: Node, p: Packet, sender: int, e: Payload, now: int, b: nat)
    requires b < |n.blocks| && Passive(cfg, n.blocks[b].state, p)
    ensures var r := Entry(cfg, link, n, p, sender, e, now);
      && |r.blocks| == |n.blocks| && r.tables == n.tables && r.claiming == n.claiming
      && r.blocks[b] == if e.blockIndex == b then BlockAfter(cfg, n.blocks[b], p, sender, e.timeout, now) else n.blocks[b]
  {
    var i := e.blockIndex;
    if i < |n.blocks| && Provokes(cfg, n.blocks[i].state, p) {
      var m := Expired(n, i);
      RefreshSteps(cfg, link, m, now);
      RefreshSpares(cfg, link, m, now, b);
    }
  }

  /** The whole record that the first k entries of a packet leave of a block the node does not defend:
      state, timeout, node id and owner address are those of the last entry that lists it, and a
      block that none lists is untouched. */
  lemma {:induction false} HandleExact(cfg: Config, link: Link, n: Node, p: Packet, sender: int, now: int, k: nat, b: nat)
    requires b < |n.blocks| && k <= |p.payload| && Passive(cfg, n.blocks[b].state, p)
    ensures var r := HandleFirst(cfg, link, n, p, sender, now, k);
      && |r.blocks| == |n.blocks| && r.tables == n.tables && r.claiming == n.claiming
      && r.blocks[b] == if ListsFirst(p, b, k) then BlockAfter(cfg, n.blocks[b], p, sender, LastTimeout(p, b, k), now)
                        else n.blocks[b]
  {
    if k > 0 {
      HandleExact(cfg, link, n, p, sender, now, k - 1, b);
      ListsFirstStep(p, b, k);
      EntryExact(cfg, link, HandleFirst(cfg, link, n, p, sender, now, k - 1), p, sender, p.payload[k - 1], now, b);
    }
  }

  /** The same for a whole packet. */
  lemma PacketExact(cfg: Config, link: Link, n: Node, p: Packet, sender: int, now: int, b: nat)
    requires b < |n.blocks| && Passive(cfg, n.blocks[b].state, p)
    ensures var r := Handle(cfg, link, n, p, sender, now);
      && |r.blocks| == |n.blocks| && r.tables == n.tables && r.claiming == n.claiming
      && r.blocks[b] == if Lists(p, b) then BlockAfter(cfg, n.blocks[b], p, sender, LastTimeout(p, b, |p.payload|), now)
                        else n.blocks[b]
  {
    HandleExact(cfg, link, n, p, sender, now, |p.payload|, b);
    assert ListsFirst(p, b, |p.payload|) <==> Lists(p, b);
  }

  // ---------------------------------------------------------------- number of answers

  lemma {:induction false} GroupsAtMost(ours: seq<nat>)
    ensures |Groups(ours)| <= |ours|
    decreases |ours|
  {
    if ours != [] {
      GroupsAtMost(ours[Head(ours)..]);
    }
  }

  lemma {:induction false} ClaimLogLength(cfg: Config, link: Link, from: nat, blocks: seq<Block>, gs: seq<seq<nat>>, now: int)
    ensures |ClaimLog(cfg, link, from, StaleGroups(cfg, blocks, gs, now))| <= |gs|
    decreases |gs|
  {
    if gs != [] {
      var later := StaleGroups(cfg, blocks, gs[1..], now);
      ClaimLogLength(cfg, link, from, blocks, gs[1..], now);
      ClaimLogLength(cfg, link, from + 1, blocks, gs[1..], now);
      assert ([gs[0]] + later)[1..] == later && [] + later == later;
    }
  }

  lemma {:induction false} IndicesAtMost(blocks: seq<Block>, s: BlockState)
    ensures |Indices(blocks, s)| <= |blocks|
  {
    if blocks != [] {
      IndicesAtMost(blocks[..|blocks| - 1], s);
    }
  }

  /** A refresh sends at most one packet per block. */
  lemma RefreshSendsFew(cfg: Config, link: Link, n: Node, now: int)
    ensures |Refresh(cfg, link, n, now).trace| <= |n.trace| + |n.blocks|
  {
    var ours := Indices(n.blocks, Ours);
    RefreshPackets(cfg, link, n, now);
    ClaimLogLength(cfg, link, |n.trace|, n.blocks, Groups(ours), now);
    GroupsAtMost(ours);
    IndicesAtMost(n.blocks, Ours);
  }

  lemma {:induction false} HandleSendsFew(cfg: Config, link: Link, n: Node, p: Packet, sender: int, now: int, k: nat)
    requires Lossless(link) && now > 0 && k <= |p.payload|
    ensures |HandleFirst(cfg, link, n, p, sender, now, k).trace| <= |n.trace| + k * |n.blocks|
  {
    if k > 0 {
      var m := HandleFirst(cfg, link, n, p, sender, now, k - 1);
      HandleEffect(cfg, link, n, p, sender, now, k - 1);
      HandleSendsFew(cfg, link, n, p, sender, now, k - 1);
      var b := p.payload[k - 1].blockIndex;
      if b < |m.blocks| {
        RefreshSendsFew(cfg, link, Expired(m, b), now);
      }
      assert k * |n.blocks| == (k - 1) * |n.blocks| + |n.blocks|;
    }
  }
}
