/** What block_update_claims does: which packets it sends and which timeouts it moves. */
module RefreshProofs {
  import opened Types
  import opened BlockSpec

  /** Some successful send logged at position `from` or later lists block i. */
  ghost predicate Announced(trace: seq<Event>, from: nat, i: nat) {
    exists k :: from <= k < |trace| && Announces(trace[k], i)
  }

  predicate Announces(e: Event, i: nat) {
    e.Sent? && e.ok && Lists(e.packet, i)
  }

  /** An UPDATECLAIM of this node that lists 1 to 32 of its own blocks. */
  ghost predicate OwnClaim(cfg: Config, blocks: seq<Block>, e: Event) {
    && e.Sent? && e.packet.nodeId == cfg.nodeId && e.packet.command.UpdateClaim?
    && 1 <= |e.packet.payload| <= 32
    && forall k :: 0 <= k < |e.packet.payload| ==>
         && e.packet.payload[k].blockIndex < |blocks|
         && blocks[e.packet.payload[k].blockIndex].state.Ours?
         && e.packet.payload[k].timeout == cfg.blockTimeout
  }

  ghost predicate OwnedHere(n: Node, ours: seq<nat>) {
    forall i {:trigger i in ours} :: i in ours ==> i < |n.blocks| && n.blocks[i].state.Ours?
  }

  /** From n to r only claims are sent, and exactly the announced blocks get a new timeout. */
  ghost predicate RefreshStep(cfg: Config, link: Link, n: Node, r: Node, now: int) {
    && r.tables == n.tables && r.claiming == n.claiming && r.amount == n.amount && r.needlessMarks == n.needlessMarks
    && |r.blocks| == |n.blocks|
    && n.trace <= r.trace
    && (forall k :: |n.trace| <= k < |r.trace| ==> OwnClaim(cfg, n.blocks, r.trace[k]) && r.trace[k].ok == link(k))
    && (forall i :: 0 <= i < |n.blocks| ==>
          r.blocks[i] == if Announced(r.trace, |n.trace|, i)
                         then n.blocks[i].(timeout := now + cfg.blockTimeout) else n.blocks[i])
  }

  lemma ClaimPacketLists(cfg: Config, group: seq<nat>, i: nat)
    ensures Lists(ClaimPacket(cfg, group), i) <==> i in group
  {
    var p := ClaimPacket(cfg, group);
    if i in group {
      var k :| 0 <= k < |group| && group[k] == i;
      assert p.payload[k].blockIndex == i;
    }
  }

  lemma ClaimIsOwn(cfg: Config, blocks: seq<Block>, group: seq<nat>, ok: bool)
    requires forall i {:trigger i in group} :: i in group ==> i < |blocks| && blocks[i].state.Ours?
    requires 1 <= |group| <= UPDATE_CLAIM_MAX_BLOCKS
    ensures OwnClaim(cfg, blocks, Sent(ClaimPacket(cfg, group), ok))
  {
    var p := ClaimPacket(cfg, group);
    assert forall k :: 0 <= k < |group| ==> p.payload[k].blockIndex == group[k] && group[k] in group;
  }

  /** One send of a claim, with its effect on the blocks it lists. */
  lemma OneClaimStep(cfg: Config, link: Link, n: Node, r: Node, e: Event, now: int)
    requires OwnClaim(cfg, n.blocks, e) && e.ok == link(|n.trace|) && r == n.(trace := n.trace + [e], blocks := r.blocks)
    requires |r.blocks| == |n.blocks|
    requires forall i :: 0 <= i < |n.blocks| ==>
      r.blocks[i] == if Announces(e, i) then n.blocks[i].(timeout := now + cfg.blockTimeout) else n.blocks[i]
    ensures RefreshStep(cfg, link, n, r, now)
  {
    forall i | 0 <= i < |n.blocks| ensures Announced(r.trace, |n.trace|, i) <==> Announces(e, i) {
      AnnouncedLast(n.trace, e, i);
    }
    forall k | |n.trace| <= k < |r.trace| ensures OwnClaim(cfg, n.blocks, r.trace[k]) && r.trace[k].ok == link(k) {
      assert r.trace[k] == e;
    }
  }

  lemma SendClaimStep(cfg: Config, link: Link, n: Node, group: seq<nat>, now: int)
    requires OwnedHere(n, group) && 1 <= |group| <= UPDATE_CLAIM_MAX_BLOCKS
    ensures RefreshStep(cfg, link, n, SendClaim(cfg, link, n, group, now), now)
  {
    var r, e := SendClaim(cfg, link, n, group, now), Sent(ClaimPacket(cfg, group), link(|n.trace|));
    ClaimIsOwn(cfg, n.blocks, group, e.ok);
    forall i | 0 <= i < |n.blocks|
      ensures r.blocks[i] == if Announces(e, i) then n.blocks[i].(timeout := now + cfg.blockTimeout) else n.blocks[i]
    {
      ClaimPacketLists(cfg, group, i);
    }
    OneClaimStep(cfg, link, n, r, e, now);
  }

  lemma AnnouncedLast(trace: seq<Event>, e: Event, i: nat)
    ensures Announced(trace + [e], |trace|, i) <==> Announces(e, i)
  {
    assert (trace + [e])[|trace|] == e;
  }

  lemma StillOwned(cfg: Config, link: Link, n: Node, m: Node, now: int, ours: seq<nat>)
    requires RefreshStep(cfg, link, n, m, now) && OwnedHere(n, ours)
    ensures OwnedHere(m, ours)
  {
  }

  lemma SendGroupStep(cfg: Config, link: Link, n: Node, ours: seq<nat>, now: int)
    requires OwnedHere(n, ours) && ours != []
    ensures RefreshStep(cfg, link, n, SendGroup(cfg, link, n, ours[..Head(ours)], now), now)
    ensures OwnedHere(SendGroup(cfg, link, n, ours[..Head(ours)], now), ours[Head(ours)..])
  {
    var group, rest := ours[..Head(ours)], ours[Head(ours)..];
    assert OwnedHere(n, group) && OwnedHere(n, rest) by {
      assert ours == group + rest;
      assert forall i :: i in group || i in rest ==> i in ours;
    }
    if AnyStale(cfg, n.blocks, group, now) {
      SendClaimStep(cfg, link, n, group, now);
    }
    StillOwned(cfg, link, n, SendGroup(cfg, link, n, group, now), now, rest);
  }

  lemma RefreshStepTrans(cfg: Config, link: Link, n: Node, m: Node, r: Node, now: int)
    requires RefreshStep(cfg, link, n, m, now) && RefreshStep(cfg, link, m, r, now)
    ensures RefreshStep(cfg, link, n, r, now)
  {
    forall i | 0 <= i < |n.blocks|
      ensures Announced(r.trace, |n.trace|, i) <==> Announced(m.trace, |n.trace|, i) || Announced(r.trace, |m.trace|, i)
    {
      if Announced(m.trace, |n.trace|, i) {
        var k :| |n.trace| <= k < |m.trace| && Announces(m.trace[k], i);
        assert Announces(r.trace[k], i);
      }
    }
    forall k | |n.trace| <= k < |r.trace|
      ensures OwnClaim(cfg, n.blocks, r.trace[k]) && r.trace[k].ok == link(k)
    {
      if k < |m.trace| { assert r.trace[k] == m.trace[k]; }
    }
  }

  lemma {:induction false} SendGroupsStep(cfg: Config, link: Link, n: Node, ours: seq<nat>, now: int)
    requires OwnedHere(n, ours)
    ensures RefreshStep(cfg, link, n, SendGroups(cfg, link, n, ours, now), now)
    decreases |ours|
  {
    if ours != [] {
      var m := SendGroup(cfg, link, n, ours[..Head(ours)], now);
      SendGroupStep(cfg, link, n, ours, now);
      SendGroupsStep(cfg, link, m, ours[Head(ours)..], now);
      RefreshStepTrans(cfg, link, n, m, SendGroups(cfg, link, m, ours[Head(ours)..], now), now);
    }
  }

  lemma RefreshSteps(cfg: Config, link: Link, n: Node, now: int)
    ensures RefreshStep(cfg, link, n, Refresh(cfg, link, n, now), now)
  {
    SendGroupsStep(cfg, link, n, Indices(n.blocks, Ours), now);
  }

  lemma QuotientIs(x: nat, f: nat, g: nat)
    requires f >= 1 && g * f <= x < (g + 1) * f
    ensures x / f == g
  {
    var q := x / f;
    assert q * f <= x < (q + 1) * f;
    if q < g { NotBelow(q, g, f); }
    if g < q { NotBelow(g, q, f); }
  }

  lemma NotBelow(a: nat, b: nat, f: nat)
    requires a < b
    ensures (a + 1) * f <= b * f
  {
    assert b * f - (a + 1) * f == (b - (a + 1)) * f;
  }

  /** An owned block is due for a refresh when less than the block timeout without one refresh_factor-th of it,
      rounded down, is left. */
  lemma {:induction false} StaleExactly(cfg: Config, b: Block, now: int, g: nat)
    requires g * cfg.refreshFactor <= cfg.blockTimeout < (g + 1) * cfg.refreshFactor
    ensures RefreshGap(cfg) == g
    ensures Stale(cfg, b, now) <==> b.state.Ours? && b.timeout - now < cfg.blockTimeout - g
  {
    QuotientIs(cfg.blockTimeout, cfg.refreshFactor, g);
  }

  ghost predicate Lossless(link: Link) {
    forall k :: link(k)
  }

  lemma {:induction false} SendGroupsCovers(cfg: Config, link: Link, n: Node, ours: seq<nat>, now: int, i: nat)
    requires OwnedHere(n, ours) && Lossless(link)
    requires i in ours && Stale(cfg, n.blocks[i], now)
    ensures Announced(SendGroups(cfg, link, n, ours, now).trace, |n.trace|, i)
    decreases |ours|
  {
    var group, rest := ours[..Head(ours)], ours[Head(ours)..];
    assert ours == group + rest;
    var m := SendGroup(cfg, link, n, group, now);
    SendGroupStep(cfg, link, n, ours, now);
    SendGroupsStep(cfg, link, m, rest, now);
    if i in group {
      ClaimPacketLists(cfg, group, i);
      assert Announces(SendGroups(cfg, link, m, rest, now).trace[|n.trace|], i);
    } else {
      SendGroupsCovers(cfg, link, m, rest, now, i);
    }
  }

  /** With lossless sends a refresh announces every stale block, so that afterwards every
      owned block is at or above the refresh threshold. */
  lemma RefreshCovers(cfg: Config, link: Link, n: Node, now: int)
    requires Lossless(link)
    ensures var r := Refresh(cfg, link, n, now);
      && |r.blocks| == |n.blocks|
      && (forall i :: 0 <= i < |n.blocks| && Stale(cfg, n.blocks[i], now) ==> Announced(r.trace, |n.trace|, i))
      && (forall i :: 0 <= i < |n.blocks| ==> !Stale(cfg, r.blocks[i], now))
  {
    RefreshSteps(cfg, link, n, now);
    forall i | 0 <= i < |n.blocks| && Stale(cfg, n.blocks[i], now)
      ensures Announced(Refresh(cfg, link, n, now).trace, |n.trace|, i)
    {
      SendGroupsCovers(cfg, link, n, Indices(n.blocks, Ours), now, i);
    }
  }

  // ---------------------------------------------------------------- exact packets

  /** The owned blocks cut into groups of 32 in index order. */
  function Groups(ours: seq<nat>): (gs: seq<seq<nat>>)
    ensures Concat(gs) == ours
    ensures forall g :: 0 <= g < |gs| ==> 1 <= |gs[g]| <= UPDATE_CLAIM_MAX_BLOCKS
    ensures forall g :: 0 <= g < |gs| - 1 ==> |gs[g]| == UPDATE_CLAIM_MAX_BLOCKS
    decreases |ours|
  {
    if ours == [] then [] else [ours[..Head(ours)]] + Groups(ours[Head(ours)..])
  }

  function Concat(gs: seq<seq<nat>>): seq<nat> {
    if gs == [] then [] else gs[0] + Concat(gs[1..])
  }

  function StaleGroups(cfg: Config, blocks: seq<Block>, gs: seq<seq<nat>>, now: int): seq<seq<nat>> {
    if gs == [] then []
    else (if AnyStale(cfg, blocks, gs[0], now) then [gs[0]] else []) + StaleGroups(cfg, blocks, gs[1..], now)
  }

  function ClaimLog(cfg: Config, link: Link, from: nat, gs: seq<seq<nat>>): seq<Event>
    decreases |gs|
  {
    if gs == [] then []
    else [Sent(ClaimPacket(cfg, gs[0]), link(from))] + ClaimLog(cfg, link, from + 1, gs[1..])
  }

  lemma {:induction false} StaleGroupsFrame(cfg: Config, a: seq<Block>, b: seq<Block>, gs: seq<seq<nat>>, now: int)
    requires |a| == |b|
    requires forall i :: i in Concat(gs) && i < |a| ==> a[i] == b[i]
    ensures StaleGroups(cfg, a, gs, now) == StaleGroups(cfg, b, gs, now)
  {
    if gs != [] {
      assert Concat(gs) == gs[0] + Concat(gs[1..]);
      assert AnyStale(cfg, a, gs[0], now) == AnyStale(cfg, b, gs[0], now);
      StaleGroupsFrame(cfg, a, b, gs[1..], now);
    }
  }

  lemma {:induction false} SendGroupsLog(cfg: Config, link: Link, n: Node, ours: seq<nat>, now: int)
    requires OwnedHere(n, ours)
    requires Ascending(ours)
    ensures SendGroups(cfg, link, n, ours, now).trace
         == n.trace + ClaimLog(cfg, link, |n.trace|, StaleGroups(cfg, n.blocks, Groups(ours), now))
    decreases |ours|
  {
    if ours != [] {
      var group, rest := ours[..Head(ours)], ours[Head(ours)..];
      SendGroupStep(cfg, link, n, ours, now);
      AscendingTail(ours, Head(ours));
      SendGroupsLog(cfg, link, SendGroup(cfg, link, n, group, now), rest, now);
      OtherGroupsUntouched(cfg, link, n, ours, now);
      StaleGroupsSplit(cfg, n.blocks, ours, now);
      LogSplit(cfg, link, n, group, StaleGroups(cfg, n.blocks, Groups(rest), now), now);
    }
  }

  lemma LogSplit(cfg: Config, link: Link, n: Node, group: seq<nat>, later: seq<seq<nat>>, now: int)
    ensures var m := SendGroup(cfg, link, n, group, now);
      m.trace + ClaimLog(cfg, link, |m.trace|, later)
      == n.trace + ClaimLog(cfg, link, |n.trace|,
                            (if AnyStale(cfg, n.blocks, group, now) then [group] else []) + later)
  {
    assert ([group] + later)[1..] == later && [] + later == later;
  }

  lemma AscendingTail(s: seq<nat>, k: nat)
    requires Ascending(s) && k <= |s|
    ensures Ascending(s[k..])
    ensures forall i :: i in s[k..] ==> i !in s[..k]
  {
    forall i | i in s[k..] ensures i !in s[..k] {
      var j :| 0 <= j < |s[k..]| && s[k..][j] == i;
      assert s[k + j] == i;
    }
  }

  lemma StaleGroupsSplit(cfg: Config, blocks: seq<Block>, ours: seq<nat>, now: int)
    requires ours != []
    ensures StaleGroups(cfg, blocks, Groups(ours), now)
         == (if AnyStale(cfg, blocks, ours[..Head(ours)], now) then [ours[..Head(ours)]] else [])
            + StaleGroups(cfg, blocks, Groups(ours[Head(ours)..]), now)
  {
    assert Groups(ours)[1..] == Groups(ours[Head(ours)..]);
  }

  lemma OtherGroupsUntouched(cfg: Config, link: Link, n: Node, ours: seq<nat>, now: int)
    requires OwnedHere(n, ours) && ours != []
    requires Ascending(ours)
    ensures var m := SendGroup(cfg, link, n, ours[..Head(ours)], now);
      StaleGroups(cfg, n.blocks, Groups(ours[Head(ours)..]), now)
      == StaleGroups(cfg, m.blocks, Groups(ours[Head(ours)..]), now)
  {
    var group, rest := ours[..Head(ours)], ours[Head(ours)..];
    var m := SendGroup(cfg, link, n, group, now);
    SendGroupStep(cfg, link, n, ours, now);
    AscendingTail(ours, Head(ours));
    forall i | i in rest && i < |n.blocks| ensures m.blocks[i] == n.blocks[i] {
      assert i !in group;
    }
    StaleGroupsFrame(cfg, n.blocks, m.blocks, Groups(rest), now);
  }

  /** The batched refresh sends exactly the groups of 32 owned blocks that hold a stale
      block, in index order, and nothing when no block is stale. */
  lemma RefreshPackets(cfg: Config, link: Link, n: Node, now: int)
    ensures Refresh(cfg, link, n, now).trace
         == n.trace + ClaimLog(cfg, link, |n.trace|, StaleGroups(cfg, n.blocks, Groups(Indices(n.blocks, Ours)), now))
    ensures (forall i :: 0 <= i < |n.blocks| ==> !Stale(cfg, n.blocks[i], now)) <==>
            Refresh(cfg, link, n, now).trace == n.trace
    ensures (forall i :: 0 <= i < |n.blocks| ==> !Stale(cfg, n.blocks[i], now)) ==>
            Refresh(cfg, link, n, now) == n
  {
    var ours := Indices(n.blocks, Ours);
    IndicesAscend(n.blocks, Ours);
    SendGroupsLog(cfg, link, n, ours, now);
    RefreshSteps(cfg, link, n, now);
    var r := Refresh(cfg, link, n, now);
    StaleGroupsEmpty(cfg, n.blocks, Groups(ours), now);
    assert r.trace == n.trace ==> r.blocks == n.blocks;
    if exists i :: 0 <= i < |n.blocks| && Stale(cfg, n.blocks[i], now) {
      var i: nat :| i < |n.blocks| && Stale(cfg, n.blocks[i], now);
      assert i in ours;
    }
  }

  lemma {:induction false} StaleGroupsEmpty(cfg: Config, blocks: seq<Block>, gs: seq<seq<nat>>, now: int)
    ensures StaleGroups(cfg, blocks, gs, now) == [] <==>
            forall i :: i in Concat(gs) && i < |blocks| ==> !Stale(cfg, blocks[i], now)
  {
    if gs != [] {
      StaleGroupsEmpty(cfg, blocks, gs[1..], now);
      assert Concat(gs) == gs[0] + Concat(gs[1..]);
    }
  }

  // ---------------------------------------------------------------- exact announcements

  /** How many owned blocks come before block b. */
  function Rank(blocks: seq<Block>, b: nat): nat
    requires b <= |blocks|
  {
    |Indices(blocks[..b], Ours)|
  }

  lemma RankIsPosition(blocks: seq<Block>, b: nat)
    requires b < |blocks| && blocks[b].state.Ours?
    ensures var ours := Indices(blocks, Ours); Rank(blocks, b) < |ours| && ours[Rank(blocks, b)] == b
  {
    PositionOf(blocks, Ours, b);
  }

  /** Number of the group that holds position k. */
  function Batch(k: nat): nat {
    if k < UPDATE_CLAIM_MAX_BLOCKS then 0 else 1 + Batch(k - UPDATE_CLAIM_MAX_BLOCKS)
  }

  lemma {:induction false} BatchIsQuotient(k: nat)
    ensures Batch(k) == k / 32
  {
    if k >= UPDATE_CLAIM_MAX_BLOCKS {
      BatchIsQuotient(k - UPDATE_CLAIM_MAX_BLOCKS);
    }
  }

  lemma FirstGroup(ours: seq<nat>)
    requires ours != []
    ensures var (group, rest) := (ours[..Head(ours)], ours[Head(ours)..]);
      && Groups(ours) == [group] + Groups(rest) && ours == group + rest
      && 1 <= |group| <= UPDATE_CLAIM_MAX_BLOCKS && (rest != [] ==> |group| == UPDATE_CLAIM_MAX_BLOCKS)
  {
  }

  /** Group g holds the positions from 32 * g on. */
  lemma {:induction false} GroupHolds(ours: seq<nat>, k: nat)
    requires k < |ours|
    ensures var (gs, g) := (Groups(ours), Batch(k)); g < |gs| && ours[k] in gs[g]
    decreases |ours|
  {
    var group, rest := ours[..Head(ours)], ours[Head(ours)..];
    FirstGroup(ours);
    if k < |group| {
      assert group[k] == ours[k];
    } else {
      GroupHolds(rest, k - |group|);
      assert rest[k - |group|] == ours[k] && Groups(ours)[1..] == Groups(rest);
    }
  }

  lemma InFirstGroup(ours: seq<nat>, i: nat) returns (k: nat)
    requires ours != [] && i in ours[..Head(ours)]
    ensures k < |ours| && ours[k] == i && Batch(k) == 0
  {
    k :| 0 <= k < Head(ours) && ours[..Head(ours)][k] == i;
  }

  lemma LaterGroup(ours: seq<nat>, g: nat)
    requires 0 < g < |Groups(ours)|
    ensures ours != [] && Head(ours) == UPDATE_CLAIM_MAX_BLOCKS <= |ours|
    ensures g - 1 < |Groups(ours[Head(ours)..])| && Groups(ours)[g] == Groups(ours[Head(ours)..])[g - 1]
  {
    FirstGroup(ours);
  }

  lemma {:induction false} GroupOnly(ours: seq<nat>, g: nat, i: nat) returns (k: nat)
    requires g < |Groups(ours)| && i in Groups(ours)[g]
    ensures k < |ours| && ours[k] == i && Batch(k) == g
    decreases g
  {
    if g == 0 {
      k := InFirstGroup(ours, i);
    } else {
      LaterGroup(ours, g);
      var j := GroupOnly(ours[Head(ours)..], g - 1, i);
      k := UPDATE_CLAIM_MAX_BLOCKS + j;
    }
  }

  /** The owned block i is announced together with b: their ranks fall into the same group of 32. */
  predicate Together(blocks: seq<Block>, b: nat, i: nat) {
    && b < |blocks| && i < |blocks| && blocks[b].state.Ours? && blocks[i].state.Ours?
    && Batch(Rank(blocks, b)) == Batch(Rank(blocks, i))
  }

  lemma RankOnly(blocks: seq<Block>, k: nat)
    requires k < |Indices(blocks, Ours)|
    ensures var b := Indices(blocks, Ours)[k]; b < |blocks| && blocks[b].state.Ours? && Rank(blocks, b) == k
  {
    var ours := Indices(blocks, Ours);
    assert ours[k] in ours;
    RankIsPosition(blocks, ours[k]);
    IndicesAscend(blocks, Ours);
  }

  lemma SameGroup(blocks: seq<Block>, b: nat, g: nat)
    requires var ours := Indices(blocks, Ours); g < |Groups(ours)| && b in Groups(ours)[g]
    ensures b < |blocks| && blocks[b].state.Ours? && Batch(Rank(blocks, b)) == g
  {
    var ours := Indices(blocks, Ours);
    var k := GroupOnly(ours, g, b);
    RankOnly(blocks, k);
  }

  lemma {:induction false} InStaleGroups(cfg: Config, blocks: seq<Block>, gs: seq<seq<nat>>, now: int, group: seq<nat>)
    ensures group in StaleGroups(cfg, blocks, gs, now) <==> group in gs && AnyStale(cfg, blocks, group, now)
  {
    if gs != [] {
      InStaleGroups(cfg, blocks, gs[1..], now, group);
      assert gs == [gs[0]] + gs[1..];
    }
  }

  lemma {:induction false} LogAnnounces(cfg: Config, link: Link, from: nat, gs: seq<seq<nat>>, b: nat)
    requires Lossless(link)
    ensures (exists k :: 0 <= k < |ClaimLog(cfg, link, from, gs)| && Announces(ClaimLog(cfg, link, from, gs)[k], b))
        <==> exists group: seq<nat> :: group in gs && b in group
    decreases |gs|
  {
    if gs != [] {
      var log, rest := ClaimLog(cfg, link, from, gs), ClaimLog(cfg, link, from + 1, gs[1..]);
      LogAnnounces(cfg, link, from + 1, gs[1..], b);
      ClaimPacketLists(cfg, gs[0], b);
      assert gs == [gs[0]] + gs[1..] && log == [log[0]] + rest;
      assert Announces(log[0], b) <==> b in gs[0];
      if exists k :: 0 <= k < |rest| && Announces(rest[k], b) {
        var k :| 0 <= k < |rest| && Announces(rest[k], b);
        assert Announces(log[k + 1], b);
      }
      if exists k :: 0 <= k < |log| && Announces(log[k], b) {
        var k :| 0 <= k < |log| && Announces(log[k], b);
        if k > 0 { assert Announces(rest[k - 1], b); }
      }
    }
  }

  /** Some block announced together with b has come below the refresh threshold. */
  ghost predicate Swept(cfg: Config, blocks: seq<Block>, b: nat, now: int) {
    exists i: nat :: Together(blocks, b, i) && Stale(cfg, blocks[i], now)
  }

  lemma SweptInGroup(cfg: Config, blocks: seq<Block>, b: nat, i: nat, now: int) returns (group: seq<nat>)
    requires Together(blocks, b, i) && Stale(cfg, blocks[i], now)
    ensures group in StaleGroups(cfg, blocks, Groups(Indices(blocks, Ours)), now) && b in group
  {
    var gs, g := Groups(Indices(blocks, Ours)), Batch(Rank(blocks, b));
    RankIsPosition(blocks, b);
    RankIsPosition(blocks, i);
    GroupHolds(Indices(blocks, Ours), Rank(blocks, b));
    GroupHolds(Indices(blocks, Ours), Rank(blocks, i));
    group := gs[g];
    InStaleGroups(cfg, blocks, gs, now, group);
  }

  lemma GroupSweeps(cfg: Config, blocks: seq<Block>, b: nat, now: int, group: seq<nat>)
    requires group in StaleGroups(cfg, blocks, Groups(Indices(blocks, Ours)), now) && b in group
    ensures Swept(cfg, blocks, b, now)
  {
    var gs := Groups(Indices(blocks, Ours));
    InStaleGroups(cfg, blocks, gs, now, group);
    var g :| 0 <= g < |gs| && gs[g] == group;
    var i: nat :| i in group && i < |blocks| && Stale(cfg, blocks[i], now);
    SameGroup(blocks, b, g);
    SameGroup(blocks, i, g);
    assert Together(blocks, b, i);
  }

  lemma SweptExactly(cfg: Config, blocks: seq<Block>, b: nat, now: int)
    ensures Swept(cfg, blocks, b, now) <==>
            exists group: seq<nat> :: group in StaleGroups(cfg, blocks, Groups(Indices(blocks, Ours)), now) && b in group
  {
    var groups := StaleGroups(cfg, blocks, Groups(Indices(blocks, Ours)), now);
    if Swept(cfg, blocks, b, now) {
      var i: nat :| Together(blocks, b, i) && Stale(cfg, blocks[i], now);
      var group := SweptInGroup(cfg, blocks, b, i, now);
    }
    if exists group: seq<nat> :: group in groups && b in group {
      var group: seq<nat> :| group in groups && b in group;
      GroupSweeps(cfg, blocks, b, now, group);
    }
  }

  lemma AnnouncedInLog(trace: seq<Event>, log: seq<Event>, b: nat)
    ensures Announced(trace + log, |trace|, b) <==> exists k :: 0 <= k < |log| && Announces(log[k], b)
  {
    var r := trace + log;
    if exists k :: 0 <= k < |log| && Announces(log[k], b) {
      var k :| 0 <= k < |log| && Announces(log[k], b);
      assert r[|trace| + k] == log[k];
    }
  }

  /** With lossless sends a refresh announces a block if and only if the node owns it and a block of
      its group of 32 is stale, itself or another. */
  lemma AnnouncedExactly(cfg: Config, link: Link, n: Node, now: int, b: nat)
    requires Lossless(link)
    ensures Announced(Refresh(cfg, link, n, now).trace, |n.trace|, b) <==> Swept(cfg, n.blocks, b, now)
  {
    var groups := StaleGroups(cfg, n.blocks, Groups(Indices(n.blocks, Ours)), now);
    RefreshPackets(cfg, link, n, now);
    LogAnnounces(cfg, link, |n.trace|, groups, b);
    SweptExactly(cfg, n.blocks, b, now);
    AnnouncedInLog(n.trace, ClaimLog(cfg, link, |n.trace|, groups), b);
  }
}
