/** How long what a node knows about a block lasts: the timers of docs/algorithm.md. */
module Expiry {
  import opened Types
  import LeaseTable
  import opened BlockSpec
  import opened ConsensusSpec
  import HandlerProofs
  import opened ClaimProofs
  import NodeProofs

  /** No lease of the table is offered or leased beyond now. */
  ghost predicate AllDead(t: seq<Lease>, now: int) {
    forall j :: 0 <= j < |t| ==> t[j].state.Available? || t[j].leaseEnd < now
  }

  /** A block gives up its state: it timed out, or only a cached table without live leases is left. */
  ghost predicate Lapses(b: Block, t: Option<seq<Lease>>, now: int) {
    !b.state.Blocked? && !b.state.Free? && (b.timeout < now || (!b.state.Ours? && t.Some? && AllDead(t.value, now)))
  }

  /** What block_check_timeouts does to every block: its state lapses to FREE exactly when it timed out
      or is not ours and has a cached table without live leases; its counter and place stay. */
  lemma LapsesExactly(cfg: Config, n: Node, now: int, i: nat)
    requires TableInv(cfg, n) && i < |n.blocks|
    ensures var (b, c) := (n.blocks[i], CheckTimeouts(n, now).blocks[i]);
      && c.state == (if Lapses(b, n.tables[i], now) then Free else b.state)
      && (Lapses(b, n.tables[i], now) ==> c.nodeId == NO_NODE) && (!c.state.Free? ==> c.nodeId == b.nodeId) && c.owner == b.owner
      && c.claimingCounts == b.claimingCounts && c.timeout == b.timeout && c.firstClaimed == b.firstClaimed
      && c.index == b.index && c.subnet == b.subnet && c.subnetLen == b.subnetLen
  {
    assert Placed(cfg, i, n.blocks[i]) && TableFits(cfg, n.blocks[i], n.tables[i]);
    if n.tables[i].Some? {
      var t := n.tables[i].value;
      var e := LeaseTable.Expire(t, now);
      LeaseTable.CountFull(e, Available);
      assert forall j :: 0 <= j < |t| ==> (e[j].state.Available? <==> t[j].state.Available? || t[j].leaseEnd < now);
    }
  }

  /** The leases: a table is dropped exactly when its block timed out, or is not ours and has no
      live lease; in a table that stays exactly the leases past their end become available, and
      the others are untouched. */
  lemma LeasesLapse(cfg: Config, n: Node, now: int, i: nat)
    requires TableInv(cfg, n) && i < |n.blocks| && n.tables[i].Some?
    ensures var (b, t, u) := (n.blocks[i], n.tables[i].value, CheckTimeouts(n, now).tables[i]);
      && (u.None? <==> TimedOut(b, now) || (!b.state.Ours? && AllDead(t, now)))
      && (u.Some? ==> |u.value| == |t| && forall j :: 0 <= j < |t| ==>
            if t[j].state.Available? || t[j].leaseEnd >= now then u.value[j] == t[j]
            else u.value[j] == Lease(NO_CHADDR, Available, 0, t[j].leaseEnd))
  {
    assert Placed(cfg, i, n.blocks[i]) && TableFits(cfg, n.blocks[i], n.tables[i]);
    var t := n.tables[i].value;
    var e := LeaseTable.Expire(t, now);
    LeaseTable.CountFull(e, Available);
    assert forall j :: 0 <= j < |t| ==> (e[j].state.Available? <==> t[j].state.Available? || t[j].leaseEnd < now);
  }

  /** The table is given up: the block timed out, or it is not ours and no lease of it is live. */
  ghost predicate Empties(b: Block, t: Option<seq<Lease>>, now: int) {
    t.Some? && ((b.timeout < now && !b.state.Blocked? && !b.state.Free?) || (!b.state.Ours? && AllDead(t.value, now)))
  }

  /** The whole block after block_check_timeouts. What lapses or gives up its table becomes FREE and of no
      node, unless it is BLOCKED, and what gives up its table loses its needless mark; all else stays. */
  lemma {:induction false} BlockAfterExpiry(cfg: Config, n: Node, now: int, i: nat)
    requires TableInv(cfg, n) && i < |n.blocks|
    ensures var (b, t, c) := (n.blocks[i], n.tables[i], CheckTimeouts(n, now).blocks[i]);
      var (freed, emptied) := ((Lapses(b, t, now) || Empties(b, t, now)) && !b.state.Blocked?, Empties(b, t, now));
      c == b.(state := if freed then Free else b.state, nodeId := if freed then NO_NODE else b.nodeId,
              needlessSince := if emptied then 0 else b.needlessSince)
  {
    LapsesExactly(cfg, n, now, i);
    if n.tables[i].Some? {
      var (t, e) := (n.tables[i].value, LeaseTable.Expire(n.tables[i].value, now));
      assert TableFits(cfg, n.blocks[i], n.tables[i]) && Placed(cfg, i, n.blocks[i]);
      LeaseTable.CountFull(e, Available);
      assert forall j :: 0 <= j < |t| ==> (e[j].state.Available? <==> t[j].state.Available? || t[j].leaseEnd < now);
    }
  }

  /** A table that stays is the old one with its leases expired. */
  lemma TableStays(cfg: Config, n: Node, now: int, i: nat)
    requires TableInv(cfg, n) && i < |n.blocks| && n.tables[i].Some? && !n.blocks[i].state.Free? && !n.blocks[i].state.Blocked?
    ensures CheckTimeouts(n, now).tables[i] ==
            if Lapses(n.blocks[i], n.tables[i], now) then None else Some(LeaseTable.Expire(n.tables[i].value, now))
  {
    LeasesLapse(cfg, n, now, i);
  }

  // ---------------------------------------------------------------- heard from others

  /** A claim lasts for the time it names: heard and not refreshed, the block is CLAIMED by the sender
      exactly until that time has passed, or until a cached lease table has no live lease left;
      then it is FREE. */
  lemma ClaimLasts(cfg: Config, link: Link, n: Node, p: Packet, sender: int, heard: int, now: int, b: nat)
    requires NodeInv(cfg, n) && b < |n.blocks| && HandlerProofs.Passive(cfg, n.blocks[b].state, p)
    requires p.command.UpdateClaim? && Lists(p, b)
    ensures var (m, t) := (Handle(cfg, link, n, p, sender, heard), HandlerProofs.LastTimeout(p, b, |p.payload|));
      && b < |m.blocks| == |m.tables|
      && (var (c, dead) := (CheckTimeouts(m, now).blocks[b], n.tables[b].Some? && AllDead(n.tables[b].value, now));
          if now <= heard + t && !dead then c.state.Claimed? && c.nodeId == p.nodeId && c.owner == sender
          else c.state.Free? && c.nodeId == NO_NODE)
  {
    HandlerProofs.PacketExact(cfg, link, n, p, sender, heard, b);
    NodeProofs.HandleKeepsInv(cfg, link, n, p, sender, heard, |p.payload|);
    LapsesExactly(cfg, Handle(cfg, link, n, p, sender, heard), now, b);
  }

  /** Interest lasts for the tentative timeout: a block that another node inquired is TENTATIVE exactly
      until that time has passed, or until a cached lease table has no live lease left; then it
      is FREE. */
  lemma InterestLasts(cfg: Config, link: Link, n: Node, p: Packet, sender: int, heard: int, now: int, b: nat)
    requires NodeInv(cfg, n) && b < |n.blocks| && !n.blocks[b].state.Ours?
    requires p.command.Inquire? && Lists(p, b) && (n.blocks[b].state.Claiming? ==> p.nodeId > cfg.nodeId)
    ensures var m := Handle(cfg, link, n, p, sender, heard);
      && b < |m.blocks| == |m.tables|
      && (var (c, dead) := (CheckTimeouts(m, now).blocks[b], n.tables[b].Some? && AllDead(n.tables[b].value, now));
          if now <= heard + cfg.tentativeTimeout && !dead then c.state.Tentative? else c.state.Free?)
  {
    HandlerProofs.PacketExact(cfg, link, n, p, sender, heard, b);
    NodeProofs.HandleKeepsInv(cfg, link, n, p, sender, heard, |p.payload|);
    LapsesExactly(cfg, Handle(cfg, link, n, p, sender, heard), now, b);
  }
}
