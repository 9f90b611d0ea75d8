/** house_keeping of main.c on the heap. */
module HouseOps {
  import BlockSpec
  import HouseSpec
  import HouseProofs
  import ClaimProofs
  import NodeProofs
  import opened Store
  import BlockOps
  import ClaimOps

  /** The number of blocks to claim (positive) or whether to drop one (negative). */
  method BlocksNeeded(d: Daemon) returns (blocksNeeded: int)
    requires d.Valid()
    ensures blocksNeeded == HouseSpec.BlocksNeeded(d.cfg, BlockSpec.NumFree(d.blocks[..], d.Tables()))
  {
    var spareLeases := BlockOps.NumFreeLeases(d);
    var leasesNeeded := d.cfg.spareLeases - spareLeases;
    blocksNeeded := HouseSpec.CDiv(leasesNeeded, d.cfg.blockSize);
    if HouseSpec.CRem(leasesNeeded, d.cfg.blockSize) > 0 {
      blocksNeeded := blocksNeeded + 1;
    }
  }

  /** Drop an unused block, or clear the marks and claim what is needed. */
  method Balance(d: Daemon, now: int, rnd: nat -> nat)
    requires d.Valid() && ClaimOps.Linked(d) && ClaimProofs.NodeInv(d.cfg, d.State())
    modifies d, d.blocks, d.addresses, d.claims.head, d.claims.nodes, d.tmpNodes
    ensures d.Valid() && ClaimOps.Linked(d) && d.State() == HouseSpec.Balance(d.cfg, d.link, old(d.State()), now, rnd)
    ensures forall k :: 0 <= k < d.addresses.Length ==>
      d.addresses[k] == null || d.addresses[k] == old(d.addresses[k]) || fresh(d.addresses[k])
  {
    ghost var s := d.State();
    var blocksNeeded := BlocksNeeded(d);
    if blocksNeeded < 0 {
      BlockOps.DropUnused(d, now);
    } else {
      HouseProofs.NeededIsLeast(d.cfg, BlockSpec.NumFree(s.blocks, s.tables));
      UnmarkAndClaim(d, blocksNeeded, now, rnd);
    }
  }

  /** The branch without blocks to spare. */
  method UnmarkAndClaim(d: Daemon, blocksNeeded: nat, now: int, rnd: nat -> nat)
    requires d.Valid() && ClaimOps.Linked(d) && ClaimProofs.NodeInv(d.cfg, d.State()) && blocksNeeded <= 0xff
    modifies d, d.blocks, d.addresses, d.claims.head, d.claims.nodes, d.tmpNodes
    ensures d.Valid() && ClaimOps.Linked(d)
    ensures var n := old(d.State()); var m := if n.needlessMarks then BlockSpec.UnmarkNeedless(n) else n;
      d.State() == if blocksNeeded > 0 then BlockSpec.BlockClaim(d.cfg, d.link, m, blocksNeeded, now, rnd) else m
    ensures forall k :: 0 <= k < d.addresses.Length ==> d.addresses[k] == old(d.addresses[k]) || fresh(d.addresses[k])
  {
    if d.needlessMarks {
      NodeProofs.UnmarkKeepsInv(d.cfg, d.State());
      BlockOps.UnmarkNeedless(d);
    }
    if blocksNeeded > 0 {
      ClaimOps.BlockClaim(d, blocksNeeded, now, rnd);
    }
  }

  /** Expiry and refresh leave the claim list alone. */
  method Expire(d: Daemon, now: int)
    requires d.Valid() && ClaimOps.Linked(d)
    modifies d.blocks, d.addresses, d.addresses[..]
    ensures d.Valid() && ClaimOps.Linked(d) && d.State() == BlockSpec.CheckTimeouts(old(d.State()), now)
  {
    BlockOps.CheckTimeouts(d, now);
  }

  method Refresh(d: Daemon, now: int)
    requires d.Valid() && ClaimOps.Linked(d)
    modifies d`trace, d.blocks
    ensures d.Valid() && ClaimOps.Linked(d) && d.State() == BlockSpec.Refresh(d.cfg, d.link, old(d.State()), now)
  {
    BlockOps.UpdateClaims(d, now);
  }

  /** house_keeping */
  method HouseKeeping(d: Daemon, now: int, rnd: nat -> nat)
    requires d.Valid() && ClaimOps.Linked(d) && ClaimProofs.NodeInv(d.cfg, d.State())
    modifies d, d.blocks, d.addresses, d.addresses[..], d.claims.head, d.claims.nodes, d.tmpNodes
    ensures d.Valid() && ClaimOps.Linked(d) && ClaimProofs.NodeInv(d.cfg, d.State())
    ensures d.State() == HouseSpec.HouseKeeping(d.cfg, d.link, old(d.State()), now, rnd)
  {
    ghost var s := d.State();
    NodeProofs.TimeoutsKeepInv(d.cfg, s, now);
    NodeProofs.HouseKeepingKeepsInv(d.cfg, d.link, s, now, rnd);
    Expire(d, now);
    Balance(d, now, rnd);
    Refresh(d, now);
  }
}
