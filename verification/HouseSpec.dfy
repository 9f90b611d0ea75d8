/** main.c: the house keeping decision and its effect on a node's state. */
module HouseSpec {
  import opened Types
  import BlockSpec

  /** C division and remainder, which truncate toward zero. */
  function CDiv(a: int, b: int): int
    requires b > 0
  {
    if a >= 0 then a / b else -(-a / b)
  }

  function CRem(a: int, b: int): int
    requires b > 0
  {
    a - CDiv(a, b) * b
  }

  function BlocksNeeded(cfg: Config, freeLeases: nat): int {
    var leasesNeeded := cfg.spareLeases - freeLeases;
    CDiv(leasesNeeded, cfg.blockSize) + if CRem(leasesNeeded, cfg.blockSize) > 0 then 1 else 0
  }

  /** The branch of house_keeping between expiry and refresh. */
  function Balance(cfg: Config, link: Link, n: Node, now: int, rnd: nat -> nat): Node
    requires |n.blocks| == |n.tables|
  {
    var needed := BlocksNeeded(cfg, BlockSpec.NumFree(n.blocks, n.tables));
    if needed < 0 then BlockSpec.DropUnused(cfg, n, now)
    else
      var m := if n.needlessMarks then BlockSpec.UnmarkNeedless(n) else n;
      if needed > 0 then BlockSpec.BlockClaim(cfg, link, m, needed, now, rnd) else m
  }

  function HouseKeeping(cfg: Config, link: Link, n: Node, now: int, rnd: nat -> nat): Node
    requires |n.blocks| == |n.tables|
  {
    BlockSpec.Refresh(cfg, link, Balance(cfg, link, BlockSpec.CheckTimeouts(n, now), now, rnd), now)
  }
}
