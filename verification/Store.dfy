/** The daemon's state on the heap: struct ddhcp_config with its array of blocks and their
    lease tables. The `addresses` pointers of the blocks are kept in an array of their own. */
module Store {
  import opened Types
  import ConsensusSpec
  import NodeProofs
  import ClaimRing
  import IntrusiveList
  import ClaimProofs

  ghost function TableOf(a: array?<Lease>): Option<seq<Lease>>
    reads a
  {
    if a == null then None else Some(a[..])
  }

  class Daemon {
    const cfg: Config
    const link: Link
    const blocks: array<Block>
    const addresses: array<array?<Lease>>
    /** The claim list, and the blocks that it holds. */
    const claims: ClaimRing.ClaimList
    ghost var claiming: seq<nat>
    /** The tmp_list field of every block. */
    const tmpNodes: seq<IntrusiveList.ListHead>
    var amount: byte
    var needlessMarks: bool
    var trace: seq<Event>

    ghost function Tables(): (t: seq<Option<seq<Lease>>>)
      reads addresses, addresses[..]
      ensures |t| == addresses.Length
      ensures forall i {:trigger t[i]} :: 0 <= i < |t| ==> t[i] == TableOf(addresses[i])
    {
      seq(addresses.Length, i requires 0 <= i < addresses.Length reads addresses, addresses[..] => TableOf(addresses[i]))
    }

    ghost function State(): Node
      reads this, blocks, addresses, addresses[..]
    {
      Node(blocks[..], Tables(), claiming, amount, needlessMarks, trace)
    }

    /** Tables are not shared between blocks, and the table invariant holds. */
    ghost predicate Valid()
      reads this, blocks, addresses, addresses[..]
    {
      && blocks.Length == addresses.Length == cfg.numberOfBlocks
      && (forall i, j :: 0 <= i < j < addresses.Length && addresses[i] != null ==> addresses[i] != addresses[j])
      && TableInv(cfg, State())
    }

    /** Every block has a tmp_list field, which is none of those of the claim list. */
    ghost predicate TmpLinks() {
      && |tmpNodes| == cfg.numberOfBlocks
      && (forall i {:trigger tmpNodes[i]} :: 0 <= i < |tmpNodes| ==>
            tmpNodes[i].index == i && tmpNodes[i] != claims.head && tmpNodes[i] !in claims.nodes)
    }

    /** ddhcp_block_init */
    constructor (cfg: Config, link: Link, now: int)
      ensures Valid() && ClaimProofs.NodeInv(cfg, State())
      ensures this.cfg == cfg && this.link == link && State() == ConsensusSpec.Initial(cfg, now)
      ensures fresh(blocks) && fresh(addresses)
      ensures claims.Threads(claiming) && |claims.nodes| == cfg.numberOfBlocks
      ensures fresh(claims) && fresh(claims.head) && fresh(set x | x in claims.nodes)
      ensures TmpLinks() && fresh(set x | x in tmpNodes)
    {
      this.cfg := cfg;
      this.link := link;
      claiming, amount, needlessMarks, trace := [], 0, false, [];
      var bs := new Block[cfg.numberOfBlocks](i => Block(i, Free, 0, 0, 0, NO_NODE, 0, 0, 0, 0));
      var index := 0;
      while index < bs.Length
        invariant 0 <= index <= bs.Length
        invariant forall i :: 0 <= i < index ==> bs[i] == ConsensusSpec.Initial(cfg, now).blocks[i]
      {
        bs[index] := Block(index, Free, (cfg.prefix + index * cfg.blockSize) % 0x1_0000_0000, cfg.blockSize,
                           0, NO_NODE, 0, 0, 0, now + cfg.blockTimeout);
        index := index + 1;
      }
      blocks := bs;
      addresses := new array?<Lease>[cfg.numberOfBlocks](_ => null);
      var list := new ClaimRing.ClaimList(cfg.numberOfBlocks);
      var tmp := ClaimRing.NewNodes(cfg.numberOfBlocks);
      claims, tmpNodes := list, tmp;
      new;
      NodeProofs.InitialInv(cfg, now);
      assert blocks[..] == ConsensusSpec.Initial(cfg, now).blocks;
      assert Tables() == ConsensusSpec.Initial(cfg, now).tables;
    }
  }
}
