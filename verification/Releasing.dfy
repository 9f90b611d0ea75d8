/** What a release does: the slot is available again, and nothing else has changed. */
module Releasing {
  import opened Types
  import LeaseTable
  import opened BlockSpec
  import opened ClaimProofs
  import opened DhcpSpec
  import HouseProofs
  import NodeProofs

  /** r is n with slot j of block b available and its record cleared; only the end of the lease stays on it. */
  ghost predicate Vacated(n: Node, r: Node, b: nat, j: nat) {
    && HasSlot(n, b, j)
    && (var t := n.tables[b].value;
        r == n.(tables := n.tables[b := Some(t[j := Lease(NO_CHADDR, Available, 0, t[j].leaseEnd)])]))
  }

  lemma VacatedAdds(n: Node, r: Node, b: nat, j: nat)
    requires |n.blocks| == |n.tables| && b < |n.blocks| && n.blocks[b].state.Ours? && Vacated(n, r, b, j)
    ensures NumFree(r.blocks, r.tables) == NumFree(n.blocks, n.tables) + if Slot(n, b, j).state.Available? then 0 else 1
  {
    var t := n.tables[b].value;
    var l := Lease(NO_CHADDR, Available, 0, t[j].leaseEnd);
    assert n.blocks == n.blocks[b := n.blocks[b]];
    LeaseTable.CountUpdate(t, j, l, Available);
    HouseProofs.NumFreeUpdate(n.blocks, n.tables, b, n.blocks[b], Some(t[j := l]));
  }

  /** A release forwarded by a peer vacates the slot of an owned block, whoever it was recorded for, and one
      more lease is free unless it was already; for any other address nothing changes. */
  lemma {:induction false} ForwardedReleaseVacates(cfg: Config, link: Link, n: Node, addr: uint32)
    requires NodeInv(cfg, n)
    ensures NodeProofs.Step(cfg, link, n, NodeProofs.PeerReleases(addr)) == RemoteRelease(cfg, n, addr)
    ensures var (r, f) := (RemoteRelease(cfg, n, addr), FindLease(cfg, n.blocks, addr));
      && |r.blocks| == |r.tables|
      && (f.Mine? ==>
            && Vacated(n, r, f.block, f.slot)
            && NumFree(r.blocks, r.tables)
               == NumFree(n.blocks, n.tables) + if Slot(n, f.block, f.slot).state.Available? then 0 else 1)
      && (!f.Mine? ==> r == n)
  {
    var (r, f) := (RemoteRelease(cfg, n, addr), FindLease(cfg, n.blocks, addr));
    if f.Mine? {
      assert TableFits(cfg, n.blocks[f.block], n.tables[f.block]);
      VacatedAdds(n, r, f.block, f.slot);
    }
  }

  /** A client's release vacates the slot of an owned block exactly when it is recorded for that client, and
      one more lease is free unless it was already; in every other case nothing changes. */
  lemma {:induction false} ReleaseVacates(cfg: Config, link: Link, n: Node, addr: uint32, chaddr: seq<byte>)
    requires NodeInv(cfg, n)
    ensures NodeProofs.Step(cfg, link, n, NodeProofs.ReleaseBy(addr, chaddr)) == Release(cfg, n, addr, chaddr)
    ensures var (r, f) := (Release(cfg, n, addr, chaddr), FindLease(cfg, n.blocks, addr));
      && |r.blocks| == |r.tables|
      && (f.Mine? && Slot(n, f.block, f.slot).chaddr == chaddr ==>
            && Vacated(n, r, f.block, f.slot)
            && NumFree(r.blocks, r.tables)
               == NumFree(n.blocks, n.tables) + if Slot(n, f.block, f.slot).state.Available? then 0 else 1)
      && (!(f.Mine? && Slot(n, f.block, f.slot).chaddr == chaddr) ==> r == n)
  {
    var (r, f) := (Release(cfg, n, addr, chaddr), FindLease(cfg, n.blocks, addr));
    if f.Mine? && Slot(n, f.block, f.slot).chaddr == chaddr {
      assert TableFits(cfg, n.blocks[f.block], n.tables[f.block]);
      VacatedAdds(n, r, f.block, f.slot);
    }
  }
}
