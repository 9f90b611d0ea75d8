/** The lease table loops of dhcp.c, run on the table of one block. */
module LeaseOps {
  import opened Types
  import opened LeaseTable
  import opened Store

  /** The table of block i. */
  ghost predicate HasTable(d: Daemon, i: nat)
    reads d, d.blocks, d.addresses, d.addresses[..]
  {
    d.Valid() && i < d.addresses.Length && d.addresses[i] != null
  }

  /** dhcp_has_free */
  method HasFree(d: Daemon, i: nat) returns (found: bool)
    requires HasTable(d, i)
    ensures found <==> Count(d.addresses[i][..], Available) > 0
  {
    var t := d.addresses[i];
    CountZero(t[..], Available);
    for j := 0 to t.Length
      invariant forall k :: 0 <= k < j ==> !t[k].state.Available?
    {
      if t[j].state == Available {
        return true;
      }
    }
    return false;
  }

  /** dhcp_num_free and dhcp_num_offered */
  method Num(d: Daemon, i: nat, s: LeaseState) returns (num: nat)
    requires HasTable(d, i)
    ensures num == Count(d.addresses[i][..], s)
  {
    var t := d.addresses[i];
    num := 0;
    for j := 0 to t.Length
      invariant num == Count(t[..j], s)
    {
      assert t[..j + 1][..j] == t[..j];
      if t[j].state == s {
        num := num + 1;
      }
    }
    assert t[..t.Length] == t[..];
  }

  /** dhcp_get_free_lease */
  method GetFreeLease(d: Daemon, i: nat) returns (j: nat)
    requires HasTable(d, i)
    ensures j == First(d.addresses[i][..], Available)
  {
    var t := d.addresses[i];
    j := 0;
    while j < t.Length
      invariant 0 <= j <= t.Length
      invariant forall k :: 0 <= k < j ==> !t[k].state.Available?
    {
      if t[j].state == Available {
        return;
      }
      j := j + 1;
    }
  }

  /** _dhcp_release_lease */
  method ReleaseLease(t: array<Lease>, j: nat)
    requires j < t.Length
    modifies t
    ensures t[..] == old(t[..])[j := Released(old(t[j]))]
  {
    t[j] := t[j].(chaddr := NO_CHADDR, xid := 0, state := Available);
  }

  method ExpireTable(t: array<Lease>, now: int) returns (freeLeases: nat)
    modifies t
    ensures t[..] == Expire(old(t[..]), now)
    ensures freeLeases == Count(t[..], Available)
  {
    ghost var was := t[..];
    freeLeases := 0;
    for j := 0 to t.Length
      invariant forall k :: 0 <= k < j ==> t[k] == ExpireLease(was[k], now)
      invariant forall k :: j <= k < t.Length ==> t[k] == was[k]
      invariant freeLeases == Count(t[..j], Available)
    {
      ghost var before := t[..j];
      if t[j].state != Available && t[j].leaseEnd < now {
        ReleaseLease(t, j);
      }
      assert t[..j + 1][..j] == before;
      if t[j].state == Available {
        freeLeases := freeLeases + 1;
      }
    }
    assert t[..t.Length] == t[..];
  }

  /** dhcp_check_timeouts */
  method CheckTimeouts(d: Daemon, i: nat, now: int) returns (freeLeases: nat)
    requires HasTable(d, i)
    modifies d.addresses[i]
    ensures d.Valid()
    ensures d.Tables() == old(d.Tables())[i := Some(Expire(old(d.addresses[i][..]), now))]
    ensures freeLeases == Count(d.addresses[i][..], Available)
  {
    ghost var was := d.Tables();
    freeLeases := ExpireTable(d.addresses[i], now);
    assert forall k :: 0 <= k < d.addresses.Length && k != i ==> d.Tables()[k] == was[k];
    assert d.Tables() == was[i := Some(d.addresses[i][..])];
  }
}
