/** One block's lease table (dhcp.c): counting, searching and expiring leases. */
module LeaseTable {
  import opened Types

  /** A newly allocated table. */
  function Blank(len: nat): (t: seq<Lease>)
    ensures |t| == len && forall j :: 0 <= j < len ==> t[j] == EMPTY_LEASE
  {
    seq(len, _ => EMPTY_LEASE)
  }

  function Count(t: seq<Lease>, s: LeaseState): (n: nat)
    ensures n <= |t|
  {
    if t == [] then 0
    else Count(t[..|t| - 1], s) + if t[|t| - 1].state == s then 1 else 0
  }

  /** Index of the first lease in state s, or |t| when there is none. */
  function First(t: seq<Lease>, s: LeaseState): (k: nat)
    ensures k <= |t|
    ensures k < |t| ==> t[k].state == s
    ensures forall j :: 0 <= j < k ==> t[j].state != s
  {
    if t == [] then 0
    else
      var k := First(t[..|t| - 1], s);
      if k < |t| - 1 then k
      else if t[|t| - 1].state == s then |t| - 1 else |t|
  }

  function Released(l: Lease): Lease {
    l.(chaddr := NO_CHADDR, xid := 0, state := Available)
  }

  function ExpireLease(l: Lease, now: int): Lease {
    if !l.state.Available? && l.leaseEnd < now then Released(l) else l
  }

  function Expire(t: seq<Lease>, now: int): (r: seq<Lease>)
    ensures |r| == |t| && forall j :: 0 <= j < |t| ==> r[j] == ExpireLease(t[j], now)
  {
    seq(|t|, j requires 0 <= j < |t| => ExpireLease(t[j], now))
  }

  lemma {:induction false} CountsAddUp(t: seq<Lease>)
    ensures Count(t, Available) + Count(t, Offered) + Count(t, Leased) == |t|
  {
    if t != [] {
      CountsAddUp(t[..|t| - 1]);
    }
  }

  lemma {:induction false} CountFull(t: seq<Lease>, s: LeaseState)
    ensures Count(t, s) == |t| <==> forall j :: 0 <= j < |t| ==> t[j].state == s
  {
    if t != [] {
      CountFull(t[..|t| - 1], s);
      assert forall j :: 0 <= j < |t| - 1 ==> t[..|t| - 1][j] == t[j];
      if Count(t, s) == |t| {
        forall j | 0 <= j < |t| ensures t[j].state == s {
          if j < |t| - 1 { assert t[..|t| - 1][j].state == s; }
        }
      }
    }
  }

  lemma {:induction false} CountZero(t: seq<Lease>, s: LeaseState)
    ensures Count(t, s) == 0 <==> First(t, s) == |t|
  {
    if t != [] {
      CountZero(t[..|t| - 1], s);
    }
  }

  /** Rewriting one slot changes the count by the difference of the two states. */
  lemma {:induction false} CountUpdate(t: seq<Lease>, j: nat, l: Lease, s: LeaseState)
    requires j < |t|
    ensures Count(t[j := l], s)
         == Count(t, s) - (if t[j].state == s then 1 else 0) + (if l.state == s then 1 else 0)
  {
    var u := t[j := l];
    if j == |t| - 1 {
      assert u[..|t| - 1] == t[..|t| - 1];
    } else {
      assert u[..|t| - 1] == t[..|t| - 1][j := l];
      CountUpdate(t[..|t| - 1], j, l, s);
    }
  }
}
