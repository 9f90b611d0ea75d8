/** The circular doubly linked list of list.h, which carries the claim list, the FREE blocks
    collected by block_find_free and the packet cache. */
module IntrusiveList {
  /** A list_head. `index` stands for list_entry: it names the block that the node is part of. */
  class ListHead {
    var next: ListHead?
    var prev: ListHead?
    const index: nat

    constructor (index: nat)
      ensures this.index == index
    {
      this.index := index;
      next, prev := null, null;
    }
  }

  /** Entry i of the list, or the head when i is just outside it. */
  ghost function At(head: ListHead, s: seq<ListHead>, i: int): ListHead {
    if 0 <= i < |s| then s[i] else head
  }

  ghost predicate Apart(head: ListHead, s: seq<ListHead>) {
    (forall i :: 0 <= i < |s| ==> s[i] != head) && forall i, j :: 0 <= i < j < |s| ==> s[i] != s[j]
  }

  predicate Between(a: ListHead, x: ListHead, b: ListHead)
    reads x
  {
    x.prev == a && x.next == b
  }

  /** Entry i sits between its neighbours. */
  ghost predicate Seated(head: ListHead, s: seq<ListHead>, i: nat)
    requires i < |s|
    reads s
  {
    Between(At(head, s, i - 1), s[i], At(head, s, i + 1))
  }

  /** The list headed by `head` holds the entries s: each node sits between its neighbours, so
      next and prev are inverse around the ring. */
  ghost predicate Ring(head: ListHead, s: seq<ListHead>)
    reads head, s
  {
    && Apart(head, s)
    && Between(At(head, s, |s| - 1), head, At(head, s, 0))
    && (forall i :: 0 <= i < |s| ==> Seated(head, s, i))
  }

  /** INIT_LIST_HEAD */
  method InitListHead(list: ListHead)
    modifies list
    ensures Ring(list, [])
  {
    list.next, list.prev := list, list;
  }

  /** list_empty */
  method ListEmpty(head: ListHead, ghost s: seq<ListHead>) returns (empty: bool)
    requires Ring(head, s)
    ensures empty <==> s == []
  {
    empty := head.next == head;
  }

  /** The entries with x put in at position k. */
  ghost function Inserted(s: seq<ListHead>, k: nat, x: ListHead): (r: seq<ListHead>)
    requires k <= |s|
    ensures |r| == |s| + 1
    ensures forall i {:trigger r[i]} :: 0 <= i < |r| ==> r[i] == if i < k then s[i] else if i == k then x else s[i - 1]
  {
    s[..k] + [x] + s[k..]
  }

  lemma InsertedApart(head: ListHead, s: seq<ListHead>, k: nat, x: ListHead)
    requires Apart(head, s) && x != head && x !in s && k <= |s|
    ensures Apart(head, Inserted(s, k, x))
  {
    var r := Inserted(s, k, x);
    forall i, j | 0 <= i < j < |r| ensures r[i] != r[j] {
    }
  }

  /** _list_add between the neighbours of position k. */
  method InsertBetween(x: ListHead, prev: ListHead, next: ListHead, ghost head: ListHead, ghost s: seq<ListHead>, ghost k: nat)
    requires Ring(head, s) && x != head && x !in s && k <= |s|
    requires prev == At(head, s, k - 1) && next == At(head, s, k)
    modifies x, prev, next
    ensures Ring(head, Inserted(s, k, x))
  {
    ghost var r := Inserted(s, k, x);
    InsertedApart(head, s, k, x);
    next.prev := x;
    x.next := next;
    x.prev := prev;
    prev.next := x;
    forall i | 0 <= i < |r| ensures Seated(head, r, i) {
      if i < k {
        assert old(Seated(head, s, i));
      } else if i > k {
        assert old(Seated(head, s, i - 1));
      }
    }
  }

  /** list_add: to the front. */
  method ListAdd(x: ListHead, head: ListHead, ghost s: seq<ListHead>)
    requires Ring(head, s) && x != head && x !in s
    modifies x, head, s
    ensures Ring(head, [x] + s)
  {
    InsertBetween(x, head, head.next, head, s, 0);
    assert Inserted(s, 0, x) == [x] + s;
  }

  /** list_add_tail: to the end. */
  method ListAddTail(x: ListHead, head: ListHead, ghost s: seq<ListHead>)
    requires Ring(head, s) && x != head && x !in s
    modifies x, head, s
    ensures Ring(head, s + [x])
  {
    InsertBetween(x, head.prev, head, head, s, |s|);
    assert Inserted(s, |s|, x) == s + [x];
  }

  /** The entries without the one at position k. */
  ghost function Removed(s: seq<ListHead>, k: nat): (r: seq<ListHead>)
    requires k < |s|
    ensures |r| == |s| - 1
    ensures forall i {:trigger r[i]} :: 0 <= i < |r| ==> r[i] == if i < k then s[i] else s[i + 1]
  {
    s[..k] + s[k + 1..]
  }

  /** list_del */
  method ListDel(x: ListHead, ghost head: ListHead, ghost s: seq<ListHead>, ghost k: nat)
    requires Ring(head, s) && k < |s| && s[k] == x
    modifies head, s
    ensures Ring(head, Removed(s, k)) && x.next == null && x.prev == null
  {
    ghost var r := Removed(s, k);
    assert Seated(head, s, k);
    x.next.prev := x.prev;
    x.prev.next := x.next;
    x.next, x.prev := null, null;
    forall i | 0 <= i < |r| ensures Seated(head, r, i) {
      var i' := if i < k then i else i + 1;
      assert old(Seated(head, s, i'));
    }
  }

  /** Entries t put in at position k of s. */
  ghost function Spliced(s: seq<ListHead>, k: nat, t: seq<ListHead>): (r: seq<ListHead>)
    requires k <= |s|
    ensures |r| == |s| + |t|
    ensures forall i {:trigger r[i]} :: 0 <= i < |r| ==>
      r[i] == if i < k then s[i] else if i < k + |t| then t[i - k] else s[i - |t|]
  {
    s[..k] + t + s[k..]
  }

  /** The two rings share no node. */
  ghost predicate Disjoint(head: ListHead, s: seq<ListHead>, list: ListHead, t: seq<ListHead>) {
    && head != list
    && (forall i :: 0 <= i < |s| ==> s[i] != list) && (forall j :: 0 <= j < |t| ==> t[j] != head)
    && (forall i, j :: 0 <= i < |s| && 0 <= j < |t| ==> s[i] != t[j])
  }

  lemma SplicedApart(head: ListHead, s: seq<ListHead>, k: nat, list: ListHead, t: seq<ListHead>)
    requires Apart(head, s) && Apart(list, t) && Disjoint(head, s, list, t) && k <= |s|
    ensures Apart(head, Spliced(s, k, t))
  {
    var r := Spliced(s, k, t);
    forall i, j | 0 <= i < j < |r| ensures r[i] != r[j] {
    }
  }

  /** _list_splice of a non-empty list between the neighbours of position k. */
  method SpliceBetween(list: ListHead, prev: ListHead, next: ListHead, ghost head: ListHead, ghost s: seq<ListHead>,
                       ghost k: nat, ghost t: seq<ListHead>)
    requires Ring(head, s) && Ring(list, t) && Disjoint(head, s, list, t) && k <= |s| && t != []
    requires prev == At(head, s, k - 1) && next == At(head, s, k)
    modifies prev, next, list.next, list.prev
    ensures Ring(head, Spliced(s, k, t))
  {
    ghost var r := Spliced(s, k, t);
    SplicedApart(head, s, k, list, t);
    var first: ListHead, last: ListHead := list.next, list.prev;
    assert first == t[0] && last == t[|t| - 1];
    first.prev := prev;
    prev.next := first;
    last.next := next;
    next.prev := last;
    forall i | 0 <= i < |r| ensures Seated(head, r, i) {
      if i < k {
        assert old(Seated(head, s, i));
      } else if i < k + |t| {
        assert old(Seated(list, t, i - k));
      } else {
        assert old(Seated(head, s, i - |t|));
      }
    }
  }

  /** list_splice_init: t goes to the front of s, and the spliced list becomes empty. */
  method ListSpliceInit(list: ListHead, head: ListHead, ghost s: seq<ListHead>, ghost t: seq<ListHead>)
    requires Ring(head, s) && Ring(list, t) && Disjoint(head, s, list, t)
    modifies head, s, list, t
    ensures Ring(head, t + s) && Ring(list, [])
  {
    var empty := ListEmpty(list, t);
    if empty {
      assert t + s == s;
    } else {
      SpliceBetween(list, head, head.next, head, s, 0, t);
      assert Spliced(s, 0, t) == t + s;
    }
    assert Ring(head, t + s);
    assert forall i :: 0 <= i < |t + s| ==> (t + s)[i] != list;
    InitListHead(list);
  }

  // ---------------------------------------------------------------- traversals

  ghost function Without(s: seq<ListHead>, drop: set<ListHead>): seq<ListHead> {
    if s == [] then [] else (if s[0] in drop then [] else [s[0]]) + Without(s[1..], drop)
  }

  /** The traversal has come to position j of the entries `now`; those before are to stay. */
  ghost predicate Walking(head: ListHead, now: seq<ListHead>, j: nat, pos: ListHead, drop: set<ListHead>, s: seq<ListHead>)
    reads head, now
  {
    && Ring(head, now) && j <= |now| && pos == At(head, now, j)
    && now[..j] + Without(now[j..], drop) == Without(s, drop)
    && forall i :: 0 <= i < |now| ==> now[i] in s
  }

  lemma WalkSplit(now: seq<ListHead>, j: nat, drop: set<ListHead>)
    requires j < |now|
    ensures now[..j] + Without(now[j..], drop) ==
      if now[j] in drop then Removed(now, j)[..j] + Without(Removed(now, j)[j..], drop)
      else now[..j + 1] + Without(now[j + 1..], drop)
  {
    assert now[j..][1..] == now[j + 1..] == Removed(now, j)[j..];
    assert Removed(now, j)[..j] == now[..j];
    assert now[..j + 1] == now[..j] + [now[j]];
  }

  /** One round of list_for_each_safe with a body that deletes unwanted entries. */
  method WalkOne(head: ListHead, pos: ListHead, drop: set<ListHead>, ghost now: seq<ListHead>, ghost j: nat, ghost s: seq<ListHead>)
      returns (q: ListHead, ghost now': seq<ListHead>, ghost j': nat)
    requires Walking(head, now, j, pos, drop, s) && pos != head
    modifies head, now
    ensures Walking(head, now', j', q, drop, s) && |now'| - j' < |now| - j
    ensures forall x :: x in now' ==> x in now
  {
    assert j < |now|;
    assert Seated(head, now, j);
    WalkSplit(now, j, drop);
    q := pos.next;
    if pos in drop {
      ListDel(pos, head, now, j);
      now', j' := Removed(now, j), j;
    } else {
      now', j' := now, j + 1;
    }
  }

  /** list_for_each_safe over the whole list, deleting the unwanted entries: a filter. */
  method DeleteAll(head: ListHead, drop: set<ListHead>, ghost s: seq<ListHead>)
    requires Ring(head, s)
    modifies head, s
    ensures Ring(head, Without(s, drop))
  {
    var pos: ListHead := head.next;
    ghost var now: seq<ListHead>, j: nat := s, 0;
    assert s[..0] + Without(s[0..], drop) == Without(s, drop);
    while pos != head
      invariant Walking(head, now, j, pos, drop, s)
      decreases |now| - j
    {
      pos, now, j := WalkOne(head, pos, drop, now, j, s);
    }
    assert j == |now| && now[..j] + [] == now;
  }

  /** Take the first entry off the list, having looked up its successor. */
  method TakeFirst(x: ListHead, head: ListHead, ghost s: seq<ListHead>) returns (q: ListHead)
    requires Ring(head, s) && s != [] && x == s[0]
    modifies head, s
    ensures Ring(head, s[1..]) && q == At(head, s, 1)
  {
    assert Seated(head, s, 0);
    q := x.next;
    ListDel(x, head, s, 0);
    assert Removed(s, 0) == s[1..];
  }

  /** The walk of block_find_free: entries are taken off the list until r of them have passed. */
  method TakeNth(head: ListHead, r: nat, ghost s: seq<ListHead>) returns (x: ListHead)
    requires Ring(head, s) && r < |s|
    modifies head, s
    ensures x == s[r] && Ring(head, s[r + 1..])
  {
    var left: nat := r;
    x := head.next;
    ghost var now := s;
    while true
      invariant left <= r && now == s[r - left..] && Ring(head, now) && x == now[0]
      decreases left
    {
      var q := TakeFirst(x, head, now);
      now := now[1..];
      if left == 0 {
        return;
      }
      x := q;
      left := left - 1;
    }
  }
}
