/** The claim list of struct ddhcp_config: a ring of list.h through the claim_list fields of the blocks. */
module ClaimRing {
  import opened IntrusiveList

  /** The listed blocks exist. */
  ghost predicate InRange(list: seq<nat>, len: nat) {
    forall k {:trigger list[k]} :: 0 <= k < |list| ==> list[k] < len
  }

  /** One list node for each of n blocks. */
  method NewNodes(n: nat) returns (nodes: seq<ListHead>)
    ensures |nodes| == n && fresh(set x | x in nodes)
    ensures forall i {:trigger nodes[i]} :: 0 <= i < n ==> nodes[i].index == i && fresh(nodes[i])
  {
    nodes := [];
    while |nodes| < n
      invariant |nodes| <= n && fresh(set x | x in nodes)
      invariant forall i {:trigger nodes[i]} :: 0 <= i < |nodes| ==> nodes[i].index == i && fresh(nodes[i])
    {
      var x := new ListHead(|nodes|);
      nodes := nodes + [x];
    }
  }

  class ClaimList {
    /** config->claiming_blocks */
    const head: ListHead
    /** The claim_list field of every block. */
    const nodes: seq<ListHead>

    ghost predicate Sound() {
      forall i {:trigger nodes[i]} :: 0 <= i < |nodes| ==> nodes[i].index == i && nodes[i] != head
    }

    ghost function NodesOf(list: seq<nat>): (s: seq<ListHead>)
      requires InRange(list, |nodes|)
      ensures |s| == |list|
      ensures forall k {:trigger s[k]} :: 0 <= k < |s| ==> s[k] == nodes[list[k]] && s[k] in nodes
    {
      seq(|list|, k requires 0 <= k < |list| => nodes[list[k]])
    }

    /** The ring holds these blocks, in this order. */
    ghost predicate Threads(list: seq<nat>)
      reads head, nodes
    {
      Sound() && InRange(list, |nodes|) && Ring(head, NodesOf(list))
    }

    /** The traversal is at position j of the list. */
    ghost predicate Stands(pos: ListHead, list: seq<nat>, j: nat) {
      InRange(list, |nodes|) && j <= |list| && pos == At(head, NodesOf(list), j)
    }

    /** No claims yet. */
    constructor (n: nat)
      ensures Threads([]) && |nodes| == n
      ensures fresh(head) && fresh(set x | x in nodes)
    {
      var first := new ListHead(0);
      InitListHead(first);
      var all := NewNodes(n);
      head, nodes := first, all;
      new;
      assert NodesOf([]) == [];
    }

    /** Blocks are different when their nodes are, and the end is reached at the head. */
    lemma Positions(list: seq<nat>, pos: ListHead, j: nat)
      requires Threads(list) && Stands(pos, list, j)
      ensures pos == head <==> j == |list|
      ensures j < |list| ==> pos == nodes[list[j]] && pos.index == list[j]
      ensures forall i, k :: 0 <= i < k < |list| ==> list[i] != list[k]
    {
      var s := NodesOf(list);
      forall i, k | 0 <= i < k < |list| ensures list[i] != list[k] {
        assert s[i] != s[k];
      }
      if j < |list| { assert s[j] == nodes[list[j]]; }
    }

    /** pos = head->next */
    method First(ghost list: seq<nat>) returns (pos: ListHead)
      requires Threads(list)
      ensures Stands(pos, list, 0)
    {
      pos := head.next;
    }

    /** pos->next */
    method Next(pos: ListHead, ghost list: seq<nat>, ghost j: nat) returns (q: ListHead)
      requires Threads(list) && Stands(pos, list, j) && j < |list|
      ensures Stands(q, list, j + 1)
    {
      assert Seated(head, NodesOf(list), j);
      q := pos.next;
    }

    /** list_add_tail */
    method Append(b: nat, ghost list: seq<nat>)
      requires Threads(list) && b < |nodes| && b !in list
      modifies head, nodes
      ensures Threads(list + [b])
    {
      ghost var s := NodesOf(list);
      assert forall k :: 0 <= k < |s| ==> list[k] in list && s[k] == nodes[list[k]];
      ListAddTail(nodes[b], head, s);
      assert NodesOf(list + [b]) == s + [nodes[b]];
    }

    /** list_del */
    method Delete(pos: ListHead, ghost list: seq<nat>, ghost j: nat)
      requires Threads(list) && Stands(pos, list, j) && j < |list|
      modifies head, nodes
      ensures Threads(list[..j] + list[j + 1..])
    {
      ghost var s := NodesOf(list);
      ListDel(pos, head, s, j);
      ghost var rest := list[..j] + list[j + 1..];
      assert NodesOf(rest) == Removed(s, j);
    }
  }
}
