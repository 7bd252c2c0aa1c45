/** The doubly linked list of chunks, node by node. */
module ChunkList {

  class Chunk {
    var start: nat
    var size: nat
    var free: bool
    var prev: Chunk?
    var next: Chunk?

    constructor (start: nat, size: nat)
      ensures this.start == start && this.size == size && free
    {
      this.start, this.size, this.free := start, size, true;
      prev, next := null, null;
    }
  }

  ghost predicate Distinct(s: seq<Chunk>) {
    forall i, j :: 0 <= i < j < |s| ==> s[i] != s[j]
  }

  lemma InsertDistinct(s: seq<Chunk>, k: nat, x: Chunk)
    requires Distinct(s) && k <= |s| && x !in s
    ensures Distinct(s[..k] + [x] + s[k..])
  {
    var t := s[..k] + [x] + s[k..];
    forall i, j | 0 <= i < j < |t|
      ensures t[i] != t[j]
    {
      assert t[i] == if i < k then s[i] else if i == k then x else s[i - 1];
      assert t[j] == if j < k then s[j] else if j == k then x else s[j - 1];
    }
  }

  lemma RemoveDistinct(s: seq<Chunk>, k: nat)
    requires Distinct(s) && k < |s|
    ensures Distinct(s[..k] + s[k + 1..])
  {
    var t := s[..k] + s[k + 1..];
    forall i, j | 0 <= i < j < |t|
      ensures t[i] != t[j]
    {
      assert t[i] == (if i < k then s[i] else s[i + 1]) && t[j] == (if j < k then s[j] else s[j + 1]);
    }
  }

  class LinkedList {
    var mFirst: Chunk?
    var mLast: Chunk?
    /** The nodes in list order. */
    ghost var nodes: seq<Chunk>

    /** Every node that was ever in the list. */
    ghost var repr: set<Chunk>

    ghost predicate Valid()
      reads this, repr`prev, repr`next
    {
      && (forall i :: 0 <= i < |nodes| ==> nodes[i] in repr)
      && Distinct(nodes)
      && mFirst == (if nodes == [] then null else nodes[0])
      && mLast == (if nodes == [] then null else nodes[|nodes| - 1])
      && (forall i :: 0 <= i < |nodes| ==> Linked(i))
    }

    ghost predicate Linked(i: nat)
      requires i < |nodes|
      reads this, {nodes[i]}`prev, {nodes[i]}`next
    {
      && nodes[i].prev == (if i == 0 then null else nodes[i - 1])
      && nodes[i].next == (if i + 1 == |nodes| then null else nodes[i + 1])
    }

    constructor ()
      ensures Valid() && nodes == [] && repr == {}
    {
      mFirst, mLast, nodes, repr := null, null, [], {};
    }

    method InsertAfter(node: Chunk, newNode: Chunk, ghost k: nat)
      requires Valid() && k < |nodes| && nodes[k] == node && newNode !in repr
      modifies this, repr`prev, repr`next, newNode`prev, newNode`next
      ensures Valid() && nodes == old(nodes[..k + 1] + [newNode] + nodes[k + 1..]) && repr == old(repr) + {newNode}
    {
      assert Linked(k) && (k + 1 < |nodes| ==> Linked(k + 1));
      newNode.prev := node;
      newNode.next := node.next;
      if node.next == null {
        mLast := newNode;
      } else {
        node.next.prev := newNode;
      }
      node.next := newNode;
      InsertDistinct(nodes, k + 1, newNode);
      nodes := nodes[..k + 1] + [newNode] + nodes[k + 1..];
      repr := repr + {newNode};
      forall i | 0 <= i < |nodes|
        ensures Linked(i)
      {
        assert old(i <= k ==> Linked(i)) && old(i > k + 1 ==> Linked(i - 1));
        assert nodes[i] == if i <= k then old(nodes)[i] else if i == k + 1 then newNode else old(nodes)[i - 1];
      }
    }

    method InsertBefore(node: Chunk, newNode: Chunk, ghost k: nat)
      requires Valid() && k < |nodes| && nodes[k] == node && newNode !in repr
      modifies this, repr`prev, repr`next, newNode`prev, newNode`next
      ensures Valid() && nodes == old(nodes[..k] + [newNode] + nodes[k..]) && repr == old(repr) + {newNode}
    {
      assert Linked(k) && (k > 0 ==> Linked(k - 1));
      newNode.prev := node.prev;
      newNode.next := node;
      if node.prev == null {
        mFirst := newNode;
      } else {
        node.prev.next := newNode;
      }
      node.prev := newNode;
      InsertDistinct(nodes, k, newNode);
      nodes := nodes[..k] + [newNode] + nodes[k..];
      repr := repr + {newNode};
      forall i | 0 <= i < |nodes|
        ensures Linked(i)
      {
        assert old(i < k ==> Linked(i)) && old(i > k ==> Linked(i - 1));
        assert nodes[i] == if i < k then old(nodes)[i] else if i == k then newNode else old(nodes)[i - 1];
      }
    }

    method InsertHead(newNode: Chunk)
      requires Valid() && newNode !in repr
      modifies this, repr`prev, repr`next, newNode`prev, newNode`next
      ensures Valid() && nodes == old([newNode] + nodes) && repr == old(repr) + {newNode}
    {
      assert |nodes| > 0 ==> Linked(0);
      if mFirst == null {
        mFirst, mLast := newNode, newNode;
        newNode.prev, newNode.next := null, null;
      } else {
        newNode.prev := null;
        newNode.next := mFirst;
        mFirst.prev := newNode;
        mFirst := newNode;
      }
      nodes := [newNode] + nodes;
      repr := repr + {newNode};
      forall i | 0 <= i < |nodes|
        ensures Linked(i)
      {
        assert old(i > 0 ==> Linked(i - 1));
      }
    }

    method InsertTail(newNode: Chunk)
      requires Valid() && newNode !in repr
      modifies this, repr`prev, repr`next, newNode`prev, newNode`next
      ensures Valid() && nodes == old(nodes + [newNode]) && repr == old(repr) + {newNode}
    {
      assert |nodes| > 0 ==> Linked(|nodes| - 1);
      if mLast == null {
        InsertHead(newNode);
      } else {
        newNode.prev := mLast;
        newNode.next := null;
        mLast.next := newNode;
        mLast := newNode;
        nodes := nodes + [newNode];
        repr := repr + {newNode};
        forall i | 0 <= i < |nodes|
          ensures Linked(i)
        {
          assert old(i < |nodes| ==> Linked(i));
        }
      }
    }

    method Remove(node: Chunk, ghost k: nat)
      requires Valid() && k < |nodes| && nodes[k] == node
      modifies this, repr`prev, repr`next
      ensures Valid() && nodes == old(nodes[..k] + nodes[k + 1..]) && repr == old(repr)
    {
      assert Linked(k) && (k > 0 ==> Linked(k - 1)) && (k + 1 < |nodes| ==> Linked(k + 1));
      if node.prev == null {
        mFirst := node.next;
      } else {
        node.prev.next := node.next;
      }
      if node.next == null {
        mLast := node.prev;
      } else {
        node.next.prev := node.prev;
      }
      RemoveDistinct(nodes, k);
      nodes := nodes[..k] + nodes[k + 1..];
      forall i | 0 <= i < |nodes|
        ensures Linked(i)
      {
        assert old(if i < k then Linked(i) else Linked(i + 1));
        assert nodes[i] == if i < k then old(nodes)[i] else old(nodes)[i + 1];
      }
    }
  }
}
