/** The queue of requests that are ready to run: a doubly linked list in which a request appears at most once. */
module RunQueue {
  import opened Collections

  class Node {
    const req: nat
    var prev: Node?
    var next: Node?

    constructor (req: nat)
      ensures this.req == req && prev == null && next == null
    {
      this.req, prev, next := req, null, null;
    }
  }

  class Queue {
    var first: Node?
    var last: Node?
    ghost var nodes: seq<Node>
    ghost var contents: seq<nat>

    ghost function At(i: int): Node?
      reads this
    {
      if 0 <= i < |nodes| then nodes[i] else null
    }

    ghost predicate Valid()
      reads this, nodes
    {
      && |contents| == |nodes|
      && Distinct(contents)
      && (forall i :: 0 <= i < |nodes| ==> nodes[i].req == contents[i])
      && first == At(0) && last == At(|nodes| - 1)
      && (forall i {:trigger Linked(i)} :: 0 <= i < |nodes| ==> Linked(i))
    }

    ghost predicate Linked(i: int)
      reads this, nodes
    {
      0 <= i < |nodes| ==> nodes[i].prev == At(i - 1) && nodes[i].next == At(i + 1)
    }

    constructor ()
      ensures Valid() && contents == [] && nodes == []
    {
      first, last, nodes, contents := null, null, [], [];
    }

    /** Appends a request unless it is queued already. */
    method Push(r: nat)
      requires Valid()
      modifies this, nodes
      ensures Valid() && contents == if r in old(contents) then old(contents) else old(contents) + [r]
      ensures forall i :: 0 <= i < |nodes| ==> nodes[i] in old(nodes) || fresh(nodes[i])
    {
      var u := first;
      ghost var i := 0;
      while u != null
        invariant 0 <= i <= |nodes| && u == At(i)
        invariant r !in contents[..i]
        decreases |nodes| - i
      {
        assert Linked(i);
        if u.req == r {
          return;
        }
        u := u.next;
        i := i + 1;
      }
      u := new Node(r);
      if first == null {
        first := u;
      } else {
        u.prev := last;
      }
      if last != null {
        last.next := u;
      }
      last := u;
      ghost var n := |nodes|;
      nodes, contents := nodes + [u], contents + [r];
      forall i | 0 <= i < |nodes| ensures Linked(i) {
        assert i < n ==> old(Linked(i));
      }
    }

    /** Linked as if position k were not there. */
    ghost predicate Skips(j: int, k: int)
      reads this, nodes
    {
      0 <= j < |nodes| ==>
        && nodes[j].next == At(if j + 1 == k then k + 1 else j + 1)
        && nodes[j].prev == At(if j - 1 == k then k - 1 else j - 1)
    }

    /** The pointer part of taking one node out: its neighbours become neighbours. */
    method Unlink(u: Node, ghost k: nat)
      requires Valid() && k < |nodes| && nodes[k] == u
      modifies this`first, this`last, nodes
      ensures first == At(if k == 0 then 1 else 0) && last == At(if k == |nodes| - 1 then k - 1 else |nodes| - 1)
      ensures forall j {:trigger Skips(j, k)} :: 0 <= j < |nodes| && j != k ==> Skips(j, k)
    {
      hide Distinct;
      assert Linked(k) && Linked(k - 1) && Linked(k + 1);
      Differ(contents);
      assert forall i, j :: 0 <= i < |nodes| && 0 <= j < |nodes| && i != j ==> nodes[i] != nodes[j];
      var parent := u.prev;
      var child := u.next;
      if parent != null {
        parent.next := child;
      }
      if child != null {
        child.prev := parent;
      }
      if u == first {
        first := child;
      }
      if u == last {
        last := parent;
      }
      forall j | 0 <= j < |nodes| && j != k ensures Skips(j, k) {
        assert old(Linked(j));
      }
    }

    /** Takes one node out of the queue. */
    method Remove(u: Node, ghost k: nat)
      requires Valid() && k < |nodes| && nodes[k] == u
      modifies this, nodes
      ensures Valid() && nodes == Without(old(nodes), k) && contents == Without(old(contents), k)
    {
      hide Without, Distinct, Linked;
      WithoutFacts(contents, k);
      WithoutAt(nodes, k);
      WithoutAt(contents, k);
      Unlink(u, k);
      label unlinked:
      nodes, contents := Without(nodes, k), Without(contents, k);
      forall i | 0 <= i < |nodes| ensures Linked(i) {
        assert old@unlinked(Skips(if i < k then i else i + 1, k));
        Relinked(i);
      }
    }

    lemma Relinked(i: int)
      requires 0 <= i < |nodes| && nodes[i].prev == At(i - 1) && nodes[i].next == At(i + 1)
      ensures Linked(i)
    {
    }
  }

  lemma Differ(s: seq<nat>)
    requires Distinct(s)
    ensures forall i, j :: 0 <= i < |s| && 0 <= j < |s| && i != j ==> s[i] != s[j]
  {
  }
}
