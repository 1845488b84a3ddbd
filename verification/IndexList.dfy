/** Doubly linked lists threaded through two index columns, as the hash chains and the LRU list of a cache are:
    `next[i]` and `prev[i]` are slot numbers and 0 is the null link. `order` is the list read front to back. */
module IndexList {
  import opened Collections

  function Head(order: seq<nat>): nat {
    if order == [] then 0 else order[0]
  }

  function Last(order: seq<nat>): nat {
    if order == [] then 0 else order[|order| - 1]
  }

  function NextOf(order: seq<nat>, i: nat): nat
    requires i < |order|
  {
    if i + 1 < |order| then order[i + 1] else 0
  }

  function PrevOf(order: seq<nat>, i: nat): nat
    requires i < |order|
  {
    if i > 0 then order[i - 1] else 0
  }

  ghost predicate InTable(order: seq<nat>, size: nat) {
    forall i :: 0 <= i < |order| ==> 0 < order[i] < size
  }

  ghost predicate Linked(next: seq<nat>, prev: seq<nat>, order: seq<nat>) {
    && |next| == |prev| && InTable(order, |next|) && Distinct(order)
    && (forall i {:trigger NextOf(order, i)} :: 0 <= i < |order| ==> next[order[i]] == NextOf(order, i))
    && (forall i {:trigger PrevOf(order, i)} :: 0 <= i < |order| ==> prev[order[i]] == PrevOf(order, i))
  }

  /** A link column after the write `column[slot] := v`, which is skipped for the null slot. */
  function Write(column: seq<nat>, slot: nat, v: nat): seq<nat>
    requires slot < |column|
  {
    if slot == 0 then column else column[slot := v]
  }

  /** Taking slot `order[k]` out: its neighbours are joined. */
  lemma UnlinkKeeps(next: seq<nat>, prev: seq<nat>, order: seq<nat>, k: nat)
    requires Linked(next, prev, order) && k < |order|
    ensures PrevOf(order, k) < |next| && NextOf(order, k) < |prev|
    ensures Linked(Write(next, PrevOf(order, k), NextOf(order, k)), Write(prev, NextOf(order, k), PrevOf(order, k)),
                   Without(order, k))
  {
    WithoutFacts(order, k);
    WithoutEnds(order, k, |next|);
    UnlinkNext(next, order, k);
    UnlinkPrev(prev, order, k);
    hide Distinct, Without, Write, PrevOf, NextOf, InTable;
    WriteLength(next, PrevOf(order, k), NextOf(order, k));
    WriteLength(prev, NextOf(order, k), PrevOf(order, k));
  }

  lemma WriteLength(column: seq<nat>, slot: nat, v: nat)
    requires slot < |column|
    ensures |Write(column, slot, v)| == |column|
  {
  }

  lemma WithoutEnds(order: seq<nat>, k: nat, size: nat)
    requires k < |order| && InTable(order, size)
    ensures InTable(Without(order, k), size)
    ensures Head(Without(order, k)) == if k == 0 then NextOf(order, 0) else Head(order)
    ensures Last(Without(order, k)) == if k + 1 == |order| then PrevOf(order, k) else Last(order)
  {
    var w := Without(order, k);
    assert forall i :: 0 <= i < |w| ==> w[i] == if i < k then order[i] else order[i + 1];
  }

  lemma UnlinkNext(next: seq<nat>, order: seq<nat>, k: nat)
    requires InTable(order, |next|) && Distinct(order) && k < |order|
    requires forall i :: 0 <= i < |order| ==> next[order[i]] == NextOf(order, i)
    ensures PrevOf(order, k) < |next|
    ensures var w, next' := Without(order, k), Write(next, PrevOf(order, k), NextOf(order, k));
            forall i :: 0 <= i < |w| ==> next'[w[i]] == NextOf(w, i)
  {
    var w, next' := Without(order, k), Write(next, PrevOf(order, k), NextOf(order, k));
    forall i | 0 <= i < |w| ensures next'[w[i]] == NextOf(w, i) {
      var j := if i < k then i else i + 1;
      assert w[i] == order[j];
      assert j + 1 != k ==> next'[order[j]] == next[order[j]];
    }
  }

  lemma UnlinkPrev(prev: seq<nat>, order: seq<nat>, k: nat)
    requires InTable(order, |prev|) && Distinct(order) && k < |order|
    requires forall i :: 0 <= i < |order| ==> prev[order[i]] == PrevOf(order, i)
    ensures NextOf(order, k) < |prev|
    ensures var w, prev' := Without(order, k), Write(prev, NextOf(order, k), PrevOf(order, k));
            forall i :: 0 <= i < |w| ==> prev'[w[i]] == PrevOf(w, i)
  {
    var w, prev' := Without(order, k), Write(prev, NextOf(order, k), PrevOf(order, k));
    forall i | 0 <= i < |w| ensures prev'[w[i]] == PrevOf(w, i) {
      var j := if i < k then i else i + 1;
      assert w[i] == order[j];
      assert j != k + 1 ==> prev'[order[j]] == prev[order[j]];
    }
  }

  /** Appending a slot that is not yet in the list. */
  lemma AppendKeeps(next: seq<nat>, prev: seq<nat>, order: seq<nat>, slot: nat)
    requires Linked(next, prev, order) && 0 < slot < |next| && slot !in order
    ensures Last(order) < |next|
    ensures Linked(Write(next, Last(order), slot)[slot := 0], prev[slot := Last(order)], order + [slot])
  {
    var o := order + [slot];
    var next' := Write(next, Last(order), slot)[slot := 0];
    var prev' := prev[slot := Last(order)];
    assert forall i :: 0 <= i < |order| ==> o[i] == order[i] != slot;
    forall i | 0 <= i < |o| ensures next'[o[i]] == NextOf(o, i) && prev'[o[i]] == PrevOf(o, i) {
      if i < |order| {
        assert next[order[i]] == NextOf(order, i) && prev[order[i]] == PrevOf(order, i);
      }
    }
  }

  /** Columns that agree on the listed slots carry the same list. */
  lemma LinkedFrame(next: seq<nat>, prev: seq<nat>, next': seq<nat>, prev': seq<nat>, order: seq<nat>)
    requires Linked(next, prev, order) && |next'| == |prev'| == |next|
    requires forall i :: 0 <= i < |order| ==> next'[order[i]] == next[order[i]] && prev'[order[i]] == prev[order[i]]
    ensures Linked(next', prev', order)
  {
  }

  /** Pigeonhole: distinct slots of a table are fewer than its size. */
  lemma DistinctBound(order: seq<nat>, size: nat)
    requires Distinct(order) && InTable(order, size) && size > 0
    ensures |order| < size
  {
    DistinctFits(order, Slots(size));
  }

  ghost function Slots(size: nat): (s: set<nat>)
    requires size > 0
    ensures |s| == size - 1 && forall i: nat :: i in s <==> 0 < i < size
  {
    if size == 1 then {} else Slots(size - 1) + {size - 1}
  }

  lemma {:induction false} DistinctFits<T>(s: seq<T>, u: set<T>)
    requires Distinct(s) && forall i :: 0 <= i < |s| ==> s[i] in u
    ensures |s| <= |u|
  {
    if s != [] {
      var t := s[1..];
      assert forall i :: 0 <= i < |t| ==> t[i] == s[i + 1];
      DistinctFits(t, u - {s[0]});
    }
  }
}
