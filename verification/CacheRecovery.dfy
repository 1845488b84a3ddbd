/** Rebuilding a cache from stored item headers, and enumerating its keys. */
module CacheRecovery {
  import opened Collections
  import opened Bytes
  import opened CacheSpec
  import opened CacheTables
  import opened CacheState
  import opened IndexList

  // ----- what a header tells about its lists

  lemma HeadTest(it: Items, hashtable: seq<nat>, chains: seq<seq<nat>>, i: nat)
    requires Shaped(it, |it.keys|) && Chained(it, hashtable, chains) && IsLive(it.keys, i)
    ensures |chains| > 0 && (it.prev[i] == 0 <==> i == Head(chains[Bucket(it.hashes[i], |chains|)]))
  {
    hide Bucket, ChainsOk;
    ChainsThere(it, hashtable, chains);
    Located(it.keys, it.hashes, hashtable, it.next, it.prev, chains, i);
    FirstTest(it.next, it.prev, chains[Bucket(it.hashes[i], |chains|)], i);
  }

  lemma FirstTest(next: seq<nat>, prev: seq<nat>, order: seq<nat>, i: nat)
    requires Linked(next, prev, order) && i in order
    ensures i < |prev| && (prev[i] == 0 <==> i == Head(order)) && (next[i] == 0 <==> i == Last(order))
  {
    var p := Position(order, i);
    assert prev[i] == PrevOf(order, p) && next[i] == NextOf(order, p);
  }

  lemma HeadIsLive(it: Items, hashtable: seq<nat>, chains: seq<seq<nat>>, b: nat)
    requires Shaped(it, |it.keys|) && Chained(it, hashtable, chains) && b < |chains|
    ensures hashtable[b] == Head(chains[b])
    ensures Head(chains[b]) != 0 ==> IsLive(it.keys, Head(chains[b])) && Bucket(it.hashes[Head(chains[b])], |chains|) == b
  {
    hide Bucket, ChainsOk;
    ChainHead(it, hashtable, chains, b);
    if chains[b] != [] { ChainNode(it, hashtable, chains, b, 0); }
  }

  // ----- the rebuilding scan

  /** Entry points found among the slots below i. */
  ghost predicate HeadsBelow(hashtable: seq<nat>, chains: seq<seq<nat>>, i: nat) {
    && |hashtable| == |chains|
    && forall b :: 0 <= b < |chains| ==> hashtable[b] == if Head(chains[b]) < i then Head(chains[b]) else 0
  }

  ghost predicate FreeBelow(keys: seq<Key>, stack: seq<nat>, sp: nat, i: nat) {
    && |stack| == |keys| && sp < |stack| && i <= |keys|
    && Distinct(FreeSlots(stack, sp))
    && forall j: nat :: j in FreeSlots(stack, sp) <==> 0 < j < i && keys[j] == []
  }

  /** t is the least expiry of the slots in (0, i), or 0 when none of them expires. */
  ghost predicate LeastBelow(keys: seq<Key>, exp: seq<nat>, i: nat, t: nat) {
    && (forall j: nat :: j < i && IsLive(keys, j) && At(exp, j, 0) > 0 ==> 0 < t <= At(exp, j, 0))
    && (t > 0 ==> exists j: nat :: j < i && IsLive(keys, j) && At(exp, j, 0) == t)
  }

  lemma FreeGrows(keys: seq<Key>, stack: seq<nat>, sp: nat, i: nat)
    requires FreeBelow(keys, stack, sp, i) && 0 < i < |keys| && sp + 1 < |stack|
    ensures keys[i] != [] ==> FreeBelow(keys, stack, sp, i + 1)
    ensures keys[i] == [] ==> FreeBelow(keys, stack[sp + 1 := i], sp + 1, i + 1)
  {
    var f := FreeSlots(stack, sp);
    if keys[i] == [] {
      assert FreeSlots(stack[sp + 1 := i], sp + 1) == f + [i];
      assert forall j: nat :: j in f + [i] <==> j in f || j == i;
      assert i !in f;
    }
  }

  lemma LeastGrows(keys: seq<Key>, exp: seq<nat>, i: nat, t: nat)
    requires LeastBelow(keys, exp, i, t) && 0 < i < |keys| == |exp|
    ensures var t' := if keys[i] != [] && exp[i] > 0 && (t == 0 || t > exp[i]) then exp[i] else t;
            LeastBelow(keys, exp, i + 1, t')
  {
    var t' := if keys[i] != [] && exp[i] > 0 && (t == 0 || t > exp[i]) then exp[i] else t;
    if t' > 0 {
      var j: nat :| j < i + 1 && IsLive(keys, j) && At(exp, j, 0) == t';
    }
  }

  lemma HeadsGrow(it: Items, ht: seq<nat>, hashtable: seq<nat>, chains: seq<seq<nat>>, i: nat)
    requires Shaped(it, |it.keys|) && Chained(it, ht, chains) && HeadsBelow(hashtable, chains, i) && 0 < i < |it.keys|
    ensures |chains| > 0 && |hashtable| == |chains|
    ensures it.keys[i] == [] || it.prev[i] != 0 ==> HeadsBelow(hashtable, chains, i + 1)
    ensures it.keys[i] != [] && it.prev[i] == 0 ==>
              HeadsBelow(hashtable[Bucket(it.hashes[i], |chains|) := i], chains, i + 1)
  {
    hide Bucket, ChainsOk;
    ChainsThere(it, ht, chains);
    if it.keys[i] != [] { HeadTest(it, ht, chains, i); }
    forall b | 0 <= b < |chains| ensures Head(chains[b]) == i ==> it.keys[i] != [] && Bucket(it.hashes[i], |chains|) == b {
      HeadIsLive(it, ht, chains, b);
    }
  }

  lemma SameMembersSameLength(s: seq<nat>, t: seq<nat>)
    requires Distinct(s) && Distinct(t) && forall i: nat :: i in s <==> i in t
    ensures |s| == |t|
  {
    DistinctFits(s, Elements(t));
    DistinctFits(t, Elements(s));
  }

  ghost function Elements(s: seq<nat>): (u: set<nat>)
    ensures |u| <= |s| && forall i: nat :: i in u <==> i in s
  {
    if s == [] then {} else
      assert s == [s[0]] + s[1..];
      Elements(s[1..]) + {s[0]}
  }

  /** The rebuilt stack holds as many slots as the stack of the state the headers were stored from. */
  lemma StacksAgree(keys: seq<Key>, stack: seq<nat>, sp: nat, stack': seq<nat>, sp': nat)
    requires FreeOk(keys, stack, sp) && FreeBelow(keys, stack', sp', |keys|)
    ensures FreeOk(keys, stack', sp') && sp' == sp
  {
    SameMembersSameLength(FreeSlots(stack, sp), FreeSlots(stack', sp'));
  }

  lemma EndsFound(c: Config, keys: seq<Key>, r: Recency, lru: seq<nat>, i: nat)
    requires Recent(c, keys, r, lru) && c.purgeLru && IsLive(keys, i) && |r.next| == |r.prev| == |keys|
    ensures (r.prev[i] == 0 <==> i == Head(lru)) && (r.next[i] == 0 <==> i == Last(lru))
  {
    hide LruLinks;
    LruLive(c, keys, r, lru, i);
    hide AllLive;
    LinksOf(r, lru);
    FirstTest(r.next, r.prev, lru, i);
  }

  lemma LinksOf(r: Recency, lru: seq<nat>)
    requires LruOk(r, lru)
    ensures Linked(r.next, r.prev, lru) && r.head == Head(lru) && r.tail == Last(lru)
  {
    hide Linked;
  }

  lemma EndsAreSlots(c: Config, keys: seq<Key>, r: Recency, lru: seq<nat>)
    requires Recent(c, keys, r, lru) && c.purgeLru
    ensures r.head == Head(lru) && r.tail == Last(lru)
    ensures (Head(lru) != 0 ==> IsLive(keys, Head(lru))) && (Last(lru) != 0 ==> IsLive(keys, Last(lru)))
  {
    hide Linked;
  }

  ghost predicate EndsBelow(c: Config, r: Recency, head: nat, tail: nat, i: nat) {
    c.purgeLru ==>
      && head == (if r.head < i then r.head else 0)
      && tail == (if r.tail < i then r.tail else 0)
  }

  lemma EndsGrow(c: Config, keys: seq<Key>, r: Recency, lru: seq<nat>, head: nat, tail: nat, i: nat)
    requires Recent(c, keys, r, lru) && |r.next| == |r.prev| == |keys| && 0 < i < |keys| && EndsBelow(c, r, head, tail, i)
    ensures EndsBelow(c, r, if keys[i] != [] && head == 0 && r.prev[i] == 0 then i else head,
                      if keys[i] != [] && tail == 0 && r.next[i] == 0 then i else tail, i + 1)
  {
    hide Recent;
    if c.purgeLru {
      EndsAreSlots(c, keys, r, lru);
      if keys[i] != [] { EndsFound(c, keys, r, lru, i); }
    }
  }

  /** Recovery of a cache without a bitmap from the headers of a stored state `was`: with the hash table and the list ends
      cleared, one pass over the slots restores a state with the same map and the same recency order. */
  method Fix(e: Env, s: State, ghost was: State, ghost g: Reading, ghost bits: seq<bool>, ghost data: seq<byte>)
    returns (s': State)
    requires Inv(e, was, g, bits) && !e.c.bitmap
    requires s.items == was.items && s.recency == was.recency.(head := 0, tail := 0)
    requires |s.hashtable| == e.hashsize && (forall b :: 0 <= b < e.hashsize ==> s.hashtable[b] == 0)
    requires |s.stack| == e.c.maxItems
    ensures Inv(e, s', g, bits) && s'.items == was.items && (e.c.purgeLru ==> s'.recency == was.recency)
    ensures s'.nItems == |g.slotOf| && LeastBelow(was.items.keys, was.items.expires, e.c.maxItems, s'.nextScan)
    ensures Abs(e, s', g, data) == Abs(e, was, g, data).(nextScan := s'.nextScan)
  {
    hide FreeOk, IndexOk, ChainsOk, Recent, AllocOk, Sized, DeadNeverExpires, SizeLimit, FreeBelow, LeastBelow, HeadsBelow, View, KeysOf;
    hide Head, Bucket;
    var it := s.items;
    var stack: seq<nat>, hashtable: seq<nat> := s.stack, s.hashtable;
    var head, tail := 0, 0;
    var sp, restored, nextScan := 0, 0, 0;
    FixStarts(e, was, g, hashtable, stack);
    for i := 1 to e.c.maxItems
      invariant |stack| == e.c.maxItems && |hashtable| == e.hashsize && sp + restored == i - 1
      invariant FreeBelow(it.keys, stack, sp, i) && LeastBelow(it.keys, it.expires, i, nextScan)
      invariant HeadsBelow(hashtable, g.chains, i) && EndsBelow(e.c, was.recency, head, tail, i)
    {
      FreeGrows(it.keys, stack, sp, i);
      LeastGrows(it.keys, it.expires, i, nextScan);
      HeadsGrow(it, was.hashtable, hashtable, g.chains, i);
      EndsGrow(e.c, it.keys, was.recency, g.lru, head, tail, i);
      if |it.keys[i]| > 0 {
        if it.prev[i] == 0 {
          BucketIs(it.hashes[i], e.hashsize);
          hashtable := hashtable[it.hashes[i] % e.hashsize := i];
        }
        if it.expires[i] > 0 && (nextScan == 0 || nextScan > it.expires[i]) {
          nextScan := it.expires[i];
        }
        if head == 0 && s.recency.prev[i] == 0 {
          head := i;
        }
        if tail == 0 && s.recency.next[i] == 0 {
          tail := i;
        }
        restored := restored + 1;
      } else {
        sp := sp + 1;
        stack := stack[sp := i];
      }
    }
    s' := s.(hashtable := hashtable, stack := stack, sp := sp, nItems := restored, nextScan := nextScan,
             recency := s.recency.(head := head, tail := tail), bitmapPos := s.bitmapPos);
    StacksAgree(it.keys, was.stack, was.sp, stack, sp);
    FixEnds(e, was, g, bits, s');
  }

  lemma BucketIs(h: nat, hashsize: nat)
    requires hashsize > 0
    ensures Bucket(h, hashsize) == h % hashsize
  {
  }

  lemma FixStarts(e: Env, was: State, g: Reading, hashtable: seq<nat>, stack: seq<nat>)
    requires StateShaped(e, was, g) && Recent(e.c, was.items.keys, was.recency, g.lru)
    requires Chained(was.items, was.hashtable, g.chains)
    requires |hashtable| == e.hashsize && (forall b :: 0 <= b < e.hashsize ==> hashtable[b] == 0)
    requires |stack| == e.c.maxItems > 0
    ensures FreeBelow(was.items.keys, stack, 0, 1) && LeastBelow(was.items.keys, was.items.expires, 1, 0)
    ensures HeadsBelow(hashtable, g.chains, 1) && EndsBelow(e.c, was.recency, 0, 0, 1)
  {
    hide ChainsOk, Recent, Linked;
    forall b | 0 <= b < |g.chains| ensures Head(g.chains[b]) < 1 ==> Head(g.chains[b]) == 0 {
    }
  }

  lemma FixEnds(e: Env, was: State, g: Reading, bits: seq<bool>, s': State)
    requires Inv(e, was, g, bits) && !e.c.bitmap
    requires s'.items == was.items && |s'.stack| == e.c.maxItems && |s'.hashtable| == e.hashsize
    requires s'.recency == was.recency.(head := s'.recency.head, tail := s'.recency.tail)
    requires FreeOk(was.items.keys, s'.stack, s'.sp) && s'.sp == was.sp && s'.sp + s'.nItems == e.c.maxItems - 1
    requires HeadsBelow(s'.hashtable, g.chains, e.c.maxItems)
    requires EndsBelow(e.c, was.recency, s'.recency.head, s'.recency.tail, e.c.maxItems)
    ensures Inv(e, s', g, bits) && (e.c.purgeLru ==> s'.recency == was.recency)
  {
    hide FreeOk, IndexOk, ChainsOk, AllocOk, Sized, DeadNeverExpires, SizeLimit, Recent;
    var it := was.items;
    forall b | 0 <= b < e.hashsize ensures s'.hashtable[b] == was.hashtable[b] {
      HeadIsLive(it, was.hashtable, g.chains, b);
    }
    assert s'.hashtable == was.hashtable;
    if e.c.purgeLru {
      EndsAreSlots(e.c, it.keys, was.recency, g.lru);
    } else {
      NoRecency(e.c, it.keys, was.recency, s'.recency, g.lru);
    }
    NoBitmapPos(e, was, bits, s'.bitmapPos);
  }

  lemma NoRecency(c: Config, keys: seq<Key>, r: Recency, r': Recency, lru: seq<nat>)
    requires Recent(c, keys, r, lru) && !c.purgeLru
    ensures Recent(c, keys, r', lru)
  {
  }

  lemma NoBitmapPos(e: Env, was: State, bits: seq<bool>, pos: nat)
    requires !e.c.bitmap
    requires AllocOk(e.c, bits, was.bitmapPos, was.items.keys, was.items.firstBlock, was.items.valsize, e.blocksize, e.blocks)
    ensures AllocOk(e.c, bits, pos, was.items.keys, was.items.firstBlock, was.items.valsize, e.blocksize, e.blocks)
  {
    hide RangesOk;
  }

  // ----- enumeration

  ghost function Flatten(chains: seq<seq<nat>>): seq<nat> {
    if chains == [] then [] else chains[0] + Flatten(chains[1..])
  }

  /** What an enumeration standing at bucket `pos`, after `j` items of its chain, still has to deliver. */
  ghost function Rest(chains: seq<seq<nat>>, pos: nat, j: nat): seq<nat> {
    if pos < |chains| && j <= |chains[pos]| then chains[pos][j..] + Flatten(chains[pos + 1..]) else []
  }

  /** `cur` is the item delivered last, 0 before the first one. */
  ghost predicate Stands(chains: seq<seq<nat>>, pos: nat, cur: nat, j: nat) {
    pos < |chains| ==>
      && j <= |chains[pos]|
      && (if cur == 0 then j == 0 else j > 0 && cur == chains[pos][j - 1])
  }

  lemma RestSkips(chains: seq<seq<nat>>, pos: nat)
    requires pos < |chains|
    ensures Rest(chains, pos, |chains[pos]|) == Rest(chains, pos + 1, 0)
  {
    if pos + 1 < |chains| {
      assert chains[pos + 1..][1..] == chains[pos + 2..];
    }
  }

  lemma RestDelivers(chains: seq<seq<nat>>, pos: nat, j: nat)
    requires pos < |chains| && j < |chains[pos]|
    ensures Rest(chains, pos, j) == [chains[pos][j]] + Rest(chains, pos, j + 1)
  {
  }

  /** One call of the iterator: the next live slot in bucket order, or nothing, for good, when all are delivered. */
  method NextKey(e: Env, s: State, pos: nat, cur: nat, ghost g: Reading, ghost bits: seq<bool>, ghost j: nat)
    returns (found: bool, pos': nat, cur': nat, ghost j': nat)
    requires Inv(e, s, g, bits) && Stands(g.chains, pos, cur, j)
    ensures Stands(g.chains, pos', cur', j')
    ensures found ==> cur' > 0 && Rest(g.chains, pos, j) == [cur'] + Rest(g.chains, pos', j')
    ensures !found ==> Rest(g.chains, pos, j) == [] && pos' >= e.hashsize
  {
    hide FreeOk, IndexOk, ChainsOk, Recent, AllocOk, Sized, DeadNeverExpires, SizeLimit, Counted, Rest;
    pos', cur', j' := pos, cur, j;
    NothingLeft(g.chains, pos, j);
    if pos >= e.hashsize {
      return false, pos', cur', j';
    }
    var origPos := pos;
    while pos' < e.hashsize
      invariant origPos <= pos' <= e.hashsize && cur' == cur
      invariant pos' == origPos ==> j' == j
      invariant pos' > origPos ==> j' == 0
      invariant Rest(g.chains, pos', j') == Rest(g.chains, pos, j)
    {
      ChainHead(s.items, s.hashtable, g.chains, pos');
      var slot := s.hashtable[pos'];
      if j' < |g.chains[pos']| { ChainNode(s.items, s.hashtable, g.chains, pos', j'); }
      if j' > 0 {
        ChainNode(s.items, s.hashtable, g.chains, pos', j' - 1);
        AtEnd(s.items, s.hashtable, g.chains, pos', j' - 1);
      }
      if pos' == origPos && cur != 0 {
        slot := s.items.next[cur];
      }
      if slot == 0 {
        RestSkips(g.chains, pos');
        pos', j' := pos' + 1, 0;
      } else {
        RestDelivers(g.chains, pos', j');
        cur', j' := slot, j' + 1;
        return true, pos', cur', j';
      }
    }
    NothingLeft(g.chains, pos', j');
    pos' := pos' + 1;
    found := false;
  }

  lemma NothingLeft(chains: seq<seq<nat>>, pos: nat, j: nat)
    ensures pos >= |chains| ==> Rest(chains, pos, j) == []
  {
  }

  /** Calling the iterator from the start until it returns nothing delivers every live slot exactly once. */
  method AllKeys(e: Env, s: State, ghost g: Reading, ghost bits: seq<bool>) returns (slots: seq<nat>)
    requires Inv(e, s, g, bits)
    ensures Distinct(slots) && forall i: nat :: i in slots <==> IsLive(s.items.keys, i)
  {
    hide FreeOk, IndexOk, ChainsOk, Recent, AllocOk, Sized, DeadNeverExpires, SizeLimit, Counted, Rest, Flatten, Distinct;
    slots := [];
    var pos, cur := 0, 0;
    ghost var j: nat := 0;
    var more := true;
    RestStart(g.chains);
    while more
      invariant Stands(g.chains, pos, cur, j)
      invariant slots + Rest(g.chains, pos, j) == Flatten(g.chains)
      invariant !more ==> Rest(g.chains, pos, j) == []
      decreases |Rest(g.chains, pos, j)|, more
    {
      ghost var rest := Rest(g.chains, pos, j);
      more, pos, cur, j := NextKey(e, s, pos, cur, g, bits, j);
      if more {
        slots := slots + [cur];
      } else {
        NothingLeft(g.chains, pos, j);
      }
    }
    assert slots == Flatten(g.chains);
    FlattenIsLive(s.items, s.hashtable, g.chains);
  }

  lemma RestStart(chains: seq<seq<nat>>)
    requires chains != []
    ensures Rest(chains, 0, 0) == Flatten(chains)
  {
  }

  lemma {:induction false} FlattenMembers(chains: seq<seq<nat>>)
    ensures forall i: nat :: i in Flatten(chains) <==> exists b :: 0 <= b < |chains| && i in chains[b]
  {
    if chains != [] {
      var rest := chains[1..];
      FlattenMembers(rest);
      assert forall b :: 0 <= b < |rest| ==> rest[b] == chains[b + 1];
      forall i: nat ensures i in Flatten(chains) <==> exists b :: 0 <= b < |chains| && i in chains[b] {
        if b :| 0 <= b < |chains| && i in chains[b] {
          if b > 0 { assert i in rest[b - 1]; }
        }
        if i in Flatten(rest) {
          var b :| 0 <= b < |rest| && i in rest[b];
          assert i in chains[b + 1];
        }
      }
    }
  }

  ghost predicate Disjoint(s: seq<nat>, t: seq<nat>) {
    forall i :: i in t ==> i !in s
  }

  lemma {:induction false} FlattenDistinct(chains: seq<seq<nat>>)
    requires forall b :: 0 <= b < |chains| ==> Distinct(chains[b])
    requires forall b, c :: 0 <= b < c < |chains| ==> Disjoint(chains[b], chains[c])
    ensures Distinct(Flatten(chains))
  {
    if chains != [] {
      var rest := chains[1..];
      assert forall b :: 0 <= b < |rest| ==> rest[b] == chains[b + 1];
      FlattenDistinct(rest);
      FlattenMembers(rest);
      forall i: nat | i in Flatten(rest) ensures i !in chains[0] {
        var b :| 0 <= b < |rest| && i in rest[b];
        assert Disjoint(chains[0], chains[b + 1]);
      }
      JoinDistinct(chains[0], Flatten(rest));
    }
  }

  lemma JoinDistinct(s: seq<nat>, t: seq<nat>)
    requires Distinct(s) && Distinct(t) && forall i :: i in t ==> i !in s
    ensures Distinct(s + t)
  {
    assert forall i :: 0 <= i < |t| ==> t[i] in t;
  }

  lemma FlattenIsLive(it: Items, hashtable: seq<nat>, chains: seq<seq<nat>>)
    requires Shaped(it, |it.keys|) && Chained(it, hashtable, chains)
    ensures Distinct(Flatten(chains)) && forall i: nat :: i in Flatten(chains) <==> IsLive(it.keys, i)
  {
    hide Flatten, Linked, Bucket;
    ChainsDistinct(it, hashtable, chains);
    FlattenMembers(chains);
    forall b, c | 0 <= b < c < |chains| ensures Disjoint(chains[b], chains[c]) {
      ChainsApart(it.keys, it.hashes, chains, b, c);
    }
    FlattenDistinct(chains);
    forall i: nat ensures i in Flatten(chains) <==> IsLive(it.keys, i) {
      if IsLive(it.keys, i) {
        assert i in chains[Bucket(it.hashes[i], |chains|)];
      }
    }
  }

  lemma ChainsDistinct(it: Items, hashtable: seq<nat>, chains: seq<seq<nat>>)
    requires Chained(it, hashtable, chains)
    ensures forall b :: 0 <= b < |chains| ==> Distinct(chains[b])
  {
    hide Members;
  }
}
