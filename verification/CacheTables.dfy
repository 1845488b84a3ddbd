/** The tables a cache keeps in agreement, each as a predicate over the columns it concerns, with one lemma for
    each way an operation changes them. Column entry i belongs to item slot i; slot 0 is never used, and a slot is
    live when its key is nonempty. */
module CacheTables {
  import opened Collections
  import opened Bytes
  import opened CacheSpec
  import opened IndexList
  import BB = BlockBitmap

  ghost predicate IsLive(keys: seq<Key>, i: nat) {
    0 < i < |keys| && keys[i] != []
  }

  // ----- free slots: the stack entries 1..sp

  ghost function FreeSlots(stack: seq<nat>, sp: nat): seq<nat>
    requires sp < |stack|
  {
    stack[1..sp + 1]
  }

  ghost predicate FreeOk(keys: seq<Key>, stack: seq<nat>, sp: nat) {
    && |stack| == |keys| && sp < |stack|
    && Distinct(FreeSlots(stack, sp))
    && forall i: nat :: i in FreeSlots(stack, sp) <==> 0 < i < |keys| && keys[i] == []
  }

  lemma FreePush(keys: seq<Key>, stack: seq<nat>, sp: nat, slot: nat)
    requires FreeOk(keys, stack, sp) && sp + 1 < |stack| && IsLive(keys, slot)
    ensures FreeOk(keys[slot := []], stack[sp + 1 := slot], sp + 1)
  {
    var f := FreeSlots(stack, sp);
    assert FreeSlots(stack[sp + 1 := slot], sp + 1) == f + [slot];
    assert forall i: nat :: i in f + [slot] <==> i in f || i == slot;
  }

  lemma FreePop(keys: seq<Key>, stack: seq<nat>, sp: nat, key: Key)
    requires FreeOk(keys, stack, sp) && sp > 0 && key != []
    ensures 0 < stack[sp] < |keys| && keys[stack[sp]] == []
    ensures FreeOk(keys[stack[sp] := key], stack, sp - 1)
  {
    var f := FreeSlots(stack, sp);
    var g := FreeSlots(stack, sp - 1);
    assert f == g + [stack[sp]];
    assert g == f[..sp - 1] && f[sp - 1] == stack[sp] && stack[sp] in f;
    assert forall i: nat :: i in f <==> i in g || i == stack[sp];
  }

  // ----- the key index

  ghost predicate IndexOk(hash: Key -> nat, keys: seq<Key>, hashes: seq<nat>, slotOf: map<Key, nat>) {
    && |hashes| == |keys|
    && (forall k :: k in slotOf ==> IsLive(keys, slotOf[k]) && keys[slotOf[k]] == k)
    && (forall i: nat :: IsLive(keys, i) ==> keys[i] in slotOf && slotOf[keys[i]] == i && hashes[i] == hash(keys[i]))
  }

  lemma IndexDrop(hash: Key -> nat, keys: seq<Key>, hashes: seq<nat>, slotOf: map<Key, nat>, slot: nat, h: nat)
    requires IndexOk(hash, keys, hashes, slotOf) && IsLive(keys, slot)
    ensures IndexOk(hash, keys[slot := []], hashes[slot := h], slotOf - {keys[slot]})
    ensures |slotOf - {keys[slot]}| == |slotOf| - 1
  {
    assert slotOf.Keys == (slotOf - {keys[slot]}).Keys + {keys[slot]};
  }

  lemma IndexAdd(hash: Key -> nat, keys: seq<Key>, hashes: seq<nat>, slotOf: map<Key, nat>, slot: nat, key: Key)
    requires IndexOk(hash, keys, hashes, slotOf) && key !in slotOf && key != []
    requires 0 < slot < |keys| && keys[slot] == []
    ensures IndexOk(hash, keys[slot := key], hashes[slot := hash(key)], slotOf[key := slot])
    ensures |slotOf[key := slot]| == |slotOf| + 1
  {
    assert slotOf[key := slot].Keys == slotOf.Keys + {key};
  }

  // ----- hash chains

  ghost function Bucket(h: nat, hashsize: nat): (b: nat)
    requires hashsize > 0
    ensures b < hashsize
  {
    h % hashsize
  }

  ghost predicate InBucket(keys: seq<Key>, hashes: seq<nat>, hashsize: nat, i: nat, b: nat)
    requires |hashes| == |keys| && hashsize > 0
  {
    IsLive(keys, i) && Bucket(hashes[i], hashsize) == b
  }

  /** The chain of bucket b holds exactly the live slots whose hash falls in b. */
  ghost predicate Members(keys: seq<Key>, hashes: seq<nat>, chains: seq<seq<nat>>)
    requires |hashes| == |keys| && |chains| > 0
  {
    && (forall b, j :: 0 <= b < |chains| && 0 <= j < |chains[b]| ==> InBucket(keys, hashes, |chains|, chains[b][j], b))
    && (forall i: nat :: IsLive(keys, i) ==> i in chains[Bucket(hashes[i], |chains|)])
  }

  ghost predicate ChainsOk(keys: seq<Key>, hashes: seq<nat>, hashtable: seq<nat>, next: seq<nat>, prev: seq<nat>,
                           chains: seq<seq<nat>>) {
    && |hashes| == |keys| == |next| == |prev| && |chains| == |hashtable| > 0
    && (forall b :: 0 <= b < |chains| ==> hashtable[b] == Head(chains[b]) && Linked(next, prev, chains[b]))
    && Members(keys, hashes, chains)
  }

  /** The position of a live slot in its chain. */
  ghost function Position(order: seq<nat>, slot: nat): (p: nat)
    requires slot in order
    ensures p < |order| && order[p] == slot
  {
    var p: nat :| p < |order| && order[p] == slot;
    p
  }

  lemma Located(keys: seq<Key>, hashes: seq<nat>, hashtable: seq<nat>, next: seq<nat>, prev: seq<nat>,
                chains: seq<seq<nat>>, slot: nat)
    requires ChainsOk(keys, hashes, hashtable, next, prev, chains) && IsLive(keys, slot)
    ensures var b := Bucket(hashes[slot], |hashtable|);
            && slot in chains[b] && Linked(next, prev, chains[b]) && Distinct(chains[b])
            && prev[slot] == PrevOf(chains[b], Position(chains[b], slot))
            && next[slot] == NextOf(chains[b], Position(chains[b], slot))
    ensures prev[slot] < |next| && next[slot] < |prev|
  {
    hide Bucket;
  }

  /** The columns and the table entry after taking `slot` out of its chain. */
  lemma ChainUnlink(keys: seq<Key>, hashes: seq<nat>, hashtable: seq<nat>, next: seq<nat>, prev: seq<nat>,
                    chains: seq<seq<nat>>, slot: nat)
    requires ChainsOk(keys, hashes, hashtable, next, prev, chains) && IsLive(keys, slot)
    ensures prev[slot] < |next| && next[slot] < |prev|
    ensures var b := Bucket(hashes[slot], |hashtable|); var p := prev[slot]; var n := next[slot];
            && slot in chains[b]
            && ChainsOk(keys[slot := []], hashes[slot := 0], if p == 0 then hashtable[b := n] else hashtable,
                     Write(next, p, n)[slot := 0], Write(prev, n, p)[slot := 0],
                     chains[b := Without(chains[b], Position(chains[b], slot))])
  {
    hide Bucket, Without, Write, Linked, Distinct, InTable, Members, PrevOf, NextOf, Head;
    var b := Bucket(hashes[slot], |hashtable|);
    Located(keys, hashes, hashtable, next, prev, chains, slot);
    var order, k := chains[b], Position(chains[b], slot);
    UnlinkThis(next, prev, order, k);
    UnlinkMembers(keys, hashes, chains, slot, b, k);
    WriteLength(next, prev[slot], next[slot]);
    WriteLength(prev, next[slot], prev[slot]);
    var next', prev' := Write(next, prev[slot], next[slot])[slot := 0], Write(prev, next[slot], prev[slot])[slot := 0];
    var hashtable' := if prev[slot] == 0 then hashtable[b := next[slot]] else hashtable;
    var chains' := chains[b := Without(order, k)];
    forall c | 0 <= c < |chains| ensures hashtable'[c] == Head(chains'[c]) && Linked(next', prev', chains'[c]) {
      if c != b {
        assert Linked(next, prev, chains[c]);
        ChainsApart(keys, hashes, chains, b, c);
        UnlinkOther(next, prev, order, k, chains[c]);
      }
    }
  }

  lemma ChainsApart(keys: seq<Key>, hashes: seq<nat>, chains: seq<seq<nat>>, b: nat, c: nat)
    requires |hashes| == |keys| && b < |chains| && c < |chains| && b != c && Members(keys, hashes, chains)
    ensures forall i :: 0 <= i < |chains[c]| ==> chains[c][i] !in chains[b]
  {
    hide Bucket;
    assert forall i :: 0 <= i < |chains[c]| ==> InBucket(keys, hashes, |chains|, chains[c][i], c);
    assert forall j :: 0 <= j < |chains[b]| ==> InBucket(keys, hashes, |chains|, chains[b][j], b);
  }

  lemma UnlinkMembers(keys: seq<Key>, hashes: seq<nat>, chains: seq<seq<nat>>, slot: nat, b: nat, k: nat)
    requires |hashes| == |keys| && |chains| > 0 && Members(keys, hashes, chains) && IsLive(keys, slot)
    requires b < |chains| && k < |chains[b]| && chains[b][k] == slot && Distinct(chains[b])
    ensures Members(keys[slot := []], hashes[slot := 0], chains[b := Without(chains[b], k)])
  {
    hide Bucket, Without;
    WithoutFacts(chains[b], k);
    var keys', hashes', chains' := keys[slot := []], hashes[slot := 0], chains[b := Without(chains[b], k)];
    var n := |chains|;
    assert InBucket(keys, hashes, n, slot, b);
    forall c, j | 0 <= c < n && 0 <= j < |chains'[c]| ensures InBucket(keys', hashes', n, chains'[c][j], c) {
      var i := chains'[c][j];
      assert i in chains'[c];
      assert i in chains[c] && i != slot by {
        if c != b {
          ChainsApart(keys, hashes, chains, b, c);
          assert slot in chains[b];
        }
      }
      var j' :| 0 <= j' < |chains[c]| && chains[c][j'] == i;
    }
    forall i: nat | IsLive(keys', i) ensures i in chains'[Bucket(hashes'[i], n)] {
      assert IsLive(keys, i) && i != slot;
    }
  }

  lemma UnlinkThis(next: seq<nat>, prev: seq<nat>, order: seq<nat>, k: nat)
    requires Linked(next, prev, order) && k < |order|
    ensures PrevOf(order, k) < |next| && NextOf(order, k) < |prev|
    ensures var p, n := PrevOf(order, k), NextOf(order, k);
            && Linked(Write(next, p, n)[order[k] := 0], Write(prev, n, p)[order[k] := 0], Without(order, k))
            && Head(Without(order, k)) == if p == 0 then n else Head(order)
  {
    var p, n := PrevOf(order, k), NextOf(order, k);
    assert p == 0 <==> k == 0;
    WithoutEnds(order, k, |next|);
    WithoutFacts(order, k);
    UnlinkKeeps(next, prev, order, k);
    hide Without, Write, PrevOf, NextOf, Distinct;
    WriteLength(next, p, n);
    WriteLength(prev, n, p);
    ClearOutside(Write(next, p, n), Write(prev, n, p), Without(order, k), order[k]);
  }

  lemma ClearOutside(next: seq<nat>, prev: seq<nat>, order: seq<nat>, slot: nat)
    requires Linked(next, prev, order) && slot < |next| && slot !in order
    ensures Linked(next[slot := 0], prev[slot := 0], order)
  {
    assert forall i :: 0 <= i < |order| ==> order[i] in order && order[i] != slot;
  }

  lemma UnlinkOther(next: seq<nat>, prev: seq<nat>, order: seq<nat>, k: nat, other: seq<nat>)
    requires Linked(next, prev, order) && Linked(next, prev, other) && k < |order|
    requires forall i :: 0 <= i < |other| ==> other[i] !in order
    ensures PrevOf(order, k) < |next| && NextOf(order, k) < |prev|
    ensures var p, n := PrevOf(order, k), NextOf(order, k);
            Linked(Write(next, p, n)[order[k] := 0], Write(prev, n, p)[order[k] := 0], other)
  {
    var p, n := PrevOf(order, k), NextOf(order, k);
    var next', prev' := Write(next, p, n)[order[k] := 0], Write(prev, n, p)[order[k] := 0];
    forall i | 0 <= i < |other| ensures next'[other[i]] == next[other[i]] && prev'[other[i]] == prev[other[i]] {
      assert other[i] != order[k] && (p != 0 ==> other[i] != p) && (n != 0 ==> other[i] != n);
    }
    LinkedFrame(next, prev, next', prev', other);
  }

  /** The columns and the table entry after appending a dead slot to the chain of its hash. */
  lemma ChainAppend(keys: seq<Key>, hashes: seq<nat>, hashtable: seq<nat>, next: seq<nat>, prev: seq<nat>,
                    chains: seq<seq<nat>>, slot: nat, key: Key, h: nat)
    requires ChainsOk(keys, hashes, hashtable, next, prev, chains)
    requires 0 < slot < |keys| && keys[slot] == [] && key != []
    ensures var b := Bucket(h, |hashtable|); var last := Last(chains[b]);
            && last < |next|
            && ChainsOk(keys[slot := key], hashes[slot := h], if last == 0 then hashtable[b := slot] else hashtable,
                        Write(next, last, slot)[slot := 0], prev[slot := last], chains[b := chains[b] + [slot]])
  {
    hide Bucket;
    var b := Bucket(h, |hashtable|);
    var order, last := chains[b], Last(chains[b]);
    assert Linked(next, prev, order);
    DeadNotChained(keys, hashes, chains, slot, b);
    AppendKeeps(next, prev, order, slot);
    var next', prev' := Write(next, last, slot)[slot := 0], prev[slot := last];
    var hashtable' := if last == 0 then hashtable[b := slot] else hashtable;
    var chains' := chains[b := order + [slot]];
    AppendMembers(keys, hashes, chains, slot, b, key, h);
    forall c | 0 <= c < |chains| ensures hashtable'[c] == Head(chains'[c]) && Linked(next', prev', chains'[c]) {
      if c != b {
        assert Linked(next, prev, chains[c]);
        ChainsApart(keys, hashes, chains, b, c);
        DeadNotChained(keys, hashes, chains, slot, c);
        AppendOther(next, prev, order, slot, chains[c]);
      } else {
        assert order != [] ==> order[|order| - 1] != 0;
      }
    }
  }

  lemma AppendMembers(keys: seq<Key>, hashes: seq<nat>, chains: seq<seq<nat>>, slot: nat, b: nat, key: Key, h: nat)
    requires |hashes| == |keys| && |chains| > 0 && Members(keys, hashes, chains)
    requires 0 < slot < |keys| && keys[slot] == [] && key != [] && b == Bucket(h, |chains|)
    ensures Members(keys[slot := key], hashes[slot := h], chains[b := chains[b] + [slot]])
  {
    hide Bucket;
    var keys', hashes', chains' := keys[slot := key], hashes[slot := h], chains[b := chains[b] + [slot]];
    var n := |chains|;
    forall c, j | 0 <= c < n && 0 <= j < |chains'[c]| ensures InBucket(keys', hashes', n, chains'[c][j], c) {
      if c != b || j < |chains[b]| {
        assert InBucket(keys, hashes, n, chains[c][j], c);
      }
    }
    forall i: nat | IsLive(keys', i) ensures i in chains'[Bucket(hashes'[i], n)] {
      if i == slot {
        assert chains'[b][|chains[b]|] == slot;
      } else {
        assert IsLive(keys, i);
      }
    }
  }

  lemma DeadNotChained(keys: seq<Key>, hashes: seq<nat>, chains: seq<seq<nat>>, slot: nat, b: nat)
    requires |hashes| == |keys| && b < |chains| && Members(keys, hashes, chains) && !IsLive(keys, slot)
    ensures slot !in chains[b]
  {
    assert forall j :: 0 <= j < |chains[b]| ==> InBucket(keys, hashes, |chains|, chains[b][j], b);
  }

  lemma AppendOther(next: seq<nat>, prev: seq<nat>, order: seq<nat>, slot: nat, other: seq<nat>)
    requires Linked(next, prev, order) && Linked(next, prev, other) && slot < |next| && slot !in other
    requires forall i :: 0 <= i < |other| ==> other[i] !in order
    ensures Last(order) < |next|
    ensures Linked(Write(next, Last(order), slot)[slot := 0], prev[slot := Last(order)], other)
  {
    var next', prev' := Write(next, Last(order), slot)[slot := 0], prev[slot := Last(order)];
    forall i | 0 <= i < |other| ensures next'[other[i]] == next[other[i]] && prev'[other[i]] == prev[other[i]] {
      assert other[i] in other;
      assert order != [] ==> Last(order) in order;
    }
    LinkedFrame(next, prev, next', prev', other);
  }

  // ----- the recency list

  ghost predicate LruLinks(head: nat, tail: nat, next: seq<nat>, prev: seq<nat>, lru: seq<nat>) {
    head == Head(lru) && tail == Last(lru) && Linked(next, prev, lru)
  }

  ghost predicate AllLive(keys: seq<Key>, lru: seq<nat>) {
    && (forall j :: 0 <= j < |lru| ==> IsLive(keys, lru[j]))
    && (forall i: nat :: IsLive(keys, i) ==> i in lru)
  }

  lemma LruUnlink(head: nat, tail: nat, next: seq<nat>, prev: seq<nat>, lru: seq<nat>, slot: nat)
    requires LruLinks(head, tail, next, prev, lru) && slot in lru
    ensures slot < |next| && prev[slot] < |next| && next[slot] < |prev|
    ensures var p, n := prev[slot], next[slot];
            LruLinks(if p == 0 then n else head, if n == 0 then p else tail, Write(next, p, n), Write(prev, n, p),
                     Without(lru, Position(lru, slot)))
  {
    var k := Position(lru, slot);
    assert prev[slot] == PrevOf(lru, k) && next[slot] == NextOf(lru, k);
    assert PrevOf(lru, k) == 0 <==> k == 0;
    assert NextOf(lru, k) == 0 <==> k + 1 == |lru|;
    hide Without, Write, Linked, Distinct, PrevOf, NextOf, Head, Last;
    UnlinkKeeps(next, prev, lru, k);
    WithoutEnds(lru, k, |next|);
  }

  lemma LruAppend(head: nat, tail: nat, next: seq<nat>, prev: seq<nat>, lru: seq<nat>, slot: nat)
    requires LruLinks(head, tail, next, prev, lru) && 0 < slot < |next| && slot !in lru
    ensures tail < |next|
    ensures LruLinks(if tail == 0 then slot else head, slot, Write(next, tail, slot)[slot := 0], prev[slot := tail],
                     lru + [slot])
  {
    AppendKeeps(next, prev, lru, slot);
    assert lru != [] ==> lru[|lru| - 1] != 0;
  }

  lemma AllLiveDrop(keys: seq<Key>, lru: seq<nat>, slot: nat)
    requires AllLive(keys, lru) && IsLive(keys, slot) && Distinct(lru)
    ensures slot in lru && AllLive(keys[slot := []], Without(lru, Position(lru, slot)))
  {
    var k := Position(lru, slot);
    var w := Without(lru, k);
    WithoutFacts(lru, k);
    hide Without, Distinct;
    forall j | 0 <= j < |w| ensures IsLive(keys[slot := []], w[j]) {
      assert w[j] in w && w[j] in lru;
      var i :| 0 <= i < |lru| && lru[i] == w[j];
      assert IsLive(keys, lru[i]);
    }
    assert forall i: nat :: IsLive(keys[slot := []], i) ==> IsLive(keys, i) && i != slot;
  }

  lemma AllLiveAdd(keys: seq<Key>, lru: seq<nat>, slot: nat, key: Key)
    requires AllLive(keys, lru) && 0 < slot < |keys| && keys[slot] == [] && key != []
    ensures slot !in lru && AllLive(keys[slot := key], lru + [slot])
  {
    var l := lru + [slot];
    assert forall j :: 0 <= j < |lru| ==> IsLive(keys, lru[j]);
    assert l[|lru|] == slot;
    assert forall i: nat :: IsLive(keys[slot := key], i) && i != slot ==> IsLive(keys, i);
    assert forall i: nat :: i in lru ==> i in l;
  }

  lemma AllLiveTouch(keys: seq<Key>, lru: seq<nat>, slot: nat)
    requires AllLive(keys, lru) && IsLive(keys, slot) && Distinct(lru)
    ensures slot in lru && slot !in Without(lru, Position(lru, slot))
    ensures AllLive(keys, Without(lru, Position(lru, slot)) + [slot])
  {
    var w := Without(lru, Position(lru, slot));
    WithoutFacts(lru, Position(lru, slot));
    hide Without, Distinct;
    var l := w + [slot];
    forall j | 0 <= j < |l| ensures IsLive(keys, l[j]) {
      assert j < |w| ==> l[j] in w && l[j] in lru;
    }
    assert l[|w|] == slot;
    assert forall i: nat :: i in lru ==> i in w || i == slot;
    assert forall i: nat :: i in w ==> i in l;
  }

  ghost function KeysOf(lru: seq<nat>, keys: seq<Key>): (r: seq<Key>)
    ensures |r| == |lru|
    ensures forall j :: 0 <= j < |lru| && lru[j] < |keys| ==> r[j] == keys[lru[j]]
  {
    seq(|lru|, j requires 0 <= j < |lru| => if lru[j] < |keys| then keys[lru[j]] else [])
  }

  /** Dropping one key of a duplicate-free order is deleting its position. */
  lemma {:induction false} KeepWithout(s: seq<Key>, p: nat, live: set<Key>)
    requires p < |s| && Distinct(s) && forall i :: 0 <= i < |s| ==> s[i] in live
    ensures Keep(s, live - {s[p]}) == Without(s, p)
  {
    var n := |s| - 1;
    if p == n {
      KeepEvery(s[..n], live - {s[p]});
      assert Without(s, p) == s[..n];
    } else {
      KeepWithout(s[..n], p, live);
      assert Without(s, p) == Without(s[..n], p) + [s[n]];
    }
  }

  // ----- block ranges

  ghost predicate Apart(start: nat, n: nat, start': nat, n': nat) {
    start + n <= start' || start' + n' <= start
  }

  ghost predicate RangesOk(keys: seq<Key>, fb: seq<nat>, vlen: seq<nat>, bs: nat, blocks: nat) {
    && |fb| == |vlen| == |keys| && bs > 0
    && (forall i: nat :: IsLive(keys, i) ==> vlen[i] > 0 && fb[i] + BB.BlocksFor(vlen[i], bs) <= blocks)
    && (forall i: nat, j: nat :: IsLive(keys, i) && IsLive(keys, j) && i != j ==>
          Apart(fb[i], BB.BlocksFor(vlen[i], bs), fb[j], BB.BlocksFor(vlen[j], bs)))
  }

  /** [start, start+n) overlaps no live range but, possibly, that of `slot` itself. */
  ghost predicate Clear(keys: seq<Key>, fb: seq<nat>, vlen: seq<nat>, bs: nat, slot: nat, start: nat, n: nat)
    requires |fb| == |vlen| == |keys| && bs > 0
  {
    forall i: nat :: IsLive(keys, i) && i != slot ==> Apart(start, n, fb[i], BB.BlocksFor(vlen[i], bs))
  }

  lemma RangesPlace(keys: seq<Key>, fb: seq<nat>, vlen: seq<nat>, bs: nat, blocks: nat, slot: nat, key: Key,
                    start: nat, len: nat)
    requires RangesOk(keys, fb, vlen, bs, blocks) && 0 < slot < |keys| && len > 0
    requires start + BB.BlocksFor(len, bs) <= blocks && Clear(keys, fb, vlen, bs, slot, start, BB.BlocksFor(len, bs))
    ensures RangesOk(keys[slot := key], fb[slot := start], vlen[slot := len], bs, blocks)
  {
    hide BB.BlocksFor;
    var keys' := keys[slot := key];
    assert forall i: nat :: IsLive(keys', i) && i != slot ==> IsLive(keys, i);
  }

  /** Without a bitmap, slot i owns block i. */
  ghost predicate Direct(keys: seq<Key>, fb: seq<nat>, vlen: seq<nat>, bs: nat)
    requires |fb| == |vlen| == |keys|
  {
    forall i: nat :: IsLive(keys, i) ==> fb[i] == i && vlen[i] <= bs
  }

  lemma DirectClear(keys: seq<Key>, fb: seq<nat>, vlen: seq<nat>, bs: nat, slot: nat, len: nat)
    requires |fb| == |vlen| == |keys| && bs > 0 && Direct(keys, fb, vlen, bs) && len <= bs
    ensures BB.BlocksFor(len, bs) <= 1
    ensures Clear(keys, fb, vlen, bs, slot, slot, BB.BlocksFor(len, bs))
  {
    BB.BlocksForFits(len, bs, 1);
    forall i: nat | IsLive(keys, i) && i != slot
      ensures Apart(slot, BB.BlocksFor(len, bs), fb[i], BB.BlocksFor(vlen[i], bs))
    {
      BB.BlocksForFits(vlen[i], bs, 1);
    }
  }

  // ----- the bitmap

  ghost predicate Covers(fb: seq<nat>, vlen: seq<nat>, bs: nat, i: nat, b: int)
    requires i < |fb| == |vlen| && bs > 0
  {
    fb[i] <= b < fb[i] + BB.BlocksFor(vlen[i], bs)
  }

  ghost predicate Owned(keys: seq<Key>, fb: seq<nat>, vlen: seq<nat>, bs: nat, b: int)
    requires |fb| == |vlen| == |keys| && bs > 0
  {
    exists i: nat :: IsLive(keys, i) && Covers(fb, vlen, bs, i, b)
  }

  /** The set bits are the padding bits and the blocks of live items, and no others. */
  ghost predicate BitsOk(bits: seq<bool>, keys: seq<Key>, fb: seq<nat>, vlen: seq<nat>, bs: nat, blocks: nat)
    requires |fb| == |vlen| == |keys| && bs > 0
  {
    && blocks <= |bits|
    && forall b :: 0 <= b < |bits| ==> (bits[b] <==> b >= blocks || Owned(keys, fb, vlen, bs, b))
  }

  lemma OwnedBy(keys: seq<Key>, fb: seq<nat>, vlen: seq<nat>, bs: nat, i: nat, b: int)
    requires |fb| == |vlen| == |keys| && bs > 0 && IsLive(keys, i)
    ensures Covers(fb, vlen, bs, i, b) ==> Owned(keys, fb, vlen, bs, b)
  {
  }

  lemma FreeRunClear(bits: seq<bool>, keys: seq<Key>, fb: seq<nat>, vlen: seq<nat>, bs: nat, blocks: nat,
                     slot: nat, start: nat, n: nat)
    requires RangesOk(keys, fb, vlen, bs, blocks) && BitsOk(bits, keys, fb, vlen, bs, blocks)
    requires BB.FreeRun(bits, start, n) && n > 0
    ensures start + n <= blocks && Clear(keys, fb, vlen, bs, slot, start, n)
  {
    hide BB.BlocksFor;
    assert !bits[start + n - 1];
    forall i: nat | IsLive(keys, i) && i != slot ensures Apart(start, n, fb[i], BB.BlocksFor(vlen[i], bs)) {
      BB.BlocksForBounds(vlen[i], bs);
      var b := if start < fb[i] then fb[i] else start;
      OwnedBy(keys, fb, vlen, bs, i, b);
      assert start <= b < start + n ==> !bits[b];
    }
  }

  lemma BitsMark(bits: seq<bool>, bits': seq<bool>, keys: seq<Key>, fb: seq<nat>, vlen: seq<nat>, bs: nat, blocks: nat,
                 slot: nat, key: Key, start: nat, len: nat)
    requires RangesOk(keys, fb, vlen, bs, blocks) && BitsOk(bits, keys, fb, vlen, bs, blocks)
    requires 0 < slot < |keys| && keys[slot] == [] && key != []
    requires BB.RangeWritten(bits, bits', start, start + BB.BlocksFor(len, bs), true)
    ensures BitsOk(bits', keys[slot := key], fb[slot := start], vlen[slot := len], bs, blocks)
  {
    hide BB.BlocksFor;
    var keys', fb', vlen' := keys[slot := key], fb[slot := start], vlen[slot := len];
    forall b | 0 <= b < |bits'| ensures bits'[b] <==> b >= blocks || Owned(keys', fb', vlen', bs, b) {
      OwnedAfterPlace(keys, fb, vlen, bs, slot, key, start, len, b);
    }
  }

  lemma OwnedAfterPlace(keys: seq<Key>, fb: seq<nat>, vlen: seq<nat>, bs: nat, slot: nat, key: Key, start: nat, len: nat, b: int)
    requires |fb| == |vlen| == |keys| && bs > 0
    requires 0 < slot < |keys| && keys[slot] == [] && key != []
    ensures Owned(keys[slot := key], fb[slot := start], vlen[slot := len], bs, b) <==>
            Owned(keys, fb, vlen, bs, b) || start <= b < start + BB.BlocksFor(len, bs)
  {
    hide BB.BlocksFor;
    var keys', fb', vlen' := keys[slot := key], fb[slot := start], vlen[slot := len];
    assert Covers(fb', vlen', bs, slot, b) <==> start <= b < start + BB.BlocksFor(len, bs);
    assert IsLive(keys', slot);
    forall i: nat | i < |keys| && i != slot
      ensures IsLive(keys', i) && Covers(fb', vlen', bs, i, b) <==> IsLive(keys, i) && Covers(fb, vlen, bs, i, b)
    {
    }
    assert !IsLive(keys, slot);
  }

  lemma BitsUnmark(bits: seq<bool>, bits': seq<bool>, keys: seq<Key>, fb: seq<nat>, vlen: seq<nat>, bs: nat, blocks: nat,
                   slot: nat)
    requires RangesOk(keys, fb, vlen, bs, blocks) && BitsOk(bits, keys, fb, vlen, bs, blocks) && IsLive(keys, slot)
    requires BB.RangeWritten(bits, bits', fb[slot], fb[slot] + BB.BlocksFor(vlen[slot], bs), false)
    ensures BitsOk(bits', keys[slot := []], fb, vlen[slot := 0], bs, blocks)
  {
    hide BB.BlocksFor;
    var keys', vlen' := keys[slot := []], vlen[slot := 0];
    forall b | 0 <= b < |bits'| ensures bits'[b] <==> b >= blocks || Owned(keys', fb, vlen', bs, b) {
      OwnedAfterDrop(keys, fb, vlen, bs, blocks, slot, b);
    }
  }

  lemma OwnedAfterDrop(keys: seq<Key>, fb: seq<nat>, vlen: seq<nat>, bs: nat, blocks: nat, slot: nat, b: int)
    requires RangesOk(keys, fb, vlen, bs, blocks) && IsLive(keys, slot)
    ensures Owned(keys[slot := []], fb, vlen[slot := 0], bs, b) <==>
            Owned(keys, fb, vlen, bs, b) && !Covers(fb, vlen, bs, slot, b)
  {
    hide BB.BlocksFor;
    var keys', vlen' := keys[slot := []], vlen[slot := 0];
    forall i: nat | i < |keys| && i != slot
      ensures IsLive(keys', i) && Covers(fb, vlen', bs, i, b) <==> IsLive(keys, i) && Covers(fb, vlen, bs, i, b)
      ensures IsLive(keys, i) && Covers(fb, vlen, bs, i, b) ==> !Covers(fb, vlen, bs, slot, b)
    {
      assert IsLive(keys, i) ==> Apart(fb[i], BB.BlocksFor(vlen[i], bs), fb[slot], BB.BlocksFor(vlen[slot], bs));
    }
    assert !IsLive(keys', slot);
  }

  /** The update path: the new range is marked while the old one is still held, then the old one is released. */
  lemma BitsMove(bits: seq<bool>, bits1: seq<bool>, bits2: seq<bool>, keys: seq<Key>, fb: seq<nat>, vlen: seq<nat>,
                 bs: nat, blocks: nat, slot: nat, start: nat, len: nat)
    requires RangesOk(keys, fb, vlen, bs, blocks) && BitsOk(bits, keys, fb, vlen, bs, blocks) && IsLive(keys, slot)
    requires BB.FreeRun(bits, start, BB.BlocksFor(len, bs))
    requires BB.RangeWritten(bits, bits1, start, start + BB.BlocksFor(len, bs), true)
    requires BB.RangeWritten(bits1, bits2, fb[slot], fb[slot] + BB.BlocksFor(vlen[slot], bs), false)
    ensures BitsOk(bits2, keys, fb[slot := start], vlen[slot := len], bs, blocks)
  {
    hide BB.BlocksFor;
    var fb', vlen' := fb[slot := start], vlen[slot := len];
    var dead := keys[slot := []];
    forall b | 0 <= b < |bits2| ensures bits2[b] <==> b >= blocks || Owned(keys, fb', vlen', bs, b) {
      OwnedAfterDrop(keys, fb, vlen, bs, blocks, slot, b);
      OwnedAfterPlace(dead, fb, vlen[slot := 0], bs, slot, keys[slot], start, len, b);
      assert dead[slot := keys[slot]] == keys && vlen[slot := 0][slot := len] == vlen';
      assert Covers(fb, vlen, bs, slot, b) ==> Owned(keys, fb, vlen, bs, b);
    }
  }

  // ----- values in the data area

  ghost function Offset(fb: nat, bs: nat): nat {
    fb * bs
  }

  ghost function ValueAt(data: seq<byte>, fb: nat, len: nat, bs: nat): seq<byte> {
    if Offset(fb, bs) + len <= |data| then data[Offset(fb, bs)..Offset(fb, bs) + len] else []
  }

  ghost function Splice(data: seq<byte>, off: nat, v: seq<byte>): seq<byte>
    requires off + |v| <= |data|
  {
    data[..off] + v + data[off + |v|..]
  }

  lemma BlocksInData(fb: nat, len: nat, bs: nat, blocks: nat)
    requires bs > 0 && fb + BB.BlocksFor(len, bs) <= blocks
    ensures Offset(fb, bs) + len <= Offset(fb + BB.BlocksFor(len, bs), bs) <= Offset(blocks, bs)
  {
    var n := BB.BlocksFor(len, bs);
    BB.BlocksForBounds(len, bs);
    hide BB.BlocksFor;
    assert (fb + n) * bs == fb * bs + n * bs;
    assert blocks * bs == (fb + n) * bs + (blocks - fb - n) * bs;
    assert (blocks - fb - n) * bs >= 0;
  }

  lemma SpliceHere(data: seq<byte>, fb: nat, v: seq<byte>, bs: nat)
    requires Offset(fb, bs) + |v| <= |data|
    ensures ValueAt(Splice(data, Offset(fb, bs), v), fb, |v|, bs) == v
  {
    hide Offset;
  }

  lemma SpliceElsewhere(data: seq<byte>, fb: nat, v: seq<byte>, fb': nat, len': nat, bs: nat)
    requires bs > 0 && Offset(fb, bs) + |v| <= |data|
    requires Apart(fb, BB.BlocksFor(|v|, bs), fb', BB.BlocksFor(len', bs))
    ensures ValueAt(Splice(data, Offset(fb, bs), v), fb', len', bs) == ValueAt(data, fb', len', bs)
  {
    var n, n' := BB.BlocksFor(|v|, bs), BB.BlocksFor(len', bs);
    if fb + n <= fb' {
      BlocksInData(fb, |v|, bs, fb');
    } else {
      BlocksInData(fb', len', bs, fb);
    }
    hide Offset, BB.BlocksFor;
    if Offset(fb', bs) + len' <= |data| {
      SpliceApart(data, Offset(fb, bs), v, Offset(fb', bs), len');
    }
  }

  lemma SpliceApart(data: seq<byte>, off: nat, v: seq<byte>, off': nat, len': nat)
    requires off + |v| <= |data| && (off + |v| <= off' || off' + len' <= off)
    requires off' + len' <= |data|
    ensures Splice(data, off, v)[off'..off' + len'] == data[off'..off' + len']
  {
  }

  lemma RangesDrop(keys: seq<Key>, fb: seq<nat>, vlen: seq<nat>, bs: nat, blocks: nat, slot: nat)
    requires RangesOk(keys, fb, vlen, bs, blocks) && slot < |keys|
    ensures RangesOk(keys[slot := []], fb, vlen[slot := 0], bs, blocks)
    ensures Direct(keys, fb, vlen, bs) ==> Direct(keys[slot := []], fb, vlen[slot := 0], bs)
  {
    hide BB.BlocksFor;
    forall i: nat | IsLive(keys[slot := []], i) ensures IsLive(keys, i) && i != slot {
    }
  }

  /** The columns a caller sees through the map. */
  datatype Vals = Vals(data: seq<byte>, fb: seq<nat>, vlen: seq<nat>, exp: seq<nat>, hidden: seq<bool>)

  ghost function At<T>(s: seq<T>, i: nat, absent: T): T {
    if i < |s| then s[i] else absent
  }

  ghost function EntryAt(v: Vals, bs: nat, i: nat): Entry {
    Entry(ValueAt(v.data, At(v.fb, i, 0), At(v.vlen, i, 0), bs), At(v.exp, i, 0), !At(v.hidden, i, false))
  }

  ghost function View(slotOf: map<Key, nat>, v: Vals, bs: nat): (m: map<Key, Entry>)
    ensures m.Keys == slotOf.Keys && |m| == |slotOf|
  {
    var m := map k | k in slotOf :: EntryAt(v, bs, slotOf[k]);
    assert m.Keys == slotOf.Keys;
    m
  }

  ghost predicate SameEntries(slotOf: map<Key, nat>, v: Vals, v': Vals, bs: nat) {
    forall k :: k in slotOf ==> EntryAt(v', bs, slotOf[k]) == EntryAt(v, bs, slotOf[k])
  }

  lemma ViewDrop(slotOf: map<Key, nat>, v: Vals, v': Vals, bs: nat, key: Key)
    requires SameEntries(slotOf - {key}, v, v', bs)
    ensures View(slotOf - {key}, v', bs) == View(slotOf, v, bs) - {key}
  {
    hide EntryAt;
  }

  lemma ViewPut(slotOf: map<Key, nat>, v: Vals, v': Vals, bs: nat, key: Key, slot: nat)
    requires SameEntries(slotOf - {key}, v, v', bs)
    ensures View(slotOf[key := slot], v', bs) == View(slotOf, v, bs)[key := EntryAt(v', bs, slot)]
  {
    hide EntryAt;
    assert forall k :: k in slotOf && k != key ==> k in slotOf - {key};
  }

  // ----- recency in terms of keys

  lemma KeysDistinct(hash: Key -> nat, keys: seq<Key>, hashes: seq<nat>, slotOf: map<Key, nat>, lru: seq<nat>)
    requires IndexOk(hash, keys, hashes, slotOf) && InTable(lru, |keys|) && Distinct(lru)
    requires forall j :: 0 <= j < |lru| ==> IsLive(keys, lru[j])
    ensures Distinct(KeysOf(lru, keys))
    ensures forall j :: 0 <= j < |lru| ==> KeysOf(lru, keys)[j] in slotOf.Keys
  {
    var s := KeysOf(lru, keys);
    forall i, j | 0 <= i < j < |s| ensures s[i] != s[j] {
      assert slotOf[keys[lru[i]]] == lru[i] && slotOf[keys[lru[j]]] == lru[j];
    }
  }

  lemma KeysWithout(lru: seq<nat>, keys: seq<Key>, p: nat, keys': seq<Key>)
    requires InTable(lru, |keys|) && p < |lru| && Distinct(lru) && |keys'| == |keys|
    requires forall i :: 0 <= i < |keys| && i != lru[p] ==> keys'[i] == keys[i]
    ensures InTable(Without(lru, p), |keys'|)
    ensures KeysOf(Without(lru, p), keys') == Without(KeysOf(lru, keys), p)
  {
    WithoutEnds(lru, p, |keys|);
    var w := Without(lru, p);
    assert forall j :: 0 <= j < |w| ==> w[j] == if j < p then lru[j] else lru[j + 1];
  }

  /** Taking a slot out of the recency list is dropping its key from the order. */
  lemma RecencyDrop(hash: Key -> nat, keys: seq<Key>, hashes: seq<nat>, slotOf: map<Key, nat>, lru: seq<nat>, slot: nat,
                    keys': seq<Key>)
    requires IndexOk(hash, keys, hashes, slotOf) && InTable(lru, |keys|) && Distinct(lru)
    requires (forall j :: 0 <= j < |lru| ==> IsLive(keys, lru[j])) && slot in lru
    requires |keys'| == |keys| && forall i :: 0 <= i < |keys| && i != slot ==> keys'[i] == keys[i]
    ensures var p := Position(lru, slot);
            && InTable(Without(lru, p), |keys'|)
            && KeysOf(Without(lru, p), keys') == Keep(KeysOf(lru, keys), slotOf.Keys - {keys[slot]})
  {
    var p := Position(lru, slot);
    KeysDistinct(hash, keys, hashes, slotOf, lru);
    KeysWithout(lru, keys, p, keys');
    hide IndexOk, Distinct, Without, Keep;
    KeepWithout(KeysOf(lru, keys), p, slotOf.Keys);
  }

  // ----- writes to the columns of a dead slot

  lemma DeadLinks(keys: seq<Key>, hashes: seq<nat>, hashtable: seq<nat>, next: seq<nat>, prev: seq<nat>,
                  chains: seq<seq<nat>>, slot: nat)
    requires ChainsOk(keys, hashes, hashtable, next, prev, chains) && slot < |keys| && !IsLive(keys, slot)
    ensures ChainsOk(keys, hashes[slot := 0], hashtable, next[slot := 0], prev[slot := 0], chains)
    ensures ChainsOk(keys, hashes, hashtable, next[slot := 0], prev[slot := 0], chains)
  {
    hide Bucket, Linked;
    forall b | 0 <= b < |chains| ensures Linked(next[slot := 0], prev[slot := 0], chains[b]) {
      DeadNotChained(keys, hashes, chains, slot, b);
      ClearOutside(next, prev, chains[b], slot);
    }
    forall b, j | 0 <= b < |chains| && 0 <= j < |chains[b]|
      ensures InBucket(keys, hashes[slot := 0], |chains|, chains[b][j], b)
    {
      assert InBucket(keys, hashes, |chains|, chains[b][j], b);
    }
  }

  lemma DeadBlock(keys: seq<Key>, fb: seq<nat>, vlen: seq<nat>, bs: nat, blocks: nat, slot: nat, start: nat, len: nat)
    requires RangesOk(keys, fb, vlen, bs, blocks) && slot < |keys| && !IsLive(keys, slot)
    ensures RangesOk(keys, fb[slot := start], vlen[slot := len], bs, blocks)
    ensures Direct(keys, fb, vlen, bs) ==> Direct(keys, fb[slot := start], vlen[slot := len], bs)
    ensures forall b :: Owned(keys, fb, vlen, bs, b) <==> Owned(keys, fb[slot := start], vlen[slot := len], bs, b)
  {
    hide BB.BlocksFor;
    var fb', vlen' := fb[slot := start], vlen[slot := len];
    assert forall i: nat :: IsLive(keys, i) ==> i != slot;
    assert forall i: nat, b :: IsLive(keys, i) ==> (Covers(fb, vlen, bs, i, b) <==> Covers(fb', vlen', bs, i, b));
  }

  // ----- the remaining agreements

  ghost predicate Counted(maxItems: nat, nItems: nat, sp: nat, slotOf: map<Key, nat>) {
    nItems == |slotOf| && nItems + sp + 1 == maxItems
  }

  ghost predicate Sized(c: Config, keys: seq<Key>, vlen: seq<nat>) {
    forall i: nat :: IsLive(keys, i) && i < |vlen| ==> |keys[i]| <= c.keysize && vlen[i] <= c.maxItemSize
  }

  ghost predicate DeadNeverExpires(keys: seq<Key>, exp: seq<nat>) {
    forall i: nat :: i < |exp| && !IsLive(keys, i) ==> exp[i] == 0
  }

  ghost predicate RecencyOk(c: Config, keys: seq<Key>, head: nat, tail: nat, next: seq<nat>, prev: seq<nat>, lru: seq<nat>) {
    if c.purgeLru then LruLinks(head, tail, next, prev, lru) && AllLive(keys, lru) else lru == []
  }

  ghost predicate AllocOk(c: Config, bits: seq<bool>, pos: nat, keys: seq<Key>, fb: seq<nat>, vlen: seq<nat>, bs: nat,
                          blocks: nat) {
    && RangesOk(keys, fb, vlen, bs, blocks)
    && if c.bitmap then BitsOk(bits, keys, fb, vlen, bs, blocks) && pos < blocks else Direct(keys, fb, vlen, bs)
  }

  lemma OneIsIndexed(hash: Key -> nat, keys: seq<Key>, hashes: seq<nat>, slotOf: map<Key, nat>, slot: nat)
    requires IndexOk(hash, keys, hashes, slotOf) && IsLive(keys, slot)
    ensures keys[slot] in slotOf && slotOf[keys[slot]] == slot && |slotOf| > 0
  {
    assert slotOf.Keys != {};
  }

  lemma OthersElsewhere(hash: Key -> nat, keys: seq<Key>, hashes: seq<nat>, slotOf: map<Key, nat>, slot: nat)
    requires IndexOk(hash, keys, hashes, slotOf) && slot < |keys|
    ensures forall k :: k in slotOf - {keys[slot]} ==> slotOf[k] != slot
  {
  }

  lemma AllocDrop(c: Config, bits: seq<bool>, bits': seq<bool>, pos: nat, keys: seq<Key>, fb: seq<nat>, vlen: seq<nat>,
                  bs: nat, blocks: nat, slot: nat)
    requires AllocOk(c, bits, pos, keys, fb, vlen, bs, blocks) && IsLive(keys, slot)
    requires c.bitmap ==> BB.RangeWritten(bits, bits', fb[slot], fb[slot] + BB.BlocksFor(vlen[slot], bs), false)
    ensures AllocOk(c, bits', pos, keys[slot := []], fb, vlen[slot := 0], bs, blocks)
  {
    hide RangesOk, BitsOk, Direct, BB.RangeWritten, BB.BlocksFor;
    RangesShape(keys, fb, vlen, bs, blocks);
    RangesDrop(keys, fb, vlen, bs, blocks, slot);
    if c.bitmap {
      BitsUnmark(bits, bits', keys, fb, vlen, bs, blocks, slot);
    }
  }

  lemma RangesShape(keys: seq<Key>, fb: seq<nat>, vlen: seq<nat>, bs: nat, blocks: nat)
    requires RangesOk(keys, fb, vlen, bs, blocks)
    ensures |fb| == |vlen| == |keys| && bs > 0
  {
  }

  lemma RangeOf(c: Config, bits: seq<bool>, pos: nat, keys: seq<Key>, fb: seq<nat>, vlen: seq<nat>, bs: nat, blocks: nat,
                slot: nat)
    requires AllocOk(c, bits, pos, keys, fb, vlen, bs, blocks) && IsLive(keys, slot)
    ensures slot < |fb| == |vlen| && bs > 0 && vlen[slot] > 0 && fb[slot] + BB.BlocksFor(vlen[slot], bs) <= blocks
  {
    hide BitsOk, Direct, BB.BlocksFor;
  }

  /** Where a value may be put: a free run of the bitmap, now marked, or the slot's own block. */
  ghost predicate Placed(c: Config, bits: seq<bool>, bits': seq<bool>, pos': nat, slot: nat, start: nat, len: nat, bs: nat,
                         blocks: nat) {
    && bs > 0
    && if c.bitmap then
         && BB.FreeRun(bits, start, BB.BlocksFor(len, bs)) && pos' < blocks
         && BB.RangeWritten(bits, bits', start, start + BB.BlocksFor(len, bs), true)
       else start == slot && len <= bs && slot < blocks
  }

  lemma PlacedClear(c: Config, bits: seq<bool>, bits': seq<bool>, pos: nat, pos': nat, keys: seq<Key>, fb: seq<nat>,
                    vlen: seq<nat>, bs: nat, blocks: nat, slot: nat, start: nat, len: nat)
    requires AllocOk(c, bits, pos, keys, fb, vlen, bs, blocks) && len > 0
    requires Placed(c, bits, bits', pos', slot, start, len, bs, blocks)
    ensures |fb| == |vlen| == |keys|
    ensures start + BB.BlocksFor(len, bs) <= blocks && Clear(keys, fb, vlen, bs, slot, start, BB.BlocksFor(len, bs))
  {
    BB.BlocksForBounds(len, bs);
    hide BB.BlocksFor, BB.RangeWritten, BB.FreeRun, BitsOk, Clear;
    RangesShape(keys, fb, vlen, bs, blocks);
    hide RangesOk;
    if c.bitmap {
      FreeRunClear(bits, keys, fb, vlen, bs, blocks, slot, start, BB.BlocksFor(len, bs));
    } else {
      DirectClear(keys, fb, vlen, bs, slot, len);
    }
  }

  lemma AllocAdd(c: Config, bits: seq<bool>, bits': seq<bool>, pos: nat, pos': nat, keys: seq<Key>, fb: seq<nat>,
                 vlen: seq<nat>, bs: nat, blocks: nat, slot: nat, key: Key, start: nat, len: nat)
    requires AllocOk(c, bits, pos, keys, fb, vlen, bs, blocks) && len > 0
    requires 0 < slot < |keys| && keys[slot] == [] && key != []
    requires Placed(c, bits, bits', pos', slot, start, len, bs, blocks)
    ensures |fb| == |vlen| == |keys|
    ensures AllocOk(c, bits', pos', keys[slot := key], fb[slot := start], vlen[slot := len], bs, blocks)
  {
    PlacedClear(c, bits, bits', pos, pos', keys, fb, vlen, bs, blocks, slot, start, len);
    hide BB.BlocksFor, BB.RangeWritten, BB.FreeRun, BitsOk, Clear, RangesOk;
    RangesPlace(keys, fb, vlen, bs, blocks, slot, key, start, len);
    if c.bitmap {
      BitsMark(bits, bits', keys, fb, vlen, bs, blocks, slot, key, start, len);
    } else {
      assert forall i: nat :: IsLive(keys[slot := key], i) && i != slot ==> IsLive(keys, i);
    }
  }

  lemma AllocMove(c: Config, bits: seq<bool>, bits1: seq<bool>, bits2: seq<bool>, pos: nat, pos': nat, keys: seq<Key>,
                  fb: seq<nat>, vlen: seq<nat>, bs: nat, blocks: nat, slot: nat, start: nat, len: nat)
    requires AllocOk(c, bits, pos, keys, fb, vlen, bs, blocks) && IsLive(keys, slot) && len > 0
    requires Placed(c, bits, bits1, pos', slot, start, len, bs, blocks)
    requires |fb| == |vlen| == |keys|
    requires c.bitmap ==> BB.RangeWritten(bits1, bits2, fb[slot], fb[slot] + BB.BlocksFor(vlen[slot], bs), false)
    ensures AllocOk(c, bits2, pos', keys, fb[slot := start], vlen[slot := len], bs, blocks)
  {
    PlacedClear(c, bits, bits1, pos, pos', keys, fb, vlen, bs, blocks, slot, start, len);
    hide BB.BlocksFor, BB.RangeWritten, BB.FreeRun, BitsOk, Clear, RangesOk;
    RangesPlace(keys, fb, vlen, bs, blocks, slot, keys[slot], start, len);
    assert keys[slot := keys[slot]] == keys;
    if c.bitmap {
      BitsMove(bits, bits1, bits2, keys, fb, vlen, bs, blocks, slot, start, len);
    }
  }

  /** Writing a value into its own range leaves every other entry's bytes alone. */
  lemma OthersKeepBytes(keys: seq<Key>, fb: seq<nat>, vlen: seq<nat>, bs: nat, slot: nat, start: nat, v: seq<byte>,
                        data: seq<byte>, i: nat)
    requires |fb| == |vlen| == |keys| && bs > 0 && Offset(start, bs) + |v| <= |data|
    requires Clear(keys, fb, vlen, bs, slot, start, BB.BlocksFor(|v|, bs)) && IsLive(keys, i) && i != slot
    ensures ValueAt(Splice(data, Offset(start, bs), v), fb[i], vlen[i], bs) == ValueAt(data, fb[i], vlen[i], bs)
  {
    hide BB.BlocksFor, Offset, ValueAt;
    SpliceElsewhere(data, start, v, fb[i], vlen[i], bs);
  }
}
