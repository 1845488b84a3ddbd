/** The tables of one cache as a value, the invariant that they agree, and the steps that change them. The item
    headers are kept column by column; a `Reading` is the ghost view of the hash chains, the recency list and the key
    index that the columns encode. */
module CacheState {
  import opened Collections
  import opened Bytes
  import opened CacheSpec
  import opened CacheTables
  import opened IndexList
  import BB = BlockBitmap

  // ----- the recency list, as the list operations leave it

  datatype Recency = Recency(head: nat, tail: nat, next: seq<nat>, prev: seq<nat>)

  ghost predicate LruOk(r: Recency, lru: seq<nat>) {
    LruLinks(r.head, r.tail, r.next, r.prev, lru)
  }

  method LruRemove(r: Recency, index: nat, ghost lru: seq<nat>) returns (r': Recency, ghost lru': seq<nat>)
    requires LruOk(r, lru) && index in lru && |r.prev| == |r.next|
    ensures LruOk(r', lru') && |r'.next| == |r'.prev| == |r.next|
    ensures lru' == Without(lru, Position(lru, index))
  {
    hide LruLinks, Linked, Without, Distinct;
    LruUnlink(r.head, r.tail, r.next, r.prev, lru, index);
    r' := r;
    lru' := Without(lru, Position(lru, index));
    var p, n := r.prev[index], r.next[index];
    if n != 0 {
      r' := r'.(prev := r'.prev[n := p]);
    } else {
      r' := r'.(tail := p);
    }
    if p != 0 {
      r' := r'.(next := r'.next[p := n]);
    } else {
      r' := r'.(head := n);
    }
  }

  method LruAdd(r: Recency, index: nat, ghost lru: seq<nat>) returns (r': Recency, ghost lru': seq<nat>)
    requires |r.prev| == |r.next| && LruOk(r, lru) && 0 < index < |r.next| && index !in lru
    ensures LruOk(r', lru') && |r'.next| == |r'.prev| == |r.next|
    ensures lru' == lru + [index]
  {
    hide LruLinks, Linked, Distinct;
    LruAppend(r.head, r.tail, r.next, r.prev, lru, index);
    r' := r;
    lru' := lru + [index];
    if r.tail != 0 {
      r' := r'.(next := r'.next[r.tail := index]);
    } else {
      r' := r'.(head := index);
    }
    r' := r'.(next := r'.next[index := 0], prev := r'.prev[index := r.tail], tail := index);
  }

  // ----- item headers and hash chains

  datatype Items = Items(
    keys: seq<Key>, hashes: seq<nat>, valsize: seq<nat>, firstBlock: seq<nat>, expires: seq<nat>,
    ungettable: seq<bool>, prev: seq<nat>, next: seq<nat>)

  predicate Shaped(it: Items, n: nat) {
    && |it.keys| == |it.hashes| == |it.valsize| == |it.firstBlock| == |it.expires| == |it.ungettable| == n
    && |it.prev| == |it.next| == n
  }

  ghost predicate Chained(it: Items, hashtable: seq<nat>, chains: seq<seq<nat>>) {
    ChainsOk(it.keys, it.hashes, hashtable, it.next, it.prev, chains)
  }

  /** Deletion of an item header: its chain is joined around it and its fields are cleared. */
  method ClearItem(it: Items, hashtable: seq<nat>, index: nat, ghost chains: seq<seq<nat>>)
    returns (it': Items, hashtable': seq<nat>, ghost chains': seq<seq<nat>>)
    requires Shaped(it, |it.keys|) && |hashtable| == |chains| > 0 && 0 < index < |it.keys| && it.keys[index] != []
    requires Chained(it, hashtable, chains)
    ensures Shaped(it', |it.keys|) && |hashtable'| == |chains'| == |hashtable|
    ensures Chained(it', hashtable', chains')
    ensures it' == it.(keys := it.keys[index := []], valsize := it.valsize[index := 0], hashes := it.hashes[index := 0],
                       expires := it.expires[index := 0], prev := it'.prev, next := it'.next)
  {
    hide ChainsOk, Without, Members, Linked, Distinct;
    ChainUnlink(it.keys, it.hashes, hashtable, it.next, it.prev, chains, index);
    ghost var b := Bucket(it.hashes[index], |hashtable|);
    chains' := chains[b := Without(chains[b], Position(chains[b], index))];
    it', hashtable' := it, hashtable;
    var p, n := it.prev[index], it.next[index];
    if p != 0 {
      it' := it'.(next := it'.next[p := n]);
    } else {
      // n is the new entry point, possibly 0
      hashtable' := hashtable'[it.hashes[index] % |hashtable| := n];
    }
    if n != 0 {
      it' := it'.(prev := it'.prev[n := p]);
    }
    if p == 0 && n == 0 {
      hashtable' := hashtable'[it.hashes[index] % |hashtable| := 0];
      assert hashtable' == hashtable[b := n];
    }
    it' := it'.(keys := it'.keys[index := []], valsize := it'.valsize[index := 0], hashes := it'.hashes[index := 0],
                prev := it'.prev[index := 0], next := it'.next[index := 0], expires := it'.expires[index := 0]);
  }

  // ----- the state of a cache

  /** The fixed part: options, hash function, table sizes. */
  datatype Env = Env(c: Config, hash: Key -> nat, hashsize: nat, blocksize: nat, blocks: nat)

  /** The fields that operations change. The bitmap bytes and the data area are arrays beside it. */
  datatype State = State(
    items: Items, hashtable: seq<nat>, stack: seq<nat>, sp: nat, nItems: nat, nextScan: nat,
    recency: Recency, bitmapPos: nat)

  /** The lists and the index that the tables encode. */
  datatype Reading = Reading(chains: seq<seq<nat>>, lru: seq<nat>, slotOf: map<Key, nat>)

  ghost predicate Setup(e: Env) {
    e.c.maxItems > 0 && e.hashsize > 0 && e.blocksize > 0 && e.blocks >= e.c.maxItems && SizeLimit(e)
  }

  ghost predicate SizeLimit(e: Env) {
    e.c.maxItemSize == if e.c.bitmap then e.blocksize * e.blocks else e.blocksize
  }

  ghost predicate StateShaped(e: Env, s: State, g: Reading) {
    && Shaped(s.items, e.c.maxItems)
    && |s.recency.next| == |s.recency.prev| == |s.stack| == e.c.maxItems
    && |s.hashtable| == |g.chains| == e.hashsize > 0 && s.sp < e.c.maxItems
  }

  /** All tables agree. */
  ghost predicate Inv(e: Env, s: State, g: Reading, bits: seq<bool>) {
    && Setup(e) && StateShaped(e, s, g)
    && FreeOk(s.items.keys, s.stack, s.sp)
    && IndexOk(e.hash, s.items.keys, s.items.hashes, g.slotOf)
    && Counted(e.c.maxItems, s.nItems, s.sp, g.slotOf)
    && Chained(s.items, s.hashtable, g.chains)
    && Recent(e.c, s.items.keys, s.recency, g.lru)
    && AllocOk(e.c, bits, s.bitmapPos, s.items.keys, s.items.firstBlock, s.items.valsize, e.blocksize, e.blocks)
    && Sized(e.c, s.items.keys, s.items.valsize)
    && DeadNeverExpires(s.items.keys, s.items.expires)
  }

  ghost predicate Recent(c: Config, keys: seq<Key>, r: Recency, lru: seq<nat>) {
    RecencyOk(c, keys, r.head, r.tail, r.next, r.prev, lru)
  }

  ghost function Values(it: Items, data: seq<byte>): Vals {
    Vals(data, it.firstBlock, it.valsize, it.expires, it.ungettable)
  }

  /** What the cache means to its callers. */
  ghost function Abs(e: Env, s: State, g: Reading, data: seq<byte>): Cache {
    Cache(View(g.slotOf, Values(s.items, data), e.blocksize), KeysOf(g.lru, s.items.keys), s.nextScan)
  }

  /** The values of these keys lie where they lay. */
  ghost predicate SamePlaces(it: Items, it': Items, slots: map<Key, nat>) {
    forall k :: k in slots ==>
      && At(it'.firstBlock, slots[k], 0) == At(it.firstBlock, slots[k], 0)
      && At(it'.valsize, slots[k], 0) == At(it.valsize, slots[k], 0)
  }

  lemma PlacesKept(it: Items, it': Items, slots: map<Key, nat>, index: nat)
    requires index < |it.firstBlock| == |it.valsize| == |it'.firstBlock| == |it'.valsize|
    requires it'.firstBlock == it.firstBlock[index := it'.firstBlock[index]]
    requires it'.valsize == it.valsize[index := it'.valsize[index]]
    requires forall k :: k in slots ==> slots[k] != index
    ensures SamePlaces(it, it', slots)
  {
  }

  lemma OtherPlaces(hash: Key -> nat, it: Items, it': Items, slotOf: map<Key, nat>, index: nat)
    requires IndexOk(hash, it.keys, it.hashes, slotOf) && index < |it.keys|
    requires index < |it.firstBlock| == |it.valsize| == |it'.firstBlock| == |it'.valsize|
    requires it'.firstBlock == it.firstBlock[index := it'.firstBlock[index]]
    requires it'.valsize == it.valsize[index := it'.valsize[index]]
    ensures SamePlaces(it, it', slotOf - {it.keys[index]})
  {
    OthersElsewhere(hash, it.keys, it.hashes, slotOf, index);
    PlacesKept(it, it', slotOf - {it.keys[index]}, index);
  }

  lemma DeadElsewhere(hash: Key -> nat, keys: seq<Key>, hashes: seq<nat>, slotOf: map<Key, nat>, slot: nat)
    requires IndexOk(hash, keys, hashes, slotOf) && !IsLive(keys, slot)
    ensures forall k :: k in slotOf ==> slotOf[k] != slot
  {
  }

  // ----- deletion

  /** Deletes the item of a slot in use, whose blocks `bits'` no longer marks. */
  method DelItem(e: Env, s: State, index: nat, ghost g: Reading, ghost bits: seq<bool>, ghost bits': seq<bool>,
                 ghost data: seq<byte>)
    returns (s': State, ghost g': Reading)
    requires Inv(e, s, g, bits) && IsLive(s.items.keys, index)
    requires e.c.bitmap ==>
               BB.RangeWritten(bits, bits', s.items.firstBlock[index],
                               s.items.firstBlock[index] + BB.BlocksFor(s.items.valsize[index], e.blocksize), false)
    ensures Inv(e, s', g', bits')
    ensures s'.sp == s.sp + 1 && s'.nItems + 1 == s.nItems && g'.slotOf == g.slotOf - {s.items.keys[index]}
    ensures SamePlaces(s.items, s'.items, g'.slotOf) && s'.bitmapPos == s.bitmapPos
    ensures Abs(e, s', g', data) == Remove(Abs(e, s, g, data), {s.items.keys[index]})
  {
    hide FreeOk, IndexOk, Chained, RecencyOk, AllocOk, Sized, DeadNeverExpires, LruOk, BB.RangeWritten;
    hide Keep, View, KeysOf, BB.BlocksFor, Without, Abs, Remove, SizeLimit, SamePlaces;
    var it, key := s.items, s.items.keys[index];
    OneIsIndexed(e.hash, it.keys, it.hashes, g.slotOf, index);
    AllocDrop(e.c, bits, bits', s.bitmapPos, it.keys, it.firstBlock, it.valsize, e.blocksize, e.blocks, index);
    FreePush(it.keys, s.stack, s.sp, index);
    IndexDrop(e.hash, it.keys, it.hashes, g.slotOf, index, 0);
    SizedDrop(e.c, it.keys, it.valsize, it.expires, index);
    // put the slot back on the unused stack
    s' := s.(sp := s.sp + 1, stack := s.stack[s.sp + 1 := index], nItems := s.nItems - 1);
    var it', hashtable';
    ghost var chains', lru';
    it', hashtable', chains' := ClearItem(it, s.hashtable, index, g.chains);
    var recency := s.recency;
    lru' := g.lru;
    if e.c.purgeLru {
      LruLive(e.c, it.keys, recency, g.lru, index);
      recency, lru' := LruRemove(recency, index, g.lru);
    }
    RecencyDropped(e.c, e.hash, it.keys, it.hashes, g.slotOf, s.recency, g.lru, recency, lru', index);
    s' := s'.(items := it', hashtable := hashtable', recency := recency);
    g' := Reading(chains', lru', g.slotOf - {key});
    OtherPlaces(e.hash, it, it', g.slotOf, index);
    DelAbs(e, s, g, s', g', index, data);
  }

  lemma DelAbs(e: Env, s: State, g: Reading, s': State, g': Reading, index: nat, data: seq<byte>)
    requires Shaped(s.items, |s.items.keys|) && index < |s.items.keys|
    requires IndexOk(e.hash, s.items.keys, s.items.hashes, g.slotOf)
    requires var it, it' := s.items, s'.items;
             && it'.firstBlock == it.firstBlock && it'.ungettable == it.ungettable && it'.keys == it.keys[index := []]
             && it'.valsize == it.valsize[index := 0] && it'.expires == it.expires[index := 0]
    requires g'.slotOf == g.slotOf - {s.items.keys[index]} && s'.nextScan == s.nextScan
    requires KeysOf(g'.lru, s'.items.keys) == Keep(KeysOf(g.lru, s.items.keys), g.slotOf.Keys - {s.items.keys[index]})
    ensures Abs(e, s', g', data) == Remove(Abs(e, s, g, data), {s.items.keys[index]})
  {
    hide Keep, KeysOf, IndexOk, EntryAt;
    var it, it', key := s.items, s'.items, s.items.keys[index];
    EntriesKept(e, it, it', g.slotOf, data, index);
    ViewDrop(g.slotOf, Values(it, data), Values(it', data), e.blocksize, key);
    assert (View(g.slotOf, Values(it, data), e.blocksize) - {key}).Keys == g.slotOf.Keys - {key};
  }

  lemma EntriesKept(e: Env, it: Items, it': Items, slotOf: map<Key, nat>, data: seq<byte>, index: nat)
    requires Shaped(it, |it.keys|) && IndexOk(e.hash, it.keys, it.hashes, slotOf) && index < |it.keys|
    requires it'.firstBlock == it.firstBlock && it'.ungettable == it.ungettable
    requires it'.valsize == it.valsize[index := 0] && it'.expires == it.expires[index := 0]
    ensures SameEntries(slotOf - {it.keys[index]}, Values(it, data), Values(it', data), e.blocksize)
  {
    OthersElsewhere(e.hash, it.keys, it.hashes, slotOf, index);
    hide IndexOk, ValueAt;
  }

  lemma RecencyDropped(c: Config, hash: Key -> nat, keys: seq<Key>, hashes: seq<nat>, slotOf: map<Key, nat>,
                       r: Recency, lru: seq<nat>, r': Recency, lru': seq<nat>, slot: nat)
    requires Recent(c, keys, r, lru) && IndexOk(hash, keys, hashes, slotOf) && IsLive(keys, slot)
    requires |r.next| == |keys|
    requires c.purgeLru ==> slot in lru && LruOk(r', lru') && lru' == Without(lru, Position(lru, slot))
    requires !c.purgeLru ==> lru' == lru
    ensures Recent(c, keys[slot := []], r', lru')
    ensures KeysOf(lru', keys[slot := []]) == Keep(KeysOf(lru, keys), slotOf.Keys - {keys[slot]})
  {
    if c.purgeLru {
      assert Distinct(lru) && InTable(lru, |keys|) by { hide IndexOk, AllLive; }
      assert forall j :: 0 <= j < |lru| ==> IsLive(keys, lru[j]) by { hide IndexOk, LruLinks; }
      hide IndexOk, Without, LruLinks, Distinct, Keep, AllLive;
      AllLiveDrop(keys, lru, slot);
      RecencyDrop(hash, keys, hashes, slotOf, lru, slot, keys[slot := []]);
    } else {
      hide IndexOk;
      assert KeysOf(lru', keys[slot := []]) == [] == KeysOf(lru, keys);
    }
  }

  lemma LruLive(c: Config, keys: seq<Key>, r: Recency, lru: seq<nat>, index: nat)
    requires Recent(c, keys, r, lru) && c.purgeLru && IsLive(keys, index)
    ensures LruOk(r, lru) && index in lru
  {
    hide LruLinks;
  }

  lemma SizedDrop(c: Config, keys: seq<Key>, vlen: seq<nat>, exp: seq<nat>, index: nat)
    requires Sized(c, keys, vlen) && DeadNeverExpires(keys, exp) && index < |keys| == |vlen| == |exp|
    ensures Sized(c, keys[index := []], vlen[index := 0]) && DeadNeverExpires(keys[index := []], exp[index := 0])
  {
    assert forall i: nat :: i != index ==> (IsLive(keys[index := []], i) <==> IsLive(keys, i));
  }

  // ----- lookup

  lemma IndexedInChain(hash: Key -> nat, it: Items, hashtable: seq<nat>, chains: seq<seq<nat>>, slotOf: map<Key, nat>, key: Key)
    requires Shaped(it, |it.keys|) && IndexOk(hash, it.keys, it.hashes, slotOf) && Chained(it, hashtable, chains)
    ensures key in slotOf ==>
              At(it.keys, slotOf[key], []) == key && slotOf[key] in chains[Bucket(hash(key), |hashtable|)]
  {
    hide Linked, Bucket;
  }

  lemma ChainNode(it: Items, hashtable: seq<nat>, chains: seq<seq<nat>>, b: nat, j: nat)
    requires Shaped(it, |it.keys|) && Chained(it, hashtable, chains) && b < |chains| && j < |chains[b]|
    ensures IsLive(it.keys, chains[b][j]) && it.next[chains[b][j]] == NextOf(chains[b], j)
    ensures chains[b][j] > 0 && |chains[b]| < |it.keys|
    ensures Bucket(it.hashes[chains[b][j]], |chains|) == b
  {
    hide Bucket;
    assert InBucket(it.keys, it.hashes, |chains|, chains[b][j], b);
    assert Linked(it.next, it.prev, chains[b]);
    DistinctBound(chains[b], |it.keys|);
  }

  lemma ChainHead(it: Items, hashtable: seq<nat>, chains: seq<seq<nat>>, b: nat)
    requires Chained(it, hashtable, chains) && b < |chains|
    ensures |hashtable| == |chains| && hashtable[b] == Head(chains[b])
  {
    hide Bucket, Linked;
  }

  predicate Matches(it: Items, slot: nat, h: nat, key: Key)
    requires Shaped(it, |it.keys|) && slot < |it.keys|
  {
    it.hashes[slot] == h && |it.keys[slot]| == |key| && it.keys[slot] == key
  }

  lemma MatchIsIndexed(e: Env, s: State, g: Reading, bits: seq<bool>, slot: nat, key: Key)
    requires Inv(e, s, g, bits) && IsLive(s.items.keys, slot)
    ensures Matches(s.items, slot, e.hash(key), key) <==> s.items.keys[slot] == key
    ensures s.items.keys[slot] == key ==> key in g.slotOf && g.slotOf[key] == slot
  {
    hide FreeOk, Chained, Recent, AllocOk, Sized, DeadNeverExpires, Counted, SizeLimit;
  }

  /** The chain walk of a lookup. The round counter never reaches the loop alarm. */
  method FindSlot(e: Env, s: State, key: Key, ghost g: Reading, ghost bits: seq<bool>) returns (slot: nat)
    requires Inv(e, s, g, bits)
    ensures if key in g.slotOf then slot == g.slotOf[key] && IsLive(s.items.keys, slot) else slot == 0
  {
    hide FreeOk, IndexOk, Chained, Recent, AllocOk, Sized, DeadNeverExpires, Counted, SizeLimit, Matches;
    var h := e.hash(key);
    var hashKey := h % e.hashsize;
    ghost var chain := g.chains[hashKey];
    assert hashKey == Bucket(h, e.hashsize);
    hide Bucket;
    ChainHead(s.items, s.hashtable, g.chains, hashKey);
    slot := s.hashtable[hashKey];
    if slot == 0 {
      if chain != [] { ChainNode(s.items, s.hashtable, g.chains, hashKey, 0); }
      IndexedInChain(e.hash, s.items, s.hashtable, g.chains, g.slotOf, key);
      return 0;
    }
    ChainNode(s.items, s.hashtable, g.chains, hashKey, 0);
    MatchIsIndexed(e, s, g, bits, slot, key);
    if Matches(s.items, slot, h, key) {
      return;
    }
    var rounds := 0;
    while s.items.next[slot] != 0
      invariant rounds < |chain| && slot == chain[rounds] && 0 < slot < |s.items.keys|
      invariant s.items.next[slot] == NextOf(chain, rounds)
      invariant forall j :: 0 <= j <= rounds ==> At(s.items.keys, chain[j], []) != key
      decreases |chain| - rounds
    {
      slot := s.items.next[slot];
      rounds := rounds + 1;
      ChainNode(s.items, s.hashtable, g.chains, hashKey, rounds);
      if rounds > e.c.maxItems {
        assert false;  // the cache-loop alarm
      }
      MatchIsIndexed(e, s, g, bits, slot, key);
      if Matches(s.items, slot, h, key) {
        return;
      }
    }
    AtEnd(s.items, s.hashtable, g.chains, hashKey, rounds);
    IndexedInChain(e.hash, s.items, s.hashtable, g.chains, g.slotOf, key);
    return 0;
  }

  lemma AtEnd(it: Items, hashtable: seq<nat>, chains: seq<seq<nat>>, b: nat, j: nat)
    requires Shaped(it, |it.keys|) && Chained(it, hashtable, chains) && b < |chains| && j < |chains[b]|
    ensures NextOf(chains[b], j) == 0 <==> j + 1 == |chains[b]|
  {
    if j + 1 < |chains[b]| {
      ChainNode(it, hashtable, chains, b, j + 1);
    }
  }

  // ----- insertion

  /** Links a new header at the end of its chain. */
  method AppendItem(it: Items, hashtable: seq<nat>, index: nat, key: Key, h: nat, ghost chains: seq<seq<nat>>)
    returns (it': Items, hashtable': seq<nat>, ghost chains': seq<seq<nat>>)
    requires Shaped(it, |it.keys|) && |hashtable| == |chains| > 0 && 0 < index < |it.keys| && it.keys[index] == []
    requires key != [] && Chained(it, hashtable, chains)
    ensures Shaped(it', |it.keys|) && |hashtable'| == |chains'| == |hashtable|
    ensures Chained(it', hashtable', chains')
    ensures it' == it.(keys := it.keys[index := key], hashes := it.hashes[index := h], prev := it'.prev, next := it'.next)
  {
    hide ChainsOk, Linked, Distinct;
    var slot := h % |hashtable|;
    ghost var chain := chains[slot];
    ChainHead(it, hashtable, chains, slot);
    ChainAppend(it.keys, it.hashes, hashtable, it.next, it.prev, chains, index, key, h);
    assert slot == Bucket(h, |hashtable|);
    hide Bucket;
    it' := it.(keys := it.keys[index := key], hashes := it.hashes[index := h],
               prev := it.prev[index := 0], next := it.next[index := 0]);
    hashtable' := hashtable;
    chains' := chains[slot := chain + [index]];
    var last := hashtable[slot];
    if chain != [] { ChainNode(it, hashtable, chains, slot, 0); }
    if last == 0 {
      hashtable' := hashtable'[slot := index];
      assert it'.prev == it.prev[index := Last(chain)];
    } else {
      ghost var j := 0;
      while it'.next[last] != 0
        invariant j < |chain| && last == chain[j] && 0 < last < |it.keys| && last != index
        invariant it'.next[last] == NextOf(chain, j)
        decreases |chain| - j
      {
        last := it'.next[last];
        j := j + 1;
        ChainNode(it, hashtable, chains, slot, j);
      }
      AtEnd(it, hashtable, chains, slot, j);
      it' := it'.(next := it'.next[last := index], prev := it'.prev[index := last]);
      assert it'.next == Write(it.next, Last(chain), index)[index := 0];
      assert it'.prev == it.prev[index := Last(chain)];
    }
  }

  lemma AppendAbs(e: Env, s: State, g: Reading, bits: seq<bool>, s': State, g': Reading, index: nat, key: Key, val: seq<byte>,
                  start: nat, data: seq<byte>)
    requires Inv(e, s, g, bits) && 0 < index < |s.items.keys| && s.items.keys[index] == [] && key !in g.slotOf
    requires Offset(start, e.blocksize) + |val| <= |data|
    requires Clear(s.items.keys, s.items.firstBlock, s.items.valsize, e.blocksize, index, start,
                   BB.BlocksFor(|val|, e.blocksize))
    requires Shaped(s'.items, |s.items.keys|)
    requires var it, it' := s.items, s'.items;
             && it'.firstBlock == it.firstBlock[index := start] && it'.valsize == it.valsize[index := |val|]
             && it'.expires == it.expires[index := it'.expires[index]]
             && it'.ungettable == it.ungettable[index := it'.ungettable[index]]
    requires g'.slotOf == g.slotOf[key := index]
    ensures View(g'.slotOf, Values(s'.items, Splice(data, Offset(start, e.blocksize), val)), e.blocksize)
         == View(g.slotOf, Values(s.items, data), e.blocksize)
              [key := Entry(val, s'.items.expires[index], !s'.items.ungettable[index])]
  {
    hide FreeOk, Chained, Recent, AllocOk, Sized, DeadNeverExpires, Counted, SizeLimit, BB.BlocksFor, Clear, Offset, View;
    var it, it' := s.items, s'.items;
    var data' := Splice(data, Offset(start, e.blocksize), val);
    var v, v' := Values(it, data), Values(it', data');
    forall k | k in g.slotOf - {key} ensures EntryAt(v', e.blocksize, g.slotOf[k]) == EntryAt(v, e.blocksize, g.slotOf[k]) {
      var i := g.slotOf[k];
      assert IsLive(it.keys, i) && i != index;
      OthersKeepBytes(it.keys, it.firstBlock, it.valsize, e.blocksize, index, start, val, data, i);
    }
    ViewPut(g.slotOf, v, v', e.blocksize, key, index);
    SpliceHere(data, start, val, e.blocksize);
  }

  lemma SizedAdd(c: Config, keys: seq<Key>, vlen: seq<nat>, exp: seq<nat>, index: nat, key: Key, len: nat, expires: nat)
    requires Sized(c, keys, vlen) && DeadNeverExpires(keys, exp) && 0 < index < |keys| == |vlen| == |exp|
    requires 0 < |key| <= c.keysize && len <= c.maxItemSize
    ensures Sized(c, keys[index := key], vlen[index := len]) && DeadNeverExpires(keys[index := key], exp[index := expires])
  {
    assert forall i: nat :: i != index ==> (IsLive(keys[index := key], i) <==> IsLive(keys, i));
  }

  lemma RecencyAdded(c: Config, keys: seq<Key>, r: Recency, lru: seq<nat>, r': Recency, lru': seq<nat>, slot: nat, key: Key)
    requires Recent(c, keys, r, lru) && 0 < slot < |keys| == |r.next| && keys[slot] == [] && key != []
    requires if c.purgeLru then LruOk(r', lru') && lru' == lru + [slot] else lru' == lru
    ensures Recent(c, keys[slot := key], r', lru')
    ensures KeysOf(lru', keys[slot := key]) == if c.purgeLru then KeysOf(lru, keys) + [key] else KeysOf(lru, keys)
  {
    if c.purgeLru {
      assert InTable(lru, |keys|) by { hide AllLive; }
      assert forall j :: 0 <= j < |lru| ==> IsLive(keys, lru[j]) by { hide LruLinks; }
      AllLiveAdd(keys, lru, slot, key);
      hide LruLinks, AllLive;
      assert KeysOf(lru', keys[slot := key]) == KeysOf(lru, keys) + [key];
    } else {
      assert KeysOf(lru', keys[slot := key]) == [] == KeysOf(lru, keys);
    }
  }

  lemma LruDead(c: Config, keys: seq<Key>, r: Recency, lru: seq<nat>, slot: nat, key: Key)
    requires Recent(c, keys, r, lru) && c.purgeLru && 0 < slot < |keys| && keys[slot] == [] && key != []
    ensures LruOk(r, lru) && slot !in lru
  {
    hide LruLinks;
    AllLiveAdd(keys, lru, slot, key);
  }

  /** Takes the slot on top of the unused stack for a new item whose value is already placed at block `start`. */
  method AddItem(e: Env, s: State, key: Key, val: seq<byte>, start: nat, expires: nat, ungettable: bool,
                 ghost g: Reading, ghost bits: seq<bool>, ghost bits': seq<bool>, pos': nat, ghost data: seq<byte>)
    returns (s': State, ghost g': Reading)
    requires Inv(e, s, g, bits) && s.sp > 0 && key !in g.slotOf && Acceptable(e.c, key, val)
    requires Placed(e.c, bits, bits', pos', s.stack[s.sp], start, |val|, e.blocksize, e.blocks)
    requires |data| == Offset(e.blocks, e.blocksize)
    ensures Inv(e, s', g', bits') && g'.slotOf == g.slotOf[key := s.stack[s.sp]]
    ensures s'.sp + 1 == s.sp && s'.nItems == s.nItems + 1 && s'.bitmapPos == pos'
    ensures At(s'.items.firstBlock, s.stack[s.sp], 0) == start && At(s'.items.valsize, s.stack[s.sp], 0) == |val|
    ensures SamePlaces(s.items, s'.items, g.slotOf)
    ensures Offset(start, e.blocksize) + |val| <= |data|
    ensures var a, a' := Abs(e, s, g, data), Abs(e, s', g', Splice(data, Offset(start, e.blocksize), val));
            a' == Cache(a.m[key := Entry(val, expires, !ungettable)], if e.c.purgeLru then a.lru + [key] else a.lru, a.nextScan)
  {
    hide FreeOk, IndexOk, ChainsOk, Recent, AllocOk, Sized, DeadNeverExpires, LruOk, SizeLimit, Placed, BB.BlocksFor;
    hide KeysOf, View, Splice, Clear, Offset, SamePlaces;
    var index := s.stack[s.sp];
    var it := s.items;
    FreePop(it.keys, s.stack, s.sp, key);
    PlacedClear(e.c, bits, bits', s.bitmapPos, pos', it.keys, it.firstBlock, it.valsize, e.blocksize, e.blocks, index, start, |val|);
    BlocksInData(start, |val|, e.blocksize, e.blocks);
    AllocAdd(e.c, bits, bits', s.bitmapPos, pos', it.keys, it.firstBlock, it.valsize, e.blocksize, e.blocks, index, key, start, |val|);
    IndexAdd(e.hash, it.keys, it.hashes, g.slotOf, index, key);
    SizedAdd(e.c, it.keys, it.valsize, it.expires, index, key, |val|, expires);
    var recency := s.recency;
    ghost var lru' := g.lru;
    if e.c.purgeLru {
      LruDead(e.c, it.keys, recency, g.lru, index, key);
      recency, lru' := LruAdd(recency, index, g.lru);
    }
    RecencyAdded(e.c, it.keys, s.recency, g.lru, recency, lru', index, key);
    var it', hashtable';
    ghost var chains';
    it', hashtable', chains' := AppendItem(it, s.hashtable, index, key, e.hash(key), g.chains);
    it' := it'.(firstBlock := it.firstBlock[index := start], valsize := it.valsize[index := |val|],
                expires := it.expires[index := expires], ungettable := it.ungettable[index := ungettable]);
    s' := s.(items := it', hashtable := hashtable', sp := s.sp - 1, nItems := s.nItems + 1, recency := recency, bitmapPos := pos');
    g' := Reading(chains', lru', g.slotOf[key := index]);
    DeadElsewhere(e.hash, it.keys, it.hashes, g.slotOf, index);
    PlacesKept(it, it', g.slotOf, index);
    AppendAbs(e, s, g, bits, s', g', index, key, val, start, data);
  }

  // ----- changes to an item in place

  lemma RecencyTouched(c: Config, hash: Key -> nat, keys: seq<Key>, hashes: seq<nat>, slotOf: map<Key, nat>,
                       r: Recency, lru: seq<nat>, r': Recency, lru': seq<nat>, slot: nat)
    requires Recent(c, keys, r, lru) && c.purgeLru && IndexOk(hash, keys, hashes, slotOf) && IsLive(keys, slot)
    requires |r.next| == |keys| && slot in lru && LruOk(r', lru') && lru' == Without(lru, Position(lru, slot)) + [slot]
    ensures Recent(c, keys, r', lru')
    ensures KeysOf(lru', keys) == Keep(KeysOf(lru, keys), slotOf.Keys - {keys[slot]}) + [keys[slot]]
  {
    hide IndexOk, Without, LruLinks, Distinct, Keep, AllLive, KeysOf, Linked;
    RecencyFacts(c, keys, r, lru);
    AllLiveTouch(keys, lru, slot);
    RecencyDrop(hash, keys, hashes, slotOf, lru, slot, keys);
    KeysAppend(Without(lru, Position(lru, slot)), slot, keys);
  }

  lemma KeysAppend(lru: seq<nat>, slot: nat, keys: seq<Key>)
    requires slot < |keys|
    ensures KeysOf(lru + [slot], keys) == KeysOf(lru, keys) + [keys[slot]]
  {
  }

  lemma RecencyFacts(c: Config, keys: seq<Key>, r: Recency, lru: seq<nat>)
    requires Recent(c, keys, r, lru) && c.purgeLru && |r.next| == |keys|
    ensures Distinct(lru) && InTable(lru, |keys|) && AllLive(keys, lru)
    ensures forall j :: 0 <= j < |lru| ==> IsLive(keys, lru[j])
  {
  }

  lemma NotIn(lru: seq<nat>, r: Recency, slot: nat)
    requires LruOk(r, lru) && slot in lru
    ensures slot !in Without(lru, Position(lru, slot)) && 0 < slot < |r.next|
  {
    WithoutFacts(lru, Position(lru, slot));
  }

  /** Makes an item the most recently used one. */
  method TouchItem(e: Env, s: State, index: nat, ghost g: Reading, ghost bits: seq<bool>, ghost data: seq<byte>)
    returns (s': State, ghost g': Reading)
    requires Inv(e, s, g, bits) && IsLive(s.items.keys, index) && e.c.purgeLru
    ensures Inv(e, s', g', bits) && g'.slotOf == g.slotOf && s' == s.(recency := s'.recency)
    ensures Abs(e, s', g', data) == Touch(e.c, Abs(e, s, g, data), s.items.keys[index])
  {
    hide FreeOk, IndexOk, Chained, Recent, AllocOk, Sized, DeadNeverExpires, LruOk, SizeLimit, Counted;
    hide Keep, KeysOf, View, Without;
    var recency;
    ghost var lru';
    LruLive(e.c, s.items.keys, s.recency, g.lru, index);
    NotIn(g.lru, s.recency, index);
    recency, lru' := LruRemove(s.recency, index, g.lru);
    recency, lru' := LruAdd(recency, index, lru');
    RecencyTouched(e.c, e.hash, s.items.keys, s.items.hashes, g.slotOf, s.recency, g.lru, recency, lru', index);
    s' := s.(recency := recency);
    g' := g.(lru := lru');
    assert View(g.slotOf, Values(s.items, data), e.blocksize).Keys == g.slotOf.Keys;
  }

  lemma DeadUnchanged(keys: seq<Key>, exp: seq<nat>, index: nat, expires: nat)
    requires DeadNeverExpires(keys, exp) && IsLive(keys, index) && |exp| == |keys|
    ensures DeadNeverExpires(keys, exp[index := expires])
  {
  }

  /** Gives an item a new expiry. */
  method ExpireItem(e: Env, s: State, index: nat, expires: nat, nextScan: nat, ghost g: Reading, ghost bits: seq<bool>,
                    ghost data: seq<byte>)
    returns (s': State)
    requires Inv(e, s, g, bits) && IsLive(s.items.keys, index)
    ensures Inv(e, s', g, bits)
    ensures s' == s.(items := s.items.(expires := s.items.expires[index := expires]), nextScan := nextScan)
    ensures var a, k := Abs(e, s, g, data), s.items.keys[index];
            k in a.m && Abs(e, s', g, data) == a.(m := a.m[k := a.m[k].(expires := expires)], nextScan := nextScan)
  {
    hide FreeOk, IndexOk, ChainsOk, Recent, AllocOk, Sized, DeadNeverExpires, SizeLimit, Counted, KeysOf, ValueAt;
    var it := s.items;
    s' := s.(items := it.(expires := it.expires[index := expires]), nextScan := nextScan);
    DeadUnchanged(it.keys, it.expires, index, expires);
    OneIsIndexed(e.hash, it.keys, it.hashes, g.slotOf, index);
    OthersElsewhere(e.hash, it.keys, it.hashes, g.slotOf, index);
    assert SameEntries(g.slotOf - {it.keys[index]}, Values(it, data), Values(s'.items, data), e.blocksize);
    ViewPut(g.slotOf, Values(it, data), Values(s'.items, data), e.blocksize, it.keys[index], index);
    assert g.slotOf[it.keys[index] := index] == g.slotOf;
  }

  lemma SizedChanged(c: Config, keys: seq<Key>, vlen: seq<nat>, index: nat, len: nat)
    requires Sized(c, keys, vlen) && IsLive(keys, index) && |vlen| == |keys| && len <= c.maxItemSize
    ensures Sized(c, keys, vlen[index := len])
  {
  }

  lemma MoveAbs(e: Env, s: State, g: Reading, bits: seq<bool>, s': State, index: nat, val: seq<byte>, start: nat, data: seq<byte>)
    requires Inv(e, s, g, bits) && IsLive(s.items.keys, index) && Offset(start, e.blocksize) + |val| <= |data|
    requires Clear(s.items.keys, s.items.firstBlock, s.items.valsize, e.blocksize, index, start,
                   BB.BlocksFor(|val|, e.blocksize))
    requires s'.items == s.items.(firstBlock := s.items.firstBlock[index := start], valsize := s.items.valsize[index := |val|])
    requires s'.nextScan == s.nextScan
    ensures var a, k := Abs(e, s, g, data), s.items.keys[index];
            && k in a.m
            && Abs(e, s', g, Splice(data, Offset(start, e.blocksize), val)) == a.(m := a.m[k := a.m[k].(val := val)])
  {
    hide FreeOk, Chained, Recent, AllocOk, Sized, DeadNeverExpires, Counted, SizeLimit, BB.BlocksFor, Clear, Offset, KeysOf;
    hide ValueAt;
    var it, it', key := s.items, s'.items, s.items.keys[index];
    var data' := Splice(data, Offset(start, e.blocksize), val);
    var v, v' := Values(it, data), Values(it', data');
    forall k | k in g.slotOf - {key} ensures EntryAt(v', e.blocksize, g.slotOf[k]) == EntryAt(v, e.blocksize, g.slotOf[k]) {
      var i := g.slotOf[k];
      assert IsLive(it.keys, i) && i != index;
      OthersKeepBytes(it.keys, it.firstBlock, it.valsize, e.blocksize, index, start, val, data, i);
    }
    ViewPut(g.slotOf, v, v', e.blocksize, key, index);
    SpliceHere(data, start, val, e.blocksize);
    assert g.slotOf[key := index] == g.slotOf;
  }

  /** Gives an item a new value, placed at block `start`; `bits2` no longer marks the old blocks. */
  method MoveItem(e: Env, s: State, index: nat, val: seq<byte>, start: nat, pos': nat, ghost g: Reading,
                  ghost bits: seq<bool>, ghost bits1: seq<bool>, ghost bits2: seq<bool>, ghost data: seq<byte>)
    returns (s': State)
    requires Inv(e, s, g, bits) && IsLive(s.items.keys, index) && 0 < |val| <= e.c.maxItemSize
    requires Placed(e.c, bits, bits1, pos', index, start, |val|, e.blocksize, e.blocks)
    requires e.c.bitmap ==>
               BB.RangeWritten(bits1, bits2, s.items.firstBlock[index],
                               s.items.firstBlock[index] + BB.BlocksFor(s.items.valsize[index], e.blocksize), false)
    requires |data| == Offset(e.blocks, e.blocksize)
    ensures Inv(e, s', g, bits2) && Offset(start, e.blocksize) + |val| <= |data|
    ensures At(s'.items.firstBlock, index, 0) == start && At(s'.items.valsize, index, 0) == |val| && s'.bitmapPos == pos'
    ensures SamePlaces(s.items, s'.items, g.slotOf - {s.items.keys[index]})
    ensures var a, k := Abs(e, s, g, data), s.items.keys[index];
            && k in a.m
            && Abs(e, s', g, Splice(data, Offset(start, e.blocksize), val)) == a.(m := a.m[k := a.m[k].(val := val)])
  {
    hide FreeOk, IndexOk, ChainsOk, Recent, AllocOk, Sized, DeadNeverExpires, SizeLimit, Counted, Placed, BB.BlocksFor;
    hide Clear, Abs, Splice, Offset, BB.RangeWritten, SamePlaces;
    var it := s.items;
    AllocMove(e.c, bits, bits1, bits2, s.bitmapPos, pos', it.keys, it.firstBlock, it.valsize, e.blocksize, e.blocks, index, start, |val|);
    PlacedClear(e.c, bits, bits1, s.bitmapPos, pos', it.keys, it.firstBlock, it.valsize, e.blocksize, e.blocks, index, start, |val|);
    BlocksInData(start, |val|, e.blocksize, e.blocks);
    SizedChanged(e.c, it.keys, it.valsize, index, |val|);
    s' := s.(items := it.(firstBlock := it.firstBlock[index := start], valsize := it.valsize[index := |val|]), bitmapPos := pos');
    OtherPlaces(e.hash, it, s'.items, g.slotOf, index);
    MoveAbs(e, s, g, bits, s', index, val, start, data);
  }

  /** Deletion by slot number also clears the header of a slot that is not in use. */
  method ClearDead(e: Env, s: State, index: nat, ghost g: Reading, ghost bits: seq<bool>, ghost data: seq<byte>)
    returns (s': State)
    requires Inv(e, s, g, bits) && index < e.c.maxItems && !IsLive(s.items.keys, index)
    ensures Inv(e, s', g, bits) && s'.items.keys == s.items.keys && s'.sp == s.sp
    ensures SamePlaces(s.items, s'.items, g.slotOf) && s'.bitmapPos == s.bitmapPos
    ensures Abs(e, s', g, data) == Abs(e, s, g, data)
  {
    hide FreeOk, IndexOk, ChainsOk, Recent, AllocOk, Sized, DeadNeverExpires, SizeLimit, Counted, KeysOf, ValueAt, View;
    var it := s.items;
    DeadLinks(it.keys, it.hashes, s.hashtable, it.next, it.prev, g.chains, index);
    AllocDead(e.c, bits, s.bitmapPos, it.keys, it.firstBlock, it.valsize, e.blocksize, e.blocks, index);
    IndexDead(e, it, g.slotOf, index, data);
    DeadSized(e.c, it.keys, it.valsize, it.expires, index);
    s' := s.(items := it.(valsize := it.valsize[index := 0], hashes := it.hashes[index := 0],
             prev := it.prev[index := 0], next := it.next[index := 0], expires := it.expires[index := 0]));
  }

  lemma AllocDead(c: Config, bits: seq<bool>, pos: nat, keys: seq<Key>, fb: seq<nat>, vlen: seq<nat>, bs: nat, blocks: nat,
                  index: nat)
    requires AllocOk(c, bits, pos, keys, fb, vlen, bs, blocks) && index < |keys| == |vlen| && !IsLive(keys, index)
    ensures AllocOk(c, bits, pos, keys, fb, vlen[index := 0], bs, blocks)
  {
    hide BB.BlocksFor, RangesOk, Owned;
    RangesShape(keys, fb, vlen, bs, blocks);
    DeadBlock(keys, fb, vlen, bs, blocks, index, fb[index], 0);
    assert fb[index := fb[index]] == fb;
  }

  lemma DeadSized(c: Config, keys: seq<Key>, vlen: seq<nat>, exp: seq<nat>, index: nat)
    requires Sized(c, keys, vlen) && DeadNeverExpires(keys, exp) && index < |keys| == |vlen| == |exp| && !IsLive(keys, index)
    ensures Sized(c, keys, vlen[index := 0]) && DeadNeverExpires(keys, exp[index := 0])
  {
  }

  lemma IndexDead(e: Env, it: Items, slotOf: map<Key, nat>, index: nat, data: seq<byte>)
    requires IndexOk(e.hash, it.keys, it.hashes, slotOf) && Shaped(it, |it.keys|)
    requires index < |it.keys| && !IsLive(it.keys, index)
    ensures IndexOk(e.hash, it.keys, it.hashes[index := 0], slotOf)
    ensures SamePlaces(it, it.(valsize := it.valsize[index := 0]), slotOf)
    ensures View(slotOf, Values(it, data), e.blocksize) ==
            View(slotOf, Values(it.(valsize := it.valsize[index := 0], expires := it.expires[index := 0]), data), e.blocksize)
  {
    hide ValueAt;
    assert forall k :: k in slotOf ==> IsLive(it.keys, slotOf[k]) && slotOf[k] != index;
  }

  /** A block number left in the header of an unused slot by a failed allocation. */
  lemma StaleBlock(e: Env, s: State, index: nat, start: nat, g: Reading, bits: seq<bool>, data: seq<byte>)
    requires Inv(e, s, g, bits) && index < e.c.maxItems && !IsLive(s.items.keys, index)
    ensures var s' := s.(items := s.items.(firstBlock := s.items.firstBlock[index := start]));
            && Inv(e, s', g, bits) && Abs(e, s', g, data) == Abs(e, s, g, data)
            && SamePlaces(s.items, s'.items, g.slotOf)
  {
    hide FreeOk, IndexOk, ChainsOk, Recent, Sized, DeadNeverExpires, SizeLimit, Counted, KeysOf, ValueAt, BB.BlocksFor, RangesOk, Owned;
    hide SamePlaces;
    var it := s.items;
    RangesShape(it.keys, it.firstBlock, it.valsize, e.blocksize, e.blocks);
    DeadBlock(it.keys, it.firstBlock, it.valsize, e.blocksize, e.blocks, index, start, it.valsize[index]);
    assert it.valsize[index := it.valsize[index]] == it.valsize;
    DeadElsewhere(e.hash, it.keys, it.hashes, g.slotOf, index);
    PlacesKept(it, it.(firstBlock := it.firstBlock[index := start]), g.slotOf, index);
  }

  // ----- what the tables say about the map

  ghost predicate SlotMeans(e: Env, s: State, g: Reading, a: Cache, i: nat) {
    var k := At(s.items.keys, i, []);
    && (if k == [] then At(s.items.expires, i, 0) == 0
        else k in g.slotOf && g.slotOf[k] == i && k in a.m && a.m[k].expires == At(s.items.expires, i, 0))
    && (forall k' :: k' in g.slotOf && g.slotOf[k'] == i ==> k' == k)
  }

  lemma SlotFacts(e: Env, s: State, g: Reading, bits: seq<bool>, data: seq<byte>, i: nat)
    requires Inv(e, s, g, bits) && 0 < i < e.c.maxItems
    ensures SlotMeans(e, s, g, Abs(e, s, g, data), i)
  {
    hide FreeOk, Chained, Recent, AllocOk, Sized, Counted, SizeLimit, KeysOf, ValueAt;
  }

  lemma SlotsInTable(e: Env, s: State, g: Reading, bits: seq<bool>)
    requires Inv(e, s, g, bits)
    ensures forall k :: k in g.slotOf ==> 0 < g.slotOf[k] < e.c.maxItems
    ensures |g.slotOf| + s.sp + 1 == e.c.maxItems
  {
    hide FreeOk, Chained, Recent, AllocOk, Sized, SizeLimit, DeadNeverExpires;
  }

  /** The map of a valid state is well formed. */
  lemma AbsWellFormed(e: Env, s: State, g: Reading, bits: seq<bool>, data: seq<byte>)
    requires Inv(e, s, g, bits) && |data| == Offset(e.blocks, e.blocksize)
    ensures WellFormed(e.c, Abs(e, s, g, data))
  {
    hide Inv, Distinct, Acceptable, KeysOf, ValueAt, EntryAt, Offset;
    var a := Abs(e, s, g, data);
    SlotsInTable(e, s, g, bits);
    InvSetup(e, s, g, bits);
    forall k | k in a.m ensures Acceptable(e.c, k, a.m[k].val) {
      EntryAcceptable(e, s, g, bits, data, k);
    }
    RecencyWellFormed(e, s, g, bits, data);
  }

  lemma InvSetup(e: Env, s: State, g: Reading, bits: seq<bool>)
    requires Inv(e, s, g, bits)
    ensures Setup(e) && StateShaped(e, s, g)
  {
    hide FreeOk, IndexOk, Chained, Recent, AllocOk, Sized, DeadNeverExpires, Counted, SizeLimit;
  }

  lemma EntryAcceptable(e: Env, s: State, g: Reading, bits: seq<bool>, data: seq<byte>, k: Key)
    requires Inv(e, s, g, bits) && |data| == Offset(e.blocks, e.blocksize) && k in g.slotOf
    ensures Acceptable(e.c, k, EntryAt(Values(s.items, data), e.blocksize, g.slotOf[k]).val)
  {
    hide FreeOk, Chained, Recent, AllocOk, SizeLimit, DeadNeverExpires, Offset, BB.BlocksFor, Counted;
    var i := g.slotOf[k];
    RangeOf(e.c, bits, s.bitmapPos, s.items.keys, s.items.firstBlock, s.items.valsize, e.blocksize, e.blocks, i);
    BlocksInData(s.items.firstBlock[i], s.items.valsize[i], e.blocksize, e.blocks);
  }

  lemma RecencyWellFormed(e: Env, s: State, g: Reading, bits: seq<bool>, data: seq<byte>)
    requires Inv(e, s, g, bits)
    ensures var lru := KeysOf(g.lru, s.items.keys);
            && Distinct(lru)
            && if e.c.purgeLru then forall k :: k in lru <==> k in g.slotOf else lru == []
  {
    hide FreeOk, Chained, AllocOk, Sized, SizeLimit, DeadNeverExpires, Counted;
    if e.c.purgeLru {
      assert Distinct(g.lru) && InTable(g.lru, |s.items.keys|) by { hide IndexOk, AllLive; }
      assert forall j :: 0 <= j < |g.lru| ==> IsLive(s.items.keys, g.lru[j]) by { hide IndexOk, LruLinks; }
      KeysDistinct(e.hash, s.items.keys, s.items.hashes, g.slotOf, g.lru);
      hide LruLinks, Distinct;
      var lru := KeysOf(g.lru, s.items.keys);
      forall k | k in g.slotOf ensures k in lru {
        assert g.slotOf[k] in g.lru;
        var j :| 0 <= j < |g.lru| && g.lru[j] == g.slotOf[k];
        assert lru[j] == k;
      }
    }
  }

  // ----- what the invariant says, slot by slot and block by block

  /** A slot is either unused, on the stack once and on no chain, or in use, on the chain of its own hash and no other,
      with mutually consistent links. */
  lemma SlotAccounting(e: Env, s: State, g: Reading, bits: seq<bool>, i: nat)
    requires Inv(e, s, g, bits) && 0 < i < e.c.maxItems
    ensures s.nItems + s.sp == e.c.maxItems - 1
    ensures Distinct(FreeSlots(s.stack, s.sp)) && (i in FreeSlots(s.stack, s.sp) <==> s.items.keys[i] == [])
    ensures forall b :: 0 <= b < e.hashsize ==>
              (i in g.chains[b] <==> s.items.keys[i] != [] && e.hash(s.items.keys[i]) % e.hashsize == b)
    ensures forall b :: 0 <= b < e.hashsize ==> Distinct(g.chains[b]) && |g.chains[b]| < e.c.maxItems
    ensures s.items.keys[i] != [] ==> LinksAgree(s.items, s.hashtable, i, e.hash(s.items.keys[i]) % e.hashsize)
  {
    hide Recent, AllocOk, Sized, DeadNeverExpires, SizeLimit, IndexOk, ChainsOk, FreeOk, Bucket, LinksAgree;
    FreeFacts(s.items.keys, s.stack, s.sp, i);
    HashFacts(e, s, g, bits, i);
    forall b | 0 <= b < e.hashsize
      ensures i in g.chains[b] <==> s.items.keys[i] != [] && e.hash(s.items.keys[i]) % e.hashsize == b
      ensures Distinct(g.chains[b]) && |g.chains[b]| < e.c.maxItems
    {
      ChainFacts(e, s, g, bits, i, b);
    }
    if s.items.keys[i] != [] {
      LinkFacts(s.items, s.hashtable, g.chains, i);
    }
  }

  /** The neighbours of slot i on its chain point back at it, and the table entry does when it is the first. */
  ghost predicate LinksAgree(it: Items, hashtable: seq<nat>, i: nat, bucket: nat)
    requires Shaped(it, |it.keys|) && i < |it.keys|
  {
    var n, p := it.next[i], it.prev[i];
    && n < |it.keys| && p < |it.keys| && bucket < |hashtable|
    && (n != 0 ==> it.keys[n] != [] && it.prev[n] == i)
    && (if p != 0 then it.keys[p] != [] && it.next[p] == i else hashtable[bucket] == i)
  }

  lemma FreeFacts(keys: seq<Key>, stack: seq<nat>, sp: nat, i: nat)
    requires FreeOk(keys, stack, sp) && 0 < i < |keys|
    ensures Distinct(FreeSlots(stack, sp)) && (i in FreeSlots(stack, sp) <==> keys[i] == [])
  {
  }

  lemma HashFacts(e: Env, s: State, g: Reading, bits: seq<bool>, i: nat)
    requires Inv(e, s, g, bits) && i < e.c.maxItems
    ensures IsLive(s.items.keys, i) ==> Bucket(s.items.hashes[i], e.hashsize) == e.hash(s.items.keys[i]) % e.hashsize
  {
    hide Recent, AllocOk, Sized, DeadNeverExpires, SizeLimit, ChainsOk, FreeOk;
  }

  lemma ChainFacts(e: Env, s: State, g: Reading, bits: seq<bool>, i: nat, b: nat)
    requires Inv(e, s, g, bits) && 0 < i < e.c.maxItems && b < e.hashsize
    ensures i in g.chains[b] <==> IsLive(s.items.keys, i) && Bucket(s.items.hashes[i], e.hashsize) == b
    ensures Distinct(g.chains[b]) && |g.chains[b]| < e.c.maxItems
  {
    hide Recent, AllocOk, Sized, DeadNeverExpires, SizeLimit, IndexOk, FreeOk, Bucket;
    assert Linked(s.items.next, s.items.prev, g.chains[b]);
    DistinctBound(g.chains[b], e.c.maxItems);
    assert forall j :: 0 <= j < |g.chains[b]| ==> InBucket(s.items.keys, s.items.hashes, e.hashsize, g.chains[b][j], b);
  }

  lemma LinkFacts(it: Items, hashtable: seq<nat>, chains: seq<seq<nat>>, i: nat)
    requires Shaped(it, |it.keys|) && Chained(it, hashtable, chains) && IsLive(it.keys, i)
    ensures |hashtable| > 0 && LinksAgree(it, hashtable, i, Bucket(it.hashes[i], |hashtable|))
  {
    hide ChainsOk, Bucket, Linked, Distinct;
    ChainsThere(it, hashtable, chains);
    Located(it.keys, it.hashes, hashtable, it.next, it.prev, chains, i);
    var b := Bucket(it.hashes[i], |hashtable|);
    var k := Position(chains[b], i);
    ChainHead(it, hashtable, chains, b);
    ChainNode(it, hashtable, chains, b, k);
    if k + 1 < |chains[b]| {
      ChainNode(it, hashtable, chains, b, k + 1);
      PrevAt(it.next, it.prev, chains[b], k + 1);
    }
    if k > 0 { ChainNode(it, hashtable, chains, b, k - 1); }
  }

  lemma ChainsThere(it: Items, hashtable: seq<nat>, chains: seq<seq<nat>>)
    requires Chained(it, hashtable, chains)
    ensures |chains| == |hashtable| > 0
  {
    hide Members, Linked;
  }

  lemma PrevAt(next: seq<nat>, prev: seq<nat>, order: seq<nat>, k: nat)
    requires Linked(next, prev, order) && k < |order|
    ensures order[k] < |prev| && prev[order[k]] == PrevOf(order, k)
  {
  }

  /** In bitmap mode the set bits are the padding and the blocks of live items, whose ranges are apart and in bounds. */
  lemma BlockAccounting(e: Env, s: State, g: Reading, bits: seq<bool>)
    requires Inv(e, s, g, bits) && e.c.bitmap
    ensures var it := s.items;
            && (forall b :: 0 <= b < |bits| ==>
                  (bits[b] <==> b >= e.blocks || Owned(it.keys, it.firstBlock, it.valsize, e.blocksize, b)))
            && (forall i: nat :: IsLive(it.keys, i) ==> it.firstBlock[i] + BB.BlocksFor(it.valsize[i], e.blocksize) <= e.blocks)
            && (forall i: nat, j: nat :: IsLive(it.keys, i) && IsLive(it.keys, j) && i != j ==>
                  Apart(it.firstBlock[i], BB.BlocksFor(it.valsize[i], e.blocksize),
                        it.firstBlock[j], BB.BlocksFor(it.valsize[j], e.blocksize)))
  {
    hide FreeOk, IndexOk, ChainsOk, Recent, Sized, DeadNeverExpires, SizeLimit, Counted, BB.BlocksFor, Owned;
  }
}
