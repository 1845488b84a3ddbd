/** The layout that the item headers of a cache describe, and how changes of the headers change it. */
module CacheLayout {
  import opened Bytes
  import opened Collections
  import opened CacheSpec
  import opened CacheTables
  import opened CacheState
  import opened CacheBlocks
  import BB = BlockBitmap

  /** Every key left still has its slot. */
  ghost predicate SubSlots(slots: map<Key, nat>, before: map<Key, nat>) {
    forall k :: k in slots ==> k in before && slots[k] == before[k]
  }

  ghost function PlaceAt(it: Items, i: nat, bs: nat): Extent {
    Extent(At(it.firstBlock, i, 0), BlockCount(Area(bs, 0, 0), At(it.valsize, i, 0)))
  }

  ghost function LayoutOf(e: Env, s: State, slots: map<Key, nat>): Layout {
    Layout(map k | k in slots :: PlaceAt(s.items, slots[k], e.blocksize), s.bitmapPos)
  }

  ghost function AreaOf(e: Env, size: nat): Area {
    Area(e.blocksize, e.blocks, size)
  }

  /** Keys may have gone, but none moved to another slot or to other blocks, and the scan stands where it stood. */
  ghost predicate Unmoved(s: State, slots: map<Key, nat>, s': State, slots': map<Key, nat>) {
    SubSlots(slots', slots) && SamePlaces(s.items, s'.items, slots') && s'.bitmapPos == s.bitmapPos
  }

  lemma UnmovedOn(s: State, slots: map<Key, nat>, s': State, slots': map<Key, nat>, s'': State, slots'': map<Key, nat>)
    requires Unmoved(s, slots, s', slots') && Unmoved(s', slots', s'', slots'')
    ensures Unmoved(s, slots, s'', slots'')
  {
  }

  lemma UnmovedSlots(s: State, slots: map<Key, nat>, s': State, slots': map<Key, nat>)
    requires Unmoved(s, slots, s', slots')
    ensures SubSlots(slots', slots)
  {
  }

  lemma StaysPut(s: State, slots: map<Key, nat>, s': State)
    requires s'.items.firstBlock == s.items.firstBlock && s'.items.valsize == s.items.valsize && s'.bitmapPos == s.bitmapPos
    ensures Unmoved(s, slots, s', slots)
  {
  }

  /** Keys that went away took their blocks with them, and nothing else moved. */
  lemma LayoutShrinks(e: Env, s: State, slots: map<Key, nat>, s': State, slots': map<Key, nat>)
    requires Unmoved(s, slots, s', slots')
    ensures LayoutOf(e, s', slots') == Left(LayoutOf(e, s, slots), slots'.Keys)
  {
    var l, l' := LayoutOf(e, s, slots), LayoutOf(e, s', slots');
    LeftPlaces(l, slots'.Keys);
    hide Left;
    assert l'.places == Left(l, slots'.Keys).places;
    LeftPos(l, slots'.Keys);
  }

  lemma SameLayout(e: Env, s: State, s': State, slots: map<Key, nat>)
    requires Unmoved(s, slots, s', slots)
    ensures LayoutOf(e, s', slots) == LayoutOf(e, s, slots)
  {
    assert LayoutOf(e, s', slots).places == LayoutOf(e, s, slots).places;
  }

  lemma LeftPos(l: Layout, keys: set<Key>)
    ensures Left(l, keys).pos == l.pos
  {
  }

  /** A value that went to the first fit of the layout. */
  lemma LayoutGains(e: Env, size: nat, s: State, slots: map<Key, nat>, s': State, slots': map<Key, nat>, key: Key, len: nat,
                    start: nat)
    requires key in slots' && slots' == slots[key := slots'[key]] && e.blocksize > 0
    requires SamePlaces(s.items, s'.items, slots - {key})
    requires At(s'.items.firstBlock, slots'[key], 0) == start && At(s'.items.valsize, slots'[key], 0) == len
    requires start == Found(Marked(AreaOf(e, size), LayoutOf(e, s, slots)), s.bitmapPos, BB.BlocksFor(len, e.blocksize))
    requires s'.bitmapPos == if start + BB.BlocksFor(len, e.blocksize) >= e.blocks then 0
                             else start + BB.BlocksFor(len, e.blocksize)
    ensures LayoutOf(e, s', slots') == Put(AreaOf(e, size), LayoutOf(e, s, slots), key, len)
  {
    hide BB.BlocksFor, Found, Marked;
    var l, l' := LayoutOf(e, s, slots), LayoutOf(e, s', slots');
    var put := Put(AreaOf(e, size), l, key, len);
    forall k | k in slots' ensures k in put.places && l'.places[k] == put.places[k] {
      if k != key {
        assert k in slots - {key};
      }
    }
    assert l'.places == put.places;
  }

  /** In a cache with a bitmap, the bits are those of the layout. */
  lemma BitsAreMarked(e: Env, s: State, g: Reading, bits: seq<bool>)
    requires Inv(e, s, g, bits) && e.c.bitmap
    ensures bits == Marked(AreaOf(e, |bits|), LayoutOf(e, s, g.slotOf))
  {
    hide FreeOk, Chained, Recent, Sized, DeadNeverExpires, Counted, SizeLimit, BB.BlocksFor;
    var l := LayoutOf(e, s, g.slotOf);
    forall b: nat | b < |bits| ensures bits[b] <==> b >= e.blocks || Taken(l, b) {
      OwnedIsTaken(e, s, g, b);
    }
    hide Taken;
    assert bits == Marked(AreaOf(e, |bits|), l);
  }

  lemma OwnedIsTaken(e: Env, s: State, g: Reading, b: nat)
    requires IndexOk(e.hash, s.items.keys, s.items.hashes, g.slotOf) && e.blocksize > 0
    requires |s.items.firstBlock| == |s.items.valsize| == |s.items.keys|
    ensures Owned(s.items.keys, s.items.firstBlock, s.items.valsize, e.blocksize, b) <==> Taken(LayoutOf(e, s, g.slotOf), b)
  {
    hide BB.BlocksFor;
    var it, l := s.items, LayoutOf(e, s, g.slotOf);
    if Owned(it.keys, it.firstBlock, it.valsize, e.blocksize, b) {
      var i: nat :| IsLive(it.keys, i) && Covers(it.firstBlock, it.valsize, e.blocksize, i, b);
      assert it.keys[i] in l.places;
    }
    if Taken(l, b) {
      var k :| k in l.places && l.places[k].start <= b < l.places[k].start + l.places[k].count;
      assert IsLive(it.keys, g.slotOf[k]) && Covers(it.firstBlock, it.valsize, e.blocksize, g.slotOf[k], b);
    }
  }

  /** Where the scan for free blocks goes on. */
  ghost function NextPos(e: Env, start: nat, n: nat): nat {
    if start + n >= e.blocks then 0 else start + n
  }

  lemma MovedNothing(s: State, slots: map<Key, nat>, s': State)
    requires SamePlaces(s.items, s'.items, slots) && s'.bitmapPos == s.bitmapPos
    ensures Unmoved(s, slots, s', slots)
  {
  }

  /** The allocator's answer, as the layout has it. */
  lemma RoomIsFit(e: Env, s: State, g: Reading, bits: seq<bool>, len: nat)
    requires Inv(e, s, g, bits) && e.c.bitmap && e.blocksize > 0
    ensures BB.HasRoom(bits, s.bitmapPos, BB.BlocksFor(len, e.blocksize)) <==>
            FitsIn(e.c, AreaOf(e, |bits|), LayoutOf(e, s, g.slotOf), len)
  {
    BitsAreMarked(e, s, g, bits);
    hide Inv, Marked, BB.HasRoom, BB.BlocksFor;
  }

  /** A value put at the allocator's answer has gone to the first fit of the layout. */
  lemma Fitted(e: Env, s: State, g: Reading, bits: seq<bool>, s': State, slots': map<Key, nat>, key: Key, len: nat, start: nat)
    requires Inv(e, s, g, bits) && e.c.bitmap && e.blocksize > 0 && len > 0 && |bits| < BB.NO_BLOCK
    requires key in slots' && slots' == g.slotOf[key := slots'[key]] && SamePlaces(s.items, s'.items, g.slotOf - {key})
    requires At(s'.items.firstBlock, slots'[key], 0) == start && At(s'.items.valsize, slots'[key], 0) == len
    requires BB.FirstFit(bits, s.bitmapPos, BB.BlocksFor(len, e.blocksize), start)
    requires s'.bitmapPos == NextPos(e, start, BB.BlocksFor(len, e.blocksize))
    ensures LayoutOf(e, s', slots') == Put(AreaOf(e, |bits|), LayoutOf(e, s, g.slotOf), key, len)
  {
    BB.BlocksForBounds(len, e.blocksize);
    BitsAreMarked(e, s, g, bits);
    hide Inv, Marked, BB.FirstFit, BB.BlocksFor, Found, LayoutOf, Put, SamePlaces;
    FirstFitIsFound(bits, s.bitmapPos, BB.BlocksFor(len, e.blocksize), start);
    LayoutGains(e, |bits|, s, g.slotOf, s', slots', key, len, start);
  }
}
