/** The local cache as its callers use it: lookups, sets, deletions, what a full cache gives up, the sweeper, recovery
    and enumeration. Every method is proved against CacheSpec. Times are parameters; one operation reads one clock. */
module LocalCache {
  import opened Collections
  import opened Bytes
  import opened CacheSpec
  import opened CacheTables
  import opened CacheState
  import opened IndexList
  import opened CacheRuns
  import opened CacheSweep
  import opened CacheBlocks
  import opened CacheLayout
  import BB = BlockBitmap

  class Store {
    const e: Env
    const bitmap: array<bv8>
    const data: array<byte>
    var s: State
    ghost var g: Reading

    ghost function Bits(): seq<bool>
      reads bitmap
    {
      BB.Bits(bitmap[..])
    }

    ghost predicate Valid()
      reads this, bitmap
    {
      && Inv(e, s, g, Bits())
      && data.Length == Offset(e.blocks, e.blocksize)
      && (e.c.bitmap ==> e.blocks <= 8 * bitmap.Length < BB.NO_BLOCK)
      && (bitmap as object) != (data as object)
    }

    ghost function View(): Cache
      reads this, data
    {
      Abs(e, s, g, data[..])
    }

    /** Where the values lie. */
    ghost function Lay(): Layout
      reads this
    {
      LayoutOf(e, s, g.slotOf)
    }

    ghost function DataArea(): Area {
      AreaOf(e, 8 * bitmap.Length)
    }

    ghost function KeyAt(i: nat): Key
      reads this
    {
      At(s.items.keys, i, [])
    }

    /** An empty cache. */
    constructor (e: Env)
      requires Setup(e) && e.blocks + 8 < BB.NO_BLOCK
      ensures Valid() && fresh(bitmap) && fresh(data)
      ensures this.e == e && View() == EMPTY && Lay() == Layout(map[], 0)
    {
      this.e := e;
      var n := e.c.maxItems;
      var stack, sp := InitStack(n);
      var bm := BB.InitBitmap(e.blocks);
      bitmap := bm;
      data := new byte[e.blocks * e.blocksize](_ => 0);
      s := EmptyState(e, stack, sp);
      g := EmptyReading(e);
      new;
      EmptyHolds(e, stack, Bits(), data[..]);
      OffsetIs(e.blocks, e.blocksize);
    }

    // ----- deletion

    method DelSlot(index: nat)
      requires Valid() && 0 < index < e.c.maxItems
      modifies this, bitmap
      ensures Valid()
      ensures View() == old(DropKey(View(), KeyAt(index)))
      ensures g.slotOf == old(g.slotOf - {KeyAt(index)})
      ensures Unmoved(old(s), old(g).slotOf, s, g.slotOf)
    {
      hide Inv, Abs, Remove, SamePlaces, BB.Bits, BB.RangeWritten, Offset, SizeLimit, BB.BlocksFor;
      InvSetup(e, s, g, Bits());
      if |s.items.keys[index]| > 0 {
        BlocksHeld(e, s, g, Bits(), index);
        ghost var bits := Bits();
        if e.c.bitmap {
          BB.UnmarkBlocks(bitmap, s.items.firstBlock[index], s.items.valsize[index], e.blocksize);
        }
        s, g := DelItem(e, s, index, g, bits, Bits(), data[..]);
      } else {
        NoEmptyKey(e, s, g, Bits());
        s := ClearDead(e, s, index, g, Bits(), data[..]);
      }
    }

    /** The slot of a key, or 0; an expired entry is dropped on the way when expiry is lazy. */
    method GetIndex(key: Key, now: nat) returns (index: nat)
      requires Valid()
      modifies this, bitmap
      ensures Valid()
      ensures (View(), index != 0) == old(Lookup(e.c, View(), key, now))
      ensures index != 0 ==> HasSlot(g.slotOf, key, index)
      ensures Unmoved(old(s), old(g).slotOf, s, g.slotOf)
      ensures g.slotOf == (if index != 0 then old(g.slotOf) else old(g.slotOf - {key}))
      ensures index != 0 || old(key !in g.slotOf) ==> s == old(s) && Bits() == old(Bits())
    {
      hide Inv, Remove, Unmoved, BB.Bits, BB.RangeWritten, Offset, SizeLimit, BB.BlocksFor, EntryAt, KeysOf;
      InvSetup(e, s, g, Bits());
      StaysPut(s, g.slotOf, s);
      index := FindSlot(e, s, key, g, Bits());
      if index != 0 {
        SlotFacts(e, s, g, Bits(), data[..], index);
        NoEmptyKey(e, s, g, Bits());
        if s.items.expires[index] == 0 || !e.c.lazyExpire {
          return;
        }
        if s.items.expires[index] <= now {
          DelSlot(index);
          return 0;
        }
      }
    }

    method Get(key: Key, now: nat) returns (r: Option<Entry>)
      requires Valid()
      modifies this, bitmap
      ensures Valid()
      ensures (View(), r) == old(CacheSpec.Get(e.c, View(), key, now))
      ensures Unmoved(old(s), old(g).slotOf, s, g.slotOf)
      ensures g.slotOf == old(g.slotOf) || g.slotOf == old(g.slotOf - {key})
    {
      hide Inv, Abs, Remove, Unmoved, Keep, BB.Bits, BB.RangeWritten, Offset, SizeLimit, BB.BlocksFor;
      var index := GetIndex(key, now);
      if index == 0 {
        NotFound(e, s, g, Bits(), data[..], key);
        return None;
      }
      InvSetup(e, s, g, Bits());
      EntryFacts(e, s, g, Bits(), data[..], key);
      if s.items.ungettable[index] {
        return None;
      }
      var off := s.items.firstBlock[index] * e.blocksize;
      r := Some(Entry(data[off..off + s.items.valsize[index]], s.items.expires[index], true));
      if e.c.purgeLru {
        ghost var before := s;
        s, g := TouchItem(e, s, index, g, Bits(), data[..]);
        StaysPut(before, g.slotOf, s);
        UnmovedOn(old(s), old(g).slotOf, before, g.slotOf, s, g.slotOf);
      }
    }

    method Del(key: Key, now: nat) returns (ok: bool)
      requires Valid()
      modifies this, bitmap
      ensures Valid()
      ensures (View(), ok) == old(CacheSpec.Del(e.c, View(), key, now))
      ensures g.slotOf == old(g.slotOf - {key})
      ensures Unmoved(old(s), old(g).slotOf, s, g.slotOf)
    {
      hide Inv, Abs, Remove, Unmoved, Keep, BB.Bits, BB.RangeWritten, Offset, SizeLimit, BB.BlocksFor;
      var index := GetIndex(key, now);
      if index == 0 {
        return false;
      }
      SlotsInTable(e, s, g, Bits());
      SlotFacts(e, s, g, Bits(), data[..], index);
      NoEmptyKey(e, s, g, Bits());
      ghost var before, slots := s, g.slotOf;
      DelSlot(index);
      UnmovedOn(old(s), old(g).slotOf, before, slots, s, g.slotOf);
      ok := true;
    }

    // ----- a full cache

    /** Deletes the expired items, slot by slot. */
    method SweepExpired(now: nat) returns (removed: nat)
      requires Valid()
      modifies this, bitmap
      ensures Valid()
      ensures View() == old(Remove(View(), ExpiredKeys(View(), now)))
      ensures removed == 0 <==> old(ExpiredKeys(View(), now)) == {}
      ensures g.slotOf == old(g.slotOf - ExpiredKeys(View(), now))
      ensures Unmoved(old(s), old(g).slotOf, s, g.slotOf)
    {
      hide Inv, Abs, Remove, Keep, BB.Bits, BB.RangeWritten, Offset, SizeLimit, BB.BlocksFor, ExpiredBelow, SlotMeans, Unmoved;
      StaysPut(s, g.slotOf, s);
      ghost var a, slots := View(), g.slotOf;
      removed := 0;
      InvSetup(e, s, g, Bits());
      NothingBelow(e, s, g, Bits(), data[..], now);
      NoEmptyKey(e, s, g, Bits());
      var i := 1;
      while i < e.c.maxItems
        invariant Valid() && 1 <= i <= e.c.maxItems
        invariant View() == Remove(a, ExpiredBelow(a, slots, i, now))
        invariant g.slotOf == slots - ExpiredBelow(a, slots, i, now)
        invariant Unmoved(old(s), slots, s, g.slotOf)
        invariant removed == 0 <==> ExpiredBelow(a, slots, i, now) == {}
      {
        InvSetup(e, s, g, Bits());
        SlotFacts(e, s, g, Bits(), data[..], i);
        ExpiredNext(e, s, g, View(), a, slots, i, now);
        if s.items.expires[i] > 0 && s.items.expires[i] <= now {
          ghost var before, held := s, g.slotOf;
          DelSlot(i);
          UnmovedOn(old(s), slots, before, held, s, g.slotOf);
          removed := removed + 1;
        }
        i := i + 1;
      }
      AllBelow(e, old(s), old(g), old(Bits()), old(data[..]), now);
    }

    /** Deletes every item, slot by slot. */
    method ClearAll()
      requires Valid()
      modifies this, bitmap
      ensures Valid()
      ensures View() == old(View().(m := map[], lru := []))
      ensures g.slotOf == map[]
      ensures Unmoved(old(s), old(g).slotOf, s, g.slotOf)
    {
      hide Inv, Abs, Remove, Keep, BB.Bits, BB.RangeWritten, Offset, SizeLimit, BB.BlocksFor, KeysBelow, SlotMeans, Unmoved;
      StaysPut(s, g.slotOf, s);
      ghost var a, slots := View(), g.slotOf;
      InvSetup(e, s, g, Bits());
      NoneBelow(e, s, g, Bits(), data[..]);
      NoEmptyKey(e, s, g, Bits());
      var i := 1;
      while i < e.c.maxItems
        invariant Valid() && 1 <= i <= e.c.maxItems
        invariant Unmoved(old(s), slots, s, g.slotOf)
        invariant View() == Remove(a, KeysBelow(slots, i)) && g.slotOf == slots - KeysBelow(slots, i)
      {
        SlotFacts(e, s, g, Bits(), data[..], i);
        KeysNext(e, s, g, View(), a, slots, i);
        ghost var before, held := s, g.slotOf;
        DelSlot(i);
        UnmovedOn(old(s), slots, before, held, s, g.slotOf);
        i := i + 1;
      }
      EveryoneBelow(e, old(s), old(g), old(Bits()), old(data[..]));
    }

    method PurgeHead()
      requires Valid()
      modifies this, bitmap
      ensures Valid()
      ensures View() == old(PurgeOldest(e.c, View()))
      ensures Unmoved(old(s), old(g).slotOf, s, g.slotOf)
    {
      hide Inv, Abs, Remove, Unmoved, BB.Bits, Offset, SizeLimit;
      StaysPut(s, g.slotOf, s);
      OldestSlot(e, s, g, Bits(), data[..]);
      if e.c.purgeLru && s.recency.head != 0 {
        DelSlot(s.recency.head);
      }
    }

    method SweepIfDue(now: nat) returns (removed: nat)
      requires Valid()
      modifies this, bitmap
      ensures Valid()
      ensures View() == old(Swept(e.c, View(), now))
      ensures removed == 0 <==> old(DueKeys(e.c, View(), now)) == {}
      ensures Unmoved(old(s), old(g).slotOf, s, g.slotOf)
    {
      hide Inv, Abs, Remove, Unmoved, BB.Bits, Offset, SizeLimit, ExpiredKeys;
      removed := 0;
      StaysPut(s, g.slotOf, s);
      if e.c.sweepOnFull > 0 {
        ghost var a := View();
        ViewScan(e, s, g, data[..]);
        if s.nextScan <= now {
          RescanKeeps(e, s, g, Bits(), data[..], now + e.c.sweepOnFull, now);
          s := s.(nextScan := now + e.c.sweepOnFull);
          StaysPut(old(s), g.slotOf, s);
          ghost var before, held := s, g.slotOf;
          removed := SweepExpired(now);
          UnmovedOn(old(s), held, before, held, s, g.slotOf);
        }
      }
    }

    method CacheFull(now: nat)
      requires Valid()
      modifies this, bitmap
      ensures Valid()
      ensures View() == old(Full(e.c, View(), now))
      ensures Unmoved(old(s), old(g).slotOf, s, g.slotOf)
    {
      hide Inv, Abs, Unmoved, PurgeOldest, Swept, DueKeys, BB.Bits, Offset, SizeLimit;
      var clear := e.c.clearOnFull;
      PurgeHead();
      ghost var s1, g1 := s, g.slotOf;
      var removed := SweepIfDue(now);
      UnmovedOn(old(s), old(g).slotOf, s1, g1, s, g.slotOf);
      ghost var s2, g2 := s, g.slotOf;
      if removed > 0 {
        clear := false;
      }
      if clear {
        ClearAll();
        UnmovedOn(old(s), old(g).slotOf, s2, g2, s, g.slotOf);
      }
    }

    // ----- insertion and update

    /** Finds and marks a free run for `len` bytes, and moves the scan position past it. */
    method Allocate(len: nat, ghost slot: nat) returns (start: nat, pos: nat)
      requires Valid() && e.c.bitmap && 0 < len <= e.c.maxItemSize
      modifies bitmap
      ensures start == BB.NO_BLOCK <==> !old(HasRoomFor(Bits(), len))
      ensures start == BB.NO_BLOCK ==> Bits() == old(Bits()) && pos == s.bitmapPos
      ensures start != BB.NO_BLOCK ==>
                && Placed(e.c, old(Bits()), Bits(), pos, slot, start, len, e.blocksize, e.blocks)
                && pos == NextPos(e, start, BB.BlocksFor(len, e.blocksize))
                && BB.FirstFit(old(Bits()), s.bitmapPos, BB.BlocksFor(len, e.blocksize), start)
    {
      hide Inv, BB.Bits, BB.RangeWritten, Offset, SizeLimit, BB.BlocksFor, BB.HasRoom, BB.FirstFit;
      BitmapFacts(e, s, g, Bits());
      start := BB.FindFreeBlocks(bitmap, s.bitmapPos, len, e.blocksize);
      FitFacts(e, s, g, Bits(), len, start);
      pos := s.bitmapPos;
      if start == BB.NO_BLOCK {
        return;
      }
      var neededBlocks := BB.MarkBlocks(bitmap, start, len, e.blocksize);
      if start + neededBlocks >= e.blocks {
        pos := 0;
      } else {
        pos := start + neededBlocks;
      }
    }

    ghost predicate HasRoomFor(bits: seq<bool>, len: nat)
      reads this
      requires e.blocksize > 0
    {
      BB.HasRoom(bits, s.bitmapPos, BB.BlocksFor(len, e.blocksize))
    }

    method WriteBytes(off: nat, v: seq<byte>)
      requires off + |v| <= data.Length
      modifies data
      ensures data[..] == old(Splice(data[..], off, v))
    {
      for i := 0 to |v|
        invariant data[..] == old(Splice(data[..], off, v[..i]))
      {
        data[off + i] := v[i];
        assert v[..i + 1] == v[..i] + [v[i]];
      }
      assert v[..|v|] == v;
    }

    /** Stores a new item in the slot on top of the unused stack, once its blocks are found. */
    method InsertItem(key: Key, val: seq<byte>, expires: nat, flags: Flags, now: nat) returns (ok: bool)
      requires Valid() && key !in g.slotOf && Acceptable(e.c, key, val) && s.sp > 0
      modifies this, bitmap, data
      ensures Valid()
      ensures (View(), ok) == old(Place(e.c, View(), key, val, expires, flags, now, RoomFor(|val|)))
      ensures !ok ==> Unmoved(old(s), old(g).slotOf, s, g.slotOf)
      ensures ok && e.c.bitmap ==> Lay() == old(Put(DataArea(), Lay(), key, |val|))
      ensures SubSlots(if ok then g.slotOf - {key} else g.slotOf, old(g.slotOf))
    {
      hide Inv, Abs, Unmoved, SamePlaces, LayoutOf, Put, Full, Splice, Placed, BB.Bits, BB.HasRoom, BB.FirstFit, BB.BlocksFor, Offset, SizeLimit, Acceptable, Deadline, Sooner;
      InvSetup(e, s, g, Bits());
      FreshSlot(e, s, g, Bits(), key, |val|);
      AcceptableSize(e.c, key, val);
      ghost var bits, data0 := Bits(), data[..];
      var index := s.stack[s.sp];
      var start, pos := index, s.bitmapPos;
      if e.c.bitmap {
        start, pos := Allocate(|val|, index);
        if start == BB.NO_BLOCK {
          StaleBlock(e, s, index, start, g, bits, data0);
          s := s.(items := s.items.(firstBlock := s.items.firstBlock[index := start]));
          ghost var stale := s;
          MovedNothing(old(s), g.slotOf, stale);
          CacheFull(now);
          UnmovedOn(old(s), old(g).slotOf, stale, old(g).slotOf, s, g.slotOf);
          UnmovedSlots(old(s), old(g).slotOf, s, g.slotOf);
          return false;
        }
      }
      var deadline, nextScan := Schedule(e.c, s.nextScan, expires, flags, now);
      ViewScan(e, s, g, data0);
      RescanKeeps(e, s, g, bits, data0, nextScan, now);
      s := s.(nextScan := nextScan);
      s, g := AddItem(e, s, key, val, start, deadline, flags.ungettable, g, bits, Bits(), pos, data0);
      assert Offset(start, e.blocksize) == start * e.blocksize by { OffsetIs(start, e.blocksize); }
      WriteBytes(start * e.blocksize, val);
      if e.c.bitmap {
        assert old(g).slotOf - {key} == old(g).slotOf;
        Fitted(e, old(s), old(g), bits, s, g.slotOf, key, |val|, start);
      }
      ok := true;
    }

    /** The part of an update that comes before the new blocks: recency or expiry, unless the expiry is fixed. */
    method RestampItem(index: nat, key: Key, expires: nat, flags: Flags, now: nat)
      requires Valid() && key in g.slotOf && g.slotOf[key] == index && index > 0
      modifies this
      ensures Valid()
      ensures old(key in View().m) && View() == old(Restamp(e.c, View(), key, expires, flags, now))
      ensures g.slotOf == old(g.slotOf) && Unmoved(old(s), old(g).slotOf, s, g.slotOf)
    {
      hide Inv, Abs, Unmoved, BB.Bits, BB.BlocksFor, Offset, SizeLimit, Deadline, Sooner, Keep;
      EntryFacts(e, s, g, Bits(), data[..], key);
      StaysPut(s, g.slotOf, s);
      if !flags.fixExpire {
        ViewScan(e, s, g, data[..]);
        var deadline, nextScan := Schedule(e.c, s.nextScan, expires, flags, now);
        if e.c.purgeLru {
          s, g := TouchItem(e, s, index, g, Bits(), data[..]);
        }
        s := ExpireItem(e, s, index, deadline, nextScan, g, Bits(), data[..]);
        StaysPut(old(s), g.slotOf, s);
      }
    }

    /** Replaces the value of a present key; in a cache with a bitmap the value moves to new blocks. */
    method RewriteItem(index: nat, key: Key, val: seq<byte>, now: nat) returns (ok: bool)
      requires Valid() && key in g.slotOf && g.slotOf[key] == index && index > 0 && 0 < |val| <= e.c.maxItemSize
      modifies this, bitmap, data
      ensures Valid()
      ensures old(key in View().m) && (View(), ok) == old(Rewrite(e.c, View(), key, val, now, RoomFor(|val|)))
      ensures !ok ==> Unmoved(old(s), old(g).slotOf, s, g.slotOf)
      ensures ok && e.c.bitmap ==> Lay() == old(Put(DataArea(), Lay(), key, |val|))
      ensures SubSlots(g.slotOf, old(g.slotOf))
    {
      hide Inv, Abs, Unmoved, SamePlaces, LayoutOf, Put, Full, Splice, Placed, BB.Bits, BB.HasRoom, BB.FirstFit, BB.BlocksFor, Offset, SizeLimit, BB.RangeWritten;
      InvSetup(e, s, g, Bits());
      EntryFacts(e, s, g, Bits(), data[..], key);
      OwnBlock(e, s, g, Bits(), index, |val|);
      BlocksHeld(e, s, g, Bits(), index);
      ghost var bits, data0 := Bits(), data[..];
      var start, pos := s.items.firstBlock[index], s.bitmapPos;
      ghost var bits1 := bits;
      if e.c.bitmap {
        start, pos := Allocate(|val|, index);
        if start == BB.NO_BLOCK {
          CacheFull(now);
          UnmovedSlots(old(s), old(g).slotOf, s, g.slotOf);
          return false;
        }
        bits1 := Bits();
        // unmark the old blocks
        BB.UnmarkBlocks(bitmap, s.items.firstBlock[index], s.items.valsize[index], e.blocksize);
      }
      s := MoveItem(e, s, index, val, start, pos, g, bits, bits1, Bits(), data0);
      assert Offset(start, e.blocksize) == start * e.blocksize by { OffsetIs(start, e.blocksize); }
      WriteBytes(start * e.blocksize, val);
      if e.c.bitmap {
        Fitted(e, old(s), g, bits, s, g.slotOf, key, |val|, start);
      }
      ok := true;
    }

    /** The insertion of an absent key: a full cache first gives something up. The allocator answers for what is left. */
    method AddNew(key: Key, val: seq<byte>, expires: nat, flags: Flags, now: nat) returns (ok: bool, ghost room: bool)
      requires Valid() && e.c.maxItems > 0 && key !in g.slotOf && Acceptable(e.c, key, val)
      modifies this, bitmap, data
      ensures Valid()
      ensures (View(), ok) == old(Insert(e.c, View(), key, val, expires, flags, now, room))
      ensures room == old(FitsIn(e.c, DataArea(), Left(Lay(), RoomMade(e.c, View(), now).m.Keys), |val|))
      ensures !ok ==> Unmoved(old(s), old(g).slotOf, s, g.slotOf)
      ensures ok && e.c.bitmap ==>
                Lay() == old(Put(DataArea(), Left(Lay(), RoomMade(e.c, View(), now).m.Keys), key, |val|))
      ensures SubSlots(if ok then g.slotOf - {key} else g.slotOf, old(g.slotOf))
    {
      hide Inv, Abs, Full, Place, BB.Bits, BB.HasRoom, BB.BlocksFor, Offset, SizeLimit, Acceptable, Unmoved, LayoutOf, Put, FitsIn;
      InvSetup(e, s, g, Bits());
      CountFacts(e, s, g, Bits(), data[..], key);
      StaysPut(s, g.slotOf, s);
      if s.sp == 0 {
        CacheFull(now);
        CountFacts(e, s, g, Bits(), data[..], key);
      }
      UnmovedSlots(old(s), old(g).slotOf, s, g.slotOf);
      Shrunk(old(s), old(g).slotOf);
      room := FitsIn(e.c, DataArea(), Lay(), |val|);
      RoomIsRoom(|val|);
      if s.sp == 0 {
        return false, room;
      }
      ghost var s1, g1 := s, g.slotOf;
      ok := InsertItem(key, val, expires, flags, now);
      if !ok {
        UnmovedOn(old(s), old(g).slotOf, s1, g1, s, g.slotOf);
      }
    }

    /** What left the cache took its blocks with it. */
    lemma Shrunk(s0: State, slots: map<Key, nat>)
      requires Unmoved(s0, slots, s, g.slotOf)
      ensures Lay() == Left(LayoutOf(e, s0, slots), View().m.Keys)
    {
      ViewKeys(e, s, g, data[..]);
      LayoutShrinks(e, s0, slots, s, g.slotOf);
    }

    lemma RoomIsRoom(len: nat)
      requires Valid()
      ensures RoomFor(len) == FitsIn(e.c, DataArea(), Lay(), len)
    {
      InvSetup(e, s, g, Bits());
      hide Inv;
      if e.c.bitmap {
        RoomIsFit(e, s, g, Bits(), len);
      }
    }

    /** A set that finds its key: the entry is restamped before the new blocks are looked for. */
    method UpdateItem(index: nat, key: Key, val: seq<byte>, expires: nat, flags: Flags, now: nat)
      returns (ok: bool, ghost room: bool)
      requires Valid() && key in g.slotOf && g.slotOf[key] == index && index > 0 && 0 < |val| <= e.c.maxItemSize
      modifies this, bitmap, data
      ensures Valid() && room == old(FitsIn(e.c, DataArea(), Lay(), |val|))
      ensures old(key in View().m) && (View(), ok) == old(Update(e.c, View(), key, val, expires, flags, now, room))
      ensures !ok ==> Unmoved(old(s), old(g).slotOf, s, g.slotOf)
      ensures ok && e.c.bitmap ==> Lay() == old(Put(DataArea(), Lay(), key, |val|))
      ensures SubSlots(g.slotOf, old(g.slotOf))
    {
      hide Inv, Abs, Restamp, Rewrite, BB.Bits, BB.HasRoom, BB.BlocksFor, Offset, SizeLimit, Unmoved, LayoutOf, Put, FitsIn;
      RestampItem(index, key, expires, flags, now);
      SameLayout(e, old(s), s, g.slotOf);
      room := FitsIn(e.c, DataArea(), Lay(), |val|);
      RoomIsRoom(|val|);
      ghost var s1 := s;
      ok := RewriteItem(index, key, val, now);
      if !ok {
        UnmovedOn(old(s), old(g).slotOf, s1, old(g).slotOf, s, g.slotOf);
      }
    }

    /** `room` is what the allocator answers for the blocks of the keys left when the operation comes to need some. */
    method Set(key: Key, val: seq<byte>, expires: nat, flags: Flags, now: nat) returns (ok: bool, ghost room: bool)
      requires Valid() && e.c.maxItems > 0
      modifies this, bitmap, data
      ensures Valid()
      ensures (View(), ok) == old(CacheSpec.Set(e.c, View(), key, val, expires, flags, now, room))
      ensures room == old(Room(e.c, DataArea(), View(), Lay(), SetOp(key, val, expires, flags), now))
      ensures !ok ==> Unmoved(old(s), old(g).slotOf, s, g.slotOf)
      ensures ok && e.c.bitmap ==>
                Lay() == old(Put(DataArea(), Left(Lay(), BeforePlacing(e.c, View(), key, val, now).m.Keys), key, |val|))
      ensures SlotsAfterSet(e.c, g.slotOf, old(g.slotOf), key, ok)
    {
      hide Inv, Abs, Insert, Update, Remove, BB.Bits, BB.HasRoom, BB.BlocksFor, Offset, SizeLimit, Expired;
      hide Unmoved, LayoutOf, Put, FitsIn, Left, RoomMade, BeforePlacing;
      InvSetup(e, s, g, Bits());
      CountFacts(e, s, g, Bits(), data[..], key);
      room := Room(e.c, DataArea(), View(), Lay(), SetOp(key, val, expires, flags), now);
      StaysPut(s, g.slotOf, s);
      if |key| == 0 || |val| == 0 {
        return false, room;
      }
      if |key| > e.c.keysize {
        return false, room;
      }
      if |val| > e.c.maxItemSize {
        return false, room;
      }
      LeftForPlacing(e.c, View(), Lay(), key, val, now);
      var index := GetIndex(key, now);
      CountFacts(e, s, g, Bits(), data[..], key);
      Shrunk(old(s), old(g).slotOf);
      ghost var s1, g1 := s, g.slotOf;
      ghost var r := room;
      if index == 0 {
        ok, r := AddNew(key, val, expires, flags, now);
        if !ok {
          UnmovedOn(old(s), old(g).slotOf, s1, g1, s, g.slotOf);
        }
      } else if flags.update {
        ok, r := UpdateItem(index, key, val, expires, flags, now);
        if !ok {
          UnmovedOn(old(s), old(g).slotOf, s1, g1, s, g.slotOf);
        }
      } else {
        ok := false;
      }
    }

    // ----- whole runs

    method Do(op: Op, now: nat) returns (reply: Reply, ghost room: bool)
      requires Valid() && e.c.maxItems > 0 && IsCall(op)
      modifies this, bitmap, data
      ensures Valid()
      ensures (View(), reply) == old(Step(e.c, View(), Event(op, now, room)))
      ensures room == old(Room(e.c, DataArea(), View(), Lay(), op, now))
      ensures e.c.bitmap ==> Lay() == old(LayoutAfter(e.c, DataArea(), View(), Lay(), Event(op, now, room)))
      ensures SlotsAfterSet(e.c, g.slotOf, old(g.slotOf), op.key, op.SetOp?)
    {
      hide Inv, Abs, CacheSpec.Set, CacheSpec.Get, CacheSpec.Del, BB.Bits, Offset, SizeLimit;
      hide Unmoved, LayoutOf, Put, FitsIn, Left, BeforePlacing;
      room := true;
      ghost var ok := false;
      match op {
        case SetOp(k, v, x, f) =>
          var stored;
          stored, room := Set(k, v, x, f, now);
          ok := stored;
          reply := Stored(stored);
        case GetOp(k) =>
          var r := Get(k, now);
          reply := Found(r);
        case DelOp(k) =>
          var deleted := Del(k, now);
          reply := Deleted(deleted);
      }
      if !ok {
        Shrunk(old(s), old(g).slotOf);
        UnmovedSlots(old(s), old(g).slotOf, s, g.slotOf);
      }
    }

    /** Any sequence of operations is a run of the specification, reply by reply, with the allocator's answers as the layout
        of the values determines them. */
    method RunAll(ops: seq<(Op, nat)>) returns (replies: seq<Reply>, ghost evs: seq<Event>)
      requires Valid() && e.c.maxItems > 0 && AllCalls(ops)
      modifies this, bitmap, data
      ensures Valid()
      ensures Ran(e.c, DataArea(), old(View()), old(Lay()), ops, evs, View(), Lay())
      ensures Answered(e.c, old(View()), evs, replies)
      ensures Untouched(old(View()), old(g).slotOf, ops, View(), g.slotOf)
      ensures Sweeping(e.c) && RelativeOps(ops) ==> CoverageCarries(old(View()), old(g.slotOf), View(), g.slotOf)
    {
      hide Inv, Abs, Step, BB.Bits, Offset, SizeLimit, Covered, CoverageCarries, SlotsAfterSet, Ran, Answered, Run, Untouched;
      hide Room, LayoutAfter, LayoutOf, RelativeOps;
      replies, evs := [], [];
      ghost var a0, l0, slots0 := View(), Lay(), g.slotOf;
      RunNothing(e.c, DataArea(), View(), Lay(), g.slotOf);
      ViewKeys(e, s, g, data[..]);
      for i := 0 to |ops|
        invariant Valid()
        invariant Ran(e.c, DataArea(), a0, l0, ops[..i], evs, View(), Lay()) && Answered(e.c, a0, evs, replies)
        invariant Untouched(a0, slots0, ops[..i], View(), g.slotOf)
        invariant Sweeping(e.c) && RelativeOps(ops[..i]) ==> CoverageCarries(a0, slots0, View(), g.slotOf)
      {
        ghost var a, l, slots := View(), Lay(), g.slotOf;
        ViewKeys(e, s, g, data[..]);
        var reply;
        ghost var room;
        reply, room := Do(ops[i].0, ops[i].1);
        ViewKeys(e, s, g, data[..]);
        ghost var ev := Event(ops[i].0, ops[i].1, room);
        RanMore(e.c, DataArea(), a0, l0, ops[..i], evs, a, l, ev, View(), Lay());
        RanIsRun(e.c, DataArea(), a0, l0, ops[..i], evs, a, l);
        AnsweredMore(e.c, a0, evs, replies, ev, reply);
        assert ops[..i + 1] == ops[..i] + [(ev.op, ev.now)];
        UntouchedOn(e.c, a0, slots0, ops[..i], a, slots, ev, View(), g.slotOf);
        RelativePrefix(ops[..i], (ev.op, ev.now));
        if Sweeping(e.c) && RelativeOps(ops[..i + 1]) {
          StepCarries(e.c, a, slots, ev, g.slotOf);
          CarriesOn(a0, slots0, a, slots, View(), g.slotOf);
        }
        replies, evs := replies + [reply], evs + [ev];
      }
      assert ops[..|ops|] == ops;
    }

    // ----- the sweeper

    ghost predicate CoveredBelow(n: nat)
      reads this, data
    {
      forall k :: k in g.slotOf && g.slotOf[k] < n ==> Covered(View(), k)
    }

    /** One lock section of the sweeper, for slot `i`. */
    method SweepSlot(i: nat, now: nat)
      requires Valid() && 0 < i < e.c.maxItems
      modifies this, bitmap
      ensures Valid()
      ensures View() == old(Section(View(), KeyAt(i), i == 1, now))
      ensures Unmoved(old(s), old(g).slotOf, s, g.slotOf)
      ensures old(SlotKey(g.slotOf, i, KeyAt(i)))
      ensures old(i == 1 || CoveredBelow(i)) ==> CoveredBelow(i + 1)
    {
      hide Inv, Abs, Remove, Keep, BB.Bits, Offset, SizeLimit, Covered, SlotMeans, Unmoved, SlotKey;
      ghost var a, slots, k := View(), g.slotOf, KeyAt(i);
      InvSetup(e, s, g, Bits());
      ViewScan(e, s, g, data[..]);
      ViewKeys(e, s, g, data[..]);
      NoEmptyKey(e, s, g, Bits());
      SlotsInTable(e, s, g, Bits());
      SlotFacts(e, s, g, Bits(), data[..], i);
      SlotField(e, s, g, View(), i);
      KeyInSlot(e, s, g, Bits(), i);
      if i == 1 {
        RescanKeeps(e, s, g, Bits(), data[..], 0, now);
        s := s.(nextScan := 0);
      }
      StaysPut(old(s), slots, s);
      if s.items.expires[i] != 0 {
        if s.items.expires[i] <= now {
          ghost var before := s;
          DelSlot(i);
          UnmovedOn(old(s), slots, before, slots, s, g.slotOf);
        } else if s.nextScan == 0 || s.nextScan > s.items.expires[i] {
          RescanKeeps(e, s, g, Bits(), data[..], s.items.expires[i], now);
          s := s.(nextScan := s.items.expires[i]);
          StaysPut(old(s), slots, s);
        }
      }
      UnmovedSlots(old(s), slots, s, g.slotOf);
      SectionBelow(a, slots, k, i, now, View(), g.slotOf);
    }

    /** One stretch of a round: operations of other processes, then the lock section of a slot. */
    method SweepStretch(i: nat, now: nat, ops: seq<(Op, nat)>)
      returns (ghost key: Key, ghost held: map<Key, nat>, ghost evs: seq<Event>)
      requires Valid() && 0 < i < e.c.maxItems && AllCalls(ops)
      modifies this, bitmap, data
      ensures Valid()
      ensures Ran(e.c, DataArea(), old(View()), old(Lay()), ops + [(SweepOp(key, i == 1), now)], evs, View(), Lay())
      ensures SlotKey(held, i, key) && NotMoved(old(g.slotOf), ops, held) && SubSlots(g.slotOf, held)
      ensures |evs| == |ops| + 1 && held.Keys == Run(e.c, old(View()), evs[..|ops|]).m.Keys
      ensures Spared(old(View()), old(g).slotOf, ops, i, now, View(), g.slotOf)
      ensures Sweeping(e.c) && RelativeOps(ops) && (i == 1 || old(CoveredBelow(i))) ==> CoveredBelow(i + 1)
    {
      hide Inv, Abs, BB.Bits, Offset, SizeLimit, Covered, CoverageCarries, Section, SlotsAfterSet, Ran, Answered, Untouched, Unmoved;
      hide RelativeOps, LayoutOf, Left, Spared, SlotKey, NotMoved, Run;
      ghost var a, slots := View(), g.slotOf;
      var _, ran := RunAll(ops);
      if Sweeping(e.c) && RelativeOps(ops) && i > 1 && old(CoveredBelow(i)) {
        BelowCarries(a, slots, View(), g.slotOf, i);
        assert CoveredBelow(i);
      }
      ghost var b, m, s1 := View(), Lay(), s;
      key, held := KeyAt(i), g.slotOf;
      ViewKeys(e, s, g, data[..]);
      RanIsRun(e.c, DataArea(), a, old(Lay()), ops, ran, b, m);
      UntouchedSlots(a, slots, ops, b, held);
      SweepSlot(i, now);
      ViewKeys(e, s, g, data[..]);
      Shrunk(s1, held);
      UnmovedSlots(s1, held, s, g.slotOf);
      SweepEvent(e.c, DataArea(), b, m, key, i == 1, now, View(), Lay());
      evs := ran + [Event(SweepOp(key, i == 1), now, true)];
      assert evs[..|ops|] == ran;
      RanMore(e.c, DataArea(), a, old(Lay()), ops, ran, b, m, Event(SweepOp(key, i == 1), now, true), View(), Lay());
      SparedNext(a, slots, ops, b, held, key, i, now, View(), g.slotOf);
    }

    /** A whole round of the sweeper, with any operations of other processes running between its lock sections:
        `others[i]` before the section of slot i+1. It is a run of all those operations and sections, `keys[i]` being the key
        that sits in slot i+1 when its section comes. It spares only what is set meanwhile or not expired when its slot is
        looked at, and leaves every expiring entry covered if no operation sets an absolute expiry. */
    method SweepRound(clock: seq<nat>, others: seq<seq<(Op, nat)>>)
      returns (ghost keys: seq<Key>, ghost held: seq<map<Key, nat>>, ghost evs: seq<Event>)
      requires Valid() && e.c.maxItems > 0 && |clock| == |others| == e.c.maxItems - 1
      requires forall i :: 0 <= i < |others| ==> AllCalls(others[i])
      modifies this, bitmap, data
      ensures Valid() && |keys| == |others|
      ensures Ran(e.c, DataArea(), old(View()), old(Lay()), RoundOps(others, keys, clock), evs, View(), Lay())
      ensures Sections(e.c, old(View()), old(g.slotOf), others, keys, held, evs)
      ensures SurvivesRound(old(View()), old(g.slotOf), others, clock, View())
      ensures Sweeping(e.c) && (forall i :: 0 <= i < |others| ==> RelativeOps(others[i])) ==> AllCovered(View())
    {
      hide Inv, Abs, BB.Bits, Offset, SizeLimit, Covered, Ran, RelativeOps, LayoutOf, RoundOps, Spared, Survivors;
      hide Sections, SlotKey, NotMoved, Run, SubSlots;
      keys, held, evs := [], [], [];
      ghost var a0, l0, slots0 := View(), Lay(), g.slotOf;
      ViewKeys(e, s, g, data[..]);
      RoundStarts(e.c, DataArea(), a0, l0, slots0, others, clock);
      for i := 1 to e.c.maxItems
        invariant Valid() && |keys| == i - 1
        invariant Ran(e.c, DataArea(), a0, l0, RoundOps(others[..i - 1], keys, clock[..i - 1]), evs, View(), Lay())
        invariant Survivors(a0, slots0, others, clock, i, View(), g.slotOf)
        invariant Sections(e.c, a0, slots0, others[..i - 1], keys, held, evs) && SubSlots(g.slotOf, LastHeld(slots0, held))
        invariant Sweeping(e.c) && i > 1 && (forall j :: 0 <= j < i - 1 ==> RelativeOps(others[j])) ==> CoveredBelow(i)
      {
        ghost var a, l, slots := View(), Lay(), g.slotOf;
        ghost var key, slotsThen, more := SweepStretch(i, clock[i - 1], others[i - 1]);
        ViewKeys(e, s, g, data[..]);
        RoundGrows(others, keys, clock, i - 1, key);
        RanJoin(e.c, DataArea(), a0, l0, RoundOps(others[..i - 1], keys, clock[..i - 1]), evs, a, l,
                others[i - 1] + [(SweepOp(key, i == 1), clock[i - 1])], more, View(), Lay());
        SurvivorsOn(a0, slots0, others, clock, i, a, slots, View(), g.slotOf);
        RanIsRun(e.c, DataArea(), a0, l0, RoundOps(others[..i - 1], keys, clock[..i - 1]), evs, a, l);
        OneMoreSection(e.c, a0, slots0, others, keys, held, evs, slots, i - 1, key, slotsThen, more);
        keys, held, evs := keys + [key], held + [slotsThen], evs + more;
      }
      SlotsInTable(e, s, g, Bits());
      ViewKeys(e, s, g, data[..]);
      assert others[..|others|] == others && clock[..|clock|] == clock;
      SurvivorsAll(a0, slots0, others, clock, e.c.maxItems, View(), g.slotOf);
    }

    /** One wake-up of the sweeper: nothing when expiry is off or handled otherwise, or when no sweep is due. */
    method SweeperPass(noExpire: bool, now: nat, clock: seq<nat>, others: seq<seq<(Op, nat)>>)
      returns (swept: bool, ghost keys: seq<Key>, ghost held: seq<map<Key, nat>>, ghost evs: seq<Event>)
      requires Valid() && e.c.maxItems > 0 && |clock| == |others| == e.c.maxItems - 1
      requires forall i :: 0 <= i < |others| ==> AllCalls(others[i])
      modifies this, bitmap, data
      ensures Valid()
      ensures swept == (!noExpire && !e.c.purgeLru && !e.c.lazyExpire && 0 < old(View().nextScan) <= now)
      ensures !swept ==> View() == old(View()) && Lay() == old(Lay())
      ensures swept ==>
                && |keys| == |others| && SurvivesRound(old(View()), old(g.slotOf), others, clock, View())
                && Sections(e.c, old(View()), old(g.slotOf), others, keys, held, evs)
                && Ran(e.c, DataArea(), old(View()), old(Lay()), RoundOps(others, keys, clock), evs, View(), Lay())
      ensures swept && Sweeping(e.c) && (forall i :: 0 <= i < |others| ==> RelativeOps(others[i])) ==> AllCovered(View())
    {
      hide Inv, Abs, BB.Bits, Offset, SizeLimit, Covered, Ran, RelativeOps, AllCovered, RoundOps, SurvivesRound, LayoutOf, Sections;
      swept, keys, held, evs := false, [], [], [];
      if noExpire || e.c.purgeLru || e.c.lazyExpire {
        return;
      }
      ViewScan(e, s, g, data[..]);
      if s.nextScan == 0 || s.nextScan > now {
        return;
      }
      swept := true;
      keys, held, evs := SweepRound(clock, others);
    }

    ghost predicate RoomFor(len: nat)
      reads this, bitmap
    {
      e.c.bitmap ==> e.blocksize > 0 && HasRoomFor(Bits(), len)
    }
  }

  /** The stored expiry of a set, and the next sweep it asks for. */
  method Schedule(c: Config, scan: nat, expires: nat, flags: Flags, now: nat) returns (deadline: nat, nextScan: nat)
    ensures deadline == Deadline(c, expires, flags, now) && nextScan == Sooner(c, scan, expires, flags, now)
  {
    deadline, nextScan := expires, scan;
    if !c.purgeLru && expires != 0 && !flags.absExpire {
      deadline := expires + now;
      if nextScan == 0 || nextScan > deadline {
        nextScan := deadline;
      }
    }
  }

  /** Without a bitmap a live item sits in its own block, which is the place for any new value. */
  lemma OwnBlock(e: Env, s: State, g: Reading, bits: seq<bool>, index: nat, len: nat)
    requires Inv(e, s, g, bits) && IsLive(s.items.keys, index)
    ensures !e.c.bitmap && len <= e.c.maxItemSize ==>
              Placed(e.c, bits, bits, s.bitmapPos, index, s.items.firstBlock[index], len, e.blocksize, e.blocks)
  {
    hide IndexOk, Chained, Recent, RangesOk, FreeOk, Sized, DeadNeverExpires, Counted, BB.BlocksFor, BitsOk;
  }

  lemma CountFacts(e: Env, s: State, g: Reading, bits: seq<bool>, data: seq<byte>, key: Key)
    requires Inv(e, s, g, bits)
    ensures e.c.maxItems > 0
    ensures |Abs(e, s, g, data).m| == Capacity(e.c) <==> s.sp == 0
    ensures key in Abs(e, s, g, data).m <==> key in g.slotOf
    ensures e.c.bitmap ==> e.blocksize > 0
  {
    InvSetup(e, s, g, bits);
    SlotsInTable(e, s, g, bits);
    hide Inv, EntryAt, KeysOf;
  }

  lemma OffsetIs(fb: nat, bs: nat)
    ensures Offset(fb, bs) == fb * bs
  {
  }

  lemma AcceptableSize(c: Config, k: Key, v: seq<byte>)
    requires Acceptable(c, k, v)
    ensures 0 < |k| <= c.keysize && 0 < |v| <= c.maxItemSize
  {
  }

  /** The top of the unused stack is a free slot, and without a bitmap its own block is the place for the value. */
  lemma FreshSlot(e: Env, s: State, g: Reading, bits: seq<bool>, key: Key, len: nat)
    requires Inv(e, s, g, bits) && s.sp > 0
    ensures s.sp < |s.stack| && 0 < s.stack[s.sp] < e.c.maxItems && !IsLive(s.items.keys, s.stack[s.sp])
    ensures !e.c.bitmap && len <= e.c.maxItemSize ==>
              Placed(e.c, bits, bits, s.bitmapPos, s.stack[s.sp], s.stack[s.sp], len, e.blocksize, e.blocks)
  {
    hide IndexOk, Chained, Recent, AllocOk, Sized, DeadNeverExpires, Counted, BB.BlocksFor;
    FreePop(s.items.keys, s.stack, s.sp, [0]);
  }

  lemma BitmapFacts(e: Env, s: State, g: Reading, bits: seq<bool>)
    requires Inv(e, s, g, bits) && e.c.bitmap
    ensures e.blocksize > 0 && s.bitmapPos < e.blocks <= |bits|
  {
    hide FreeOk, IndexOk, Chained, Recent, Sized, DeadNeverExpires, Counted, SizeLimit, RangesOk, Owned;
    RangesShape(s.items.keys, s.items.firstBlock, s.items.valsize, e.blocksize, e.blocks);
  }

  /** What the scanner's answer means for the cache: a run it returns is free and below `blocks`. */
  lemma FitFacts(e: Env, s: State, g: Reading, bits: seq<bool>, len: nat, start: nat)
    requires Inv(e, s, g, bits) && e.c.bitmap && e.blocksize > 0 && len > 0 && |bits| < BB.NO_BLOCK
    requires BB.FirstFit(bits, s.bitmapPos, BB.BlocksFor(len, e.blocksize), start)
    ensures start == BB.NO_BLOCK <==> !BB.HasRoom(bits, s.bitmapPos, BB.BlocksFor(len, e.blocksize))
    ensures start != BB.NO_BLOCK ==>
              && BB.FreeRun(bits, start, BB.BlocksFor(len, e.blocksize))
              && start + BB.BlocksFor(len, e.blocksize) <= e.blocks
  {
    hide FreeOk, IndexOk, Chained, Recent, Sized, DeadNeverExpires, Counted, SizeLimit, RangesOk, BitsOk, BB.FreeRun, BB.PrefixEnd, Clear;
    BB.BlocksForBounds(len, e.blocksize);
    hide BB.BlocksFor;
    if start != BB.NO_BLOCK {
      RangesShape(s.items.keys, s.items.firstBlock, s.items.valsize, e.blocksize, e.blocks);
      FreeRunClear(bits, s.items.keys, s.items.firstBlock, s.items.valsize, e.blocksize, e.blocks, 0, start,
                   BB.BlocksFor(len, e.blocksize));
    }
  }

  /** A set moves no key to another slot; a key without a slot, or lazily dropped, may get a new one. */
  ghost predicate SlotsAfterSet(c: Config, slots: map<Key, nat>, before: map<Key, nat>, key: Key, ok: bool) {
    || SubSlots(slots, before)
    || (ok && (c.lazyExpire || key !in before) && SubSlots(slots - {key}, before))
  }

  /** The configurations the sweeper works in, with nothing else moving the scan time. */
  predicate Sweeping(c: Config) {
    c.maxItems > 0 && !c.purgeLru && !c.lazyExpire && c.sweepOnFull == 0
  }

  predicate AllCalls(ops: seq<(Op, nat)>) {
    forall i :: 0 <= i < |ops| ==> IsCall(ops[i].0)
  }

  /** No operation sets an absolute expiry. */
  predicate RelativeOps(ops: seq<(Op, nat)>) {
    forall i :: 0 <= i < |ops| ==> IsCall(ops[i].0) && (ops[i].0.SetOp? ==> !ops[i].0.flags.absExpire)
  }

  predicate SetIn(ops: seq<(Op, nat)>, k: Key) {
    exists i :: 0 <= i < |ops| && ops[i].0.SetOp? && ops[i].0.key == k
  }

  /** Each reply is the specification's, in the state the events before it lead to. */
  ghost predicate Answered(c: Config, a: Cache, evs: seq<Event>, replies: seq<Reply>)
    requires c.maxItems > 0
  {
    |replies| == |evs| && forall i :: 0 <= i < |evs| ==> replies[i] == Step(c, Run(c, a, evs[..i]), evs[i]).1
  }

  lemma AnsweredMore(c: Config, a: Cache, evs: seq<Event>, replies: seq<Reply>, ev: Event, reply: Reply)
    requires c.maxItems > 0 && Answered(c, a, evs, replies) && reply == Step(c, Run(c, a, evs), ev).1
    ensures Answered(c, a, evs + [ev], replies + [reply])
  {
    hide Step, Run;
    assert (evs + [ev])[..|evs|] == evs;
    assert forall i :: 0 <= i < |evs| ==> (evs + [ev])[..i] == evs[..i];
  }

  lemma RanIsRun(c: Config, ar: Area, a: Cache, l: Layout, ops: seq<(Op, nat)>, evs: seq<Event>, a': Cache, l': Layout)
    requires c.maxItems > 0 && Ran(c, ar, a, l, ops, evs, a', l')
    ensures a' == Run(c, a, evs) && |evs| == |ops|
  {
    hide Run, Allocated, RunLayout;
  }

  lemma RelativePrefix(ops: seq<(Op, nat)>, op: (Op, nat))
    ensures RelativeOps(ops + [op]) ==> RelativeOps(ops) && IsCall(op.0) && (op.0.SetOp? ==> !op.0.flags.absExpire)
  {
    if RelativeOps(ops + [op]) {
      assert forall i :: 0 <= i < |ops| ==> ops[i] == (ops + [op])[i];
      assert (ops + [op])[|ops|] == op;
    }
  }

  /** A key that is here and was not set was here before, in its slot, with its entry. */
  ghost predicate Untouched(a: Cache, slots: map<Key, nat>, ops: seq<(Op, nat)>, a': Cache, slots': map<Key, nat>) {
    forall k :: k in slots' && !SetIn(ops, k) ==> HasSlot(slots, k, slots'[k]) && k in a.m && k in a'.m && a'.m[k] == a.m[k]
  }

  lemma UntouchedSlots(a: Cache, slots: map<Key, nat>, ops: seq<(Op, nat)>, a': Cache, slots': map<Key, nat>)
    requires Untouched(a, slots, ops, a', slots')
    ensures NotMoved(slots, ops, slots')
  {
    hide SetIn;
  }

  lemma SetInMore(ops: seq<(Op, nat)>, ops': seq<(Op, nat)>, k: Key)
    ensures SetIn(ops + ops', k) <==> SetIn(ops, k) || SetIn(ops', k)
  {
    var all := ops + ops';
    if SetIn(ops, k) {
      var i :| 0 <= i < |ops| && ops[i].0.SetOp? && ops[i].0.key == k;
      assert all[i] == ops[i];
    }
    if SetIn(ops', k) {
      var i :| 0 <= i < |ops'| && ops'[i].0.SetOp? && ops'[i].0.key == k;
      assert all[|ops| + i] == ops'[i];
    }
    if SetIn(all, k) {
      var i :| 0 <= i < |all| && all[i].0.SetOp? && all[i].0.key == k;
      assert if i < |ops| then all[i] == ops[i] else all[i] == ops'[i - |ops|];
    }
  }

  lemma UntouchedOn(c: Config, a0: Cache, slots0: map<Key, nat>, ops: seq<(Op, nat)>, a: Cache, slots: map<Key, nat>, ev: Event,
                    a': Cache, slots': map<Key, nat>)
    requires c.maxItems > 0 && Untouched(a0, slots0, ops, a, slots) && a' == Step(c, a, ev).0 && slots'.Keys == a'.m.Keys
    requires SlotsAfterSet(c, slots', slots, ev.op.key, ev.op.SetOp?)
    ensures Untouched(a0, slots0, ops + [(ev.op, ev.now)], a', slots')
  {
    hide Step, SetIn;
    forall k | k in slots' && !SetIn(ops + [(ev.op, ev.now)], k)
      ensures HasSlot(slots0, k, slots'[k]) && k in a0.m && k in a'.m && a'.m[k] == a0.m[k]
    {
      SetInMore(ops, [(ev.op, ev.now)], k);
      OnlySet((ev.op, ev.now), k);
      StepKeepsEntry(c, a, ev, k);
      if !SubSlots(slots', slots) {
        assert k in slots' - {ev.op.key};
      }
    }
  }

  lemma OnlySet(op: (Op, nat), k: Key)
    ensures SetIn([op], k) <==> op.0.SetOp? && op.0.key == k
  {
    assert [op][0] == op;
  }

  /** The key a slot holds, [] when it is unused. */
  ghost predicate SlotKey(slots: map<Key, nat>, i: nat, key: Key) {
    && [] !in slots && (key != [] ==> HasSlot(slots, key, i))
    && forall k :: k in slots && slots[k] == i ==> k == key
  }

  lemma KeyInSlot(e: Env, s: State, g: Reading, bits: seq<bool>, i: nat)
    requires Inv(e, s, g, bits) && 0 < i < e.c.maxItems
    ensures SlotKey(g.slotOf, i, At(s.items.keys, i, []))
  {
    hide FreeOk, Chained, Recent, AllocOk, Sized, DeadNeverExpires, Counted, SizeLimit;
  }

  /** A key that was not set sits where it sat. */
  ghost predicate NotMoved(slots: map<Key, nat>, ops: seq<(Op, nat)>, slots': map<Key, nat>) {
    forall k :: k in slots' && !SetIn(ops, k) ==> HasSlot(slots, k, slots'[k])
  }

  /** After a stretch of a round, a key that was not set is as it was, and if its slot had its section, it was not expired. */
  ghost predicate Spared(a: Cache, slots: map<Key, nat>, ops: seq<(Op, nat)>, i: nat, now: nat, a': Cache, slots': map<Key, nat>) {
    && Untouched(a, slots, ops, a', slots')
    && forall k :: k in slots' && !SetIn(ops, k) && slots'[k] == i ==> k in a'.m && !Expired(a'.m[k], now)
  }

  lemma SparedNext(a: Cache, slots: map<Key, nat>, ops: seq<(Op, nat)>, b: Cache, held: map<Key, nat>, key: Key, i: nat, now: nat,
                   a': Cache, slots': map<Key, nat>)
    requires Untouched(a, slots, ops, b, held) && a' == Section(b, key, i == 1, now) && slots'.Keys == a'.m.Keys
    requires SubSlots(slots', held) && SlotKey(held, i, key) && held.Keys == b.m.Keys
    ensures Spared(a, slots, ops, i, now, a', slots')
  {
    hide Section, SetIn;
    forall k | k in slots' && !SetIn(ops, k)
      ensures HasSlot(slots, k, slots'[k]) && k in a.m && k in a'.m && a'.m[k] == a.m[k]
      ensures slots'[k] == i ==> !Expired(a'.m[k], now)
    {
      SectionRemovesOnlyExpired(b, key, i == 1, now, k);
    }
  }

  lemma SweepEvent(c: Config, ar: Area, a: Cache, l: Layout, key: Key, first: bool, now: nat, a': Cache, l': Layout)
    requires c.maxItems > 0 && a' == Section(a, key, first, now) && l' == Left(l, a'.m.Keys)
    ensures var ev := Event(SweepOp(key, first), now, true);
            Room(c, ar, a, l, ev.op, now) && a' == Step(c, a, ev).0 && l' == LayoutAfter(c, ar, a, l, ev)
  {
    hide Section, Left;
  }

  // ----- a round of the sweeper

  /** All operations of a round in order: those of others, and after each lot the section of the next slot. */
  ghost function RoundOps(others: seq<seq<(Op, nat)>>, keys: seq<Key>, clock: seq<nat>): seq<(Op, nat)>
    requires |others| == |keys| == |clock|
  {
    if others == [] then []
    else
      var n := |others| - 1;
      RoundOps(others[..n], keys[..n], clock[..n]) + (others[n] + [(SweepOp(keys[n], n == 0), clock[n])])
  }

  lemma RoundGrows(others: seq<seq<(Op, nat)>>, keys: seq<Key>, clock: seq<nat>, n: nat, key: Key)
    requires |keys| == n < |others| == |clock|
    ensures RoundOps(others[..n + 1], keys + [key], clock[..n + 1]) ==
            RoundOps(others[..n], keys, clock[..n]) + (others[n] + [(SweepOp(key, n == 0), clock[n])])
  {
    assert others[..n + 1][..n] == others[..n] && clock[..n + 1][..n] == clock[..n] && (keys + [key])[..n] == keys;
  }

  ghost predicate SetBy(others: seq<seq<(Op, nat)>>, k: Key) {
    exists i :: 0 <= i < |others| && SetIn(others[i], k)
  }

  /** How many events of a round come before the section of slot j+1. */
  ghost function SectionAt(others: seq<seq<(Op, nat)>>, j: nat): nat
    requires j < |others|
  {
    |others[j]| + if j == 0 then 0 else SectionAt(others, j - 1) + 1
  }

  /** A section finds its key in its slot, where the keys of the map then sit; no key has moved since the section before but
      those the operations in between set. */
  ghost predicate Meets(c: Config, a: Cache, before: map<Key, nat>, ops: seq<(Op, nat)>, slot: nat, key: Key, held: map<Key, nat>,
                        evs: seq<Event>, at: nat)
    requires c.maxItems > 0
  {
    && SlotKey(held, slot, key) && NotMoved(before, ops, held)
    && at < |evs| && held.Keys == Run(c, a, evs[..at]).m.Keys
  }

  /** `held[j]` says where the keys of the map sit when the section of slot j+1 comes, and `keys[j]` is the key in that slot. */
  ghost predicate Sections(c: Config, a: Cache, slots: map<Key, nat>, others: seq<seq<(Op, nat)>>, keys: seq<Key>,
                           held: seq<map<Key, nat>>, evs: seq<Event>)
    requires c.maxItems > 0
  {
    && |keys| == |held| == |others| && |evs| == (if others == [] then 0 else SectionAt(others, |others| - 1) + 1)
    && forall j :: 0 <= j < |held| ==>
         Meets(c, a, LastHeld(slots, held[..j]), others[j], j + 1, keys[j], held[j], evs, SectionAt(others, j))
  }

  ghost function LastHeld(slots: map<Key, nat>, held: seq<map<Key, nat>>): map<Key, nat> {
    if held == [] then slots else held[|held| - 1]
  }

  lemma {:induction false} SectionPrefix(others: seq<seq<(Op, nat)>>, n: nat, j: nat)
    requires j < n <= |others|
    ensures SectionAt(others[..n], j) == SectionAt(others, j)
  {
    if j > 0 {
      SectionPrefix(others, n, j - 1);
    }
  }

  lemma MetEarlier(c: Config, a: Cache, before: map<Key, nat>, ops: seq<(Op, nat)>, slot: nat, key: Key, held: map<Key, nat>,
                   evs: seq<Event>, at: nat, more: seq<Event>)
    requires c.maxItems > 0 && Meets(c, a, before, ops, slot, key, held, evs, at)
    ensures Meets(c, a, before, ops, slot, key, held, evs + more, at)
  {
    hide SlotKey, NotMoved, Run;
    assert (evs + more)[..at] == evs[..at];
  }

  lemma MetNow(c: Config, a0: Cache, before: map<Key, nat>, evs: seq<Event>, slots: map<Key, nat>, ops: seq<(Op, nat)>, slot: nat,
               key: Key, held: map<Key, nat>, more: seq<Event>)
    requires c.maxItems > 0 && SubSlots(slots, before) && SlotKey(held, slot, key) && NotMoved(slots, ops, held)
    requires |more| == |ops| + 1 && held.Keys == Run(c, Run(c, a0, evs), more[..|ops|]).m.Keys
    ensures Meets(c, a0, before, ops, slot, key, held, evs + more, |evs| + |ops|)
  {
    hide SlotKey, Run, SetIn;
    assert (evs + more)[..|evs| + |ops|] == evs + more[..|ops|];
    RunTwice(c, a0, evs, more[..|ops|]);
  }

  /** The section of slot n+1 comes after all earlier events and the operations before it. */
  lemma SectionEnds(others: seq<seq<(Op, nat)>>, n: nat, length: nat)
    requires n < |others| && length == if others[..n] == [] then 0 else SectionAt(others[..n], n - 1) + 1
    ensures SectionAt(others[..n + 1], n) == length + |others[n]|
  {
    SectionPrefix(others, n + 1, n);
    if n > 0 {
      SectionPrefix(others, n, n - 1);
    }
  }

  lemma EarlierSection(c: Config, a: Cache, slots: map<Key, nat>, others: seq<seq<(Op, nat)>>, keys: seq<Key>,
                       held: seq<map<Key, nat>>, evs: seq<Event>, n: nat, j: nat, key: Key, last: map<Key, nat>, more: seq<Event>)
    requires c.maxItems > 0 && j < n < |others| && Sections(c, a, slots, others[..n], keys, held, evs)
    ensures Meets(c, a, LastHeld(slots, (held + [last])[..j]), others[..n + 1][j], j + 1, (keys + [key])[j], (held + [last])[j],
                  evs + more, SectionAt(others[..n + 1], j))
  {
    hide Run, SlotKey, Meets, NotMoved, LastHeld, SectionAt;
    SectionPrefix(others, n + 1, j);
    SectionPrefix(others, n, j);
    assert (held + [last])[..j] == held[..j];
    MetEarlier(c, a, LastHeld(slots, held[..j]), others[..n][j], j + 1, keys[j], held[j], evs, SectionAt(others[..n], j), more);
  }

  lemma OneMoreSection(c: Config, a0: Cache, slots0: map<Key, nat>, others: seq<seq<(Op, nat)>>, keys: seq<Key>,
                       held: seq<map<Key, nat>>, evs: seq<Event>, slots: map<Key, nat>, n: nat, key: Key, slotsThen: map<Key, nat>,
                       more: seq<Event>)
    requires c.maxItems > 0 && n < |others| && Sections(c, a0, slots0, others[..n], keys, held, evs)
    requires SubSlots(slots, LastHeld(slots0, held)) && SlotKey(slotsThen, n + 1, key) && NotMoved(slots, others[n], slotsThen)
    requires |more| == |others[n]| + 1 && slotsThen.Keys == Run(c, Run(c, a0, evs), more[..|others[n]|]).m.Keys
    ensures Sections(c, a0, slots0, others[..n + 1], keys + [key], held + [slotsThen], evs + more)
  {
    hide Run, SlotKey, SetIn, Meets, NotMoved, LastHeld, SubSlots, SectionAt;
    var os, ks, hs, all := others[..n + 1], keys + [key], held + [slotsThen], evs + more;
    SectionEnds(others, n, |evs|);
    MetNow(c, a0, LastHeld(slots0, held), evs, slots, others[n], n + 1, key, slotsThen, more);
    assert hs[..n] == held && os[n] == others[n];
    forall j | 0 <= j < |hs|
      ensures Meets(c, a0, LastHeld(slots0, hs[..j]), os[j], j + 1, ks[j], hs[j], all, SectionAt(os, j))
    {
      if j < n {
        EarlierSection(c, a0, slots0, others, keys, held, evs, n, j, key, slotsThen, more);
      }
    }
  }

  lemma {:induction false} RunTwice(c: Config, a: Cache, evs: seq<Event>, more: seq<Event>)
    requires c.maxItems > 0
    ensures Run(c, a, evs + more) == Run(c, Run(c, a, evs), more)
  {
    hide Step;
    if more == [] {
      assert evs + more == evs;
    } else {
      var n := |more| - 1;
      RunTwice(c, a, evs, more[..n]);
      assert (evs + more)[..|evs| + n] == evs + more[..n];
    }
  }

  /** What is still there after a round and was not set meanwhile was there before, unchanged, and not expired when the section
      of its slot came. */
  ghost predicate SurvivesRound(a: Cache, slots: map<Key, nat>, others: seq<seq<(Op, nat)>>, clock: seq<nat>, a': Cache) {
    forall k :: k in a'.m && !SetBy(others, k) ==>
      && k in a.m && a'.m[k] == a.m[k]
      && k in slots && 0 < slots[k] <= |clock| && !Expired(a.m[k], clock[slots[k] - 1])
  }

  /** The same before the section of slot i: sections had their turn for the slots below. */
  ghost predicate Survivors(a: Cache, slots: map<Key, nat>, others: seq<seq<(Op, nat)>>, clock: seq<nat>, i: nat, a': Cache,
                            slots': map<Key, nat>) {
    && slots'.Keys == a'.m.Keys
    && i > 0 && i - 1 <= |others| == |clock|
    && forall k :: k in slots' && !SetBy(others[..i - 1], k) ==>
         && HasSlot(slots, k, slots'[k]) && k in a.m && a'.m[k] == a.m[k]
         && (0 < slots'[k] < i ==> !Expired(a.m[k], clock[slots'[k] - 1]))
  }

  lemma RoundStarts(c: Config, ar: Area, a: Cache, l: Layout, slots: map<Key, nat>, others: seq<seq<(Op, nat)>>, clock: seq<nat>)
    requires c.maxItems > 0 && slots.Keys == a.m.Keys && |others| == |clock|
    ensures Ran(c, ar, a, l, RoundOps(others[..0], [], clock[..0]), [], a, l)
    ensures Survivors(a, slots, others, clock, 1, a, slots)
    ensures Sections(c, a, slots, others[..0], [], [], []) && SubSlots(slots, LastHeld(slots, []))
  {
    RanNothing(c, ar, a, l);
    hide Ran;
    assert RoundOps(others[..0], [], clock[..0]) == [];
  }

  lemma SetByMore(others: seq<seq<(Op, nat)>>, i: nat, k: Key)
    requires 0 < i <= |others| && !SetBy(others[..i], k)
    ensures !SetBy(others[..i - 1], k) && !SetIn(others[i - 1], k)
  {
    hide SetIn;
    assert others[..i][i - 1] == others[i - 1];
    assert forall j :: 0 <= j < i - 1 ==> others[..i - 1][j] == others[..i][j];
  }

  lemma SurvivorsOn(a0: Cache, slots0: map<Key, nat>, others: seq<seq<(Op, nat)>>, clock: seq<nat>, i: nat, a: Cache,
                    slots: map<Key, nat>, a': Cache, slots': map<Key, nat>)
    requires Survivors(a0, slots0, others, clock, i, a, slots) && i - 1 < |others| && slots'.Keys == a'.m.Keys
    requires Spared(a, slots, others[i - 1], i, clock[i - 1], a', slots')
    ensures Survivors(a0, slots0, others, clock, i + 1, a', slots')
  {
    hide SetIn, SetBy, Expired;
    forall k | k in slots' && !SetBy(others[..i], k)
      ensures HasSlot(slots0, k, slots'[k]) && k in a0.m && a'.m[k] == a0.m[k]
      ensures 0 < slots'[k] < i + 1 ==> !Expired(a0.m[k], clock[slots'[k] - 1])
    {
      SetByMore(others, i, k);
    }
  }

  lemma SurvivorsAll(a: Cache, slots: map<Key, nat>, others: seq<seq<(Op, nat)>>, clock: seq<nat>, i: nat, a': Cache,
                     slots': map<Key, nat>)
    requires Survivors(a, slots, others, clock, i, a', slots') && i - 1 == |others|
    requires forall k :: k in slots' ==> 0 < slots'[k] < i
    ensures SurvivesRound(a, slots, others, clock, a')
  {
    hide SetBy;
    assert others[..i - 1] == others;
  }

  /** Every key now present is covered, or sits where it sat before and is covered if it was. */
  ghost predicate CoverageCarries(a: Cache, slots: map<Key, nat>, a': Cache, slots': map<Key, nat>) {
    forall k :: k in slots' ==>
      || Covered(a', k)
      || (HasSlot(slots, k, slots'[k]) && !Covered(a, k))
  }

  lemma RunNothing(c: Config, ar: Area, a: Cache, l: Layout, slots: map<Key, nat>)
    requires c.maxItems > 0
    ensures Ran(c, ar, a, l, [], [], a, l) && Answered(c, a, [], []) && CoverageCarries(a, slots, a, slots)
    ensures slots.Keys == a.m.Keys ==> Untouched(a, slots, [], a, slots)
  {
  }

  lemma StepCarries(c: Config, a: Cache, slots: map<Key, nat>, ev: Event, slots': map<Key, nat>)
    requires Sweeping(c) && RelativeOnly(ev) && slots.Keys == a.m.Keys
    requires SlotsAfterSet(c, slots', slots, ev.op.key, ev.op.SetOp?)
    ensures CoverageCarries(a, slots, Step(c, a, ev).0, slots')
  {
    hide Step, Covered, RelativeOnly;
    forall k | k in slots' ensures Covered(Step(c, a, ev).0, k) || (HasSlot(slots, k, slots'[k]) && !Covered(a, k)) {
      if Covered(a, k) || k !in a.m {
        StepCovers(c, a, ev, k);
      } else if !SubSlots(slots', slots) {
        assert k in slots' - {ev.op.key};
      }
    }
  }

  lemma BelowCarries(a: Cache, slots: map<Key, nat>, a': Cache, slots': map<Key, nat>, n: nat)
    requires CoverageCarries(a, slots, a', slots')
    requires forall k :: k in slots && slots[k] < n ==> Covered(a, k)
    ensures forall k :: k in slots' && slots'[k] < n ==> Covered(a', k)
  {
    hide Covered;
  }

  lemma SlotField(e: Env, s: State, g: Reading, a: Cache, i: nat)
    requires SlotMeans(e, s, g, a, i)
    ensures var k, x := At(s.items.keys, i, []), At(s.items.expires, i, 0);
            && (k == [] ==> x == 0) && (k != [] ==> k in a.m && a.m[k].expires == x)
            && forall k' :: k' in g.slotOf && g.slotOf[k'] == i ==> k' == k
  {
  }

  lemma SectionBelow(a: Cache, slots: map<Key, nat>, k: Key, i: nat, now: nat, a': Cache, slots': map<Key, nat>)
    requires a' == Section(a, k, i == 1, now) && slots.Keys == a.m.Keys && SubSlots(slots', slots)
    requires forall k' :: k' in slots ==> slots[k'] > 0 && (slots[k'] == i ==> k' == k)
    ensures i == 1 || (forall k' :: k' in slots && slots[k'] < i ==> Covered(a, k')) ==>
              forall k' :: k' in slots' && slots'[k'] < i + 1 ==> Covered(a', k')
  {
    hide Covered, Section;
    forall k' | k' in slots' && slots'[k'] < i + 1 && (i == 1 || k' == k || Covered(a, k')) && (i == 1 ==> k' == k)
      ensures Covered(a', k')
    {
      SectionCovers(a, k, i == 1, now, k');
    }
  }

  lemma CarriesOn(a: Cache, slots: map<Key, nat>, a': Cache, slots': map<Key, nat>, a'': Cache, slots'': map<Key, nat>)
    requires CoverageCarries(a, slots, a', slots') && CoverageCarries(a', slots', a'', slots'')
    ensures CoverageCarries(a, slots, a'', slots'')
  {
    hide Covered;
  }

  lemma ViewKeys(e: Env, s: State, g: Reading, data: seq<byte>)
    ensures Abs(e, s, g, data).m.Keys == g.slotOf.Keys
  {
    hide KeysOf, EntryAt;
  }

  lemma ViewScan(e: Env, s: State, g: Reading, data: seq<byte>)
    ensures Abs(e, s, g, data).nextScan == s.nextScan
  {
    hide View, KeysOf;
  }

  lemma OldestSlot(e: Env, s: State, g: Reading, bits: seq<bool>, data: seq<byte>)
    requires Inv(e, s, g, bits)
    ensures var a := Abs(e, s, g, data);
            e.c.purgeLru ==>
              && (s.recency.head == 0 <==> a.lru == [])
              && (a.lru != [] ==> 0 < s.recency.head < e.c.maxItems && At(s.items.keys, s.recency.head, []) == a.lru[0] != [])
  {
    hide FreeOk, IndexOk, Chained, AllocOk, Sized, DeadNeverExpires, Counted, SizeLimit, EntryAt, View;
  }

  lemma RescanKeeps(e: Env, s: State, g: Reading, bits: seq<bool>, data: seq<byte>, t: nat, now: nat)
    requires Inv(e, s, g, bits)
    ensures Inv(e, s.(nextScan := t), g, bits)
    ensures Abs(e, s.(nextScan := t), g, data) == Abs(e, s, g, data).(nextScan := t)
    ensures ExpiredKeys(Abs(e, s, g, data).(nextScan := t), now) == ExpiredKeys(Abs(e, s, g, data), now)
  {
    hide FreeOk, IndexOk, ChainsOk, Recent, AllocOk, Sized, DeadNeverExpires, Counted, SizeLimit, View, KeysOf;
  }

  ghost function KeysBelow(slots: map<Key, nat>, i: nat): set<Key> {
    set k | k in slots && slots[k] < i
  }

  lemma NoneBelow(e: Env, s: State, g: Reading, bits: seq<bool>, data: seq<byte>)
    requires Inv(e, s, g, bits) && |data| == Offset(e.blocks, e.blocksize)
    ensures var a := Abs(e, s, g, data);
            KeysBelow(g.slotOf, 1) == {} && Remove(a, {}) == a && g.slotOf - {} == g.slotOf
  {
    hide Inv, Abs, Remove, Offset;
    SlotsInTable(e, s, g, bits);
    AbsWellFormed(e, s, g, bits, data);
    RemoveNothing(e.c, Abs(e, s, g, data));
  }

  lemma EveryoneBelow(e: Env, s: State, g: Reading, bits: seq<bool>, data: seq<byte>)
    requires Inv(e, s, g, bits)
    ensures var a := Abs(e, s, g, data);
            && Remove(a, KeysBelow(g.slotOf, e.c.maxItems)) == a.(m := map[], lru := [])
            && g.slotOf - KeysBelow(g.slotOf, e.c.maxItems) == map[]
  {
    hide Inv, KeysOf, EntryAt, Remove;
    SlotsInTable(e, s, g, bits);
    assert KeysBelow(g.slotOf, e.c.maxItems) == g.slotOf.Keys;
    RemoveAll(Abs(e, s, g, data), g.slotOf.Keys);
  }

  lemma KeysNext(e: Env, s: State, g: Reading, now_: Cache, a: Cache, slots: map<Key, nat>, i: nat)
    requires SlotMeans(e, s, g, now_, i) && [] !in slots
    requires now_ == Remove(a, KeysBelow(slots, i)) && g.slotOf == slots - KeysBelow(slots, i)
    ensures var gone, k := KeysBelow(slots, i), At(s.items.keys, i, []);
            && DropKey(now_, k) == Remove(a, KeysBelow(slots, i + 1))
            && g.slotOf - {k} == slots - KeysBelow(slots, i + 1)
  {
    hide Keep, Remove;
    var gone, k := KeysBelow(slots, i), At(s.items.keys, i, []);
    RemoveTwice(a, gone, {k});
    forall k' | k' in slots && slots[k'] == i ensures k' !in gone && k' in g.slotOf && k' == k {
      assert k' !in gone && k' in slots - gone;
      assert k' in g.slotOf && g.slotOf[k'] == i;
    }
    assert KeysBelow(slots, i + 1) == if k == [] then gone else gone + {k};
  }

  /** The keys of slots 1..i-1 whose entries are expired. */
  ghost function ExpiredBelow(a: Cache, slots: map<Key, nat>, i: nat, now: nat): set<Key> {
    set k | k in slots && slots[k] < i && k in a.m && Expired(a.m[k], now)
  }

  lemma NothingBelow(e: Env, s: State, g: Reading, bits: seq<bool>, data: seq<byte>, now: nat)
    requires Inv(e, s, g, bits) && |data| == Offset(e.blocks, e.blocksize)
    ensures var a := Abs(e, s, g, data);
            ExpiredBelow(a, g.slotOf, 1, now) == {} && Remove(a, {}) == a && g.slotOf - {} == g.slotOf
  {
    hide Inv, Abs, Remove, Offset;
    SlotsInTable(e, s, g, bits);
    AbsWellFormed(e, s, g, bits, data);
    RemoveNothing(e.c, Abs(e, s, g, data));
  }

  lemma AllBelow(e: Env, s: State, g: Reading, bits: seq<bool>, data: seq<byte>, now: nat)
    requires Inv(e, s, g, bits)
    ensures var a := Abs(e, s, g, data); ExpiredBelow(a, g.slotOf, e.c.maxItems, now) == ExpiredKeys(a, now)
  {
    hide Inv, KeysOf, EntryAt;
    SlotsInTable(e, s, g, bits);
  }

  /** The sweep's step: slot i holds an expired key exactly when its expiry field says so. */
  lemma ExpiredNext(e: Env, s: State, g: Reading, now_: Cache, a: Cache, slots: map<Key, nat>, i: nat, now: nat)
    requires SlotMeans(e, s, g, now_, i) && [] !in slots
    requires now_ == Remove(a, ExpiredBelow(a, slots, i, now)) && g.slotOf == slots - ExpiredBelow(a, slots, i, now)
    ensures var gone, k := ExpiredBelow(a, slots, i, now), At(s.items.keys, i, []);
            if 0 < At(s.items.expires, i, 0) <= now
            then k != [] && ExpiredBelow(a, slots, i + 1, now) == gone + {k} != {}
                 && Remove(now_, {k}) == Remove(a, gone + {k}) && g.slotOf - {k} == slots - (gone + {k})
            else ExpiredBelow(a, slots, i + 1, now) == gone
  {
    hide Keep;
    var gone, k := ExpiredBelow(a, slots, i, now), At(s.items.keys, i, []);
    RemoveTwice(a, gone, {k});
    forall k' | k' in slots && slots[k'] == i ensures k' !in gone && k' in g.slotOf && k' == k {
      assert k' !in gone && k' in slots - gone;
      assert k' in g.slotOf && g.slotOf[k'] == i;
    }
    assert k in gone + {k};
  }

  lemma NotFound(e: Env, s: State, g: Reading, bits: seq<bool>, data: seq<byte>, key: Key)
    requires Inv(e, s, g, bits)
    ensures key !in g.slotOf ==> key !in Abs(e, s, g, data).m
  {
    hide Inv, KeysOf, EntryAt;
  }

  /** The bytes of an entry are where its header says, inside the data area. */
  lemma EntryFacts(e: Env, s: State, g: Reading, bits: seq<bool>, data: seq<byte>, key: Key)
    requires Inv(e, s, g, bits) && key in g.slotOf && |data| == Offset(e.blocks, e.blocksize)
    ensures var it, i := s.items, g.slotOf[key];
            && 0 < i < e.c.maxItems && Shaped(it, e.c.maxItems) && it.keys[i] == key && key != []
            && it.firstBlock[i] * e.blocksize + it.valsize[i] <= |data|
            && key in Abs(e, s, g, data).m
            && Abs(e, s, g, data).m[key] == Entry(data[it.firstBlock[i] * e.blocksize..it.firstBlock[i] * e.blocksize + it.valsize[i]],
                                                  it.expires[i], !it.ungettable[i])
  {
    hide FreeOk, Chained, Recent, AllocOk, Sized, DeadNeverExpires, Counted, SizeLimit, KeysOf, BB.BlocksFor;
    var i := g.slotOf[key];
    RangeOf(e.c, bits, s.bitmapPos, s.items.keys, s.items.firstBlock, s.items.valsize, e.blocksize, e.blocks, i);
    BlocksInData(s.items.firstBlock[i], s.items.valsize[i], e.blocksize, e.blocks);
  }

  /** Every slot but 0 starts on the unused stack. */
  method InitStack(n: nat) returns (stack: seq<nat>, sp: nat)
    requires n > 0
    ensures |stack| == n && sp == n - 1 && forall i :: 0 <= i < n ==> stack[i] == i
  {
    stack := seq(n, _ => 0);
    sp := 0;
    for i := 1 to n
      invariant |stack| == n && sp == i - 1 && forall j :: 0 <= j < i ==> stack[j] == j
    {
      sp := sp + 1;
      stack := stack[sp := i];
    }
  }

  function Zeros(n: nat): (z: seq<nat>)
    ensures |z| == n && forall i :: 0 <= i < n ==> z[i] == 0
  {
    seq(n, _ => 0)
  }

  function EmptyState(e: Env, stack: seq<nat>, sp: nat): State {
    var n := e.c.maxItems;
    State(Items(seq(n, _ => []), Zeros(n), Zeros(n), Zeros(n), Zeros(n), seq(n, _ => false), Zeros(n), Zeros(n)),
          Zeros(e.hashsize), stack, sp, 0, 0, Recency(0, 0, Zeros(n), Zeros(n)), 0)
  }

  function EmptyReading(e: Env): Reading {
    Reading(seq(e.hashsize, _ => []), [], map[])
  }

  lemma EmptyHolds(e: Env, stack: seq<nat>, bits: seq<bool>, data: seq<byte>)
    requires Setup(e) && |stack| == e.c.maxItems && forall i :: 0 <= i < e.c.maxItems ==> stack[i] == i
    requires e.blocks <= |bits| && forall b :: 0 <= b < |bits| ==> (bits[b] <==> b >= e.blocks)
    ensures Inv(e, EmptyState(e, stack, e.c.maxItems - 1), EmptyReading(e), bits)
    ensures Abs(e, EmptyState(e, stack, e.c.maxItems - 1), EmptyReading(e), data) == EMPTY
  {
    hide Bucket, BB.BlocksFor, SizeLimit;
    var s, g := EmptyState(e, stack, e.c.maxItems - 1), EmptyReading(e);
    var f := FreeSlots(stack, e.c.maxItems - 1);
    assert forall j :: 0 <= j < |f| ==> f[j] == j + 1;
    forall i: nat ensures i in f <==> 0 < i < e.c.maxItems {
      if 0 < i < e.c.maxItems { assert f[i - 1] == i; }
    }
    assert forall i: nat :: !IsLive(s.items.keys, i);
  }

  ghost predicate HasSlot(slots: map<Key, nat>, key: Key, index: nat) {
    key in slots && slots[key] == index
  }

  ghost function DropKey(a: Cache, k: Key): Cache {
    if k == [] then a else Remove(a, {k})
  }

  lemma NoEmptyKey(e: Env, s: State, g: Reading, bits: seq<bool>)
    requires Inv(e, s, g, bits)
    ensures [] !in g.slotOf && g.slotOf - {[]} == g.slotOf
  {
    hide FreeOk, Chained, Recent, AllocOk, Sized, DeadNeverExpires, Counted, SizeLimit;
  }

  lemma BlocksHeld(e: Env, s: State, g: Reading, bits: seq<bool>, index: nat)
    requires Inv(e, s, g, bits) && IsLive(s.items.keys, index)
    ensures var it := s.items;
            && index < |it.firstBlock| == |it.valsize| && e.blocksize > 0 && it.valsize[index] > 0
            && it.firstBlock[index] + BB.BlocksFor(it.valsize[index], e.blocksize) <= e.blocks
  {
    hide FreeOk, IndexOk, Chained, Recent, AllocOk, Sized, DeadNeverExpires, Counted, SizeLimit, BB.BlocksFor;
    RangeOf(e.c, bits, s.bitmapPos, s.items.keys, s.items.firstBlock, s.items.valsize, e.blocksize, e.blocks, index);
  }
}
