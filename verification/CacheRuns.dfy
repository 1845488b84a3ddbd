/** Whole runs of a cache: what every sequence of sets, gets, deletions and lock sections of the sweeper keeps. An event
    carries the clock value the operation read and the answer the block allocator gave it. */
module CacheRuns {
  import opened Collections
  import opened Bytes
  import opened CacheSpec

  datatype Op =
    | SetOp(key: Key, val: seq<byte>, expires: nat, flags: Flags)
    | GetOp(key: Key)
    | DelOp(key: Key)
    // the sweeper's lock section for the slot that holds the key, [] when it is unused
    | SweepOp(key: Key, first: bool)

  /** The operations callers ask for. */
  predicate IsCall(op: Op) {
    !op.SweepOp?
  }

  datatype Event = Event(op: Op, now: nat, room: bool)

  datatype Reply = Stored(ok: bool) | Found(entry: Option<Entry>) | Deleted(ok: bool) | NoReply

  function Step(c: Config, a: Cache, ev: Event): (Cache, Reply)
    requires c.maxItems > 0
  {
    match ev.op
    case SetOp(k, v, x, f) => var (a', ok) := Set(c, a, k, v, x, f, ev.now, ev.room); (a', Stored(ok))
    case GetOp(k) => var (a', r) := Get(c, a, k, ev.now); (a', Found(r))
    case DelOp(k) => var (a', ok) := Del(c, a, k, ev.now); (a', Deleted(ok))
    case SweepOp(k, first) => (Section(a, k, first, ev.now), NoReply)
  }

  function Run(c: Config, a: Cache, evs: seq<Event>): Cache
    requires c.maxItems > 0
  {
    if evs == [] then a else Step(c, Run(c, a, evs[..|evs| - 1]), evs[|evs| - 1]).0
  }

  /** A key an operation can see: it is there, and not out of date where expiry is lazy. */
  predicate Visible(c: Config, a: Cache, k: Key, now: nat) {
    k in a.m && !(c.lazyExpire && 0 < a.m[k].expires <= now)
  }

  // ----- what a step does to the bindings

  ghost predicate Sub(m: map<Key, Entry>, m': map<Key, Entry>) {
    forall k :: k in m ==> k in m' && m[k] == m'[k]
  }

  /** What a full cache gives up: its least recently used key, the expired keys when a sweep is due, and everything when
      clearing is on and no expired key was left to remove. */
  ghost predicate GivesUp(c: Config, a: Cache, now: nat, k: Key) {
    || (c.purgeLru && a.lru != [] && k == a.lru[0])
    || (SweepDue(c, a, now) && k in a.m && Expired(a.m[k], now))
    || (c.clearOnFull && DueKeys(c, PurgeOldest(c, a), now) == {})
  }

  lemma FullKeeps(c: Config, a: Cache, now: nat)
    ensures Sub(Full(c, a, now).m, a.m)
    ensures forall k :: k in a.m ==> (k !in Full(c, a, now).m <==> GivesUp(c, a, now, k))
  {
    hide Keep;
  }

  ghost predicate Sets(c: Config, a: Cache, ev: Event, k: Key)
    requires c.maxItems > 0
  {
    ev.op.SetOp? && ev.op.key == k && Step(c, a, ev).1 == Stored(true)
  }

  /** A step writes at most the bytes of its own key, and those only by a set that reports success. */
  lemma StepValues(c: Config, a: Cache, ev: Event, k: Key)
    requires c.maxItems > 0
    ensures var a' := Step(c, a, ev).0;
            && (Sets(c, a, ev, k) ==> k in a'.m && a'.m[k].val == ev.op.val)
            && (k in a'.m && !Sets(c, a, ev, k) ==> k in a.m && a'.m[k].val == a.m[k].val)
            && (k in a'.m && k != ev.op.key ==> k in a.m && a'.m[k] == a.m[k])
  {
    hide Keep, Full, Acceptable, Set;
    match ev.op
    case GetOp(_) =>
    case DelOp(_) =>
    case SweepOp(_, _) =>
    case SetOp(_, _, _, _) => SetValues(c, a, ev, k);
  }

  lemma InsertValues(c: Config, a: Cache, op: Op, now: nat, room: bool, k: Key)
    requires c.maxItems > 0 && op.SetOp?
    ensures var (a', ok) := Insert(c, a, op.key, op.val, op.expires, op.flags, now, room);
            && (ok && k == op.key ==> k in a'.m && a'.m[k].val == op.val)
            && (k in a'.m && !(ok && k == op.key) ==> k in a.m && a'.m[k] == a.m[k])
  {
    hide Full, Deadline, Sooner;
    FullKeeps(c, a, now);
    FullKeeps(c, Full(c, a, now), now);
  }

  lemma UpdateValues(c: Config, a: Cache, op: Op, now: nat, room: bool, k: Key)
    requires op.SetOp? && op.key in a.m
    ensures var (a', ok) := Update(c, a, op.key, op.val, op.expires, op.flags, now, room);
            && (ok && k == op.key ==> k in a'.m && a'.m[k].val == op.val)
            && (k in a'.m && !(ok && k == op.key) ==> k in a.m && a'.m[k].val == a.m[k].val)
            && (k in a'.m && k != op.key ==> k in a.m && a'.m[k] == a.m[k])
  {
    hide Full, Deadline, Sooner, Touch;
    FullKeeps(c, Restamp(c, a, op.key, op.expires, op.flags, now), now);
  }

  lemma LookupValues(c: Config, a: Cache, key: Key, now: nat)
    ensures Sub(Lookup(c, a, key, now).0.m, a.m)
  {
    hide Keep, Expired;
  }

  lemma SetValues(c: Config, a: Cache, ev: Event, k: Key)
    requires c.maxItems > 0 && ev.op.SetOp?
    ensures var (a', ok) := Set(c, a, ev.op.key, ev.op.val, ev.op.expires, ev.op.flags, ev.now, ev.room);
            && (ok && k == ev.op.key ==> k in a'.m && a'.m[k].val == ev.op.val)
            && (k in a'.m && !(ok && k == ev.op.key) ==> k in a.m && a'.m[k].val == a.m[k].val)
            && (k in a'.m && k != ev.op.key ==> k in a.m && a'.m[k] == a.m[k])
  {
    hide Acceptable, Lookup, Insert, Update;
    var a1 := Lookup(c, a, ev.op.key, ev.now).0;
    LookupValues(c, a, ev.op.key, ev.now);
    InsertValues(c, a1, ev.op, ev.now, ev.room, k);
    if ev.op.key in a1.m {
      UpdateValues(c, a1, ev.op, ev.now, ev.room, k);
    }
  }

  /** An entry stays as it is as long as it stays and its key is not set. */
  lemma StepKeepsEntry(c: Config, a: Cache, ev: Event, k: Key)
    requires c.maxItems > 0 && !(ev.op.SetOp? && ev.op.key == k)
    ensures k in Step(c, a, ev).0.m ==> k in a.m && Step(c, a, ev).0.m[k] == a.m[k]
  {
    hide Keep, Set;
    if ev.op.SetOp? {
      SetValues(c, a, ev, k);
    }
  }

  /** A set without the update flag on a present key fails and changes nothing. */
  lemma PlainSetOnPresentKey(c: Config, a: Cache, k: Key, v: seq<byte>, x: nat, f: Flags, now: nat, room: bool)
    requires c.maxItems > 0 && k in a.m && !f.update && !(c.lazyExpire && Expired(a.m[k], now))
    ensures Set(c, a, k, v, x, f, now, room) == (a, false)
  {
  }

  // ----- the last successful set

  ghost function LastSet(c: Config, a: Cache, evs: seq<Event>, k: Key): Option<seq<byte>>
    requires c.maxItems > 0
  {
    if evs == [] then None
    else
      var n := |evs| - 1;
      if Sets(c, Run(c, a, evs[..n]), evs[n], k) then Some(evs[n].op.val) else LastSet(c, a, evs[..n], k)
  }

  /** In every run from the empty cache, the bytes under a key are those of its last successful set. */
  lemma {:induction false} BytesAreLastSet(c: Config, evs: seq<Event>, k: Key)
    requires c.maxItems > 0
    ensures var a := Run(c, EMPTY, evs); k in a.m ==> LastSet(c, EMPTY, evs, k) == Some(a.m[k].val)
  {
    hide Step, Sets;
    if evs != [] {
      var n := |evs| - 1;
      BytesAreLastSet(c, evs[..n], k);
      StepValues(c, Run(c, EMPTY, evs[..n]), evs[n], k);
      SetsWrites(c, Run(c, EMPTY, evs[..n]), evs[n], k);
    }
  }

  lemma SetsWrites(c: Config, a: Cache, ev: Event, k: Key)
    requires c.maxItems > 0
    ensures Sets(c, a, ev, k) ==> ev.op.SetOp?
  {
  }

  // ----- why a binding can go away

  /** A set of an absent key drops what a full cache gives up to make room and, when no blocks are found, what it gives up
      then; its own key, which the lookup may just have dropped, is only missed when the set fails. */
  ghost predicate InsertDrops(c: Config, a: Cache, ev: Event, k: Key)
    requires c.maxItems > 0 && ev.op.SetOp?
  {
    var a1 := if |a.m| == Capacity(c) then Full(c, a, ev.now) else a;
    var fails := |a1.m| == Capacity(c) || !ev.room;
    if k == ev.op.key then fails
    else || (|a.m| == Capacity(c) && GivesUp(c, a, ev.now, k))
         || (|a1.m| < Capacity(c) && !ev.room && GivesUp(c, a1, ev.now, k))
  }

  /** Exactly when a step takes a present key out of the map: its deletion, its expiry seen by a lazy lookup or the sweeper,
      or a set that has to make room, or finds no blocks, and makes the cache give this key up. */
  ghost predicate Drops(c: Config, a: Cache, ev: Event, k: Key)
    requires c.maxItems > 0
  {
    match ev.op
    case DelOp(key) => k == key
    case GetOp(key) => k == key && LazilyDropped(c, a, key, ev.now)
    case SweepOp(key, _) => k == key && k in a.m && Expired(a.m[k], ev.now)
    case SetOp(key, v, x, f) =>
      && Acceptable(c, key, v)
      && var a1 := Lookup(c, a, key, ev.now).0;
         if key !in a1.m then InsertDrops(c, a1, ev, k)
         else f.update && !ev.room && GivesUp(c, Restamp(c, a1, key, x, f, ev.now), ev.now, k)
  }

  ghost predicate LazilyDropped(c: Config, a: Cache, k: Key, now: nat) {
    c.lazyExpire && k in a.m && Expired(a.m[k], now)
  }

  lemma StepDrops(c: Config, a: Cache, ev: Event, k: Key)
    requires c.maxItems > 0 && |a.m| <= Capacity(c) && k in a.m
    ensures k !in Step(c, a, ev).0.m <==> Drops(c, a, ev, k)
  {
    hide Keep, Set, InsertDrops, GivesUp;
    if ev.op.SetOp? {
      SetDrops(c, a, ev, k);
    }
  }

  lemma SetDrops(c: Config, a: Cache, ev: Event, k: Key)
    requires c.maxItems > 0 && |a.m| <= Capacity(c) && k in a.m && ev.op.SetOp?
    ensures k !in Step(c, a, ev).0.m <==> Drops(c, a, ev, k)
  {
    hide Keep, Insert, Update, Acceptable, Expired, Restamp, GivesUp, InsertDrops;
    var a1 := Lookup(c, a, ev.op.key, ev.now).0;
    LookupShrinks(c, a, ev.op.key, ev.now);
    LookupResult(c, a, ev.op.key, ev.now);
    if ev.op.key in a1.m {
      UpdateDrops(c, a1, ev, k);
    } else {
      InsertDropsKeys(c, a1, ev, k);
    }
  }

  lemma UpdateDrops(c: Config, a: Cache, ev: Event, k: Key)
    requires k in a.m && ev.op.SetOp? && ev.op.key in a.m
    ensures k !in Update(c, a, ev.op.key, ev.op.val, ev.op.expires, ev.op.flags, ev.now, ev.room).0.m <==>
            !ev.room && GivesUp(c, Restamp(c, a, ev.op.key, ev.op.expires, ev.op.flags, ev.now), ev.now, k)
  {
    hide Full, GivesUp, Deadline, Sooner, Touch;
    FullKeeps(c, Restamp(c, a, ev.op.key, ev.op.expires, ev.op.flags, ev.now), ev.now);
  }

  lemma InsertDropsKeys(c: Config, a: Cache, ev: Event, k: Key)
    requires c.maxItems > 0 && ev.op.SetOp? && ev.op.key !in a.m && (k in a.m || k == ev.op.key) && |a.m| <= Capacity(c)
    ensures k !in Insert(c, a, ev.op.key, ev.op.val, ev.op.expires, ev.op.flags, ev.now, ev.room).0.m <==>
            InsertDrops(c, a, ev, k)
  {
    hide Full, GivesUp, Deadline, Sooner;
    var a1 := if |a.m| == Capacity(c) then Full(c, a, ev.now) else a;
    FullKeeps(c, a, ev.now);
    FullKeeps(c, a1, ev.now);
    FewerKeys(a1.m, a.m);
  }

  lemma FewerKeys(m: map<Key, Entry>, m': map<Key, Entry>)
    requires Sub(m, m')
    ensures |m| <= |m'|
  {
    assert m.Keys <= m'.Keys;
    assert m'.Keys == m.Keys + (m'.Keys - m.Keys);
  }

  lemma LookupShrinks(c: Config, a: Cache, k: Key, now: nat)
    ensures |Lookup(c, a, k, now).0.m| <= |a.m|
  {
    hide Keep;
    SmallerMap(a.m, {k});
  }

  /** Set at some point and not dropped by anything since. */
  ghost predicate Kept(c: Config, a: Cache, evs: seq<Event>, k: Key)
    requires c.maxItems > 0
  {
    evs != [] &&
    var n := |evs| - 1;
    var b := Run(c, a, evs[..n]);
    Sets(c, b, evs[n], k) || (Kept(c, a, evs[..n], k) && !Drops(c, b, evs[n], k))
  }

  /** In every run from the empty cache, the keys present are exactly those set and not dropped since. */
  lemma {:induction false} KeptIsPresent(c: Config, evs: seq<Event>, k: Key)
    requires c.maxItems > 0
    ensures k in Run(c, EMPTY, evs).m <==> Kept(c, EMPTY, evs, k)
  {
    hide Step, Sets, Drops;
    if evs != [] {
      var n := |evs| - 1;
      var b := Run(c, EMPTY, evs[..n]);
      StepValues(c, b, evs[n], k);
      KeptIsPresent(c, evs[..n], k);
      RunWellFormed(c, evs[..n]);
      WithinCapacity(c, b);
      if k in b.m {
        StepDrops(c, b, evs[n], k);
      }
    }
  }

  /** In every run, a get answers exactly for a key that was set and not dropped since, is gettable and has not lazily expired;
      it answers with the bytes of the key's last successful set. */
  lemma GetReturnsLastSet(c: Config, evs: seq<Event>, k: Key, now: nat)
    requires c.maxItems > 0
    ensures var a := Run(c, EMPTY, evs);
            var r := Get(c, a, k, now).1;
            && (Kept(c, EMPTY, evs, k) <==> k in a.m)
            && (r.Some? <==> Kept(c, EMPTY, evs, k) && Visible(c, a, k, now) && a.m[k].gettable)
            && (r.Some? ==> LastSet(c, EMPTY, evs, k) == Some(r.value.val))
  {
    hide Run, LastSet, Kept, Keep;
    KeptIsPresent(c, evs, k);
    BytesAreLastSet(c, evs, k);
  }

  lemma WithinCapacity(c: Config, a: Cache)
    requires WellFormed(c, a)
    ensures |a.m| <= Capacity(c)
  {
  }

  // ----- every reachable cache is well formed

  lemma RemoveWellFormed(c: Config, a: Cache, gone: set<Key>)
    requires WellFormed(c, a)
    ensures WellFormed(c, Remove(a, gone)) && |(a.m - gone).Keys| <= |a.m|
  {
    hide Keep, Distinct;
    KeepMembers(a.lru, (a.m - gone).Keys);
    SmallerMap(a.m, gone);
    KeepEmpty((a.m - gone).Keys);
  }

  lemma KeepEmpty(live: set<Key>)
    ensures Keep([], live) == []
  {
  }

  lemma SmallerMap(m: map<Key, Entry>, gone: set<Key>)
    ensures |m - gone| <= |m|
  {
    assert m.Keys == (m - gone).Keys + (m.Keys * gone);
  }

  lemma FullWellFormed(c: Config, a: Cache, now: nat)
    requires WellFormed(c, a)
    ensures WellFormed(c, Full(c, a, now))
  {
    hide WellFormed, Remove, ExpiredKeys;
    var a1 := PurgeOldest(c, a);
    if c.purgeLru && a.lru != [] {
      RemoveWellFormed(c, a, {a.lru[0]});
    }
    var a2 := a1.(nextScan := now + c.sweepOnFull);
    RescanWellFormed(c, a1, now + c.sweepOnFull);
    RemoveWellFormed(c, a2, ExpiredKeys(a1, now));
    MaxPositive(c, a);
    EmptyWellFormed(c, Swept(c, a1, now).nextScan);
  }

  lemma RescanWellFormed(c: Config, a: Cache, t: nat)
    requires WellFormed(c, a)
    ensures WellFormed(c, a.(nextScan := t))
  {
  }

  lemma EmptyWellFormed(c: Config, t: nat)
    requires c.maxItems > 0
    ensures WellFormed(c, Cache(map[], [], t))
  {
  }

  /** Moving a key to the recent end, or adding it there. */
  lemma MoveToEnd(lru: seq<Key>, live: set<Key>, k: Key)
    requires Distinct(lru)
    ensures Distinct(Keep(lru, live - {k}) + [k])
    ensures forall x :: x in Keep(lru, live - {k}) + [k] <==> (x in lru && x in live) || x == k
  {
    hide Keep;
    KeepMembers(lru, live - {k});
    var s := Keep(lru, live - {k});
    assert forall x :: x in s + [k] <==> x in s || x == k;
    assert k !in s && forall i :: 0 <= i < |s| ==> s[i] in s;
  }

  lemma TouchWellFormed(c: Config, a: Cache, k: Key)
    requires WellFormed(c, a) && k in a.m
    ensures WellFormed(c, Touch(c, a, k))
  {
    hide Keep, Acceptable, Distinct;
    MoveToEnd(a.lru, a.m.Keys, k);
  }

  lemma PutWellFormed(c: Config, a: Cache, k: Key, en: Entry, lru: seq<Key>, t: nat)
    requires WellFormed(c, a) && Acceptable(c, k, en.val) && (k in a.m || |a.m| < Capacity(c))
    requires lru == (if c.purgeLru && k !in a.m then a.lru + [k] else a.lru)
    ensures WellFormed(c, Cache(a.m[k := en], lru, t))
  {
    hide Acceptable;
    assert a.m[k := en].Keys == a.m.Keys + {k};
    if c.purgeLru && k !in a.m {
      assert k !in a.lru && forall i :: 0 <= i < |a.lru| ==> a.lru[i] in a.lru;
    }
  }

  lemma StepWellFormed(c: Config, a: Cache, ev: Event)
    requires WellFormed(c, a)
    ensures WellFormed(c, Step(c, a, ev).0)
  {
    hide WellFormed, Remove, Full, Touch, Capacity, Expired;
    MaxPositive(c, a);
    var k := ev.op.key;
    var (a1, found) := Lookup(c, a, k, ev.now);
    RemoveWellFormed(c, a, {k});
    LookupResult(c, a, k, ev.now);
    match ev.op
    case GetOp(_) =>
      if found { TouchWellFormed(c, a1, k); }
    case DelOp(_) =>
    case SweepOp(_, first) => SectionWellFormed(c, a, k, first, ev.now);
    case SetOp(_, v, x, f) =>
      if Acceptable(c, k, v) {
        if found {
          UpdateWellFormed(c, a1, ev);
        } else {
          InsertWellFormed(c, a1, ev);
        }
      }
  }

  lemma SectionWellFormed(c: Config, a: Cache, k: Key, first: bool, now: nat)
    requires WellFormed(c, a)
    ensures WellFormed(c, Section(a, k, first, now))
  {
    hide WellFormed, Remove, Expired;
    RescanWellFormed(c, a, 0);
    var a0 := if first then a.(nextScan := 0) else a;
    RemoveWellFormed(c, a0, {k});
    if k in a0.m {
      RescanWellFormed(c, a0, a0.m[k].expires);
    }
  }

  lemma LookupResult(c: Config, a: Cache, k: Key, now: nat)
    ensures var (a1, found) := Lookup(c, a, k, now);
            (found <==> k in a1.m) && (found ==> a1 == a) && (!found ==> a1 == a || a1 == Remove(a, {k}))
  {
    hide Keep;
  }

  lemma MaxPositive(c: Config, a: Cache)
    requires WellFormed(c, a)
    ensures c.maxItems > 0 && |a.m| <= Capacity(c)
  {
  }

  lemma InsertWellFormed(c: Config, a: Cache, ev: Event)
    requires WellFormed(c, a) && ev.op.SetOp? && ev.op.key !in a.m && Acceptable(c, ev.op.key, ev.op.val)
    ensures c.maxItems > 0
    ensures WellFormed(c, Insert(c, a, ev.op.key, ev.op.val, ev.op.expires, ev.op.flags, ev.now, ev.room).0)
  {
    hide WellFormed, Full, Acceptable, Deadline, Sooner;
    MaxPositive(c, a);
    FullWellFormed(c, a, ev.now);
    FullKeeps(c, a, ev.now);
    var a1 := if |a.m| == Capacity(c) then Full(c, a, ev.now) else a;
    FullWellFormed(c, a1, ev.now);
    MaxPositive(c, a1);
    if |a1.m| < Capacity(c) && ev.room {
      PutWellFormed(c, a1, ev.op.key, Entry(ev.op.val, Deadline(c, ev.op.expires, ev.op.flags, ev.now), !ev.op.flags.ungettable),
                    if c.purgeLru then a1.lru + [ev.op.key] else a1.lru, Sooner(c, a1.nextScan, ev.op.expires, ev.op.flags, ev.now));
    }
  }

  lemma UpdateWellFormed(c: Config, a: Cache, ev: Event)
    requires WellFormed(c, a) && ev.op.SetOp? && ev.op.key in a.m && Acceptable(c, ev.op.key, ev.op.val)
    ensures WellFormed(c, Update(c, a, ev.op.key, ev.op.val, ev.op.expires, ev.op.flags, ev.now, ev.room).0)
  {
    hide WellFormed, Full, Acceptable, Deadline, Sooner, Keep;
    var k := ev.op.key;
    var t := Touch(c, a, k);
    TouchWellFormed(c, a, k);
    EntryFits(c, a, k);
    var en := a.m[k].(expires := Deadline(c, ev.op.expires, ev.op.flags, ev.now));
    PutWellFormed(c, t, k, en, t.lru, Sooner(c, a.nextScan, ev.op.expires, ev.op.flags, ev.now));
    var a1 := Restamp(c, a, k, ev.op.expires, ev.op.flags, ev.now);
    assert WellFormed(c, a1);
    FullWellFormed(c, a1, ev.now);
    PutWellFormed(c, a1, k, a1.m[k].(val := ev.op.val), a1.lru, a1.nextScan);
  }

  lemma EntryFits(c: Config, a: Cache, k: Key)
    requires WellFormed(c, a) && k in a.m
    ensures Acceptable(c, k, a.m[k].val)
  {
  }

  lemma {:induction false} RunWellFormed(c: Config, evs: seq<Event>)
    requires c.maxItems > 0
    ensures WellFormed(c, Run(c, EMPTY, evs))
  {
    hide WellFormed, Step;
    if evs == [] {
      EmptyWellFormed(c, 0);
    } else {
      RunWellFormed(c, evs[..|evs| - 1]);
      StepWellFormed(c, Run(c, EMPTY, evs[..|evs| - 1]), evs[|evs| - 1]);
    }
  }
}
