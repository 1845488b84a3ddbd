/** What the operations on a cache do, told by the keys, entries, recency order and scan time before and after them alone. */
module CacheLaws {
  import opened Collections
  import opened Bytes
  import opened CacheSpec
  import opened CacheRuns
  import opened CacheRecency

  /** A sequence without one of its elements. */
  ghost predicate Minus(s: seq<Key>, s': seq<Key>, k: Key) {
    if k in s then exists i :: 0 <= i < |s| && s[i] == k && s' == s[..i] + s[i + 1..] else s' == s
  }

  /** The key has moved to the recent end. */
  ghost predicate MovedToEnd(s: seq<Key>, s': seq<Key>, k: Key) {
    exists i :: 0 <= i < |s| && s[i] == k && s' == s[..i] + s[i + 1..] + [k]
  }

  ghost predicate Before(s: seq<Key>, x: Key, y: Key) {
    exists i, j :: 0 <= i < j < |s| && s[i] == x && s[j] == y
  }

  /** The elements of a set have gone, the others stand in the order they stood in. */
  ghost predicate Thinned(s: seq<Key>, s': seq<Key>, gone: set<Key>) {
    && Distinct(s') && (forall x :: x in s' <==> x in s && x !in gone)
    && forall x, y :: Before(s', x, y) <==> Before(s, x, y) && x !in gone && y !in gone
  }

  // ----- recency orders

  lemma KeepOthers(s: seq<Key>, live: set<Key>, k: Key)
    requires Distinct(s) && k !in live && forall x :: x in s && x != k ==> x in live
    ensures Minus(s, Keep(s, live), k)
  {
    hide Keep;
    if k in s {
      var i :| 0 <= i < |s| && s[i] == k;
      KeepAround(s, live, i);
    } else {
      KeepEvery(s, live);
    }
  }

  lemma KeepAround(s: seq<Key>, live: set<Key>, i: nat)
    requires i < |s| && s[i] !in live && forall j :: 0 <= j < |s| && j != i ==> s[j] in live
    ensures Keep(s, live) == s[..i] + s[i + 1..]
  {
    hide Keep;
    var u, v := s[..i], s[i + 1..];
    assert s == u + [s[i]] + v;
    KeepConcat(u + [s[i]], v, live);
    KeepAppend(u, s[i], live);
    KeepEvery(u, live);
    KeepEvery(v, live);
  }

  lemma {:induction false} KeepBefore(s: seq<Key>, live: set<Key>, x: Key, y: Key)
    ensures Before(Keep(s, live), x, y) <==> Before(s, x, y) && x in live && y in live
  {
    if s != [] {
      var n := |s| - 1;
      KeepBefore(s[..n], live, x, y);
      KeepMembers(s[..n], live);
      BeforeLast(s[..n], s[n], x, y);
      assert s == s[..n] + [s[n]];
      BeforeLast(Keep(s[..n], live), s[n], x, y);
    }
  }

  lemma BeforeLast(s: seq<Key>, z: Key, x: Key, y: Key)
    ensures Before(s + [z], x, y) <==> Before(s, x, y) || (x in s && y == z)
  {
    var t := s + [z];
    if Before(s, x, y) {
      var i, j :| 0 <= i < j < |s| && s[i] == x && s[j] == y;
      assert t[i] == x && t[j] == y;
    }
    if x in s && y == z {
      var i :| 0 <= i < |s| && s[i] == x;
      assert t[i] == x && t[|s|] == y;
    }
    if Before(t, x, y) {
      var i, j :| 0 <= i < j < |t| && t[i] == x && t[j] == y;
      assert s[i] == x;
      if j < |s| {
        assert s[j] == y;
      }
    }
  }

  lemma KeepThins(s: seq<Key>, live: set<Key>, gone: set<Key>)
    requires Distinct(s) && forall x :: x in s ==> (x in live <==> x !in gone)
    ensures Thinned(s, Keep(s, live), gone)
  {
    hide Before;
    KeepMembers(s, live);
    forall x, y ensures Before(Keep(s, live), x, y) <==> Before(s, x, y) && x !in gone && y !in gone {
      KeepBefore(s, live, x, y);
      BeforeIn(s, x, y);
    }
  }

  lemma BeforeIn(s: seq<Key>, x: Key, y: Key)
    ensures Before(s, x, y) ==> x in s && y in s
  {
  }

  // ----- the operations

  /** A get answers exactly for a key that can be seen and is gettable, with its entry, and makes it the most recent one. */
  lemma GetLaw(c: Config, a: Cache, k: Key, now: nat)
    requires WellFormed(c, a)
    ensures var (a', r) := Get(c, a, k, now);
            && r == (if Visible(c, a, k, now) && a.m[k].gettable then Some(a.m[k]) else None)
            && a'.m == (if Visible(c, a, k, now) then a.m else a.m - {k}) && a'.nextScan == a.nextScan
            && (r.Some? && c.purgeLru ==> MovedToEnd(a.lru, a'.lru, k))
            && (r.None? && !Visible(c, a, k, now) ==> Minus(a.lru, a'.lru, k))
            && (Visible(c, a, k, now) && (r.None? || !c.purgeLru) ==> a'.lru == a.lru)
  {
    hide Keep, Acceptable, Distinct;
    if Visible(c, a, k, now) {
      OneLess(c, a, k);
    } else {
      Unseen(c, a, k, now);
    }
  }

  lemma OneLess(c: Config, a: Cache, k: Key)
    requires WellFormed(c, a)
    ensures Minus(a.lru, Keep(a.lru, a.m.Keys - {k}), k) && (a.m - {k}).Keys == a.m.Keys - {k}
    ensures c.purgeLru && k in a.m ==> MovedToEnd(a.lru, Keep(a.lru, a.m.Keys - {k}) + [k], k)
  {
    hide Keep, Acceptable, Distinct;
    KeepOthers(a.lru, a.m.Keys - {k}, k);
  }

  /** A lookup that does not see the key leaves the cache without it. */
  lemma Unseen(c: Config, a: Cache, k: Key, now: nat)
    requires WellFormed(c, a) && !Visible(c, a, k, now)
    ensures var (a1, found) := Lookup(c, a, k, now);
            && !found && a1.m == a.m - {k} && k !in a1.m && Minus(a.lru, a1.lru, k) && a1.nextScan == a.nextScan
  {
    hide Keep, Acceptable, Distinct;
    OneLess(c, a, k);
    if k !in a.m {
      assert a.m - {k} == a.m && k !in a.lru;
    }
  }

  /** A deletion succeeds exactly for a key that can be seen; in any case the key is gone, and nothing else. */
  lemma DelLaw(c: Config, a: Cache, k: Key, now: nat)
    requires WellFormed(c, a)
    ensures var (a', ok) := Del(c, a, k, now);
            && (ok <==> Visible(c, a, k, now))
            && a'.m == a.m - {k} && Minus(a.lru, a'.lru, k) && a'.nextScan == a.nextScan
  {
    hide Keep, Acceptable, Distinct;
    if Visible(c, a, k, now) {
      OneLess(c, a, k);
    } else {
      Unseen(c, a, k, now);
    }
  }

  /** What a full cache gives up: the least recently used key; if a sweep is due, every other key whose time has come, and then
      the next sweep is put off; everything, if clearing is on and no key was swept. */
  lemma FullLaw(c: Config, a: Cache, now: nat)
    requires WellFormed(c, a)
    ensures var oldest := if c.purgeLru && a.lru != [] then {a.lru[0]} else {};
            var due := c.sweepOnFull > 0 && a.nextScan <= now;
            var swept := set k | k in a.m && k !in oldest && due && 0 < a.m[k].expires <= now;
            var gone := if c.clearOnFull && swept == {} then a.m.Keys else oldest + swept;
            var b := Full(c, a, now);
            && b.m == a.m - gone && Thinned(a.lru, b.lru, gone)
            && b.nextScan == if due then now + c.sweepOnFull else a.nextScan
  {
    hide Keep, Acceptable, Distinct, Thinned, WellFormed;
    var oldest := if c.purgeLru && a.lru != [] then {a.lru[0]} else {};
    var due := c.sweepOnFull > 0 && a.nextScan <= now;
    var swept := set k | k in a.m && k !in oldest && due && 0 < a.m[k].expires <= now;
    SweptLaw(c, a, now, oldest, swept);
    hide PurgeOldest, Swept, DueKeys;
    RemoveThins(c, a, oldest + swept);
    RemoveThins(c, a, a.m.Keys);
    RemoveAll(a, a.m.Keys);
  }

  lemma SweptLaw(c: Config, a: Cache, now: nat, oldest: set<Key>, swept: set<Key>)
    requires WellFormed(c, a) && oldest == if c.purgeLru && a.lru != [] then {a.lru[0]} else {}
    requires swept == set k | k in a.m && k !in oldest && c.sweepOnFull > 0 && a.nextScan <= now && 0 < a.m[k].expires <= now
    ensures var a1 := PurgeOldest(c, a);
            && DueKeys(c, a1, now) == swept
            && var scan := if c.sweepOnFull > 0 && a.nextScan <= now then now + c.sweepOnFull else a.nextScan;
               Swept(c, a1, now) == Remove(a, oldest + swept).(nextScan := scan)
  {
    hide Keep, Acceptable, Distinct, WellFormed;
    var a1 := PurgeOldest(c, a);
    RemoveNothing(c, a);
    assert a1 == Remove(a, oldest);
    assert SweepDue(c, a1, now) ==> ExpiredKeys(a1, now) == swept;
    RemoveTwice(a, oldest, swept);
    assert swept == {} ==> oldest + swept == oldest;
  }

  lemma RemoveThins(c: Config, a: Cache, gone: set<Key>)
    requires WellFormed(c, a)
    ensures Thinned(a.lru, Remove(a, gone).lru, gone)
  {
    hide Keep, Acceptable, Thinned;
    KeepThins(a.lru, (a.m - gone).Keys, gone);
  }

  /** The entry expires at the given time, or as long after now as given; with LRU purging the number is kept as it is. */
  function Due(c: Config, x: nat, f: Flags, now: nat): nat {
    if !c.purgeLru && x > 0 && !f.absExpire then now + x else x
  }

  /** The sweeper is to come no later than a relative expiry just set. */
  function ScanBy(c: Config, scan: nat, x: nat, f: Flags, now: nat): nat {
    if !c.purgeLru && x > 0 && !f.absExpire && (scan == 0 || now + x < scan) then now + x else scan
  }

  lemma RefusedLaw(c: Config, a: Cache, k: Key, v: seq<byte>, x: nat, f: Flags, now: nat, room: bool)
    requires c.maxItems > 0
    ensures |k| == 0 || |k| > c.keysize || |v| == 0 || |v| > c.maxItemSize || (Visible(c, a, k, now) && !f.update) ==>
              Set(c, a, k, v, x, f, now, room) == (a, false)
  {
  }

  /** A set with the update flag on a key that can be seen stores the value if blocks are found for it. The expiry is renewed,
      and the key becomes the most recent one, unless the expiry is to stay; who may read the entry stays as it was. */
  lemma UpdateLaw(c: Config, a: Cache, k: Key, v: seq<byte>, x: nat, f: Flags, now: nat)
    requires WellFormed(c, a) && Visible(c, a, k, now) && f.update
    requires 0 < |k| <= c.keysize && 0 < |v| <= c.maxItemSize
    ensures var (a', ok) := Set(c, a, k, v, x, f, now, true);
            && ok && a'.m == a.m[k := Entry(v, if f.fixExpire then a.m[k].expires else Due(c, x, f, now), a.m[k].gettable)]
            && (if c.purgeLru && !f.fixExpire then MovedToEnd(a.lru, a'.lru, k) else a'.lru == a.lru)
            && a'.nextScan == if f.fixExpire then a.nextScan else ScanBy(c, a.nextScan, x, f, now)
  {
    hide Keep, Distinct, MovedToEnd, Minus;
    OneLess(c, a, k);
  }

  /** Without blocks it fails, having renewed the expiry and the recency all the same and made the cache give something up. */
  lemma UpdateFailsLaw(c: Config, a: Cache, k: Key, v: seq<byte>, x: nat, f: Flags, now: nat)
    requires WellFormed(c, a) && Visible(c, a, k, now) && f.update
    requires 0 < |k| <= c.keysize && 0 < |v| <= c.maxItemSize
    ensures var b := UpdateStamped(c, a, k, x, f, now);
            && Set(c, a, k, v, x, f, now, false) == (Full(c, b, now), false)
            && b.m == a.m[k := Entry(a.m[k].val, if f.fixExpire then a.m[k].expires else Due(c, x, f, now), a.m[k].gettable)]
            && (if c.purgeLru && !f.fixExpire then MovedToEnd(a.lru, b.lru, k) else b.lru == a.lru)
            && b.nextScan == if f.fixExpire then a.nextScan else ScanBy(c, a.nextScan, x, f, now)
  {
    hide Keep, Distinct, MovedToEnd, Minus, Full, Expired;
    OneLess(c, a, k);
    LookupSees(c, a, k, now);
    var was := a.m[k].val;
    assert Acceptable(c, k, was);
    var b := Restamp(c, a, k, x, f, now);
    assert b.m[k := b.m[k].(val := was)] == b.m;
  }

  /** The cache an update that finds no blocks falls back from: that of an update to the old value. */
  ghost function UpdateStamped(c: Config, a: Cache, k: Key, x: nat, f: Flags, now: nat): Cache
    requires c.maxItems > 0 && k in a.m
  {
    Set(c, a, k, a.m[k].val, x, f.(update := true), now, true).0
  }

  /** A set of a key that cannot be seen stores it if the cache has a free slot, or one after giving something up, and blocks
      are found; it becomes the most recent one. */
  lemma InsertLaw(c: Config, a: Cache, k: Key, v: seq<byte>, x: nat, f: Flags, now: nat, room: bool)
    requires WellFormed(c, a) && !Visible(c, a, k, now)
    requires 0 < |k| <= c.keysize && 0 < |v| <= c.maxItemSize
    ensures var a1 := Del(c, a, k, now).0;
            var a2 := if |a1.m| == c.maxItems - 1 then Full(c, a1, now) else a1;
            Set(c, a, k, v, x, f, now, room) ==
            if |a2.m| == c.maxItems - 1 then (a2, false)
            else if !room then (Full(c, a2, now), false)
            else (Cache(a2.m[k := Entry(v, Due(c, x, f, now), !f.ungettable)], if c.purgeLru then a2.lru + [k] else a2.lru,
                        ScanBy(c, a2.nextScan, x, f, now)), true)
  {
    hide Keep, Distinct, Full, Minus;
    Unseen(c, a, k, now);
  }

  /** A lock section of the sweeper removes its key exactly if its time has come; a key still to expire bounds the next sweep. */
  lemma SectionLaw(c: Config, a: Cache, k: Key, first: bool, now: nat)
    requires WellFormed(c, a)
    ensures var a' := Section(a, k, first, now);
            var scan := if first then 0 else a.nextScan;
            if k in a.m && 0 < a.m[k].expires <= now
            then a'.m == a.m - {k} && Minus(a.lru, a'.lru, k) && a'.nextScan == scan
            else && a'.m == a.m && a'.lru == a.lru
                 && a'.nextScan == if k in a.m && a.m[k].expires > 0 && (scan == 0 || a.m[k].expires < scan) then a.m[k].expires else scan
  {
    hide Keep, Acceptable, Distinct;
    OneLess(c, a, k);
  }

  // ----- entries over whole runs

  /** The entry of a key after an event that leaves the key in the cache: only a set of it changes anything. */
  ghost function EntryAfter(c: Config, before: Option<Entry>, seen: bool, ev: Event, k: Key, ok: bool): Option<Entry> {
    if !ev.op.SetOp? || ev.op.key != k || |ev.op.val| == 0 || |ev.op.val| > c.maxItemSize then before
    else if !seen then (if ok then Some(Entry(ev.op.val, Due(c, ev.op.expires, ev.op.flags, ev.now), !ev.op.flags.ungettable)) else before)
    else if !ev.op.flags.update || before.None? then before
    else Some(Entry(if ok then ev.op.val else before.value.val,
                    if ev.op.flags.fixExpire then before.value.expires else Due(c, ev.op.expires, ev.op.flags, ev.now),
                    before.value.gettable))
  }

  /** What the sets of a key make of its entry: bytes of the last successful one, expiry of the last one that renewed it, and
      readable as the set that brought it in said. */
  ghost function History(c: Config, evs: seq<Event>, k: Key): Option<Entry>
    requires c.maxItems > 0
  {
    if evs == [] then None
    else
      var n := |evs| - 1;
      var b := Run(c, EMPTY, evs[..n]);
      EntryAfter(c, History(c, evs[..n], k), Visible(c, b, k, evs[n].now), evs[n], k, Step(c, b, evs[n]).1 == Stored(true))
  }

  lemma StepEntry(c: Config, a: Cache, ev: Event, k: Key)
    requires WellFormed(c, a) && k in Step(c, a, ev).0.m
    ensures var before := if k in a.m then Some(a.m[k]) else None;
            Some(Step(c, a, ev).0.m[k]) ==
            EntryAfter(c, before, Visible(c, a, k, ev.now), ev, k, Step(c, a, ev).1 == Stored(true))
  {
    hide WellFormed, Set, Keep, Visible, Full;
    MaxPositive(c, a);
    if !(ev.op.SetOp? && ev.op.key == k) {
      StepKeepsEntry(c, a, ev, k);
    } else {
      SetEntry(c, a, ev, k);
    }
  }

  lemma SetEntry(c: Config, a: Cache, ev: Event, k: Key)
    requires WellFormed(c, a) && ev.op.SetOp? && ev.op.key == k && k in Step(c, a, ev).0.m
    ensures var before := if k in a.m then Some(a.m[k]) else None;
            Some(Step(c, a, ev).0.m[k]) ==
            EntryAfter(c, before, Visible(c, a, k, ev.now), ev, k, Step(c, a, ev).1 == Stored(true))
  {
    hide WellFormed, Set, Keep, Full, Del, Minus, MovedToEnd;
    var v, x, f := ev.op.val, ev.op.expires, ev.op.flags;
    MaxPositive(c, a);
    RefusedLaw(c, a, k, v, x, f, ev.now, ev.room);
    KeySize(c, a, k);
    if |k| == 0 || |k| > c.keysize || |v| == 0 || |v| > c.maxItemSize {
      return;
    }
    if Visible(c, a, k, ev.now) {
      if f.update && ev.room {
        UpdateLaw(c, a, k, v, x, f, ev.now);
      } else if f.update {
        UpdateFailsLaw(c, a, k, v, x, f, ev.now);
        FullKeeps(c, UpdateStamped(c, a, k, x, f, ev.now), ev.now);
      }
    } else {
      InsertLaw(c, a, k, v, x, f, ev.now, ev.room);
      DelLaw(c, a, k, ev.now);
      var a1 := Del(c, a, k, ev.now).0;
      FullKeeps(c, a1, ev.now);
      FullKeeps(c, Full(c, a1, ev.now), ev.now);
    }
  }

  lemma KeySize(c: Config, a: Cache, k: Key)
    requires WellFormed(c, a)
    ensures k in a.m ==> 0 < |k| <= c.keysize
  {
  }

  /** In every run, the entry of a key that is there is the one its sets have made. */
  lemma {:induction false} EntryIsHistory(c: Config, evs: seq<Event>, k: Key)
    requires c.maxItems > 0
    ensures k in Run(c, EMPTY, evs).m ==> History(c, evs, k) == Some(Run(c, EMPTY, evs).m[k])
  {
    hide Step, EntryAfter, Visible, WellFormed;
    if evs != [] && k in Run(c, EMPTY, evs).m {
      var n := |evs| - 1;
      var b := Run(c, EMPTY, evs[..n]);
      EntryIsHistory(c, evs[..n], k);
      RunWellFormed(c, evs[..n]);
      StepEntry(c, b, evs[n], k);
      if k !in b.m {
        NewEntry(c, b, evs[n], k, History(c, evs[..n], k));
      }
    }
  }

  /** A key that was not there got all of its entry from the set that brought it in. */
  lemma NewEntry(c: Config, a: Cache, ev: Event, k: Key, older: Option<Entry>)
    requires WellFormed(c, a) && k !in a.m && k in Step(c, a, ev).0.m
    ensures var (a', reply) := Step(c, a, ev);
            EntryAfter(c, older, Visible(c, a, k, ev.now), ev, k, reply == Stored(true)) ==
            EntryAfter(c, None, Visible(c, a, k, ev.now), ev, k, reply == Stored(true))
  {
    hide WellFormed, Step;
    MaxPositive(c, a);
    StepEntry(c, a, ev, k);
  }
}
