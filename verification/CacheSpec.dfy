/** What a cache means to its callers: a bounded map from keys to entries, a recency order when LRU purging is on,
    and the time of the next sweep. The functions here are the specification the cache class is proved against;
    whole runs of it are reasoned about in CacheRuns. */
module CacheSpec {

  import opened Bytes
  import opened Collections

  type Key = seq<byte>

  datatype Entry = Entry(val: seq<byte>, expires: nat, gettable: bool)

  datatype Config = Config(
    maxItems: nat, keysize: nat, maxItemSize: nat,
    bitmap: bool, purgeLru: bool, lazyExpire: bool, sweepOnFull: nat, clearOnFull: bool)

  datatype Flags = Flags(update: bool, fixExpire: bool, absExpire: bool, ungettable: bool)

  datatype Cache = Cache(m: map<Key, Entry>, lru: seq<Key>, nextScan: nat)

  const EMPTY := Cache(map[], [], 0)

  predicate Expired(e: Entry, now: nat) {
    0 < e.expires <= now
  }

  // slot 0 is never used
  function Capacity(c: Config): nat
    requires c.maxItems > 0
  {
    c.maxItems - 1
  }

  // ----- recency order

  function Keep(s: seq<Key>, live: set<Key>): (r: seq<Key>) {
    if s == [] then []
    else if s[|s| - 1] in live then Keep(s[..|s| - 1], live) + [s[|s| - 1]]
    else Keep(s[..|s| - 1], live)
  }

  function Remove(a: Cache, gone: set<Key>): Cache {
    a.(m := a.m - gone, lru := Keep(a.lru, (a.m - gone).Keys))
  }

  function Touch(c: Config, a: Cache, k: Key): Cache {
    if c.purgeLru then a.(lru := Keep(a.lru, a.m.Keys - {k}) + [k]) else a
  }

  // ----- operations

  /** A lookup drops the entry it finds when expiry is lazy and the entry is out of date. */
  function Lookup(c: Config, a: Cache, k: Key, now: nat): (Cache, bool) {
    if k !in a.m then (a, false)
    else if c.lazyExpire && Expired(a.m[k], now) then (Remove(a, {k}), false)
    else (a, true)
  }

  function Get(c: Config, a: Cache, k: Key, now: nat): (Cache, Option<Entry>) {
    var (a1, found) := Lookup(c, a, k, now);
    if !found || k !in a1.m || !a1.m[k].gettable then (a1, None)
    else (Touch(c, a1, k), Some(a1.m[k]))
  }

  function Del(c: Config, a: Cache, k: Key, now: nat): (Cache, bool) {
    var (a1, found) := Lookup(c, a, k, now);
    if !found then (a1, false) else (Remove(a1, {k}), true)
  }

  function ExpiredKeys(a: Cache, now: nat): set<Key> {
    set k | k in a.m && Expired(a.m[k], now)
  }

  function PurgeOldest(c: Config, a: Cache): Cache {
    if c.purgeLru && a.lru != [] then Remove(a, {a.lru[0]}) else a
  }

  predicate SweepDue(c: Config, a: Cache, now: nat) {
    c.sweepOnFull > 0 && a.nextScan <= now
  }

  function DueKeys(c: Config, a: Cache, now: nat): set<Key> {
    if SweepDue(c, a, now) then ExpiredKeys(a, now) else {}
  }

  function Swept(c: Config, a: Cache, now: nat): Cache {
    if SweepDue(c, a, now) then Remove(a.(nextScan := now + c.sweepOnFull), ExpiredKeys(a, now)) else a
  }

  /** What a full cache gives up: the least recently used entry, then every expired one, then everything. */
  function Full(c: Config, a: Cache, now: nat): Cache {
    var a1 := PurgeOldest(c, a);
    var a2 := Swept(c, a1, now);
    if c.clearOnFull && DueKeys(c, a1, now) == {} then a2.(m := map[], lru := []) else a2
  }

  /** The stored expiry: a nonzero relative one is made absolute, except under LRU purging. */
  function Deadline(c: Config, expires: nat, flags: Flags, now: nat): nat {
    if c.purgeLru || expires == 0 || flags.absExpire then expires else expires + now
  }

  function Sooner(c: Config, nextScan: nat, expires: nat, flags: Flags, now: nat): nat {
    if c.purgeLru || expires == 0 || flags.absExpire then nextScan
    else if nextScan == 0 || nextScan > expires + now then expires + now
    else nextScan
  }

  predicate Acceptable(c: Config, k: Key, v: seq<byte>) {
    0 < |k| <= c.keysize && 0 < |v| <= c.maxItemSize
  }

  /** `room` is the block allocator's answer; a cache without a bitmap always has room for a slot it has. */
  function Place(c: Config, a: Cache, k: Key, v: seq<byte>, expires: nat, flags: Flags, now: nat, room: bool)
    : (Cache, bool)
  {
    if !room then (Full(c, a, now), false)
    else
      (Cache(a.m[k := Entry(v, Deadline(c, expires, flags, now), !flags.ungettable)],
             if c.purgeLru then a.lru + [k] else a.lru,
             Sooner(c, a.nextScan, expires, flags, now)), true)
  }

  function Insert(c: Config, a: Cache, k: Key, v: seq<byte>, expires: nat, flags: Flags, now: nat, room: bool)
    : (Cache, bool)
    requires c.maxItems > 0
  {
    var a1 := if |a.m| == Capacity(c) then Full(c, a, now) else a;
    if |a1.m| == Capacity(c) then (a1, false)
    else Place(c, a1, k, v, expires, flags, now, room)
  }

  function Restamp(c: Config, a: Cache, k: Key, expires: nat, flags: Flags, now: nat): Cache
    requires k in a.m
  {
    if flags.fixExpire then a
    else
      Touch(c, a, k).(m := a.m[k := a.m[k].(expires := Deadline(c, expires, flags, now))],
                      nextScan := Sooner(c, a.nextScan, expires, flags, now))
  }

  function Rewrite(c: Config, a: Cache, k: Key, v: seq<byte>, now: nat, room: bool): (Cache, bool)
    requires k in a.m
  {
    if !room then (Full(c, a, now), false) else (a.(m := a.m[k := a.m[k].(val := v)]), true)
  }

  /** Recency and expiry are renewed before the new blocks are looked for, so also when there is no room. */
  function Update(c: Config, a: Cache, k: Key, v: seq<byte>, expires: nat, flags: Flags, now: nat, room: bool)
    : (Cache, bool)
    requires k in a.m
  {
    Rewrite(c, Restamp(c, a, k, expires, flags, now), k, v, now, room)
  }

  function Set(c: Config, a: Cache, k: Key, v: seq<byte>, expires: nat, flags: Flags, now: nat, room: bool)
    : (Cache, bool)
    requires c.maxItems > 0
  {
    if !Acceptable(c, k, v) then (a, false)
    else
      var (a1, found) := Lookup(c, a, k, now);
      if !found || k !in a1.m then Insert(c, a1, k, v, expires, flags, now, room)
      else if flags.update then Update(c, a1, k, v, expires, flags, now, room)
      else (a1, false)
  }

  // ----- the sweeper

  /** The section for the slot holding `k` ([] when it is unused); the first one of a round starts the scan time afresh. */
  function Section(a: Cache, k: Key, first: bool, now: nat): Cache {
    var a0 := if first then a.(nextScan := 0) else a;
    if k !in a0.m || a0.m[k].expires == 0 then a0
    else if a0.m[k].expires <= now then Remove(a0, {k})
    else if a0.nextScan == 0 || a0.nextScan > a0.m[k].expires then a0.(nextScan := a0.m[k].expires)
    else a0
  }

  // ----- well-formed caches

  ghost predicate WellFormed(c: Config, a: Cache) {
    && c.maxItems > 0 && |a.m| <= Capacity(c)
    && (forall k :: k in a.m ==> Acceptable(c, k, a.m[k].val))
    && Distinct(a.lru)
    && (if c.purgeLru then forall k :: k in a.lru <==> k in a.m else a.lru == [])
  }

  // ----- laws of the recency order

  lemma {:induction false} KeepMembers(s: seq<Key>, live: set<Key>)
    ensures forall k :: k in Keep(s, live) <==> k in s && k in live
    ensures Distinct(s) ==> Distinct(Keep(s, live))
  {
    if s != [] {
      var n := |s| - 1;
      assert s == s[..n] + [s[n]];
      assert forall k :: k in s <==> k in s[..n] || k == s[n];
      KeepMembers(s[..n], live);
    }
  }

  lemma {:induction false} KeepAppend(s: seq<Key>, k: Key, live: set<Key>)
    ensures Keep(s + [k], live) == if k in live then Keep(s, live) + [k] else Keep(s, live)
  {
    assert (s + [k])[..|s|] == s;
  }

  lemma {:induction false} KeepKeep(s: seq<Key>, live: set<Key>, live': set<Key>)
    requires live' <= live
    ensures Keep(Keep(s, live), live') == Keep(s, live')
  {
    if s != [] {
      var n := |s| - 1;
      KeepKeep(s[..n], live, live');
      KeepAppend(Keep(s[..n], live), s[n], live');
    }
  }

  lemma {:induction false} KeepEvery(s: seq<Key>, live: set<Key>)
    requires forall i :: 0 <= i < |s| ==> s[i] in live
    ensures Keep(s, live) == s
  {
    if s != [] {
      KeepEvery(s[..|s| - 1], live);
      assert s == s[..|s| - 1] + [s[|s| - 1]];
    }
  }

  lemma {:induction false} KeepNone(s: seq<Key>)
    ensures Keep(s, {}) == []
  {
    if s != [] {
      KeepNone(s[..|s| - 1]);
    }
  }

  lemma RemoveTwice(a: Cache, gone: set<Key>, gone': set<Key>)
    ensures Remove(Remove(a, gone), gone') == Remove(a, gone + gone')
  {
    assert a.m - gone - gone' == a.m - (gone + gone');
    KeepKeep(a.lru, (a.m - gone).Keys, (a.m - gone - gone').Keys);
  }

  lemma RemoveNothing(c: Config, a: Cache)
    requires WellFormed(c, a)
    ensures Remove(a, {}) == a
  {
    assert a.m - {} == a.m;
    assert forall i :: 0 <= i < |a.lru| ==> a.lru[i] in a.lru;
    KeepEvery(a.lru, a.m.Keys);
  }

  lemma RemoveAll(a: Cache, gone: set<Key>)
    requires a.m.Keys <= gone
    ensures Remove(a, gone) == a.(m := map[], lru := [])
  {
    assert a.m - gone == map[] && (a.m - gone).Keys == {};
    KeepNone(a.lru);
  }
}
