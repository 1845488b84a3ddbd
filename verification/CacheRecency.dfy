/** LRU purging over whole runs: the recency order is the order of last use, and a full cache evicts its head. */
module CacheRecency {
  import opened Collections
  import opened Bytes
  import opened CacheSpec
  import opened CacheRuns

  /** The events that count as a use of `k`: a get of a key that is there, gettable and not lazily expired, its insertion, and an
      update that may change expiry, even one that then finds no room. */
  ghost predicate Uses(c: Config, a: Cache, ev: Event, k: Key)
    requires c.maxItems > 0
  {
    && ev.op.key == k
    && match ev.op
       case GetOp(_) => Visible(c, a, k, ev.now) && a.m[k].gettable
       case DelOp(_) => false
       case SweepOp(_, _) => false
       case SetOp(_, v, _, f) =>
         && Acceptable(c, k, v)
         && if Visible(c, a, k, ev.now) then f.update && !f.fixExpire else Step(c, a, ev).1.ok
  }

  /** The index of the last event that used `k`, or -1. */
  ghost function LastUse(c: Config, a: Cache, evs: seq<Event>, k: Key): int
    requires c.maxItems > 0
  {
    if evs == [] then -1
    else
      var n := |evs| - 1;
      if Uses(c, Run(c, a, evs[..n]), evs[n], k) then n else LastUse(c, a, evs[..n], k)
  }

  ghost predicate InUseOrder(c: Config, a: Cache, evs: seq<Event>, s: seq<Key>)
    requires c.maxItems > 0
  {
    forall i, j :: 0 <= i < j < |s| ==> LastUse(c, a, evs, s[i]) < LastUse(c, a, evs, s[j])
  }

  // ----- how a step changes the order

  lemma FullOrder(c: Config, a: Cache, now: nat) returns (live: set<Key>)
    ensures Full(c, a, now).lru == Keep(a.lru, live)
  {
    hide Keep, ExpiredKeys;
    var a1 := PurgeOldest(c, a);
    var a2 := Swept(c, a1, now);
    KeepEvery(a.lru, set k | k in a.lru);
    var live1 := if c.purgeLru && a.lru != [] then a1.m.Keys else set k | k in a.lru;
    assert a1.lru == Keep(a.lru, live1);
    KeepNone(a.lru);
    var full := Full(c, a, now);
    if full.lru == [] {
      live := {};
    } else if SweepDue(c, a1, now) {
      live := live1 * a2.m.Keys;
      KeepBoth(a.lru, live1, a2.m.Keys);
    } else {
      live := live1;
    }
  }

  lemma {:induction false} KeepBoth(s: seq<Key>, live: set<Key>, live': set<Key>)
    ensures Keep(Keep(s, live), live') == Keep(s, live * live')
  {
    if s != [] {
      var n := |s| - 1;
      KeepBoth(s[..n], live, live');
      KeepAppend(Keep(s[..n], live), s[n], live');
    }
  }

  /** After a step the order is the old one with keys left out and, if the step used a key, that key at the end. */
  lemma StepOrder(c: Config, a: Cache, ev: Event) returns (live: set<Key>, live': set<Key>)
    requires WellFormed(c, a) && c.purgeLru && c.maxItems > 0
    ensures var k := ev.op.key;
            if Uses(c, a, ev, k) then k !in live && Step(c, a, ev).0.lru == Keep(Keep(a.lru, live) + [k], live')
            else Step(c, a, ev).0.lru == Keep(a.lru, live)
  {
    hide Keep, WellFormed, Full, Acceptable, Deadline, Sooner;
    var k := ev.op.key;
    var (a1, found) := Lookup(c, a, k, ev.now);
    LookupResult(c, a, k, ev.now);
    var all := set x | x in a.lru;
    KeepEvery(a.lru, all);
    match ev.op
    case GetOp(_) =>
      live := if !found && a1 != a then (a.m - {k}).Keys else if Uses(c, a, ev, k) then a.m.Keys - {k} else all;
      live' := set x | x in Keep(a.lru, live) + [k];
      KeepEvery(Keep(a.lru, live) + [k], live');
    case DelOp(_) =>
      live := if found || a1 != a then (a.m - {k}).Keys else all;
      live' := {};
    case SweepOp(_, _) =>
      live := if k in a.m && Expired(a.m[k], ev.now) then (a.m - {k}).Keys else all;
      live' := {};
    case SetOp(_, v, _, f) =>
      if !Acceptable(c, k, v) {
        live, live' := all, {};
      } else if found {
        live, live' := UpdateOrder(c, a, ev);
      } else {
        live, live' := InsertOrder(c, a, ev);
      }
  }

  lemma UpdateOrder(c: Config, a: Cache, ev: Event) returns (live: set<Key>, live': set<Key>)
    requires c.purgeLru && c.maxItems > 0 && ev.op.SetOp? && Acceptable(c, ev.op.key, ev.op.val)
    requires Lookup(c, a, ev.op.key, ev.now) == (a, true)
    ensures var k := ev.op.key;
            if Uses(c, a, ev, k) then k !in live && Step(c, a, ev).0.lru == Keep(Keep(a.lru, live) + [k], live')
            else Step(c, a, ev).0.lru == Keep(a.lru, live)
  {
    hide Keep, Full, Acceptable, Deadline, Sooner, Expired, Visible;
    LookupSees(c, a, ev.op.key, ev.now);
    var k, f := ev.op.key, ev.op.flags;
    var a1 := Restamp(c, a, k, ev.op.expires, f, ev.now);
    var l := FullOrder(c, a1, ev.now);
    var everyone := set x | x in a1.lru;
    KeepEvery(a1.lru, everyone);
    var l1 := if ev.room then everyone else l;
    live, live' := a.m.Keys - {k}, l1;
    if !f.update {
      live := set x | x in a.lru;
      KeepEvery(a.lru, live);
    } else if f.fixExpire {
      live := l1;
    }
  }

  lemma InsertOrder(c: Config, a: Cache, ev: Event) returns (live: set<Key>, live': set<Key>)
    requires WellFormed(c, a) && c.purgeLru && c.maxItems > 0 && ev.op.SetOp? && Acceptable(c, ev.op.key, ev.op.val)
    requires !Lookup(c, a, ev.op.key, ev.now).1
    ensures var k := ev.op.key;
            if Uses(c, a, ev, k) then k !in live && Step(c, a, ev).0.lru == Keep(Keep(a.lru, live) + [k], live')
            else Step(c, a, ev).0.lru == Keep(a.lru, live)
  {
    hide Keep, WellFormed, Full, Acceptable, Deadline, Sooner, Expired, Distinct, Visible, Uses;
    InsertUses(c, a, ev);
    var k := ev.op.key;
    var a1 := Lookup(c, a, k, ev.now).0;
    LookupResult(c, a, k, ev.now);
    var all := (set x | x in a.lru) - {k};
    Lookups(c, a, ev);
    var l1 := FullOrder(c, a1, ev.now);
    var a2 := if |a1.m| == Capacity(c) then Full(c, a1, ev.now) else a1;
    var l2 := FullOrder(c, a2, ev.now);
    KeepBoth(a.lru, all, l1);
    var s2 := if |a1.m| == Capacity(c) then all * l1 else all;
    assert a2.lru == Keep(a.lru, s2);
    KeepBoth(a.lru, s2, l2);
    live := if |a2.m| == Capacity(c) || ev.room then s2 else s2 * l2;
    live' := set x | x in Keep(a.lru, live) + [k];
    KeepEvery(Keep(a.lru, live) + [k], live');
  }

  lemma LookupSees(c: Config, a: Cache, k: Key, now: nat)
    ensures Lookup(c, a, k, now).1 <==> Visible(c, a, k, now)
  {
    hide Keep;
  }

  lemma InsertUses(c: Config, a: Cache, ev: Event)
    requires c.maxItems > 0 && ev.op.SetOp? && Acceptable(c, ev.op.key, ev.op.val) && !Lookup(c, a, ev.op.key, ev.now).1
    ensures Uses(c, a, ev, ev.op.key) <==> Step(c, a, ev).1.ok
  {
    hide Insert, Acceptable, Keep, Expired, Visible;
    LookupSees(c, a, ev.op.key, ev.now);
  }

  lemma Lookups(c: Config, a: Cache, ev: Event)
    requires WellFormed(c, a) && c.purgeLru && !Lookup(c, a, ev.op.key, ev.now).1
    ensures Lookup(c, a, ev.op.key, ev.now).0.lru == Keep(a.lru, (set x | x in a.lru) - {ev.op.key})
  {
    hide Keep, Expired, Distinct, Acceptable;
    var k := ev.op.key;
    var all := (set x | x in a.lru) - {k};
    if k in a.m {
      assert (a.m - {k}).Keys == all;
    } else {
      assert k !in a.lru;
      KeepEvery(a.lru, all);
    }
  }

  // ----- the order over a run

  lemma {:induction false} KeepInOrder(c: Config, a: Cache, evs: seq<Event>, s: seq<Key>, live: set<Key>)
    requires c.maxItems > 0 && InUseOrder(c, a, evs, s)
    ensures InUseOrder(c, a, evs, Keep(s, live))
  {
    hide LastUse;
    if s != [] {
      var n := |s| - 1;
      KeepInOrder(c, a, evs, s[..n], live);
      KeepMembers(s[..n], live);
      assert forall i :: 0 <= i < |Keep(s[..n], live)| ==> Keep(s[..n], live)[i] in s[..n];
    }
  }

  lemma {:induction false} LastUseBound(c: Config, a: Cache, evs: seq<Event>, k: Key)
    requires c.maxItems > 0
    ensures -1 <= LastUse(c, a, evs, k) < |evs|
  {
    hide Uses, Run;
    if evs != [] {
      LastUseBound(c, a, evs[..|evs| - 1], k);
    }
  }

  lemma UsesOnlyItsKey(c: Config, a: Cache, ev: Event, k: Key)
    requires c.maxItems > 0
    ensures Uses(c, a, ev, k) ==> k == ev.op.key
  {
  }

  /** An order that the last event's key does not appear in, or that the event did not use, keeps its last uses. */
  lemma OrderCarries(c: Config, a: Cache, evs: seq<Event>, s: seq<Key>)
    requires c.maxItems > 0 && evs != []
    requires InUseOrder(c, a, evs[..|evs| - 1], s)
    requires forall i :: 0 <= i < |s| ==> !Uses(c, Run(c, a, evs[..|evs| - 1]), evs[|evs| - 1], s[i])
    ensures InUseOrder(c, a, evs, s)
  {
    hide Uses, Run;
  }

  /** With LRU purging, in every run the recency order lists each present key exactly once, least recently used first. */
  lemma {:induction false} RecencyIsUseOrder(c: Config, evs: seq<Event>)
    requires c.maxItems > 0 && c.purgeLru
    ensures var a := Run(c, EMPTY, evs);
            && Distinct(a.lru) && (forall k :: k in a.lru <==> k in a.m)
            && InUseOrder(c, EMPTY, evs, a.lru)
  {
    RunWellFormed(c, evs);
    if evs != [] {
      RecencyIsUseOrder(c, evs[..|evs| - 1]);
      UseOrderStep(c, evs);
    }
  }

  lemma UseOrderStep(c: Config, evs: seq<Event>)
    requires c.maxItems > 0 && c.purgeLru && evs != []
    requires InUseOrder(c, EMPTY, evs[..|evs| - 1], Run(c, EMPTY, evs[..|evs| - 1]).lru)
    ensures InUseOrder(c, EMPTY, evs, Run(c, EMPTY, evs).lru)
  {
    hide WellFormed, Step, Uses, LastUse, InUseOrder, Keep;
    var n := |evs| - 1;
    var a, ev := Run(c, EMPTY, evs[..n]), evs[n];
    RunWellFormed(c, evs[..n]);
    var live, live' := StepOrder(c, a, ev);
    var k, s := ev.op.key, Keep(a.lru, live);
    KeepInOrder(c, EMPTY, evs[..n], a.lru, live);
    KeepMembers(a.lru, live);
    forall i | 0 <= i < |s| ensures !Uses(c, a, ev, s[i]) {
      UsesOnlyItsKey(c, a, ev, s[i]);
      assert s[i] in s;
    }
    OrderCarries(c, EMPTY, evs, s);
    if Uses(c, a, ev, k) {
      JoinAtEnd(c, evs, s, k);
      KeepInOrder(c, EMPTY, evs, s + [k], live');
    }
  }

  lemma JoinAtEnd(c: Config, evs: seq<Event>, s: seq<Key>, k: Key)
    requires c.maxItems > 0 && evs != [] && InUseOrder(c, EMPTY, evs, s)
    requires Uses(c, Run(c, EMPTY, evs[..|evs| - 1]), evs[|evs| - 1], k)
    requires forall i :: 0 <= i < |s| ==> !Uses(c, Run(c, EMPTY, evs[..|evs| - 1]), evs[|evs| - 1], s[i])
    ensures InUseOrder(c, EMPTY, evs, s + [k])
  {
    hide Uses, Run;
    forall i | 0 <= i < |s| ensures LastUse(c, EMPTY, evs, s[i]) < LastUse(c, EMPTY, evs, k) {
      LastUseBound(c, EMPTY, evs[..|evs| - 1], s[i]);
    }
  }

  /** A full LRU cache without other policies takes any acceptable new key and evicts exactly its least recent one. */
  lemma FullLruEvictsOldest(c: Config, a: Cache, k: Key, v: seq<byte>, x: nat, f: Flags, now: nat)
    requires WellFormed(c, a) && c.purgeLru && c.sweepOnFull == 0 && !c.clearOnFull && c.maxItems >= 2
    requires |a.m| == Capacity(c) && k !in a.m && Acceptable(c, k, v)
    ensures a.lru != [] && a.lru[0] in a.m
    ensures Set(c, a, k, v, x, f, now, true) ==
            (Cache((a.m - {a.lru[0]})[k := Entry(v, x, !f.ungettable)], a.lru[1..] + [k], a.nextScan), true)
  {
    hide Acceptable, Distinct;
    assert a.m.Keys != {};
    var some :| some in a.m;
    assert some in a.lru;
    OldestGone(c, a);
    var m := a.m - {a.lru[0]};
    assert a.m.Keys == m.Keys + {a.lru[0]};
    hide Keep;
  }

  lemma OldestGone(c: Config, a: Cache)
    requires WellFormed(c, a) && c.purgeLru && a.lru != []
    ensures Keep(a.lru, (a.m - {a.lru[0]}).Keys) == a.lru[1..]
  {
    hide Acceptable;
    TailKept(a.lru, (a.m - {a.lru[0]}).Keys);
  }

  lemma TailKept(s: seq<Key>, live: set<Key>)
    requires s != [] && s[0] !in live && forall i :: 1 <= i < |s| ==> s[i] in live
    ensures Keep(s, live) == s[1..]
  {
    assert s == [s[0]] + s[1..];
    KeepConcat([s[0]], s[1..], live);
    assert Keep([s[0]], live) == [];
    KeepEvery(s[1..], live);
  }

  lemma {:induction false} KeepConcat(s: seq<Key>, t: seq<Key>, live: set<Key>)
    ensures Keep(s + t, live) == Keep(s, live) + Keep(t, live)
  {
    if t == [] {
      assert s + t == s;
    } else {
      var n := |t| - 1;
      KeepConcat(s, t[..n], live);
      assert s + t == (s + t[..n]) + [t[n]];
      KeepAppend(s + t[..n], t[n], live);
    }
  }
}
