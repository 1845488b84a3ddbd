/** The sweeper's promise: while an expiring entry is present, the next sweep is due no later than it expires. */
module CacheSweep {
  import opened Collections
  import opened Bytes
  import opened CacheSpec
  import opened CacheRuns

  ghost predicate Covered(a: Cache, k: Key) {
    k in a.m && a.m[k].expires > 0 ==> 0 < a.nextScan <= a.m[k].expires
  }

  ghost predicate AllCovered(a: Cache) {
    forall k :: k in a.m ==> Covered(a, k)
  }

  /** The sweeper skips its round when no sweep is due. */
  predicate Skips(a: Cache, now: nat) {
    a.nextScan == 0 || a.nextScan > now
  }

  lemma NeverSkippedWhileExpired(a: Cache, k: Key, now: nat)
    requires AllCovered(a) && k in a.m && Expired(a.m[k], now)
    ensures !Skips(a, now)
  {
    assert Covered(a, k);
  }

  /** An operation of a caller that sets no absolute expiry. */
  predicate RelativeOnly(ev: Event) {
    IsCall(ev.op) && (ev.op.SetOp? ==> !ev.op.flags.absExpire)
  }

  lemma FullScan(c: Config, a: Cache, now: nat)
    requires c.sweepOnFull == 0
    ensures Full(c, a, now).nextScan == a.nextScan && Sub(Full(c, a, now).m, a.m)
  {
    hide Keep;
    FullKeeps(c, a, now);
  }

  /** With relative expiries and without sweeping on a full cache, a step covers every key it brings in or restamps and
      uncovers none. */
  lemma StepCovers(c: Config, a: Cache, ev: Event, k: Key)
    requires c.maxItems > 0 && !c.purgeLru && c.sweepOnFull == 0 && RelativeOnly(ev)
    requires Covered(a, k) || k !in a.m
    ensures Covered(Step(c, a, ev).0, k)
  {
    hide Keep, Set;
    if ev.op.SetOp? {
      SetCovers(c, a, ev, k);
    }
  }

  lemma SetCovers(c: Config, a: Cache, ev: Event, k: Key)
    requires c.maxItems > 0 && !c.purgeLru && c.sweepOnFull == 0 && RelativeOnly(ev) && ev.op.SetOp?
    requires Covered(a, k) || k !in a.m
    ensures Covered(Set(c, a, ev.op.key, ev.op.val, ev.op.expires, ev.op.flags, ev.now, ev.room).0, k)
  {
    hide Keep, Full, Acceptable, Expired;
    var a1 := Lookup(c, a, ev.op.key, ev.now).0;
    FullScan(c, a1, ev.now);
    FullScan(c, Full(c, a1, ev.now), ev.now);
    if ev.op.key in a1.m {
      FullScan(c, Restamp(c, a1, ev.op.key, ev.op.expires, ev.op.flags, ev.now), ev.now);
    }
  }

  /** Between sweeps, every run keeps every expiring entry covered. */
  lemma {:induction false} RunCovers(c: Config, a: Cache, evs: seq<Event>)
    requires c.maxItems > 0 && !c.purgeLru && c.sweepOnFull == 0 && AllCovered(a)
    requires forall i :: 0 <= i < |evs| ==> RelativeOnly(evs[i])
    ensures AllCovered(Run(c, a, evs))
  {
    hide Step, Covered, RelativeOnly;
    if evs != [] {
      var n := |evs| - 1;
      RunCovers(c, a, evs[..n]);
      var b := Run(c, a, evs[..n]);
      forall k | k in Step(c, b, evs[n]).0.m ensures Covered(Step(c, b, evs[n]).0, k) {
        StepCovers(c, b, evs[n], k);
      }
    }
  }

  /** The condition on expiries is needed: a set with an absolute expiry that inserts or restamps its entry leaves it
      covered exactly when an earlier sweep is already due. */
  lemma AbsoluteExpiryCoverage(c: Config, a: Cache, k: Key, v: seq<byte>, x: nat, f: Flags, now: nat)
    requires WellFormed(c, a) && !c.purgeLru && !c.lazyExpire && f.absExpire && x > 0 && Acceptable(c, k, v)
    requires if k in a.m then f.update && !f.fixExpire else |a.m| < Capacity(c)
    ensures Covered(Set(c, a, k, v, x, f, now, true).0, k) <==> 0 < a.nextScan <= x
  {
    hide Keep, Acceptable, WellFormed;
  }

  // ----- one lock section of a sweep

  lemma SectionCovers(a: Cache, k: Key, first: bool, now: nat, k': Key)
    requires k' == k || (!first && Covered(a, k'))
    ensures Covered(Section(a, k, first, now), k')
  {
    hide Keep;
  }

  lemma SectionRemovesOnlyExpired(a: Cache, k: Key, first: bool, now: nat, k': Key)
    requires k' in a.m
    ensures k' !in Section(a, k, first, now).m <==> k' == k && Expired(a.m[k'], now)
    ensures k' in Section(a, k, first, now).m ==> Section(a, k, first, now).m[k'] == a.m[k']
  {
    hide Keep;
  }
}
