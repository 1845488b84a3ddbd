/** Where the values of a cache with a bitmap lie. With the blocks each key holds and the scan position, the answers of the
    block allocator, and so the whole run of a cache, are determined by the operations. */
module CacheBlocks {
  import opened Bytes
  import opened Collections
  import opened CacheSpec
  import opened CacheRuns
  import BB = BlockBitmap

  datatype Extent = Extent(start: nat, count: nat)

  datatype Layout = Layout(places: map<Key, Extent>, pos: nat)

  /** The data area: its block size, its blocks, and the bits of the bitmap, padding included. */
  datatype Area = Area(blocksize: nat, blocks: nat, size: nat)

  ghost function BlockCount(ar: Area, len: nat): nat {
    if ar.blocksize == 0 then 0 else BB.BlocksFor(len, ar.blocksize)
  }

  ghost predicate Taken(l: Layout, b: nat) {
    exists k :: k in l.places && l.places[k].start <= b < l.places[k].start + l.places[k].count
  }

  /** The bitmap of a layout: padding and the blocks of its keys. */
  ghost function Marked(ar: Area, l: Layout): seq<bool> {
    seq(ar.size, b requires 0 <= b < ar.size => b >= ar.blocks || Taken(l, b))
  }

  ghost function Left(l: Layout, keys: set<Key>): Layout {
    l.(places := l.places - (l.places.Keys - keys))
  }

  // ----- the first fit, as a function

  ghost function Leftmost(bits: seq<bool>, lo: nat, hi: nat, n: nat): nat
    decreases hi - lo
  {
    if lo >= hi then BB.NO_BLOCK
    else if BB.RunIn(bits, lo, hi, n, lo) then lo
    else Leftmost(bits, lo + 1, hi, n)
  }

  ghost function Found(bits: seq<bool>, pos: nat, n: nat): nat {
    var start := Leftmost(bits, pos, |bits|, n);
    if start != BB.NO_BLOCK then start else Leftmost(bits, 0, BB.PrefixEnd(pos), n)
  }

  lemma {:induction false} LeftmostIs(bits: seq<bool>, lo: nat, hi: nat, n: nat, start: nat)
    requires n > 0 && BB.LeftmostRun(bits, lo, hi, n, start)
    ensures Leftmost(bits, lo, hi, n) == start
    decreases hi - lo
  {
    hide BB.FreeRun;
    if !BB.RunIn(bits, lo, hi, n, lo) {
      var lo1 := lo + 1;
      forall s: nat | BB.RunIn(bits, lo1, hi, n, s) ensures BB.RunIn(bits, lo, hi, n, s) {
      }
      assert BB.RunIn(bits, lo1, hi, n, start);
      LeftmostIs(bits, lo1, hi, n, start);
    }
  }

  lemma {:induction false} LeftmostNone(bits: seq<bool>, lo: nat, hi: nat, n: nat)
    requires BB.NoRun(bits, lo, hi, n)
    ensures Leftmost(bits, lo, hi, n) == BB.NO_BLOCK
    decreases hi - lo
  {
    hide BB.FreeRun;
    if lo < hi {
      var lo1 := lo + 1;
      forall s: nat | BB.RunIn(bits, lo1, hi, n, s) ensures BB.RunIn(bits, lo, hi, n, s) {
      }
      LeftmostNone(bits, lo1, hi, n);
    }
  }

  /** The allocator's search has one answer. */
  lemma FirstFitIsFound(bits: seq<bool>, pos: nat, n: nat, start: nat)
    requires n > 0 && |bits| < BB.NO_BLOCK && BB.FirstFit(bits, pos, n, start)
    ensures start == Found(bits, pos, n)
  {
    hide BB.FreeRun, BB.PrefixEnd, Leftmost;
    if start == BB.NO_BLOCK {
      LeftmostNone(bits, pos, |bits|, n);
      LeftmostNone(bits, 0, BB.PrefixEnd(pos), n);
    } else if BB.LeftmostRun(bits, pos, |bits|, n, start) {
      LeftmostIs(bits, pos, |bits|, n, start);
    } else {
      LeftmostNone(bits, pos, |bits|, n);
      LeftmostIs(bits, 0, BB.PrefixEnd(pos), n, start);
    }
  }

  // ----- how operations move blocks

  /** The map when a set comes to look for blocks: after its lookup and, when it has to make room, after the cache gave
      something up. */
  ghost function BeforePlacing(c: Config, a: Cache, k: Key, v: seq<byte>, now: nat): Cache
    requires c.maxItems > 0
  {
    if !Acceptable(c, k, v) then a
    else
      var a1 := Lookup(c, a, k, now).0;
      if k in a1.m then a1 else RoomMade(c, a1, now)
  }

  /** A full cache gives something up before a new key comes in. */
  ghost function RoomMade(c: Config, a: Cache, now: nat): Cache
    requires c.maxItems > 0
  {
    if |a.m| == Capacity(c) then Full(c, a, now) else a
  }

  lemma LeftForPlacing(c: Config, a: Cache, l: Layout, k: Key, v: seq<byte>, now: nat)
    requires c.maxItems > 0 && Acceptable(c, k, v)
    ensures var a1 := Lookup(c, a, k, now).0;
            Left(l, BeforePlacing(c, a, k, v, now).m.Keys) ==
            if k in a1.m then Left(l, a1.m.Keys) else Left(Left(l, a1.m.Keys), RoomMade(c, a1, now).m.Keys)
  {
    hide Full, Left, Lookup;
    var a1 := Lookup(c, a, k, now).0;
    FullKeeps(c, a1, now);
    LeftLeft(l, a1.m.Keys, RoomMade(c, a1, now).m.Keys);
  }

  ghost predicate FitsIn(c: Config, ar: Area, l: Layout, len: nat) {
    c.bitmap ==> BB.HasRoom(Marked(ar, l), l.pos, BlockCount(ar, len))
  }

  /** The allocator's answer to an operation. */
  ghost predicate Room(c: Config, ar: Area, a: Cache, l: Layout, op: Op, now: nat)
    requires c.maxItems > 0
  {
    op.SetOp? ==> FitsIn(c, ar, Left(l, BeforePlacing(c, a, op.key, op.val, now).m.Keys), |op.val|)
  }

  /** A value goes to the first fit, and the scan goes on after it. */
  ghost function Put(ar: Area, l: Layout, k: Key, len: nat): Layout {
    var n := BlockCount(ar, len);
    var start := Found(Marked(ar, l), l.pos, n);
    Layout(l.places[k := Extent(start, n)], if start + n >= ar.blocks then 0 else start + n)
  }

  /** A value that fits goes to blocks nobody holds, just enough of them, and the scan goes on behind them or starts again. */
  lemma PutLaw(c: Config, ar: Area, l: Layout, k: Key, len: nat)
    requires c.bitmap && ar.blocksize > 0 && len > 0 && ar.blocks <= ar.size < BB.NO_BLOCK && FitsIn(c, ar, l, len)
    ensures var l' := Put(ar, l, k, len);
            var x := l'.places[k];
            && l'.places == l.places[k := x] && x.start + x.count <= ar.blocks
            && (x.count - 1) * ar.blocksize < len <= x.count * ar.blocksize
            && (forall b :: x.start <= b < x.start + x.count ==> !Taken(l, b))
            && l'.pos == if x.start + x.count < ar.blocks then x.start + x.count else 0
  {
    hide Taken, Found, Marked, BB.HasRoom, BB.BlocksFor;
    var n := BlockCount(ar, len);
    JustEnough(len, ar.blocksize);
    MarkedSize(ar, l);
    FoundIsRun(Marked(ar, l), l.pos, n);
    MarkedRun(ar, l, Found(Marked(ar, l), l.pos, n), n);
  }

  lemma JustEnough(len: nat, blocksize: nat)
    requires blocksize > 0 && len > 0
    ensures var n := BB.BlocksFor(len, blocksize); n > 0 && (n - 1) * blocksize < len <= n * blocksize
  {
    BB.BlocksForBounds(len, blocksize);
    hide BB.BlocksFor;
  }

  lemma MarkedSize(ar: Area, l: Layout)
    ensures |Marked(ar, l)| == ar.size
  {
  }

  lemma MarkedRun(ar: Area, l: Layout, start: nat, n: nat)
    requires n > 0 && BB.FreeRun(Marked(ar, l), start, n)
    ensures start + n <= ar.blocks && forall b :: start <= b < start + n ==> !Taken(l, b)
  {
    hide Taken;
    assert !Marked(ar, l)[start + n - 1];
    forall b | start <= b < start + n ensures !Taken(l, b) {
      assert !Marked(ar, l)[b];
    }
  }

  lemma FoundIsRun(bits: seq<bool>, pos: nat, n: nat)
    requires n > 0 && |bits| < BB.NO_BLOCK && BB.HasRoom(bits, pos, n)
    ensures Found(bits, pos, n) != BB.NO_BLOCK && BB.FreeRun(bits, Found(bits, pos, n), n)
  {
    hide BB.FreeRun, BB.PrefixEnd;
    LeftmostFinds(bits, pos, |bits|, n);
    LeftmostFinds(bits, 0, BB.PrefixEnd(pos), n);
  }

  lemma {:induction false} LeftmostFinds(bits: seq<bool>, lo: nat, hi: nat, n: nat)
    requires n > 0 && |bits| < BB.NO_BLOCK
    ensures var start := Leftmost(bits, lo, hi, n);
            (start == BB.NO_BLOCK <==> BB.NoRun(bits, lo, hi, n)) && (start != BB.NO_BLOCK ==> BB.FreeRun(bits, start, n))
    decreases hi - lo
  {
    hide BB.FreeRun;
    if lo < hi {
      if BB.RunIn(bits, lo, hi, n, lo) {
        RunInside(bits, lo, n);
      } else {
        var lo1 := lo + 1;
        LeftmostFinds(bits, lo1, hi, n);
        forall s: nat ensures BB.RunIn(bits, lo, hi, n, s) <==> BB.RunIn(bits, lo1, hi, n, s) {
        }
      }
    }
  }

  lemma RunInside(bits: seq<bool>, start: nat, n: nat)
    requires BB.FreeRun(bits, start, n)
    ensures start + n <= |bits|
  {
  }

  ghost function LayoutAfter(c: Config, ar: Area, a: Cache, l: Layout, ev: Event): Layout
    requires c.maxItems > 0
  {
    var (a', reply) := Step(c, a, ev);
    if ev.op.SetOp? && reply == Stored(true)
    then Put(ar, Left(l, BeforePlacing(c, a, ev.op.key, ev.op.val, ev.now).m.Keys), ev.op.key, |ev.op.val|)
    else Left(l, a'.m.Keys)
  }

  ghost function RunLayout(c: Config, ar: Area, a: Cache, l: Layout, evs: seq<Event>): Layout
    requires c.maxItems > 0
  {
    if evs == [] then l
    else
      var n := |evs| - 1;
      LayoutAfter(c, ar, Run(c, a, evs[..n]), RunLayout(c, ar, a, l, evs[..n]), evs[n])
  }

  /** Every event carries the answer the allocator gives in the state the events before it lead to. */
  ghost predicate Allocated(c: Config, ar: Area, a: Cache, l: Layout, evs: seq<Event>)
    requires c.maxItems > 0
  {
    forall i :: 0 <= i < |evs| ==>
      (evs[i].room <==> Room(c, ar, Run(c, a, evs[..i]), RunLayout(c, ar, a, l, evs[..i]), evs[i].op, evs[i].now))
  }

  lemma OneMoreEvent(c: Config, ar: Area, a: Cache, l: Layout, evs: seq<Event>, lay: Layout, ev: Event)
    requires c.maxItems > 0 && Allocated(c, ar, a, l, evs) && (c.bitmap ==> lay == RunLayout(c, ar, a, l, evs))
    requires ev.room <==> Room(c, ar, Run(c, a, evs), lay, ev.op, ev.now)
    ensures Allocated(c, ar, a, l, evs + [ev])
    ensures c.bitmap ==> RunLayout(c, ar, a, l, evs + [ev]) == LayoutAfter(c, ar, Run(c, a, evs), lay, ev)
  {
    hide Run, LayoutAfter, BeforePlacing, Left;
    var evs' := evs + [ev];
    assert evs'[..|evs|] == evs;
    forall i | 0 <= i < |evs'|
      ensures evs'[i].room <==> Room(c, ar, Run(c, a, evs'[..i]), RunLayout(c, ar, a, l, evs'[..i]), evs'[i].op, evs'[i].now)
    {
      if i < |evs| {
        assert evs'[..i] == evs[..i] && evs'[i] == evs[i];
      }
    }
  }

  lemma NoEvents(c: Config, ar: Area, a: Cache, l: Layout)
    requires c.maxItems > 0
    ensures Allocated(c, ar, a, l, []) && RunLayout(c, ar, a, l, []) == l && Run(c, a, []) == a
  {
  }

  /** Two runs one after the other. */
  lemma {:induction false} RunsJoin(c: Config, ar: Area, a: Cache, l: Layout, evs: seq<Event>, more: seq<Event>)
    requires c.maxItems > 0 && Allocated(c, ar, a, l, evs)
    requires Allocated(c, ar, Run(c, a, evs), RunLayout(c, ar, a, l, evs), more)
    ensures Run(c, a, evs + more) == Run(c, Run(c, a, evs), more)
    ensures RunLayout(c, ar, a, l, evs + more) == RunLayout(c, ar, Run(c, a, evs), RunLayout(c, ar, a, l, evs), more)
    ensures Allocated(c, ar, a, l, evs + more)
  {
    hide Step, Room, LayoutAfter, Allocated, Run, RunLayout;
    var b, m := Run(c, a, evs), RunLayout(c, ar, a, l, evs);
    if more == [] {
      assert evs + more == evs;
      NoEvents(c, ar, b, m);
    } else {
      var n := |more| - 1;
      AllocatedPrefix(c, ar, b, m, more, n);
      RunsJoin(c, ar, a, l, evs, more[..n]);
      var all := evs + more[..n];
      assert evs + more == all + [more[n]] && more == more[..n] + [more[n]];
      RunLast(c, ar, a, l, all, more[n]);
      RunLast(c, ar, b, m, more[..n], more[n]);
      OneMoreEvent(c, ar, a, l, all, RunLayout(c, ar, a, l, all), more[n]);
    }
  }

  lemma RunLast(c: Config, ar: Area, a: Cache, l: Layout, evs: seq<Event>, ev: Event)
    requires c.maxItems > 0
    ensures Run(c, a, evs + [ev]) == Step(c, Run(c, a, evs), ev).0
    ensures RunLayout(c, ar, a, l, evs + [ev]) == LayoutAfter(c, ar, Run(c, a, evs), RunLayout(c, ar, a, l, evs), ev)
  {
    hide Step, LayoutAfter;
    assert (evs + [ev])[..|evs|] == evs;
  }

  /** Without a bitmap the layout does not matter. */
  lemma AnyLayout(c: Config, ar: Area, a: Cache, l: Layout, l': Layout, evs: seq<Event>)
    requires c.maxItems > 0 && !c.bitmap && Allocated(c, ar, a, l, evs)
    ensures Allocated(c, ar, a, l', evs)
  {
    hide Run, RunLayout, BeforePlacing, Left;
  }

  lemma AllocatedPrefix(c: Config, ar: Area, a: Cache, l: Layout, evs: seq<Event>, n: nat)
    requires c.maxItems > 0 && Allocated(c, ar, a, l, evs) && n <= |evs|
    ensures Allocated(c, ar, a, l, evs[..n])
    ensures n < |evs| ==>
              (evs[n].room <==> Room(c, ar, Run(c, a, evs[..n]), RunLayout(c, ar, a, l, evs[..n]), evs[n].op, evs[n].now))
  {
    hide Run, RunLayout, Room;
    assert forall i :: 0 <= i < n ==> evs[..n][..i] == evs[..i];
  }

  /** With the rooms pinned, equal operations at equal times make equal runs. */
  lemma {:induction false} RunsAreDetermined(c: Config, ar: Area, a: Cache, l: Layout, evs: seq<Event>, evs': seq<Event>)
    requires c.maxItems > 0 && Allocated(c, ar, a, l, evs) && Allocated(c, ar, a, l, evs') && |evs| == |evs'|
    requires forall i :: 0 <= i < |evs| ==> evs[i].op == evs'[i].op && evs[i].now == evs'[i].now
    ensures evs == evs'
  {
    hide Room, RunLayout, Run;
    if evs != [] {
      var n := |evs| - 1;
      assert forall i :: 0 <= i < n ==> evs[..n][..i] == evs[..i] && evs'[..n][..i] == evs'[..i];
      RunsAreDetermined(c, ar, a, l, evs[..n], evs'[..n]);
      assert evs[n].room == evs'[n].room;
      assert evs == evs[..n] + [evs[n]] && evs' == evs'[..n] + [evs'[n]];
    }
  }

  /** Without a bitmap there is always room. */
  lemma DirectRoom(c: Config, ar: Area, a: Cache, l: Layout, evs: seq<Event>, i: nat)
    requires c.maxItems > 0 && Allocated(c, ar, a, l, evs) && !c.bitmap && i < |evs|
    ensures evs[i].room
  {
    hide Run, RunLayout, BeforePlacing;
  }

  // ----- layouts

  lemma LeftPlaces(l: Layout, keys: set<Key>)
    ensures forall k :: k in Left(l, keys).places <==> k in l.places && k in keys
    ensures forall k :: k in Left(l, keys).places ==> Left(l, keys).places[k] == l.places[k]
  {
  }

  lemma LeftLeft(l: Layout, keys: set<Key>, keys': set<Key>)
    requires keys' <= keys
    ensures Left(Left(l, keys), keys') == Left(l, keys')
  {
    assert Left(Left(l, keys), keys').places == Left(l, keys').places;
  }

  // ----- runs of operations at given times

  /** These operations, at these times, are a run from one cache and layout to another, with the allocator's own answers. */
  ghost predicate Ran(c: Config, ar: Area, a: Cache, l: Layout, ops: seq<(Op, nat)>, evs: seq<Event>, a': Cache, l': Layout)
    requires c.maxItems > 0
  {
    && |evs| == |ops|
    && (forall i :: 0 <= i < |ops| ==> evs[i].op == ops[i].0 && evs[i].now == ops[i].1)
    && Allocated(c, ar, a, l, evs)
    && a' == Run(c, a, evs)
    && (c.bitmap ==> l' == RunLayout(c, ar, a, l, evs))
  }

  lemma RanNothing(c: Config, ar: Area, a: Cache, l: Layout)
    requires c.maxItems > 0
    ensures Ran(c, ar, a, l, [], [], a, l)
  {
  }

  lemma RanMore(c: Config, ar: Area, a: Cache, l: Layout, ops: seq<(Op, nat)>, evs: seq<Event>, b: Cache, m: Layout, ev: Event,
                a': Cache, l': Layout)
    requires c.maxItems > 0 && Ran(c, ar, a, l, ops, evs, b, m)
    requires ev.room <==> Room(c, ar, b, m, ev.op, ev.now)
    requires a' == Step(c, b, ev).0 && (c.bitmap ==> l' == LayoutAfter(c, ar, b, m, ev))
    ensures Ran(c, ar, a, l, ops + [(ev.op, ev.now)], evs + [ev], a', l')
  {
    hide Step, Room, LayoutAfter, Allocated, Run, RunLayout;
    OneMoreEvent(c, ar, a, l, evs, m, ev);
    RunLast(c, ar, a, l, evs, ev);
  }

  lemma RanJoin(c: Config, ar: Area, a: Cache, l: Layout, ops: seq<(Op, nat)>, evs: seq<Event>, b: Cache, m: Layout,
                ops': seq<(Op, nat)>, evs': seq<Event>, a': Cache, l': Layout)
    requires c.maxItems > 0 && Ran(c, ar, a, l, ops, evs, b, m) && Ran(c, ar, b, m, ops', evs', a', l')
    ensures Ran(c, ar, a, l, ops + ops', evs + evs', a', l')
  {
    hide Allocated, Run, RunLayout;
    if !c.bitmap {
      AnyLayout(c, ar, b, m, RunLayout(c, ar, a, l, evs), evs');
    }
    RunsJoin(c, ar, a, l, evs, evs');
  }
}
