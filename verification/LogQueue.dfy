/** The bounded queue between the loggers and their sinks. The sinks are handed the bytes of each write and keep what they
    accept: some nonempty prefix, or nothing. How much a call accepts is arbitrary but fair: something again after any number
    of refusals. */
module LogQueue {
  import opened Bytes
  import opened Collections

  const BATCH_IOV_MAX: nat := 16
  const BATCH_BYTES_MAX: nat := 65536

  datatype Item = Item(logger: nat, text: seq<byte>, pos: nat)

  // a byte and the logger it was submitted to
  type Tagged = (nat, byte)

  // ----- what a list of items stands for

  function Tag(logger: nat, text: seq<byte>): (t: seq<Tagged>)
    ensures |t| == |text|
  {
    seq(|text|, i requires 0 <= i < |text| => (logger, text[i]))
  }

  /** The bytes of an item not yet written. */
  ghost function Unwritten(item: Item): seq<Tagged> {
    if item.pos <= |item.text| then Tag(item.logger, item.text[item.pos..]) else []
  }

  ghost function Pending(items: seq<Item>): seq<Tagged> {
    if items == [] then [] else Unwritten(items[0]) + Pending(items[1..])
  }

  ghost function TotalLength(items: seq<Item>): nat {
    if items == [] then 0 else |items[0].text| + TotalLength(items[1..])
  }

  /** Only the head can be partly written, and no item is empty or finished. */
  ghost predicate WellFormed(items: seq<Item>) {
    && (forall i :: 0 <= i < |items| ==> |items[i].text| > items[i].pos)
    && (forall i :: 0 < i < |items| ==> items[i].pos == 0)
  }

  lemma DropTwice<T>(p: seq<T>, i: nat, j: nat)
    requires i + j <= |p|
    ensures p[i..][j..] == p[i + j..]
  {
  }

  lemma {:induction false} PendingAppend(items: seq<Item>, item: Item)
    ensures Pending(items + [item]) == Pending(items) + Unwritten(item)
  {
    hide Unwritten;
    if items == [] {
      assert items + [item] == [item] && [item][1..] == [];
    } else {
      assert (items + [item])[1..] == items[1..] + [item];
      PendingAppend(items[1..], item);
    }
  }

  lemma {:induction false} LengthAppend(items: seq<Item>, item: Item)
    ensures TotalLength(items + [item]) == TotalLength(items) + |item.text|
  {
    if items == [] {
      assert items + [item] == [item] && [item][1..] == [];
    } else {
      assert (items + [item])[1..] == items[1..] + [item];
      LengthAppend(items[1..], item);
    }
  }

  lemma {:induction false} PendingPositive(items: seq<Item>)
    requires WellFormed(items) && items != []
    ensures |Unwritten(items[0])| == |items[0].text| - items[0].pos > 0
    ensures |Pending(items)| >= |Unwritten(items[0])| > 0
    ensures WellFormed(items[1..])
  {
    assert forall i :: 0 <= i < |items[1..]| ==> items[1..][i] == items[i + 1];
  }

  lemma PartlyWritten(item: Item, k: nat)
    requires item.pos + k <= |item.text|
    ensures |Unwritten(item)| == |item.text| - item.pos
    ensures Unwritten(item.(pos := item.pos + k)) == Unwritten(item)[k..]
  {
  }

  /** Dropping k unwritten bytes of the head. */
  lemma {:induction false} PartialHead(items: seq<Item>, k: nat)
    requires WellFormed(items) && items != [] && k < |items[0].text| - items[0].pos
    ensures var items' := items[0 := items[0].(pos := items[0].pos + k)];
            && WellFormed(items') && TotalLength(items') == TotalLength(items)
            && Pending(items') == Pending(items)[k..]
  {
    hide Unwritten;
    var items' := items[0 := items[0].(pos := items[0].pos + k)];
    assert items'[1..] == items[1..];
    var u := Unwritten(items[0]);
    PartlyWritten(items[0], k);
    assert (u + Pending(items[1..]))[k..] == u[k..] + Pending(items[1..]);
  }

  lemma {:induction false} WholeHead(items: seq<Item>)
    requires WellFormed(items) && items != []
    ensures Pending(items)[|items[0].text| - items[0].pos..] == Pending(items[1..])
    ensures Pending(items)[..|items[0].text| - items[0].pos] == Unwritten(items[0])
    ensures |Pending(items)| == |items[0].text| - items[0].pos + |Pending(items[1..])|
    ensures TotalLength(items) == |items[0].text| + TotalLength(items[1..])
  {
    var u := Unwritten(items[0]);
    assert (u + Pending(items[1..]))[|u|..] == Pending(items[1..]);
    assert (u + Pending(items[1..]))[..|u|] == u;
  }

  // ----- the bytes of a write

  function Joined(iov: seq<seq<byte>>): seq<byte> {
    if iov == [] then [] else Joined(iov[..|iov| - 1]) + iov[|iov| - 1]
  }

  lemma TagJoin(logger: nat, a: seq<byte>, b: seq<byte>)
    ensures Tag(logger, a + b) == Tag(logger, a) + Tag(logger, b)
  {
  }

  lemma TagPrefix(logger: nat, text: seq<byte>, n: nat)
    requires n <= |text|
    ensures Tag(logger, text[..n]) == Tag(logger, text)[..n]
  {
  }

  /** The vectors are the texts of the first items, which are untouched and of one logger: together, the first pending bytes. */
  ghost predicate IsBatch(items: seq<Item>, iov: seq<seq<byte>>) {
    && |iov| <= |items| && |iov| <= BATCH_IOV_MAX
    && (forall i :: 0 <= i < |iov| ==> items[i].logger == items[0].logger && items[i].pos == 0 && iov[i] == items[i].text)
    && |Joined(iov)| <= |Pending(items)| && (iov != [] ==> |Joined(iov)| > 0)
    && (items != [] ==> Tag(items[0].logger, Joined(iov)) == Pending(items)[..|Joined(iov)|])
    && Pending(items)[|Joined(iov)|..] == Pending(items[|iov|..])
  }

  method GatherBatch(items: seq<Item>) returns (iov: seq<seq<byte>>)
    requires WellFormed(items) && items != [] && items[0].pos == 0
    ensures IsBatch(items, iov) && iov != []
    ensures |iov| > 1 ==> |Joined(iov)| <= 65536
    ensures |iov| < |items| && |iov| < 16 ==>
              var next := items[|iov|];
              next.logger != items[0].logger || next.pos != 0 || |Joined(iov)| + |next.text| > 65536
  {
    hide IsBatch, Pending, Tag;
    iov := [];
    var len := 0;
    NoBatch(items);
    while |iov| < |items| && |iov| < BATCH_IOV_MAX
      invariant IsBatch(items, iov) && |iov| <= |items| && len == |Joined(iov)| && (|iov| > 1 ==> len <= BATCH_BYTES_MAX)
      decreases |items| - |iov|
    {
      var n := |iov|;
      if items[n].logger != items[0].logger || items[n].pos != 0 {
        break;
      }
      if n > 0 && len + |items[n].text| > BATCH_BYTES_MAX {
        break;
      }
      BatchGrows(items, iov);
      len := len + |items[n].text|;
      iov := iov + [items[n].text];
      assert iov[..n] + [iov[n]] == iov;
    }
  }

  lemma NoBatch(items: seq<Item>)
    ensures IsBatch(items, [])
  {
    assert items[0..] == items && Pending(items)[0..] == Pending(items);
  }

  lemma {:induction false} BatchGrows(items: seq<Item>, iov: seq<seq<byte>>)
    requires WellFormed(items) && IsBatch(items, iov) && |iov| < |items| && |iov| < BATCH_IOV_MAX
    requires items[|iov|].logger == items[0].logger && items[|iov|].pos == 0
    ensures IsBatch(items, iov + [items[|iov|].text])
    ensures Joined(iov + [items[|iov|].text]) == Joined(iov) + items[|iov|].text
  {
    hide Tag, Unwritten, Pending;
    var n, t := |iov|, items[|iov|].text;
    var p, tail, len := Pending(items), items[n..], |Joined(iov)|;
    assert (iov + [t])[..n] == iov && (iov + [t])[n] == t;
    assert tail[0] == items[n] && tail[1..] == items[n + 1..];
    assert WellFormed(tail);
    WholeHead(tail);
    WholeText(items[n]);
    TagJoin(items[0].logger, Joined(iov), t);
    DropTwice(p, len, |t|);
    assert p[..len + |t|] == p[..len] + p[len..][..|t|];
    BatchTexts(items, iov, t);
  }

  lemma BatchTexts(items: seq<Item>, iov: seq<seq<byte>>, t: seq<byte>)
    requires |iov| < |items| && items[|iov|].logger == items[0].logger && items[|iov|].pos == 0 && items[|iov|].text == t
    requires forall i :: 0 <= i < |iov| ==> items[i].logger == items[0].logger && items[i].pos == 0 && iov[i] == items[i].text
    ensures forall i :: 0 <= i < |iov + [t]| ==>
              items[i].logger == items[0].logger && items[i].pos == 0 && (iov + [t])[i] == items[i].text
  {
  }

  // ----- the sinks

  /** After any refusal the sinks are `next(k) - k` calls away from accepting something. */
  ghost predicate Fair(answers: nat -> nat, next: nat -> nat) {
    forall k: nat :: next(k) >= k && answers(next(k)) > 0 && (answers(k) == 0 ==> next(k + 1) == next(k))
  }

  class Sinks {
    // how much the k-th call accepts at most, and whether the logger of the head then takes batches
    const answers: nat -> nat
    const batchable: nat -> bool
    ghost const next: nat -> nat
    var calls: nat
    /** Every byte accepted, with the logger it was written for. */
    var log: seq<Tagged>

    constructor (answers: nat -> nat, batchable: nat -> bool, ghost next: nat -> nat)
      ensures log == [] && this.answers == answers && this.batchable == batchable && this.next == next
    {
      this.answers, this.batchable, this.next := answers, batchable, next;
      calls, log := 0, [];
    }

    method Write(logger: nat, bytes: seq<byte>) returns (written: nat)
      requires bytes != []
      modifies this
      ensures calls == old(calls) + 1 && written == Min(answers(old(calls)), |bytes|)
      ensures log == old(log) + Tag(logger, bytes[..written])
    {
      var willing := answers(calls);
      calls := calls + 1;
      written := if willing < |bytes| then willing else |bytes|;
      log := log + Tag(logger, bytes[..written]);
    }

    method Writev(logger: nat, iov: seq<seq<byte>>) returns (written: nat)
      requires Joined(iov) != []
      modifies this
      ensures calls == old(calls) + 1 && written == Min(answers(old(calls)), |Joined(iov)|)
      ensures log == old(log) + Tag(logger, Joined(iov)[..written])
    {
      written := Write(logger, Joined(iov));
    }
  }

  // ----- the queue

  /** The byte cap holds in all these states of the queue. */
  ghost predicate BytesWithin(trail: seq<seq<Item>>, cap: nat) {
    forall i :: 0 <= i < |trail| ==> TotalLength(trail[i]) <= cap
  }

  ghost predicate RecordsWithin(trail: seq<seq<Item>>, cap: nat) {
    forall i :: 0 <= i < |trail| ==> |trail[i]| <= cap
  }

  class Queue {
    const recordsCap: nat
    const bytesCap: nat
    const sinks: Sinks
    var items: seq<Item>
    var depth: nat
    var bytes: nat
    var enqueueEvents: nat
    var flushEvents: nat
    ghost var submitted: seq<Tagged>
    /** Every state the list has been in. */
    ghost var trail: seq<seq<Item>>

    /** The trail ends with the list as it is. */
    ghost predicate Traced()
      reads this
    {
      trail != [] && trail[|trail| - 1] == items
    }

    /** The counters agree with the list. */
    ghost predicate Counted()
      reads this
    {
      WellFormed(items) && depth == |items| && bytes == TotalLength(items)
    }

    /** No byte is lost, duplicated or moved: the sinks have what is not pending any more. */
    ghost predicate Valid()
      reads this, sinks
    {
      && recordsCap >= 1 && Fair(sinks.answers, sinks.next)
      && Counted() && Traced() && enqueueEvents == flushEvents + depth
      && submitted == sinks.log + Pending(items)
    }

    ghost predicate WithinCaps()
      reads this
    {
      depth <= recordsCap && bytes <= bytesCap
    }

    constructor (recordsCap: nat, bytesCap: nat, sinks: Sinks)
      requires recordsCap >= 1 && Fair(sinks.answers, sinks.next) && sinks.log == []
      ensures Valid() && WithinCaps() && submitted == [] && items == []
      ensures this.recordsCap == recordsCap && this.bytesCap == bytesCap && this.sinks == sinks
    {
      this.recordsCap, this.bytesCap, this.sinks := recordsCap, bytesCap, sinks;
      items, depth, bytes, enqueueEvents, flushEvents := [], 0, 0, 0, 0;
      submitted, trail := [], [[]];
    }

    method HasRoom(len: nat) returns (room: bool)
      requires Counted()
      ensures room <==> |items| < recordsCap && TotalLength(items) + len <= bytesCap
    {
      if depth >= recordsCap {
        return false;
      }
      if bytes + len > bytesCap {
        return false;
      }
      return true;
    }

    method Push(logger: nat, text: seq<byte>)
      requires Valid() && text != []
      modifies this
      ensures Valid() && items == old(items) + [Item(logger, text, 0)] && trail == old(trail) + [items]
      ensures submitted == old(submitted) + Tag(logger, text)
      ensures depth == old(depth) + 1 && bytes == old(bytes) + |text|
    {
      hide Pending, TotalLength, Fair;
      var item := Item(logger, text, 0);
      PendingAppend(items, item);
      LengthAppend(items, item);
      WholeText(item);
      items := items + [item];
      depth := depth + 1;
      bytes := bytes + |text|;
      enqueueEvents := enqueueEvents + 1;
      submitted := submitted + Tag(logger, text);
      trail := trail + [items];
    }

    /** The head is finished: the counters never have to saturate. */
    method DropHead()
      requires Counted() && items != []
      modifies this`items, this`depth, this`bytes
      ensures Counted() && items == old(items[1..])
      ensures depth == old(depth) - 1 && bytes <= old(bytes)
    {
      hide Pending, TotalLength;
      PendingPositive(items);
      WholeHead(items);
      var len := |items[0].text|;
      items := items[1..];
      if depth > 0 {
        depth := depth - 1;
      } else {
        assert false;
      }
      if bytes >= len {
        bytes := bytes - len;
      } else {
        assert false;
      }
    }

    /** Takes accepted bytes off the head: all of it if there are enough, else a part. */
    method ConsumeHead(taken: nat) returns (left: nat, dropped: bool)
      requires Counted() && items != [] && 0 < taken <= |Pending(items)|
      modifies this`items, this`depth, this`bytes, this`trail
      ensures Counted() && trail == old(trail) + [items]
      ensures left < taken && Pending(items) == old(Pending(items))[taken - left..]
      ensures dropped <==> taken >= old(|items[0].text| - items[0].pos)
      ensures depth == (if dropped then old(depth) - 1 else old(depth)) && bytes <= old(bytes)
    {
      hide Pending, TotalLength, Unwritten;
      PendingPositive(items);
      WholeHead(items);
      var remaining := |items[0].text| - items[0].pos;
      if taken >= remaining {
        left, dropped := taken - remaining, true;
        DropHead();
      } else {
        PartialHead(items, taken);
        items := items[0 := items[0].(pos := items[0].pos + taken)];
        left, dropped := 0, false;
      }
      trail := trail + [items];
    }

    /** Removes the first `written` pending bytes, which the sinks have accepted: the list only shrinks on the way. */
    method ConsumeWritten(written: nat)
      requires Counted() && Traced() && written <= |Pending(items)| && enqueueEvents == flushEvents + depth
      modifies this`items, this`depth, this`bytes, this`flushEvents, this`trail
      ensures Counted() && Traced() && enqueueEvents == flushEvents + depth
      ensures Pending(items) == old(Pending(items))[written..]
      ensures depth <= old(depth) && bytes <= old(bytes) && ShrunkOn(old(trail), trail, old(depth), old(bytes))
    {
      hide Pending, TotalLength, Unwritten, WellFormed, ShrunkOn;
      ghost var p := Pending(items);
      var left: nat := written;
      var flushed := 0;
      assert p[0..] == p;
      NotShrunk(trail, depth, bytes);
      while items != [] && left > 0
        invariant Counted() && Traced() && left <= written && Pending(items) == p[written - left..]
        invariant enqueueEvents == flushEvents + flushed + depth && flushEvents == old(flushEvents)
        invariant depth <= old(depth) && bytes <= old(bytes) && ShrunkOn(old(trail), trail, old(depth), old(bytes))
        decreases left
      {
        ghost var before, was := left, trail;
        var dropped;
        left, dropped := ConsumeHead(left);
        DropTwice(p, written - before, before - left);
        ShrunkMore(old(trail), was, items, old(depth), old(bytes));
        if dropped {
          flushed := flushed + 1;
        }
      }
      PendingNothing();
      flushEvents := flushEvents + flushed;
    }

    /** One write of what stands first in the queue: a batch of untouched items of one logger if the sinks take batches, the
        rest of the head otherwise. What the sinks accept of it leaves the queue. */
    method WriteSome() returns (ghost offered: nat)
      requires Valid() && items != []
      modifies this`items, this`depth, this`bytes, this`flushEvents, this`trail, sinks
      ensures Valid() && depth <= old(depth) && bytes <= old(bytes) && ShrunkOn(old(trail), trail, old(depth), old(bytes))
      ensures sinks.calls == old(sinks.calls) + 1
      ensures old(|items[0].text| - items[0].pos) <= offered <= old(|Pending(items)|)
      ensures old(items[0].pos > 0 || !sinks.batchable(sinks.calls)) ==> offered == old(|items[0].text| - items[0].pos)
      ensures Pending(items) == old(Pending(items))[Min(sinks.answers(old(sinks.calls)), offered)..]
      ensures sinks.log == old(sinks.log + Pending(items)[..Min(sinks.answers(sinks.calls), offered)])
    {
      hide Pending, TotalLength, Fair, IsBatch, ShrunkOn, Tag, Unwritten;
      PendingPositive(items);
      WholeHead(items);
      ghost var p, log := Pending(items), sinks.log;
      var logger := items[0].logger;
      var iov: seq<seq<byte>> := [];
      if items[0].pos == 0 && sinks.batchable(sinks.calls) {
        iov := GatherBatch(items);
      }
      var written;
      if |iov| > 1 {
        BatchBytes(items, iov);
        offered := |Joined(iov)|;
        written := sinks.Writev(logger, iov);
        TagPrefix(logger, Joined(iov), written);
        assert p[..|Joined(iov)|][..written] == p[..written];
      } else {
        var bytes := items[0].text[items[0].pos..];
        RestOfHead(items[0]);
        offered := |bytes|;
        written := sinks.Write(logger, bytes);
        TagPrefix(logger, bytes, written);
        assert p[..|bytes|][..written] == p[..written];
      }
      assert sinks.log == log + p[..written];
      ConsumeWritten(written);
      assert log + p == (log + p[..written]) + p[written..];
    }

    /** Writes until the queue is empty, starting again after every partial write and every refusal. */
    method FlushBlocking()
      requires Valid()
      modifies this`items, this`depth, this`bytes, this`flushEvents, this`trail, sinks
      ensures Valid() && items == [] && depth == 0 && bytes == 0 && sinks.log == submitted
      ensures ShrunkOn(old(trail), trail, old(depth), old(bytes))
    {
      hide Pending, TotalLength, Unwritten, ShrunkOn;
      NotShrunk(trail, depth, bytes);
      while items != []
        invariant Valid() && depth <= old(depth) && bytes <= old(bytes) && ShrunkOn(old(trail), trail, old(depth), old(bytes))
        decreases |Pending(items)|, sinks.next(sinks.calls) - sinks.calls
      {
        ghost var k, was, d, b := sinks.calls, trail, depth, bytes;
        assert sinks.next(k) >= k && sinks.answers(sinks.next(k)) > 0;
        var _ := WriteSome();
        ShrunkJoin(old(trail), was, trail, old(depth), old(bytes), d, b);
        assert sinks.next(sinks.calls) >= sinks.calls;
      }
      PendingNothing();
    }

    /** Queues a message. One larger than the byte cap goes through at once; otherwise room is made first. In between, the
        byte cap holds exactly for messages within it, and the record cap fails only for a larger one on a full queue. */
    method Submit(logger: nat, text: seq<byte>)
      requires Valid() && WithinCaps() && text != []
      modifies this, sinks
      ensures Valid() && WithinCaps()
      ensures submitted == old(submitted) + Tag(logger, text)
      ensures |text| > bytesCap ==> sinks.log == submitted && items == []
      ensures |text| <= bytesCap ==>
                if old(depth < recordsCap && bytes + |text| <= bytesCap)
                then items == old(items) + [Item(logger, text, 0)] && sinks.log == old(sinks.log)
                else items == [Item(logger, text, 0)] && sinks.log == old(submitted)
      ensures old(trail) <= trail
      ensures BytesWithin(trail[|old(trail)|..], bytesCap) <==> |text| <= bytesCap
      ensures RecordsWithin(trail[|old(trail)|..], recordsCap) <==> |text| <= bytesCap || old(depth) < recordsCap
    {
      hide Pending, TotalLength, Fair, WellFormed, Tag, ShrunkOn, BytesWithin, RecordsWithin;
      if |text| > bytesCap {
        Push(logger, text);
        ghost var pushed, d, b := items, depth, bytes;
        FlushBlocking();
        OversizedTrail(old(trail), pushed, trail, d, b, bytesCap, recordsCap);
        return;
      }
      NotShrunk(trail, depth, bytes);
      var room := HasRoom(|text|);
      ghost var fits := room;
      while !room
        invariant Valid() && WithinCaps() && submitted == old(submitted) && depth <= old(depth) && bytes <= old(bytes)
        invariant ShrunkOn(old(trail), trail, old(depth), old(bytes))
        invariant room <==> |items| < recordsCap && TotalLength(items) + |text| <= bytesCap
        invariant (items == old(items) && sinks.log == old(sinks.log)) || (items == [] && !fits && sinks.log == submitted)
        decreases |items| + bytes, !room
      {
        ghost var was, d, b := trail, depth, bytes;
        FlushBlocking();
        ShrunkJoin(old(trail), was, trail, old(depth), old(bytes), d, b);
        room := HasRoom(|text|);
      }
      ghost var was := trail;
      Push(logger, text);
      FittingTrail(old(trail), was, items, old(depth), old(bytes), bytesCap, recordsCap);
    }
  }

  /** The states since are no deeper and no larger than the list was. */
  ghost predicate ShrunkOn(before: seq<seq<Item>>, trail: seq<seq<Item>>, depth: nat, bytes: nat) {
    && before <= trail
    && forall i :: |before| <= i < |trail| ==> |trail[i]| <= depth && TotalLength(trail[i]) <= bytes
  }

  lemma NotShrunk(trail: seq<seq<Item>>, depth: nat, bytes: nat)
    ensures ShrunkOn(trail, trail, depth, bytes)
  {
  }

  lemma ShrunkMore(before: seq<seq<Item>>, trail: seq<seq<Item>>, items: seq<Item>, depth: nat, bytes: nat)
    requires ShrunkOn(before, trail, depth, bytes) && |items| <= depth && TotalLength(items) <= bytes
    ensures ShrunkOn(before, trail + [items], depth, bytes)
  {
    hide TotalLength;
  }

  lemma ShrunkJoin(before: seq<seq<Item>>, was: seq<seq<Item>>, trail: seq<seq<Item>>, depth: nat, bytes: nat, d: nat, b: nat)
    requires ShrunkOn(before, was, depth, bytes) && ShrunkOn(was, trail, d, b) && d <= depth && b <= bytes
    ensures ShrunkOn(before, trail, depth, bytes)
  {
    hide TotalLength;
  }

  /** The push of an oversized message is the one state that passes the caps, with those of its flush. */
  lemma OversizedTrail(before: seq<seq<Item>>, pushed: seq<Item>, trail: seq<seq<Item>>, depth: nat, bytes: nat, bytesCap: nat,
                       recordsCap: nat)
    requires ShrunkOn(before + [pushed], trail, depth, bytes) && |pushed| == depth && TotalLength(pushed) == bytes > bytesCap
    ensures before <= trail && !BytesWithin(trail[|before|..], bytesCap)
    ensures RecordsWithin(trail[|before|..], recordsCap) <==> depth <= recordsCap
  {
    hide TotalLength;
    assert trail[|before|] == pushed && trail[|before|..][0] == pushed;
    assert before == (before + [pushed])[..|before|];
    forall i | 0 <= i < |trail| - |before| ensures |trail[|before|..][i]| <= depth {
      assert trail[|before|..][i] == trail[|before| + i];
    }
  }

  lemma FittingTrail(before: seq<seq<Item>>, was: seq<seq<Item>>, items: seq<Item>, depth: nat, bytes: nat, bytesCap: nat,
                     recordsCap: nat)
    requires ShrunkOn(before, was, depth, bytes) && depth <= recordsCap && bytes <= bytesCap
    requires |items| <= recordsCap && TotalLength(items) <= bytesCap
    ensures before <= was + [items]
    ensures BytesWithin((was + [items])[|before|..], bytesCap) && RecordsWithin((was + [items])[|before|..], recordsCap)
  {
    hide TotalLength;
    var trail := was + [items];
    forall i | 0 <= i < |trail| - |before|
      ensures |trail[|before|..][i]| <= recordsCap && TotalLength(trail[|before|..][i]) <= bytesCap
    {
      assert trail[|before|..][i] == trail[|before| + i];
    }
  }

  lemma {:induction false} JoinedFirst(iov: seq<seq<byte>>)
    requires iov != []
    ensures |iov[0]| <= |Joined(iov)|
  {
    if |iov| > 1 {
      JoinedFirst(iov[..|iov| - 1]);
    }
  }

  lemma BatchBytes(items: seq<Item>, iov: seq<seq<byte>>)
    requires IsBatch(items, iov) && iov != [] && items != []
    ensures |items[0].text| <= |Joined(iov)| <= |Pending(items)| && |Joined(iov)| > 0 && Tag(items[0].logger, Joined(iov)) == Pending(items)[..|Joined(iov)|]
  {
    JoinedFirst(iov);
  }

  lemma RestOfHead(item: Item)
    requires item.pos <= |item.text|
    ensures Tag(item.logger, item.text[item.pos..]) == Unwritten(item)
  {
  }

  /** Any sequence of messages on a new queue: what the sinks have accepted is always a prefix of what was submitted, in
      order, and after a flush it is all of it. */
  method SubmitAll(q: Queue, messages: seq<(nat, seq<byte>)>, flush: bool)
    requires q.Valid() && q.WithinCaps() && forall i :: 0 <= i < |messages| ==> messages[i].1 != []
    modifies q, q.sinks
    ensures q.Valid() && q.WithinCaps()
    ensures q.submitted == old(q.submitted) + TagAll(messages) && q.sinks.log <= q.submitted
    ensures flush ==> q.sinks.log == q.submitted
  {
    hide Pending, TotalLength, Fair, WellFormed, Tag, BytesWithin, RecordsWithin, ShrunkOn;
    for i := 0 to |messages|
      invariant q.Valid() && q.WithinCaps() && q.submitted == old(q.submitted) + TagAll(messages[..i])
    {
      assert messages[..i + 1][..i] == messages[..i];
      q.Submit(messages[i].0, messages[i].1);
    }
    assert messages[..|messages|] == messages;
    if flush {
      q.FlushBlocking();
    }
  }

  lemma PendingNothing()
    ensures Pending([]) == [] && TotalLength([]) == 0
  {
  }

  ghost function TagAll(messages: seq<(nat, seq<byte>)>): seq<Tagged> {
    if messages == [] then []
    else TagAll(messages[..|messages| - 1]) + Tag(messages[|messages| - 1].0, messages[|messages| - 1].1)
  }

  lemma WholeText(item: Item)
    requires item.pos == 0
    ensures Unwritten(item) == Tag(item.logger, item.text)
  {
    assert item.text[0..] == item.text;
  }
}
