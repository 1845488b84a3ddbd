/** The two offload engines that only send to the client: a block of memory, and whatever a pipe yields until it ends. */
module OffloadOneWay {
  import opened Bytes
  import opened Collections
  import opened EventQueue
  import opened OffloadTransfer

  /** How many of the bytes offered a write takes. */
  ghost function Accepts(e: Event, offered: nat): nat {
    if e.trouble.NoTrouble? then Min(e.accepts, offered) else 0
  }

  // ----- a block of memory

  /** What has been sent of a block after some events, whatever their number. */
  ghost function SentOf(length: nat, done: nat, es: seq<Event>): nat
    requires done <= length
    ensures done <= SentOf(length, done, es) <= length
  {
    if es == [] then done
    else
      var before := SentOf(length, done, es[..|es| - 1]);
      before + Accepts(es[|es| - 1], length - before)
  }

  ghost predicate MemoryGoesOn(e: Event, offered: nat) {
    e.trouble.Again? || (e.trouble.NoTrouble? && 0 < e.accepts < offered)
  }

  class Memory {
    const block: seq<byte>
    var written: nat
    ghost var sent: seq<byte>

    ghost predicate Valid()
      reads this
    {
      written < |block| && sent == block[..written]
    }

    constructor (block: seq<byte>)
      requires block != []
      ensures Valid() && this.block == block
    {
      this.block, written, sent := block, 0, [];
    }

    /** One event: the socket takes the next bytes of the block, as many as it will. */
    method Handle(e: Event) returns (live: bool)
      requires Valid()
      modifies this
      ensures live ==> Valid()
      ensures old(sent) <= sent && sent == block[..old(written) + Accepts(e, |block| - old(written))]
      ensures live <==> MemoryGoesOn(e, |block| - old(written))
    {
      match Write(e, |block| - written)
      case Took(n) =>
        sent := sent + block[written..written + n];
        assert sent == block[..written + n];
        if n > 0 {
          written := written + n;
          if written >= |block| {
            return false;
          }
          return true;
        }
        return false;
      case Retry => return true;
      case Error => return false;
    }
  }

  /** Any run of a memory session. Events are handled until one closes it; unless that one came with trouble or on a socket
      that takes nothing, the whole block has been sent. */
  method RunMemory(x: Memory, events: seq<Event>) returns (live: bool, handled: nat)
    requires x.Valid()
    modifies x
    ensures handled <= |events| && (live ==> x.Valid() && handled == |events|) && (!live ==> handled > 0)
    ensures x.sent == x.block[..SentOf(|x.block|, old(x.written), events[..handled])]
    ensures !live ==> (x.sent == x.block <==> events[handled - 1].trouble.NoTrouble? && events[handled - 1].accepts > 0)
    ensures !live ==> !events[handled - 1].trouble.Again?
  {
    live, handled := true, 0;
    while live && handled < |events|
      invariant handled <= |events| && (live ==> x.Valid()) && (!live ==> handled > 0)
      invariant x.sent == x.block[..SentOf(|x.block|, old(x.written), events[..handled])]
      invariant live ==> x.written == SentOf(|x.block|, old(x.written), events[..handled])
      invariant !live ==> (x.sent == x.block <==> events[handled - 1].trouble.NoTrouble? && events[handled - 1].accepts > 0)
      invariant !live ==> !events[handled - 1].trouble.Again?
    {
      assert events[..handled + 1][..handled] == events[..handled];
      live := x.Handle(events[handled]);
      assert |x.sent| == |x.block| ==> x.sent == x.block;
      handled := handled + 1;
    }
  }

  // ----- a pipe

  datatype PipeStatus = Waiting | Writing

  /** A pipe session as its two byte streams alone. */
  datatype Stream = Stream(status: PipeStatus, received: seq<byte>, sent: seq<byte>)

  ghost function Backlog(v: Stream): seq<byte> {
    v.received[Min(|v.sent|, |v.received|)..]
  }

  ghost function Received(e: Event): seq<byte> {
    if e.trouble.NoTrouble? then Chunk(e) else []
  }

  /** The streams after an event, whether or not it closes the session: a chunk comes in, or the front of what is unsent goes
      out, and the direction turns when something came in or nothing is left. */
  ghost function Flow(v: Stream, e: Event): Stream {
    if v.status.Waiting?
    then Stream(if Received(e) == [] then Waiting else Writing, v.received + Received(e), v.sent)
    else
      var n := Accepts(e, |Backlog(v)|);
      Stream(if n == |Backlog(v)| then Waiting else Writing, v.received, v.sent + Backlog(v)[..n])
  }

  ghost function FlowAll(v: Stream, es: seq<Event>): Stream {
    if es == [] then v else Flow(FlowAll(v, es[..|es| - 1]), es[|es| - 1])
  }

  ghost predicate PipeGoesOn(v: Stream, e: Event, armed: bool) {
    if v.status.Waiting?
    then e.trouble.Again? || (e.trouble.NoTrouble? && e.incoming != [] && e.works && e.worksToo && armed)
    else WriteGoesOn(e, |Backlog(v)|)
  }

  /** Every reason to close a pipe session: a failing or empty read, a failing write or one that takes nothing, and a failing
      call to the event queue when the direction turns. */
  lemma PipeCloseReasons(v: Stream, e: Event, armed: bool)
    requires v.sent <= v.received
    ensures !PipeGoesOn(v, e, armed) <==>
            || e.trouble.Broken?
            || (e.trouble.NoTrouble? &&
                if v.status.Waiting? then |e.incoming| == 0 || !e.works || !e.worksToo || !armed
                else e.accepts == 0 || (e.accepts >= |v.received| - |v.sent| && (!e.works || !e.worksToo)))
  {
  }

  /** What an event does to the streams of a pipe: up to 4096 bytes come in, or what the client accepts of the next bytes goes
      out. */
  lemma FlowLaw(v: Stream, e: Event)
    requires v.sent <= v.received
    ensures var v' := Flow(v, e);
            if !e.trouble.NoTrouble? then v'.received == v.received && v'.sent == v.sent
            else if v.status.Waiting? then
              && v'.received == v.received + e.incoming[..if |e.incoming| < 4096 then |e.incoming| else 4096]
              && v'.sent == v.sent && (v'.status.Writing? <==> |e.incoming| > 0)
            else
              var end := if e.accepts < |v.received| - |v.sent| then |v.sent| + e.accepts else |v.received|;
              && v'.received == v.received && v'.sent == v.received[..end] && (v'.status.Waiting? <==> end == |v.received|)
  {
    Onward(v.sent, v.received, e);
  }

  lemma ReadFlow(v: Stream, e: Event)
    requires v.status.Waiting?
    ensures Flow(v, e).status == if Received(e) == [] then Waiting else Writing
    ensures v.received + [] == v.received
  {
  }

  lemma WriteFlow(v: Stream, e: Event, gap: seq<byte>)
    requires v.status.Writing? && v.sent + gap == v.received && gap != []
    ensures Backlog(v) == gap
    ensures var n := Accepts(e, |gap|);
            && Flow(v, e) == Stream(if n == |gap| then Waiting else Writing, v.received, v.sent + gap[..n])
            && v.sent + gap[..n] + gap[n..] == v.received && v.sent + gap[..n] <= v.received
            && (n == |gap| ==> v.sent + gap[..n] == v.received)
            && (n == 0 ==> v.sent + gap[..n] == v.sent)
  {
    var n := Accepts(e, |gap|);
    assert (v.sent + gap)[|v.sent|..] == gap;
    assert v.sent + gap[..n] + gap[n..] == v.sent + gap;
    assert n == |gap| ==> gap[..n] == gap;
  }

  class Pipe {
    const s: int
    const fd: int
    const queue: Interests
    var status: PipeStatus
    var pos: nat
    var toWrite: nat
    var buf: array?<byte>
    ghost var armed: bool
    ghost var received: seq<byte>
    ghost var sent: seq<byte>

    ghost function Gap(): seq<byte>
      reads this, buf
    {
      if buf != null && pos + toWrite <= buf.Length then buf[pos..pos + toWrite] else []
    }

    ghost function Streams(): Stream
      reads this
    {
      Stream(status, received, sent)
    }

    ghost predicate Valid()
      reads this, queue, buf
    {
      && s != fd && (buf != null ==> buf.Length == BUFFER)
      && (armed ==> queue.of == if status.Waiting? then map[fd := In] else map[s := Out])
      && (!armed ==> queue.of == map[] && status.Waiting?)
      && (status.Waiting? ==> sent == received)
      && (status.Writing? ==> toWrite > 0 && |Gap()| == toWrite && sent + Gap() == received)
    }

    /** The set-up call; a failing registration goes unnoticed. */
    constructor (s: int, fd: int, queue: Interests, works: bool)
      requires s != fd && queue.of == map[]
      modifies queue
      ensures Valid() && armed == works && Streams() == Stream(Waiting, [], []) && this.queue == queue && buf == null
    {
      this.s, this.fd, this.queue := s, fd, queue;
      status, pos, toWrite, buf := Waiting, 0, 0, null;
      received, sent, armed := [], [], works;
      new;
      var failed := queue.Add(fd, In, works);
    }

    /** A chunk is read from the pipe, and the client alone is watched, for output. */
    method Receive(e: Event) returns (live: bool)
      requires Valid() && status.Waiting?
      modifies this, queue, buf
      ensures live ==> Valid() && status == Flow(old(Streams()), e).status
      ensures sent == old(sent) && received == old(received) + Received(e)
      ensures (buf == old(buf) || (buf != null && fresh(buf))) && armed == old(armed)
      ensures live <==> PipeGoesOn(old(Streams()), e, armed)
    {
      hide Flow, Backlog;
      if buf == null {
        buf := new byte[BUFFER](_ => 0);
      }
      ReadFlow(Streams(), e);
      if e.trouble.Again? {
        return true;
      }
      if e.trouble.Broken? || |e.incoming| == 0 {
        return false;
      }
      Fill(Chunk(e));
      received := received + Chunk(e);
      var failed := Watch(fd, s, Out, e);
      if failed {
        return false;
      }
      status := Writing;
      return true;
    }

    /** A chunk just read lies at the front of the buffer, waiting to be written. */
    method Fill(chunk: seq<byte>)
      requires buf != null && buf.Length == BUFFER && 0 < |chunk| <= BUFFER
      modifies this`pos, this`toWrite, buf
      ensures pos == 0 && toWrite == |chunk| && Gap() == chunk
    {
      forall i | 0 <= i < |chunk| {
        buf[i] := chunk[i];
      }
      toWrite := |chunk|;
      pos := 0;
      assert buf[0..0 + |chunk|] == chunk;
    }

    /** The interest in one descriptor gives way to one in the other. */
    method Watch(was: int, next: int, interest: Interest, e: Event) returns (failed: bool)
      requires was != next && next !in queue.of && queue.of.Keys <= {was}
      modifies queue
      ensures failed <==> !(e.works && e.worksToo && was in old(queue.of))
      ensures !failed ==> queue.of == map[next := interest]
    {
      failed := queue.Delete(was, e.works);
      if failed {
        return;
      }
      failed := queue.Add(next, interest, e.worksToo);
    }

    /** The front of what is unsent goes to the client; when nothing is left, the pipe is watched for input. */
    method Send(e: Event) returns (live: bool)
      requires Valid() && status.Writing?
      modifies this, queue
      ensures live ==> Valid() && status == Flow(old(Streams()), e).status
      ensures received == old(received) && sent == Flow(old(Streams()), e).sent
      ensures buf == old(buf) && armed == old(armed) && sent <= received
      ensures live <==> PipeGoesOn(old(Streams()), e, armed)
    {
      hide Flow, Backlog;
      ghost var gap := Gap();
      WriteFlow(Streams(), e, gap);
      match Write(e, toWrite)
      case Took(n) =>
        sent := sent + gap[..n];
        if n > 0 {
          toWrite := toWrite - n;
          pos := pos + n;
          assert Gap() == gap[n..];
          if toWrite == 0 {
            var failed := Watch(s, fd, In, e);
            if failed {
              return false;
            }
            status := Waiting;
          }
          return true;
        }
        return false;
      case Retry => return true;
      case Error => return false;
    }

    /** One event: buffer, position and interests do what the two streams alone do. What was sent is always a prefix of what
        the pipe gave; the end of the pipe finds all of it sent. */
    method Handle(e: Event) returns (live: bool)
      requires Valid()
      modifies this, queue, buf
      ensures live ==> Valid() && Streams() == Flow(old(Streams()), e)
      ensures received == Flow(old(Streams()), e).received && sent == Flow(old(Streams()), e).sent && sent <= received
      ensures (buf == old(buf) || (buf != null && fresh(buf))) && armed == old(armed)
      ensures live <==> PipeGoesOn(old(Streams()), e, old(armed))
      ensures old(status).Waiting? && Received(e) == [] ==> sent == received
      ensures !live && Smooth(e, old(status).Waiting?) && old(armed) ==> old(status).Waiting? && e.incoming == [] && sent == received
    {
      match status
      case Waiting => live := Receive(e);
      case Writing => live := Send(e);
    }
  }

  /** Any run of a pipe session: the streams are those of the events handled, the closing one included. A pipe that ended, or
      could not be read, has been passed on whole, and a session none of whose calls fails is closed only by the end. */
  method RunPipe(x: Pipe, events: seq<Event>) returns (live: bool, handled: nat)
    requires x.Valid()
    modifies x, x.queue, x.buf
    ensures handled <= |events| && (live ==> x.Valid() && handled == |events|) && (!live ==> handled > 0)
    ensures var v := old(x.Streams());
            && (x.received, x.sent) == (FlowAll(v, events[..handled]).received, FlowAll(v, events[..handled]).sent)
            && x.sent <= x.received
            && (live ==> x.Streams() == FlowAll(v, events))
            && (forall i :: 0 <= i < handled ==>
                  (PipeGoesOn(FlowAll(v, events[..i]), events[i], old(x.armed)) <==> live || i < handled - 1))
            && (!live && FlowAll(v, events[..handled - 1]).status.Waiting? && Received(events[handled - 1]) == [] ==>
                  x.sent == x.received)
            && (!live && Smooth(events[handled - 1], FlowAll(v, events[..handled - 1]).status.Waiting?) && old(x.armed) ==>
                  && FlowAll(v, events[..handled - 1]).status.Waiting? && events[handled - 1].incoming == []
                  && x.sent == x.received)
  {
    hide Flow, PipeGoesOn, Received, Smooth;
    ghost var v := x.Streams();
    live, handled := true, 0;
    while live && handled < |events|
      invariant handled <= |events| && (live ==> x.Valid()) && (!live ==> handled > 0) && x.armed == old(x.armed)
      invariant x.buf == old(x.buf) || (x.buf != null && fresh(x.buf))
      invariant (x.received, x.sent) == (FlowAll(v, events[..handled]).received, FlowAll(v, events[..handled]).sent)
      invariant x.sent <= x.received && (live ==> x.Streams() == FlowAll(v, events[..handled]))
      invariant forall i :: 0 <= i < handled ==>
                  (PipeGoesOn(FlowAll(v, events[..i]), events[i], x.armed) <==> live || i < handled - 1)
      invariant !live && FlowAll(v, events[..handled - 1]).status.Waiting? && Received(events[handled - 1]) == [] ==>
                  x.sent == x.received
      invariant !live && Smooth(events[handled - 1], FlowAll(v, events[..handled - 1]).status.Waiting?) && x.armed ==>
                  && FlowAll(v, events[..handled - 1]).status.Waiting? && events[handled - 1].incoming == []
                  && x.sent == x.received
    {
      assert events[..handled + 1][..handled] == events[..handled];
      live := x.Handle(events[handled]);
      handled := handled + 1;
    }
    assert events[..|events|] == events;
  }
}
