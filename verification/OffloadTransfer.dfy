/** The offload engine that relays between a client socket s and a connected socket fd: it first sends a prepared request to
    fd, then moves bytes both ways through one buffer, one direction at a time. What the sockets and the event queue do is
    given by the event. */
module OffloadTransfer {
  import opened Bytes
  import opened Collections
  import opened EventQueue

  const BUFFER: nat := 4096

  datatype Trouble = NoTrouble | Again | Broken

  /** A descriptor became ready: the bytes a read would return, how many bytes a write would take, whether the call fails
      instead, and whether the first and the second event-queue call made for it work. */
  datatype Event = Event(fd: int, incoming: seq<byte>, accepts: nat, trouble: Trouble, works: bool, worksToo: bool)

  datatype Status = Connecting | Requesting | Reading | ToClient | ToPeer

  /** The interests are a function of the status. */
  ghost function InterestsFor(status: Status, s: int, fd: int): map<int, Interest> {
    match status
    case Connecting => map[fd := Out]
    case Requesting => map[fd := Out]
    case Reading => map[s := In, fd := In]
    case ToClient => map[s := Out]
    case ToPeer => map[fd := Out]
  }

  datatype Sent = Took(n: nat) | Retry | Error

  /** One write of the given length. */
  function Write(e: Event, length: nat): (r: Sent)
    ensures r.Took? ==> r.n <= length
  {
    match e.trouble
    case Again => Retry
    case Broken => Error
    case NoTrouble => Took(if e.accepts < length then e.accepts else length)
  }

  /** All bytes read from and written to the two sockets since the session began. */
  datatype Traffic = Traffic(fromClient: seq<byte>, fromPeer: seq<byte>, toClient: seq<byte>, toPeer: seq<byte>)

  /** Nothing was made up, reordered or repeated. */
  ghost predicate Faithful(t: Traffic, request: seq<byte>) {
    t.toClient <= t.fromPeer && t.toPeer <= request + t.fromClient
  }

  ghost predicate AllDelivered(t: Traffic, request: seq<byte>) {
    t.toClient == t.fromPeer && t.toPeer == request + t.fromClient
  }

  ghost predicate Extends(t: Traffic, t': Traffic) {
    t.fromClient <= t'.fromClient && t.fromPeer <= t'.fromPeer && t.toClient <= t'.toClient && t.toPeer <= t'.toPeer
  }

  ghost function Moved(t: Traffic): nat {
    |t.fromClient| + |t.fromPeer| + |t.toClient| + |t.toPeer|
  }

  /** The bytes read and not yet passed on are exactly the gap, in the direction the status names. */
  ghost predicate Relayed(status: Status, t: Traffic, request: seq<byte>, written: nat, gap: seq<byte>) {
    match status
    case Connecting => written == 0 && t == Traffic([], [], [], [])
    case Requesting => (written < |request| || (request == [] && written == 0)) && t == Traffic([], [], [], request[..written])
    case Reading => AllDelivered(t, request)
    case ToClient => gap != [] && t.toClient + gap == t.fromPeer && t.toPeer == request + t.fromClient
    case ToPeer => gap != [] && t.toClient == t.fromPeer && t.toPeer + gap == request + t.fromClient
  }

  /** The event leaves a session that is sending its request alive. */
  ghost predicate RequestGoesOn(e: Event, unsent: nat, armed: bool) {
    || (unsent > 0 && (e.trouble.Again? || (e.trouble.NoTrouble? && 0 < e.accepts < unsent)))
    || ((unsent == 0 || (e.trouble.NoTrouble? && e.accepts >= unsent)) && e.works && e.worksToo && armed)
  }

  /** ... one that reads ... */
  ghost predicate ReadGoesOn(e: Event, s: int, fd: int) {
    && (e.fd == s || e.fd == fd)
    && (e.trouble.Again? || (e.trouble.NoTrouble? && e.incoming != [] && e.works && e.worksToo))
  }

  /** ... and one that passes bytes on. */
  ghost predicate WriteGoesOn(e: Event, toWrite: nat) {
    e.trouble.Again? || (e.trouble.NoTrouble? && e.accepts > 0 && (e.accepts >= toWrite ==> e.works && e.worksToo))
  }

  // ----- the relay as a machine on traffic alone

  datatype Stage = Stage(status: Status, t: Traffic)

  /** What waits to be written in a stage: all that was read, or is to be sent first, and not yet passed on. */
  ghost function Waiting(v: Stage, request: seq<byte>): seq<byte> {
    match v.status
    case Connecting => request
    case Requesting => request[Min(|v.t.toPeer|, |request|)..]
    case Reading => []
    case ToClient => v.t.fromPeer[Min(|v.t.toClient|, |v.t.fromPeer|)..]
    case ToPeer => (request + v.t.fromClient)[Min(|v.t.toPeer|, |request + v.t.fromClient|)..]
  }

  ghost function Accepted(v: Stage, e: Event, request: seq<byte>): seq<byte> {
    Waiting(v, request)[..Min(e.accepts, |Waiting(v, request)|)]
  }

  ghost function AfterRequest(v: Stage, e: Event, request: seq<byte>): Stage {
    if e.trouble.Again? && request != [] then v
    else
      var toPeer := v.t.toPeer + Accepted(v, e, request);
      Stage(if |toPeer| >= |request| then Reading else Requesting, v.t.(toPeer := toPeer))
  }

  ghost function AfterRead(v: Stage, e: Event, fd: int): Stage {
    if e.trouble.Again? then v
    else if e.fd == fd then Stage(ToClient, v.t.(fromPeer := v.t.fromPeer + Chunk(e)))
    else Stage(ToPeer, v.t.(fromClient := v.t.fromClient + Chunk(e)))
  }

  ghost function AfterWrite(v: Stage, e: Event, request: seq<byte>): Stage {
    if e.trouble.Again? then v
    else
      var w := Accepted(v, e, request);
      Stage(if |w| == |Waiting(v, request)| then Reading else v.status,
            if v.status.ToClient? then v.t.(toClient := v.t.toClient + w) else v.t.(toPeer := v.t.toPeer + w))
  }

  /** One event: the next stage, or none when the session is closed. */
  ghost function After(v: Stage, e: Event, s: int, fd: int, request: seq<byte>, armed: bool): Option<Stage> {
    match v.status
    case Connecting => AfterRequesting(v.(status := Requesting), e, fd, request, armed)
    case Requesting => AfterRequesting(v, e, fd, request, armed)
    case Reading => if ReadGoesOn(e, s, fd) then Some(AfterRead(v, e, fd)) else None
    case _ => if WriteGoesOn(e, |Waiting(v, request)|) then Some(AfterWrite(v, e, request)) else None
  }

  ghost function AfterRequesting(v: Stage, e: Event, fd: int, request: seq<byte>, armed: bool): Option<Stage> {
    if e.fd == fd && RequestGoesOn(e, |Waiting(v, request)|, armed) then Some(AfterRequest(v, e, request)) else None
  }

  ghost function AfterAll(v: Stage, es: seq<Event>, s: int, fd: int, request: seq<byte>, armed: bool): Option<Stage> {
    if es == [] then Some(v)
    else
      match AfterAll(v, es[..|es| - 1], s, fd, request, armed)
      case None => None
      case Some(v') => After(v', es[|es| - 1], s, fd, request, armed)
  }

  /** All traffic of an event, whether or not it closes the session. */
  ghost function TrafficAfter(v: Stage, e: Event, s: int, fd: int, request: seq<byte>): Traffic {
    if !e.trouble.NoTrouble? then v.t
    else
      match v.status
      case Connecting => if e.fd == fd then AfterRequest(v.(status := Requesting), e, request).t else v.t
      case Requesting => if e.fd == fd then AfterRequest(v, e, request).t else v.t
      case Reading => if e.fd == s || e.fd == fd then AfterRead(v, e, fd).t else v.t
      case _ => AfterWrite(v, e, request).t
  }

  // ----- the machine in terms of the streams and the event alone

  /** A descriptor the session watches. */
  predicate Watched(status: Status, x: int, s: int, fd: int) {
    match status
    case Connecting => x == fd
    case Requesting => x == fd
    case Reading => x == s || x == fd
    case ToClient => x == s
    case ToPeer => x == fd
  }

  /** No call made for the event fails, and a write takes something; it may have to be tried again. */
  predicate Smooth(e: Event, reading: bool) {
    !e.trouble.Broken? && (reading || e.accepts > 0) && e.works && e.worksToo
  }

  /** The streams of a session: nothing made up, and in the first two stages only the request under way. */
  ghost predicate Staged(v: Stage, request: seq<byte>) {
    && Faithful(v.t, request)
    && (v.status.Connecting? ==> v.t == Traffic([], [], [], []))
    && (v.status.Requesting? ==> v.t.toPeer <= request && (request != [] ==> |v.t.toPeer| < |request|))
  }

  /** Every reason to close a session, and there is no other: an event for a descriptor that is not its business, a failing or
      empty read, a failing write or one that takes nothing, and a failing call to the event queue when the direction turns. */
  lemma CloseReasons(v: Stage, e: Event, s: int, fd: int, request: seq<byte>, armed: bool)
    requires Staged(v, request)
    ensures After(v, e, s, fd, request, armed).None? <==>
            match v.status {
              case Reading =>
                || (e.fd != s && e.fd != fd) || e.trouble.Broken?
                || (e.trouble.NoTrouble? && (|e.incoming| == 0 || !e.works || !e.worksToo))
              case ToClient =>
                || e.trouble.Broken?
                || (e.trouble.NoTrouble? &&
                    (e.accepts == 0 || (e.accepts >= |v.t.fromPeer| - |v.t.toClient| && (!e.works || !e.worksToo))))
              case ToPeer =>
                || e.trouble.Broken?
                || (e.trouble.NoTrouble? &&
                    (e.accepts == 0 ||
                     (e.accepts >= |request| + |v.t.fromClient| - |v.t.toPeer| && (!e.works || !e.worksToo))))
              case _ =>
                || e.fd != fd
                || (|request| > 0 && (e.trouble.Broken? || (e.trouble.NoTrouble? && e.accepts == 0)))
                || ((|request| == 0 || (e.trouble.NoTrouble? && e.accepts >= |request| - |v.t.toPeer|)) &&
                    (!e.works || !e.worksToo || !armed))
            }
  {
    hide AfterRequest, AfterRead, AfterWrite;
    WaitingLength(v, request);
  }

  lemma WaitingLength(v: Stage, request: seq<byte>)
    requires Staged(v, request)
    ensures |Waiting(v, request)| ==
            match v.status {
              case Reading => 0
              case ToClient => |v.t.fromPeer| - |v.t.toClient|
              case ToPeer => |request| + |v.t.fromClient| - |v.t.toPeer|
              case _ => |request| - |v.t.toPeer|
            }
  {
  }

  /** A read that does not close the session takes up to 4096 bytes and turns to the other side, if it need not be tried again. */
  lemma NextAfterRead(v: Stage, e: Event, s: int, fd: int, request: seq<byte>, armed: bool)
    requires v.status.Reading? && After(v, e, s, fd, request, armed).Some?
    ensures After(v, e, s, fd, request, armed).value ==
            if e.trouble.Again? then v
            else
              var chunk := e.incoming[..if |e.incoming| < 4096 then |e.incoming| else 4096];
              if e.fd == fd then Stage(ToClient, v.t.(fromPeer := v.t.fromPeer + chunk))
              else Stage(ToPeer, v.t.(fromClient := v.t.fromClient + chunk))
  {
  }

  /** A write that does not close the session sends what the socket accepts of the next bytes, and turns back to reading exactly
      when it has sent them all. */
  lemma NextAfterWrite(v: Stage, e: Event, s: int, fd: int, request: seq<byte>, armed: bool)
    requires Staged(v, request) && (v.status.ToClient? || v.status.ToPeer?) && After(v, e, s, fd, request, armed).Some?
    ensures var v' := After(v, e, s, fd, request, armed).value;
            var (done, all) := if v.status.ToClient? then (v.t.toClient, v.t.fromPeer) else (v.t.toPeer, request + v.t.fromClient);
            var end := if e.accepts < |all| - |done| then |done| + e.accepts else |all|;
            if e.trouble.Again? then v' == v
            else && v'.t == (if v.status.ToClient? then v.t.(toClient := all[..end]) else v.t.(toPeer := all[..end]))
                 && v'.status == (if end == |all| then Reading else v.status)
  {
    hide WriteGoesOn;
    var (done, all) := if v.status.ToClient? then (v.t.toClient, v.t.fromPeer) else (v.t.toPeer, request + v.t.fromClient);
    Onward(done, all, e);
    assert Waiting(v, request) == all[|done|..];
    hide Waiting;
  }

  /** A write of the request sends the next bytes of it; when all are sent, the session reads. */
  lemma NextAfterRequest(v: Stage, e: Event, s: int, fd: int, request: seq<byte>, armed: bool)
    requires Staged(v, request) && (v.status.Connecting? || v.status.Requesting?) && After(v, e, s, fd, request, armed).Some?
    ensures var n := if e.trouble.NoTrouble? then e.accepts else 0;
            var end := if n < |request| - |v.t.toPeer| then |v.t.toPeer| + n else |request|;
            After(v, e, s, fd, request, armed).value ==
            Stage(if end == |request| then Reading else Requesting, v.t.(toPeer := request[..end]))
  {
    hide AfterRequest, RequestGoesOn, Waiting;
    var u := v.(status := Requesting);
    RestOfRequest(u, request);
    assert After(v, e, s, fd, request, armed) == AfterRequesting(u, e, fd, request, armed);
    GoesOnMeans(e, |request| - |v.t.toPeer|, armed);
    NextOfRequest(u, e, request);
  }

  lemma RestOfRequest(u: Stage, request: seq<byte>)
    requires u.status.Requesting? && u.t.toPeer <= request
    ensures Waiting(u, request) == request[|u.t.toPeer|..]
  {
  }

  lemma GoesOnMeans(e: Event, unsent: nat, armed: bool)
    requires RequestGoesOn(e, unsent, armed)
    ensures unsent > 0 ==> !e.trouble.Broken?
  {
  }

  lemma NextOfRequest(u: Stage, e: Event, request: seq<byte>)
    requires u.status.Requesting? && u.t.toPeer <= request && (request != [] ==> |u.t.toPeer| < |request| && !e.trouble.Broken?)
    ensures var n := if e.trouble.NoTrouble? then e.accepts else 0;
            var end := if n < |request| - |u.t.toPeer| then |u.t.toPeer| + n else |request|;
            AfterRequest(u, e, request) == Stage(if end == |request| then Reading else Requesting, u.t.(toPeer := request[..end]))
  {
    RestOfRequest(u, request);
    hide Waiting;
    Onward(u.t.toPeer, request, e);
  }

  lemma Onward(done: seq<byte>, all: seq<byte>, e: Event)
    requires done <= all
    ensures var w := all[|done|..]; var n := Min(e.accepts, |w|);
            done + w[..n] == all[..|done| + n] && done == all[..|done|] && (n == |w| ==> |done| + n == |all|)
  {
    var w := all[|done|..];
    var n := Min(e.accepts, |w|);
    assert all == done + w;
  }

  class Session {
    const s: int
    const fd: int
    const request: seq<byte>
    const queue: Interests
    var status: Status
    var pos: nat
    var toWrite: nat
    var written: nat
    var buf: array?<byte>
    ghost var armed: bool
    ghost var t: Traffic

    /** The bytes read but not yet passed on. */
    ghost function Gap(): seq<byte>
      reads this, buf
    {
      if buf != null && pos + toWrite <= buf.Length then buf[pos..pos + toWrite] else []
    }

    ghost predicate Valid()
      reads this, queue, buf
    {
      && s != fd
      && (buf != null ==> buf.Length == BUFFER)
      && (status.ToClient? || status.ToPeer? ==> buf != null && pos + toWrite <= BUFFER)
      && (armed ==> queue.of == InterestsFor(status, s, fd))
      && (!armed ==> queue.of == map[] && (status.Connecting? || status.Requesting?))
      && Relayed(status, t, request, written, Gap())
    }

    /** The set-up call; a failing registration goes unnoticed. */
    constructor (s: int, fd: int, request: seq<byte>, queue: Interests, works: bool)
      requires s != fd && queue.of == map[]
      modifies queue
      ensures Valid() && armed == works && status.Connecting? && this.queue == queue
      ensures this.s == s && this.fd == fd && this.request == request && buf == null
    {
      this.s, this.fd, this.request, this.queue := s, fd, request, queue;
      status, pos, toWrite, written, buf := Connecting, 0, 0, 0, null;
      t := Traffic([], [], [], []);
      armed := works;
      new;
      var failed := queue.Add(fd, Out, works);
    }

    /** Both sockets are watched for input from now on. */
    method StartRelay(e: Event) returns (live: bool)
      requires s != fd && queue.of == (if armed then map[fd := Out] else map[])
      modifies this`status, queue
      ensures status.Reading? && (live <==> e.works && e.worksToo && armed)
      ensures live ==> queue.of == map[s := In, fd := In]
    {
      status := Reading;
      var failed := queue.Add(s, In, e.works);
      if failed {
        return false;
      }
      failed := queue.Change(fd, In, e.worksToo);
      return !failed;
    }

    /** A write of the rest of the request; when all of it is sent, the relay starts. */
    method SendRequest(e: Event) returns (live: bool)
      requires Valid() && status.Requesting?
      modifies this, queue
      ensures live ==> Valid()
      ensures Extends(old(t), t) && Faithful(t, request) && buf == old(buf) && armed == old(armed)
      ensures AfterRequesting(Stage(Requesting, old(t)), e, fd, request, armed) == if live then Some(Stage(status, t)) else None
      ensures t == TrafficAfter(Stage(Requesting, old(t)), e, s, fd, request)
      ensures live && e.trouble.NoTrouble? ==> Moved(t) > Moved(old(t)) || (request == [] && status.Reading?)
    {
      hide Relayed, Extends, Faithful, Waiting, AfterRequest;
      Unsent(t, request, written, Gap(), e);
      if e.fd != fd {
        return false;
      }
      if |request| == 0 {
        live := StartRelay(e);
        return;
      }
      match Write(e, |request| - written)
      case Took(n) =>
        RequestSent(t, request, written, Gap(), e, n);
        t := t.(toPeer := t.toPeer + request[written..written + n]);
        if n > 0 {
          written := written + n;
          if written >= |request| {
            live := StartRelay(e);
            return;
          }
          return true;
        }
        return false;
      case Retry => return true;
      case Error => return false;
    }

    /** A chunk just read lies at the front of the buffer, waiting to be written. */
    method Fill(chunk: seq<byte>)
      requires 0 < |chunk| <= BUFFER && (buf != null ==> buf.Length == BUFFER)
      modifies this`buf, this`pos, this`toWrite, buf
      ensures buf != null && buf.Length == BUFFER && (buf == old(buf) || fresh(buf))
      ensures pos == 0 && toWrite == |chunk| && Gap() == chunk
    {
      if buf == null {
        buf := new byte[BUFFER](_ => 0);
      }
      forall i | 0 <= i < |chunk| {
        buf[i] := chunk[i];
      }
      toWrite := |chunk|;
      pos := 0;
      assert buf[0..0 + |chunk|] == chunk;
    }

    /** Input on both sockets gives way to output on one of them. */
    method WatchOutput(source: int, sink: int, e: Event) returns (failed: bool)
      requires s != fd && (source, sink) in {(s, fd), (fd, s)} && queue.of == map[s := In, fd := In]
      modifies queue
      ensures failed <==> !(e.works && e.worksToo)
      ensures !failed ==> queue.of == map[sink := Out]
    {
      failed := queue.Delete(source, e.works);
      if failed {
        return;
      }
      failed := queue.Change(sink, Out, e.worksToo);
    }

    /** Output on one socket gives way to input on both. */
    method WatchInput(sink: int, source: int, e: Event) returns (failed: bool)
      requires s != fd && (source, sink) in {(s, fd), (fd, s)} && queue.of == map[sink := Out]
      modifies queue
      ensures failed <==> !(e.works && e.worksToo)
      ensures !failed ==> queue.of == map[s := In, fd := In]
    {
      failed := queue.Change(sink, In, e.works);
      if failed {
        return;
      }
      failed := queue.Add(source, In, e.worksToo);
    }

    method Resume(e: Event) returns (failed: bool)
      requires s != fd && (status.ToClient? || status.ToPeer?) && queue.of == InterestsFor(status, s, fd)
      modifies queue
      ensures failed <==> !(e.works && e.worksToo)
      ensures !failed ==> queue.of == InterestsFor(Reading, s, fd)
    {
      if status.ToClient? {
        failed := WatchInput(s, fd, e);
      } else {
        failed := WatchInput(fd, s, e);
      }
    }

    method TurnAround(e: Event) returns (failed: bool)
      requires s != fd && e.fd in {s, fd} && status.Reading? && queue.of == InterestsFor(Reading, s, fd)
      modifies this`status, queue
      ensures failed <==> !(e.works && e.worksToo)
      ensures !failed ==> status == (if e.fd == fd then ToClient else ToPeer) && queue.of == InterestsFor(status, s, fd)
    {
      if e.fd == fd {
        failed := WatchOutput(fd, s, e);
        if !failed {
          status := ToClient;
        }
      } else {
        failed := WatchOutput(s, fd, e);
        if !failed {
          status := ToPeer;
        }
      }
    }

    /** A chunk is read from one side, and the other side alone is watched, for output. */
    method ReadChunk(e: Event) returns (live: bool)
      requires Valid() && status.Reading?
      modifies this, queue, buf
      ensures live ==> Valid()
      ensures Extends(old(t), t) && Faithful(t, request) && (buf == old(buf) || (buf != null && fresh(buf))) && armed == old(armed)
      ensures live <==> ReadGoesOn(e, s, fd)
      ensures ReadNothing(e, s, fd) ==> t == old(t)
      ensures live && e.trouble.NoTrouble? ==>
                status == (if e.fd == fd then ToClient else ToPeer) && Gap() == Chunk(e) && Moved(t) > Moved(old(t))
      ensures live ==> Stage(status, t) == AfterRead(Stage(Reading, old(t)), e, fd)
      ensures t == TrafficAfter(Stage(Reading, old(t)), e, s, fd, request)
    {
      hide Relayed, Extends, Faithful, AfterRead, InterestsFor;
      Idle(t, request, written, Gap(), e, fd);
      if e.fd != fd && e.fd != s {
        return false;
      }
      if e.trouble.Again? {
        return true;
      }
      if e.trouble.Broken? || |e.incoming| == 0 {
        return false;
      }
      Fill(Chunk(e));
      ChunkRead(t, request, written, e, fd);
      t := AfterRead(Stage(Reading, t), e, fd).t;
      var failed := TurnAround(e);
      return !failed;
    }

    /** The first bytes of the gap are done with. */
    method Advance(n: nat)
      requires buf != null && pos + toWrite <= buf.Length && n <= toWrite
      modifies this`pos, this`toWrite
      ensures pos + toWrite == old(pos + toWrite) && toWrite == old(toWrite) - n && Gap() == old(Gap())[n..]
    {
      toWrite := toWrite - n;
      pos := pos + n;
    }

    /** Some of the gap is written to the side the status names; when none is left, both sides are watched for input. */
    method PassOn(e: Event) returns (live: bool)
      requires Valid() && (status.ToClient? || status.ToPeer?)
      modifies this, queue
      ensures live ==> Valid()
      ensures Extends(old(t), t) && Faithful(t, request) && buf == old(buf) && armed == old(armed)
      ensures live <==> WriteGoesOn(e, |Waiting(Stage(old(status), old(t)), request)|)
      ensures live ==> Stage(status, t) == AfterWrite(Stage(old(status), old(t)), e, request)
      ensures t == TrafficAfter(Stage(old(status), old(t)), e, s, fd, request)
      ensures live && e.trouble.NoTrouble? ==> Moved(t) > Moved(old(t))
    {
      hide Relayed, Extends, Faithful, InterestsFor, Waiting, AfterWrite, AfterRequest, AfterRead, Moved, PassedOn;
      ghost var gap := Gap();
      Stalled(status, t, request, written, gap, e);
      match Write(e, toWrite)
      case Took(n) =>
        PrefixWritten(status, t, request, written, gap, e, n);
        t := PassedOn(status, t, gap[..n]);
        if n > 0 {
          Advance(n);
          if toWrite == 0 {
            var failed := Resume(e);
            if failed {
              return false;
            }
            status := Reading;
          }
          return true;
        }
        return false;
      case Retry => return true;
      case Error => return false;
    }

    /** One event: the buffer machine does what the machine on traffic does. While the session is alive the whole invariant
        holds, and even when it is closed what was written is a prefix of what was read. A close because nothing could be read
        loses nothing. */
    method Handle(e: Event) returns (live: bool)
      requires Valid()
      modifies this, queue, buf
      ensures live ==> Valid()
      ensures After(Stage(old(status), old(t)), e, s, fd, request, old(armed)) == if live then Some(Stage(status, t)) else None
      ensures t == TrafficAfter(Stage(old(status), old(t)), e, s, fd, request)
      ensures Extends(old(t), t) && Faithful(t, request) && (buf == old(buf) || (buf != null && fresh(buf))) && armed == old(armed)
      ensures !live && old(status).Reading? && ReadNothing(e, s, fd) ==> AllDelivered(t, request)
      ensures !live && Smooth(e, old(status).Reading?) && Watched(old(status), e.fd, s, fd) && old(armed) ==>
                old(status).Reading? && e.incoming == [] && AllDelivered(t, request)
      ensures live && e.trouble.NoTrouble? ==> Moved(t) > Moved(old(t)) || (request == [] && status.Reading?)
    {
      hide AfterRead, AfterWrite, AfterRequest, Waiting, Faithful, Extends, After, Staged;
      RelayedIsStaged(status, t, request, written, Gap());
      CloseReasons(Stage(status, t), e, s, fd, request, armed);
      AfterIs(Stage(status, t), e, s, fd, request, armed);
      match status
      case Connecting =>
        if e.fd != fd {
          Started(t, request, written, Gap());
          return false;
        }
        status := Requesting;
        live := SendRequest(e);
      case Requesting => live := SendRequest(e);
      case Reading => live := ReadChunk(e);
      case _ => live := PassOn(e);
    }
  }

  /** Any run of a session: events are handled until one closes it, as the machine on traffic does. A session none of whose calls
      fails is closed only by the end of a stream, with everything delivered. */
  method Run(x: Session, events: seq<Event>) returns (live: bool, handled: nat)
    requires x.Valid()
    modifies x, x.queue, x.buf
    ensures handled <= |events| && (live ==> x.Valid() && handled == |events|) && (!live ==> handled > 0)
    ensures Extends(old(x.t), x.t) && Faithful(x.t, x.request)
    ensures var v := Stage(old(x.status), old(x.t));
            && AfterAll(v, events[..handled], x.s, x.fd, x.request, old(x.armed)) == (if live then Some(Stage(x.status, x.t)) else None)
            && (!live ==>
                  var before := AfterAll(v, events[..handled - 1], x.s, x.fd, x.request, old(x.armed));
                  before.Some? && x.t == TrafficAfter(before.value, events[handled - 1], x.s, x.fd, x.request)
                  && (Smooth(events[handled - 1], before.value.status.Reading?) &&
                      Watched(before.value.status, events[handled - 1].fd, x.s, x.fd) && old(x.armed) ==>
                        before.value.status.Reading? && events[handled - 1].incoming == [] && AllDelivered(x.t, x.request)))
  {
    hide After, AfterAll, TrafficAfter, Smooth, Watched, AllDelivered;
    StartsFaithful(x);
    ghost var v := Stage(x.status, x.t);
    live, handled := true, 0;
    NoEvents(v, events, x.s, x.fd, x.request, x.armed);
    while live && handled < |events|
      invariant handled <= |events| && (live ==> x.Valid()) && (!live ==> handled > 0) && x.armed == old(x.armed)
      invariant x.buf == old(x.buf) || (x.buf != null && fresh(x.buf))
      invariant Extends(old(x.t), x.t) && Faithful(x.t, x.request)
      invariant AfterAll(v, events[..handled], x.s, x.fd, x.request, x.armed) == (if live then Some(Stage(x.status, x.t)) else None)
      invariant !live ==>
                  var before := AfterAll(v, events[..handled - 1], x.s, x.fd, x.request, x.armed);
                  before.Some? && x.t == TrafficAfter(before.value, events[handled - 1], x.s, x.fd, x.request)
                  && (Smooth(events[handled - 1], before.value.status.Reading?) &&
                      Watched(before.value.status, events[handled - 1].fd, x.s, x.fd) && x.armed ==>
                        before.value.status.Reading? && events[handled - 1].incoming == [] && AllDelivered(x.t, x.request))
    {
      OneMoreEvent(v, events, handled, x.s, x.fd, x.request, x.armed);
      live := x.Handle(events[handled]);
      handled := handled + 1;
    }
  }

  lemma NoEvents(v: Stage, es: seq<Event>, s: int, fd: int, request: seq<byte>, armed: bool)
    ensures AfterAll(v, es[..0], s, fd, request, armed) == Some(v)
  {
  }

  lemma OneMoreEvent(v: Stage, es: seq<Event>, i: nat, s: int, fd: int, request: seq<byte>, armed: bool)
    requires i < |es|
    ensures AfterAll(v, es[..i + 1], s, fd, request, armed) ==
            match AfterAll(v, es[..i], s, fd, request, armed) {
              case None => None
              case Some(v') => After(v', es[i], s, fd, request, armed)
            }
  {
    hide After;
    assert es[..i + 1][..i] == es[..i];
  }

  lemma StartsFaithful(x: Session)
    requires x.Valid()
    ensures Faithful(x.t, x.request)
  {
    assert x.request[..|x.request|] == x.request;
  }

  function Chunk(e: Event): (r: seq<byte>)
    ensures |r| <= BUFFER && r <= e.incoming && (r == [] ==> e.incoming == [])
  {
    e.incoming[..if |e.incoming| < BUFFER then |e.incoming| else BUFFER]
  }

  ghost predicate ReadNothing(e: Event, s: int, fd: int) {
    !e.trouble.NoTrouble? || e.incoming == [] || (e.fd != s && e.fd != fd)
  }

  lemma Idle(t: Traffic, request: seq<byte>, written: nat, gap: seq<byte>, e: Event, fd: int)
    requires Relayed(Reading, t, request, written, gap)
    ensures Extends(t, t) && Faithful(t, request) && forall w, g :: Relayed(Reading, t, request, w, g)
    ensures e.trouble.Again? ==> AfterRead(Stage(Reading, t), e, fd) == Stage(Reading, t)
    ensures Chunk(e) == [] ==> AfterRead(Stage(Reading, t), e, fd).t == t
  {
  }

  lemma ChunkRead(t: Traffic, request: seq<byte>, written: nat, e: Event, fd: int)
    requires Relayed(Reading, t, request, written, []) && e.trouble.NoTrouble? && Chunk(e) != []
    ensures var v := AfterRead(Stage(Reading, t), e, fd);
            && v.status == (if e.fd == fd then ToClient else ToPeer) && Relayed(v.status, v.t, request, written, Chunk(e))
            && Extends(t, v.t) && Faithful(v.t, request) && Moved(v.t) > Moved(t)
  {
  }

  ghost function PassedOn(status: Status, t: Traffic, w: seq<byte>): Traffic {
    if status.ToClient? then t.(toClient := t.toClient + w) else t.(toPeer := t.toPeer + w)
  }

  /** While the request is sent, what waits is the rest of it. */
  lemma Unsent(t: Traffic, request: seq<byte>, written: nat, gap: seq<byte>, e: Event)
    requires Relayed(Requesting, t, request, written, gap)
    ensures written <= |request| && (request != [] ==> written < |request|) && Waiting(Stage(Requesting, t), request) == request[written..]
    ensures Extends(t, t) && Faithful(t, request)
    ensures e.trouble.Again? && request != [] ==> AfterRequest(Stage(Requesting, t), e, request) == Stage(Requesting, t)
    ensures request == [] ==>
              && AfterRequest(Stage(Requesting, t), e, request) == Stage(Reading, t)
              && forall w, g :: Relayed(Reading, t, request, w, g)
  {
  }

  lemma RequestSent(t: Traffic, request: seq<byte>, written: nat, gap: seq<byte>, e: Event, n: nat)
    requires Relayed(Requesting, t, request, written, gap)
    requires request != [] && !e.trouble.Again? && n == Min(e.accepts, |request| - written)
    ensures var q := t.(toPeer := t.toPeer + request[written..written + n]);
            && Extends(t, q) && Faithful(q, request) && Moved(q) == Moved(t) + n
            && AfterRequest(Stage(Requesting, t), e, request) == Stage(if written + n == |request| then Reading else Requesting, q)
            && (written + n == |request| ==> forall w, g :: Relayed(Reading, q, request, w, g))
            && (written + n < |request| ==> Relayed(Requesting, q, request, written + n, gap))
  {
    hide Waiting;
    Unsent(t, request, written, gap, e);
    assert request[..written] + request[written..written + n] == request[..written + n];
    assert request[written..][..n] == request[written..written + n];
    assert request[..|request|] == request && request + [] == request;
  }

  lemma RelayedIsStaged(status: Status, t: Traffic, request: seq<byte>, written: nat, gap: seq<byte>)
    requires Relayed(status, t, request, written, gap)
    ensures Staged(Stage(status, t), request)
  {
  }

  lemma AfterIs(v: Stage, e: Event, s: int, fd: int, request: seq<byte>, armed: bool)
    ensures v.status.Connecting? ==> After(v, e, s, fd, request, armed) == AfterRequesting(v.(status := Requesting), e, fd, request, armed)
    ensures v.status.Requesting? ==> After(v, e, s, fd, request, armed) == AfterRequesting(v, e, fd, request, armed)
    ensures v.status.Reading? ==>
              After(v, e, s, fd, request, armed) == if ReadGoesOn(e, s, fd) then Some(AfterRead(v, e, fd)) else None
    ensures v.status.ToClient? || v.status.ToPeer? ==>
              After(v, e, s, fd, request, armed) ==
              if WriteGoesOn(e, |Waiting(v, request)|) then Some(AfterWrite(v, e, request)) else None
  {
    hide AfterRequesting, AfterRead, AfterWrite, ReadGoesOn, WriteGoesOn, Waiting;
  }

  lemma Started(t: Traffic, request: seq<byte>, written: nat, gap: seq<byte>)
    requires Relayed(Connecting, t, request, written, gap)
    ensures Extends(t, t) && Faithful(t, request)
  {
  }

  lemma Stalled(status: Status, t: Traffic, request: seq<byte>, written: nat, gap: seq<byte>, e: Event)
    requires (status.ToClient? || status.ToPeer?) && Relayed(status, t, request, written, gap)
    ensures gap != [] && Extends(t, t) && Faithful(t, request) && Waiting(Stage(status, t), request) == gap
    ensures e.trouble.Again? ==> AfterWrite(Stage(status, t), e, request) == Stage(status, t)
  {
    assert (t.toClient + gap)[|t.toClient|..] == gap && (t.toPeer + gap)[|t.toPeer|..] == gap;
  }

  lemma PrefixWritten(status: Status, t: Traffic, request: seq<byte>, written: nat, gap: seq<byte>, e: Event, n: nat)
    requires (status.ToClient? || status.ToPeer?) && Relayed(status, t, request, written, gap)
    requires !e.trouble.Again? && n == Min(e.accepts, |gap|)
    ensures var q := PassedOn(status, t, gap[..n]);
            && Extends(t, q) && Faithful(q, request) && Moved(q) == Moved(t) + n
            && AfterWrite(Stage(status, t), e, request) == Stage(if n == |gap| then Reading else status, q)
            && (n < |gap| ==> Relayed(status, q, request, written, gap[n..]))
            && (n == |gap| ==> forall g :: Relayed(Reading, q, request, written, g))
  {
    hide Waiting;
    Stalled(status, t, request, written, gap, e);
    assert gap[..n] + gap[n..] == gap;
    if n == |gap| {
      assert gap[..n] == gap;
    }
    if status.ToClient? {
      assert t.toClient + gap == (t.toClient + gap[..n]) + gap[n..];
    } else {
      assert t.toPeer + gap == (t.toPeer + gap[..n]) + gap[n..];
    }
  }
}
