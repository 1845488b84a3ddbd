/** The incremental decoder of chunked request bodies. Input arrives in fragments of any size, with would-block answers in
    between; `stream` is the ghost reading of what follows the last delivered chunk, wherever its bytes are. */
module ChunkedReader {
  import opened Collections
  import opened Bytes
  import opened ByteBuffer
  import opened ChunkedFormat

  /** What a call returns. The last three are the null pointer: no data yet, a protocol error, the buffer limit. */
  datatype Outcome = Data(payload: seq<byte>) | End | Blocked | Malformed | NoSpace

  // ----- the reading position inside a frame

  /** The frame at the head of the stream, given how far the parser is into it and the bytes it has not consumed. */
  ghost function Pending(status: nat, chunkLen: int, t: seq<byte>): Frame {
    if status == 0 then Parse(t)
    else if status == 1 then (if chunkLen > 0 then Body(chunkLen, t) else Bad)
    else Final(t)
  }

  /** `need` is exactly what is missing, and 0 exactly when the parser can go on. */
  ghost predicate NeedOk(status: nat, chunkLen: int, need: nat, held: nat) {
    && status <= 2 && (status == 0 ==> need <= 1)
    && (status == 1 ==> chunkLen > 0 && need == if held < chunkLen + 2 then chunkLen + 2 - held else 0)
    && (status == 2 ==> need == if held < 2 then 2 - held else 0)
  }

  ghost predicate InFrame(status: nat, chunkLen: int, need: nat, b: seq<byte>, rest: seq<byte>, stream: seq<byte>) {
    && Parse(stream) == Pending(status, chunkLen, b + rest)
    && (status == 0 && need > 0 ==> ParseLine(b) == NeedMore)
  }

  /** When the parser asks for bytes, the ones it holds do not decide the frame. */
  lemma NeedIsReal(status: nat, chunkLen: int, need: nat, b: seq<byte>)
    requires NeedOk(status, chunkLen, need, |b|) && (need > 0 || b == [])
    requires status == 0 && need > 0 ==> ParseLine(b) == NeedMore
    ensures Pending(status, chunkLen, b) == More
  {
  }

  /** A whole frame, good or bad. */
  predicate Decided(f: Frame) {
    f.Bad? || f.Chunk? || f.Last?
  }

  /** A frame is decided by its size line and what follows it. */
  lemma LineDecided(b: seq<byte>)
    ensures Decided(Parse(b)) && ParseLine(b) != BadLine ==>
              && ProperSize(b)
              && if SizeOf(b) == 0 then Final(AfterSize(b)) != More else SizeOf(b) + 2 <= |AfterSize(b)|
  {
  }

  lemma HexRunIs(s: seq<byte>, n: nat)
    requires n <= |s| && AllHex(s[..n]) && (n < |s| ==> !IsHex(s[n]))
    ensures HexRun(s) == n
  {
    var m := HexRun(s);
    assert forall i :: 0 <= i < n ==> s[i] == s[..n][i];
    assert forall i :: 0 <= i < m ==> s[i] == s[..m][i];
  }

  /** The scan for the end of the size line. */
  method ScanLine(buf: array<byte>, pos: nat) returns (r: Line)
    requires pos <= buf.Length
    ensures r == ParseLine(buf[..pos]) && (r.SizeLine? ==> r.digits == HexRun(buf[..pos]))
  {
    var found := false;
    ghost var s := buf[..pos];
    for i := 0 to pos
      invariant !found ==> AllHex(s[..i])
      invariant found ==> i > 0 && AllHex(s[..i - 1]) && s[i - 1] == CR
    {
      var c := buf[i];
      if found {
        HexRunIs(s, i - 1);
        if c == LF {
          return SizeLine(i - 1);
        }
        return BadLine;
      }
      if (c >= 48 && c <= 57) || (c >= 97 && c <= 102) || (c >= 65 && c <= 70) {
        assert s[..i + 1] == s[..i] + [c];
      } else if c == CR {
        found := true;
      } else {
        HexRunIs(s, i);
        return BadLine;
      }
    }
    HexRunIs(s, if found then pos - 1 else pos);
    return NeedMore;
  }

  class Reader {
    const buffer: Buffer
    // how many bytes each successive read may return; 0 is a would-block answer
    const schedule: nat -> nat
    var polls: nat
    // what the peer has sent that is not read yet
    var rest: seq<byte>

    var status: nat
    var chunkLen: int
    var need: nat
    var complete: bool
    var decapitate: nat

    // what follows the last delivered chunk; meaningful while `sane`
    ghost var stream: seq<byte>
    // no protocol error and no odd size line so far
    ghost var sane: bool

    ghost predicate Valid()
      reads this, buffer, buffer.buf
    {
      && buffer.Valid() && (buffer.limit > 0 ==> buffer.buf.Length <= buffer.limit)
      && (decapitate > 0 ==> !complete && decapitate <= buffer.pos && status == 0 && need == 0)
      && (decapitate == 0 ==> NeedOk(status, chunkLen, need, buffer.pos))
      && (sane && !complete && decapitate == 0 ==> InFrame(status, chunkLen, need, buffer.Contents(), rest, stream))
      && (sane && decapitate > 0 ==> stream == buffer.Contents()[decapitate..] + rest)
    }

    /** The last receive since then would have blocked. */
    ghost predicate Waited(since: nat)
      reads this
    {
      polls > since && schedule(polls - 1) == 0
    }

    /** The next call has nothing to go on with, and its receive would block. */
    ghost predicate Dry()
      reads this, buffer
    {
      && !complete && buffer.limit == 0 && schedule(polls) == 0
      && if decapitate > 0 then decapitate == buffer.pos else need > 0 || buffer.pos == 0
    }

    /** The next call starts on a frame, and its first receive brings all of it. */
    ghost predicate Served()
      reads this, buffer
    {
      && !complete && buffer.limit == 0 && status == 0 && need == 0 && decapitate == buffer.pos
      && rest != [] && 0 < schedule(polls) <= PAGE_SIZE && Decided(Parse(rest[..Min(schedule(polls), |rest|)]))
    }

    /** What is left at the peer after the next receive, if the buffer has a page for it. */
    ghost function Remains(): seq<byte>
      reads this
    {
      rest[Min(schedule(polls), |rest|)..]
    }

    constructor (input: seq<byte>, schedule: nat -> nat, limit: nat)
      requires limit == 0 || limit >= PAGE_SIZE
      ensures Valid() && fresh(buffer) && fresh(buffer.buf)
      ensures stream == input && sane && !complete && this.schedule == schedule && buffer.limit == limit && polls == 0
      ensures rest == input && status == 0 && need == 0 && decapitate == 0 && buffer.pos == 0
    {
      buffer := new Buffer(PAGE_SIZE, limit);
      this.schedule := schedule;
      polls, rest := 0, input;
      status, chunkLen, need, complete, decapitate := 0, 0, 0, false, 0;
      stream, sane := input, true;
      new;
      assert [] + input == input;
    }

    /** One read from the peer, into the free part of the buffer. */
    method Receive() returns (n: nat)
      requires buffer.Valid() && buffer.pos < buffer.buf.Length
      modifies this`polls, this`rest, buffer`pos, buffer.buf
      ensures buffer.Valid() && polls == old(polls) + 1
      ensures n == 0 <==> schedule(old(polls)) == 0 || old(rest) == []
      ensures schedule(old(polls)) <= old(buffer.buf.Length - buffer.pos) ==> n == Min(schedule(old(polls)), old(|rest|))
      ensures n <= old(|rest|) && rest == old(rest)[n..]
      ensures buffer.Contents() == old(buffer.Contents()) + old(rest)[..n]
    {
      var room := buffer.buf.Length - buffer.pos;
      var offered := schedule(polls);
      polls := polls + 1;
      n := if offered < room then offered else room;
      n := if n < |rest| then n else |rest|;
      buffer.Write(rest[..n]);
      rest := rest[n..];
    }

    /** The first half of a round: make room, read, and count down what is missing. */
    method Fill() returns (r: Outcome)
      requires Valid() && !complete && decapitate == 0 && (need > 0 || buffer.pos == 0)
      modifies this`polls, this`rest, this`need, buffer, buffer.buf
      ensures Valid() && (buffer.buf == old(buffer.buf) || fresh(buffer.buf))
      ensures r == Blocked || r == NoSpace || r == End
      ensures r == End ==> |rest| < old(|rest|) && buffer.pos > 0
      ensures r == Blocked ==> polls > old(polls) && (schedule(polls - 1) == 0 || rest == [])
      ensures r == Blocked && sane && rest == [] ==> Parse(stream) == More
      ensures r == NoSpace ==> buffer.limit > 0
      ensures polls >= old(polls) && (r != End ==> |rest| == old(|rest|))
      ensures buffer.limit == 0 && schedule(old(polls)) == 0 ==> r == Blocked
      ensures buffer.limit == 0 && 0 < schedule(old(polls)) <= PAGE_SIZE && old(rest) != [] ==>
                && r == End && polls == old(polls) + 1 && rest == old(Remains()) && (old(need) == 0 ==> need == 0)
                && buffer.Contents() == old(buffer.Contents()) + old(rest)[..Min(schedule(old(polls)), |old(rest)|)]
    {
      hide Pending, Parse, ParseLine;
      ghost var b, rest0, need0 := buffer.Contents(), rest, need;
      var ok := buffer.Ensure(if need > PAGE_SIZE then need else PAGE_SIZE);
      if !ok {
        return NoSpace;
      }
      var n := Receive();
      if n == 0 {
        SamePlace(status, chunkLen, need, b, rest0, stream, buffer.Contents());
        if sane && rest == [] {
          NeedIsReal(status, chunkLen, need, b);
          assert b + [] == b;
        }
        return Blocked;
      }
      if need > 0 {
        if n > need {
          need := 0;
        } else {
          need := need - n;
        }
      }
      MovedOn(status, chunkLen, need0, need, b, rest0, stream, n);
      return End;
    }

    /** Takes a complete size line off the buffer: its value as a signed length, -1 for a malformed one, -2 for one that is
        not complete. The value of a line without digits depends on memory after it, so it is arbitrary here. */
    method Readline() returns (num: int)
      requires buffer.Valid()
      modifies buffer`pos, buffer.buf
      ensures buffer.Valid()
      ensures ParseLine(old(buffer.Contents())) == NeedMore ==> num == -2
      ensures ParseLine(old(buffer.Contents())) == BadLine ==> num == -1
      ensures buffer.Contents() == AfterSize(old(buffer.Contents()))
      ensures ProperSize(old(buffer.Contents())) ==> num == SizeOf(old(buffer.Contents()))
    {
      hide Parse;
      var line := ScanLine(buffer.buf, buffer.pos);
      if line == NeedMore {
        return -2;
      }
      if line == BadLine {
        return -1;
      }
      var v: nat := *;
      if line.digits > 0 {
        v := StrToUl(buffer.buf[..buffer.pos][..line.digits]);
      }
      var ok := buffer.Decapitate(line.digits + 2);
      num := if v > ULONG_MAX / 2 then v - ULONG_MAX - 1 else v;
    }

    /** 1 when more bytes are needed, -1 for a malformed end, 0 when the body is complete. */
    method RequireFinalCrlf() returns (r: int)
      requires buffer.Valid()
      modifies this`need, this`status, this`complete, buffer`pos, buffer.buf
      ensures buffer.Valid()
      ensures r == (match Final(old(buffer.Contents())) case More => 1 case Last(_) => 0 case _ => -1)
      ensures r != 0 ==> buffer.Contents() == old(buffer.Contents()) && complete == old(complete)
      ensures r > 0 ==> status == 2 && need == 2 - buffer.pos && buffer.pos < 2
      ensures r == 0 ==> complete && status == 0 && need == 0
      ensures r < 0 ==> status == old(status) && need == old(need)
    {
      if buffer.pos < 2 {
        need := 2 - buffer.pos;
        status := 2;
        return 1;
      }
      if buffer.buf[0] != CR || buffer.buf[1] != LF {
        return -1;
      }
      var _ := buffer.Decapitate(2);
      need, status, complete := 0, 0, true;
      return 0;
    }

    /** The chunk data and its terminator are all in the buffer: deliver it, and leave its removal to the next call. */
    method DeliverChunk() returns (r: Outcome)
      requires buffer.Valid() && chunkLen > 0 && chunkLen + 2 <= buffer.pos
      modifies this`decapitate, this`status
      ensures Body(chunkLen, buffer.Contents()) == Bad ==> r == Malformed && status == old(status) && decapitate == old(decapitate)
      ensures Body(chunkLen, buffer.Contents()) != Bad ==>
                && Body(chunkLen, buffer.Contents()).Chunk? && r == Data(Body(chunkLen, buffer.Contents()).payload)
                && status == 0 && decapitate == chunkLen + 2
    {
      if buffer.buf[chunkLen] != CR || buffer.buf[chunkLen + 1] != LF {
        return Malformed;
      }
      r := Data(buffer.buf[..chunkLen]);
      decapitate := chunkLen + 2;
      status := 0;
    }

    /** The second half of a round: None when the parser needs more bytes. */
    method ParseStep() returns (r: Option<Outcome>)
      requires Valid() && !complete && decapitate == 0 && need == 0 && buffer.pos > 0
      modifies this`status, this`chunkLen, this`need, this`complete, this`decapitate, this`stream, this`sane, buffer`pos, buffer.buf
      ensures Valid()
      ensures r.None? ==> need > 0 && !complete && decapitate == 0
      ensures r.Some? ==> r.value.Data? || r.value == End || r.value == Malformed
      ensures r.Some? && r.value.Data? ==> decapitate > 0
      ensures old(status) == 0 && Decided(Parse(old(buffer.Contents()))) ==> r.Some?
      ensures old(sane) && Parse(old(stream)) != Odd ==>
                if r.None? then sane && stream == old(stream)
                else Delivers(r.value, Parse(old(stream)), stream, sane, complete)
    {
      hide Parse, ParseLine, Body, Final, AfterLine, OddLine;
      if status == 0 {
        r := LineStep();
      } else if status == 1 {
        r := BodyStep();
      } else {
        r := FinalStep();
      }
    }

    method BodyStep() returns (r: Option<Outcome>)
      requires Valid() && !complete && decapitate == 0 && need == 0 && buffer.pos > 0 && status == 1
      modifies this`status, this`decapitate, this`stream, this`sane
      ensures Valid() && r.Some? && (r.value.Data? || r.value == Malformed) && (r.value.Data? ==> decapitate > 0)
      ensures old(sane) ==> Delivers(r.value, Parse(old(stream)), stream, sane, complete)
    {
      hide Parse, ParseLine;
      if chunkLen + 2 > buffer.pos {
        assert false;  // the parser only gets here with the whole chunk in the buffer
      }
      ghost var b := buffer.Contents();
      var d := DeliverChunk();
      if d == Malformed {
        sane := false;
      } else {
        BodyKeeps(chunkLen, b, rest);
        stream := b[chunkLen + 2..] + rest;
      }
      r := Some(d);
    }

    method FinalStep() returns (r: Option<Outcome>)
      requires Valid() && !complete && decapitate == 0 && need == 0 && buffer.pos > 0 && status == 2
      modifies this`need, this`status, this`complete, this`stream, this`sane, buffer`pos, buffer.buf
      ensures Valid() && r.Some? && (r.value == End || r.value == Malformed)
      ensures old(sane) ==> Delivers(r.value, Parse(old(stream)), stream, sane, complete)
    {
      hide Parse, ParseLine;
      ghost var b := buffer.Contents();
      FinalKeeps(b, rest);
      var f := RequireFinalCrlf();
      if f > 0 {
        assert false;  // the parser only gets here with both bytes in the buffer
      } else if f < 0 {
        sane := false;
        r := Some(Malformed);
      } else {
        r := Some(End);
      }
    }

    method LineStep() returns (r: Option<Outcome>)
      requires Valid() && !complete && decapitate == 0 && need == 0 && buffer.pos > 0 && status == 0
      modifies this`status, this`chunkLen, this`need, this`complete, this`decapitate, this`stream, this`sane, buffer`pos, buffer.buf
      ensures Valid()
      ensures r.None? ==> need > 0 && !complete && decapitate == 0
      ensures r.Some? ==> r.value.Data? || r.value == End || r.value == Malformed
      ensures r.Some? && r.value.Data? ==> decapitate > 0
      ensures old(status) == 0 && Decided(Parse(old(buffer.Contents()))) ==> r.Some?
      ensures old(sane) && Parse(old(stream)) != Odd ==>
                if r.None? then sane && stream == old(stream)
                else Delivers(r.value, Parse(old(stream)), stream, sane, complete)
    {
      hide Parse, ParseLine, OddLine, Body, Final;
      ghost var b := buffer.Contents();
      LineCases(b, rest);
      LineDecided(b);
      sane := sane && (ParseLine(b) == NeedMore || ProperSize(b));
      chunkLen := Readline();
      if chunkLen == -2 {
        need := need + 1;
        return None;
      }
      if chunkLen < 0 {
        sane := false;
        return Some(Malformed);
      }
      if chunkLen == 0 {
        r := AfterZeroLine();
      } else {
        r := AfterDataLine();
      }
    }

    /** One round of the decoder's loop: None when it has to go round again. */
    method GoRound() returns (r: Option<Outcome>)
      requires Valid() && !complete && decapitate == 0
      modifies this, buffer, buffer.buf
      ensures Valid() && (buffer.buf == old(buffer.buf) || fresh(buffer.buf))
      ensures polls >= old(polls) && |rest| <= old(|rest|)
      ensures r.None? ==> !complete && decapitate == 0 && (|rest| < old(|rest|) || (old(need == 0 && buffer.pos > 0) && need > 0))
      ensures old(sane) && Parse(old(stream)) != Odd ==>
                if r.None? || r.value == Blocked || r.value == NoSpace then sane && !complete && stream == old(stream)
                else Delivers(r.value, Parse(old(stream)), stream, sane, complete)
      ensures r == Some(Blocked) ==> polls > old(polls) && (schedule(polls - 1) == 0 || rest == [])
      ensures r == Some(Blocked) && sane && schedule(polls - 1) != 0 ==> Parse(stream) == More
      ensures r == Some(NoSpace) ==> buffer.limit > 0
      ensures r.Some? && r.value.Data? ==> decapitate > 0
      ensures old(Dry()) ==> r == Some(Blocked)
      ensures old(Served()) ==> r.Some? && r.value != Blocked && polls == old(polls) + 1 && rest == old(Remains())
    {
      hide Parse, ParseLine, Body, Final, InFrame, Decided;
      if need > 0 || buffer.pos == 0 {
        ghost var received := rest[..Min(schedule(polls), |rest|)];
        assert [] + received == received;
        var filled := Fill();
        if filled != End {
          return Some(filled);
        }
      }
      if need > 0 {
        return None;
      }
      r := ParseStep();
    }

    /** The decoder's call. Whatever the fragmentation, a delivered chunk is the one the reference parse finds. A call that
        has to receive first waits if the receive would block, and one whose receive brings a whole frame does not wait. */
    method Read() returns (r: Outcome)
      requires Valid()
      modifies this, buffer, buffer.buf
      ensures Valid() && (buffer.buf == old(buffer.buf) || fresh(buffer.buf))
      ensures old(complete) ==> r == End && complete
      ensures old(!complete && sane) && Parse(old(stream)) != Odd ==>
                if r == Blocked || r == NoSpace then sane && !complete && stream == old(stream)
                else Delivers(r, Parse(old(stream)), stream, sane, complete)
      ensures r == Blocked ==> polls > old(polls) && (schedule(polls - 1) == 0 || rest == [])
      ensures r == Blocked && sane && schedule(polls - 1) != 0 ==> Parse(stream) == More
      ensures r == NoSpace ==> buffer.limit > 0
      ensures polls >= old(polls) && |rest| <= old(|rest|) && (r.Data? ==> decapitate > 0)
      ensures old(Dry()) ==> r == Blocked
      ensures old(Served()) ==> r != Blocked && polls == old(polls) + 1 && rest == old(Remains())
    {
      hide Parse, ParseLine, Body, Final, InFrame, Decided, Delivers;
      if complete {
        return End;
      }
      if decapitate > 0 {
        DropDelivered();
      }
      while true
        invariant Valid() && !complete && decapitate == 0
        invariant buffer.buf == old(buffer.buf) || fresh(buffer.buf)
        invariant old(sane) && Parse(old(stream)) != Odd ==> sane && stream == old(stream)
        invariant polls >= old(polls) && |rest| <= old(|rest|)
        invariant old(Dry()) ==> Dry()
        invariant old(Served()) ==> Served() && polls == old(polls) && rest == old(rest)
        decreases |rest|, if need > 0 || buffer.pos == 0 then 0 else 1
      {
        var answer := GoRound();
        if answer.Some? {
          return answer.value;
        }
      }
    }

    /** The chunk returned by the previous call leaves the buffer. */
    method DropDelivered()
      requires Valid() && decapitate > 0
      modifies this`decapitate, buffer`pos, buffer.buf
      ensures Valid() && decapitate == 0 && !complete && buffer.pos == old(buffer.pos - decapitate)
    {
      hide Parse, ParseLine, Body, Final;
      var ok := buffer.Decapitate(decapitate);
      decapitate := 0;
    }

    /** Any number of calls on a well-formed stream, over any fragmentation, with any would-block answers in between: each
        call that is not told to wait delivers the next payload, and the end after the last one, for ever. */
    method Drain(calls: nat, ghost ws: seq<WireChunk>, ghost last: seq<byte>, ghost trail: seq<byte>)
      returns (out: seq<Outcome>, waits: nat)
      requires Valid() && buffer.limit == 0 && sane && !complete
      requires WellFormed(ws, last) && stream == Encode(ws, last, trail)
      modifies this, buffer, buffer.buf
      ensures Valid() && |out| + waits == calls
      ensures forall i :: 0 <= i < |out| ==> out[i] == if i < |ws| then Data(ws[i].payload) else End
      ensures old(polls) <= polls && waits <= WouldBlocks(schedule, old(polls), polls)
    {
      hide Parse, WouldBlocks, Encode, ValidChunk, Valid;
      out, waits := [], 0;
      ghost var start := polls;
      assert ws[0..] == ws;
      for i := 0 to calls
        invariant Valid() && |out| + waits == i && start <= polls && waits <= WouldBlocks(schedule, start, polls)
        invariant buffer.buf == old(buffer.buf) || fresh(buffer.buf)
        invariant forall j :: 0 <= j < |out| ==> out[j] == if j < |ws| then Data(ws[j].payload) else End
        invariant if |out| <= |ws| then !complete && sane && stream == Encode(ws[|out|..], last, trail) else complete
      {
        ghost var was, n := polls, |out|;
        if n <= |ws| {
          ParseEncoded(ws[n..], last, trail);
          assert n < |ws| ==> ws[n..][1..] == ws[n + 1..];
        }
        var r := Read();
        WouldBlocksGrow(schedule, start, was, polls);
        if r == Blocked {
          waits := waits + 1;
        } else {
          out := out + [r];
        }
      }
    }

    ghost predicate BetweenLineAndData()
      reads this, buffer
    {
      && buffer.Valid() && (buffer.limit > 0 ==> buffer.buf.Length <= buffer.limit)
      && !complete && decapitate == 0 && need == 0 && status == 0
    }

    method AfterZeroLine() returns (r: Option<Outcome>)
      requires BetweenLineAndData() && (sane ==> Parse(stream) == Final(buffer.Contents() + rest))
      modifies this`status, this`need, this`complete, this`sane, buffer`pos, buffer.buf
      ensures Valid()
      ensures r.None? ==> need > 0 && !complete && decapitate == 0
      ensures r.Some? ==> r.value == End || r.value == Malformed
      ensures Final(old(buffer.Contents())) != More ==> r.Some?
      ensures old(sane) ==>
                if r.None? then sane else Delivers(r.value, Parse(stream), stream, sane, complete)
    {
      hide Parse, ParseLine, Body;
      FinalKeeps(buffer.Contents(), rest);
      var f := RequireFinalCrlf();
      if f > 0 {
        return None;
      }
      if f < 0 {
        sane := false;
        return Some(Malformed);
      }
      return Some(End);
    }

    method AfterDataLine() returns (r: Option<Outcome>)
      requires BetweenLineAndData() && chunkLen > 0 && (sane ==> Parse(stream) == Body(chunkLen, buffer.Contents() + rest))
      modifies this`status, this`need, this`decapitate, this`stream, this`sane
      ensures Valid()
      ensures r.None? ==> need > 0 && !complete && decapitate == 0
      ensures r.Some? ==> r.value.Data? || r.value == Malformed
      ensures (r.Some? && r.value.Data? ==> decapitate > 0) && (chunkLen + 2 <= buffer.pos ==> r.Some?)
      ensures old(sane) ==>
                if r.None? then sane && stream == old(stream)
                else Delivers(r.value, Parse(old(stream)), stream, sane, complete)
    {
      hide Parse, ParseLine, Body, Final;
      // the size line is already off the buffer
      if chunkLen + 2 > buffer.pos {
        need := chunkLen + 2 - buffer.pos;
        status := 1;
        return None;
      }
      ghost var t := buffer.Contents();
      BodyKeeps(chunkLen, t, rest);
      var d := DeliverChunk();
      if d == Malformed {
        sane := false;
      } else {
        stream := t[chunkLen + 2..] + rest;
      }
      return Some(d);
    }
  }

  ghost predicate WellFormed(ws: seq<WireChunk>, last: seq<byte>) {
    (forall i :: 0 <= i < |ws| ==> ValidChunk(ws[i])) && SizeFor(last, 0)
  }

  /** How many of the answers in [from, to) were would-block. */
  ghost function WouldBlocks(schedule: nat -> nat, from: nat, to: nat): nat
    decreases to
  {
    if to <= from then 0 else WouldBlocks(schedule, from, to - 1) + if schedule(to - 1) == 0 then 1 else 0
  }

  lemma {:induction false} WouldBlocksGrow(schedule: nat -> nat, from: nat, was: nat, now: nat)
    requires from <= was <= now
    ensures WouldBlocks(schedule, from, was) <= WouldBlocks(schedule, from, now)
    ensures was < now && schedule(now - 1) == 0 ==> WouldBlocks(schedule, from, was) < WouldBlocks(schedule, from, now)
    decreases now
  {
    if was < now {
      WouldBlocksGrow(schedule, from, was, now - 1);
    }
  }

  /** What a returned value says about the frame that was at the head of the stream. */
  ghost predicate Delivers(r: Outcome, frame: Frame, stream: seq<byte>, sane: bool, complete: bool) {
    match r
    case Data(p) => frame == Chunk(p, stream) && sane && !complete
    case End => frame.Last? && complete
    case _ => frame == Bad
  }

  lemma BodyKeeps(len: nat, b: seq<byte>, rest: seq<byte>)
    requires |b| >= len + 2
    ensures Body(len, b) == Bad ==> Body(len, b + rest) == Bad
    ensures Body(len, b) != Bad ==>
              Body(len, b) == Chunk(b[..len], b[len + 2..]) && Body(len, b + rest) == Chunk(b[..len], b[len + 2..] + rest)
  {
  }

  lemma FinalKeeps(b: seq<byte>, rest: seq<byte>)
    ensures |b| >= 2 ==> (Final(b) == Bad ==> Final(b + rest) == Bad) && (Final(b).Last? ==> Final(b + rest).Last?)
    ensures |b| >= 2 ==> Final(b) != More
    ensures |b| < 2 ==> Final(b) == More
  {
  }

  /** What a look at the size line in the buffer settles about the whole stream. */
  lemma LineCases(b: seq<byte>, rest: seq<byte>)
    ensures ParseLine(b) == BadLine ==> Parse(b + rest) == Bad
    ensures ParseLine(b).SizeLine? && !ProperSize(b) ==> Parse(b + rest) == Odd
    ensures ProperSize(b) ==> SizeOf(b) < MAX_SIZE && Parse(b + rest) == AfterLine(SizeOf(b), AfterSize(b) + rest)
  {
    hide Parse, AfterLine;
    if ParseLine(b) == BadLine { ParseBadLine(b, rest); }
    if ParseLine(b).SizeLine? { ParseAfterLine(b, rest); }
  }

  ghost predicate ProperSize(b: seq<byte>) {
    ParseLine(b).SizeLine? && !OddLine(b, HexRun(b))
  }

  ghost function SizeOf(b: seq<byte>): nat
    requires ProperSize(b)
  {
    StrToUl(b[..HexRun(b)])
  }

  ghost function AfterSize(b: seq<byte>): seq<byte> {
    if ParseLine(b).SizeLine? then b[HexRun(b) + 2..] else b
  }

  lemma SamePlace(status: nat, chunkLen: int, need: nat, b: seq<byte>, rest: seq<byte>, stream: seq<byte>, b': seq<byte>)
    requires b' == b + rest[..0]
    ensures b' == b && rest[0..] == rest
  {
  }

  /** Moving bytes from the peer to the buffer changes neither the stream nor where the parser is in it. */
  lemma MovedOn(status: nat, chunkLen: int, need: nat, need': nat, b: seq<byte>, rest: seq<byte>, stream: seq<byte>, n: nat)
    requires 0 < n <= |rest| && NeedOk(status, chunkLen, need, |b|) && (need > 0 || b == [])
    requires need' == (if n > need then 0 else need - n)
    ensures NeedOk(status, chunkLen, need', |b| + n)
    ensures InFrame(status, chunkLen, need, b, rest, stream) ==> InFrame(status, chunkLen, need', b + rest[..n], rest[n..], stream)
  {
    hide Pending, Parse, ParseLine;
    assert b + rest[..n] + rest[n..] == b + rest;
  }
}
