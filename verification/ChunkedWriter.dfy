/** The chunked coding as the server writes it, and its way back through the decoder. */
module ChunkedWriter {
  import opened Bytes
  import opened ByteBuffer
  import opened ChunkedFormat
  import opened ChunkedReader

  /** Appends the size line of a chunk. */
  method AppendChunked(b: Buffer, len: nat) returns (ok: bool)
    requires b.Valid()
    modifies b`buf, b`pos, b.buf
    ensures b.Valid() && (b.buf == old(b.buf) || fresh(b.buf))
    ensures b.Contents() == if ok then old(b.Contents()) + SizeText(len) + CRLF else old(b.Contents())
    ensures ok <==> var n := |SizeText(len)| + 2;
                    n <= old(b.buf.Length - b.pos) || b.limit == 0 || old(b.buf.Length) + n <= b.limit
  {
    hide SizeText;
    ok := b.Append(SizeText(len) + CRLF);
  }

  /** The chunks the server makes of its payloads. */
  ghost function Written(payloads: seq<seq<byte>>): seq<WireChunk> {
    if payloads == [] then [] else [WireChunk(SizeText(|payloads[0]|), payloads[0])] + Written(payloads[1..])
  }

  ghost function Wire(payloads: seq<seq<byte>>, trail: seq<byte>): seq<byte> {
    Encode(Written(payloads), SizeText(0), trail)
  }

  lemma WireStep(payloads: seq<seq<byte>>, trail: seq<byte>)
    ensures payloads == [] ==> Wire(payloads, trail) == SizeText(0) + CRLF + CRLF + trail
    ensures payloads != [] ==>
              Wire(payloads, trail) ==
              SizeText(|payloads[0]|) + CRLF + (payloads[0] + CRLF + Wire(payloads[1..], trail))
  {
    hide SizeText;
    if payloads != [] {
      assert Written(payloads)[1..] == Written(payloads[1..]);
    }
  }

  /** Writes a whole body into a buffer without a limit: size line, payload and line end of each chunk, then the last chunk. */
  method WriteBody(b: Buffer, payloads: seq<seq<byte>>)
    requires b.Valid() && b.limit == 0
    modifies b`buf, b`pos, b.buf
    ensures b.Valid() && (b.buf == old(b.buf) || fresh(b.buf))
    ensures b.Contents() == old(b.Contents()) + Wire(payloads, [])
  {
    hide SizeText, Wire;
    ghost var start := b.Contents();
    assert payloads[0..] == payloads;
    for i := 0 to |payloads|
      invariant b.Valid() && (b.buf == old(b.buf) || fresh(b.buf))
      invariant b.Contents() + Wire(payloads[i..], []) == start + Wire(payloads, [])
    {
      ghost var before := b.Contents();
      WireStep(payloads[i..], []);
      assert payloads[i..][1..] == payloads[i + 1..];
      var ok := AppendChunked(b, |payloads[i]|);
      ok := b.Append(payloads[i]);
      ok := b.Append(CRLF);
      Regroup(before, SizeText(|payloads[i]|), payloads[i], Wire(payloads[i + 1..], []));
    }
    WireStep([], []);
    ghost var before := b.Contents();
    var ok := AppendChunked(b, 0);
    ok := b.Append(CRLF);
    assert before + (SizeText(0) + CRLF + CRLF + []) == before + SizeText(0) + CRLF + CRLF;
  }

  lemma Regroup(before: seq<byte>, size: seq<byte>, payload: seq<byte>, rest: seq<byte>)
    ensures before + size + CRLF + payload + CRLF + rest == before + (size + CRLF + (payload + CRLF + rest))
  {
  }

  // ----- the way back

  /** The stream parses into exactly these payloads, then the last chunk, then the trail. */
  ghost predicate DecodesTo(s: seq<byte>, payloads: seq<seq<byte>>, trail: seq<byte>) {
    if payloads == [] then Parse(s) == Last(trail)
    else Parse(s).Chunk? && Parse(s).payload == payloads[0] && DecodesTo(Parse(s).rest, payloads[1..], trail)
  }

  ghost predicate Writable(payloads: seq<seq<byte>>) {
    forall i :: 0 <= i < |payloads| ==> 0 < |payloads[i]| < 0x1_0000_0000
  }

  /** What the server writes decodes back to its payloads if and only if none is empty and all are shorter than 4 GiB. */
  lemma {:induction false} WrittenDecodes(payloads: seq<seq<byte>>, trail: seq<byte>)
    ensures DecodesTo(Wire(payloads, trail), payloads, trail) <==> Writable(payloads)
  {
    hide SizeText, Parse, Wire;
    if payloads == [] {
      EmptyWire(trail);
    } else {
      FirstFrame(payloads, trail);
      WrittenDecodes(payloads[1..], trail);
      assert Writable(payloads) <==> 0 < |payloads[0]| < 0x1_0000_0000 && Writable(payloads[1..]) by {
        assert forall i :: 0 <= i < |payloads[1..]| ==> payloads[1..][i] == payloads[i + 1];
        assert Writable(payloads[1..]) ==> forall i :: 0 < i < |payloads| ==> payloads[i] == payloads[1..][i - 1];
      }
    }
  }

  lemma EmptyWire(trail: seq<byte>)
    ensures Parse(Wire([], trail)) == Last(trail)
  {
    ParseEncoded([], SizeText(0), trail);
  }

  lemma FirstFrame(payloads: seq<seq<byte>>, trail: seq<byte>)
    requires payloads != []
    ensures var f := Parse(Wire(payloads, trail));
            && (f.Chunk? && f.payload == payloads[0] <==> 0 < |payloads[0]| < 0x1_0000_0000)
            && (0 < |payloads[0]| < 0x1_0000_0000 ==> f == Chunk(payloads[0], Wire(payloads[1..], trail)))
  {
    hide SizeText, Wire, Parse, AfterLine, Body;
    var p := payloads[0];
    var n, t := |p| % 0x1_0000_0000, p + CRLF + Wire(payloads[1..], trail);
    WireStep(payloads, trail);
    SizeTextIs(|p|);
    ParseSize(SizeText(|p|), n, t);
    BodyOf(p, Wire(payloads[1..], trail));
    AfterLength(n, t);
  }

  lemma SizeTextIs(len: nat)
    ensures SizeFor(SizeText(len), len % 0x1_0000_0000)
  {
  }

  lemma AfterLength(n: nat, t: seq<byte>)
    ensures AfterLine(n, t).Chunk? ==> n > 0 && |AfterLine(n, t).payload| == n
    ensures n > 0 ==> AfterLine(n, t) == Body(n, t)
  {
  }

  /** Well-formedness says the same. */
  lemma {:induction false} WrittenIsWellFormed(payloads: seq<seq<byte>>)
    ensures WellFormed(Written(payloads), SizeText(0)) <==> Writable(payloads)
    ensures |Written(payloads)| == |payloads|
    ensures forall i :: 0 <= i < |payloads| ==> Written(payloads)[i].payload == payloads[i]
  {
    hide ValidChunk, SizeText;
    ZeroText();
    if payloads != [] {
      var ws, rest := Written(payloads), Written(payloads[1..]);
      WrittenIsWellFormed(payloads[1..]);
      SizeTextDescribes(payloads[0]);
      assert ws == [ws[0]] + rest;
      assert forall i :: 0 < i < |payloads| ==> payloads[i] == payloads[1..][i - 1] && ws[i] == rest[i - 1];
    }
  }

  lemma ZeroText()
    ensures SizeFor(SizeText(0), 0)
  {
  }

  /** A body written into a buffer and sent in any fragments comes out of the decoder chunk by chunk. */
  method RoundTrip(payloads: seq<seq<byte>>, schedule: nat -> nat, calls: nat) returns (out: seq<Outcome>, waits: nat)
    requires Writable(payloads)
    ensures |out| + waits == calls
    ensures forall i :: 0 <= i < |out| ==> out[i] == if i < |payloads| then Data(payloads[i]) else End
    ensures (forall k: nat :: schedule(k) > 0) ==> waits == 0
  {
    hide SizeText, Parse, Encode;
    var b := new Buffer(PAGE_SIZE, 0);
    WriteBody(b, payloads);
    var reader := new Reader(b.buf[..b.pos], schedule, 0);
    WrittenIsWellFormed(payloads);
    assert [] + Wire(payloads, []) == Wire(payloads, []);
    out, waits := reader.Drain(calls, Written(payloads), SizeText(0), []);
    if forall k: nat :: schedule(k) > 0 {
      NeverBlocks(schedule, 0, reader.polls);
    }
  }

  lemma {:induction false} NeverBlocks(schedule: nat -> nat, start: nat, end: nat)
    requires forall k: nat :: schedule(k) > 0
    ensures WouldBlocks(schedule, start, end) == 0
    decreases end
  {
    if start < end {
      NeverBlocks(schedule, start, end - 1);
    }
  }
}
