/** Reading a chunked body in pieces of the size the caller asks for. */
module ChunkedBody {
  import opened Collections
  import opened Bytes
  import opened ByteBuffer
  import opened ChunkedFormat
  import opened ChunkedReader

  ghost function Concat(ws: seq<WireChunk>): seq<byte> {
    if ws == [] then [] else ws[0].payload + Concat(ws[1..])
  }

  ghost function Slice(left: seq<byte>, len: nat): seq<byte> {
    if len == 0 then left else left[..Min(len, |left|)]
  }

  lemma ConcatSplit(ws: seq<WireChunk>, n: nat)
    ensures n < |ws| ==> Concat(ws[n..]) == ws[n].payload + Concat(ws[n + 1..])
    ensures n == |ws| ==> Concat(ws[n..]) == []
  {
    if n < |ws| {
      assert ws[n..][1..] == ws[n + 1..];
    }
  }

  class Body {
    const reader: Reader
    // decoded bytes held back for the next request
    const held: Buffer
    ghost const ws: seq<WireChunk>
    ghost const last: seq<byte>
    ghost const trail: seq<byte>
    ghost var taken: nat

    ghost predicate Valid()
      reads this, reader, reader.buffer, reader.buffer.buf, held, held.buf
    {
      && reader.Valid() && held.Valid() && held.limit == 0 && reader.buffer.limit == 0
      && held != reader.buffer && held.buf != reader.buffer.buf
      && WellFormed(ws, last)
      && if taken <= |ws| then !reader.complete && reader.sane && reader.stream == Encode(ws[taken..], last, trail)
         else reader.complete
    }

    ghost function HeldBack(): seq<byte>
      reads held, held.buf
    {
      if held.Valid() then held.Contents() else []
    }

    /** What is still to be handed out: the held-back bytes and the chunks not yet decoded. */
    ghost function Left(): seq<byte>
      reads this, held, held.buf
    {
      HeldBack() + if taken <= |ws| then Concat(ws[taken..]) else []
    }

    constructor (reader: Reader, ghost ws: seq<WireChunk>, ghost last: seq<byte>, ghost trail: seq<byte>)
      requires reader.Valid() && reader.buffer.limit == 0 && reader.sane && !reader.complete
      requires WellFormed(ws, last) && reader.stream == Encode(ws, last, trail)
      ensures Valid() && fresh(held) && fresh(held.buf) && this.reader == reader && Left() == Concat(ws)
      ensures this.ws == ws && this.last == last && this.trail == trail && taken == 0 && held.pos == 0
    {
      hide Reader.Valid, WellFormed, Encode, Concat;
      this.reader := reader;
      this.ws, this.last, this.trail, taken := ws, last, trail, 0;
      held := new Buffer(PAGE_SIZE, 0);
      new;
      assert ws[0..] == ws;
    }

    /** One receive was made since then and left that much with the peer; a chunk it brought is still in the buffer. */
    ghost predicate ServedBy(since: nat, remains: seq<byte>, chunk: bool)
      reads reader
    {
      reader.polls == since + 1 && reader.rest == remains && (chunk ==> reader.decapitate > 0)
    }

    /** One decoded chunk; [] at the end of the body, None on the null pointer. */
    method NextChunk() returns (r: Option<seq<byte>>)
      requires Valid()
      modifies this, reader, reader.buffer, reader.buffer.buf
      ensures Valid() && (reader.buffer.buf == old(reader.buffer.buf) || fresh(reader.buffer.buf))
      ensures held.Contents() == old(held.Contents()) && held.buf == old(held.buf)
      ensures r.Some? ==>
                if old(taken) < |ws| then r.value == ws[old(taken)].payload && taken == old(taken) + 1
                else r.value == [] && taken > |ws|
      ensures r.Some? && r.value == [] ==> taken > |ws|
      ensures r.None? ==> taken == old(taken)
      ensures reader.polls >= old(reader.polls) && (r.None? ==> reader.Waited(old(reader.polls)))
      ensures old(reader.Dry()) ==> r.None?
      ensures old(reader.Served()) ==> r.Some? && ServedBy(old(reader.polls), old(reader.Remains()), r.value != [])
    {
      hide Reader.Valid, Reader.Dry, Reader.Served, Parse, Encode;
      ghost var n := taken;
      if n <= |ws| {
        ParseEncoded(ws[n..], last, trail);
        assert n < |ws| ==> ws[n..][1..] == ws[n + 1..] && ValidChunk(ws[n]);
      }
      var o := reader.Read();
      match o
      case Data(p) =>
        taken := n + 1;
        r := Some(p);
      case End =>
        taken := if n <= |ws| then n + 1 else n;
        r := Some([]);
      case _ =>
        r := None;
    }

    /** Moves one decoded chunk to the held-back bytes: 0 at the end of the body. */
    method Pull() returns (r: Option<nat>)
      requires Valid()
      modifies this, reader, reader.buffer, reader.buffer.buf, held, held.buf
      ensures Valid() && Left() == old(Left())
      ensures reader.buffer.buf == old(reader.buffer.buf) || fresh(reader.buffer.buf)
      ensures held.buf == old(held.buf) || fresh(held.buf)
      ensures r.Some? ==> held.pos == old(held.pos) + r.value
      ensures r.None? ==> held.pos == old(held.pos)
      ensures reader.polls >= old(reader.polls) && (r.None? ==> reader.Waited(old(reader.polls)))
      ensures old(reader.Dry()) ==> r.None?
      ensures old(reader.Served()) ==> r.Some? && ServedBy(old(reader.polls), old(reader.Remains()), r.value > 0)
      ensures r.Some? && old(taken) < |ws| ==> r.value == |ws[old(taken)].payload|
      ensures r.Some? && r.value == 0 ==> Left() == HeldBack()
      ensures r.Some? && r.value > 0 ==> taken == old(taken) + 1 && taken <= |ws|
    {
      hide Reader.Valid, Reader.Dry, Reader.Served, Parse, Encode, WellFormed;
      ghost var n, h := taken, held.Contents();
      ConcatSplit(ws, n);
      var chunk := NextChunk();
      if chunk.None? {
        return None;
      }
      if |chunk.value| == 0 {
        return Some(0);
      }
      var ok := held.Append(chunk.value);
      assert h + (chunk.value + Concat(ws[n + 1..])) == h + chunk.value + Concat(ws[n + 1..]);
      return Some(|chunk.value|);
    }

    /** Hands out the first `n` held-back bytes. */
    method Take(n: nat) returns (out: seq<byte>)
      requires Valid() && n <= held.pos
      modifies held`pos, held.buf
      ensures Valid() && held.buf == old(held.buf) && held.pos == old(held.pos) - n && old(|HeldBack()| == held.pos)
      ensures out == old(HeldBack())[..n] && |out| == n && out + Left() == old(Left())
      ensures n == old(held.pos) ==> out == old(HeldBack())
      ensures reader.Dry() == old(reader.Dry()) && reader.Served() == old(reader.Served())
      ensures n == old(held.pos) ==> HeldBack() == []
    {
      hide Reader.Valid, Parse, Encode, Concat, WellFormed;
      out := held.buf[..held.pos][..n];
      ghost var h := held.Contents();
      var ok := held.Decapitate(n);
      assert h == h[..n] + h[n..];
      assert taken <= |ws| ==> h[..n] + (h[n..] + Concat(ws[taken..])) == h + Concat(ws[taken..]);
    }

    /** The case of a request for everything: nothing is lost when it is cut short. */
    method ReadAll() returns (r: Option<seq<byte>>)
      requires Valid()
      modifies this, reader, reader.buffer, reader.buffer.buf, held, held.buf
      ensures Valid()
      ensures reader.buffer.buf == old(reader.buffer.buf) || fresh(reader.buffer.buf)
      ensures held.buf == old(held.buf) || fresh(held.buf)
      ensures r.Some? ==> r.value == old(Left()) && Left() == []
      ensures r.None? ==> Left() == old(Left())
      ensures reader.polls >= old(reader.polls) && (r.None? ==> reader.Waited(old(reader.polls)))
      ensures old(reader.Dry()) ==> r.None?
    {
      hide Valid, Left, HeldBack, Reader.Dry, Reader.Served;
      while true
        invariant Valid() && Left() == old(Left())
        invariant reader.buffer.buf == old(reader.buffer.buf) || fresh(reader.buffer.buf)
        invariant reader.polls >= old(reader.polls)
        invariant held.buf == old(held.buf) || fresh(held.buf)
        invariant old(reader.Dry()) ==> reader.Dry()
        decreases if taken <= |ws| then |ws| + 1 - taken else 0
      {
        var n := Pull();
        if n.None? {
          return None;
        }
        if n.value == 0 {
          var all := Take(held.pos);
          return Some(all);
        }
      }
    }

    /** The next receive brings the whole next chunk, of which the request will use only a part. */
    ghost predicate ChunkServed(len: nat)
      reads this, reader, reader.buffer, held
    {
      reader.Served() && taken < |ws| && held.pos < len < held.pos + |ws[taken].payload|
    }

    /** The case of a request for `len` bytes: when it is cut short, the bytes that were held back are lost, and no others. */
    method ReadSome(len: nat) returns (r: Option<seq<byte>>)
      requires Valid() && len > 0
      modifies this, reader, reader.buffer, reader.buffer.buf, held, held.buf
      ensures Valid()
      ensures reader.buffer.buf == old(reader.buffer.buf) || fresh(reader.buffer.buf)
      ensures held.buf == old(held.buf) || fresh(held.buf)
      ensures reader.polls >= old(reader.polls) && (r.None? ==> reader.Waited(old(reader.polls)))
      ensures r.Some? ==> r.value + Left() == old(Left()) && |r.value| == Min(len, |old(Left())|)
      ensures r.None? ==> old(HeldBack()) + Left() == old(Left())
      ensures old(|HeldBack()|) == old(held.pos) && (len <= old(held.pos) ==> r.Some?)
      ensures old(reader.Dry()) && len > old(held.pos) ==> r.None?
      ensures old(ChunkServed(len)) ==>
                && r.Some? && taken == old(taken) + 1 && ServedBy(old(reader.polls), old(reader.Remains()), true)
    {
      hide Valid, Left, HeldBack, Reader.Dry, Reader.Served;
      if len <= held.pos {
        var out := Take(len);
        return Some(out);
      }
      // more data required
      var remains := len - held.pos;
      var ret := Take(held.pos);
      var more := Collect(remains);
      if more.None? {
        return None;
      }
      assert ret + (more.value + Left()) == ret + more.value + Left();
      return Some(ret + more.value);
    }

    /** The loop of such a request, once the held-back bytes are used up. */
    method Collect(len: nat) returns (r: Option<seq<byte>>)
      requires Valid() && len > 0 && held.pos == 0
      modifies this, reader, reader.buffer, reader.buffer.buf, held, held.buf
      ensures Valid()
      ensures reader.buffer.buf == old(reader.buffer.buf) || fresh(reader.buffer.buf)
      ensures held.buf == old(held.buf) || fresh(held.buf)
      ensures reader.polls >= old(reader.polls) && (r.None? ==> reader.Waited(old(reader.polls)))
      ensures r.Some? ==> r.value + Left() == old(Left()) && |r.value| == Min(len, |old(Left())|)
      ensures r.None? ==> Left() == old(Left())
      ensures old(reader.Dry()) ==> r.None?
      ensures old(ChunkServed(len)) ==>
                && r.Some? && taken == old(taken) + 1 && ServedBy(old(reader.polls), old(reader.Remains()), true)
    {
      hide Valid, Left, HeldBack, Reader.Dry, Reader.Served, Reader.Waited;
      var remains := len;
      while remains > 0
        invariant Valid() && Left() == old(Left()) && remains >= 0 && held.pos + remains == len
        invariant reader.buffer.buf == old(reader.buffer.buf) || fresh(reader.buffer.buf)
        invariant reader.polls >= old(reader.polls)
        invariant held.buf == old(held.buf) || fresh(held.buf)
        invariant old(reader.Dry()) ==> reader.Dry() && remains > 0
        invariant old(ChunkServed(len)) ==>
                    && reader.Served() && taken == old(taken) && reader.polls == old(reader.polls)
                    && reader.Remains() == old(reader.Remains()) && remains == len
        decreases remains
      {
        ghost var polls := reader.polls;
        var n := Pull();
        if n.None? {
          WaitedLonger(old(reader.polls), polls);
          return None;
        }
        if n.value == 0 {
          break;
        }
        if n.value > remains {
          var out := Take(held.pos - (n.value - remains));
          return Some(out);
        }
        remains := remains - n.value;
      }
      assert remains == 0 || Left() == HeldBack();
      var out := Take(held.pos);
      assert |old(Left())| == |out| + |Left()|;
      return Some(out);
    }

    lemma WaitedLonger(since: nat, polls: nat)
      requires since <= polls && reader.Waited(polls)
      ensures reader.Waited(since)
    {
    }

    /** Every successful request gets the next slice of the decoded body, of the asked length or what is left. One told to wait
        loses what was held back if it asked for a length, and nothing if it asked for everything. */
    method ReadSmart(len: nat) returns (r: Option<seq<byte>>)
      requires Valid()
      modifies this, reader, reader.buffer, reader.buffer.buf, held, held.buf
      ensures Valid()
      ensures reader.buffer.buf == old(reader.buffer.buf) || fresh(reader.buffer.buf)
      ensures held.buf == old(held.buf) || fresh(held.buf)
      ensures reader.polls >= old(reader.polls) && (r.None? ==> reader.Waited(old(reader.polls)))
      ensures r.Some? ==> r.value == Slice(old(Left()), len) && r.value + Left() == old(Left())
      ensures r.Some? ==> |r.value| == if len == 0 then |old(Left())| else Min(len, |old(Left())|)
      ensures r.None? ==> (if len == 0 then [] else old(HeldBack())) + Left() == old(Left())
      ensures 0 < len <= old(|HeldBack()|) ==> r.Some?
      ensures old(reader.Dry()) && (len == 0 || len > old(|HeldBack()|)) ==> r.None?
      ensures old(ChunkServed(len)) ==>
                && r.Some? && taken == old(taken) + 1 && ServedBy(old(reader.polls), old(reader.Remains()), true)
    {
      hide Valid, Left, HeldBack, Reader.Dry, Reader.Served;
      if len == 0 {
        r := ReadAll();
        assert [] + Left() == Left();
      } else {
        r := ReadSome(len);
        if r.Some? {
          assert (r.value + Left())[..|r.value|] == r.value;
        }
      }
    }

    /** Any sequence of requests gets consecutive slices of the body, until a receive would block; if none does, all of them
        are answered. */
    method ReadMany(requests: seq<nat>) returns (out: seq<seq<byte>>)
      requires Valid()
      modifies this, reader, reader.buffer, reader.buffer.buf, held, held.buf
      ensures Valid() && |out| <= |requests| && out == Slices(old(Left()), requests[..|out|])
      ensures |out| < |requests| ==> reader.Waited(old(reader.polls))
      ensures |out| == |requests| ==> Left() == old(Left())[Total(old(Left()), requests)..]
    {
      hide Valid, Left, HeldBack, Slice, Slices, Total;
      out := [];
      ghost var left := Left();
      NoSlices(left, requests);
      for i := 0 to |requests|
        invariant Valid() && i == |out| && reader.polls >= old(reader.polls)
        invariant out == Slices(left, requests[..i]) && Left() == left[Total(left, requests[..i])..]
        invariant reader.buffer.buf == old(reader.buffer.buf) || fresh(reader.buffer.buf)
        invariant held.buf == old(held.buf) || fresh(held.buf)
      {
        var r := ReadSmart(requests[i]);
        if r.None? {
          return;
        }
        OneMoreSlice(left, requests, i, r.value, Left());
        out := out + [r.value];
      }
      assert requests[..|requests|] == requests;
    }
  }

  /** A body of one chunk that arrives in two parts, the chunk and the rest, with a would-block answer in between. */
  method InTwoParts(w: WireChunk) returns (body: Body)
    requires ValidChunk(w) && |w.size| + |w.payload| + 4 <= PAGE_SIZE
    ensures body.Valid() && fresh(body) && fresh(body.reader) && fresh(body.reader.buffer) && fresh(body.reader.buffer.buf)
    ensures fresh(body.held) && fresh(body.held.buf) && body.Left() == w.payload && body.held.pos == 0
    ensures body.ws == [w] && body.taken == 0 && body.reader.polls == 0 && body.reader.Served()
    ensures body.reader.Remains() == Encode([w][1..], body.last, body.trail)
    ensures body.reader.schedule(1) == 0 && forall i: nat :: i > 1 ==> body.reader.schedule(i) > 0
  {
    hide Reader.Valid, Reader.Served, WellFormed, ValidChunk, Encode, Parse, Concat;
    var last: seq<byte> := [48];
    var frame := w.size + CRLF + (w.payload + CRLF);
    var m := |frame|;
    OneChunk(w, last);
    var schedule := (i: nat) => if i == 0 then m else if i == 1 then 0 else PAGE_SIZE;
    var reader := new Reader(frame + (last + CRLF + CRLF), schedule, 0);
    FrameServed(reader, w, last + CRLF + CRLF);
    body := new Body(reader, [w], last, []);
  }

  /** A would-block answer inside a sized request loses the bytes held back: a request takes a part of a chunk, the next one is
      told to wait, and a request for everything then gets the empty rest. */
  method LostBytes(w: WireChunk, k: nat, len: nat)
    returns (first: Option<seq<byte>>, second: Option<seq<byte>>, third: Option<seq<byte>>)
    requires ValidChunk(w) && |w.size| + |w.payload| + 4 <= PAGE_SIZE
    requires 0 < k < |w.payload| && len > |w.payload| - k
    ensures first == Some(w.payload[..k]) && second == None && third == Some([])
  {
    hide Body.Valid, Reader.Served, Reader.Dry, ValidChunk, Encode, Body.HeldBack, Body.Left;
    var body := InTwoParts(w);
    first := body.ReadSmart(k);
    NothingBuffered(body);
    LastHeldBack(body, w.payload, k);
    second := body.ReadSmart(len);
    assert |body.Left()| == 0;
    third := body.ReadSmart(0);
  }

  lemma LastHeldBack(body: Body, payload: seq<byte>, k: nat)
    requires k <= |payload| && body.taken == |body.ws| && payload[..k] + body.Left() == payload
    ensures body.HeldBack() == body.Left() && |body.Left()| == |payload| - k
  {
    assert body.ws[body.taken..] == [];
  }

  /** A reader that starts on a chunk is served by a receive that brings exactly the chunk. */
  lemma FrameServed(reader: Reader, w: WireChunk, rest: seq<byte>)
    requires var frame := w.size + CRLF + (w.payload + CRLF);
             ValidChunk(w) && reader.rest == frame + rest && reader.schedule(reader.polls) == |frame| <= PAGE_SIZE
    requires !reader.complete && reader.buffer.limit == 0 && reader.status == 0 && reader.need == 0
    requires reader.decapitate == reader.buffer.pos
    ensures reader.Served() && reader.Remains() == rest
  {
    hide Parse;
    var frame := w.size + CRLF + (w.payload + CRLF);
    assert (frame + rest)[..|frame|] == frame && (frame + rest)[|frame|..] == rest;
    ParseSize(w.size, |w.payload|, w.payload + CRLF);
    assert w.payload + CRLF + [] == w.payload + CRLF;
    BodyOf(w.payload, []);
  }

  /** When the peer still has all that follows the delivered chunk, the reader has nothing more to go on with. */
  lemma NothingBuffered(body: Body)
    requires body.Valid() && body.taken <= |body.ws| && body.reader.decapitate > 0
    requires body.reader.rest == Encode(body.ws[body.taken..], body.last, body.trail) && body.reader.schedule(body.reader.polls) == 0
    ensures body.reader.Dry()
  {
    hide Encode, Parse;
    var r := body.reader;
    assert |r.buffer.Contents()[r.decapitate..]| + |r.rest| == |r.stream|;
  }

  lemma OneChunk(w: WireChunk, last: seq<byte>)
    requires ValidChunk(w) && last == [48]
    ensures WellFormed([w], last) && Concat([w]) == w.payload
    ensures Encode([w], last, []) == w.size + CRLF + (w.payload + CRLF) + (last + CRLF + CRLF)
    ensures Encode([w][1..], last, []) == last + CRLF + CRLF
  {
    assert HexValue(last[..0]) == 0;
  }

  lemma NoSlices(left: seq<byte>, requests: seq<nat>)
    ensures Slices(left, requests[..0]) == [] && left[Total(left, requests[..0])..] == left
  {
  }

  lemma OneMoreSlice(left: seq<byte>, requests: seq<nat>, i: nat, value: seq<byte>, rest: seq<byte>)
    requires i < |requests| && value + rest == left[Total(left, requests[..i])..]
    requires value == Slice(left[Total(left, requests[..i])..], requests[i])
    ensures Slices(left, requests[..i + 1]) == Slices(left, requests[..i]) + [value]
    ensures left[Total(left, requests[..i + 1])..] == rest
  {
    hide Slice;
    assert requests[..i + 1][..i] == requests[..i];
    var t := Total(left, requests[..i]);
    assert rest == (value + rest)[|value|..] == left[t..][|value|..] == left[t + |value|..];
  }

  /** The consecutive slices owed to a sequence of requests. */
  ghost function Slices(left: seq<byte>, requests: seq<nat>): seq<seq<byte>> {
    if requests == [] then []
    else
      var n := |requests| - 1;
      Slices(left, requests[..n]) + [Slice(left[Total(left, requests[..n])..], requests[n])]
  }

  ghost function Total(left: seq<byte>, requests: seq<nat>): (t: nat)
    ensures t <= |left|
  {
    if requests == [] then 0
    else
      var n := |requests| - 1;
      var t := Total(left, requests[..n]);
      t + |Slice(left[t..], requests[n])|
  }
}
