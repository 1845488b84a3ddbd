/** The chunked coding of section 7.1 of RFC 9112, without extensions and trailers, as a function of the whole stream:
    the reference the incremental decoder is proved against. */
module ChunkedFormat {
  import opened Bytes

  const CR: byte := 13
  const LF: byte := 10
  const CRLF: seq<byte> := [CR, LF]
  const MAX_SIZE: nat := 0x7fff_ffff_ffff_fffe
  const ULONG_MAX: nat := 0xffff_ffff_ffff_ffff

  // ----- hexadecimal size lines

  predicate IsHex(c: byte) {
    48 <= c <= 57 || 97 <= c <= 102 || 65 <= c <= 70
  }

  function HexDigit(c: byte): (d: nat)
    requires IsHex(c)
    ensures d < 16
  {
    if c <= 57 then c - 48 else if c >= 97 then c - 87 else c - 55
  }

  predicate AllHex(s: seq<byte>) {
    forall i :: 0 <= i < |s| ==> IsHex(s[i])
  }

  function HexValue(s: seq<byte>): nat
    requires AllHex(s)
  {
    if s == [] then 0 else 16 * HexValue(s[..|s| - 1]) + HexDigit(s[|s| - 1])
  }

  /** The conversion of a size line: it saturates. */
  function StrToUl(s: seq<byte>): nat
    requires AllHex(s)
  {
    if HexValue(s) > ULONG_MAX then ULONG_MAX else HexValue(s)
  }

  /** The length of the leading run of hexadecimal digits. */
  function HexRun(s: seq<byte>): (n: nat)
    ensures n <= |s| && AllHex(s[..n]) && (n < |s| ==> !IsHex(s[n]))
  {
    if s == [] || !IsHex(s[0]) then 0
    else
      var n := HexRun(s[1..]) + 1;
      assert forall i :: 0 <= i < n ==> s[..n][i] == if i == 0 then s[0] else s[1..][..n - 1][i - 1];
      n
  }

  datatype Line = NeedMore | BadLine | SizeLine(digits: nat)

  /** What the start of a buffer is as a size line. */
  function ParseLine(s: seq<byte>): Line {
    var n := HexRun(s);
    if n == |s| then NeedMore
    else if s[n] != CR then BadLine
    else if n + 1 == |s| then NeedMore
    else if s[n + 1] != LF then BadLine
    else SizeLine(n)
  }

  // ----- frames

  datatype Frame =
    | More
    | Bad
    | Odd   // a size line without digits, or a size the decoder's signed length cannot hold
    | Chunk(payload: seq<byte>, rest: seq<byte>)
    | Last(rest: seq<byte>)

  /** The part of a frame after a nonzero size line. */
  function Body(len: nat, t: seq<byte>): Frame {
    if |t| < len + 2 then More
    else if t[len] != CR || t[len + 1] != LF then Bad
    else Chunk(t[..len], t[len + 2..])
  }

  /** The part of a frame after the zero size line. */
  function Final(t: seq<byte>): Frame {
    if |t| < 2 then More
    else if t[0] != CR || t[1] != LF then Bad
    else Last(t[2..])
  }

  function AfterLine(size: nat, t: seq<byte>): Frame {
    if size == 0 then Final(t) else Body(size, t)
  }

  predicate OddLine(s: seq<byte>, digits: nat)
    requires digits <= |s| && AllHex(s[..digits])
  {
    digits == 0 || StrToUl(s[..digits]) >= MAX_SIZE
  }

  function Parse(s: seq<byte>): Frame {
    match ParseLine(s)
    case NeedMore => More
    case BadLine => Bad
    case SizeLine(n) =>
      if OddLine(s, HexRun(s)) then Odd else AfterLine(StrToUl(s[..HexRun(s)]), s[HexRun(s) + 2..])
  }

  // ----- more bytes never change a decision

  lemma {:induction false} HexRunExtends(s: seq<byte>, t: seq<byte>)
    requires HexRun(s) < |s|
    ensures HexRun(s + t) == HexRun(s)
  {
    if s != [] && IsHex(s[0]) {
      assert (s + t)[1..] == s[1..] + t;
      HexRunExtends(s[1..], t);
    }
  }

  /** A size line that is decided stays as it is when more bytes arrive, and so does what it says. */
  lemma LineExtends(s: seq<byte>, t: seq<byte>)
    requires ParseLine(s) != NeedMore
    ensures ParseLine(s + t) == ParseLine(s) && HexRun(s + t) == HexRun(s)
    ensures (s + t)[..HexRun(s)] == s[..HexRun(s)]
  {
    HexRunExtends(s, t);
  }

  lemma LineTail(s: seq<byte>, t: seq<byte>)
    requires ParseLine(s).SizeLine?
    ensures HexRun(s) + 2 <= |s| && (s + t)[HexRun(s) + 2..] == s[HexRun(s) + 2..] + t
  {
  }

  /** The frame at the head of s + t, once the size line of s is complete. */
  lemma ParseAfterLine(s: seq<byte>, t: seq<byte>)
    requires ParseLine(s).SizeLine?
    ensures Parse(s + t) == if OddLine(s, HexRun(s)) then Odd
                            else AfterLine(StrToUl(s[..HexRun(s)]), s[HexRun(s) + 2..] + t)
  {
    hide AfterLine, StrToUl;
    LineExtends(s, t);
    LineTail(s, t);
  }

  lemma ParseBadLine(s: seq<byte>, t: seq<byte>)
    requires ParseLine(s) == BadLine
    ensures Parse(s + t) == Bad
  {
    LineExtends(s, t);
  }

  // ----- well-formed streams

  datatype WireChunk = WireChunk(size: seq<byte>, payload: seq<byte>)

  predicate SizeFor(size: seq<byte>, n: nat) {
    size != [] && AllHex(size) && HexValue(size) == n
  }

  predicate ValidChunk(w: WireChunk) {
    SizeFor(w.size, |w.payload|) && 0 < |w.payload| < MAX_SIZE
  }

  /** Any stream the coding allows: sizes in any case and with any leading zeros, then the last chunk, then anything. */
  function Encode(ws: seq<WireChunk>, last: seq<byte>, trail: seq<byte>): seq<byte> {
    if ws == [] then last + CRLF + CRLF + trail
    else ws[0].size + CRLF + (ws[0].payload + CRLF + Encode(ws[1..], last, trail))
  }

  lemma {:induction false} HexRunOfLine(size: seq<byte>, t: seq<byte>)
    requires AllHex(size) && t != [] && !IsHex(t[0])
    ensures HexRun(size + t) == |size|
  {
    if size == [] {
      assert size + t == t;
    } else {
      assert (size + t)[1..] == size[1..] + t;
      HexRunOfLine(size[1..], t);
    }
  }

  lemma ParseSize(size: seq<byte>, n: nat, t: seq<byte>)
    requires SizeFor(size, n) && n < MAX_SIZE
    ensures Parse(size + CRLF + t) == AfterLine(n, t)
  {
    var s := size + CRLF + t;
    assert s == size + (CRLF + t);
    HexRunOfLine(size, CRLF + t);
    assert s[..|size|] == size && s[|size| + 2..] == t && s[|size|] == CR && s[|size| + 1] == LF;
  }

  /** A well-formed stream parses into its first chunk and the stream of the others. */
  lemma ParseEncoded(ws: seq<WireChunk>, last: seq<byte>, trail: seq<byte>)
    requires (forall i :: 0 <= i < |ws| ==> ValidChunk(ws[i])) && SizeFor(last, 0)
    ensures Parse(Encode(ws, last, trail)) ==
            if ws == [] then Last(trail) else Chunk(ws[0].payload, Encode(ws[1..], last, trail))
  {
    if ws == [] {
      assert last + CRLF + CRLF + trail == last + CRLF + (CRLF + trail);
      ParseSize(last, 0, CRLF + trail);
      assert (CRLF + trail)[2..] == trail;
    } else {
      var t := ws[0].payload + CRLF + Encode(ws[1..], last, trail);
      ParseSize(ws[0].size, |ws[0].payload|, t);
      BodyOf(ws[0].payload, Encode(ws[1..], last, trail));
    }
  }

  lemma BodyOf(payload: seq<byte>, t: seq<byte>)
    ensures Body(|payload|, payload + CRLF + t) == Chunk(payload, t)
  {
    var s := payload + CRLF + t;
    assert s[..|payload|] == payload && s[|payload| + 2..] == t && s[|payload|] == CR && s[|payload| + 1] == LF;
  }

  // ----- what each answer of the parser says about the bytes

  /** A chunk is hexadecimal digits of its length, a line end, that many bytes, and a line end. */
  lemma ParsedChunk(s: seq<byte>) returns (size: seq<byte>)
    requires Parse(s).Chunk?
    ensures SizeFor(size, |Parse(s).payload|) && |Parse(s).payload| > 0
    ensures s == size + [13, 10] + Parse(s).payload + [13, 10] + Parse(s).rest
  {
    size := s[..HexRun(s)];
    var t := s[HexRun(s) + 2..];
    SplitLine(s);
    var len := StrToUl(size);
    assert t == t[..len] + [13, 10] + t[len + 2..];
  }

  /** The last chunk is hexadecimal digits of zero and two line ends. */
  lemma ParsedLast(s: seq<byte>) returns (size: seq<byte>)
    requires Parse(s).Last?
    ensures SizeFor(size, 0) && s == size + [13, 10] + [13, 10] + Parse(s).rest
  {
    size := s[..HexRun(s)];
    var t := s[HexRun(s) + 2..];
    SplitLine(s);
    assert t == [13, 10] + t[2..];
  }

  lemma SplitLine(s: seq<byte>)
    requires ParseLine(s).SizeLine?
    ensures HexRun(s) + 2 <= |s| && s == s[..HexRun(s)] + [13, 10] + s[HexRun(s) + 2..]
  {
    hide HexRun, AllHex;
    SplitAt(s, HexRun(s));
  }

  lemma SplitAt(s: seq<byte>, n: nat)
    requires n + 2 <= |s|
    ensures s == s[..n] + [s[n], s[n + 1]] + s[n + 2..]
  {
  }

  /** More bytes are asked for only while the size line is not complete, or the bytes it announces and their line end are not
      all there. */
  lemma ParsedMore(s: seq<byte>) returns (size: seq<byte>, t: seq<byte>)
    requires Parse(s).More?
    ensures || AllHex(s) || (s != [] && AllHex(s[..|s| - 1]) && s[|s| - 1] == 13)
            || (AllHex(size) && size != [] && s == size + [13, 10] + t && |t| < HexValue(size) + 2)
  {
    var n := HexRun(s);
    if ParseLine(s).SizeLine? {
      size, t := s[..n], s[n + 2..];
      SplitLine(s);
    } else {
      size, t := [], [];
      assert s[..|s|] == s;
    }
  }

  /** No bytes that follow can make a frame of a malformed start. */
  lemma BadForever(s: seq<byte>, t: seq<byte>)
    requires Parse(s).Bad?
    ensures Parse(s + t).Bad?
  {
    if ParseLine(s) == BadLine {
      ParseBadLine(s, t);
    } else {
      ParseAfterLine(s, t);
    }
  }

  /** Sizes are read alike in both cases, and a digit stands for what it is written for. */
  lemma HexCase(c: byte, d: nat)
    ensures 97 <= c <= 102 ==> IsHex(c) && IsHex(c - 32) && HexDigit(c) == HexDigit(c - 32)
    ensures d < 16 ==> IsHex(UpperDigit(d)) && HexDigit(UpperDigit(d)) == d
    ensures d < 10 ==> UpperDigit(d) == 48 + d
    ensures 10 <= d < 16 ==> UpperDigit(d) == 65 + (d - 10)
  {
  }

  // ----- the size line the server writes

  function UpperDigit(d: nat): byte
    requires d < 16
  {
    if d < 10 then 48 + d else 55 + d
  }

  function UpperHex(n: nat): (s: seq<byte>)
    ensures s != [] && AllHex(s) && HexValue(s) == n
  {
    if n < 16 then [UpperDigit(n)]
    else
      var s := UpperHex(n / 16) + [UpperDigit(n % 16)];
      assert s[..|s| - 1] == UpperHex(n / 16);
      s
  }

  /** The writer prints the length as an unsigned int. */
  function SizeText(len: nat): seq<byte> {
    UpperHex(len % 0x1_0000_0000)
  }

  /** So its size lines describe their payloads exactly when those are shorter than 4 GiB, and not empty. */
  lemma SizeTextDescribes(payload: seq<byte>)
    ensures ValidChunk(WireChunk(SizeText(|payload|), payload)) <==> 0 < |payload| < 0x1_0000_0000
  {
  }
}
