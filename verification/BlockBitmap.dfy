/** The block bitmap of a cache: one bit per data block, most significant bit of byte 0 first.
    A set bit is a block in use. The scanner and the two range writers work on the bytes in place;
    what they do is stated over `Bits`, the bitmap read as a sequence of booleans. */
module BlockBitmap {

  // the scanner's "no free blocks" answer
  const NO_BLOCK: nat := 0xffff_ffff_ffff_ffff

  function Mask(k: nat): bv8 {
    if k == 0 then 0x80 else if k == 1 then 0x40 else if k == 2 then 0x20 else if k == 3 then 0x10
    else if k == 4 then 0x08 else if k == 5 then 0x04 else if k == 6 then 0x02 else if k == 7 then 0x01
    else 0
  }

  ghost predicate Bit(bm: seq<bv8>, b: nat)
    requires b < 8 * |bm|
  {
    bm[b / 8] & Mask(b % 8) != 0
  }

  ghost function Bits(bm: seq<bv8>): (bits: seq<bool>)
    ensures |bits| == 8 * |bm|
  {
    seq(8 * |bm|, b requires 0 <= b < 8 * |bm| => Bit(bm, b))
  }

  // ----- how many blocks a value takes

  function BlocksFor(len: nat, blocksize: nat): nat
    requires blocksize > 0
  {
    if len % blocksize > 0 then len / blocksize + 1 else len / blocksize
  }

  lemma BlocksForBounds(len: nat, blocksize: nat)
    requires blocksize > 0
    ensures len <= BlocksFor(len, blocksize) * blocksize < len + blocksize
    ensures len > 0 ==> BlocksFor(len, blocksize) > 0
  {
    var q, r := len / blocksize, len % blocksize;
    assert len == q * blocksize + r;
    assert (q + 1) * blocksize == q * blocksize + blocksize;
  }

  lemma MulLess(a: nat, b: nat, c: nat)
    requires a * c < b * c
    ensures a < b
  {
    assert a >= b ==> (a - b) * c >= 0;
  }

  lemma BlocksForFits(len: nat, blocksize: nat, blocks: nat)
    requires blocksize > 0 && len <= blocksize * blocks
    ensures BlocksFor(len, blocksize) <= blocks
  {
    BlocksForBounds(len, blocksize);
    MulLess(BlocksFor(len, blocksize), blocks + 1, blocksize);
  }

  // ----- runs of free blocks

  ghost predicate FreeRun(bits: seq<bool>, start: nat, n: nat) {
    start + n <= |bits| && forall b :: start <= b < start + n ==> !bits[b]
  }

  /** `start` begins a free run of `n` blocks lying wholly in [lo, hi). */
  ghost predicate RunIn(bits: seq<bool>, lo: nat, hi: nat, n: nat, start: nat) {
    lo <= start && start + n <= hi && FreeRun(bits, start, n)
  }

  ghost predicate NoRun(bits: seq<bool>, lo: nat, hi: nat, n: nat) {
    forall s: nat :: !RunIn(bits, lo, hi, n, s)
  }

  ghost predicate LeftmostRun(bits: seq<bool>, lo: nat, hi: nat, n: nat, start: nat) {
    RunIn(bits, lo, hi, n, start) && forall s: nat :: RunIn(bits, lo, hi, n, s) ==> start <= s
  }

  /** The end of the prefix that is scanned again after wrapping: `pos`, or the end of its byte. */
  ghost function PrefixEnd(pos: nat): nat {
    if pos % 8 == 0 then pos else (pos / 8 + 1) * 8
  }

  /** Whether the scan that starts at `pos` has anything to find. */
  ghost predicate HasRoom(bits: seq<bool>, pos: nat, n: nat) {
    !NoRun(bits, pos, |bits|, n) || !NoRun(bits, 0, PrefixEnd(pos), n)
  }

  /** What the scan can miss: only free runs that begin before the scan position and end behind it, past the end of its byte. */
  lemma MissedRunsStraddle(bits: seq<bool>, pos: nat, n: nat, start: nat)
    requires start + n <= |bits| && forall b :: start <= b < start + n ==> !bits[b]
    ensures HasRoom(bits, pos, n) || (start < pos < start + n && (pos % 8 > 0 ==> pos - pos % 8 + 8 < start + n))
  {
    assert RunIn(bits, pos, |bits|, n, start) || start < pos;
    assert RunIn(bits, 0, PrefixEnd(pos), n, start) || start + n > PrefixEnd(pos);
  }

  /** Where there is room, a free run lies behind the scan position or before the end of its byte. */
  lemma RoomIsRun(bits: seq<bool>, pos: nat, n: nat) returns (start: nat)
    requires HasRoom(bits, pos, n)
    ensures start + n <= |bits| && (forall b :: start <= b < start + n ==> !bits[b])
    ensures start >= pos || start + n < pos + 8
  {
    if !NoRun(bits, pos, |bits|, n) {
      start :| RunIn(bits, pos, |bits|, n, start);
    } else {
      start :| RunIn(bits, 0, PrefixEnd(pos), n, start);
    }
  }

  /** The scanner's state before bit `p` of a region beginning at `lo`: nothing found yet, and
      `found` is the length of the maximal free run ending at `p`. */
  ghost predicate Scanning(bits: seq<bool>, lo: nat, n: nat, p: nat, found: nat) {
    && lo <= p <= |bits| && found < n && found <= p - lo
    && FreeRun(bits, p - found, found)
    && (found < p - lo ==> bits[p - found - 1])
    && NoRun(bits, lo, p, n)
  }

  lemma NoRunExtends(bits: seq<bool>, lo: nat, n: nat, p: nat, found: nat, hi: nat)
    requires Scanning(bits, lo, n, p, found) && p < |bits| && hi == p + 1
    requires bits[p] || found + 1 < n
    ensures NoRun(bits, lo, hi, n)
  {
    forall s: nat | RunIn(bits, lo, hi, n, s)
      ensures s + n <= p
    {
      assert FreeRun(bits, s, n);
      assert s + n == p + 1 ==> s <= p;
      assert s + n == p + 1 && found + 1 < n ==> lo <= s <= p - found - 1;
    }
    assert forall s: nat :: RunIn(bits, lo, hi, n, s) ==> RunIn(bits, lo, p, n, s);
  }

  lemma RunFound(bits: seq<bool>, lo: nat, n: nat, p: nat, found: nat, hi: nat)
    requires Scanning(bits, lo, n, p, found) && p < hi <= |bits|
    requires !bits[p] && found + 1 == n
    ensures LeftmostRun(bits, lo, hi, n, p - found)
  {
    assert RunIn(bits, lo, hi, n, p - found);
    assert forall s: nat :: RunIn(bits, lo, hi, n, s) && s + n <= p ==> RunIn(bits, lo, p, n, s);
  }

  lemma ScanStep(bits: seq<bool>, lo: nat, n: nat, p: nat, found: nat)
    requires Scanning(bits, lo, n, p, found) && p < |bits|
    ensures found < n
    ensures bits[p] ==> Scanning(bits, lo, n, p + 1, 0)
    ensures !bits[p] && found + 1 < n ==> Scanning(bits, lo, n, p + 1, found + 1)
  {
    if bits[p] || found + 1 < n {
      NoRunExtends(bits, lo, n, p, found, p + 1);
    }
  }

  lemma ScanEnds(bits: seq<bool>, lo: nat, n: nat, p: nat, found: nat)
    requires Scanning(bits, lo, n, p, found)
    ensures NoRun(bits, lo, p, n)
  {
  }

  lemma ScanBegins(bits: seq<bool>, lo: nat, n: nat)
    requires lo <= |bits| && n > 0
    ensures Scanning(bits, lo, n, lo, 0)
  {
  }

  lemma MaskShift(k: nat)
    requires k < 8
    ensures Mask(k) == (1 as bv8) << (7 - k)
    ensures Mask(k) >> 1 == Mask(k + 1)
    ensures Mask(k) != 0
  {
  }

  /** The answer of a first-fit search for `n` blocks from `pos`, wrapping once. */
  ghost predicate FirstFit(bits: seq<bool>, pos: nat, n: nat, start: nat) {
    if start == NO_BLOCK then !HasRoom(bits, pos, n)
    else || LeftmostRun(bits, pos, |bits|, n, start)
         || (NoRun(bits, pos, |bits|, n) && LeftmostRun(bits, 0, PrefixEnd(pos), n, start))
  }

  method NeededBlocks(len: nat, blocksize: nat) returns (n: nat)
    requires blocksize > 0
    ensures n == BlocksFor(len, blocksize) && (len > 0 ==> n > 0)
  {
    n := len / blocksize;
    if len % blocksize > 0 { n := n + 1; }
    BlocksForBounds(len, blocksize);
  }

  /** The run counter in the scanner's terms: the start of the current run as a byte and a bit. */
  ghost predicate Based(p: nat, found: nat, base: nat, baseBit: nat) {
    if found == 0 then base == NO_BLOCK else base < NO_BLOCK && base * 8 + baseBit == p - found
  }

  lemma MaskEnds()
    ensures Mask(8) == 0 && forall k {:trigger Mask(k)} :: 0 <= k < 8 ==> Mask(k) != 0
  {
  }

  /** A set bit ends the run; a clear one extends it, or starts it here. */
  lemma BasedStep(j: nat, bit: nat, found: nat, base: nat, baseBit: nat)
    requires Based(8 * j + bit, found, base, baseBit) && j < NO_BLOCK
    ensures Based(8 * j + bit + 1, 0, NO_BLOCK, 0)
    ensures var (b, bb) := if base == NO_BLOCK then (j, bit) else (base, baseBit);
            Based(8 * j + bit + 1, found + 1, b, bb) && b * 8 + bb == 8 * j + bit - found
  {
  }

  method ScanBit(taken: bool, j: nat, bitPos: nat, n: nat, found0: nat, base0: nat, baseBit0: nat,
                 ghost bits: seq<bool>, ghost lo: nat)
    returns (found: nat, base: nat, baseBit: nat, hit: bool)
    requires 8 * j + bitPos < |bits| < NO_BLOCK && bits[8 * j + bitPos] == taken
    requires Scanning(bits, lo, n, 8 * j + bitPos, found0) && Based(8 * j + bitPos, found0, base0, baseBit0)
    ensures !hit ==> Scanning(bits, lo, n, 8 * j + bitPos + 1, found) && Based(8 * j + bitPos + 1, found, base, baseBit)
    ensures hit ==>
              && !taken && Scanning(bits, lo, n, 8 * j + bitPos, n - 1)
              && base * 8 + baseBit == 8 * j + bitPos + 1 - n
  {
    hide Scanning, Based;
    ScanStep(bits, lo, n, 8 * j + bitPos, found0);
    BasedStep(j, bitPos, found0, base0, baseBit0);
    found, base, baseBit, hit := found0, base0, baseBit0, false;
    if taken {
      found, base, baseBit := 0, NO_BLOCK, 0;
    } else {
      if base == NO_BLOCK {
        base, baseBit := j, bitPos;
      }
      found := found + 1;
      if found == n {
        hit := true;
      }
    }
  }

  /** The scan of one byte, from bit `from` on; `hit` when the run of `n` blocks is complete. */
  method ScanByte(num: bv8, j: nat, from: nat, n: nat, found0: nat, base0: nat, baseBit0: nat,
                  ghost bits: seq<bool>, ghost lo: nat)
    returns (found: nat, base: nat, baseBit: nat, hit: bool, ghost p: nat)
    requires from < 8 && 8 * j + 8 <= |bits| < NO_BLOCK
    requires forall k {:trigger Mask(k)} :: 0 <= k < 8 ==> (bits[8 * j + k] <==> num & Mask(k) != 0)
    requires Scanning(bits, lo, n, 8 * j + from, found0) && Based(8 * j + from, found0, base0, baseBit0)
    ensures !hit ==> Scanning(bits, lo, n, 8 * j + 8, found) && Based(8 * j + 8, found, base, baseBit)
    ensures hit ==>
              && 8 * j <= p < 8 * j + 8 && !bits[p] && Scanning(bits, lo, n, p, n - 1)
              && base * 8 + baseBit == p + 1 - n
  {
    hide Scanning, Based, Mask;
    found, base, baseBit, hit := found0, base0, baseBit0, false;
    MaskEnds();
    MaskShift(from);
    var i: bv8 := 1 << (7 - from);
    var bitPos := from;
    p := 8 * j + from;
    while i > 0
      invariant bitPos <= 8 && i == Mask(bitPos) && p == 8 * j + bitPos
      invariant Scanning(bits, lo, n, p, found) && Based(p, found, base, baseBit) && !hit
      decreases 8 - bitPos
    {
      MaskShift(bitPos);
      found, base, baseBit, hit := ScanBit(num & i != 0, j, bitPos, n, found, base, baseBit, bits, lo);
      if hit {
        return;
      }
      i := i >> 1;
      bitPos := bitPos + 1;
      p := p + 1;
    }
  }

  lemma ByteOfBits(bm: seq<bv8>, j: nat)
    requires j < |bm|
    ensures forall k {:trigger Mask(k)} :: 0 <= k < 8 ==> (Bits(bm)[8 * j + k] <==> bm[j] & Mask(k) != 0)
  {
    forall k | 0 <= k < 8 ensures Bits(bm)[8 * j + k] <==> bm[j] & Mask(k) != 0 {
      assert (8 * j + k) / 8 == j && (8 * j + k) % 8 == k;
    }
  }

  method NextByte(bitmap: array<bv8>, j: nat, from: nat, n: nat, found0: nat, base0: nat, baseBit0: nat,
                  ghost lo: nat, ghost hi: nat)
    returns (found: nat, base: nat, baseBit: nat, hit: bool, ghost p: nat)
    requires 8 * j + 8 <= hi <= 8 * bitmap.Length && n > 0
    requires from < 8 && j < bitmap.Length && 8 * bitmap.Length < NO_BLOCK
    requires Scanning(Bits(bitmap[..]), lo, n, 8 * j + from, found0) && Based(8 * j + from, found0, base0, baseBit0)
    ensures !hit ==> Scanning(Bits(bitmap[..]), lo, n, 8 * j + 8, found) && Based(8 * j + 8, found, base, baseBit)
    ensures hit ==> LeftmostRun(Bits(bitmap[..]), lo, hi, n, base * 8 + baseBit) && base * 8 + baseBit < NO_BLOCK
  {
    hide Scanning, LeftmostRun, Based, Bits;
    ByteOfBits(bitmap[..], j);
    found, base, baseBit, hit, p := ScanByte(bitmap[j], j, from, n, found0, base0, baseBit0, Bits(bitmap[..]), lo);
    if hit {
      RunFound(Bits(bitmap[..]), lo, n, p, n - 1, hi);
    }
  }

  /** The scan of the bytes [fromByte, toByte), from bit `fromBit` of the first; a run never crosses its ends. */
  method ScanRegion(bitmap: array<bv8>, fromByte: nat, fromBit: nat, toByte: nat, n: nat) returns (hit: bool, start: nat)
    requires n > 0 && fromBit < 8 && 8 * bitmap.Length < NO_BLOCK
    requires toByte <= bitmap.Length && if fromBit == 0 then fromByte <= toByte else fromByte < toByte
    ensures hit ==> LeftmostRun(Bits(bitmap[..]), 8 * fromByte + fromBit, 8 * toByte, n, start) && start < NO_BLOCK
    ensures !hit ==> NoRun(Bits(bitmap[..]), 8 * fromByte + fromBit, 8 * toByte, n)
  {
    hide Scanning, NoRun, LeftmostRun, Bits;
    ghost var bits, lo := Bits(bitmap[..]), 8 * fromByte + fromBit;
    var base, baseBit := NO_BLOCK, 0;
    var found, j := 0, fromByte;
    ghost var p: nat := lo;
    ScanBegins(bits, lo, n);
    while j < toByte
      invariant fromByte <= j <= toByte && p == if j == fromByte then lo else 8 * j
      invariant Scanning(bits, lo, n, p, found) && Based(p, found, base, baseBit)
    {
      found, base, baseBit, hit, p :=
        NextByte(bitmap, j, if j == fromByte then fromBit else 0, n, found, base, baseBit, lo, 8 * toByte);
      if hit {
        return true, base * 8 + baseBit;
      }
      j := j + 1;
      p := 8 * j;
    }
    ScanEnds(bits, lo, n, p, found);
    return false, 0;
  }

  /** First-fit search from `pos`. The source's loop resets its run when it wraps, so it is two scans: from `pos`
      to the end, then the bytes before it again, with the byte of `pos` itself when the scan started inside it. */
  method FindFreeBlocks(bitmap: array<bv8>, pos: nat, need: nat, blocksize: nat) returns (start: nat)
    requires blocksize > 0 && need > 0
    requires pos < 8 * bitmap.Length < NO_BLOCK
    ensures FirstFit(Bits(bitmap[..]), pos, BlocksFor(need, blocksize), start)
  {
    hide NoRun, LeftmostRun, Bits;
    var neededBlocks := NeededBlocks(need, blocksize);
    var bitmapByte, bitmapBit := pos / 8, pos % 8;
    var hit;
    hit, start := ScanRegion(bitmap, bitmapByte, bitmapBit, bitmap.Length, neededBlocks);
    if !hit {
      hit, start := ScanRegion(bitmap, 0, 0, if bitmapBit > 0 then bitmapByte + 1 else bitmapByte, neededBlocks);
      if !hit {
        start := NO_BLOCK;
      }
    }
  }

  // ----- marking and unmarking a range

  ghost predicate Selects(mask: bv8, from: nat, to: nat) {
    forall k :: 0 <= k < 8 ==> (mask & Mask(k) != 0 <==> from <= k <= to)
  }

  lemma MaskSelects(fb: nat, lb: nat)
    requires fb < 8 && lb < 8
    ensures Selects((0xff as bv8) >> fb, fb, 7)
    ensures Selects((0xff as bv8) << (7 - lb), 0, lb)
    ensures fb <= lb ==> Selects((((0xff as bv8) >> fb) >> (7 - lb)) << (7 - lb), fb, lb)
  {
  }

  lemma SetAndClear(b: bv8, m: bv8, k: nat)
    requires k < 8
    ensures (b | m) & Mask(k) != 0 <==> b & Mask(k) != 0 || m & Mask(k) != 0
    ensures (b & !m) & Mask(k) != 0 <==> b & Mask(k) != 0 && m & Mask(k) == 0
  {
  }

  /** `after` is `before` with exactly the bits of [index, end) set to `used`. */
  ghost predicate RangeWritten(before: seq<bool>, after: seq<bool>, index: nat, end: nat, used: bool) {
    && |after| == |before|
    && forall b :: 0 <= b < |before| ==> after[b] == if index <= b < end then used else before[b]
  }

  function Masked(x: bv8, mask: bv8, used: bool): bv8 {
    if used then x | mask else x & !mask
  }

  lemma ByteWritten(before: seq<bv8>, after: seq<bv8>, q: nat, mask: bv8, from: nat, to: nat, used: bool)
    requires q < |before| && from <= to < 8 && Selects(mask, from, to)
    requires after == before[q := Masked(before[q], mask, used)]
    ensures RangeWritten(Bits(before), Bits(after), 8 * q + from, 8 * q + to + 1, used)
  {
    hide Bit, Selects, On, Masked;
    forall b: nat | b < 8 * |before|
      ensures Bit(after, b) == if 8 * q + from <= b < 8 * q + to + 1 then used else Bit(before, b)
    {
      if 8 * q <= b < 8 * q + 8 {
        WrittenBit(before[q], after[q], mask, from, to, used, b - 8 * q);
        ThisByte(before, after, q, from, to, used, b - 8 * q, b);
      } else {
        AnotherByte(before, after, q, b);
      }
    }
  }

  lemma AnotherByte(before: seq<bv8>, after: seq<bv8>, q: nat, b: nat)
    requires q < |before| && b < 8 * |before| && !(8 * q <= b < 8 * q + 8)
    requires |after| == |before| && after == before[q := after[q]]
    ensures Bit(after, b) == Bit(before, b)
  {
    hide Mask;
  }

  lemma ThisByte(before: seq<bv8>, after: seq<bv8>, q: nat, from: nat, to: nat, used: bool, k: nat, b: nat)
    requires q < |before| == |after| && k < 8 && b == 8 * q + k
    requires On(after[q], k) == if from <= k <= to then used else On(before[q], k)
    ensures Bit(after, b) == if 8 * q + from <= b < 8 * q + to + 1 then used else Bit(before, b)
  {
    hide Bit, On;
    BitIsOn(before, q, k, b);
    BitIsOn(after, q, k, b);
  }

  predicate On(x: bv8, k: nat) {
    x & Mask(k) != 0
  }

  lemma BitIsOn(bm: seq<bv8>, q: nat, k: nat, b: nat)
    requires q < |bm| && k < 8 && b == 8 * q + k
    ensures Bit(bm, b) == On(bm[q], k)
  {
    hide Mask;
    assert b / 8 == q && b % 8 == k;
  }

  lemma WrittenBit(x: bv8, y: bv8, mask: bv8, from: nat, to: nat, used: bool, k: nat)
    requires k < 8 && to < 8 && Selects(mask, from, to) && y == Masked(x, mask, used)
    ensures On(y, k) == if from <= k <= to then used else On(x, k)
  {
    SetAndClear(x, mask, k);
    hide Mask;
  }

  // the three masks, built by the source's shifts
  method HeadMask(firstByteBit: nat) returns (mask: bv8)
    requires firstByteBit < 8
    ensures Selects(mask, firstByteBit, 7)
  {
    MaskSelects(firstByteBit, 7);
    mask := 0xff >> firstByteBit;
  }

  method TailMask(lastByteBit: nat) returns (mask: bv8)
    requires lastByteBit < 8
    ensures Selects(mask, 0, lastByteBit)
  {
    MaskSelects(0, lastByteBit);
    mask := 0xff << (7 - lastByteBit);
  }

  method OneByteMask(firstByteBit: nat, lastByteBit: nat) returns (mask: bv8)
    requires firstByteBit <= lastByteBit < 8
    ensures Selects(mask, firstByteBit, lastByteBit)
  {
    MaskSelects(firstByteBit, lastByteBit);
    mask := 0xff >> firstByteBit;
    mask := mask >> (7 - lastByteBit);
    mask := mask << (7 - lastByteBit);
  }

  lemma RangesJoin(b0: seq<bool>, b1: seq<bool>, b2: seq<bool>, b3: seq<bool>,
                   i: nat, j: nat, k: nat, e: nat, used: bool)
    requires i <= j <= k <= e
    requires RangeWritten(b0, b1, i, j, used) && RangeWritten(b1, b2, k, e, used) && RangeWritten(b2, b3, j, k, used)
    ensures RangeWritten(b0, b3, i, e, used)
  {
  }

  lemma BytesFilled(before: seq<bv8>, after: seq<bv8>, first: nat, last: nat, used: bool)
    requires first < last < |before| == |after|
    requires forall q :: 0 <= q < |before| ==>
               after[q] == if first < q < last then (if used then 0xff else 0) else before[q]
    ensures RangeWritten(Bits(before), Bits(after), 8 * first + 8, 8 * last, used)
  {
    forall b | 0 <= b < 8 * |before|
      ensures Bit(after, b) == if 8 * first + 8 <= b < 8 * last then used else Bit(before, b)
    {
    }
  }

  method MarkBlocks(bitmap: array<bv8>, index: nat, len: nat, blocksize: nat) returns (neededBlocks: nat)
    requires blocksize > 0 && len > 0
    requires index + BlocksFor(len, blocksize) <= 8 * bitmap.Length
    modifies bitmap
    ensures neededBlocks == BlocksFor(len, blocksize)
    ensures RangeWritten(old(Bits(bitmap[..])), Bits(bitmap[..]), index, index + neededBlocks, true)
  {
    neededBlocks := NeededBlocks(len, blocksize);
    SetRange(bitmap, index, neededBlocks);
  }

  method SetRange(bitmap: array<bv8>, index: nat, neededBlocks: nat)
    requires neededBlocks > 0 && index + neededBlocks <= 8 * bitmap.Length
    modifies bitmap
    ensures RangeWritten(old(Bits(bitmap[..])), Bits(bitmap[..]), index, index + neededBlocks, true)
  {
    hide RangeWritten, Bits, Selects;
    var firstByte, firstByteBit := index / 8, index % 8;
    var lastByte, lastByteBit := (index + neededBlocks - 1) / 8, (index + neededBlocks - 1) % 8;
    var neededBytes := lastByte - firstByte + 1;
    if neededBytes == 1 {
      var mask := OneByteMask(firstByteBit, lastByteBit);
      bitmap[firstByte] := bitmap[firstByte] | mask;
      ByteWritten(old(bitmap[..]), bitmap[..], firstByte, mask, firstByteBit, lastByteBit, true);
    } else {
      SetRangeBytes(bitmap, firstByte, firstByteBit, lastByte, lastByteBit);
    }
  }

  method SetRangeBytes(bitmap: array<bv8>, firstByte: nat, firstByteBit: nat, lastByte: nat, lastByteBit: nat)
    requires firstByte < lastByte < bitmap.Length && firstByteBit < 8 && lastByteBit < 8
    modifies bitmap
    ensures RangeWritten(old(Bits(bitmap[..])), Bits(bitmap[..]),
                         8 * firstByte + firstByteBit, 8 * lastByte + lastByteBit + 1, true)
  {
    hide RangeWritten, Bits, Selects;
    ghost var bm0 := bitmap[..];
    var mask := HeadMask(firstByteBit);
    bitmap[firstByte] := bitmap[firstByte] | mask;
    ghost var bm1 := bitmap[..];
    ByteWritten(bm0, bm1, firstByte, mask, firstByteBit, 7, true);
    mask := TailMask(lastByteBit);
    bitmap[lastByte] := bitmap[lastByte] | mask;
    ghost var bm2 := bitmap[..];
    ByteWritten(bm1, bm2, lastByte, mask, 0, lastByteBit, true);
    forall q | firstByte < q < lastByte { bitmap[q] := 0xff; }
    BytesFilled(bm2, bitmap[..], firstByte, lastByte, true);
    RangesJoin(Bits(bm0), Bits(bm1), Bits(bm2), Bits(bitmap[..]), 8 * firstByte + firstByteBit,
               8 * firstByte + 8, 8 * lastByte, 8 * lastByte + lastByteBit + 1, true);
  }

  method UnmarkBlocks(bitmap: array<bv8>, index: nat, len: nat, blocksize: nat)
    requires blocksize > 0 && len > 0
    requires index + BlocksFor(len, blocksize) <= 8 * bitmap.Length
    modifies bitmap
    ensures RangeWritten(old(Bits(bitmap[..])), Bits(bitmap[..]), index, index + BlocksFor(len, blocksize), false)
  {
    var neededBlocks := NeededBlocks(len, blocksize);
    ClearRange(bitmap, index, neededBlocks);
  }

  method ClearRange(bitmap: array<bv8>, index: nat, neededBlocks: nat)
    requires neededBlocks > 0 && index + neededBlocks <= 8 * bitmap.Length
    modifies bitmap
    ensures RangeWritten(old(Bits(bitmap[..])), Bits(bitmap[..]), index, index + neededBlocks, false)
  {
    hide RangeWritten, Bits, Selects;
    var firstByte, firstByteBit := index / 8, index % 8;
    var lastByte, lastByteBit := (index + neededBlocks - 1) / 8, (index + neededBlocks - 1) % 8;
    var neededBytes := lastByte - firstByte + 1;
    if neededBytes == 1 {
      var mask := OneByteMask(firstByteBit, lastByteBit);
      bitmap[firstByte] := bitmap[firstByte] & !mask;
      ByteWritten(old(bitmap[..]), bitmap[..], firstByte, mask, firstByteBit, lastByteBit, false);
    } else {
      ClearRangeBytes(bitmap, firstByte, firstByteBit, lastByte, lastByteBit);
    }
  }

  method ClearRangeBytes(bitmap: array<bv8>, firstByte: nat, firstByteBit: nat, lastByte: nat, lastByteBit: nat)
    requires firstByte < lastByte < bitmap.Length && firstByteBit < 8 && lastByteBit < 8
    modifies bitmap
    ensures RangeWritten(old(Bits(bitmap[..])), Bits(bitmap[..]),
                         8 * firstByte + firstByteBit, 8 * lastByte + lastByteBit + 1, false)
  {
    hide RangeWritten, Bits, Selects;
    ghost var bm0 := bitmap[..];
    var mask := HeadMask(firstByteBit);
    bitmap[firstByte] := bitmap[firstByte] & !mask;
    ghost var bm1 := bitmap[..];
    ByteWritten(bm0, bm1, firstByte, mask, firstByteBit, 7, false);
    mask := TailMask(lastByteBit);
    bitmap[lastByte] := bitmap[lastByte] & !mask;
    ghost var bm2 := bitmap[..];
    ByteWritten(bm1, bm2, lastByte, mask, 0, lastByteBit, false);
    forall q | firstByte < q < lastByte { bitmap[q] := 0; }
    BytesFilled(bm2, bitmap[..], firstByte, lastByte, false);
    RangesJoin(Bits(bm0), Bits(bm1), Bits(bm2), Bits(bitmap[..]), 8 * firstByte + firstByteBit,
               8 * firstByte + 8, 8 * lastByte, 8 * lastByte + lastByteBit + 1, false);
  }

  /** A fresh bitmap for `blocks` blocks: every real block free, the padding bits of the last byte set. */
  method InitBitmap(blocks: nat) returns (bitmap: array<bv8>)
    requires blocks > 0
    ensures fresh(bitmap) && blocks <= 8 * bitmap.Length < blocks + 8
    ensures forall b :: 0 <= b < 8 * bitmap.Length ==> (Bits(bitmap[..])[b] <==> b >= blocks)
  {
    var size := blocks / 8;
    var m := blocks % 8;
    if m > 0 { size := size + 1; }
    bitmap := new bv8[size](_ => 0);
    if m > 0 {
      bitmap[size - 1] := 0xff >> m;
    }
    MaskSelects(m, 0);
    forall b | 0 <= b < 8 * bitmap.Length ensures Bits(bitmap[..])[b] <==> b >= blocks {
    }
  }
}
