/** The histogram of request residencies and the two quantiles sampled from it. */
module Residency {

  const MAX64: nat := 0xffff_ffff_ffff_ffff

  const LIMITS: seq<nat> := [
    1000, 2000, 4000, 8000, 16000, 32000, 64000, 128000, 256000, 512000,
    1000000, 2000000, 4000000, 8000000, 16000000, MAX64]

  lemma LimitsAscend(i: nat, j: nat)
    requires i < j < 16
    ensures 0 < LIMITS[i] < LIMITS[j]
  {
  }

  function Sum(hist: seq<nat>): nat {
    if hist == [] then 0 else Sum(hist[..|hist| - 1]) + hist[|hist| - 1]
  }

  /** How many residencies are at or below a limit. */
  ghost function CountLe(rs: seq<nat>, limit: nat): nat {
    if rs == [] then 0 else CountLe(rs[..|rs| - 1], limit) + if rs[|rs| - 1] <= limit then 1 else 0
  }

  /** Bucket i counts the residencies in (LIMITS[i-1], LIMITS[i]]. */
  ghost predicate Counts(hist: seq<nat>, rs: seq<nat>) {
    && |hist| == 16
    && (forall i :: 0 <= i < |rs| ==> rs[i] <= MAX64)
    && forall i :: 0 <= i < 16 ==> Sum(hist[..i + 1]) == CountLe(rs, LIMITS[i])
  }

  /** v is the least limit with at least num/den of the residencies at or below it. */
  ghost predicate IsQuantile(rs: seq<nat>, num: nat, den: nat, v: nat) {
    exists i :: 0 <= i < 16 && Reaches(rs, num, den, i) && v == LIMITS[i] && forall j :: 0 <= j < i ==> !Reaches(rs, num, den, j)
  }

  ghost predicate Reaches(rs: seq<nat>, num: nat, den: nat, i: int)
    requires 0 <= i < 16
  {
    den * CountLe(rs, LIMITS[i]) >= num * |rs|
  }

  lemma {:induction false} SumUpdate(hist: seq<nat>, b: nat, i: nat)
    requires b < |hist| && i <= |hist|
    ensures Sum(hist[b := hist[b] + 1][..i]) == Sum(hist[..i]) + if b < i then 1 else 0
  {
    if i > 0 {
      var h := hist[b := hist[b] + 1];
      assert h[..i][..i - 1] == h[..i - 1] && hist[..i][..i - 1] == hist[..i - 1];
      SumUpdate(hist, b, i - 1);
    }
  }

  lemma {:induction false} CountAll(rs: seq<nat>)
    requires forall i :: 0 <= i < |rs| ==> rs[i] <= MAX64
    ensures CountLe(rs, MAX64) == |rs|
  {
    if rs != [] { CountAll(rs[..|rs| - 1]); }
  }

  lemma {:induction false} CountMonotone(rs: seq<nat>, l: nat, l': nat)
    requires l <= l'
    ensures CountLe(rs, l) <= CountLe(rs, l') <= |rs|
  {
    if rs != [] { CountMonotone(rs[..|rs| - 1], l, l'); }
  }

  /** The histogram counts add up to the number of residencies. */
  lemma TotalCount(hist: seq<nat>, rs: seq<nat>)
    requires Counts(hist, rs)
    ensures Sum(hist) == |rs|
  {
    hide Sum, CountLe;
    BucketFacts(hist, rs, 15);
    assert hist[..16] == hist;
    CountAll(rs);
  }

  method AddTo(hist: seq<nat>, r: nat, ghost rs: seq<nat>) returns (hist': seq<nat>)
    requires Counts(hist, rs) && r <= MAX64
    ensures Counts(hist', rs + [r])
  {
    hide Counts;
    hist' := hist;
    CountsFacts(hist, rs);
    ghost var b := 16;
    for i := 0 to 16
      invariant b == 16 && hist' == hist && forall j :: 0 <= j < i ==> r > LIMITS[j]
    {
      if r <= LIMITS[i] {
        hist' := hist'[i := hist'[i] + 1];
        b := i;
        break;
      }
    }
    assert LIMITS[15] == MAX64;
    if b == 16 {
      assert false;  // the last limit holds everything
    }
    Added(hist, r, rs, b);
  }

  lemma Added(hist: seq<nat>, r: nat, rs: seq<nat>, b: nat)
    requires Counts(hist, rs) && r <= MAX64 && b < 16 && r <= LIMITS[b] && forall j :: 0 <= j < b ==> r > LIMITS[j]
    ensures Counts(hist[b := hist[b] + 1], rs + [r])
  {
    hide Sum;
    var h := hist[b := hist[b] + 1];
    assert (rs + [r])[..|rs|] == rs;
    forall i | 0 <= i < 16 ensures Sum(h[..i + 1]) == CountLe(rs + [r], LIMITS[i]) {
      SumUpdate(hist, b, i + 1);
      if b < i { LimitsAscend(b, i); }
    }
  }

  /** p50 and p95 of everything recorded so far; 0 when nothing is. */
  method Refresh(hist: seq<nat>, ghost rs: seq<nat>) returns (p50: nat, p95: nat)
    requires Counts(hist, rs)
    ensures rs == [] ==> p50 == p95 == 0
    ensures rs != [] ==> IsQuantile(rs, 1, 2, p50) && IsQuantile(rs, 95, 100, p95) && p50 <= p95
  {
    hide Sum, IsQuantile, Counts, Reaches;
    var total := 0;
    CountsFacts(hist, rs);
    SumNothing(hist);
    for i := 0 to 16
      invariant total == Sum(hist[..i])
    {
      SumNext(hist, i);
      total := total + hist[i];
    }
    assert hist[..16] == hist;
    TotalCount(hist, rs);
    p50, p95 := 0, 0;
    if total == 0 {
      return;
    }
    var target50 := (total + 1) / 2;
    var target95 := (total * 95 + 99) / 100;
    if target95 == 0 {
      assert false;
    }
    var seen := 0;
    ghost var found := false;
    SumNothing(hist);
    for i := 0 to 16
      invariant seen == Sum(hist[..i]) && !found && p95 == 0
      invariant p50 == 0 ==> forall j :: 0 <= j < i ==> !Reaches(rs, 1, 2, j)
      invariant p50 != 0 ==> IsQuantile(rs, 1, 2, p50) && exists j :: 0 <= j < i && p50 == LIMITS[j]
      invariant forall j :: 0 <= j < i ==> !Reaches(rs, 95, 100, j)
    {
      SumNext(hist, i);
      seen := seen + hist[i];
      BucketFacts(hist, rs, i);
      TargetReached(hist, rs, i);
      if p50 == 0 && seen >= target50 {
        p50 := LIMITS[i];
        QuantileAt(rs, 1, 2, i);
      }
      if p95 == 0 && seen >= target95 {
        p95 := LIMITS[i];
        QuantileAt(rs, 95, 100, i);
        found := true;
        Ordered(p50, i);
        break;
      }
    }
    if !found {
      LastReaches(hist, rs);
      assert false;
    }
  }

  lemma CountsFacts(hist: seq<nat>, rs: seq<nat>)
    requires Counts(hist, rs)
    ensures |hist| == 16
  {
  }

  lemma BucketFacts(hist: seq<nat>, rs: seq<nat>, i: nat)
    requires Counts(hist, rs) && i < 16
    ensures Sum(hist[..i + 1]) == CountLe(rs, LIMITS[i]) && LIMITS[i] > 0
  {
  }

  /** The integer targets are met exactly when the fractions are. */
  lemma TargetReached(hist: seq<nat>, rs: seq<nat>, i: nat)
    requires Counts(hist, rs) && i < 16
    ensures Sum(hist[..i + 1]) >= (|rs| + 1) / 2 <==> Reaches(rs, 1, 2, i)
    ensures Sum(hist[..i + 1]) >= (|rs| * 95 + 99) / 100 <==> Reaches(rs, 95, 100, i)
  {
    hide Sum, CountLe, Counts;
    BucketFacts(hist, rs, i);
  }

  lemma LastReaches(hist: seq<nat>, rs: seq<nat>)
    requires Counts(hist, rs)
    ensures Reaches(rs, 95, 100, 15)
  {
    CountAll(rs);
  }

  lemma Ordered(p50: nat, i: nat)
    requires i < 16 && exists j :: 0 <= j <= i && p50 == LIMITS[j]
    ensures p50 <= LIMITS[i]
  {
    var j :| 0 <= j <= i && p50 == LIMITS[j];
    if j < i { LimitsAscend(j, i); }
  }

  lemma QuantileAt(rs: seq<nat>, num: nat, den: nat, i: nat)
    requires i < 16 && Reaches(rs, num, den, i) && forall j :: 0 <= j < i ==> !Reaches(rs, num, den, j)
    ensures IsQuantile(rs, num, den, LIMITS[i])
  {
  }

  /** A sample below the open bucket is not far off: the fraction of the residencies is at or below it, but not at or below half
      of it, unless it is a millisecond. */
  lemma SampleIsTight(rs: seq<nat>, num: nat, den: nat, v: nat)
    requires IsQuantile(rs, num, den, v)
    ensures den * CountLe(rs, v) >= num * |rs|
    ensures v <= 16000000 ==> v == 1000 || den * CountLe(rs, v / 2) < num * |rs|
    ensures v > 16000000 ==> den * CountLe(rs, 16000000) < num * |rs|
  {
    hide CountLe;
    var i :| 0 <= i < 16 && Reaches(rs, num, den, i) && v == LIMITS[i] && forall j :: 0 <= j < i ==> !Reaches(rs, num, den, j);
    if i > 0 {
      var j := i - 1;
      assert !Reaches(rs, num, den, j);
      if i < 15 {
        HalfIsBelow(j);
        CountMonotone(rs, v / 2, LIMITS[j]);
        Scaled(den, CountLe(rs, v / 2), CountLe(rs, LIMITS[j]));
      } else {
        assert LIMITS[j] == 16000000;
      }
    }
  }

  lemma HalfIsBelow(j: nat)
    requires j < 14
    ensures LIMITS[j + 1] / 2 <= LIMITS[j] && LIMITS[j + 1] <= 16000000
  {
  }

  lemma Scaled(den: nat, a: nat, b: nat)
    requires a <= b
    ensures den * a <= den * b
  {
  }

  lemma SumNext(hist: seq<nat>, i: nat)
    requires i < |hist|
    ensures Sum(hist[..i + 1]) == Sum(hist[..i]) + hist[i]
  {
    assert hist[..i + 1][..i] == hist[..i];
  }

  lemma SumNothing(hist: seq<nat>)
    ensures Sum(hist[..0]) == 0
  {
  }
}
