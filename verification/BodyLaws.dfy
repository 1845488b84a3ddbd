/** What the scheduler of body reads does, in numbers: how much a read is granted, what it costs, and when a request moves to the
    bulk lane. */
module BodyLaws {
  import opened Collections
  import opened Residency
  import opened BodyScheduler

  /** What moves a request to the bulk lane: 256 KiB; or 64 KiB in at least four rounds, the last two of them with full budgets;
      or 64 KiB over a quarter of a second, the last round with a full budget. */
  predicate Heavy(p: Progress) {
    || p.bytesObserved >= 262144
    || (p.bytesObserved >= 65536 && p.rounds >= 4 && p.fullBudgetTurns >= 2)
    || (p.bytesObserved >= 65536 && (p.lastService - p.startedAt) % 0x1_0000_0000_0000_0000 >= 250000 && p.fullBudgetTurns >= 1)
  }

  /** A request in the interactive lane has been found heavy by nothing. */
  predicate Fair(r: Request) {
    r.lane.Interactive? ==> !Heavy(r.p) && r.marks == Marks(false, false, false)
  }

  lemma NewIsFair(postCl: nat, chunked: bool)
    ensures Fair(NewlyParsed(postCl, chunked)) && NewlyParsed(postCl, chunked).lane.Interactive?
    ensures NewlyParsed(postCl, chunked).p.bytesObserved == 0 && NewlyParsed(postCl, chunked).deficit == 0
  {
  }

  /** Registration starts the clock of a request with a body and changes nothing else of importance. */
  lemma AdmittedLaw(r: Request, now: nat)
    ensures var q := Admitted(r, now);
            if r.registered || (r.postCl == 0 && !r.chunked) then q == r
            else q == r.(registered := true, lane := Interactive, p := r.p.(startedAt := now, lastService := now))
  {
  }

  /** The rules are applied to what has been observed. */
  lemma PromotedLaw(r: Request)
    requires r.lane.Interactive? ==> r.marks == Marks(false, false, false)
    ensures var q := Promoted(r);
            && q == r.(lane := q.lane, marks := q.marks, deficit := q.deficit)
            && (q.lane.Bulk? <==> r.lane.Bulk? || Heavy(r.p))
            && q.deficit == (if r.lane.Interactive? && q.lane.Bulk? && r.deficit > 32768 then 32768 else r.deficit)
            && (q.lane.Interactive? ==> q == r)
  {
  }

  /** A read is granted what it wants, up to the deficit with one quantum more, which never exceeds four; after a wait, up to one
      quantum. A quantum is 64 KiB, and 32 KiB in the bulk lane. */
  lemma GrantLaw(r: Request, x: Read)
    requires r.registered && Fair(r)
    ensures GrantOf(r, x) ==
            if r.lane.Bulk? then Min(x.wanted, if r.recentWait then 32768 else Min(r.deficit + 32768, 131072))
            else Min(x.wanted, if r.recentWait then 65536 else Min(r.deficit + 65536, 262144))
  {
    hide Promoted, Heavy;
    PromotedLaw(r);
  }

  /** An observation, by a scheduler that is enabled or not: a disabled one takes no payment. */
  lemma ObservedLaw(enabled: bool, r: Request, n: nat, now: nat)
    requires r.lane.Interactive? ==> r.marks == Marks(false, false, false)
    ensures var q := Charged(enabled, r, n, now);
            var left := if !enabled then r.deficit else if n < r.deficit then r.deficit - n else 0;
            && q.p == Progress(r.p.startedAt, now, r.p.bytesObserved + n, (r.p.rounds + 1) % 0x1_0000_0000,
                               if r.lastBudget > 0 && 8 * n >= 7 * r.lastBudget then (r.p.fullBudgetTurns + 1) % 0x1_0000_0000 else 0)
            && (q.lane.Bulk? <==> r.lane.Bulk? || Heavy(q.p))
            && q.deficit == (if r.lane.Interactive? && q.lane.Bulk? && left > 32768 then 32768 else left)
            && !q.recentWait && q.registered == r.registered
            && (q.markedComplete <==> r.markedComplete || (!r.chunked && 0 < r.postCl <= q.p.bytesObserved))
            && (q.lane.Interactive? ==> !Heavy(q.p) && q.marks == Marks(false, false, false))
  {
    hide Promoted, Heavy;
    PromotedLaw(r.(p := ProgressAfter(r, n, now), deficit := Paid(enabled, r.deficit, n)));
  }

  /** What a read that got bytes leaves: they are observed and paid for, and a full budget is one of which seven eighths were
      used. Whatever makes the request heavy moves it to the bulk lane, with at most one quantum left to spend. */
  lemma ReadLaw(r: Request, x: Read)
    requires r.registered && Fair(r) && x.wanted > 0 && x.got > 0
    ensures var q, g, n := AfterRead(r, x), GrantOf(r, x), TakenBy(r, x);
            var quantum := if r.lane.Bulk? then 32768 else 65536;
            var funds := if r.recentWait then r.deficit else Min(r.deficit + quantum, 4 * quantum);
            var left := if n < funds then funds - n else 0;
            && n == Min(x.got, g) && q.registered && Fair(q) && !q.recentWait
            && q.p == Progress(r.p.startedAt, x.now, r.p.bytesObserved + n, (r.p.rounds + 1) % 0x1_0000_0000,
                               if 8 * n >= 7 * g then (r.p.fullBudgetTurns + 1) % 0x1_0000_0000 else 0)
            && (q.lane.Bulk? <==> r.lane.Bulk? || Heavy(q.p))
            && q.deficit == (if r.lane.Interactive? && q.lane.Bulk? && left > 32768 then 32768 else left)
            && (q.markedComplete <==> r.markedComplete || (!r.chunked && 0 < r.postCl <= q.p.bytesObserved))
  {
    hide Promoted, Heavy, Charged;
    PromotedLaw(r);
    GrantLaw(r, x);
    ObservedLaw(true, Funded(Promoted(r), x.wanted, GrantOf(r, x)), TakenBy(r, x), x.now);
  }

  /** A read that had to wait costs nothing and ends the series of full budgets; one that failed leaves everything as it was. */
  lemma WaitLaw(r: Request, x: Read)
    requires r.registered && Fair(r) && x.got <= 0
    ensures var q := AfterRead(r, x);
            var quantum := if r.lane.Bulk? then 32768 else 65536;
            && TakenBy(r, x) == 0 && q.registered && Fair(q) && q.lane == r.lane
            && q.p == (if x.wanted > 0 && x.got == 0 then r.p.(fullBudgetTurns := 0) else r.p)
            && q.recentWait == (r.recentWait || (x.wanted > 0 && x.got == 0))
            && q.deficit == (if x.wanted > 0 && !r.recentWait then Min(r.deficit + quantum, 4 * quantum) else r.deficit)
            && q.markedComplete == r.markedComplete
  {
    hide Promoted;
    PromotedLaw(r);
  }

  /** The request before its first wish: nothing happens to it. */
  lemma FirstRead(r: Request, x: Read)
    requires !r.registered && HasBody(r)
    ensures x.wanted == 0 ==> AfterRead(r, x) == r && TakenBy(r, x) == 0
    ensures x.wanted > 0 ==> AfterRead(r, x) == AfterRead(Admitted(r, x.now), x) && TakenBy(r, x) == TakenBy(Admitted(r, x.now), x)
  {
    hide Promoted;
  }

  /** A request with a body stays from its arrival to its end, by the 64-bit clock. */
  lemma ResidencyLaw(x: Visit)
    requires x.start <= x.now <= 0xffff_ffff_ffff_ffff
    ensures Residencies([x]) == if x.postCl > 0 || x.chunked then [x.now - x.start] else []
  {
    OneVisit(x);
  }

  // ----- whole runs of reads

  ghost predicate HeavyOnTheWay(r: Request, xs: seq<Read>) {
    exists i :: 0 <= i <= |xs| && Heavy(AfterReads(r, xs[..i]).p)
  }

  lemma ReadKeepsFair(r: Request, x: Read)
    requires Fair(r) && (r.registered || (HasBody(r) && r.lane.Interactive? && r.p.bytesObserved == 0))
    ensures var q := AfterRead(r, x);
            && Fair(q) && (q.lane.Bulk? <==> r.lane.Bulk? || Heavy(q.p))
            && q.p.bytesObserved == r.p.bytesObserved + TakenBy(r, x)
            && (q.registered || (HasBody(q) && q.lane.Interactive? && q.p.bytesObserved == 0))
  {
    hide AfterRead, TakenBy, Heavy, Promoted;
    FairMeans(r);
    if !r.registered {
      FirstRead(r, x);
    }
    if r.registered || x.wanted > 0 {
      var a := Admitted(r, x.now);
      AdmittedLaw(r, x.now);
      LightAtFirst(r, a);
      if x.wanted > 0 && x.got > 0 {
        ReadLaw(a, x);
      } else if x.got <= 0 {
        WaitLaw(a, x);
        FairMeans(AfterRead(a, x));
      } else {
        Unwanted(a, x);
      }
    }
  }

  lemma Unwanted(r: Request, x: Read)
    requires x.wanted == 0
    ensures AfterRead(r, x) == r && TakenBy(r, x) == 0
  {
    hide Promoted;
  }

  lemma FairMeans(r: Request)
    requires Fair(r)
    ensures r.lane.Interactive? ==> !Heavy(r.p) && r.marks == Marks(false, false, false)
  {
  }

  lemma LightAtFirst(r: Request, a: Request)
    requires Fair(r) && (a == r || (a.p.bytesObserved == 0 && a.marks == r.marks && r.lane.Interactive?))
    ensures Fair(a) && (a != r ==> !Heavy(a.p))
  {
  }

  /** Over any run of reads of a request, it is in the bulk lane at the end exactly if it was heavy at some point of it. So it is
      there once it has read 256 KiB, and is not before it has read 64 KiB. */
  lemma {:induction false} LaneOverRun(r: Request, xs: seq<Read>)
    requires Fair(r) && r.lane.Interactive? && r.p.bytesObserved == 0 && (r.registered || HasBody(r))
    ensures var q := AfterReads(r, xs);
            && (q.lane.Bulk? <==> HeavyOnTheWay(r, xs))
            && q.p.bytesObserved == Taken(r, xs)
            && (Taken(r, xs) >= 262144 ==> q.lane.Bulk?) && (Taken(r, xs) < 65536 ==> q.lane.Interactive?)
            && Fair(q) && (q.registered || (HasBody(q) && q.lane.Interactive? && q.p.bytesObserved == 0))
  {
    hide AfterRead, TakenBy, Fair, HeavyOnTheWay, Heavy;
    if xs == [] {
      FairMeans(r);
      NothingOnTheWay(r);
    } else {
      var n := |xs| - 1;
      LaneOverRun(r, xs[..n]);
      ReadKeepsFair(AfterReads(r, xs[..n]), xs[n]);
      OneMoreOnTheWay(r, xs);
      if AfterReads(r, xs).lane.Bulk? {
        EnoughBytes(AfterReads(r, xs).p);
      } else {
        FairMeans(AfterReads(r, xs));
        NotEnough(AfterReads(r, xs).p);
      }
    }
  }

  lemma EnoughBytes(p: Progress)
    ensures Heavy(p) ==> p.bytesObserved >= 65536
  {
  }

  lemma NotEnough(p: Progress)
    ensures !Heavy(p) ==> p.bytesObserved < 262144
  {
  }

  lemma NothingOnTheWay(r: Request)
    requires !Heavy(r.p)
    ensures !HeavyOnTheWay(r, [])
  {
    hide Heavy;
    var none: seq<Read> := [];
    assert none[..0] == none;
  }

  lemma OneMoreOnTheWay(r: Request, xs: seq<Read>)
    requires xs != []
    ensures HeavyOnTheWay(r, xs) <==> HeavyOnTheWay(r, xs[..|xs| - 1]) || Heavy(AfterReads(r, xs).p)
  {
    hide Heavy, AfterReads;
    var n := |xs| - 1;
    assert forall i :: 0 <= i <= n ==> xs[..n][..i] == xs[..i];
    assert xs[..|xs|] == xs;
    if HeavyOnTheWay(r, xs) {
      var i :| 0 <= i <= |xs| && Heavy(AfterReads(r, xs[..i]).p);
      if i <= n {
        assert Heavy(AfterReads(r, xs[..n][..i]).p);
      }
    }
    if HeavyOnTheWay(r, xs[..n]) {
      var i :| 0 <= i <= n && Heavy(AfterReads(r, xs[..n][..i]).p);
      assert Heavy(AfterReads(r, xs[..i]).p);
    }
  }
}
