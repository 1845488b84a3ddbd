/** The scheduler of request body reads: a byte budget per turn, paid from a deficit that grows by a lane quantum a turn,
    with a one-way promotion from the interactive to the bulk lane. One request at a time uses a core. Times are
    parameters, in microseconds; the counters kept only for statistics output are not part of the model. */
module BodyScheduler {
  import opened Collections
  import opened Residency

  const INTERACTIVE_BYTES_THRESHOLD: nat := 256 * 1024
  const INTERACTIVE_ROUNDS_THRESHOLD: nat := 4
  const INTERACTIVE_RESIDENCY_US_THRESHOLD: nat := 250 * 1000
  const PROMOTION_MIN_BYTES: nat := 64 * 1024
  const FULL_BUDGET_PROMOTION_THRESHOLD: nat := 2
  const INTERACTIVE_QUANTUM_BYTES: nat := 64 * 1024
  const BULK_QUANTUM_BYTES: nat := 32 * 1024
  const WRAP32: nat := 0x1_0000_0000

  datatype Lane = Interactive | Bulk

  function Quantum(lane: Lane): nat {
    if lane.Bulk? then BULK_QUANTUM_BYTES else INTERACTIVE_QUANTUM_BYTES
  }

  /** A deficit holds at most four quanta. */
  function Cap(lane: Lane): nat {
    4 * Quantum(lane)
  }

  /** Subtraction of unsigned 64-bit clock values. */
  function Sub64(a: nat, b: nat): (d: nat)
    ensures d <= MAX64
  {
    (a - b) % (MAX64 + 1)
  }

  /** How far a request has come: what the promotion rules look at. */
  datatype Progress = Progress(startedAt: nat, lastService: nat, bytesObserved: nat, rounds: nat, fullBudgetTurns: nat)

  /** The promotion rules already applied to a request. */
  datatype Marks = Marks(bytes: bool, rounds: bool, residency: bool)

  datatype Request = Request(
    postCl: nat, chunked: bool, registered: bool, lane: Lane, p: Progress, marks: Marks,
    deficit: nat, lastBudget: nat, lastCapped: bool, recentWait: bool, markedComplete: bool)

  datatype Core = Core(
    active: nat, interactiveDepth: nat, bulkDepth: nat, bytesInteractive: nat, bytesBulk: nat, bytesTotal: nat,
    completed: nat)

  datatype Samples = Samples(residencyMax: nat, hist: seq<nat>, p50: nat, p95: nat)

  function One(b: bool): nat {
    if b then 1 else 0
  }

  predicate HasBody(r: Request) {
    r.postCl > 0 || r.chunked
  }

  /** At least seven eighths of the last budget were used. */
  predicate FullBudgetTurn(r: Request, observed: nat) {
    && r.lastBudget > 0
    && (observed >= r.lastBudget || observed * 8 >= r.lastBudget * 7)
  }

  predicate HeavyByBytes(p: Progress) {
    p.bytesObserved >= INTERACTIVE_BYTES_THRESHOLD
  }

  predicate HeavyByRounds(p: Progress) {
    && p.rounds >= INTERACTIVE_ROUNDS_THRESHOLD
    && p.bytesObserved >= PROMOTION_MIN_BYTES
    && p.fullBudgetTurns >= FULL_BUDGET_PROMOTION_THRESHOLD
  }

  predicate HeavyByResidency(p: Progress) {
    && Sub64(p.lastService, p.startedAt) >= INTERACTIVE_RESIDENCY_US_THRESHOLD
    && p.bytesObserved >= PROMOTION_MIN_BYTES
    && p.fullBudgetTurns > 0
  }

  ghost function MarksAfter(p: Progress, marks: Marks): Marks {
    Marks(marks.bytes || HeavyByBytes(p), marks.rounds || HeavyByRounds(p), marks.residency || HeavyByResidency(p))
  }

  function NewlyParsed(postCl: nat, chunked: bool): Request {
    Request(postCl, chunked, false, Interactive, Progress(0, 0, 0, 0, 0), Marks(false, false, false), 0, 0, false, false, false)
  }

  /** The request as registration leaves it. */
  ghost function Admitted(r: Request, now: nat): Request {
    if r.registered || !HasBody(r) then r
    else r.(registered := true, lane := Interactive, p := r.p.(startedAt := now, lastService := now))
  }

  function ProgressAfter(r: Request, observed: nat, now: nat): Progress {
    Progress(r.p.startedAt, now, r.p.bytesObserved + observed, (r.p.rounds + 1) % WRAP32,
             if FullBudgetTurn(r, observed) then (r.p.fullBudgetTurns + 1) % WRAP32 else 0)
  }

  /** What the next read may take at most: after a wait one quantum, otherwise the deficit. */
  ghost function Credit(r: Request): nat {
    if r.recentWait then Quantum(r.lane) else r.deficit
  }

  ghost function ToppedUp(deficit: nat, lane: Lane): nat {
    Min(deficit + Quantum(lane), Cap(lane))
  }

  /** The deficit a request keeps when it moves to the bulk lane. */
  ghost function DeficitInBulk(r: Request): nat {
    if r.lane.Bulk? then r.deficit else Min(r.deficit, BULK_QUANTUM_BYTES)
  }

  /** The request with more promotion rules applied: any new mark puts it into the bulk lane. */
  ghost function Marked(r: Request, marks: Marks): Request {
    if marks == r.marks then r else r.(marks := marks, lane := Bulk, deficit := DeficitInBulk(r))
  }

  lemma MarkedTwice(r: Request, m: Marks, m': Marks)
    requires m == r.marks || m' != r.marks
    ensures Marked(Marked(r, m), m') == Marked(r, m') && Marked(r, m).marks == m && Marked(r, m).p == r.p
  {
  }

  lemma MarkedKeeps(r: Request, m: Marks)
    ensures Marked(r, m).registered == r.registered
  {
  }

  /** The request once its promotion rules have been applied. */
  ghost function Promoted(r: Request): Request {
    Marked(r, MarksAfter(r.p, r.marks))
  }

  /** One body read: how many bytes are wanted, and what came: some bytes, a wait (0) or a failure. */
  datatype Read = Read(wanted: nat, got: int, now: nat)

  /** The lane a read runs in: the one its budget call finds the request in. */
  ghost function LaneOf(r: Request, x: Read): Lane {
    if x.wanted > 0 then Promoted(Admitted(r, x.now)).lane
    else if r.registered then r.lane else Interactive
  }

  ghost function GrantOf(r: Request, x: Read): nat {
    var p := Promoted(Admitted(r, x.now));
    Min(x.wanted, if p.recentWait then Quantum(p.lane) else ToppedUp(p.deficit, p.lane))
  }

  ghost function TakenBy(r: Request, x: Read): nat {
    if x.got > 0 then Min(x.got, GrantOf(r, x)) else 0
  }

  /** The request after a read, its budget call and its note. */
  ghost function AfterRead(r: Request, x: Read): Request {
    if x.wanted == 0 then r
    else
      var f := Funded(Promoted(Admitted(r, x.now)), x.wanted, GrantOf(r, x));
      if x.got > 0 then Charged(true, f, TakenBy(r, x), x.now)
      else if x.got == 0 then f.(recentWait := true, p := f.p.(fullBudgetTurns := 0))
      else f
  }

  ghost function AfterReads(r: Request, xs: seq<Read>): Request {
    if xs == [] then r else AfterRead(AfterReads(r, xs[..|xs| - 1]), xs[|xs| - 1])
  }

  /** The lanes the reads of a run are in, and the bytes they take. */
  ghost function Lanes(r: Request, xs: seq<Read>): seq<Lane> {
    if xs == [] then []
    else Lanes(r, xs[..|xs| - 1]) + [LaneOf(AfterReads(r, xs[..|xs| - 1]), xs[|xs| - 1])]
  }

  ghost function Taken(r: Request, xs: seq<Read>): nat {
    if xs == [] then 0
    else Taken(r, xs[..|xs| - 1]) + TakenBy(AfterReads(r, xs[..|xs| - 1]), xs[|xs| - 1])
  }

  ghost function Quanta(lanes: seq<Lane>): nat {
    if lanes == [] then 0 else Quanta(lanes[..|lanes| - 1]) + Quantum(lanes[|lanes| - 1])
  }

  ghost function BulkCalls(lanes: seq<Lane>): nat {
    if lanes == [] then 0 else BulkCalls(lanes[..|lanes| - 1]) + One(lanes[|lanes| - 1].Bulk?)
  }

  /** The deficit stays within its cap, and the core's counters agree with its request. */
  ghost predicate Sound(r: Request, c: Core) {
    && r.deficit <= Cap(r.lane)
    && (!r.registered ==> r.deficit == 0)
    && c.active == One(r.registered)
    && c.interactiveDepth == One(r.registered && r.lane.Interactive?)
    && c.bulkDepth == One(r.registered && r.lane.Bulk?)
    && c.bytesTotal == c.bytesInteractive + c.bytesBulk
  }

  /** Only the depths moved. */
  ghost predicate SameCounts(c: Core, c': Core) {
    c'.bytesTotal == c.bytesTotal && c'.bytesBulk == c.bytesBulk && c'.completed == c.completed
  }

  /** The samples are the maximum and the quantiles of everything finished so far. */
  ghost predicate Sampled(s: Samples, residencies: seq<nat>) {
    && Counts(s.hist, residencies)
    && (residencies == [] ==> s.p50 == s.p95 == s.residencyMax == 0)
    && (residencies != [] ==>
          && IsQuantile(residencies, 1, 2, s.p50) && IsQuantile(residencies, 95, 100, s.p95) && s.p50 <= s.p95
          && s.residencyMax in residencies)
    && (forall i :: 0 <= i < |residencies| ==> residencies[i] <= s.residencyMax)
  }

  method PromoteToBulk(r: Request, c: Core) returns (r': Request, c': Core)
    requires Sound(r, c) && r.registered
    ensures Sound(r', c') && r' == r.(lane := Bulk, deficit := DeficitInBulk(r))
    ensures SameCounts(c, c')
  {
    r', c' := r, c;
    if r.lane.Bulk? {
      return;
    }
    if c.interactiveDepth > 0 {
      c' := c'.(interactiveDepth := c.interactiveDepth - 1);
    } else {
      assert false;
    }
    c' := c'.(bulkDepth := c.bulkDepth + 1);
    r' := r'.(lane := Bulk);
    if r'.deficit > BULK_QUANTUM_BYTES {
      r' := r'.(deficit := BULK_QUANTUM_BYTES);
    }
  }

  /** A rule is applied: the request is marked and moved. */
  method Apply(r: Request, c: Core, marks: Marks) returns (r': Request, c': Core)
    requires Sound(r, c) && r.registered && marks != r.marks
    ensures Sound(r', c') && r' == Marked(r, marks)
    ensures SameCounts(c, c')
  {
    r', c' := PromoteToBulk(r.(marks := marks), c);
  }

  /** A request moves to the bulk lane exactly when a rule not applied before holds; it never moves back. */
  method UpdatePromotions(r: Request, c: Core) returns (r': Request, c': Core)
    requires Sound(r, c)
    ensures Sound(r', c') && SameCounts(c, c')
    ensures r'.registered == r.registered
    ensures r' == if r.registered then Promoted(r) else r
  {
    hide HeavyByBytes, HeavyByRounds, HeavyByResidency, Marked, Sound;
    r', c' := r, c;
    if !r.registered {
      return;
    }
    ghost var m1 := r.marks.(bytes := r.marks.bytes || HeavyByBytes(r.p));
    ghost var m2 := m1.(rounds := m1.rounds || HeavyByRounds(r.p));
    MarkedTwice(r, m1, m2);
    MarkedTwice(r, m2, MarksAfter(r.p, r.marks));
    MarkedKeeps(r, m1);
    MarkedKeeps(r, m2);
    MarkedKeeps(r, MarksAfter(r.p, r.marks));
    if !r'.marks.bytes && HeavyByBytes(r'.p) {
      r', c' := Apply(r', c', r'.marks.(bytes := true));
    }
    assert r' == Marked(r, m1) by { NothingMarked(r); }
    if !r'.marks.rounds && HeavyByRounds(r'.p) {
      r', c' := Apply(r', c', r'.marks.(rounds := true));
    }
    assert r' == Marked(r, m2) by { NothingMarked(Marked(r, m1)); }
    if !r'.marks.residency && HeavyByResidency(r'.p) {
      r', c' := Apply(r', c', r'.marks.(residency := true));
    }
    NothingMarked(Marked(r, m2));
  }

  lemma NothingMarked(r: Request)
    ensures Marked(r, r.marks) == r
  {
  }

  /** The last budget is recorded; nothing else changes. */
  method Budgeted(r: Request, ghost c: Core, budget: nat, capped: bool) returns (r': Request)
    requires Sound(r, c)
    ensures Sound(r', c) && r' == r.(lastBudget := budget, lastCapped := capped)
  {
    r' := r.(lastBudget := budget, lastCapped := capped);
  }

  /** One quantum more, up to the cap: always something to spend. */
  method TopUp(deficit: nat, lane: Lane) returns (d: nat)
    requires deficit <= Cap(lane)
    ensures d == ToppedUp(deficit, lane) && Quantum(lane) <= d <= Cap(lane) && d > 0
  {
    var quantum := Quantum(lane);
    var cap := Cap(lane);
    d := deficit;
    if d < cap {
      d := d + quantum;
      if d > cap {
        d := cap;
      }
    }
  }

  /** A grant of at least one byte: from one quantum after a wait, otherwise from the topped-up deficit. */
  method Grant(r: Request, ghost c: Core, requested: nat) returns (r': Request, grant: nat)
    requires Sound(r, c) && requested > 0 && r.registered
    ensures Sound(r', c) && 1 <= grant <= requested
    ensures r' == Funded(r, requested, grant)
    ensures grant == Min(requested, Credit(r'))
  {
    hide ToppedUp;
    if r.recentWait {
      grant := Min(requested, Quantum(r.lane));
      r' := Budgeted(r, c, grant, false);
      return;
    }
    var deficit := TopUp(r.deficit, r.lane);
    grant := Min(requested, deficit);
    if grant == 0 {
      assert false;
    }
    r' := r.(deficit := deficit, lastBudget := grant, lastCapped := grant < requested);
  }

  /** The request after an observation: progress is made and paid for before the promotion rules are applied. */
  ghost function Charged(enabled: bool, was: Request, observed: nat, now: nat): Request {
    var q := Promoted(was.(p := ProgressAfter(was, observed, now), deficit := Paid(enabled, was.deficit, observed)));
    q.(recentWait := false, markedComplete := was.markedComplete || (!was.chunked && 0 < was.postCl <= q.p.bytesObserved))
  }

  ghost function Paid(enabled: bool, deficit: nat, observed: nat): nat {
    if !enabled then deficit else if observed < deficit then deficit - observed else 0
  }

  method Pay(enabled: bool, r: Request, c: Core, observed: nat, now: nat) returns (r': Request, c': Core)
    requires Sound(r, c) && r.registered
    ensures Sound(r', c') && r' == r.(p := ProgressAfter(r, observed, now), deficit := Paid(enabled, r.deficit, observed))
    ensures c'.bytesTotal == c.bytesTotal + observed
    ensures c'.bytesBulk == (c.bytesBulk + if r.lane.Bulk? then observed else 0) && c'.completed == c.completed
  {
    if r.lane.Bulk? {
      c' := c.(bytesBulk := c.bytesBulk + observed);
    } else {
      c' := c.(bytesInteractive := c.bytesInteractive + observed);
    }
    c' := c'.(bytesTotal := c'.bytesTotal + observed);
    var deficit := r.deficit;
    if enabled {
      if deficit >= observed {
        deficit := deficit - observed;
      } else {
        deficit := 0;
      }
    }
    r' := r.(p := ProgressAfter(r, observed, now), deficit := deficit);
  }

  /** A body of known length is complete once all its bytes were seen; the wait is over. */
  method Settle(r: Request, ghost c: Core) returns (r': Request)
    requires Sound(r, c)
    ensures Sound(r', c)
    ensures r' == r.(recentWait := false, markedComplete := r.markedComplete || (!r.chunked && 0 < r.postCl <= r.p.bytesObserved))
  {
    r' := r;
    if !r.chunked && r.postCl > 0 && r.p.bytesObserved >= r.postCl {
      r' := r'.(markedComplete := true);
    }
    r' := r'.(recentWait := false);
  }

  /** The request after a grant: the deficit is topped up unless the request has just waited. */
  ghost function Funded(was: Request, requested: nat, grant: nat): Request {
    was.(deficit := if was.recentWait then was.deficit else ToppedUp(was.deficit, was.lane),
         lastBudget := grant, lastCapped := !was.recentWait && grant < requested)
  }

  predicate InBulk(r: Request) {
    r.registered && r.lane.Bulk?
  }

  /** What one turn in a lane can take: the deficit it leaves and the bytes it took never exceed the deficit it found
      and one quantum; a turn that finds the request promoted takes no more than two bulk quanta. */
  ghost predicate WithinCredit(was: Request, lane: Lane, q: Request, n: nat) {
    && q.deficit + n <= was.deficit + Quantum(lane)
    && (InBulk(was) ==> lane.Bulk?)
    && (lane.Bulk? ==> q.lane.Bulk?)
    && (lane.Bulk? && !InBulk(was) ==> q.deficit + n <= 2 * BULK_QUANTUM_BYTES)
    && (lane.Interactive? && q.lane.Bulk? ==> q.deficit <= BULK_QUANTUM_BYTES)
  }

  lemma TurnBound(was: Request, q: Request, x: Read, grant: nat, n: nat)
    requires was.registered || (HasBody(was) && was.deficit == 0)
    requires var funded := Funded(Promoted(Admitted(was, x.now)), x.wanted, grant);
             && n <= Credit(funded)
             && (n > 0 ==> q == Charged(true, funded, n, x.now))
             && (n == 0 ==> q.deficit == funded.deficit && q.lane == funded.lane)
    ensures WithinCredit(was, Promoted(Admitted(was, x.now)).lane, q, n)
  {
    hide HeavyByBytes, HeavyByRounds, HeavyByResidency, MarksAfter, ProgressAfter;
  }

  lemma IdleTurn(r: Request, c: Core)
    requires Sound(r, c)
    ensures WithinCredit(r, if r.registered then r.lane else Interactive, r, 0)
  {
  }

  class Scheduler {
    const enabled: bool
    var r: Request
    var c: Core
    var samples: Samples
    ghost var residencies: seq<nat>

    ghost predicate Valid()
      reads this
    {
      Sound(r, c) && Sampled(samples, residencies)
    }

    constructor (enabled: bool, postCl: nat, chunked: bool)
      ensures Valid() && !r.registered && r.deficit == 0 && residencies == [] && this.enabled == enabled
      ensures r.postCl == postCl && r.chunked == chunked
    {
      this.enabled := enabled;
      r := NewlyParsed(postCl, chunked);
      c := Core(0, 0, 0, 0, 0, 0, 0);
      samples := Samples(0, seq(16, _ => 0), 0, 0);
      residencies := [];
      new;
      EmptyCounts(samples.hist);
    }

    /** The request record is cleared and filled anew between two requests of the core. */
    method NewRequest(postCl: nat, chunked: bool)
      requires Valid() && !r.registered
      modifies this`r
      ensures Valid() && r == NewlyParsed(postCl, chunked)
    {
      hide Sampled;
      r := NewlyParsed(postCl, chunked);
    }

    /** Registration puts a request with a body into the interactive lane, once. */
    method NoteRequest(now: nat)
      requires Valid()
      modifies this`r, this`c
      ensures Valid()
      ensures r == Admitted(old(r), now)
      ensures old(r.registered) || !r.registered ==> c == old(c)
      ensures SameCounts(old(c), c)
    {
      hide Sampled;
      if r.registered {
        return;
      }
      if r.postCl == 0 && !r.chunked {
        return;
      }
      r := r.(registered := true, lane := Interactive, p := r.p.(startedAt := now, lastService := now));
      c := c.(active := c.active + 1, interactiveDepth := c.interactiveDepth + 1);
    }

    /** The bytes the next read may take. A registered request that wants bytes is never refused. */
    method ReadBudget(requested: nat, now: nat) returns (grant: nat)
      requires Valid()
      modifies this`r, this`c
      ensures Valid()
      ensures requested > 0 ==> 1 <= grant <= requested
      ensures requested == 0 ==> grant == 0 && r == old(r) && c == old(c)
      ensures !enabled || !r.registered ==> grant == requested
      ensures enabled && r.registered ==> grant == GrantOf(old(r), Read(requested, 0, now))
      ensures requested > 0 ==> r.registered == Admitted(old(r), now).registered
      ensures requested > 0 ==>
                var was := Admitted(old(r), now);
                if !was.registered then r == old(r) && c == old(c)
                else if !enabled then r == was.(lastBudget := requested, lastCapped := false)
                else grant == Min(requested, Credit(r)) && r == Funded(Promoted(was), requested, grant)
      ensures SameCounts(old(c), c)
    {
      hide Sampled, Sound, Promoted, ToppedUp, Credit;
      GrantIsGrant(r, Read(requested, 0, now));
      if requested == 0 {
        return requested;
      }
      NoteRequest(now);
      if !r.registered {
        return requested;
      }
      if !enabled {
        r := Budgeted(r, c, requested, false);
        return requested;
      }
      r, c := UpdatePromotions(r, c);
      r, grant := Grant(r, c, requested);
    }

    /** Bytes were read: they are counted in the lane the request was in, and paid from the deficit. */
    method NoteBytes(observed: nat, now: nat)
      requires Valid()
      modifies this`r, this`c
      ensures Valid()
      ensures observed == 0 ==> r == old(r) && c == old(c)
      ensures observed > 0 ==> r.registered == Admitted(old(r), now).registered && (!r.registered ==> r == old(r) && c == old(c))
      ensures observed > 0 && r.registered ==>
                && r == Charged(enabled, Admitted(old(r), now), observed, now) && c.completed == old(c.completed)
                && c.bytesTotal == old(c.bytesTotal) + observed
                && c.bytesBulk == old(c.bytesBulk) + (if Admitted(old(r), now).lane.Bulk? then observed else 0)
    {
      hide Sampled, Sound, HeavyByBytes, HeavyByRounds, HeavyByResidency, ProgressAfter, Paid;
      if observed == 0 {
        return;
      }
      NoteRequest(now);
      if !r.registered {
        return;
      }
      r, c := Pay(enabled, r, c, observed, now);
      r, c := UpdatePromotions(r, c);
      r := Settle(r, c);
    }

    /** A read that had to wait, whether it came back empty or would have blocked. */
    method NoteWait(now: nat)
      requires Valid()
      modifies this`r, this`c
      ensures Valid()
      ensures var was := Admitted(old(r), now);
              r == if was.registered then was.(recentWait := true, p := was.p.(fullBudgetTurns := 0)) else was
      ensures SameCounts(old(c), c)
    {
      hide Sampled;
      NoteRequest(now);
      if !r.registered {
        return;
      }
      r := r.(recentWait := true, p := r.p.(fullBudgetTurns := 0));
    }

    method NoteChunkedComplete(now: nat)
      requires Valid()
      modifies this`r, this`c
      ensures Valid() && r == Admitted(old(r), now).(markedComplete := true) && SameCounts(old(c), c)
    {
      hide Sampled;
      NoteRequest(now);
      r := r.(markedComplete := true);
    }

    /** The end of a request: its residency joins the histogram, and the core is idle again. */
    method Finish(now: nat)
      requires Valid()
      modifies this
      ensures Valid()
      ensures !r.registered
      ensures !old(r.registered) ==> r == old(r) && c == old(c) && samples == old(samples) && residencies == old(residencies)
      ensures old(r.registered) ==>
                && residencies == old(residencies) + [Sub64(now, old(r.p.startedAt))]
                && r == old(r).(registered := false, deficit := 0, lastBudget := 0, lastCapped := false, recentWait := false,
                                p := old(r.p).(fullBudgetTurns := 0))
                && c.completed == old(c.completed) + One(old(r.markedComplete))
                && c.bytesTotal == old(c.bytesTotal) && c.bytesBulk == old(c.bytesBulk)
    {
      hide Sampled;
      if !r.registered {
        return;
      }
      if c.active > 0 {
        c := c.(active := c.active - 1);
      } else {
        assert false;
      }
      if r.lane.Bulk? {
        if c.bulkDepth > 0 {
          c := c.(bulkDepth := c.bulkDepth - 1);
        } else {
          assert false;
        }
      } else {
        if c.interactiveDepth > 0 {
          c := c.(interactiveDepth := c.interactiveDepth - 1);
        } else {
          assert false;
        }
      }
      var residency := Sub64(now, r.p.startedAt);
      samples := Record(samples, residency, residencies);
      residencies := residencies + [residency];
      if r.markedComplete {
        c := c.(completed := c.completed + 1);
      }
      r := r.(registered := false, deficit := 0, lastBudget := 0, lastCapped := false, recentWait := false,
              p := r.p.(fullBudgetTurns := 0));
    }

    /** A budget call, the read it allows, and the note on how the read went. */
    method Turn(x: Read) returns (n: nat)
      requires Valid() && enabled && (r.registered || HasBody(r))
      modifies this`r, this`c
      ensures Valid() && (r.registered || HasBody(r)) && r == AfterRead(old(r), x) && n == TakenBy(old(r), x)
      ensures c.bytesTotal == old(c.bytesTotal) + n && c.completed == old(c.completed)
      ensures c.bytesBulk == old(c.bytesBulk) + (if LaneOf(old(r), x).Bulk? then n else 0)
      ensures WithinCredit(old(r), LaneOf(old(r), x), r, n)
      ensures (LaneOf(old(r), x).Bulk? ==> r.registered) && (old(r.registered) ==> r.registered)
    {
      hide Sampled, Promoted, Charged, Credit, WithinCredit, Quantum, ToppedUp;
      n := 0;
      if x.wanted == 0 {
        IdleTurn(r, c);
        GrantIsGrant(r, x);
        return;
      }
      GrantIsGrant(r, x);
      var grant := ReadBudget(x.wanted, x.now);
      if x.got > 0 {
        n := Min(x.got, grant);
        NoteBytes(n, x.now);
      } else if x.got == 0 {
        NoteWait(x.now);
      }
      TurnBound(old(r), r, x, grant, n);
    }

    /** Any run of reads of one request takes at most the deficit it started with and one quantum of its lane a call; from
        its promotion on, however late that is, at most one bulk quantum more than the calls it makes in the bulk lane. */
    method Serve(turns: seq<Read>) returns (total: nat)
      requires Valid() && enabled && (r.registered || HasBody(r))
      modifies this`r, this`c
      ensures Valid() && r == AfterReads(old(r), turns) && total == Taken(old(r), turns)
      ensures c.bytesTotal == old(c.bytesTotal) + total && c.completed == old(c.completed)
      ensures total + r.deficit <= old(r.deficit) + Quanta(Lanes(old(r), turns))
      ensures !InBulk(old(r)) ==> c.bytesBulk <= old(c.bytesBulk) + 32 * 1024 * (BulkCalls(Lanes(old(r), turns)) + 1)
      ensures InBulk(old(r)) ==> BulkCalls(Lanes(old(r), turns)) == |turns|
                                 && c.bytesBulk <= old(c.bytesBulk) + old(r.deficit) + 32 * 1024 * |turns|
    {
      hide Sampled, Sound, AfterRead, TakenBy, LaneOf, AfterReads, Taken, Lanes;
      total := 0;
      ghost var base := if InBulk(r) then r.deficit else BULK_QUANTUM_BYTES;
      ghost var was, r0, lanes := c, r, [];
      NoReads(r0);
      for i := 0 to |turns|
        invariant Valid() && (r.registered || HasBody(r)) && lanes == Lanes(r0, turns[..i])
        invariant r == AfterReads(r0, turns[..i]) && total == Taken(r0, turns[..i])
        invariant c.bytesTotal == was.bytesTotal + total && c.completed == was.completed
        invariant total + r.deficit <= r0.deficit + Quanta(lanes)
        invariant InBulk(r0) ==> InBulk(r) && BulkCalls(lanes) == i
        invariant InBulk(r) ==> c.bytesBulk + r.deficit <= was.bytesBulk + base + 32 * 1024 * BulkCalls(lanes)
        invariant !InBulk(r) ==> c.bytesBulk == was.bytesBulk && BulkCalls(lanes) == 0
      {
        ghost var before := lanes;
        OneMoreRead(r0, turns, i);
        lanes := lanes + [LaneOf(r, turns[i])];
        assert lanes[..|lanes| - 1] == before;
        var n := Turn(turns[i]);
        total := total + n;
      }
      assert turns[..|turns|] == turns;
    }

    /** A disabled scheduler grants every wish in full and pays nothing, but it counts the bytes and watches the request. */
    method ServeFreely(turns: seq<Read>) returns (total: nat)
      requires Valid() && !enabled && r.registered
      modifies this`r, this`c
      ensures Valid() && r.registered && r.p.startedAt == old(r.p.startedAt) && total == Wished(turns)
      ensures r.p.bytesObserved == old(r.p.bytesObserved) + total
      ensures c.bytesTotal == old(c.bytesTotal) + total && c.completed == old(c.completed)
    {
      hide Sampled, Sound, MarksAfter, ProgressAfter;
      total := 0;
      for i := 0 to |turns|
        invariant Valid() && r.registered && r.p.startedAt == old(r.p.startedAt) && total == Wished(turns[..i])
        invariant r.p.bytesObserved == old(r.p.bytesObserved) + total
        invariant c.bytesTotal == old(c.bytesTotal) + total && c.completed == old(c.completed)
      {
        var x := turns[i];
        assert turns[..i + 1][..i] == turns[..i];
        var grant := ReadBudget(x.wanted, x.now);
        if x.got > 0 {
          ProgressMade(r, Min(x.got, grant), x.now);
          NoteBytes(Min(x.got, grant), x.now);
          total := total + Min(x.got, grant);
        } else if x.got == 0 && x.wanted > 0 {
          NoteWait(x.now);
        }
      }
      assert turns[..|turns|] == turns;
    }

    /** A request from its arrival to its end. */
    method ServeRequest(x: Visit)
      requires Valid() && !r.registered
      modifies this
      ensures Valid() && !r.registered && residencies == old(residencies) + Residencies([x])
    {
      hide Sampled, AfterReads, Taken, Lanes;
      OneVisit(x);
      NewRequest(x.postCl, x.chunked);
      NoteRequest(x.start);
      if r.registered {
        if enabled {
          ghost var before := r;
          var total := Serve(x.turns);
          StartKept(before, x.turns);
        } else {
          var total := ServeFreely(x.turns);
        }
        if x.ended {
          NoteChunkedComplete(x.now);
        }
      }
      Finish(x.now);
    }

    /** Any sequence of requests on a core: the samples are those of the residencies of all that had a body. */
    method ServeRequests(xs: seq<Visit>)
      requires Valid() && !r.registered
      modifies this
      ensures Valid() && !r.registered && residencies == old(residencies) + Residencies(xs)
    {
      hide Sampled, Sound;
      for i := 0 to |xs|
        invariant Valid() && !r.registered && residencies == old(residencies) + Residencies(xs[..i])
      {
        assert xs[..i + 1][..i] == xs[..i];
        OneVisit(xs[i]);
        ServeRequest(xs[i]);
      }
      assert xs[..|xs|] == xs;
    }
  }

  /** One request on a core: its body, when it arrives, the reads of it, whether the decoder saw its end, when it ends. */
  datatype Visit = Visit(postCl: nat, chunked: bool, start: nat, turns: seq<Read>, ended: bool, now: nat)

  /** How long the requests with a body stayed. */
  ghost function Residencies(xs: seq<Visit>): seq<nat> {
    if xs == [] then []
    else
      var n := |xs| - 1;
      Residencies(xs[..n]) + if xs[n].postCl > 0 || xs[n].chunked then [Sub64(xs[n].now, xs[n].start)] else []
  }

  lemma OneVisit(x: Visit)
    ensures Residencies([x]) == if x.postCl > 0 || x.chunked then [Sub64(x.now, x.start)] else []
  {
    assert [x][..0] == [];
  }

  /** All the bytes reads get that take as much as they want. */
  ghost function Wished(xs: seq<Read>): nat {
    if xs == [] then 0
    else
      var x := xs[|xs| - 1];
      Wished(xs[..|xs| - 1]) + if x.got > 0 then Min(x.got, x.wanted) else 0
  }

  lemma ProgressMade(r: Request, observed: nat, now: nat)
    ensures ProgressAfter(r, observed, now).startedAt == r.p.startedAt
    ensures ProgressAfter(r, observed, now).bytesObserved == r.p.bytesObserved + observed
  {
  }

  lemma NoReads(r: Request)
    ensures AfterReads(r, []) == r && Taken(r, []) == 0 && Lanes(r, []) == []
  {
  }

  lemma OneMoreRead(r: Request, xs: seq<Read>, i: nat)
    requires i < |xs|
    ensures AfterReads(r, xs[..i + 1]) == AfterRead(AfterReads(r, xs[..i]), xs[i])
    ensures Taken(r, xs[..i + 1]) == Taken(r, xs[..i]) + TakenBy(AfterReads(r, xs[..i]), xs[i])
    ensures Lanes(r, xs[..i + 1]) == Lanes(r, xs[..i]) + [LaneOf(AfterReads(r, xs[..i]), xs[i])]
  {
    hide AfterRead, TakenBy, LaneOf;
    assert xs[..i + 1][..i] == xs[..i];
  }

  lemma {:induction false} StartKept(r: Request, xs: seq<Read>)
    requires r.registered
    ensures AfterReads(r, xs).registered && AfterReads(r, xs).p.startedAt == r.p.startedAt
  {
    hide MarksAfter, ToppedUp, Quantum, Paid;
    if xs != [] {
      StartKept(r, xs[..|xs| - 1]);
    }
  }

  lemma GrantIsGrant(r: Request, x: Read)
    ensures forall grant :: Min(x.wanted, Credit(Funded(Promoted(Admitted(r, x.now)), x.wanted, grant))) == GrantOf(r, x)
    ensures x.wanted == 0 ==> TakenBy(r, x) == 0 && GrantOf(r, x) == 0
  {
    hide Promoted, ToppedUp, Quantum;
  }

  method Record(s: Samples, residency: nat, ghost residencies: seq<nat>) returns (s': Samples)
    requires Sampled(s, residencies) && residency <= MAX64
    ensures Sampled(s', residencies + [residency])
  {
    hide Counts, IsQuantile;
    var max := s.residencyMax;
    if residency > max {
      max := residency;
    }
    var hist := AddTo(s.hist, residency, residencies);
    var p50, p95 := Refresh(hist, residencies + [residency]);
    s' := Samples(max, hist, p50, p95);
    assert (residencies + [residency])[|residencies|] == residency;
    assert residencies != [] ==> forall x :: x in residencies ==> x in residencies + [residency];
  }

  lemma EmptyCounts(hist: seq<nat>)
    requires |hist| == 16 && forall i :: 0 <= i < 16 ==> hist[i] == 0
    ensures Counts(hist, [])
  {
    forall i | 0 <= i < 16 ensures Sum(hist[..i + 1]) == CountLe([], LIMITS[i]) {
      ZeroSum(hist[..i + 1]);
    }
  }

  lemma {:induction false} ZeroSum(hist: seq<nat>)
    requires forall i :: 0 <= i < |hist| ==> hist[i] == 0
    ensures Sum(hist) == 0
  {
    if hist != [] { ZeroSum(hist[..|hist| - 1]); }
  }
}
