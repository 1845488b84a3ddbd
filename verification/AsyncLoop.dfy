/** The async loop of a worker: events and expired timers make waiting requests ready, ready requests stand in the run
    queue, and each pass gives every one of them a turn, in which it may wait for more, go on, or end. The descriptors that
    are ready, the clock and what requests do in their turns are parameters. */
module AsyncLoop {
  import opened Collections
  import opened AsyncWaits
  import opened EventQueue
  import opened RunQueue

  /** What a request does in its turn: wait for a descriptor or a while, or drop all it waits for. */
  datatype Act = WaitFd(fd: int, interest: Interest, timeout: int) | WaitTime(timeout: int) | DropWaits

  datatype Turn = Turn(acts: seq<Act>, ends: bool)

  /** What the event queue reports: a descriptor, or a connection to a listening socket. */
  datatype Ready = Descriptor(fd: int) | Connection(accepted: bool)

  /** The state that events change. */
  datatype Board = Board(w: Waits, queued: seq<nat>, unused: seq<nat>, lastReady: map<nat, int>)

  ghost function AfterReady(b: Board, x: Ready): Board {
    match x
    case Descriptor(fd) =>
      if fd in b.w.table && b.w.table[fd] < |b.w.lists|
      then var r := b.w.table[fd]; Board(Forget(b.w, r), b.queued + [r], b.unused, b.lastReady[r := fd])
      else b
    case Connection(accepted) =>
      if accepted && b.unused != []
      then var n := |b.unused| - 1; b.(queued := b.queued + [b.unused[n]], unused := b.unused[..n])
      else b
  }

  ghost function AfterBatch(b: Board, xs: seq<Ready>): Board {
    if xs == [] then b else AfterReady(AfterBatch(b, xs[..|xs| - 1]), xs[|xs| - 1])
  }

  /** The requests a batch makes ready, and the cores it leaves unused: the owner of each ready descriptor, once, and a core
      for each connection taken. */
  ghost function Woken(table: map<int, nat>, unused: seq<nat>, xs: seq<Ready>): (seq<nat>, seq<nat>) {
    if xs == [] then ([], unused) else
      var (before, free) := Woken(table, unused, xs[..|xs| - 1]);
      match xs[|xs| - 1]
      case Descriptor(fd) => if fd in table && table[fd] !in before then (before + [table[fd]], free) else (before, free)
      case Connection(accepted) =>
        if accepted && free != [] then (before + [free[|free| - 1]], free[..|free| - 1]) else (before, free)
  }

  /** The requests that stay in the queue: neither ended nor waiting. */
  ghost function Kept(rs: seq<nat>, turns: nat -> Turn, w: Waits): seq<nat> {
    if rs == [] then [] else
      var before := Kept(rs[..|rs| - 1], turns, w);
      var r := rs[|rs| - 1];
      if !turns(r).ends && Idle(w, r) then before + [r] else before
  }

  ghost function Ended(rs: seq<nat>, turns: nat -> Turn): seq<nat> {
    if rs == [] then [] else
      var before := Ended(rs[..|rs| - 1], turns);
      if turns(rs[|rs| - 1]).ends then before + [rs[|rs| - 1]] else before
  }

  /** Requests outside their own turn: a queued or unused one waits for nothing, and none is both. */
  ghost predicate Settled(w: Waits, queued: seq<nat>, unused: seq<nat>) {
    && (forall r :: r in queued ==> Idle(w, r))
    && (forall r :: r in unused ==> Idle(w, r) && r !in queued)
    && Distinct(unused)
  }

  /** No request is ever lost: every core, but for the one that is on its way, is unused, queued, or waits for something. */
  ghost predicate Accounted(w: Waits, queued: seq<nat>, unused: seq<nat>, moving: int) {
    forall r :: 0 <= r < |w.lists| && r != moving ==> r in queued || r in unused || !Idle(w, r)
  }

  /** The waits of a request after what it did in its turn. */
  ghost function Acted(w: Waits, r: nat, acts: seq<Act>, now: int): (w': Waits)
    requires r < |w.lists|
    ensures |w'.lists| == |w.lists|
  {
    if acts == [] then w else
      var before := Acted(w, r, acts[..|acts| - 1], now);
      match acts[|acts| - 1]
      case WaitFd(fd, interest, timeout) => if fd < 0 then before else Joined(Timed(before, r, timeout, now), r, Wait(fd, interest))
      case WaitTime(timeout) => Timed(before, r, timeout, now)
      case DropWaits => Forget(before, r)
  }

  ghost function AfterTurn(w: Waits, r: nat, turn: Turn, now: int): (w': Waits)
    requires r < |w.lists|
    ensures |w'.lists| == |w.lists|
  {
    var acted := Acted(w, r, turn.acts, now);
    if turn.ends then Forget(acted, r) else acted
  }

  /** The waits after one turn of each of these requests, in order. */
  ghost function AfterTurns(w: Waits, rs: seq<nat>, turns: nat -> Turn, now: int): (w': Waits)
    ensures |w'.lists| == |w.lists|
  {
    if rs == [] then w else
      var before := AfterTurns(w, rs[..|rs| - 1], turns, now);
      var r := rs[|rs| - 1];
      if r < |w.lists| then AfterTurn(before, r, turns(r), now) else before
  }

  /** No turn of a pass claims a descriptor that belongs to another request when the turn comes. */
  ghost predicate PassUnclaimed(w: Waits, rs: seq<nat>, turns: nat -> Turn, now: int) {
    forall i :: 0 <= i < |rs| ==> Unclaimed(AfterTurns(w, rs[..i], turns, now), rs[i], turns(rs[i]).acts)
  }

  class Loop {
    const queue: Queue
    var w: Waits
    var timedOut: set<nat>
    var lastReady: map<nat, int>
    var unused: seq<nat>
    /** No request has ever waited for a descriptor that another one was waiting for. */
    ghost var clean: bool

    ghost predicate Valid()
      reads this, queue, queue.nodes
    {
      ValidBut(-1)
    }

    ghost predicate ValidBut(moving: int)
      reads this, queue, queue.nodes
    {
      && queue.Valid()
      && TableSound(w)
      && (clean ==> TableComplete(w))
      && Settled(w, queue.contents, unused)
      && Accounted(w, queue.contents, unused, moving)
    }

    ghost function Now(): Board
      reads this, queue
    {
      Board(w, queue.contents, unused, lastReady)
    }

    twostate predicate NodesFramed()
      reads this, queue
    {
      forall i :: 0 <= i < |queue.nodes| ==> queue.nodes[i] in old(queue.nodes) || fresh(queue.nodes[i])
    }

    constructor (cores: nat)
      ensures Valid() && clean && queue.contents == [] && w.timers == map[] && |w.lists| == cores && |unused| == cores
      ensures fresh(queue) && queue.nodes == []
    {
      queue := new Queue();
      w := Waits(seq(cores, _ => []), map[], map[]);
      timedOut, lastReady, clean := {}, map[], true;
      unused := seq(cores, i => i);
      new;
      forall r | 0 <= r < cores ensures r in unused {
        assert unused[r] == r;
      }
    }

    /** A request that waits, or has just been parsed, is made ready. */
    method MakeReady(r: nat)
      requires ValidBut(r) && r < |w.lists| && r !in unused
      modifies this`w, queue, queue.nodes
      ensures Valid() && NodesFramed()
      ensures queue.contents == if r in old(queue.contents) then old(queue.contents) else old(queue.contents) + [r]
      ensures w == Forget(old(w), r)
    {
      hide TableSound, TableComplete, OnList, Queue.Linked, Forget;
      ForgetFacts(w, r);
      w := Reset(w, r);
      queue.Push(r);
    }

    /** A new connection takes an unused core, if there is one; it is put back if the connection cannot be taken over, and
        queued once its request has been read. */
    method Admit(accepted: bool) returns (admitted: bool)
      requires Valid()
      modifies this`w, this`unused, queue, queue.nodes
      ensures Valid() && NodesFramed()
      ensures admitted <==> accepted && old(unused) != []
      ensures w == old(w)
      ensures !admitted ==> unused == old(unused) && queue.contents == old(queue.contents)
      ensures admitted ==>
                var n := |old(unused)| - 1;
                unused == old(unused)[..n] && queue.contents == old(queue.contents) + [old(unused)[n]]
    {
      hide TableSound, TableComplete, OnList, Queue.Linked, Forget;
      if |unused| == 0 {
        return false;
      }
      var r := unused[|unused| - 1];
      if !accepted {
        return false;
      }
      assert r in unused && Idle(w, r);
      ForgetIdle(w, r);
      unused := unused[..|unused| - 1];
      MakeReady(r);
      return true;
    }

    /** A ready descriptor: its request stops waiting and joins the queue; a descriptor nobody waits for is closed. */
    method Dispatch(fd: int) returns (closed: bool)
      requires Valid()
      modifies this`w, this`lastReady, queue, queue.nodes
      ensures Valid() && NodesFramed()
      ensures closed <==> fd !in old(w).table
      ensures closed ==> w == old(w) && queue.contents == old(queue.contents) && lastReady == old(lastReady)
      ensures !closed ==>
                var r := old(w).table[fd];
                && r < |old(w).lists| && w == Forget(old(w), r) && lastReady == old(lastReady)[r := fd]
                && queue.contents == old(queue.contents) + [r] && r !in old(queue.contents)
    {
      hide TableSound, TableComplete, OnList, Forget;
      if fd !in w.table {
        return true;
      }
      var r := w.table[fd];
      Awaited(w, fd);
      MakeReady(r);
      lastReady := lastReady[r := fd];
      return false;
    }

    /** One report of the event queue. */
    method Handle(x: Ready) returns (closed: bool)
      requires Valid()
      modifies this`w, this`lastReady, this`unused, queue, queue.nodes
      ensures Valid() && NodesFramed() && Now() == old(AfterReady(Now(), x))
      ensures closed <==> x.Descriptor? && x.fd !in old(w).table
    {
      hide TableSound, TableComplete, OnList, Settled, Accounted, Distinct, Queue.Linked, Forget;
      match x
      case Descriptor(fd) => closed := Dispatch(fd);
      case Connection(accepted) =>
        var _ := Admit(accepted);
        closed := false;
    }

    /** A batch of reports, one after the other; closed are the descriptors nobody waits for when their turn comes. */
    method DispatchAll(xs: seq<Ready>) returns (closed: seq<bool>)
      requires Valid()
      modifies this`w, this`lastReady, this`unused, queue, queue.nodes
      ensures Valid() && NodesFramed() && Now() == old(AfterBatch(Now(), xs)) && |closed| == |xs|
      ensures Unknown(old(Now()), xs, closed)
    {
      hide TableSound, TableComplete, OnList, Settled, Accounted, Distinct, Queue.Linked, AfterReady, AfterBatch, Unknown;
      closed := [];
      ghost var was := Now();
      NoReports(was, xs);
      for i := 0 to |xs|
        invariant Valid() && NodesFramed() && |closed| == i && Now() == AfterBatch(was, xs[..i]) && Unknown(was, xs[..i], closed)
      {
        var c := Handle(xs[i]);
        OneMoreReport(was, xs, i, closed, c);
        closed := closed + [c];
      }
      assert xs[..|xs|] == xs;
    }

    /** The earliest timer, if it has run out, makes its request ready. */
    method ExpireOne(now: int) returns (more: bool, ghost r: nat)
      requires Valid()
      modifies this`w, this`timedOut, queue, queue.nodes
      ensures Valid() && NodesFramed() && |w.lists| == |old(w).lists|
      ensures !more ==> unchanged(this) && queue.contents == old(queue.contents) && forall q :: q in w.timers ==> w.timers[q] > now
      ensures more ==>
                && Earliest(old(w).timers, r) && old(w).timers[r] <= now && r < |old(w).lists| && w == Forget(old(w), r)
                && queue.contents == old(queue.contents) + [r] && timedOut == old(timedOut) + {r}
    {
      hide TableSound, TableComplete, OnList, Forget;
      r := 0;
      if |w.timers| == 0 {
        return false, r;
      }
      var first := MinTimer(w.timers);
      if w.timers[first] > now {
        return false, r;
      }
      TimerFacts(w, first);
      timedOut := timedOut + {first};
      MakeReady(first);
      return true, first;
    }

    /** All timers that have run out, earliest first, make their requests ready; only later ones are left. */
    method ExpireTimeouts(now: int) returns (ghost expired: seq<nat>)
      requires Valid()
      modifies this`w, this`timedOut, queue, queue.nodes
      ensures Valid() && NodesFramed() && |w.lists| == |old(w).lists|
      ensures RanOut(old(w).timers, w.timers, now, expired)
      ensures queue.contents == old(queue.contents) + expired && w == ForgetAll(old(w), expired)
      ensures timedOut == old(timedOut) + set r | r in expired
    {
      hide TableSound, TableComplete, OnList, Settled, Accounted, Draining, Earliest, Distinct, Queue.Linked, Forget, ForgetAll, RanOut;
      expired := [];
      ghost var was := w;
      NothingDrained(was, now);
      var more := true;
      while more
        invariant Valid() && NodesFramed() && |w.lists| == |old(w).lists|
        invariant queue.contents == old(queue.contents) + expired && w == ForgetAll(was, expired)
        invariant timedOut == old(timedOut) + set r | r in expired
        invariant Draining(was.timers, w.timers, expired, now)
        invariant !more ==> forall q :: q in w.timers ==> w.timers[q] > now
        decreases |w.timers|, more
      {
        ghost var before := w;
        ghost var r;
        more, r := ExpireOne(now);
        if more {
          Drained(was.timers, before, expired, now, r);
          ForgetOneMore(was, expired, r);
          expired := expired + [r];
        }
      }
      AllDrained(was.timers, w.timers, expired, now);
    }

    /** A request runs until it gives the control back or ends; an ended one is unused again. */
    method TakeTurn(r: nat, turn: Turn, now: int)
      requires Valid() && r in queue.contents
      modifies this`w, this`unused, this`clean
      ensures TableSound(w) && (clean ==> TableComplete(w)) && OthersKeep(old(w), w, r)
      ensures r < |old(w).lists| && w == AfterTurn(old(w), r, turn, now)
      ensures clean <==> old(clean) && Unclaimed(old(w), r, turn.acts)
      ensures turn.ends ==> Idle(w, r)
      ensures unused == if turn.ends then old(unused) + [r] else old(unused)
    {
      hide TableSound, TableComplete, OnList, Unclaimed, Acted, Forget;
      ghost var c;
      w, c := DoActs(w, r, turn.acts, now, clean);
      clean := c;
      if turn.ends {
        ForgetFacts(w, r);
        w := Reset(w, r);
        unused := unused + [r];
      }
    }

    /** The turn of the request at one place of the queue, which it leaves if it ended or waits. */
    method Step(current: Node, ghost k: nat, turn: Turn, now: int) returns (next: Node?)
      requires Valid() && k < |queue.nodes| && queue.nodes[k] == current
      modifies this`w, this`unused, this`clean, queue, queue.nodes
      ensures Valid() && OthersKeep(old(w), w, current.req)
      ensures clean <==> old(clean) && Unclaimed(old(w), current.req, turn.acts)
      ensures current.req < |old(w).lists| && w == AfterTurn(old(w), current.req, turn, now)
      ensures unused == if turn.ends then old(unused) + [current.req] else old(unused)
      ensures Members(queue.nodes, old(queue.nodes))
      ensures var stays := !turn.ends && Idle(w, current.req);
              && queue.contents == (if stays then old(queue.contents) else Without(old(queue.contents), k))
              && next == queue.At(if stays then k + 1 else k)
    {
      hide TableSound, TableComplete, OnList, Settled, Accounted, Unclaimed, OthersKeep, Without, Distinct, AfterTurn;
      assert queue.Linked(k);
      next := current.next;
      var r := current.req;
      ghost var before, idle := w, unused;
      assert queue.contents[k] == r;
      TakeTurn(r, turn, now);
      TurnTaken(before, w, queue.contents, idle, r, turn.ends);
      WithoutAt(queue.nodes, k);
      if turn.ends || Waiting(w, r) {
        queue.Remove(current, k);
      }
    }

    /** One pass over the run queue: every request in it has one turn, in order. Those that end or wait leave the queue. */
    method RunPass(turns: nat -> Turn, now: int) returns (ghost ran: seq<nat>)
      requires Valid()
      modifies this`w, this`unused, this`clean, queue, queue.nodes
      ensures Valid() && ran == old(queue.contents)
      ensures Members(queue.nodes, old(queue.nodes))
      ensures queue.contents == Kept(ran, turns, w) && w == AfterTurns(old(w), ran, turns, now)
      ensures unused == old(unused) + Ended(ran, turns)
      ensures clean <==> old(clean) && PassUnclaimed(old(w), ran, turns, now)
    {
      hide TableSound, TableComplete, OnList, Settled, Accounted, OthersKeep, Without, Distinct, Kept, Ended, Passed, AfterTurn, AfterTurns;
      hide Unclaimed, PassUnclaimed;
      var current := queue.first;
      ran := [];
      ghost var all := queue.contents;
      ghost var k := 0;
      NoneRan(all, turns, w);
      NoneEnded(w, turns, now);
      while current != null
        invariant Valid() && current == queue.At(k)
        invariant Passed(all, ran, queue.contents, k, turns, w)
        invariant unused == old(unused) + Ended(ran, turns) && w == AfterTurns(old(w), ran, turns, now)
        invariant Members(queue.nodes, old(queue.nodes))
        invariant clean <==> old(clean) && PassUnclaimed(old(w), ran, turns, now)
        decreases |all| - |ran|
      {
        var r := current.req;
        ghost var before, queued := w, queue.contents;
        PassFacts(all, ran, queue.contents, k, turns, w);
        assert queue.contents[k] == r;
        ghost var nodes := queue.nodes;
        current := Step(current, k, turns(r), now);
        StillMembers(queue.nodes, nodes, old(queue.nodes));
        PassStep(all, ran, queued, k, turns, before, w, r);
        OneMoreEnded(ran, turns, r, old(unused));
        OneMoreTurn(old(w), ran, turns, now, r);
        OneMoreUnclaimed(old(w), ran, turns, now, r);
        ran := ran + [r];
        k := if !turns(r).ends && Idle(w, r) then k + 1 else k;
      }
      AllRan(all, ran, queue.contents, k, turns, w);
    }

    /** The expiry before the loop waits for events, if the run queue is empty. */
    method ExpireIfIdle(now: int) returns (ghost looked: bool, ghost expired: seq<nat>)
      requires Valid()
      modifies this`w, this`timedOut, queue, queue.nodes
      ensures Valid() && NodesFramed()
      ensures queue.contents == old(queue.contents) + expired && w == ForgetAll(old(w), expired)
      ensures timedOut == old(timedOut) + set r | r in expired
      ensures looked ==> old(queue.contents) == [] && RanOut(old(w).timers, w.timers, now, expired)
      ensures !looked ==> expired == [] && w == old(w) && (old(queue.contents) == [] ==> AllLater(w.timers, now))
    {
      hide TableSound, TableComplete, OnList, Settled, Accounted, Distinct, Queue.Linked, ForgetAll, RanOut, Earliest, AllLater;
      looked, expired := false, [];
      NothingDrained(w, now);
      NoneDue(w.timers, now);
      if queue.first == null && |w.timers| > 0 {
        var first := MinTimer(w.timers);
        LaterThan(w.timers, first, now);
        if w.timers[first] <= now {
          expired := ExpireTimeouts(now);
          looked := true;
        }
      }
    }

    /** The expiry in a round of the loop: before it waits for events if the run queue is empty, and after it if none came. */
    method Expire(now: int, events: nat, later: int) returns (ghost expired: seq<nat>)
      requires Valid() && now <= later
      modifies this`w, this`timedOut, queue, queue.nodes
      ensures Valid() && NodesFramed()
      ensures queue.contents == old(queue.contents) + expired && w == ForgetAll(old(w), expired)
      ensures timedOut == old(timedOut) + set r | r in expired
      ensures AreExpired(old(w).timers, old(queue.contents) == [], now, events == 0, later, expired)
    {
      hide TableSound, TableComplete, OnList, Settled, Accounted, Distinct, Queue.Linked, ForgetAll, AreExpired, RanOut, AllLater;
      ghost var looked, e1 := ExpireIfIdle(now);
      ghost var e2, w1 := [], w;
      NothingDrained(w1, later);
      if events == 0 {
        e2 := ExpireTimeouts(later);
      }
      expired := e1 + e2;
      ForgetBoth(old(w), e1, e2);
      ExpiredTwice(old(w).timers, w1.timers, w.timers, old(queue.contents) == [], looked, now, events == 0, later, e1, e2);
    }

    /** One round of the loop. Exactly the requests that were ready before, whose timers the loop finds run out, and that the
        events make ready have their turn, in that order. Timers are looked at only if the queue was empty or no event came.
        The table stays complete as long as no turn claims another request's descriptor. */
    method Round(now: int, xs: seq<Ready>, later: int, turns: nat -> Turn) returns (ghost expired: seq<nat>, ghost ran: seq<nat>)
      requires Valid() && now <= later
      modifies this, queue, queue.nodes
      ensures Valid() && NodesFramed() && Distinct(ran) && timedOut == old(timedOut) + set r | r in expired
      ensures AreExpired(old(w).timers, old(queue.contents) == [], now, xs == [], later, expired)
      ensures var b := AfterBatch(AfterExpiry(old(Now()), expired), xs);
              && ran == b.queued && w == AfterTurns(b.w, ran, turns, later)
              && queue.contents == Kept(ran, turns, w) && unused == b.unused + Ended(ran, turns)
              && (clean <==> old(clean) && PassUnclaimed(b.w, ran, turns, later))
      ensures old(clean) ==>
                ran == old(queue.contents) + expired + Woken(ForgetAll(old(w), expired).table, old(unused), xs).0
    {
      hide TableSound, TableComplete, OnList, Settled, Accounted, Kept, Ended, Woken, Distinct, Queue.Linked, AfterTurns, ForgetAll;
      hide AfterBatch, PassUnclaimed, AreExpired;
      expired := Expire(now, |xs|, later);
      if clean {
        BatchWakes(Now(), xs);
      }
      var closed := DispatchAll(xs);
      ran := RunPass(turns, later);
    }
  }

  ghost function AfterExpiry(b: Board, expired: seq<nat>): Board {
    b.(w := ForgetAll(b.w, expired), queued := b.queued + expired)
  }

  /** The timers that run out in a round, earliest first: those before `later` if no event came, else those before `now` if
      the queue was empty, else none. */
  ghost predicate AreExpired(timers: map<nat, int>, idle: bool, now: int, quiet: bool, later: int, expired: seq<nat>) {
    && (forall r :: r in expired <==> r in timers && ((quiet && timers[r] <= later) || (idle && timers[r] <= now)))
    && forall i, j :: 0 <= i < j < |expired| ==> timers[expired[i]] <= timers[expired[j]]
  }

  ghost predicate AllLater(timers: map<nat, int>, now: int) {
    forall r :: r in timers ==> timers[r] > now
  }

  lemma NoneDue(timers: map<nat, int>, now: int)
    ensures |timers| == 0 ==> AllLater(timers, now)
  {
    assert |timers| == 0 ==> timers.Keys == {};
  }

  lemma LaterThan(timers: map<nat, int>, first: nat, now: int)
    requires Earliest(timers, first)
    ensures first in timers && (timers[first] > now ==> AllLater(timers, now))
  {
  }

  lemma ExpiredTwice(timers: map<nat, int>, timers1: map<nat, int>, timers2: map<nat, int>, idle: bool, looked: bool, now: int,
                     quiet: bool, later: int, e1: seq<nat>, e2: seq<nat>)
    requires now <= later && (looked ==> idle)
    requires if looked then RanOut(timers, timers1, now, e1) else timers1 == timers && e1 == [] && (idle ==> AllLater(timers, now))
    requires if quiet then RanOut(timers1, timers2, later, e2) else e2 == []
    ensures AreExpired(timers, idle, now, quiet, later, e1 + e2)
  {
    var e := e1 + e2;
    forall i, j | 0 <= i < j < |e| ensures timers[e[i]] <= timers[e[j]] {
      assert e[i] in e && e[j] in e;
      if i < |e1| <= j {
        assert e1[i] in e1 && e2[j - |e1|] in e2;
      } else if i < |e1| {
        assert e[i] == e1[i] && e[j] == e1[j];
      } else {
        assert e[i] == e2[i - |e1|] && e[j] == e2[j - |e1|] && e2[i - |e1|] in e2 && e2[j - |e1|] in e2;
      }
    }
  }

  /** In a pass: those that ran and stay come first, then those whose turn is still to come. */
  ghost predicate Passed(all: seq<nat>, ran: seq<nat>, queued: seq<nat>, k: nat, turns: nat -> Turn, w: Waits) {
    && ran <= all
    && k == |Kept(ran, turns, w)|
    && queued == Kept(ran, turns, w) + all[|ran|..]
    && Distinct(all)
  }

  lemma NoneRan(all: seq<nat>, turns: nat -> Turn, w: Waits)
    requires Distinct(all)
    ensures Passed(all, [], all, 0, turns, w)
  {
  }

  lemma PassFacts(all: seq<nat>, ran: seq<nat>, queued: seq<nat>, k: nat, turns: nat -> Turn, w: Waits)
    requires Passed(all, ran, queued, k, turns, w)
    ensures |ran| <= |all|
  {
  }

  lemma AllRan(all: seq<nat>, ran: seq<nat>, queued: seq<nat>, k: nat, turns: nat -> Turn, w: Waits)
    requires Passed(all, ran, queued, k, turns, w) && k >= |queued|
    ensures ran == all && queued == Kept(all, turns, w)
  {
  }

  ghost predicate Members(a: seq<Node>, b: seq<Node>) {
    forall i :: 0 <= i < |a| ==> a[i] in b
  }

  lemma NoneEnded(w: Waits, turns: nat -> Turn, now: int)
    ensures Ended([], turns) == [] && AfterTurns(w, [], turns, now) == w && PassUnclaimed(w, [], turns, now)
  {
  }

  lemma OneMoreEnded(ran: seq<nat>, turns: nat -> Turn, r: nat, unused: seq<nat>)
    ensures unused + Ended(ran + [r], turns) == if turns(r).ends then unused + Ended(ran, turns) + [r] else unused + Ended(ran, turns)
  {
    assert (ran + [r])[..|ran|] == ran;
  }

  lemma OneMoreTurn(w: Waits, ran: seq<nat>, turns: nat -> Turn, now: int, r: nat)
    requires r < |w.lists|
    ensures AfterTurns(w, ran + [r], turns, now) == AfterTurn(AfterTurns(w, ran, turns, now), r, turns(r), now)
  {
    assert (ran + [r])[..|ran|] == ran;
  }

  lemma OneMoreUnclaimed(w: Waits, ran: seq<nat>, turns: nat -> Turn, now: int, r: nat)
    ensures PassUnclaimed(w, ran + [r], turns, now) <==>
            PassUnclaimed(w, ran, turns, now) && Unclaimed(AfterTurns(w, ran, turns, now), r, turns(r).acts)
  {
    hide AfterTurns, Unclaimed;
    var all := ran + [r];
    assert all[..|ran|] == ran && all[|ran|] == r;
    assert forall i :: 0 <= i < |ran| ==> all[..i] == ran[..i] && all[i] == ran[i];
    if PassUnclaimed(w, all, turns, now) {
      forall i | 0 <= i < |ran| ensures Unclaimed(AfterTurns(w, ran[..i], turns, now), ran[i], turns(ran[i]).acts) {
        assert all[..i] == ran[..i] && Unclaimed(AfterTurns(w, all[..i], turns, now), all[i], turns(all[i]).acts);
      }
    }
  }

  lemma StillMembers(a: seq<Node>, b: seq<Node>, c: seq<Node>)
    requires Members(a, b) && Members(b, c)
    ensures Members(a, c)
  {
  }

  lemma PassStep(all: seq<nat>, ran: seq<nat>, queued: seq<nat>, k: nat, turns: nat -> Turn, w: Waits, w': Waits, r: nat)
    requires Passed(all, ran, queued, k, turns, w) && k < |queued| && queued[k] == r && OthersKeep(w, w', r)
    ensures |ran| < |all| && all[|ran|] == r
    ensures var stays := !turns(r).ends && Idle(w', r);
            Passed(all, ran + [r], if stays then queued else Without(queued, k), if stays then k + 1 else k, turns, w')
  {
    hide OthersKeep, Idle;
    assert r == all[|ran|];
    KeptStable(ran, turns, w, w', r);
    assert (ran + [r])[..|ran|] == ran;
    assert all[|ran|..] == [r] + all[|ran| + 1..];
    assert Without(queued, k) == Kept(ran, turns, w) + all[|ran| + 1..];
  }

  /** None of the descriptors waited for belongs to another request. */
  ghost predicate Unclaimed(w: Waits, r: nat, acts: seq<Act>) {
    forall i :: 0 <= i < |acts| && acts[i].WaitFd? && acts[i].fd >= 0 ==> !Claimed(w, r, acts[i].fd)
  }

  method DoActs(w: Waits, r: nat, acts: seq<Act>, now: int, ghost clean: bool) returns (w': Waits, ghost clean': bool)
    requires r < |w.lists| && TableSound(w) && (clean ==> TableComplete(w))
    ensures w' == Acted(w, r, acts, now)
    ensures TableSound(w') && (clean' ==> TableComplete(w')) && OthersKeep(w, w', r)
    ensures clean' <==> clean && Unclaimed(w, r, acts)
  {
    hide TableSound, TableComplete, OnList, Forget, Joined, Timed;
    w', clean' := w, clean;
    for i := 0 to |acts|
      invariant w' == Acted(w, r, acts[..i], now)
      invariant TableSound(w') && (clean' ==> TableComplete(w')) && OthersKeep(w, w', r)
      invariant clean' <==> clean && Unclaimed(w, r, acts[..i])
      invariant clean' ==> SameClaims(w, w', r)
    {
      assert acts[..i + 1][..i] == acts[..i];
      ghost var before := w';
      match acts[i]
      case WaitFd(fd, interest, timeout) =>
        var added;
        w', added := AddFd(w', r, fd, interest, timeout, now);
        JoinedClaims(before, r, fd, interest, timeout, now);
        clean' := clean' && !(added && Claimed(before, r, fd));
      case WaitTime(timeout) =>
        w' := AddTimeout(w', r, timeout, now);
        TimedFacts(before, r, timeout, now);
        TimedClaims(before, r, timeout, now);
      case DropWaits =>
        w' := Reset(w', r);
        ForgetFacts(before, r);
    }
    assert acts[..|acts|] == acts;
  }

  lemma TimedClaims(w: Waits, r: nat, timeout: int, now: int)
    ensures SameClaims(w, Timed(w, r, timeout, now), r)
  {
  }

  lemma JoinedClaims(w: Waits, r: nat, fd: int, interest: Interest, timeout: int, now: int)
    requires r < |w.lists|
    ensures !Claimed(w, r, fd) ==> SameClaims(w, Joined(Timed(w, r, timeout, now), r, Wait(fd, interest)), r)
  {
  }

  /** After its turn a request stays queued only if it waits for nothing. */
  lemma TurnTaken(w: Waits, w': Waits, queued: seq<nat>, unused: seq<nat>, r: nat, ends: bool)
    requires Settled(w, queued, unused) && Distinct(queued) && r in queued && OthersKeep(w, w', r) && (ends ==> Idle(w', r))
    requires Accounted(w, queued, unused, -1)
    ensures r < |w'.lists|
    ensures !ends && !Waiting(w', r) ==> Settled(w', queued, unused) && Accounted(w', queued, unused, -1)
    ensures forall k :: 0 <= k < |queued| && queued[k] == r ==>
              Settled(w', Without(queued, k), if ends then unused + [r] else unused)
    ensures ends || Waiting(w', r) ==>
              forall k :: 0 <= k < |queued| && queued[k] == r ==>
                Accounted(w', Without(queued, k), if ends then unused + [r] else unused, -1)
  {
    hide Distinct;
    forall k | 0 <= k < |queued| && queued[k] == r
      ensures Settled(w', Without(queued, k), if ends then unused + [r] else unused)
      ensures ends || Waiting(w', r) ==> Accounted(w', Without(queued, k), if ends then unused + [r] else unused, -1)
    {
      hide Without;
      WithoutFacts(queued, k);
      Longer(unused, r);
    }
  }

  lemma Longer(s: seq<nat>, r: nat)
    requires Distinct(s)
    ensures r !in s ==> Distinct(s + [r])
  {
  }

  lemma {:induction false} KeptStable(rs: seq<nat>, turns: nat -> Turn, w: Waits, w': Waits, r: nat)
    requires OthersKeep(w, w', r) && r !in rs
    ensures Kept(rs, turns, w') == Kept(rs, turns, w)
  {
    if rs != [] {
      KeptStable(rs[..|rs| - 1], turns, w, w', r);
    }
  }

  /** The timers taken so far are the earliest, in order, and had run out. */
  ghost predicate Draining(was: map<nat, int>, timers: map<nat, int>, expired: seq<nat>, now: int) {
    && (forall r :: r in expired ==> r in was && was[r] <= now)
    && (forall r :: r in timers <==> r in was && r !in expired)
    && (forall r :: r in timers ==> timers[r] == was[r])
    && (forall i, j :: 0 <= i < j < |expired| ==> was[expired[i]] <= was[expired[j]])
    && (forall i, r :: 0 <= i < |expired| && r in timers ==> was[expired[i]] <= was[r])
  }

  lemma Drained(was: map<nat, int>, w: Waits, expired: seq<nat>, now: int, r: nat)
    requires Draining(was, w.timers, expired, now) && Earliest(w.timers, r) && w.timers[r] <= now && r < |w.lists|
    ensures Draining(was, Forget(w, r).timers, expired + [r], now) && |Forget(w, r).timers| < |w.timers|
  {
    var timers, e := w.timers, expired + [r];
    assert |timers| == |timers - {r}| + 1 by {
      assert timers.Keys == (timers - {r}).Keys + {r};
    }
    forall i, j | 0 <= i < j < |e| ensures was[e[i]] <= was[e[j]] {
      assert i < |expired| && e[i] == expired[i];
    }
  }

  lemma NothingDrained(w: Waits, now: int)
    ensures Draining(w.timers, w.timers, [], now) && ForgetAll(w, []) == w
  {
  }

  lemma AllDrained(was: map<nat, int>, timers: map<nat, int>, expired: seq<nat>, now: int)
    requires Draining(was, timers, expired, now) && forall q :: q in timers ==> timers[q] > now
    ensures RanOut(was, timers, now, expired)
  {
  }

  /** Exactly the timers up to now are gone, and listed earliest first; the later ones are as they were. */
  ghost predicate RanOut(was: map<nat, int>, timers: map<nat, int>, now: int, expired: seq<nat>) {
    && (forall r :: r in timers <==> r in was && was[r] > now)
    && (forall r :: r in timers ==> timers[r] == was[r])
    && (forall r :: r in expired <==> r in was && was[r] <= now)
    && (forall i, j :: 0 <= i < j < |expired| ==> was[expired[i]] <= was[expired[j]])
  }

  ghost predicate Earliest(timers: map<nat, int>, r: nat) {
    r in timers && forall q :: q in timers ==> timers[r] <= timers[q]
  }

  /** The minimum of the timer tree. */
  method MinTimer(timers: map<nat, int>) returns (r: nat)
    requires |timers| > 0
    ensures Earliest(timers, r)
  {
    r :| r in timers;
    var left := timers.Keys - {r};
    while left != {}
      invariant r in timers && left <= timers.Keys
      invariant forall q :: q in timers && q !in left ==> timers[r] <= timers[q]
      decreases left
    {
      var q :| q in left;
      if timers[q] < timers[r] {
        r := q;
      }
      left := left - {q};
    }
  }

  lemma TimerFacts(w: Waits, r: nat)
    requires TableSound(w) && r in w.timers
    ensures r < |w.lists| && !Idle(w, r)
  {
  }

  /** Of the table, only the entries of requests made ready are gone. */
  ghost predicate Remaining(was: Waits, w: Waits, woken: seq<nat>) {
    && |w.lists| == |was.lists|
    && (forall fd :: fd in w.table <==> fd in was.table && was.table[fd] !in woken)
    && (forall fd :: fd in w.table ==> w.table[fd] == was.table[fd])
  }

  /** Which reports of a batch name a descriptor nobody waits for when their turn comes. */
  ghost predicate Unknown(b: Board, xs: seq<Ready>, closed: seq<bool>) {
    && |closed| == |xs|
    && forall i :: 0 <= i < |xs| ==> (closed[i] <==> xs[i].Descriptor? && xs[i].fd !in AfterBatch(b, xs[..i]).w.table)
  }

  lemma NoReports(b: Board, xs: seq<Ready>)
    ensures AfterBatch(b, xs[..0]) == b && Unknown(b, xs[..0], [])
  {
  }

  lemma OneMoreReport(b: Board, xs: seq<Ready>, i: nat, closed: seq<bool>, c: bool)
    requires i < |xs| && Unknown(b, xs[..i], closed)
    requires c <==> xs[i].Descriptor? && xs[i].fd !in AfterBatch(b, xs[..i]).w.table
    ensures Unknown(b, xs[..i + 1], closed + [c])
    ensures AfterBatch(b, xs[..i + 1]) == AfterReady(AfterBatch(b, xs[..i]), xs[i])
  {
    hide AfterBatch, AfterReady;
    OneMoreReady(b, xs, i);
    var ys, all := xs[..i + 1], closed + [c];
    forall j | 0 <= j < |ys| ensures all[j] <==> ys[j].Descriptor? && ys[j].fd !in AfterBatch(b, ys[..j]).w.table {
      assert ys[..j] == xs[..j] && ys[j] == xs[j];
      if j < i {
        assert xs[..i][..j] == xs[..j] && xs[..i][j] == xs[j];
      }
    }
  }

  lemma OneMoreReady(b: Board, xs: seq<Ready>, i: nat)
    requires i < |xs|
    ensures AfterBatch(b, xs[..i + 1]) == AfterReady(AfterBatch(b, xs[..i]), xs[i])
  {
    hide AfterReady;
    assert xs[..i + 1][..i] == xs[..i];
  }

  /** The descriptors a batch finds unknown: nobody waited for them, or an earlier report has made their request ready. */
  lemma UnknownAre(b: Board, xs: seq<Ready>, closed: seq<bool>, i: nat)
    requires TableSound(b.w) && TableComplete(b.w) && Settled(b.w, b.queued, b.unused) && Unknown(b, xs, closed) && i < |xs|
    ensures closed[i] <==>
              xs[i].Descriptor? && (xs[i].fd !in b.w.table || b.w.table[xs[i].fd] in Woken(b.w.table, b.unused, xs[..i]).0)
  {
    hide TableSound, TableComplete, Settled, AfterBatch, Woken, ForgetAll, Remaining;
    BatchWakes(b, xs[..i]);
    if xs[i].Descriptor? {
      RemainingAt(b.w, AfterBatch(b, xs[..i]).w, Woken(b.w.table, b.unused, xs[..i]).0, xs[i].fd);
    }
  }

  /** On a complete table, a batch queues each request that waits for one of its descriptors once, in order. */
  lemma {:induction false} BatchWakes(b: Board, xs: seq<Ready>)
    requires TableSound(b.w) && TableComplete(b.w) && Settled(b.w, b.queued, b.unused)
    ensures var (woken, free) := Woken(b.w.table, b.unused, xs);
            var b' := AfterBatch(b, xs);
            && b'.queued == b.queued + woken && b'.unused == free && free <= b.unused && b'.w == ForgetAll(b.w, woken)
            && Remaining(b.w, b'.w, woken) && TableSound(b'.w) && TableComplete(b'.w)
  {
    hide TableSound, TableComplete, OnList, Settled, Accounted, Remaining, Forget, ForgetAll;
    if xs == [] {
      NothingWoken(b.w);
    } else {
      var n := |xs| - 1;
      BatchWakes(b, xs[..n]);
      var (woken, free) := Woken(b.w.table, b.unused, xs[..n]);
      var b1 := AfterBatch(b, xs[..n]);
      match xs[n]
      case Descriptor(fd) =>
        RemainingAt(b.w, b1.w, woken, fd);
        Owned(b1.w, fd);
        if fd in b1.w.table {
          OneMoreWoken(b.w, b1.w, woken, fd);
          ForgetOneMore(b.w, woken, b1.w.table[fd]);
          ForgetFacts(b1.w, b1.w.table[fd]);
        }
      case Connection(accepted) =>
        if accepted && free != [] {
          OneMoreAdmitted(b, b1.w, woken, free[|free| - 1]);
        }
    }
  }

  lemma NothingWoken(w: Waits)
    ensures Remaining(w, w, []) && ForgetAll(w, []) == w
  {
  }

  lemma Owned(w: Waits, fd: int)
    requires TableSound(w)
    ensures fd in w.table ==> w.table[fd] < |w.lists|
  {
  }

  lemma RemainingAt(was: Waits, w: Waits, woken: seq<nat>, fd: int)
    requires Remaining(was, w, woken)
    ensures fd in w.table <==> fd in was.table && was.table[fd] !in woken
    ensures fd in w.table ==> w.table[fd] == was.table[fd]
  {
  }

  lemma OneMoreWoken(was: Waits, w: Waits, woken: seq<nat>, fd: int)
    requires TableSound(w) && TableComplete(w) && Remaining(was, w, woken) && fd in w.table && w.table[fd] < |w.lists|
    ensures Remaining(was, Forget(w, w.table[fd]), woken + [w.table[fd]])
  {
    var r := w.table[fd];
    var w' := Forget(w, r);
    assert forall f :: f in Descriptors(w.lists[r]) <==> OnList(w.lists[r], f);
    forall f ensures f in w'.table <==> f in was.table && was.table[f] !in woken + [r] {
      if f in w.table {
        assert w.table[f] == r ==> OnList(w.lists[r], f);
      }
    }
  }

  /** A core taken from the unused ones waits for nothing. */
  lemma OneMoreAdmitted(b: Board, w: Waits, woken: seq<nat>, r: nat)
    requires TableSound(b.w) && Settled(b.w, b.queued, b.unused) && r in b.unused
    requires Remaining(b.w, w, woken) && w == ForgetAll(b.w, woken)
    ensures Remaining(b.w, w, woken + [r]) && ForgetAll(b.w, woken + [r]) == w
  {
    hide ForgetAll;
    assert forall fd :: fd in b.w.table ==> b.w.table[fd] != r;
    StaysIdle(b.w, woken, r);
    ForgetIdle(w, r);
    ForgetOneMore(b.w, woken, r);
  }

  lemma Awaited(w: Waits, fd: int)
    requires TableSound(w) && fd in w.table
    ensures w.table[fd] < |w.lists| && !Idle(w, w.table[fd])
  {
  }
}
