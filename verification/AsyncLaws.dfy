/** What a request waits for, told by what it did in its turn, and how long: over any number of rounds of the loop, a request whose
    descriptors stay quiet is left alone until its time is up, and then it runs. */
module AsyncLaws {
  import opened Collections
  import opened EventQueue
  import opened AsyncWaits
  import opened RunQueue
  import opened AsyncLoop

  // ----- the acts of a turn

  /** The time an act asks for, 0 or less if none. */
  function TimeOf(act: Act): int {
    match act
    case WaitFd(fd, _, timeout) => if fd >= 0 then timeout else 0
    case WaitTime(timeout) => timeout
    case DropWaits => 0
  }

  /** The descriptors the acts ask for, in order. */
  function WaitsOf(acts: seq<Act>): seq<Wait> {
    if acts == [] then []
    else
      var act := acts[|acts| - 1];
      WaitsOf(acts[..|acts| - 1]) + if act.WaitFd? && act.fd >= 0 then [Wait(act.fd, act.interest)] else []
  }

  /** Nothing was dropped from act i on, and all before it was. */
  ghost predicate SinceDrop(acts: seq<Act>, i: nat) {
    i <= |acts| && (i > 0 ==> acts[i - 1].DropWaits?) && forall j :: i <= j < |acts| ==> !acts[j].DropWaits?
  }

  /** After a turn, a request waits for the descriptors it had and those it asked for since it last dropped its waits. Its timer is
      the one it had; or, if it had none or dropped it, the time of the turn and the first positive time it then asked for. */
  lemma {:induction false} TurnLaw(w: Waits, r: nat, acts: seq<Act>, now: int, i: nat)
    requires r < |w.lists| && SinceDrop(acts, i)
    ensures var w' := Acted(w, r, acts, now);
            && w'.lists[r] == (if i == 0 then w.lists[r] else []) + WaitsOf(acts[i..])
            && (i == 0 && r in w.timers ==> r in w'.timers && w'.timers[r] == w.timers[r])
            && (i > 0 || r !in w.timers ==>
                  && (r in w'.timers <==> exists k :: i <= k < |acts| && TimeOf(acts[k]) > 0)
                  && (forall k :: i <= k < |acts| && TimeOf(acts[k]) > 0 && (forall j :: i <= j < k ==> TimeOf(acts[j]) <= 0) ==>
                        r in w'.timers && w'.timers[r] == now + TimeOf(acts[k])))
  {
    hide Acted, WaitsOf, TimeOf;
    if acts == [] {
      NoActs(w, r, now);
    } else if i == |acts| {
      Dropped(w, r, acts, now);
    } else {
      TurnLaw(w, r, acts[..|acts| - 1], now, i);
      ActLaw(w, r, acts, now, i);
    }
  }

  lemma NoActs(w: Waits, r: nat, now: int)
    requires r < |w.lists|
    ensures Acted(w, r, [], now) == w && WaitsOf([][0..]) == []
  {
  }

  lemma Dropped(w: Waits, r: nat, acts: seq<Act>, now: int)
    requires r < |w.lists| && acts != [] && acts[|acts| - 1].DropWaits?
    ensures var w' := Acted(w, r, acts, now);
            w'.lists[r] == [] && r !in w'.timers && WaitsOf(acts[|acts|..]) == []
  {
    DropLaw(Acted(w, r, acts[..|acts| - 1], now), r);
  }

  lemma DropLaw(w: Waits, r: nat)
    requires r < |w.lists|
    ensures var w' := Forget(w, r);
            && w'.lists == w.lists[r := []] && w'.timers == w.timers - {r}
            && forall fd :: fd in w'.table <==> fd in w.table && !OnList(w.lists[r], fd)
  {
  }

  lemma ActLaw(w: Waits, r: nat, acts: seq<Act>, now: int, i: nat)
    requires r < |w.lists| && SinceDrop(acts, i) && i < |acts|
    ensures var n := |acts| - 1;
            var b, w', act := Acted(w, r, acts[..n], now), Acted(w, r, acts, now), acts[n];
            && w'.lists[r] == b.lists[r] + (if act.WaitFd? && act.fd >= 0 then [Wait(act.fd, act.interest)] else [])
            && WaitsOf(acts[i..]) ==
               WaitsOf(acts[..n][i..]) + (if act.WaitFd? && act.fd >= 0 then [Wait(act.fd, act.interest)] else [])
            && (r in b.timers ==> r in w'.timers && w'.timers[r] == b.timers[r])
            && (r !in b.timers ==>
                  if TimeOf(act) > 0 then r in w'.timers && w'.timers[r] == now + TimeOf(act) else r !in w'.timers)
  {
    var n := |acts| - 1;
    assert acts[i..][..|acts[i..]| - 1] == acts[..n][i..];
    assert acts[i..][|acts[i..]| - 1] == acts[n];
    hide WaitsOf, Forget, OnList;
  }

  // ----- requests that do not run

  ghost predicate SameWaits(w: Waits, w': Waits, r: nat) {
    && |w'.lists| == |w.lists| && (r < |w.lists| ==> w'.lists[r] == w.lists[r])
    && (r in w'.timers <==> r in w.timers) && (r in w.timers ==> w'.timers[r] == w.timers[r])
  }

  lemma ForgetKeeps(w: Waits, q: nat, r: nat)
    requires q < |w.lists| && q != r
    ensures SameWaits(w, Forget(w, q), r)
  {
  }

  lemma {:induction false} ForgetAllKeeps(w: Waits, rs: seq<nat>, r: nat)
    requires r !in rs
    ensures SameWaits(w, ForgetAll(w, rs), r)
  {
    hide Forget;
    if rs != [] {
      var n := |rs| - 1;
      ForgetAllKeeps(w, rs[..n], r);
      var b := ForgetAll(w, rs[..n]);
      if rs[n] < |b.lists| {
        ForgetKeeps(b, rs[n], r);
      }
    }
  }

  lemma {:induction false} ActsKeep(w: Waits, q: nat, acts: seq<Act>, now: int, r: nat)
    requires q < |w.lists| && q != r
    ensures SameWaits(w, Acted(w, q, acts, now), r)
  {
    hide Forget;
    if acts != [] {
      var n := |acts| - 1;
      ActsKeep(w, q, acts[..n], now, r);
      ForgetKeeps(Acted(w, q, acts[..n], now), q, r);
    }
  }

  lemma {:induction false} TurnsKeep(w: Waits, rs: seq<nat>, turns: nat -> Turn, now: int, r: nat)
    requires r !in rs
    ensures SameWaits(w, AfterTurns(w, rs, turns, now), r)
  {
    hide Forget, Acted;
    if rs != [] {
      var n := |rs| - 1;
      TurnsKeep(w, rs[..n], turns, now, r);
      var b := AfterTurns(w, rs[..n], turns, now);
      if rs[n] < |w.lists| {
        ActsKeep(b, rs[n], turns(rs[n]).acts, now, r);
        ForgetKeeps(Acted(b, rs[n], turns(rs[n]).acts, now), rs[n], r);
      }
    }
  }

  ghost predicate Unreported(ws: seq<Wait>, xs: seq<Ready>) {
    forall i :: 0 <= i < |xs| && xs[i].Descriptor? ==> !OnList(ws, xs[i].fd)
  }

  /** A batch that reports none of its descriptors leaves a waiting request alone. */
  lemma {:induction false} BatchPasses(b: Board, xs: seq<Ready>, r: nat)
    requires TableSound(b.w) && r < |b.w.lists| && r !in b.queued && r !in b.unused && Unreported(b.w.lists[r], xs)
    ensures var b' := AfterBatch(b, xs);
            && TableSound(b'.w) && r !in b'.queued && r !in b'.unused && SameWaits(b.w, b'.w, r)
  {
    hide TableSound, OnList, Forget;
    if xs != [] {
      var n := |xs| - 1;
      BatchPasses(b, xs[..n], r);
      var b1, x := AfterBatch(b, xs[..n]), xs[n];
      if x.Descriptor? && x.fd in b1.w.table {
        Listed(b1.w, x.fd);
        ForgetKeeps(b1.w, b1.w.table[x.fd], r);
        ForgetFacts(b1.w, b1.w.table[x.fd]);
      }
    }
  }

  lemma Listed(w: Waits, fd: int)
    requires TableSound(w) && fd in w.table
    ensures w.table[fd] < |w.lists| && OnList(w.lists[w.table[fd]], fd)
  {
  }

  lemma {:induction false} ForgetAllSound(w: Waits, rs: seq<nat>)
    requires TableSound(w)
    ensures TableSound(ForgetAll(w, rs))
  {
    hide TableSound, Forget;
    if rs != [] {
      var n := |rs| - 1;
      ForgetAllSound(w, rs[..n]);
      var b := ForgetAll(w, rs[..n]);
      if rs[n] < |b.lists| {
        ForgetFacts(b, rs[n]);
      }
    }
  }

  /** In a round that reports none of its descriptors, a waiting request runs exactly if its timer is found run out; else it goes
      on waiting for the same. */
  lemma RoundPasses(b: Board, expired: seq<nat>, xs: seq<Ready>, turns: nat -> Turn, later: int, r: nat)
    requires TableSound(b.w) && Settled(b.w, b.queued, b.unused) && r < |b.w.lists| && !Idle(b.w, r)
    requires Unreported(b.w.lists[r], xs)
    ensures var ran := AfterBatch(AfterExpiry(b, expired), xs).queued;
            && (r !in expired ==> r !in ran && SameWaits(b.w, AfterTurns(AfterBatch(AfterExpiry(b, expired), xs).w, ran, turns, later), r))
            && (r in expired ==> r in ran)
  {
    hide TableSound, Idle, ForgetAll, AfterBatch, AfterTurns, Unreported;
    var b1 := AfterExpiry(b, expired);
    if r in expired {
      StillQueued(b1, xs, r);
    } else {
      ForgetAllKeeps(b.w, expired, r);
      ForgetAllSound(b.w, expired);
      BatchPasses(b1, xs, r);
      TurnsKeep(AfterBatch(b1, xs).w, AfterBatch(b1, xs).queued, turns, later, r);
    }
  }

  lemma {:induction false} StillQueued(b: Board, xs: seq<Ready>, r: nat)
    requires r in b.queued
    ensures r in AfterBatch(b, xs).queued
  {
    hide Forget;
    if xs != [] {
      StillQueued(b, xs[..|xs| - 1], r);
    }
  }

  // ----- any number of rounds

  datatype RoundInput = RoundInput(now: int, xs: seq<Ready>, later: int, turns: nat -> Turn)

  /** The request has run in none of these rounds. */
  ghost predicate Alone(ran: seq<seq<nat>>, r: nat) {
    forall i :: 0 <= i < |ran| ==> r !in ran[i]
  }

  /** It runs only when its deadline has come, as timed out, and it does run if the round then had no event. */
  ghost predicate Punctual(w: Waits, input: RoundInput, expired: seq<nat>, ran: seq<nat>, r: nat) {
    && (r in ran ==> r in expired && r in w.timers && w.timers[r] <= input.later)
    && (input.xs == [] && r in w.timers && w.timers[r] <= input.later ==> r in expired && r in ran)
  }

  /** Rounds that report none of its descriptors, with a waiting request. Until it runs, it keeps waiting for the same; it runs
      only when its deadline has come, and no later than in the first round from then on that has no event. */
  method RunRounds(loop: Loop, inputs: seq<RoundInput>, ghost r: nat) returns (ghost ran: seq<seq<nat>>, ghost expired: seq<seq<nat>>)
    requires loop.Valid() && r < |loop.w.lists| && !Idle(loop.w, r)
    requires forall i :: 0 <= i < |inputs| ==> inputs[i].now <= inputs[i].later && Unreported(loop.w.lists[r], inputs[i].xs)
    modifies loop, loop.queue, loop.queue.nodes
    ensures loop.Valid() && |ran| == |expired| == |inputs|
    ensures Alone(ran, r) ==> SameWaits(old(loop.w), loop.w, r)
    ensures forall i :: 0 <= i < |inputs| && Alone(ran[..i], r) ==> Punctual(old(loop.w), inputs[i], expired[i], ran[i], r)
  {
    hide SameWaits, Unreported, Idle, Punctual, TableSound, TableComplete, Settled, Accounted, AreExpired, AfterBatch, AfterTurns;
    hide Kept, Ended, Distinct, PassUnclaimed, Woken;
    ran, expired := [], [];
    ghost var w := loop.w;
    StillTheSame(w, r);
    for k := 0 to |inputs|
      invariant loop.Valid() && |ran| == |expired| == k
      invariant forall i :: 0 <= i < |loop.queue.nodes| ==> loop.queue.nodes[i] in old(loop.queue.nodes) || fresh(loop.queue.nodes[i])
      invariant Alone(ran, r) ==> SameWaits(w, loop.w, r)
      invariant forall i :: 0 <= i < k && Alone(ran[..i], r) ==> Punctual(w, inputs[i], expired[i], ran[i], r)
    {
      ghost var b := loop.Now();
      ghost var e, now := loop.Round(inputs[k].now, inputs[k].xs, inputs[k].later, inputs[k].turns);
      if Alone(ran, r) {
        OneMoreRound(w, b, inputs[k], e, now, loop.w, r);
      }
      AloneSoFar(ran, now, r);
      assert forall i :: 0 <= i <= k ==> (ran + [now])[..i] == ran[..i];
      assert ran[..k] == ran;
      ran, expired := ran + [now], expired + [e];
    }
  }

  lemma AloneSoFar(ran: seq<seq<nat>>, now: seq<nat>, r: nat)
    ensures Alone(ran + [now], r) <==> Alone(ran, r) && r !in now
  {
    var all := ran + [now];
    assert all[|ran|] == now && forall i :: 0 <= i < |ran| ==> all[i] == ran[i];
  }

  lemma StillTheSame(w: Waits, r: nat)
    ensures SameWaits(w, w, r)
  {
  }

  lemma OneMoreRound(w: Waits, b: Board, input: RoundInput, e: seq<nat>, ran: seq<nat>, w': Waits, r: nat)
    requires SameWaits(w, b.w, r) && TableSound(b.w) && Settled(b.w, b.queued, b.unused) && r < |w.lists| && !Idle(w, r)
    requires input.now <= input.later && Unreported(w.lists[r], input.xs)
    requires AreExpired(b.w.timers, b.queued == [], input.now, input.xs == [], input.later, e)
    requires var b1 := AfterBatch(AfterExpiry(b, e), input.xs);
             ran == b1.queued && w' == AfterTurns(b1.w, ran, input.turns, input.later)
    ensures Punctual(w, input, e, ran, r) && (r !in ran ==> SameWaits(w, w', r))
  {
    hide TableSound, Settled, AfterBatch, AfterTurns, Unreported, ForgetAll;
    RoundPasses(b, e, input.xs, input.turns, input.later, r);
  }
}
