/** What the async requests of a worker wait for: the list of descriptors of each request, the table that leads from a
    descriptor back to the request, and the timers. Requests are the numbers of their cores. A request's timer and its
    entry in the ordered tree of timers are one thing here. */
module AsyncWaits {
  import opened EventQueue

  datatype Wait = Wait(fd: int, interest: Interest)

  datatype Waits = Waits(lists: seq<seq<Wait>>, table: map<int, nat>, timers: map<nat, int>)

  ghost predicate OnList(ws: seq<Wait>, fd: int) {
    exists i :: 0 <= i < |ws| && ws[i].fd == fd
  }

  /** Every table entry leads to a request that has the descriptor on its list. */
  ghost predicate TableSound(w: Waits) {
    && (forall fd :: fd in w.table ==> w.table[fd] < |w.lists| && OnList(w.lists[w.table[fd]], fd))
    && (forall r :: r in w.timers ==> r < |w.lists|)
  }

  /** Every descriptor on a list leads back to the list's request. */
  ghost predicate TableComplete(w: Waits) {
    forall r, fd {:trigger OnList(w.lists[r], fd)} ::
      0 <= r < |w.lists| && OnList(w.lists[r], fd) ==> fd in w.table && w.table[fd] == r
  }

  ghost predicate Idle(w: Waits, r: nat) {
    r < |w.lists| && w.lists[r] == [] && r !in w.timers
  }

  predicate Waiting(w: Waits, r: nat)
    requires r < |w.lists|
  {
    w.lists[r] != [] || r in w.timers
  }

  /** A descriptor another request waits for. */
  ghost predicate Claimed(w: Waits, r: nat, fd: int) {
    fd in w.table && w.table[fd] != r
  }

  /** The waits of all requests but one are as before. */
  ghost predicate OthersKeep(w: Waits, w': Waits, r: nat) {
    && |w'.lists| == |w.lists|
    && (forall q :: 0 <= q < |w.lists| && q != r ==> w'.lists[q] == w.lists[q])
    && (forall q :: q != r ==> (q in w'.timers <==> q in w.timers))
    && (forall q :: q != r && q in w.timers ==> w'.timers[q] == w.timers[q])
  }

  // ----- timers

  ghost function Timed(w: Waits, r: nat, timeout: int, now: int): Waits {
    if timeout > 0 && r !in w.timers then w.(timers := w.timers[r := now + timeout]) else w
  }

  method AddTimeout(w: Waits, r: nat, timeout: int, now: int) returns (w': Waits)
    ensures w' == Timed(w, r, timeout, now)
  {
    w' := w;
    if timeout > 0 && r !in w.timers {
      w' := w.(timers := w.timers[r := now + timeout]);
    }
  }

  lemma TimedFacts(w: Waits, r: nat, timeout: int, now: int)
    requires r < |w.lists| && TableSound(w)
    ensures var w' := Timed(w, r, timeout, now);
            TableSound(w') && OthersKeep(w, w', r) && (TableComplete(w') <==> TableComplete(w))
  {
  }

  // ----- waiting for a descriptor

  /** The waits once a descriptor has joined the end of a request's list. */
  ghost function Joined(w: Waits, r: nat, x: Wait): Waits
    requires r < |w.lists|
  {
    w.(lists := w.lists[r := w.lists[r] + [x]], table := w.table[x.fd := r])
  }

  /** A descriptor joins the end of a request's list; the table is complete after it just when nobody else claims it. */
  method AddFd(w: Waits, r: nat, fd: int, interest: Interest, timeout: int, now: int) returns (w': Waits, added: bool)
    requires r < |w.lists| && TableSound(w)
    ensures added <==> fd >= 0
    ensures w' == if added then Joined(Timed(w, r, timeout, now), r, Wait(fd, interest)) else w
    ensures added ==>
              && w'.lists == w.lists[r := w.lists[r] + [Wait(fd, interest)]] && w'.table == w.table[fd := r]
              && w'.timers == if r !in w.timers && timeout > 0 then w.timers[r := now + timeout] else w.timers
    ensures TableSound(w') && OthersKeep(w, w', r)
    ensures added && TableComplete(w) ==> (TableComplete(w') <==> !Claimed(w, r, fd))
  {
    if fd < 0 {
      return w, false;
    }
    var l := w.(lists := w.lists[r := w.lists[r] + [Wait(fd, interest)]]);
    if timeout > 0 {
      l := AddTimeout(l, r, timeout, now);
    }
    w' := l.(table := l.table[fd := r]);
    added := true;
    TimedFacts(w, r, timeout, now);
    JoinedFacts(Timed(w, r, timeout, now), r, Wait(fd, interest));
  }

  lemma Grown(ws: seq<Wait>, x: Wait, fd: int)
    ensures OnList(ws + [x], fd) <==> OnList(ws, fd) || x.fd == fd
  {
    if OnList(ws, fd) {
      var i :| 0 <= i < |ws| && ws[i].fd == fd;
      assert (ws + [x])[i].fd == fd;
    }
    assert (ws + [x])[|ws|] == x;
  }

  lemma JoinedFacts(w: Waits, r: nat, x: Wait)
    requires r < |w.lists| && TableSound(w)
    ensures TableSound(Joined(w, r, x)) && OthersKeep(w, Joined(w, r, x), r)
    ensures TableComplete(w) ==> (TableComplete(Joined(w, r, x)) <==> !Claimed(w, r, x.fd))
  {
    hide OnList;
    var w' := Joined(w, r, x);
    forall f ensures OnList(w'.lists[r], f) <==> OnList(w.lists[r], f) || f == x.fd {
      Grown(w.lists[r], x, f);
    }
    if Claimed(w, r, x.fd) {
      assert OnList(w'.lists[w.table[x.fd]], x.fd);
    }
  }

  // ----- waiting no more

  /** The waits once a request waits for nothing: the table forgets the descriptors on its list. */
  ghost function Forget(w: Waits, r: nat): (w': Waits)
    requires r < |w.lists|
    ensures |w'.lists| == |w.lists|
  {
    Waits(w.lists[r := []], w.table - Descriptors(w.lists[r]), w.timers - {r})
  }

  ghost function Descriptors(ws: seq<Wait>): set<int> {
    set i | 0 <= i < |ws| :: ws[i].fd
  }

  method Reset(w: Waits, r: nat) returns (w': Waits)
    requires r < |w.lists|
    ensures w' == Forget(w, r)
  {
    var timers := w.timers;
    if r in timers {
      timers := timers - {r};
    }
    var table := w.table;
    var list := w.lists[r];
    for i := 0 to |list|
      invariant table == w.table - Descriptors(list[..i])
    {
      table := table - {list[i].fd};
      assert list[..i + 1] == list[..i] + [list[i]];
      assert Descriptors(list[..i + 1]) == Descriptors(list[..i]) + {list[i].fd};
    }
    assert list[..|list|] == list;
    w' := Waits(w.lists[r := []], table, timers);
    assert timers == w.timers - {r};
  }

  /** Nobody loses anything by another's reset, as long as the table is complete. */
  lemma ForgetFacts(w: Waits, r: nat)
    requires r < |w.lists| && TableSound(w)
    ensures var w' := Forget(w, r);
            && TableSound(w') && OthersKeep(w, w', r) && Idle(w', r)
            && (TableComplete(w) ==> TableComplete(w') && SameClaims(w, w', r))
  {
    var w' := Forget(w, r);
    assert forall fd :: fd in Descriptors(w.lists[r]) <==> OnList(w.lists[r], fd);
    assert forall q, fd :: 0 <= q < |w.lists| && q != r ==> OnList(w'.lists[q], fd) == OnList(w.lists[q], fd);
    if TableComplete(w) {
      assert forall fd :: OnList(w.lists[r], fd) ==> fd in w.table && w.table[fd] == r;
    }
  }

  ghost predicate SameClaims(w: Waits, w': Waits, r: nat) {
    forall fd :: Claimed(w', r, fd) <==> Claimed(w, r, fd)
  }

  /** Resetting a request that waits for nothing changes nothing. */
  lemma ForgetIdle(w: Waits, r: nat)
    requires Idle(w, r)
    ensures Forget(w, r) == w
  {
  }

  /** A number of requests reset one after the other. */
  ghost function ForgetAll(w: Waits, rs: seq<nat>): Waits {
    if rs == [] then w else
      var before := ForgetAll(w, rs[..|rs| - 1]);
      var r := rs[|rs| - 1];
      if r < |before.lists| then Forget(before, r) else before
  }

  lemma ForgetOneMore(w: Waits, rs: seq<nat>, r: nat)
    requires r < |ForgetAll(w, rs).lists|
    ensures ForgetAll(w, rs + [r]) == Forget(ForgetAll(w, rs), r)
  {
    assert (rs + [r])[..|rs|] == rs;
  }

  lemma {:induction false} ForgetBoth(w: Waits, rs: seq<nat>, rs': seq<nat>)
    ensures ForgetAll(w, rs + rs') == ForgetAll(ForgetAll(w, rs), rs')
  {
    hide Forget;
    if rs' == [] {
      assert rs + rs' == rs;
    } else {
      var n := |rs'| - 1;
      ForgetBoth(w, rs, rs'[..n]);
      assert (rs + rs')[..|rs + rs'| - 1] == rs + rs'[..n] && (rs + rs')[|rs + rs'| - 1] == rs'[n];
    }
  }

  lemma {:induction false} StaysIdle(w: Waits, rs: seq<nat>, r: nat)
    requires Idle(w, r)
    ensures Idle(ForgetAll(w, rs), r)
  {
    if rs != [] {
      StaysIdle(w, rs[..|rs| - 1], r);
    }
  }

  /** Two requests that wait for one descriptor: once the first stops waiting, the second can no longer be found. */
  lemma LostWait(fd: int, interest: Interest)
    ensures var w := Forget(Joined(Joined(Waits([[], []], map[], map[]), 0, Wait(fd, interest)), 1, Wait(fd, interest)), 0);
            TableSound(w) && OnList(w.lists[1], fd) && fd !in w.table && !TableComplete(w)
  {
    var x := Wait(fd, interest);
    var one := Joined(Waits([[], []], map[], map[]), 0, x);
    var two := Joined(one, 1, x);
    assert two.lists[0][0].fd == fd && two.lists[1][0].fd == fd;
    assert OnList(Forget(two, 0).lists[1], fd);
  }
}
