/**
  The scheduler's operations as functions of the state, and that each keeps the
  invariant.
 */
module SchedOps {
  import opened Options
  import opened SchedModel

  datatype Outcome = Success | InvalidArgument | InvalidAffinity

  predicate BadPriority(th: Thread) {
    th.priority < 0 || th.priority > MAX_PRIORITY
  }

  // ---------- CoreH_ThreadInitialize ----------

  function DoInitialize(s: State, t: Tid, priority: int, affinity: set<nat>): (State, Outcome)
  {
    if priority < 0 || priority > MAX_PRIORITY || affinity == {} then (s, InvalidArgument)
    else (WithThread(s, t, Thread(priority, Ready, false, false, None, affinity, 0)), Success)
  }

  lemma InitializeInv(s: State, t: Tid, priority: int, affinity: set<nat>)
    requires Inv(s, None) && t !in s.threads
    ensures Inv(DoInitialize(s, t, priority, affinity).0, None)
  {
    var s' := DoInitialize(s, t, priority, affinity).0;
    if s' != s {
      Unlisted(s, s', t);
      forall c | 0 <= c < |s.cpus|
        ensures s.cpus[c].current != Some(t) && s.cpus[c].idle != t
      {
        assert CurrentIsMine(s, c, None) && IdleIsMine(s, c);
      }
      OneThreadInv(s, s', t, None, None);
    }
  }

  /** A thread on no list changes and stays off the lists. */
  lemma Unlisted(s: State, s': State, t: Tid)
    requires Inv(s, None) && t in s'.threads && s'.cpus == s.cpus && s'.readyCount == s.readyCount
    requires s'.threads == s.threads[t := s'.threads[t]] && s'.threads[t].master.None?
    requires t in s.threads ==> s.threads[t].master.None?
    ensures Shape(s') && OneThread(s, s', t) && s'.readyCount == TotalLength(s', |s'.cpus|)
  {
    assert Shape(s');
    SameTotal(s, s', |s.cpus|);
    forall c, p | 0 <= c < |s.cpus| && 0 <= p <= MAX_PRIORITY
      ensures ListOf(s', c, p) == ListOf(s, c, p) && t !in ListOf(s, c, p)
    {
    }
    forall c | 0 <= c < |s.cpus|
      ensures ListOk(s', c)
    {
      assert ListOk(s, c);
    }
  }

  // ---------- CoreH_ThreadReadyNode ----------

  /** The first CPU among the first n that t may run on whose list of t's priority is
      shortest. */
  function LeastLoaded(s: State, t: Tid, n: nat): Option<nat>
    requires t in s.threads && 0 <= s.threads[t].priority <= MAX_PRIORITY && n <= |s.cpus|
    requires forall c :: 0 <= c < |s.cpus| ==> |s.cpus[c].lists| == MAX_PRIORITY + 1
    ensures LeastLoaded(s, t, n).Some? ==> LeastLoaded(s, t, n).value < n
  {
    if n == 0 then None
    else
      var best, p := LeastLoaded(s, t, n - 1), s.threads[t].priority;
      if n - 1 in s.threads[t].affinity &&
         (best.None? || |ListOf(s, n - 1, p)| < |ListOf(s, best.value, p)|)
      then Some(n - 1) else best
  }

  lemma {:induction false} LeastLoadedLemma(s: State, t: Tid, n: nat)
    requires Shape(s) && t in s.threads && 0 <= s.threads[t].priority <= MAX_PRIORITY && n <= |s.cpus|
    ensures var best, th := LeastLoaded(s, t, n), s.threads[t];
            if best.None? then forall c :: 0 <= c < n ==> c !in th.affinity
            else
              best.value < n && best.value in th.affinity &&
              forall c :: 0 <= c < n && c in th.affinity ==>
                |ListOf(s, best.value, th.priority)| <= |ListOf(s, c, th.priority)| &&
                (c < best.value ==> |ListOf(s, best.value, th.priority)| < |ListOf(s, c, th.priority)|)
  {
    if n > 0 {
      LeastLoadedLemma(s, t, n - 1);
    }
  }

  function DoReady(s: State, t: Tid): (State, Outcome)
    requires t in s.threads && forall c :: 0 <= c < |s.cpus| ==> |s.cpus[c].lists| == MAX_PRIORITY + 1
  {
    var th := s.threads[t];
    if BadPriority(th) then (s, InvalidArgument)
    else if th.master.Some? then (s, Success)
    else
      match LeastLoaded(s, t, |s.cpus|)
      case None => (s, InvalidAffinity)
      case Some(c) => (PutOn(s, t, c), Success)
  }

  function PutOn(s: State, t: Tid, c: nat): State
    requires t in s.threads && c < |s.cpus| && |s.cpus[c].lists| == MAX_PRIORITY + 1 && !BadPriority(s.threads[t])
  {
    var th := s.threads[t];
    var s1 := WithThread(s, t, th.(master := Some(c), status := Ready)).(readyCount := s.readyCount + 1);
    WithList(s1, c, th.priority, ListOf(s, c, th.priority) + [t])
  }

  lemma PutOnInv(s: State, t: Tid, c: nat)
    requires Inv(s, None) && t in s.threads && s.threads[t].master.None? && !BadPriority(s.threads[t])
    requires c < |s.cpus| && c in s.threads[t].affinity
    ensures Inv(PutOn(s, t, c), None)
  {
    var s', p := PutOn(s, t, c), s.threads[t].priority;
    var l := ListOf(s, c, p);
    TotalUpdate(s, c, p, l + [t], |s.cpus|);
    SameTotal(WithList(s, c, p, l + [t]), s', |s.cpus|);
    PutOnOneThread(s, t, c);
    forall d | 0 <= d < |s.cpus|
      ensures s.cpus[d].current != Some(t) && s.cpus[d].idle != t
    {
      assert CurrentIsMine(s, d, None) && IdleIsMine(s, d);
    }
    OneThreadInv(s, s', t, None, None);
  }

  lemma PutOnOneThread(s: State, t: Tid, c: nat)
    requires Inv(s, None) && t in s.threads && s.threads[t].master.None? && !BadPriority(s.threads[t])
    requires c < |s.cpus|
    ensures Shape(PutOn(s, t, c)) && OneThread(s, PutOn(s, t, c), t)
  {
    var s', p := PutOn(s, t, c), s.threads[t].priority;
    assert Shape(s');
    forall d, q | 0 <= d < |s.cpus| && 0 <= q <= MAX_PRIORITY
      ensures NoDup(ListOf(s', d, q))
      ensures forall u :: u != t ==> (u in ListOf(s', d, q) <==> u in ListOf(s, d, q))
      ensures t in ListOf(s', d, q) <==> d == c && q == p
    {
      OnExactlyOneList(s, None, t, d, q);
      assert ListOk(s, d);
      AppendLemma(ListOf(s, d, q), t);
    }
    forall d | 0 <= d < |s.cpus|
      ensures ListOk(s', d)
    {
      assert ListOk(s, d);
    }
  }

  lemma ReadyInv(s: State, t: Tid)
    requires Inv(s, None) && t in s.threads
    ensures Inv(DoReady(s, t).0, None)
  {
    if !BadPriority(s.threads[t]) && s.threads[t].master.None? {
      LeastLoadedLemma(s, t, |s.cpus|);
      var best := LeastLoaded(s, t, |s.cpus|);
      if best.Some? {
        PutOnInv(s, t, best.value);
      }
    }
  }

  // ---------- CoreH_ThreadBlock, without the yield ----------

  function DoBlock(s: State, t: Tid): (State, Outcome)
    requires t in s.threads && forall c :: 0 <= c < |s.cpus| ==> |s.cpus[c].lists| == MAX_PRIORITY + 1
    requires s.threads[t].master.Some? ==> s.threads[t].master.value < |s.cpus|
    requires s.threads[t].master.Some? && !s.threads[t].status.Blocked? ==> s.readyCount > 0
  {
    var th := s.threads[t];
    if th.master.None? || BadPriority(th) then (s, InvalidArgument)
    else if th.status.Blocked? then (s, Success)
    else
      var c := th.master.value;
      var s1 := WithList(s, c, th.priority, Without(ListOf(s, c, th.priority), t));
      (WithThread(s1, t, th.(raised := false, status := Blocked, quantum := 0, master := None))
         .(readyCount := s.readyCount - 1), Success)
  }

  lemma {:induction false} ListBound(s: State, c: nat, p: nat, n: nat)
    requires Shape(s) && c < n <= |s.cpus| && p <= MAX_PRIORITY
    ensures |ListOf(s, c, p)| <= TotalLength(s, n)
  {
    if c + 1 < n {
      ListBound(s, c, p, n - 1);
    }
  }

  /** A listed thread is counted. */
  lemma ListedCounts(s: State, t: Tid, busy: Option<nat>)
    requires Inv(s, busy) && t in s.threads && s.threads[t].master.Some?
    ensures s.threads[t].master.value < |s.cpus| && s.readyCount > 0
  {
    assert Listed(s, t);
    ListBound(s, s.threads[t].master.value, s.threads[t].priority, |s.cpus|);
  }

  lemma BlockTotal(s: State, t: Tid)
    requires Inv(s, None) && t in s.threads && s.threads[t].master.Some?
    ensures s.threads[t].master.value < |s.cpus| && s.readyCount > 0
    ensures var s' := DoBlock(s, t).0;
            Shape(s') && s'.readyCount == TotalLength(s', |s'.cpus|)
  {
    ListedCounts(s, t, None);
    assert Listed(s, t);
    var s', c, p := DoBlock(s, t).0, s.threads[t].master.value, s.threads[t].priority;
    assert Shape(s');
    var l := ListOf(s, c, p);
    assert ListOk(s, c);
    WithoutLemma(l, t);
    TotalUpdate(s, c, p, Without(l, t), |s.cpus|);
    SameTotal(WithList(s, c, p, Without(l, t)), s', |s.cpus|);
  }

  lemma BlockOneThread(s: State, t: Tid)
    requires Inv(s, None) && t in s.threads && s.threads[t].master.Some?
    ensures s.threads[t].master.value < |s.cpus| && s.readyCount > 0
    ensures var s' := DoBlock(s, t).0;
            Shape(s') && OneThread(s, s', t) && s'.readyCount == TotalLength(s', |s'.cpus|) &&
            s'.threads[t] == s.threads[t].(raised := false, status := Blocked, quantum := 0, master := None)
  {
    ListedCounts(s, t, None);
    assert Listed(s, t);
    BlockTotal(s, t);
    var s', c, p := DoBlock(s, t).0, s.threads[t].master.value, s.threads[t].priority;
    assert Shape(s');
    hide TotalLength;
    forall d, q | 0 <= d < |s.cpus| && 0 <= q <= MAX_PRIORITY
      ensures NoDup(ListOf(s', d, q))
      ensures forall u :: u != t ==> (u in ListOf(s', d, q) <==> u in ListOf(s, d, q))
      ensures t !in ListOf(s', d, q)
    {
      OnExactlyOneList(s, None, t, d, q);
      assert ListOk(s, d);
      WithoutLemma(ListOf(s, d, q), t);
    }
    forall d | 0 <= d < |s.cpus|
      ensures ListOk(s', d)
    {
      assert ListOk(s, d);
    }
  }

  /** Blocking keeps the invariant, up to the CPU c that may be running the thread. */
  lemma BlockInv(s: State, t: Tid, c: nat)
    requires Inv(s, None) && t in s.threads && s.threads[t].master == Some(c)
    requires forall d :: 0 <= d < |s.cpus| ==> s.cpus[d].idle != t
    ensures c < |s.cpus| && s.readyCount > 0
    ensures Inv(DoBlock(s, t).0, Some(c))
    ensures s.cpus[c].current != Some(t) ==> Inv(DoBlock(s, t).0, None)
  {
    BlockOneThread(s, t);
    var s' := DoBlock(s, t).0;
    forall d | 0 <= d < |s.cpus| && s.cpus[d].current == Some(t)
      ensures d == c
    {
      assert CurrentIsMine(s, d, None);
    }
    OneThreadInv(s, s', t, None, Some(c));
    if s.cpus[c].current != Some(t) {
      OneThreadInv(s, s', t, None, None);
    }
  }

  // ---------- CoreH_ThreadBoostPriority ----------

  function DoBoost(s: State, t: Tid): (State, Outcome)
    requires t in s.threads && forall c :: 0 <= c < |s.cpus| ==> |s.cpus[c].lists| == MAX_PRIORITY + 1
    requires s.threads[t].master.Some? ==> s.threads[t].master.value < |s.cpus|
  {
    var th := s.threads[t];
    if BadPriority(th) || th.died || (th.master.None? && !th.status.Blocked?) then (s, InvalidArgument)
    else if th.raised || th.priority == MAX_PRIORITY then (s, Success)
    else if th.master.Some? then (Relist(s, th.master.value, t, th.priority + 1, true), Success)
    else (WithThread(s, t, th.(raised := true, priority := th.priority + 1)), Success)
  }

  lemma BoostInv(s: State, t: Tid)
    requires Inv(s, None) && t in s.threads
    ensures s.threads[t].master.Some? ==> s.threads[t].master.value < |s.cpus|
    ensures Inv(DoBoost(s, t).0, None)
  {
    assert Listed(s, t);
    var th := s.threads[t];
    var s' := DoBoost(s, t).0;
    if s' == s {
    } else if th.master.Some? {
      RelistInv(s, th.master.value, t, th.priority + 1, true, None);
    } else {
      Unlisted(s, s', t);
      SameHolder(s, s', t, None);
      OneThreadInv(s, s', t, None, None);
    }
  }
}
