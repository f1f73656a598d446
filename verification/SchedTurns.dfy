/**
  No thread starves: whatever the lists and raises are, schedule steps of a CPU come to
  each of its threads.
 */
module SchedTurns {
  import opened Options
  import opened SchedModel
  import opened SchedOps
  import opened SchedCore
  import opened SchedRun
  import opened SchedBase
  import opened SchedNext
  import opened SchedMoves

  // ---------- the threads before another ----------

  function Ahead(l: seq<Tid>, t: Tid): seq<Tid> {
    if l == [] || l[0] == t then [] else [l[0]] + Ahead(l[1..], t)
  }

  lemma {:induction false} AheadIs(l: seq<Tid>, t: Tid)
    requires t in l
    ensures |Ahead(l, t)| < |l| && Ahead(l, t) == l[..|Ahead(l, t)|] && l[|Ahead(l, t)|] == t && t !in Ahead(l, t)
  {
    if l[0] != t {
      AheadIs(l[1..], t);
    }
  }

  lemma {:induction false} AheadAppend(l: seq<Tid>, x: Tid, t: Tid)
    requires t in l
    ensures Ahead(l + [x], t) == Ahead(l, t)
  {
    if l[0] != t {
      assert (l + [x])[1..] == l[1..] + [x];
      AheadAppend(l[1..], x, t);
    }
  }

  /** Once a thread is gone, those before another are the same or one fewer. */
  lemma {:induction false} AheadWithout(l: seq<Tid>, x: Tid, t: Tid)
    requires t in l && x != t
    ensures t in Without(l, x)
    ensures Ahead(Without(l, x), t) == Ahead(l, t) || |Ahead(Without(l, x), t)| == |Ahead(l, t)| - 1
  {
    if l[0] == x {
      assert l[1..] == Without(l, x);
    } else if l[0] != t {
      AheadWithout(l[1..], x, t);
      assert Without(l, x)[1..] == Without(l[1..], x);
    }
  }

  // ---------- what happens to a thread that waits ----------

  ghost predicate OnList(s: State, c: nat, t: Tid) {
    Shape(s) && c < |s.cpus| && t in s.threads && 0 <= s.threads[t].priority <= MAX_PRIORITY &&
    t in ListOf(s, c, s.threads[t].priority) && NoDup(ListOf(s, c, s.threads[t].priority))
  }

  lemma MineIsOn(s: State, c: nat, t: Tid, busy: Option<nat>)
    requires Inv(s, busy) && c < |s.cpus| && t in s.threads && s.threads[t].master == Some(c)
    ensures OnList(s, c, t)
  {
    assert Listed(s, t) && ListOk(s, c);
  }

  ghost function Before(s: State, c: nat, t: Tid): seq<Tid>
    requires OnList(s, c, t)
  {
    Ahead(ListOf(s, c, s.threads[t].priority), t)
  }

  /** The thread was raised, or fewer threads are before it. */
  ghost predicate Progress(s: State, s': State, c: nat, t: Tid) {
    OnList(s, c, t) && OnList(s', c, t) &&
    ((!s.threads[t].raised && s'.threads[t].raised) ||
     (s.threads[t].raised == s'.threads[t].raised && |Before(s', c, t)| < |Before(s, c, t)|))
  }

  /** The thread is where it was, behind the same threads. */
  ghost predicate Steady(s: State, s': State, c: nat, t: Tid) {
    OnList(s, c, t) && OnList(s', c, t) && s'.threads[t].raised == s.threads[t].raised &&
    s'.threads[t].priority == s.threads[t].priority && Before(s', c, t) == Before(s, c, t)
  }

  ghost predicate Waits(s: State, s': State, c: nat, t: Tid) {
    Progress(s, s', c, t) || Steady(s, s', c, t)
  }

  lemma WaitsTrans(s: State, s1: State, s2: State, c: nat, t: Tid)
    requires Waits(s, s1, c, t) && Waits(s1, s2, c, t)
    ensures Waits(s, s2, c, t) && (Steady(s, s2, c, t) ==> Steady(s, s1, c, t))
  {
    hide OnList, Before;
  }

  /** The threads that a pass may still raise. */
  ghost function Unraised(s: State): set<Tid> {
    set x | x in s.threads && !s.threads[x].raised
  }

  /** The thread and those behind it on its list, and those that can still come there. */
  ghost function Slack(s: State, c: nat, u: Tid): int
    requires OnList(s, c, u)
  {
    |ListOf(s, c, s.threads[u].priority)| - |Before(s, c, u)| + |Unraised(s)|
  }

  ghost predicate Trails(s: State, s': State, c: nat, u: Tid) {
    OnList(s, c, u) && OnList(s', c, u) && s'.threads[u].priority == s.threads[u].priority &&
    Slack(s', c, u) <= Slack(s, c, u)
  }

  /** A thread that no pass raises, whatever happens before. */
  ghost predicate Exempted(s: State, c: nat, u: Tid) {
    c < |s.cpus| && u in s.threads && (u == s.cpus[c].idle || s.threads[u].status.Running?)
  }

  lemma TrailsTrans(s: State, s1: State, s2: State, c: nat, u: Tid)
    requires Trails(s, s1, c, u) && Trails(s1, s2, c, u)
    ensures Trails(s, s2, c, u)
  {
    hide OnList, Slack;
  }

  /** A thread other than t leaves its list for the end of another. */
  lemma MoveWaits(s: State, c: nat, x: Tid, p': nat, raised: bool, t: Tid)
    requires Shape(s) && c < |s.cpus| && x in s.threads && 0 <= s.threads[x].priority <= MAX_PRIORITY && x != t
    requires p' <= MAX_PRIORITY && p' != s.threads[x].priority && OnList(s, c, t) && x !in ListOf(s, c, p')
    ensures Steady(s, Relist(s, c, x, p', raised), c, t) || Progress(s, Relist(s, c, x, p', raised), c, t)
  {
    hide Relist, Without, Ahead, NoDup;
    RelistIs(s, c, x, p', raised);
    var p := s.threads[t].priority;
    var l := ListOf(s, c, p);
    AheadWithout(l, x, t);
    AheadAppend(l, x, t);
    WithoutLemma(l, x);
    AppendNoDup(l, x);
  }

  lemma AppendNoDup(l: seq<Tid>, x: Tid)
    requires NoDup(l)
    ensures x !in l ==> NoDup(l + [x])
  {
  }

  lemma MoveTrails(s: State, c: nat, x: Tid, p': nat, u: Tid)
    requires Shape(s) && c < |s.cpus| && x in s.threads && 0 <= s.threads[x].priority <= MAX_PRIORITY && x != u
    requires p' <= MAX_PRIORITY && p' != s.threads[x].priority && OnList(s, c, u) && x !in ListOf(s, c, p')
    requires OnList(s, c, x) && !s.threads[x].raised
    ensures Trails(s, Relist(s, c, x, p', true), c, u)
  {
    hide Relist, Without, Ahead, NoDup;
    RelistIs(s, c, x, p', true);
    var s' := Relist(s, c, x, p', true);
    var l := ListOf(s, c, s.threads[u].priority);
    AheadWithout(l, x, u);
    AheadAppend(l, x, u);
    WithoutLemma(l, x);
    AppendNoDup(l, x);
    assert Unraised(s') == Unraised(s) - {x};
  }

  /** A thread that is raised is the last of the list above. */
  lemma MoveRaises(s: State, c: nat, x: Tid, p': nat)
    requires OnList(s, c, x) && !s.threads[x].raised && p' <= MAX_PRIORITY && p' != s.threads[x].priority
    requires NoDup(ListOf(s, c, p')) && x !in ListOf(s, c, p')
    ensures Progress(s, Relist(s, c, x, p', true), c, x)
  {
    RelistIs(s, c, x, p', true);
    AppendNoDup(ListOf(s, c, p'), x);
    hide Relist, Without, Ahead, NoDup;
  }

  // ---------- the passes ----------

  ghost predicate Drifts(s: State, s': State, c: nat, t: Tid, u: Tid) {
    Waits(s, s', c, t) && Trails(s, s', c, u) && (Exempted(s, c, u) ==> Exempted(s', c, u))
  }

  lemma DriftsTrans(s: State, s1: State, s2: State, c: nat, t: Tid, u: Tid)
    requires Drifts(s, s1, c, t, u) && Drifts(s1, s2, c, t, u)
    ensures Drifts(s, s2, c, t, u)
  {
    hide Waits, Trails;
    WaitsTrans(s, s1, s2, c, t);
    TrailsTrans(s, s1, s2, c, u);
  }

  /** A step that leaves lists and threads alone. */
  lemma DriftsSame(s: State, s': State, c: nat, t: Tid, u: Tid)
    requires OnList(s, c, t) && OnList(s, c, u) && Shape(s') && c < |s'.cpus| && s'.threads == s.threads
    requires s'.cpus[c].idle == s.cpus[c].idle
    requires forall p :: 0 <= p <= MAX_PRIORITY ==> ListOf(s', c, p) == ListOf(s, c, p)
    ensures Drifts(s, s', c, t, u)
  {
    hide Ahead, NoDup;
  }

  lemma OnlyThere(s: State, c: nat, x: Tid, busy: Option<nat>)
    requires Inv(s, busy) && c < |s.cpus| && x in s.threads && s.threads[x].master == Some(c)
    ensures Shape(s) && OnList(s, c, x)
    ensures forall p :: 0 <= p <= MAX_PRIORITY && p != s.threads[x].priority ==> x !in ListOf(s, c, p)
    ensures forall p :: 0 <= p <= MAX_PRIORITY ==> NoDup(ListOf(s, c, p))
  {
    MineIsOn(s, c, x, busy);
    assert ListOk(s, c);
    hide OnList, NoDup;
  }

  lemma {:induction false} RaiseDrifts(s: State, c: nat, q: nat, i: nat, busy: Option<nat>, done: State, t: Tid, u: Tid)
    requires Raising(s, c, q, i, busy, done) && OnList(s, c, t) && OnList(s, c, u) && Exempted(s, c, u)
    ensures Drifts(s, done, c, t, u)
    decreases i
  {
    hide Inv, RaiseFrom, OnList, Waits, Slack;
    ShapeOf(s, busy);
    if i > 0 && |ListOf(s, c, q)| / 4 != 0 {
      var s1 := RaisingOn(s, c, q, i, busy, done);
      RoundDrifts(s, s1, c, q, i, busy, t, u);
      DriftsOn(s, s1, c, t, u);
      RaiseDrifts(s1, c, q, i - 1, busy, done, t, u);
      DriftsTrans(s, s1, done, c, t, u);
    } else {
      RaisingEnds(s, c, q, i, busy, done);
      DriftsSame(s, s, c, t, u);
    }
  }

  lemma DriftsOn(s: State, s': State, c: nat, t: Tid, u: Tid)
    requires Drifts(s, s', c, t, u)
    ensures OnList(s, c, t) && OnList(s, c, u) && OnList(s', c, t) && OnList(s', c, u)
    ensures s'.threads[u].priority == s.threads[u].priority && (Exempted(s, c, u) ==> Exempted(s', c, u))
  {
    hide OnList, Before;
  }

  lemma RoundDrifts(s: State, s1: State, c: nat, q: nat, i: nat, busy: Option<nat>, t: Tid, u: Tid)
    requires Inv(s, busy) && c < |s.cpus| && q < MAX_PRIORITY && 0 < i <= |ListOf(s, c, q)|
    requires OnList(s, c, t) && OnList(s, c, u) && Exempted(s, c, u)
    requires var x := ListOf(s, c, q)[i - 1];
             x in s.threads && s.threads[x].priority == q &&
             s1 == if x == s.cpus[c].idle || s.threads[x].status.Running? || s.threads[x].raised then s
                   else Relist(s, c, x, q + 1, true)
    ensures Drifts(s, s1, c, t, u)
  {
    hide Inv, OnList, Relist, NoDup, Drifts;
    ShapeOf(s, busy);
    var x := ListOf(s, c, q)[i - 1];
    InTheList(s, c, q, i - 1, busy);
    OnlyThere(s, c, x, busy);
    if x == s.cpus[c].idle || s.threads[x].status.Running? || s.threads[x].raised {
      DriftsSame(s, s, c, t, u);
    } else {
      MoveDrifts(s, c, x, q + 1, t, u);
    }
  }

  lemma MoveDrifts(s: State, c: nat, x: Tid, p': nat, t: Tid, u: Tid)
    requires OnList(s, c, t) && OnList(s, c, u) && OnList(s, c, x) && x != u && !s.threads[x].raised
    requires p' <= MAX_PRIORITY && p' != s.threads[x].priority && NoDup(ListOf(s, c, p')) && x !in ListOf(s, c, p')
    ensures Drifts(s, Relist(s, c, x, p', true), c, t, u)
  {
    hide Relist, NoDup, Trails, Progress, Steady;
    MoveTrails(s, c, x, p', u);
    RelistIs(s, c, x, p', true);
    RelistCounts(s, c, x, p', true);
    if x == t {
      MoveRaises(s, c, x, p');
    } else {
      MoveWaits(s, c, x, p', true, t);
    }
  }

  lemma StarvationDrifts(s: State, c: nat, q: nat, busy: Option<nat>, t: Tid, u: Tid) returns (s': State)
    requires Inv(s, busy) && c < |s.cpus| && q < MAX_PRIORITY
    requires OnList(s, c, t) && OnList(s, c, u) && Exempted(s, c, u)
    ensures s' == Starvation(s, c, q, busy) && Inv(s', busy) && |s'.cpus| == |s.cpus| && Drifts(s, s', c, t, u)
  {
    hide Inv, RaiseFrom, OnList, Drifts;
    ShapeOf(s, busy);
    var n := s.cpus[c].lists[q].noStarvationQuantum + 1;
    s' := StarvationKeeps(s, c, q, busy);
    if n >= Quantum(q) {
      DriftsSame(s, s', c, t, u);
    } else {
      SetNoStarvationInv(s, c, q, n, busy);
      var s1 := SetNoStarvation(s, c, q, n);
      DriftsSame(s, s1, c, t, u);
      DriftsOn(s, s1, c, t, u);
      RaiseDrifts(s1, c, q, |ListOf(s, c, q)|, busy, s', t, u);
      DriftsTrans(s, s1, s', c, t, u);
    }
  }

  lemma {:induction false} PassesDrift(s: State, c: nat, q: nat, busy: Option<nat>, t: Tid, u: Tid) returns (s': State)
    requires Inv(s, busy) && c < |s.cpus| && q <= MAX_PRIORITY
    requires OnList(s, c, t) && OnList(s, c, u) && Exempted(s, c, u)
    ensures s' == StarvationFrom(s, c, q, busy) && Drifts(s, s', c, t, u)
    decreases MAX_PRIORITY - q
  {
    hide Inv, Starvation, OnList, Drifts;
    ShapeOf(s, busy);
    if q < MAX_PRIORITY {
      var s1 := StarvationDrifts(s, c, q, busy, t, u);
      DriftsOn(s, s1, c, t, u);
      s' := PassesDrift(s1, c, q + 1, busy, t, u);
      DriftsTrans(s, s1, s', c, t, u);
    } else {
      s' := s;
      DriftsSame(s, s, c, t, u);
    }
  }

  // ---------- a schedule step ----------

  /** The same lists, and every thread as raised as before. */
  ghost predicate Unmoved(s: State, s': State, c: nat) {
    Shape(s) && Shape(s') && c < |s.cpus| && c < |s'.cpus| && s'.threads.Keys == s.threads.Keys &&
    (forall p :: 0 <= p <= MAX_PRIORITY ==> ListOf(s', c, p) == ListOf(s, c, p)) &&
    (forall x :: x in s.threads ==>
       s'.threads[x].raised == s.threads[x].raised && s'.threads[x].priority == s.threads[x].priority)
  }

  lemma UnmovedStays(s: State, s': State, c: nat, t: Tid)
    requires Unmoved(s, s', c) && OnList(s, c, t)
    ensures Steady(s, s', c, t) && Trails(s, s', c, t)
  {
    hide Ahead, NoDup;
    assert Unraised(s') == Unraised(s);
  }

  lemma CarriedUnmoved(s: State, s': State, c: nat)
    requires Carried(s, s', c)
    ensures Unmoved(s, s', c)
  {
  }

  /** A thread that does not run stays where it is, or fewer threads are before it, when the
      one that runs is lowered; that one stays where it is if it is not raised. */
  lemma LowerWaits(s: State, c: nat, t: Tid) returns (s': State)
    requires Inv(s, None) && c < |s.cpus| && OnList(s, c, t)
    ensures s' == Lower(s, c, None) && Inv(s', None) && |s'.cpus| == |s.cpus|
    ensures s.cpus[c].current != Some(t) ==> Waits(s, s', c, t)
    ensures forall u :: s.cpus[c].current == Some(u) && u in s.threads && !s.threads[u].raised ==> Unmoved(s, s', c)
  {
    hide Inv, OnList, Waits, Relist;
    ShapeOf(s, None);
    CurrentKnown(s, c, None);
    s' := LowerIs(s, c, None);
    if s.cpus[c].current.Some? {
      var u := s.cpus[c].current.value;
      var s0 := SetQuantum(s, u, 0);
      assert Unmoved(s, s0, c);
      UnmovedStays(s, s0, c, t);
      if s.threads[u].raised && u != t {
        RaisedRange(s, u, None);
        SetQuantumInv(s, u, 0, None);
        CurrentOnly(s0, c);
        SteadyOn(s, s0, c, t);
        MoveWaits(s0, c, u, s.threads[u].priority - 1, false, t);
        SteadyThen(s, s0, s', c, t);
      }
      if u != t {
        IsWaits(s, s', c, t);
      }
    } else {
      UnmovedStays(s, s, c, t);
      IsWaits(s, s', c, t);
    }
  }

  lemma CurrentOnly(s: State, c: nat)
    requires Inv(s, None) && c < |s.cpus| && s.cpus[c].current.Some?
    ensures Shape(s) && s.cpus[c].current.value in s.threads && s.threads[s.cpus[c].current.value].master == Some(c)
    ensures forall p :: 0 <= p <= MAX_PRIORITY && p != s.threads[s.cpus[c].current.value].priority ==>
              s.cpus[c].current.value !in ListOf(s, c, p)
  {
    assert CurrentIsMine(s, c, None);
    OnlyThere(s, c, s.cpus[c].current.value, None);
    hide Inv;
  }

  lemma SteadyOn(s: State, s': State, c: nat, t: Tid)
    requires Steady(s, s', c, t)
    ensures OnList(s', c, t)
  {
    hide OnList;
  }

  lemma IsWaits(s: State, s': State, c: nat, t: Tid)
    requires Steady(s, s', c, t) || Progress(s, s', c, t)
    ensures Waits(s, s', c, t)
  {
  }

  lemma SteadyThen(s: State, s1: State, s2: State, c: nat, t: Tid)
    requires Steady(s, s1, c, t) && (Steady(s1, s2, c, t) || Progress(s1, s2, c, t))
    ensures Steady(s, s2, c, t) || Progress(s, s2, c, t)
  {
    hide OnList, Before;
  }

  /** A thread of CPU c that no pass raises: the one that runs, if it is marked so. */
  lemma SomeExempt(s: State, c: nat) returns (u: Tid)
    requires Inv(s, None) && c < |s.cpus|
    ensures Exempted(s, c, u) && OnList(s, c, u)
    ensures forall v :: s.cpus[c].current == Some(v) && v in s.threads && s.threads[v].status.Running? ==> u == v
  {
    assert CurrentIsMine(s, c, None) && IdleIsMine(s, c);
    hide Inv;
    u := if s.cpus[c].current.Some? && s.threads[s.cpus[c].current.value].status.Running? then s.cpus[c].current.value
         else s.cpus[c].idle;
    MineIsOn(s, c, u, None);
  }

  /** No step moves a thread that waits back, and none lets more come behind the thread that
      runs than could be raised to its list. */
  lemma PrepareWaits(s: State, c: nat, t: Tid) returns (s': State)
    requires Inv(s, None) && c < |s.cpus| && OnList(s, c, t) && s.cpus[c].current != Some(t)
    ensures s' == Prepare(s, c, None) && Waits(s, s', c, t)
    ensures forall u :: s.cpus[c].current == Some(u) && u in s.threads && s.threads[u].status.Running? && !s.threads[u].raised ==>
              Trails(s, s', c, u)
  {
    hide Inv, OnList, Waits, Trails, Lower, StarvationFrom;
    var s1 := LowerWaits(s, c, t);
    var s1' := LowerIs(s, c, None);
    WaitsOn(s, s1, c, t);
    var w := SomeExempt(s1, c);
    if |s.cpus| > 1 {
      s' := PassesDrift(s1, c, 0, None, t, w);
    } else {
      s' := s1;
      DriftsSame(s1, s1, c, t, w);
    }
    WaitsTrans(s, s1, s', c, t);
    forall u | s.cpus[c].current == Some(u) && u in s.threads && s.threads[u].status.Running? && !s.threads[u].raised
      ensures Trails(s, s', c, u)
    {
      CurrentOn(s, c);
      UnmovedStays(s, s1, c, u);
      assert w == u;
      TrailsTrans(s, s1, s', c, u);
    }
  }

  lemma CurrentOn(s: State, c: nat)
    requires Inv(s, None) && c < |s.cpus| && s.cpus[c].current.Some?
    ensures OnList(s, c, s.cpus[c].current.value)
  {
    assert CurrentIsMine(s, c, None);
    MineIsOn(s, c, s.cpus[c].current.value, None);
  }

  lemma WaitsOn(s: State, s': State, c: nat, t: Tid)
    requires Waits(s, s', c, t)
    ensures OnList(s, c, t) && OnList(s', c, t)
  {
    hide OnList, Before;
  }

  lemma ScheduleWaits(s: State, c: nat, t: Tid) returns (s': State)
    requires Inv(s, None) && c < |s.cpus| && OnList(s, c, t) && s.cpus[c].current != Some(t)
    ensures s' == DoSchedule(s, c, None) && Inv(s', None) && |s'.cpus| == |s.cpus| && Waits(s, s', c, t)
    ensures forall u :: s.cpus[c].current == Some(u) && u in s.threads && s.threads[u].status.Running? && !s.threads[u].raised ==>
              Trails(s, s', c, u)
  {
    hide Inv, OnList, Waits, Trails, Prepare, DoSchedule, Carried, Unmoved;
    var s1 := PrepareWaits(s, c, t);
    var s2;
    s2, s' := ScheduleCarries(s, c, None);
    ScheduleInv(s, c, None);
    CpusStay(s, c);
    CarriedUnmoved(s1, s', c);
    WaitsOn(s, s1, c, t);
    UnmovedStays(s1, s', c, t);
    IsWaits(s1, s', c, t);
    WaitsTrans(s, s1, s', c, t);
    forall u | s.cpus[c].current == Some(u) && u in s.threads && s.threads[u].status.Running? && !s.threads[u].raised
      ensures Trails(s, s', c, u)
    {
      TrailsOn(s, s1, c, u);
      UnmovedStays(s1, s', c, u);
      TrailsTrans(s, s1, s', c, u);
    }
  }

  lemma TrailsOn(s: State, s': State, c: nat, u: Tid)
    requires Trails(s, s', c, u)
    ensures OnList(s, c, u) && OnList(s', c, u)
  {
    hide OnList, Slack;
  }

  lemma CpusStay(s: State, c: nat)
    requires Inv(s, None) && c < |s.cpus|
    ensures |DoSchedule(s, c, None).cpus| == |s.cpus|
  {
    ScheduleOutside(s, c, None);
  }

  // ---------- runs of schedule steps ----------

  /** The state after n schedule steps of CPU c. */
  ghost function Steps(s: State, c: nat, n: nat): (t: State)
    requires Inv(s, None) && c < |s.cpus|
    ensures Inv(t, None) && |t.cpus| == |s.cpus|
    decreases n
  {
    if n == 0 then s
    else
      ScheduleInv(s, c, None);
      ScheduleOutside(s, c, None);
      Steps(DoSchedule(s, c, None), c, n - 1)
  }

  lemma {:induction false} StepsAdd(s: State, c: nat, m: nat, n: nat)
    requires Inv(s, None) && c < |s.cpus|
    ensures Steps(s, c, m + n) == Steps(Steps(s, c, m), c, n)
    decreases m
  {
    hide Inv, DoSchedule;
    if m > 0 {
      ScheduleInv(s, c, None);
      ScheduleOutside(s, c, None);
      StepsAdd(DoSchedule(s, c, None), c, m - 1, n);
    }
  }

  /** Within n steps the thread runs, or is closer to it. */
  ghost predicate Gets(s: State, c: nat, t: Tid, n: nat)
    requires Inv(s, None) && c < |s.cpus|
  {
    Steps(s, c, n).cpus[c].current == Some(t) || Progress(s, Steps(s, c, n), c, t)
  }

  lemma GetsLater(s: State, s1: State, c: nat, t: Tid, m: nat, n: nat)
    requires Inv(s, None) && c < |s.cpus| && Steps(s, c, m) == s1 && Steady(s, s1, c, t) && Gets(s1, c, t, n)
    ensures Gets(s, c, t, m + n)
  {
    hide Inv, Steady, Progress, Steps;
    StepsAdd(s, c, m, n);
    if Progress(s1, Steps(s1, c, n), c, t) {
      SteadyThen(s, s1, Steps(s1, c, n), c, t);
      ProgressLater(s, s1, Steps(s1, c, n), c, t);
    }
  }

  lemma ProgressLater(s: State, s1: State, s2: State, c: nat, t: Tid)
    requires Steady(s, s1, c, t) && Progress(s1, s2, c, t)
    ensures Progress(s, s2, c, t)
  {
    hide OnList, Before;
  }

  lemma OneStep(s: State, c: nat)
    requires Inv(s, None) && c < |s.cpus|
    ensures Steps(s, c, 1) == DoSchedule(s, c, None)
  {
    hide Inv, DoSchedule;
    ScheduleInv(s, c, None);
    CpusStay(s, c);
    assert Steps(DoSchedule(s, c, None), c, 0) == DoSchedule(s, c, None);
  }

  /** The step from s to s' begins a search: there is nothing behind the thread that ran. */
  ghost predicate Searches(s: State, s': State, c: nat) {
    c < |s.cpus| && c < |s'.cpus| && Shape(s') &&
    (s.cpus[c].current.Some? ==> NothingBehind(s', c, s.cpus[c].current.value))
  }

  /** What is left of a walk along the lists: the list it is on, and what can be behind the
      thread that runs. */
  ghost predicate Shorter(s: State, s': State, c: nat) {
    c < |s.cpus| && c < |s'.cpus| && s.cpus[c].current.Some? && s'.cpus[c].current.Some? &&
    var u, v := s.cpus[c].current.value, s'.cpus[c].current.value;
    OnList(s, c, u) && OnList(s', c, v) && s'.threads[v].status.Running? &&
    (s'.threads[v].priority < s.threads[u].priority ||
     (s'.threads[v].priority == s.threads[u].priority && Slack(s', c, v) < Slack(s, c, u)))
  }

  /** If no search begins, the thread right behind is next, and a walk comes closer to its
      end. */
  lemma WalkStep(s: State, s': State, c: nat, t: Tid)
    requires Inv(s, None) && c < |s.cpus| && OnList(s, c, t) && s.cpus[c].current != Some(t)
    requires s' == DoSchedule(s, c, None) && !Searches(s, s', c)
    ensures SameClock(s, s', c) && s'.cpus[c].current.Some? && CurrentRuns(s', c)
    ensures CurrentRuns(s, c) ==> Shorter(s, s', c)
  {
    hide Inv, DoSchedule, Trails, Waits, OnList, Slack;
    var s1 := ScheduleWaits(s, c, t);
    ShapeOf(s', None);
    var u := s.cpus[c].current.value;
    CurrentKnown(s, c, None);
    var p: nat, i: nat :| p <= MAX_PRIORITY && i < |ListOf(s', c, p)| && ListOf(s', c, p)[i] == u && i + 1 != |ListOf(s', c, p)|;
    var s2 := NextOnList(s, c, None, p, i);
    NextSlack(s', c, p, i);
    ScheduledThread(s, c, None);
    CurrentOn(s, c);
    if CurrentRuns(s, c) {
      if s.threads[u].raised {
        LoweredTo(s, c);
      } else {
        TrailsSlack(s, s', c, u);
      }
    }
  }

  ghost predicate CurrentRuns(s: State, c: nat) {
    c < |s.cpus| && s.cpus[c].current.Some? && s.cpus[c].current.value in s.threads &&
    s.threads[s.cpus[c].current.value].status.Running?
  }

  lemma LoweredTo(s: State, c: nat)
    requires Inv(s, None) && c < |s.cpus| && CurrentRuns(s, c) && s.threads[s.cpus[c].current.value].raised
    ensures var u := s.cpus[c].current.value;
            u in DoSchedule(s, c, None).threads && DoSchedule(s, c, None).threads[u].priority == s.threads[u].priority - 1
  {
    hide Inv, DoSchedule, Relieved;
    ScheduleStarves(s, c, 0, None);
  }

  lemma TrailsSlack(s: State, s': State, c: nat, u: Tid)
    requires Trails(s, s', c, u)
    ensures OnList(s, c, u) && OnList(s', c, u) && s'.threads[u].priority == s.threads[u].priority
    ensures Slack(s', c, u) <= Slack(s, c, u)
  {
    hide OnList, Slack;
  }

  lemma NextSlack(s: State, c: nat, p: nat, i: nat)
    requires Inv(s, None) && c < |s.cpus| && p <= MAX_PRIORITY && Shape(s) && i + 1 < |ListOf(s, c, p)|
    ensures var u, v := ListOf(s, c, p)[i], ListOf(s, c, p)[i + 1];
            u != v && OnList(s, c, u) && OnList(s, c, v) && s.threads[u].priority == p && s.threads[v].priority == p &&
            Slack(s, c, v) == Slack(s, c, u) - 1 && Slack(s, c, v) >= 0
  {
    hide Inv, Ahead, Unraised;
    var l := ListOf(s, c, p);
    InTheList(s, c, p, i, None);
    InTheList(s, c, p, i + 1, None);
    MineIsOn(s, c, l[i], None);
    MineIsOn(s, c, l[i + 1], None);
    AheadIs(l, l[i]);
    AheadIs(l, l[i + 1]);
  }

  // ---------- a search comes ----------

  /** The state after n steps, from which a search begins, with t still where it was. */
  ghost predicate AtSearch(s: State, c: nat, t: Tid, n: nat, last: State)
    requires Inv(s, None) && c < |s.cpus|
  {
    last == Steps(s, c, n) && Steady(s, last, c, t) && last.cpus[c].current != Some(t) &&
    Searches(last, DoSchedule(last, c, None), c)
  }

  lemma AtSearchLater(s: State, s1: State, c: nat, t: Tid, m: nat, n: nat, last: State)
    requires Inv(s, None) && c < |s.cpus| && Steps(s, c, m) == s1 && Steady(s, s1, c, t) && AtSearch(s1, c, t, n, last)
    ensures AtSearch(s, c, t, m + n, last)
  {
    hide Inv, Progress, Steps, Searches, DoSchedule, OnList, Before;
    StepsAdd(s, c, m, n);
  }

  /** What a walk along the lists comes to: a search, with the CPU at the same list. */
  lemma {:induction false} WalkEnds(s: State, c: nat, t: Tid) returns (n: nat, last: State)
    requires Inv(s, None) && c < |s.cpus| && OnList(s, c, t) && s.cpus[c].current != Some(t) && CurrentRuns(s, c)
    requires OnList(s, c, s.cpus[c].current.value)
    ensures Gets(s, c, t, n) || (AtSearch(s, c, t, n, last) && SameClock(s, last, c))
    decreases s.threads[s.cpus[c].current.value].priority, Slack(s, c, s.cpus[c].current.value)
  {
    hide Inv, DoSchedule, Trails, OnList, Slack, Steady, Progress, Searches, Steps, SameClock;
    var s' := ScheduleWaits(s, c, t);
    OneStep(s, c);
    SlackPositive(s, c, s.cpus[c].current.value);
    if Searches(s, s', c) {
      n, last := 0, s;
      AtOnce(s, c, t);
    } else {
      WalkStep(s, s', c, t);
      n, last := 1, s';
      if Steady(s, s', c, t) && s'.cpus[c].current != Some(t) {
        SteadyOn(s, s', c, t);
        n, last := WalkEnds(s', c, t);
        if Gets(s', c, t, n) {
          GetsLater(s, s', c, t, 1, n);
        } else {
          AtSearchLater(s, s', c, t, 1, n, last);
          SameClockTrans(s, s', last, c);
        }
        n := 1 + n;
      }
    }
  }

  lemma AtOnce(s: State, c: nat, t: Tid)
    requires Inv(s, None) && c < |s.cpus| && OnList(s, c, t) && s.cpus[c].current != Some(t)
    requires Searches(s, DoSchedule(s, c, None), c)
    ensures AtSearch(s, c, t, 0, s) && SameClock(s, s, c)
  {
    ShapeOf(s, None);
    hide Inv, DoSchedule, Searches, OnList;
  }

  lemma SlackPositive(s: State, c: nat, u: Tid)
    requires OnList(s, c, u)
    ensures Slack(s, c, u) >= 0 && s.threads[u].priority >= 0
  {
    hide Unraised;
    AheadIs(ListOf(s, c, s.threads[u].priority), u);
  }

  lemma SameClockTrans(s: State, s1: State, s2: State, c: nat)
    requires SameClock(s, s1, c) && SameClock(s1, s2, c)
    ensures SameClock(s, s2, c)
  {
  }

  lemma ToSearch(s: State, c: nat, t: Tid) returns (n: nat, last: State)
    requires Inv(s, None) && c < |s.cpus| && OnList(s, c, t) && s.cpus[c].current != Some(t)
    ensures Gets(s, c, t, n) || (AtSearch(s, c, t, n, last) && SameClock(s, last, c))
  {
    hide Inv, DoSchedule, Trails, OnList, Steady, Progress, Searches, Steps, SameClock;
    var s' := ScheduleWaits(s, c, t);
    OneStep(s, c);
    if Searches(s, s', c) {
      n, last := 0, s;
      AtOnce(s, c, t);
    } else {
      WalkStep(s, s', c, t);
      n, last := 1, s';
      if Steady(s, s', c, t) && s'.cpus[c].current != Some(t) {
        SteadyOn(s, s', c, t);
        CurrentOn(s', c);
        n, last := WalkEnds(s', c, t);
        if Gets(s', c, t, n) {
          GetsLater(s, s', c, t, 1, n);
        } else {
          AtSearchLater(s, s', c, t, 1, n, last);
          SameClockTrans(s, s', last, c);
        }
        n := 1 + n;
      }
    }
  }

  // ---------- the lists take turns ----------

  /** The list a CPU is at. */
  function At(cpu: Cpu): nat {
    if cpu.currentList.Some? then cpu.currentList.value else MAX_PRIORITY
  }

  function Below(p: nat): nat {
    if p > 0 then p - 1 else MAX_PRIORITY
  }

  lemma AtSome(s: State, c: nat)
    requires Inv(s, None) && c < |s.cpus|
    ensures At(s.cpus[c]) <= MAX_PRIORITY && |s.cpus[c].lists| == MAX_PRIORITY + 1
  {
    assert ListOk(s, c);
  }

  /** A search that begins counts a turn. */
  lemma SearchStep(s: State, c: nat, t: Tid, n: nat, last: State) returns (s': State)
    requires Inv(s, None) && c < |s.cpus| && AtSearch(s, c, t, n, last)
    ensures Inv(last, None) && c < |last.cpus| && s' == DoSchedule(last, c, None) == Steps(s, c, n + 1)
    ensures Inv(s', None) && c < |s'.cpus| && Turned(last.cpus[c], s'.cpus[c]) && Waits(last, s', c, t)
    ensures Gets(s, c, t, n + 1) ||
            (Steady(s, s', c, t) && s'.cpus[c].current != Some(t) && OnList(s', c, t))
    ensures s'.cpus[c].current.Some? && s'.cpus[c].currentList.Some? && s'.cpus[c].currentList.value <= MAX_PRIORITY
    ensures FirstWaiting(last, s', c, s'.cpus[c].currentList.value, s'.cpus[c].current.value)
  {
    hide Inv, DoSchedule, Trails, OnList, Steady, Progress, Steps, Turned, FirstWaiting, NothingBehind;
    SteadyOn(s, last, c, t);
    s' := ScheduleWaits(last, c, t);
    var s1 := NextBySearch(last, c, None);
    OneStep(last, c);
    StepsAdd(s, c, n, 1);
    if Progress(last, s', c, t) {
      ProgressLater(s, last, s', c, t);
    } else {
      SteadyTrans(s, last, s', c, t);
      SteadyOn(last, s', c, t);
    }
  }

  lemma SteadyTrans(s: State, s1: State, s2: State, c: nat, t: Tid)
    requires Steady(s, s1, c, t) && Steady(s1, s2, c, t)
    ensures Steady(s, s2, c, t)
  {
    hide OnList, Before;
  }

  /** The CPU comes to the list below the one it is at. */
  lemma {:induction false} ToListBelow(s: State, c: nat, t: Tid) returns (n: nat, last: State)
    requires Inv(s, None) && c < |s.cpus| && OnList(s, c, t) && s.cpus[c].current != Some(t)
    requires At(s.cpus[c]) <= MAX_PRIORITY && |s.cpus[c].lists| == MAX_PRIORITY + 1
    ensures Gets(s, c, t, n) ||
            (AtSearch(s, c, t, n, last) && DoSchedule(last, c, None).cpus[c].currentList == Some(Below(At(s.cpus[c]))))
    decreases Quantum(At(s.cpus[c])) - s.cpus[c].lists[At(s.cpus[c])].quantum
  {
    hide Inv, DoSchedule, OnList, Steady, Steps, FirstWaiting, Quantum, Gets, AtSearch, Waits;
    n, last := ToSearch(s, c, t);
    if !Gets(s, c, t, n) {
      var s' := SearchStep(s, c, t, n, last);
      if s.cpus[c].lists[At(s.cpus[c])].quantum + 1 < Quantum(At(s.cpus[c])) {
        if !Gets(s, c, t, n + 1) {
          var m;
          m, last := ToListBelow(s', c, t);
          if Gets(s', c, t, m) {
            GetsLater(s, s', c, t, n + 1, m);
          } else {
            AtSearchLater(s, s', c, t, n + 1, m, last);
          }
          n := n + m;
        }
        n := n + 1;
      }
    }
  }

  /** The CPU comes to any list. */
  lemma {:induction false} ToList(s: State, c: nat, t: Tid, p: nat) returns (n: nat, last: State)
    requires Inv(s, None) && c < |s.cpus| && OnList(s, c, t) && s.cpus[c].current != Some(t)
    requires At(s.cpus[c]) <= MAX_PRIORITY && p <= MAX_PRIORITY && |s.cpus[c].lists| == MAX_PRIORITY + 1
    ensures Gets(s, c, t, n) || (AtSearch(s, c, t, n, last) && DoSchedule(last, c, None).cpus[c].currentList == Some(p))
    decreases (Below(At(s.cpus[c])) + 5 - p) % 5
  {
    hide Inv, DoSchedule, OnList, Steady, Steps, FirstWaiting, Turned, Gets, AtSearch, Waits;
    n, last := ToListBelow(s, c, t);
    if !Gets(s, c, t, n) && Below(At(s.cpus[c])) != p {
      var s' := SearchStep(s, c, t, n, last);
      if !Gets(s, c, t, n + 1) {
        AtSome(s', c);
        var m;
        m, last := ToList(s', c, t, p);
        if Gets(s', c, t, m) {
          GetsLater(s, s', c, t, n + 1, m);
        } else {
          AtSearchLater(s, s', c, t, n + 1, m, last);
        }
        n := n + m;
      }
      n := n + 1;
    }
  }

  // ---------- every thread gets its turn ----------

  /** The threads before one run one after the other, until it is its turn. */
  lemma {:induction false} WalkTo(s: State, c: nat, t: Tid, i: nat) returns (n: nat)
    requires Inv(s, None) && c < |s.cpus| && OnList(s, c, t) && i < |Before(s, c, t)|
    requires s.cpus[c].current == Some(Before(s, c, t)[i])
    ensures Gets(s, c, t, n)
    decreases |Before(s, c, t)| - i
  {
    hide Inv, DoSchedule, Trails, Progress, Steps, Ahead, NoDup;
    var p := s.threads[t].priority;
    AheadIs(ListOf(s, c, p), t);
    var s' := ScheduleWaits(s, c, t);
    OneStep(s, c);
    n := 1;
    if Steady(s, s', c, t) {
      AheadIs(ListOf(s', c, p), t);
      var s1 := NextOnList(s, c, None, p, i);
      if i + 1 < |Before(s, c, t)| {
        var m := WalkTo(s', c, t, i + 1);
        GetsLater(s, s', c, t, 1, m);
        n := 1 + m;
      }
    }
  }

  lemma NotRunning(s: State, c: nat, t: Tid)
    requires Inv(s, None) && c < |s.cpus| && OnList(s, c, t) && s.cpus[c].current != Some(t)
    ensures t in s.threads && s.threads[t].master == Some(c) && !s.threads[t].status.Running?
  {
    assert RunningIsCurrent(s, t);
  }

  /** A search at the thread's own list comes to it, or to a thread before it. */
  lemma FoundAt(was: State, s: State, c: nat, t: Tid, v: Tid) returns (i: nat)
    requires OnList(s, c, t) && t in was.threads && !was.threads[t].status.Running? && v != t
    requires FirstWaiting(was, s, c, s.threads[t].priority, v)
    ensures i < |Before(s, c, t)| && Before(s, c, t)[i] == v
  {
    hide Ahead, NoDup;
    var p := s.threads[t].priority;
    var l := ListOf(s, c, p);
    AheadIs(l, t);
    assert !AllRunning(was, l);
    var q: nat, k: nat :| FirstAt(was, s, c, p, v, q, k);
    assert q == p;
    i := k;
    NotAmong(was, l, k, |Before(s, c, t)|);
  }

  lemma NotAmong(was: State, l: seq<Tid>, i: nat, k: nat)
    requires i < |l| && k < |l| && AllRunning(was, l[..i]) && l[k] in was.threads && !was.threads[l[k]].status.Running?
    ensures i <= k
  {
    AmongFirst(l, i, k);
  }

  lemma AmongFirst(l: seq<Tid>, i: nat, k: nat)
    requires i < |l| && k < |l|
    ensures k < i ==> l[k] in l[..i]
  {
  }

  lemma TurnComes(s: State, c: nat, t: Tid, n: nat, last: State) returns (m: nat)
    requires Inv(s, None) && c < |s.cpus| && OnList(s, c, t) && AtSearch(s, c, t, n, last)
    requires DoSchedule(last, c, None).cpus[c].currentList == Some(s.threads[t].priority)
    ensures Gets(s, c, t, m)
  {
    hide Inv, DoSchedule, OnList, Steps, FirstWaiting, Turned, Gets, Before, Waits, Searches;
    m := n + 1;
    var s' := SearchStep(s, c, t, n, last);
    if !Gets(s, c, t, m) {
      NotRunning(last, c, t);
      var i := FoundAt(last, s', c, t, s'.cpus[c].current.value);
      var k := WalkTo(s', c, t, i);
      GetsLater(s, s', c, t, m, k);
      m := m + k;
    }
  }

  lemma Closer(s: State, c: nat, t: Tid) returns (n: nat)
    requires Inv(s, None) && c < |s.cpus| && OnList(s, c, t)
    ensures Gets(s, c, t, n)
  {
    hide Inv, DoSchedule, AtSearch, Progress;
    n := 0;
    if s.cpus[c].current != Some(t) {
      AtSome(s, c);
      var p := s.threads[t].priority;
      var last;
      n, last := ToList(s, c, t, p);
      if !Gets(s, c, t, n) {
        n := TurnComes(s, c, t, n, last);
      }
    }
  }

  /** From every state, schedule steps of a CPU make each of its threads the current one. */
  lemma {:induction false} EveryTurn(s: State, c: nat, t: Tid) returns (n: nat)
    requires Inv(s, None) && c < |s.cpus| && t in s.threads && s.threads[t].master == Some(c)
    ensures Steps(s, c, n).cpus[c].current == Some(t)
    decreases if s.threads[t].raised then 0 else 1, Ranked(s, c, t)
  {
    hide Inv, DoSchedule, Steps, OnList, Before;
    MineIsOn(s, c, t, None);
    n := Closer(s, c, t);
    if Steps(s, c, n).cpus[c].current != Some(t) {
      var s1 := Steps(s, c, n);
      OnIsMine(s1, c, t);
      RankIs(s, c, t);
      RankIs(s1, c, t);
      var m := EveryTurn(s1, c, t);
      StepsAdd(s, c, n, m);
      n := n + m;
    }
  }

  ghost function Ranked(s: State, c: nat, t: Tid): nat {
    if OnList(s, c, t) then |Before(s, c, t)| else 0
  }

  lemma RankIs(s: State, c: nat, t: Tid)
    requires OnList(s, c, t)
    ensures Ranked(s, c, t) == |Before(s, c, t)|
  {
  }

  lemma OnIsMine(s: State, c: nat, t: Tid)
    requires Inv(s, None) && c < |s.cpus| && OnList(s, c, t)
    ensures t in s.threads && s.threads[t].master == Some(c)
  {
  }

  // ---------- after every run ----------

  function Again(c: nat, n: nat): seq<Step> {
    if n == 0 then [] else [Schedule(c)] + Again(c, n - 1)
  }

  lemma {:induction false} AgainSteps(s: State, c: nat, n: nat)
    requires Inv(s, None) && c < |s.cpus|
    ensures ExecAll(s, Again(c, n)) == Some(Steps(s, c, n))
    decreases n
  {
    hide Inv, DoSchedule;
    if n > 0 {
      ScheduleInv(s, c, None);
      CpusStay(s, c);
      AgainSteps(DoSchedule(s, c, None), c, n - 1);
      assert Again(c, n)[1..] == Again(c, n - 1);
    }
  }

  lemma {:induction false} ExecAppend(s: State, a: seq<Step>, b: seq<Step>)
    requires Inv(s, None) && ExecAll(s, a).Some?
    ensures ExecAll(s, a + b) == ExecAll(ExecAll(s, a).value, b)
    decreases |a|
  {
    hide Inv, Exec;
    if a == [] {
      assert a + b == b;
    } else {
      assert (a + b)[1..] == a[1..] + b;
      ExecAppend(Exec(s, a[0]), a[1..], b);
    }
  }

  /** After every run on any number of CPUs, a thread that belongs to a CPU becomes the current
      one there if the CPU only schedules often enough. */
  lemma NoneStarves(n: nat, steps: seq<Step>, c: nat, t: Tid) returns (k: nat)
    requires Inv(Start(n), None) && ExecAll(Start(n), steps).Some?
    requires var s := ExecAll(Start(n), steps).value; c < |s.cpus| && t in s.threads && s.threads[t].master == Some(c)
    ensures var r := ExecAll(Start(n), steps + Again(c, k));
            r.Some? && c < |r.value.cpus| && r.value.cpus[c].current == Some(t)
  {
    hide Inv, ExecAll, Steps;
    var s := ExecAll(Start(n), steps).value;
    k := EveryTurn(s, c, t);
    AgainSteps(s, c, k);
    ExecAppend(Start(n), steps, Again(c, k));
  }
}
