/**
  Which thread a CPU runs next, told from the lists as a schedule step leaves them, and how
  long a thread goes on.
 */
module SchedNext {
  import opened Options
  import opened SchedModel
  import opened SchedOps
  import opened SchedCore
  import opened SchedRun
  import opened SchedBase
  import opened SchedFate

  /** The quantum of each priority, from idle to urgent. */
  lemma QuantumTable()
    ensures [Quantum(0), Quantum(1), Quantum(2), Quantum(3), Quantum(4)] == [2, 4, 8, 12, 12]
  {
  }

  // ---------- what the steps before the choice leave alone ----------

  /** CPU c is at the same list, with the same turns counted on each. */
  ghost predicate SameClock(s: State, s': State, c: nat) {
    c < |s.cpus| && c < |s'.cpus| && |s.cpus[c].lists| == MAX_PRIORITY + 1 && |s'.cpus[c].lists| == MAX_PRIORITY + 1 &&
    s'.cpus[c].currentList == s.cpus[c].currentList &&
    forall p :: 0 <= p <= MAX_PRIORITY ==> s'.cpus[c].lists[p].quantum == s.cpus[c].lists[p].quantum
  }

  lemma RelistClock(s: State, c: nat, t: Tid, p': nat, raised: bool)
    requires t in s.threads && c < |s.cpus| && |s.cpus[c].lists| == MAX_PRIORITY + 1
    requires 0 <= s.threads[t].priority <= MAX_PRIORITY && p' <= MAX_PRIORITY
    ensures SameClock(s, Relist(s, c, t, p', raised), c)
  {
  }

  lemma LowerClock(s: State, c: nat, busy: Option<nat>)
    requires Inv(s, busy) && c < |s.cpus|
    ensures SameClock(s, Lower(s, c, busy), c)
  {
    hide Inv, Relist;
    ShapeOf(s, busy);
    CurrentKnown(s, c, busy);
    if s.cpus[c].current.Some? {
      var t := s.cpus[c].current.value;
      if s.threads[t].raised {
        RaisedRange(s, t, busy);
        RelistClock(SetQuantum(s, t, 0), c, t, s.threads[t].priority - 1, false);
      }
    }
  }

  lemma {:induction false} RaiseClock(s: State, c: nat, p: nat, i: nat, busy: Option<nat>)
    requires Inv(s, busy) && c < |s.cpus| && p < MAX_PRIORITY && i <= |ListOf(s, c, p)|
    ensures SameClock(s, RaiseFrom(s, c, p, i, busy), c)
    decreases i
  {
    hide Inv, Relist;
    ShapeOf(s, busy);
    if i > 0 && |ListOf(s, c, p)| / 4 != 0 {
      var s1 := RaiseRound(s, c, p, i, busy);
      if s1 != s {
        RelistClock(s, c, ListOf(s, c, p)[i - 1], p + 1, true);
      }
      RaiseClock(s1, c, p, i - 1, busy);
    }
  }

  lemma StarvationClock(s: State, c: nat, p: nat, busy: Option<nat>)
    requires Inv(s, busy) && c < |s.cpus| && p < MAX_PRIORITY
    ensures SameClock(s, Starvation(s, c, p, busy), c)
  {
    hide Inv, RaiseFrom;
    ShapeOf(s, busy);
    var q := s.cpus[c].lists[p].noStarvationQuantum + 1;
    if q < Quantum(p) {
      SetNoStarvationInv(s, c, p, q, busy);
      RaiseClock(SetNoStarvation(s, c, p, q), c, p, |ListOf(s, c, p)|, busy);
    }
  }

  lemma {:induction false} StarvationFromClock(s: State, c: nat, p: nat, busy: Option<nat>)
    requires Inv(s, busy) && c < |s.cpus| && p <= MAX_PRIORITY
    ensures SameClock(s, StarvationFrom(s, c, p, busy), c)
    decreases MAX_PRIORITY - p
  {
    hide Inv, Starvation;
    ShapeOf(s, busy);
    if p < MAX_PRIORITY {
      var s1 := StarvationKeeps(s, c, p, busy);
      StarvationClock(s, c, p, busy);
      StarvationFromClock(s1, c, p + 1, busy);
    }
  }

  lemma PrepareClock(s: State, c: nat, busy: Option<nat>)
    requires Inv(s, busy) && c < |s.cpus|
    ensures SameClock(s, Prepare(s, c, busy), c)
  {
    hide Inv, StarvationFrom, Lower;
    LowerInv(s, c, busy);
    LowerClock(s, c, busy);
    if |s.cpus| > 1 {
      StarvationFromClock(Lower(s, c, busy), c, 0, busy);
    }
  }

  // ---------- the next thread ----------

  lemma SwitchKeepsLists(s: State, c: nat, t: Tid, busy: Option<nat>)
    requires Inv(s, busy) && c < |s.cpus| && t in s.threads
    ensures s.cpus[c].current.Some? ==> s.cpus[c].current.value in s.threads
    ensures var s' := Switch(s, c, t);
            Shape(s') && c < |s'.cpus| && s'.cpus[c] == s.cpus[c].(current := Some(t))
  {
    ShapeOf(s, busy);
    CurrentKnown(s, c, busy);
    hide Inv;
    SwitchLists(s, c, t);
  }

  /** The thread right behind the one that ran, if there is one, is next; nothing else of
      the CPU's clock changes. */
  lemma NextOnList(s: State, c: nat, busy: Option<nat>, p: nat, i: nat) returns (t: State)
    requires Inv(s, busy) && (busy.None? || busy == Some(c)) && c < |s.cpus|
    requires p <= MAX_PRIORITY && s.cpus[c].current.Some?
    requires var t := DoSchedule(s, c, busy);
             c < |t.cpus| && p < |t.cpus[c].lists| && i + 1 < |ListOf(t, c, p)| && ListOf(t, c, p)[i] == s.cpus[c].current.value
    ensures t == DoSchedule(s, c, busy) && Inv(t, None) && c < |t.cpus| && p < |t.cpus[c].lists| && i + 1 < |ListOf(t, c, p)|
    ensures t.cpus[c].current == Some(ListOf(t, c, p)[i + 1]) && SameClock(s, t, c)
  {
    hide Inv, Prepare, Switch;
    t := ScheduleKeeps(s, c, busy);
    var s1 := PrepareKeeps(s, c, busy);
    PrepareClock(s, c, busy);
    var s2, v := ChooseKeeps(s1, c, busy);
    SwitchKeepsLists(s2, c, v, busy);
    assert t == Switch(s2, c, v);
    ChooseLists(s1, c, busy);
    Behind(s1, c, busy, p, i);
  }

  /** Choosing changes no list. */
  lemma ChooseLists(s: State, c: nat, busy: Option<nat>)
    requires Inv(s, busy) && c < |s.cpus|
    ensures var r := Choose(s, c, busy);
            Shape(s) && Shape(r.0) && c < |r.0.cpus| &&
            forall p :: 0 <= p <= MAX_PRIORITY ==> ListOf(r.0, c, p) == ListOf(s, c, p)
  {
    var s', t := ChooseKeeps(s, c, busy);
    TurnInv(s, c, busy);
  }

  lemma Behind(s: State, c: nat, busy: Option<nat>, p: nat, i: nat)
    requires Inv(s, busy) && c < |s.cpus| && p <= MAX_PRIORITY && s.cpus[c].current.Some?
    requires Shape(s) && i + 1 < |ListOf(s, c, p)| && ListOf(s, c, p)[i] == s.cpus[c].current.value
    ensures Choose(s, c, busy) == (s, ListOf(s, c, p)[i + 1])
  {
    var u := s.cpus[c].current.value;
    assert u in ListOf(s, c, p) && ListOk(s, c);
    NextAt(ListOf(s, c, p), u, i);
  }

  /** The turn is counted for the list the CPU is at, or for the highest if it is at none;
      once the list has had its quantum of turns the count starts again and the CPU goes to
      the list below, or from the lowest to the highest. */
  ghost predicate Turned(cpu: Cpu, cpu': Cpu) {
    |cpu.lists| == MAX_PRIORITY + 1 && |cpu'.lists| == MAX_PRIORITY + 1 &&
    var p := if cpu.currentList.Some? then cpu.currentList.value else MAX_PRIORITY;
    p <= MAX_PRIORITY &&
    (forall q :: 0 <= q <= MAX_PRIORITY && q != p ==> cpu'.lists[q].quantum == cpu.lists[q].quantum) &&
    if cpu.lists[p].quantum + 1 >= Quantum(p)
    then cpu'.lists[p].quantum == 0 && cpu'.currentList == Some(if p > 0 then p - 1 else MAX_PRIORITY)
    else cpu'.lists[p].quantum == cpu.lists[p].quantum + 1 && cpu'.currentList == Some(p)
  }

  /** t is at place i of list q, the first there that did not run, and all threads of the
      lists above up to p did. */
  ghost predicate FirstAt(was: State, s: State, c: nat, p: nat, t: Tid, q: nat, i: nat)
    requires c < |s.cpus| && |s.cpus[c].lists| == MAX_PRIORITY + 1 && p <= MAX_PRIORITY
  {
    q <= p && i < |ListOf(s, c, q)| && ListOf(s, c, q)[i] == t &&
    t in was.threads && !was.threads[t].status.Running? && AllRunning(was, ListOf(s, c, q)[..i]) &&
    forall r :: q < r <= p ==> AllRunning(was, ListOf(s, c, r))
  }

  /** t is the first thread of the highest of the lists from p down that has one which did
      not run, and idle if none has. */
  ghost predicate FirstWaiting(was: State, s: State, c: nat, p: nat, t: Tid)
    requires c < |s.cpus| && |s.cpus[c].lists| == MAX_PRIORITY + 1 && p <= MAX_PRIORITY
  {
    (exists q: nat, i: nat :: FirstAt(was, s, c, p, t, q, i)) ||
    (t == s.cpus[c].idle && forall r :: 0 <= r <= p ==> AllRunning(was, ListOf(s, c, r)))
  }

  /** Only statuses, lists and the idle thread matter for that. */
  lemma WaitingSame(was: State, was': State, s: State, s': State, c: nat, p: nat, t: Tid)
    requires c < |s.cpus| && |s.cpus[c].lists| == MAX_PRIORITY + 1 && p <= MAX_PRIORITY
    requires c < |s'.cpus| && |s'.cpus[c].lists| == MAX_PRIORITY + 1 && s'.cpus[c].idle == s.cpus[c].idle
    requires forall r :: 0 <= r <= MAX_PRIORITY ==> ListOf(s', c, r) == ListOf(s, c, r)
    requires was.threads.Keys == was'.threads.Keys
    requires forall u :: u in was.threads ==> was'.threads[u].status == was.threads[u].status
    requires FirstWaiting(was, s, c, p, t)
    ensures FirstWaiting(was', s', c, p, t)
  {
    if q: nat, i: nat :| FirstAt(was, s, c, p, t, q, i) {
      assert FirstAt(was', s', c, p, t, q, i);
    }
  }

  /** u is on no list of CPU c, or the last of one. */
  ghost predicate NothingBehind(s: State, c: nat, u: Tid)
    requires c < |s.cpus| && |s.cpus[c].lists| == MAX_PRIORITY + 1
  {
    forall p, i :: 0 <= p <= MAX_PRIORITY && 0 <= i < |ListOf(s, c, p)| && ListOf(s, c, p)[i] == u ==>
      i + 1 == |ListOf(s, c, p)|
  }

  lemma LocalFacts(s: State, s': State, c: nat)
    requires Local(s, s', c)
    ensures c < |s.cpus| == |s'.cpus| && s'.cpus[c].current == s.cpus[c].current && s'.cpus[c].idle == s.cpus[c].idle
    ensures s'.threads.Keys == s.threads.Keys
    ensures forall t :: t in s.threads ==> s'.threads[t].status == s.threads[t].status
  {
  }

  lemma NothingSame(s: State, s': State, c: nat, u: Tid)
    requires c < |s.cpus| && |s.cpus[c].lists| == MAX_PRIORITY + 1 && NothingBehind(s, c, u)
    requires c < |s'.cpus| && |s'.cpus[c].lists| == MAX_PRIORITY + 1
    requires forall r :: 0 <= r <= MAX_PRIORITY ==> ListOf(s', c, r) == ListOf(s, c, r)
    ensures NothingBehind(s', c, u)
  {
  }

  /** With nothing behind the thread that ran, a new search is made. */
  lemma NextBySearch(s: State, c: nat, busy: Option<nat>) returns (t: State)
    requires Inv(s, busy) && (busy.None? || busy == Some(c)) && c < |s.cpus|
    requires var t := DoSchedule(s, c, busy);
             c < |t.cpus| && |t.cpus[c].lists| == MAX_PRIORITY + 1 &&
             (s.cpus[c].current.Some? ==> NothingBehind(t, c, s.cpus[c].current.value))
    ensures t == DoSchedule(s, c, busy) && Inv(t, None) && c < |t.cpus| && Turned(s.cpus[c], t.cpus[c])
    ensures t.cpus[c].current.Some? && t.cpus[c].currentList.Some? && t.cpus[c].currentList.value <= MAX_PRIORITY
    ensures FirstWaiting(s, t, c, t.cpus[c].currentList.value, t.cpus[c].current.value)
  {
    hide Inv, Prepare, Switch, Choose, FirstWaiting, NothingBehind, Local;
    t := ScheduleKeeps(s, c, busy);
    var s1 := PrepareKeeps(s, c, busy);
    PrepareClock(s, c, busy);
    var s2, v := ChooseKeeps(s1, c, busy);
    LocalFacts(s, s1, c);
    LocalFacts(s1, s2, c);
    SwitchKeepsLists(s2, c, v, busy);
    assert t == Switch(s2, c, v);
    ChooseLists(s1, c, busy);
    if s.cpus[c].current.Some? {
      NothingSame(t, s1, c, s.cpus[c].current.value);
    }
    Searched(s1, c, busy);
    WaitingSame(s1, s, s2, t, c, t.cpus[c].currentList.value, v);
  }

  lemma Searched(s: State, c: nat, busy: Option<nat>)
    requires Inv(s, busy) && c < |s.cpus|
    requires Shape(s) && (s.cpus[c].current.Some? ==> NothingBehind(s, c, s.cpus[c].current.value))
    ensures var r := Choose(s, c, busy);
            c < |r.0.cpus| && Turned(s.cpus[c], r.0.cpus[c]) && r.0.cpus[c].currentList.Some? &&
            r.0.cpus[c].currentList.value <= MAX_PRIORITY && r.0.cpus[c].idle == s.cpus[c].idle &&
            FirstWaiting(s, r.0, c, r.0.cpus[c].currentList.value, r.1)
  {
    NoSuccessor(s, c, busy);
    TurnIs(s.cpus[c]);
    var s1 := s.(cpus := s.cpus[c := Turn(s.cpus[c])]);
    hide Choose;
    PickWaits(s1, c, s1.cpus[c].currentList.value, busy);
    hide Inv, Pick;
    WaitingSame(s1, s, s1, s1, c, s1.cpus[c].currentList.value, Choose(s, c, busy).1);
  }

  lemma PickWaits(s: State, c: nat, p: nat, busy: Option<nat>)
    requires Inv(s, busy) && c < |s.cpus| && p <= MAX_PRIORITY
    ensures Shape(s) && FirstWaiting(s, s, c, p, Pick(s, c, p, busy))
  {
    hide Inv, Pick;
    ShapeOf(s, busy);
    var q, i := PickMeaning(s, c, p, busy);
    if q >= 0 {
      assert ListOf(s, c, q)[i] in s.threads by { InTheList(s, c, q, i, busy); }
      assert FirstAt(s, s, c, p, Pick(s, c, p, busy), q, i);
    }
  }

  lemma InTheList(s: State, c: nat, p: nat, i: nat, busy: Option<nat>)
    requires Inv(s, busy) && c < |s.cpus| && p <= MAX_PRIORITY && Shape(s) && i < |ListOf(s, c, p)|
    ensures var t := ListOf(s, c, p)[i];
            t in s.threads && s.threads[t].master == Some(c) && s.threads[t].priority == p
  {
    assert ListOf(s, c, p)[i] in ListOf(s, c, p);
  }

  lemma TurnIs(cpu: Cpu)
    requires |cpu.lists| == MAX_PRIORITY + 1 && (cpu.currentList.Some? ==> cpu.currentList.value <= MAX_PRIORITY)
    ensures Turned(cpu, Turn(cpu))
  {
  }

  lemma NoSuccessor(s: State, c: nat, busy: Option<nat>)
    requires Inv(s, busy) && c < |s.cpus|
    requires Shape(s) && (s.cpus[c].current.Some? ==> NothingBehind(s, c, s.cpus[c].current.value))
    ensures ListOk(s, c)
    ensures var s1 := s.(cpus := s.cpus[c := Turn(s.cpus[c])]);
            Inv(s1, busy) && s1.cpus[c].currentList.Some? && s1.cpus[c].currentList.value <= MAX_PRIORITY &&
            Choose(s, c, busy) == (s1, Pick(s1, c, s1.cpus[c].currentList.value, busy))
  {
    TurnInv(s, c, busy);
    if s.cpus[c].current.Some? {
      var u := s.cpus[c].current.value;
      assert CurrentIsMine(s, c, busy) && Listed(s, u);
      if s.threads[u].master.Some? {
        var l := ListOf(s, c, s.threads[u].priority);
        var i :| 0 <= i < |l| && l[i] == u;
        NextAt(l, u, i);
      }
    }
  }

  // ---------- where nothing is raised ----------

  /** CPU c is the only one, or none of its lists is long enough for a thread to be raised. */
  ghost predicate NeverRaises(s: State, c: nat) {
    c < |s.cpus| && Shape(s) && (|s.cpus| == 1 || forall p :: 0 <= p <= MAX_PRIORITY ==> |ListOf(s, c, p)| < 4)
  }

  /** Nothing is raised or lowered on CPU c by a schedule step. */
  ghost predicate Calm(s: State, c: nat) {
    Inv(s, None) && NeverRaises(s, c) &&
    forall t :: t in s.threads && s.cpus[c].current == Some(t) ==> !s.threads[t].raised
  }

  /** The same lists, and the same threads there. */
  ghost predicate SameLists(s: State, s': State, c: nat)
    requires Shape(s) && Shape(s')
  {
    c < |s.cpus| && c < |s'.cpus| && s'.cpus[c].idle == s.cpus[c].idle &&
    forall p :: 0 <= p <= MAX_PRIORITY ==> ListOf(s', c, p) == ListOf(s, c, p)
  }

  lemma CalmPrepares(s: State, c: nat) returns (s': State)
    requires Calm(s, c)
    ensures s' == Prepare(s, c, None) && Inv(s', None) && Shape(s') && SameLists(s, s', c)
    ensures s'.threads.Keys == s.threads.Keys
    ensures forall t :: t in s.threads ==> s'.threads[t].(quantum := 0) == s.threads[t].(quantum := 0)
  {
    hide Inv, Starvation, Lower, Local;
    s' := PrepareKeeps(s, c, None);
    LowerInv(s, c, None);
    var s1 := Lower(s, c, None);
    CalmLower(s, c);
    ShapeOf(s1, None);
    ShapeOf(s', None);
    assert forall p :: 0 <= p <= MAX_PRIORITY ==> ListOf(s1, c, p) == ListOf(s, c, p);
    if |s.cpus| > 1 {
      QuietStarvation(s1, c, 0);
    }
  }

  lemma CalmLower(s: State, c: nat)
    requires Calm(s, c)
    ensures var s1 := Lower(s, c, None);
            s1.cpus == s.cpus && s1.threads.Keys == s.threads.Keys &&
            forall t :: t in s.threads ==> s1.threads[t].(quantum := 0) == s.threads[t].(quantum := 0)
  {
    assert CurrentIsMine(s, c, None);
  }

  /** Where no thread is raised, the thread right behind one that was not raised is next. */
  lemma NextWhenCalm(s: State, c: nat, p: nat, i: nat)
    requires Calm(s, c) && p <= MAX_PRIORITY && i + 1 < |ListOf(s, c, p)|
    requires s.cpus[c].current == Some(ListOf(s, c, p)[i])
    ensures var t := DoSchedule(s, c, None);
            c < |t.cpus| && t.cpus[c].current == Some(ListOf(s, c, p)[i + 1])
  {
    hide Inv, Prepare, Choose, Switch, Local, Outside;
    var t := ScheduleKeeps(s, c, None);
    ShapeOf(t, None);
    var s1 := CalmPrepares(s, c);
    var s2, v := ChooseKeeps(s1, c, None);
    ChooseLists(s1, c, None);
    SwitchKeepsLists(s2, c, v, None);
    assert ListOf(t, c, p) == ListOf(s2, c, p) == ListOf(s1, c, p) == ListOf(s, c, p);
    var t' := NextOnList(s, c, None, p, i);
  }

  // ---------- how long a thread goes on ----------

  /** The state after n yields of CPU c. */
  ghost function Yields(s: State, c: nat, n: nat): (t: State)
    requires Inv(s, None) && c < |s.cpus|
    ensures Inv(t, None) && |t.cpus| == |s.cpus|
    decreases n
  {
    if n == 0 then s
    else
      YieldInv(s, c, None);
      YieldOutside(s, c, None);
      Yields(DoYield(s, c, None), c, n - 1)
  }

  /** A thread that may run goes on, and nothing but its quantum changes, until it has
      yielded as often as its priority allows; then the CPU reschedules. */
  lemma {:induction false} GoesOn(s: State, c: nat, n: nat)
    requires Inv(s, None) && c < |s.cpus| && s.cpus[c].current.Some? && s.cpus[c].current.value in s.threads
    requires CanRun(s.threads[s.cpus[c].current.value], c)
    requires s.threads[s.cpus[c].current.value].quantum + n < Quantum(s.threads[s.cpus[c].current.value].priority)
    ensures var t := s.cpus[c].current.value;
            Yields(s, c, n) == s.(threads := s.threads[t := s.threads[t].(quantum := s.threads[t].quantum + n)])
    decreases n
  {
    hide Inv, DoSchedule;
    var t := s.cpus[c].current.value;
    if n == 0 {
      assert s.threads[t := s.threads[t]] == s.threads;
    } else {
      YieldInv(s, c, None);
      YieldOutside(s, c, None);
      GoesOn(DoYield(s, c, None), c, n - 1);
    }
  }

  lemma ThenReschedules(s: State, c: nat)
    requires Inv(s, None) && c < |s.cpus| && s.cpus[c].current.Some? && s.cpus[c].current.value in s.threads
    requires var th := s.threads[s.cpus[c].current.value];
             !CanRun(th, c) || (th.quantum < 255 && th.quantum + 1 >= Quantum(th.priority))
    ensures var t := s.cpus[c].current.value;
            var s1 := s.(threads := s.threads[t := s.threads[t].(quantum := Byte(s.threads[t].quantum + 1))]);
            Inv(s1, None) && DoYield(s, c, None) == DoSchedule(s1, c, None)
  {
    hide Inv, DoSchedule, DoYield, CanRun, Quantum, Byte;
    var t := s.cpus[c].current.value;
    var q := Byte(s.threads[t].quantum + 1);
    SetQuantumInv(s, t, q, None);
    SmallByte(s.threads[t].quantum + 1);
    YieldIs(s, c, t, q);
  }

  /** The quantum of a thread has eight bits. */
  function Byte(x: nat): nat {
    x % 256
  }

  lemma SmallByte(x: nat)
    ensures x < 256 ==> Byte(x) == x
  {
  }

  lemma YieldIs(s: State, c: nat, t: Tid, q: nat)
    requires Inv(s, None) && c < |s.cpus| && s.cpus[c].current == Some(t) && t in s.threads
    requires q == Byte(s.threads[t].quantum + 1) && Inv(SetQuantum(s, t, q), None)
    requires !(q < Quantum(s.threads[t].priority) && CanRun(s.threads[t], c))
    ensures DoYield(s, c, None) == DoSchedule(SetQuantum(s, t, q), c, None)
  {
    hide Inv, DoSchedule, CanRun, Quantum;
  }

  /** A thread that was just switched to and may run: the first yields leave it running, 1 of
      them for priority 0, 3 for 1, 7 for 2 and 11 for 3 and 4, and the next one reschedules. */
  lemma TurnLength(s: State, c: nat, n: nat)
    requires Inv(s, None) && c < |s.cpus| && s.cpus[c].current.Some? && s.cpus[c].current.value in s.threads
    requires var th := s.threads[s.cpus[c].current.value];
             CanRun(th, c) && th.quantum == 0 && 0 <= th.priority <= MAX_PRIORITY && n == [1, 3, 7, 11, 11][th.priority]
    ensures forall k :: 0 <= k <= n ==> Yields(s, c, k).cpus == s.cpus
    ensures var t := s.cpus[c].current.value;
            var s1 := s.(threads := s.threads[t := s.threads[t].(quantum := n + 1)]);
            Inv(s1, None) && Yields(s, c, n + 1) == DoSchedule(s1, c, None)
  {
    hide Inv, DoSchedule, Yields;
    QuantumTable();
    forall k: nat | k <= n ensures Yields(s, c, k).cpus == s.cpus {
      GoesOn(s, c, k);
    }
    GoesOn(s, c, n);
    var u := Yields(s, c, n);
    ThenReschedules(u, c);
    YieldsAdd(s, c, n);
    var t := s.cpus[c].current.value;
    SmallByte(n + 1);
    assert u.threads[t := u.threads[t].(quantum := n + 1)] == s.threads[t := s.threads[t].(quantum := n + 1)];
  }

  lemma {:induction false} YieldsAdd(s: State, c: nat, n: nat)
    requires Inv(s, None) && c < |s.cpus|
    ensures Yields(s, c, n + 1) == DoYield(Yields(s, c, n), c, None)
    decreases n
  {
    hide Inv, DoYield;
    YieldInv(s, c, None);
    YieldOutside(s, c, None);
    if n > 0 {
      YieldsAdd(DoYield(s, c, None), c, n - 1);
    }
  }
}
