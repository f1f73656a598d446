/**
  What becomes of one thread in a run: it keeps its CPU until it is blocked, and none is
  lost. Two runs at the end show operations that break a promise of the scheduler.
 */
module SchedFate {
  import opened Options
  import opened SchedModel
  import opened SchedOps
  import opened SchedCore
  import opened SchedRun
  import opened SchedBase

  // ---------- one step ----------

  lemma YieldOutside(s: State, c: nat, busy: Option<nat>)
    requires Inv(s, busy) && (busy.None? || busy == Some(c)) && c < |s.cpus|
    ensures Outside(s, DoYield(s, c, busy), c)
  {
    hide Inv, DoSchedule;
    CurrentKnown(s, c, busy);
    if s.cpus[c].current.None? {
      ScheduleOutside(s, c, busy);
    } else {
      var t := s.cpus[c].current.value;
      var q := (s.threads[t].quantum + 1) % 256;
      SetQuantumInv(s, t, q, busy);
      SetQuantumLocal(s, c, t, q);
      if !(q < Quantum(s.threads[t].priority) && CanRun(s.threads[t], c)) {
        ScheduleOutside(SetQuantum(s, t, q), c, busy);
        OutsideTrans(s, SetQuantum(s, t, q), DoSchedule(SetQuantum(s, t, q), c, busy), c);
      }
    }
  }

  ghost predicate Readies(s: State, step: Step, t: Tid)
    requires Inv(s, None) && Enabled(s, step)
  {
    step == ReadyThread(t) && DoReady(s, t).1 == Success
  }

  /** The CPU a thread belongs to after a step: none if the step blocks it, the one chosen
      if the step readies it, and otherwise the one before; and a thread that belongs to
      none is blocked by being blocked only. */
  ghost predicate FateOk(s: State, s': State, t: Tid, blocks: bool, readies: bool)
    requires t in s.threads
  {
    t in s'.threads &&
    var th, th' := s.threads[t], s'.threads[t];
    if blocks then th'.master.None? && th'.status.Blocked?
    else if th.master.Some? then th'.master == th.master
    else if readies then th'.master.Some?
    else th'.master.None? && th'.status == th.status
  }

  lemma OutsideFate(s: State, s': State, c: nat, t: Tid)
    requires Outside(s, s', c) && t in s.threads
    ensures FateOk(s, s', t, false, false)
  {
    assert SameOutside(s.threads[t], s'.threads[t], c);
  }

  lemma BlockYieldFate(s: State, c: nat, t: Tid)
    requires Inv(s, None) && Enabled(s, BlockAndYield(c)) && t in s.threads
    ensures FateOk(s, BlockThenYield(s, c), t, s.cpus[c].current == Some(t), false)
  {
    CurrentKnown(s, c, None);
    var u := s.cpus[c].current.value;
    assert CurrentIsMine(s, c, None);
    BlockInv(s, u, c);
    BlockOneThread(s, u);
    var s1 := DoBlock(s, u).0;
    hide Inv, DoYield;
    YieldOutside(s1, c, Some(c));
    assert t in s1.threads && SameOutside(s1.threads[t], DoYield(s1, c, Some(c)).threads[t], c);
  }

  lemma ReadyFate(s: State, u: Tid, t: Tid)
    requires Inv(s, None) && Enabled(s, ReadyThread(u)) && t in s.threads
    ensures FateOk(s, DoReady(s, u).0, t, false, Readies(s, ReadyThread(u), t))
  {
    hide LeastLoaded;
  }

  lemma BoostFate(s: State, u: Tid, t: Tid)
    requires Inv(s, None) && Enabled(s, Boost(u)) && t in s.threads
    ensures FateOk(s, Exec(s, Boost(u)), t, false, false)
  {
    hide Inv;
    ShapeOf(s, None);
    BoostInv(s, u);
  }

  lemma StepFate(s: State, step: Step, t: Tid)
    requires Inv(s, None) && Enabled(s, step) && t in s.threads
    ensures FateOk(s, Exec(s, step), t, Blocks(s, step, t), Readies(s, step, t))
  {
    match step {
      case Initialize(u, priority, affinity) =>
      case ReadyThread(u) => ReadyFate(s, u, t);
      case BlockAndYield(c) => BlockYieldFate(s, c, t);
      case BlockWaiting(u) =>
        assert Listed(s, u);
        BlockOneThread(s, u);
      case Boost(u) => BoostFate(s, u, t);
      case Yield(c) =>
        YieldOutside(s, c, None);
        OutsideFate(s, DoYield(s, c, None), c, t);
      case Schedule(c) =>
        ScheduleOutside(s, c, None);
        OutsideFate(s, DoSchedule(s, c, None), c, t);
    }
  }

  lemma NewThread(s: State, step: Step, t: Tid)
    requires Inv(s, None) && Enabled(s, step) && t !in s.threads && t in Exec(s, step).threads
    ensures Exec(s, step).threads[t].master.None? && !Exec(s, step).threads[t].status.Blocked?
    ensures !Readies(s, step, t)
  {
    match step {
      case Initialize(u, priority, affinity) =>
      case ReadyThread(u) =>
      case BlockAndYield(c) =>
        assert CurrentIsMine(s, c, None);
        var u := s.cpus[c].current.value;
        BlockInv(s, u, c);
        BlockOneThread(s, u);
        YieldOutside(DoBlock(s, u).0, c, Some(c));
      case BlockWaiting(u) =>
        assert Listed(s, u);
        BlockOneThread(s, u);
      case Boost(u) => BoostInv(s, u);
      case Yield(c) => YieldOutside(s, c, None);
      case Schedule(c) => ScheduleOutside(s, c, None);
    }
  }

  lemma Stay(s: State, step: Step, t: Tid)
    requires Inv(s, None) && Enabled(s, step) && t !in s.threads && t !in Exec(s, step).threads
    ensures !Readies(s, step, t)
  {
  }

  // ---------- runs ----------

  /** Some step of the run readied t, and said so. */
  ghost predicate Readied(s: State, steps: seq<Step>, t: Tid)
    requires Inv(s, None) && ExecAll(s, steps).Some?
    decreases |steps|
  {
    steps != [] && (Readies(s, steps[0], t) || Readied(Exec(s, steps[0]), steps[1..], t))
  }

  /** No step of the run blocked t. */
  ghost predicate NeverBlocked(s: State, steps: seq<Step>, t: Tid)
    requires Inv(s, None) && ExecAll(s, steps).Some?
    decreases |steps|
  {
    steps == [] || (!Blocks(s, steps[0], t) && NeverBlocked(Exec(s, steps[0]), steps[1..], t))
  }

  /** A thread that belongs to a CPU keeps it until a step blocks it. */
  lemma {:induction false} KeepsCpu(s: State, steps: seq<Step>, t: Tid)
    requires Inv(s, None) && ExecAll(s, steps).Some? && NeverBlocked(s, steps, t)
    requires t in s.threads && s.threads[t].master.Some?
    ensures t in ExecAll(s, steps).value.threads
    ensures ExecAll(s, steps).value.threads[t].master == s.threads[t].master
    decreases |steps|
  {
    hide Inv, Enabled, Exec, Blocks, Readies;
    if steps != [] {
      StepFate(s, steps[0], t);
      KeepsCpu(Exec(s, steps[0]), steps[1..], t);
    }
  }

  ghost predicate Holds(s: State, t: Tid, readied: bool) {
    if t in s.threads then s.threads[t].master.Some? <==> readied && !s.threads[t].status.Blocked? else !readied
  }

  lemma StepHolds(s: State, step: Step, t: Tid, readied: bool)
    requires Inv(s, None) && Enabled(s, step) && Holds(s, t, readied)
    ensures Holds(Exec(s, step), t, readied || Readies(s, step, t))
  {
    if t in s.threads {
      assert Listed(s, t);
      assert Readies(s, step, t) ==> s.threads[t].master.Some? || Exec(s, step).threads[t].master.Some?;
      StepFate(s, step, t);
      if t in Exec(s, step).threads {
        assert Listed(Exec(s, step), t);
      }
    } else if t in Exec(s, step).threads {
      NewThread(s, step, t);
    } else {
      Stay(s, step, t);
    }
  }

  lemma {:induction false} FateOverRun(s: State, steps: seq<Step>, t: Tid, readied: bool)
    requires Inv(s, None) && ExecAll(s, steps).Some? && Holds(s, t, readied)
    ensures Holds(ExecAll(s, steps).value, t, readied || Readied(s, steps, t))
    decreases |steps|
  {
    hide Inv, Enabled, Exec, Readies, Holds;
    if steps != [] {
      StepHolds(s, steps[0], t, readied);
      FateOverRun(Exec(s, steps[0]), steps[1..], t, readied || Readies(s, steps[0], t));
    }
  }

  ghost predicate OnSomeList(s: State, t: Tid)
    requires Shape(s)
  {
    exists c, p :: 0 <= c < |s.cpus| && 0 <= p <= MAX_PRIORITY && t in ListOf(s, c, p)
  }

  ghost predicate OnNoTwoLists(s: State, t: Tid)
    requires Shape(s)
  {
    forall c, p, d, q ::
      (0 <= c < |s.cpus| && 0 <= p <= MAX_PRIORITY && t in ListOf(s, c, p) &&
       0 <= d < |s.cpus| && 0 <= q <= MAX_PRIORITY && t in ListOf(s, d, q)) ==> c == d && p == q
  }

  /** No thread is lost: after every run, a thread that is a CPU's idle thread or was ever
      readied is blocked or is on exactly one list, and any other thread is on none. */
  lemma NoneLost(n: nat, steps: seq<Step>, t: Tid)
    ensures Inv(Start(n), None)
    ensures ExecAll(Start(n), steps).Some? && t in ExecAll(Start(n), steps).value.threads ==>
              var s := ExecAll(Start(n), steps).value;
              Shape(s) && OnNoTwoLists(s, t) &&
              (OnSomeList(s, t) <==> (t < n || Readied(Start(n), steps, t)) && !s.threads[t].status.Blocked?)
  {
    StartInv(n);
    hide Readied, ExecAll;
    if ExecAll(Start(n), steps).Some? {
      assert Holds(Start(n), t, t < n);
      FateOverRun(Start(n), steps, t, t < n);
      var s := ExecAll(Start(n), steps).value;
      if t in s.threads {
        ListedIff(s, t);
      }
    }
  }

  lemma ListedIff(s: State, t: Tid)
    requires Inv(s, None) && t in s.threads
    ensures OnNoTwoLists(s, t) && (OnSomeList(s, t) <==> s.threads[t].master.Some?)
  {
    assert Listed(s, t);
    if s.threads[t].master.Some? {
      var c, p := s.threads[t].master.value, s.threads[t].priority;
      assert t in ListOf(s, c, p);
    }
  }

  // ---------- two runs ----------

  /** With fewer than four threads on each list nobody is raised. */
  lemma {:induction false} QuietStarvation(s: State, c: nat, p: nat)
    requires Inv(s, None) && c < |s.cpus| && p <= MAX_PRIORITY
    requires forall q :: 0 <= q <= MAX_PRIORITY ==> |ListOf(s, c, q)| < 4
    ensures var s' := StarvationFrom(s, c, p, None);
            Cosmetic(s, s') && s'.cpus[c].currentList == s.cpus[c].currentList
    decreases MAX_PRIORITY - p
  {
    if p < MAX_PRIORITY {
      QuietList(s, c, p);
      var s1 := StarvationKeeps(s, c, p, None);
      QuietStarvation(s1, c, p + 1);
    } else {
      CurrentLists(s);
    }
  }

  lemma CurrentLists(s: State)
    requires Inv(s, None)
    ensures forall d :: 0 <= d < |s.cpus| && s.cpus[d].currentList.Some? ==> s.cpus[d].currentList.value <= MAX_PRIORITY
  {
    forall d | 0 <= d < |s.cpus| && s.cpus[d].currentList.Some? ensures s.cpus[d].currentList.value <= MAX_PRIORITY {
      assert ListOk(s, d);
    }
  }

  lemma QuietList(s: State, c: nat, p: nat)
    requires Inv(s, None) && c < |s.cpus| && p < MAX_PRIORITY && |ListOf(s, c, p)| < 4
    ensures var s' := Starvation(s, c, p, None);
            Cosmetic(s, s') && s'.cpus[c].currentList == s.cpus[c].currentList
  {
    var q := s.cpus[c].lists[p].noStarvationQuantum + 1;
    if q < Quantum(p) {
      SetNoStarvationInv(s, c, p, q, None);
    }
    CurrentLists(s);
  }

  lemma QuietPrepare(s: State, c: nat) returns (s': State)
    requires Inv(s, None) && c < |s.cpus| && s.cpus[c].current.None?
    requires forall q :: 0 <= q <= MAX_PRIORITY ==> |ListOf(s, c, q)| < 4
    ensures s' == Prepare(s, c, None) && Inv(s', None) && Cosmetic(s, s')
    ensures s'.cpus[c].currentList == s.cpus[c].currentList
  {
    s' := PrepareKeeps(s, c, None);
    assert Lower(s, c, None) == s;
    CurrentLists(s);
    QuietStarvation(s, c, 0);
  }

  /** A CPU that runs nothing yet, with t alone on list p and nobody above, takes t. */
  lemma TakesFirst(s: State, c: nat, t: Tid, p: nat)
    requires Inv(s, None) && c < |s.cpus| && s.cpus[c].current.None? && s.cpus[c].currentList.None? && p < MAX_PRIORITY
    requires forall q :: 0 <= q <= MAX_PRIORITY ==> |ListOf(s, c, q)| < 4
    requires ListOf(s, c, p) == [t] && forall q :: p < q <= MAX_PRIORITY ==> ListOf(s, c, q) == []
    requires t in s.threads && !s.threads[t].status.Running?
    ensures var s' := DoSchedule(s, c, None);
            c < |s'.cpus| && s'.cpus[c].current == Some(t)
  {
    hide Inv, Prepare, Choose, Switch;
    var s1 := QuietPrepare(s, c);
    var s2 := ChosenAlone(s1, c, t, p);
    SwitchInv(s2, c, t, None);
    assert DoSchedule(s, c, None) == Switch(s2, c, t);
    SwitchCurrent(s2, c, t);
  }

  lemma SwitchCurrent(s: State, c: nat, t: Tid)
    requires c < |s.cpus| && t in s.threads
    requires s.cpus[c].current.Some? ==> s.cpus[c].current.value in s.threads
    ensures c < |Switch(s, c, t).cpus| && Switch(s, c, t).cpus[c].current == Some(t)
  {
  }

  lemma ChosenAlone(s: State, c: nat, t: Tid, p: nat) returns (s': State)
    requires Inv(s, None) && c < |s.cpus| && s.cpus[c].current.None? && s.cpus[c].currentList.None? && p < MAX_PRIORITY
    requires ListOf(s, c, p) == [t] && forall q :: p < q <= MAX_PRIORITY ==> ListOf(s, c, q) == []
    requires t in s.threads && !s.threads[t].status.Running?
    ensures Choose(s, c, None) == (s', t) && Inv(s', None) && c < |s'.cpus| && s'.threads == s.threads
    ensures s.threads[t].master == Some(c)
  {
    hide Inv, Pick, Turn;
    var u;
    s', u := ChooseKeeps(s, c, None);
    TurnLists(s, c);
    forall q | p <= q <= MAX_PRIORITY ensures ListOf(s', c, q) == ListOf(s, c, q) {
    }
    Alone(s', c, t, p, s'.cpus[c].currentList.value);
  }

  lemma TurnLists(s: State, c: nat)
    requires Inv(s, None) && c < |s.cpus| && s.cpus[c].currentList.None?
    ensures |s.cpus[c].lists| == MAX_PRIORITY + 1
    ensures var cpu := Turn(s.cpus[c]);
            |cpu.lists| == MAX_PRIORITY + 1 && cpu.currentList.Some? &&
            MAX_PRIORITY - 1 <= cpu.currentList.value <= MAX_PRIORITY &&
            forall q :: 0 <= q <= MAX_PRIORITY ==> cpu.lists[q].list == s.cpus[c].lists[q].list
  {
  }

  lemma Alone(s: State, c: nat, t: Tid, p: nat, from: nat)
    requires Inv(s, None) && c < |s.cpus| && p <= from <= MAX_PRIORITY
    requires ListOf(s, c, p) == [t] && forall q :: p < q <= MAX_PRIORITY ==> ListOf(s, c, q) == []
    requires t in s.threads && !s.threads[t].status.Running?
    ensures Pick(s, c, from, None) == t
  {
    hide Pick, Inv;
    ShapeOf(s, None);
    var q, i := PickMeaning(s, c, from, None);
    assert t in ListOf(s, c, p) && !AllRunning(s, ListOf(s, c, p));
  }

  /** CPU 1 of two, with its idle thread and thread 2 of priority 1. */
  lemma TwoCpus() returns (s: State)
    ensures Inv(Start(2), None)
    ensures ExecAll(Start(2), [Initialize(2, 1, {1}), ReadyThread(2)]) == Some(s)
    ensures Shape(s) && |s.cpus| == 2 && 2 in s.threads
    ensures s.threads[2] == Thread(1, Ready, false, false, Some(1), {1}, 0)
    ensures forall c :: 0 <= c < 2 ==> s.cpus[c].current.None? && s.cpus[c].currentList.None? && s.cpus[c].idle == c
    ensures forall q :: 0 <= q <= MAX_PRIORITY ==> ListOf(s, 1, q) == if q == 0 then [1] else if q == 1 then [2] else []
  {
    hide Inv, LeastLoaded, Start;
    StartInv(2);
    var a, b := Initialize(2, 1, {1}), ReadyThread(2);
    StartTwo();
    var s1 := Exec(Start(2), a);
    assert s1 == WithThread(Start(2), 2, Thread(1, Ready, false, false, None, {1}, 0));
    OnlyOne(s1);
    s := Exec(s1, b);
    assert s == PutOn(s1, 2, 1);
    TwoSteps(Start(2), a, b);
  }

  lemma StartTwo()
    ensures var s := Start(2);
            Shape(s) && |s.cpus| == 2 && 2 !in s.threads && s.cpus == [StartCpu(0), StartCpu(1)]
  {
  }

  lemma TwoSteps(s: State, a: Step, b: Step)
    requires Inv(s, None) && Enabled(s, a) && Enabled(Exec(s, a), b)
    ensures ExecAll(s, [a, b]) == Some(Exec(Exec(s, a), b))
  {
    hide Inv, Enabled, Exec;
    var s1 := Exec(s, a);
    var s2 := Exec(s1, b);
    assert [a, b][1..] == [b] && [b][1..] == [];
    assert ExecAll(s2, []) == Some(s2);
    assert ExecAll(s1, [b]) == Some(s2);
  }

  lemma OnlyOne(s: State)
    requires Shape(s) && |s.cpus| == 2 && 2 in s.threads && s.threads[2].priority == 1 && s.threads[2].affinity == {1}
    ensures LeastLoaded(s, 2, 2) == Some(1)
  {
    assert LeastLoaded(s, 2, 0).None?;
    assert LeastLoaded(s, 2, 1).None?;
  }

  lemma {:induction false} ExecMore(s: State, steps: seq<Step>, last: Step)
    requires Inv(s, None) && ExecAll(s, steps).Some? && Enabled(ExecAll(s, steps).value, last)
    ensures ExecAll(s, steps + [last]) == Some(Exec(ExecAll(s, steps).value, last))
    decreases |steps|
  {
    hide Inv, Enabled, Exec;
    if steps == [] {
      assert [last][1..] == [];
    } else {
      assert (steps + [last])[1..] == steps[1..] + [last];
      ExecMore(Exec(s, steps[0]), steps[1..], last);
    }
  }

  /** Blocking the thread that another CPU runs breaks the invariant. */
  lemma BlockedElsewhere() returns (s: State)
    ensures Inv(Start(2), None)
    ensures ExecAll(Start(2), [Initialize(2, 1, {1}), ReadyThread(2), Schedule(1)]) == Some(s)
    ensures 2 in s.threads && s.threads[2].master == Some(1) && |s.cpus| == 2 && s.cpus[1].current == Some(2)
    ensures Shape(s) && s.readyCount > 0 && !Inv(DoBlock(s, 2).0, None)
  {
    hide Inv, DoSchedule;
    var s2 := TwoCpus();
    var steps := [Initialize(2, 1, {1}), ReadyThread(2)];
    ExecMore(Start(2), steps, Schedule(1));
    assert steps + [Schedule(1)] == [Initialize(2, 1, {1}), ReadyThread(2), Schedule(1)];
    TakesFirst(s2, 1, 2, 1);
    s := Exec(s2, Schedule(1));
    ShapeOf(s, None);
    CurrentMine(s, 1);
    ScheduleOutside(s2, 1, None);
    assert !NoCurrent(s, 2);
    BlockSafeIff(s, 2);
  }

  lemma CurrentMine(s: State, c: nat)
    requires Inv(s, None) && c < |s.cpus| && s.cpus[c].current.Some?
    ensures s.cpus[c].current.value in s.threads && s.threads[s.cpus[c].current.value].master == Some(c)
  {
    assert CurrentIsMine(s, c, None);
  }

  /** A thread of priority 1 that is blocked while it is raised comes back with 2. */
  lemma BlockedRaised() returns (s: State)
    ensures Inv(Start(2), None)
    ensures ExecAll(Start(2), [Initialize(2, 1, {1}), ReadyThread(2), Boost(2)]) == Some(s)
    ensures 2 in s.threads && Base(s.threads[2]) == 1 && Enabled(s, BlockWaiting(2))
    ensures var s' := Exec(s, BlockWaiting(2));
            2 in s'.threads && Base(s'.threads[2]) == 2
  {
    hide Inv;
    var s2 := TwoCpus();
    var steps := [Initialize(2, 1, {1}), ReadyThread(2)];
    ExecMore(Start(2), steps, Boost(2));
    assert steps + [Boost(2)] == [Initialize(2, 1, {1}), ReadyThread(2), Boost(2)];
    s := Exec(s2, Boost(2));
    assert s == Relist(s2, 1, 2, 2, true);
    assert Enabled(s, BlockWaiting(2));
    BaseIff(s, BlockWaiting(2), 2);
  }
}
