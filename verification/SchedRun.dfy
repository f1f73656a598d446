/**
  Runs of the scheduler on any number of CPUs, and what holds throughout.
 */
module SchedRun {
  import opened Options
  import opened SchedModel
  import opened SchedOps
  import opened SchedCore

  /** BlockAndYield is CoreH_ThreadBlock of the calling CPU's own thread, with its yield;
      BlockWaiting is CoreH_ThreadBlock of a thread that no CPU runs. */
  datatype Step =
    | Initialize(t: Tid, priority: int, affinity: set<nat>)
    | ReadyThread(t: Tid)
    | BlockAndYield(c: nat)
    | BlockWaiting(t: Tid)
    | Boost(t: Tid)
    | Yield(c: nat)
    | Schedule(c: nat)

  ghost predicate NoIdle(s: State, t: Tid) {
    forall c :: 0 <= c < |s.cpus| ==> s.cpus[c].idle != t
  }

  ghost predicate NoCurrent(s: State, t: Tid) {
    forall c :: 0 <= c < |s.cpus| ==> s.cpus[c].current != Some(t)
  }

  ghost predicate Enabled(s: State, step: Step) {
    match step
    case Initialize(t, _, _) => t !in s.threads
    case ReadyThread(t) => t in s.threads
    case BlockAndYield(c) => c < |s.cpus| && s.cpus[c].current.Some? && NoIdle(s, s.cpus[c].current.value)
    case BlockWaiting(t) => t in s.threads && s.threads[t].master.Some? && NoIdle(s, t) && NoCurrent(s, t)
    case Boost(t) => t in s.threads
    case Yield(c) => c < |s.cpus|
    case Schedule(c) => c < |s.cpus|
  }

  ghost function BlockThenYield(s: State, c: nat): (s': State)
    requires Inv(s, None) && c < |s.cpus| && s.cpus[c].current.Some? && NoIdle(s, s.cpus[c].current.value)
    ensures Inv(s', None)
  {
    assert CurrentIsMine(s, c, None);
    var t := s.cpus[c].current.value;
    BlockInv(s, t, c);
    BlockOneThread(s, t);
    YieldInv(DoBlock(s, t).0, c, Some(c));
    DoYield(DoBlock(s, t).0, c, Some(c))
  }

  ghost function Exec(s: State, step: Step): (s': State)
    requires Inv(s, None) && Enabled(s, step)
    ensures Inv(s', None)
  {
    match step
    case Initialize(t, priority, affinity) =>
      InitializeInv(s, t, priority, affinity);
      DoInitialize(s, t, priority, affinity).0
    case ReadyThread(t) =>
      ReadyInv(s, t);
      DoReady(s, t).0
    case BlockAndYield(c) => BlockThenYield(s, c)
    case BlockWaiting(t) =>
      assert Listed(s, t);
      BlockInv(s, t, s.threads[t].master.value);
      DoBlock(s, t).0
    case Boost(t) =>
      BoostInv(s, t);
      DoBoost(s, t).0
    case Yield(c) =>
      YieldInv(s, c, None);
      DoYield(s, c, None)
    case Schedule(c) =>
      ScheduleInv(s, c, None);
      DoSchedule(s, c, None)
  }

  /** The state after a run, if every step of it was enabled. */
  ghost function ExecAll(s: State, steps: seq<Step>): (r: Option<State>)
    requires Inv(s, None)
    ensures r.Some? ==> Inv(r.value, None)
    decreases |steps|
  {
    if steps == [] then Some(s)
    else if Enabled(s, steps[0]) then ExecAll(Exec(s, steps[0]), steps[1..])
    else None
  }

  // ---------- the start ----------

  function IdleThread(c: nat): Thread {
    Thread(0, Ready, false, false, Some(c), {c}, 0)
  }

  function StartCpu(c: nat): Cpu {
    var none := PriorityList([], 0, 0);
    Cpu([PriorityList([c], 0, 0), none, none, none, none], None, c, None)
  }

  ghost function StartThreads(n: nat): (m: map<Tid, Thread>)
    ensures forall t: nat :: t in m <==> t < n
    ensures forall t: nat :: t in m ==> m[t] == IdleThread(t)
  {
    if n == 0 then map[] else StartThreads(n - 1)[n - 1 := IdleThread(n - 1)]
  }

  /** n CPUs, each with its idle thread on its idle-priority list. */
  ghost function Start(n: nat): State {
    State(StartThreads(n), seq(n, c requires 0 <= c < n => StartCpu(c)), n)
  }

  lemma {:induction false} StartTotal(n: nat, m: nat)
    requires m <= n && Shape(Start(n))
    ensures TotalLength(Start(n), m) == m
  {
    if m > 0 {
      StartTotal(n, m - 1);
    }
  }

  lemma StartLists(n: nat, c: nat, p: nat)
    requires c < n && p <= MAX_PRIORITY
    ensures Shape(Start(n)) && ListOf(Start(n), c, p) == (if p == 0 then [c] else [])
  {
  }

  lemma StartListed(n: nat)
    ensures Shape(Start(n)) && OnlyListed(Start(n))
    ensures forall t :: t in Start(n).threads ==> Listed(Start(n), t)
    ensures forall c :: 0 <= c < n ==> ListOk(Start(n), c)
  {
    var s := Start(n);
    forall c, p | 0 <= c < n && 0 <= p <= MAX_PRIORITY
      ensures ListOf(s, c, p) == (if p == 0 then [c] else [])
    {
      StartLists(n, c, p);
    }
  }

  lemma StartInv(n: nat)
    ensures Inv(Start(n), None)
  {
    StartListed(n);
    StartTotal(n, n);
    hide Listed, OnlyListed, ListOk, TotalLength;
  }

  // ---------- what holds throughout a run ----------

  /** In every state of every run: each thread that belongs to a CPU is on the list of
      its priority there and on no other, and its affinity allows that CPU; no thread is
      current on two CPUs; the ready count is the length of all lists together; a raised
      thread has priority 1 to 4. */
  lemma RunSafety(n: nat, steps: seq<Step>)
    ensures Inv(Start(n), None)
    ensures ExecAll(Start(n), steps).Some? ==>
              var s := ExecAll(Start(n), steps).value;
              Shape(s) &&
              (forall t, c, p :: t in s.threads && 0 <= c < |s.cpus| && 0 <= p <= MAX_PRIORITY ==>
                 (t in ListOf(s, c, p) <==> s.threads[t].master == Some(c) && s.threads[t].priority == p)) &&
              (forall t :: t in s.threads && s.threads[t].master.Some? ==>
                 s.threads[t].master.value < |s.cpus| && s.threads[t].master.value in s.threads[t].affinity) &&
              (forall c, d :: 0 <= c < d < |s.cpus| && s.cpus[c].current.Some? ==>
                 s.cpus[c].current != s.cpus[d].current) &&
              (forall t :: t in s.threads && s.threads[t].raised ==> 1 <= s.threads[t].priority <= MAX_PRIORITY) &&
              s.readyCount == TotalLength(s, |s.cpus|)
  {
    StartInv(n);
    if ExecAll(Start(n), steps).Some? {
      Consequences(ExecAll(Start(n), steps).value);
    }
  }

  lemma Consequences(s: State)
    requires Inv(s, None)
    ensures forall t, c, p :: t in s.threads && 0 <= c < |s.cpus| && 0 <= p <= MAX_PRIORITY ==>
              (t in ListOf(s, c, p) <==> s.threads[t].master == Some(c) && s.threads[t].priority == p)
    ensures forall t :: t in s.threads && s.threads[t].master.Some? ==>
              s.threads[t].master.value < |s.cpus| && s.threads[t].master.value in s.threads[t].affinity
    ensures forall c, d :: 0 <= c < d < |s.cpus| && s.cpus[c].current.Some? ==> s.cpus[c].current != s.cpus[d].current
  {
    forall t, c, p | t in s.threads && 0 <= c < |s.cpus| && 0 <= p <= MAX_PRIORITY
      ensures t in ListOf(s, c, p) <==> s.threads[t].master == Some(c) && s.threads[t].priority == p
    {
      OnExactlyOneList(s, None, t, c, p);
    }
    forall t | t in s.threads && s.threads[t].master.Some?
      ensures s.threads[t].master.value < |s.cpus| && s.threads[t].master.value in s.threads[t].affinity
    {
      assert Listed(s, t);
    }
    forall c, d | 0 <= c < d < |s.cpus| && s.cpus[c].current.Some?
      ensures s.cpus[c].current != s.cpus[d].current
    {
      if s.cpus[c].current == s.cpus[d].current {
        CurrentOnOneCpu(s, c, d);
      }
    }
  }

  /** The assertion in Core_Schedule holds at every schedule step of every run. */
  lemma AssertionNeverFires(s: State, c: nat, busy: Option<nat>)
    requires Inv(s, busy) && c < |s.cpus|
    ensures Inv(Prepare(s, c, busy), busy) && c < |Prepare(s, c, busy).cpus|
    ensures var r := Choose(Prepare(s, c, busy), c, busy);
            r.1 in r.0.threads && c < |r.0.cpus| &&
            (r.0.cpus[c].current != Some(r.1) ==> !r.0.threads[r.1].status.Running?)
  {
    PrepareInv(s, c, busy);
    ChooseInv(Prepare(s, c, busy), c, busy);
    var r := Choose(Prepare(s, c, busy), c, busy);
    NotRunningElsewhere(r.0, c, r.1, busy);
  }

  /** Blocking a thread without rescheduling is safe if and only if no CPU runs it and
      it is no CPU's idle thread: CoreH_ThreadBlock of a thread that runs on another CPU
      leaves that CPU with a current thread that belongs to nobody. */
  lemma BlockSafeIff(s: State, t: Tid)
    requires Inv(s, None) && t in s.threads && s.threads[t].master.Some?
    ensures s.threads[t].master.value < |s.cpus| && s.readyCount > 0
    ensures Inv(DoBlock(s, t).0, None) <==> NoCurrent(s, t) && NoIdle(s, t)
  {
    BlockOneThread(s, t);
    var s' := DoBlock(s, t).0;
    if NoCurrent(s, t) && NoIdle(s, t) {
      BlockInv(s, t, s.threads[t].master.value);
    } else if !NoCurrent(s, t) {
      var c :| 0 <= c < |s.cpus| && s.cpus[c].current == Some(t);
      assert !CurrentIsMine(s', c, None);
    } else {
      var c :| 0 <= c < |s.cpus| && s.cpus[c].idle == t;
      assert !IdleIsMine(s', c);
    }
  }
}
