/**
  What the scheduler's operations make of priorities: which thread is picked, and that
  a thread's priority is raised for one turn only.
 */
module SchedBase {
  import opened Options
  import opened SchedModel
  import opened SchedOps
  import opened SchedCore
  import opened SchedRun

  // ---------- the thread that is picked ----------

  ghost predicate AllRunning(s: State, l: seq<Tid>) {
    forall t :: t in l ==> t in s.threads && s.threads[t].status.Running?
  }

  lemma {:induction false} FirstIdleLemma(s: State, l: seq<Tid>) returns (i: nat)
    requires forall t :: t in l ==> t in s.threads
    ensures FirstIdle(s, l).None? ==> AllRunning(s, l)
    ensures FirstIdle(s, l).Some? ==>
              i < |l| && l[i] == FirstIdle(s, l).value && !s.threads[l[i]].status.Running? && AllRunning(s, l[..i])
  {
    if l == [] {
      i := 0;
    } else if s.threads[l[0]].status.Running? {
      var j := FirstIdleLemma(s, l[1..]);
      i := j + 1;
      if FirstIdle(s, l).Some? {
        assert l[..i] == [l[0]] + l[1..][..j];
      }
    } else {
      i := 0;
    }
  }

  /** A new search from list p picks the first thread not running of the highest list at
      or below p that has one, and the idle thread if none has. */
  lemma {:induction false} PickMeaning(s: State, c: nat, p: int, busy: Option<nat>) returns (q: int, i: nat)
    requires Inv(s, busy) && c < |s.cpus| && p <= MAX_PRIORITY
    ensures q <= p && forall r :: q < r <= p && 0 <= r ==> AllRunning(s, ListOf(s, c, r))
    ensures q < 0 ==> Pick(s, c, p, busy) == s.cpus[c].idle
    ensures 0 <= q ==>
              i < |ListOf(s, c, q)| && Pick(s, c, p, busy) == ListOf(s, c, q)[i] &&
              !s.threads[ListOf(s, c, q)[i]].status.Running? && AllRunning(s, ListOf(s, c, q)[..i])
    decreases p + 1
  {
    if p < 0 {
      q, i := p, 0;
    } else {
      i := FirstIdleLemma(s, ListOf(s, c, p));
      if FirstIdle(s, ListOf(s, c, p)).Some? {
        q := p;
      } else {
        q, i := PickMeaning(s, c, p - 1, busy);
      }
    }
  }

  // ---------- raised priorities ----------

  /** A thread's priority without the raise it has at the moment. */
  function Base(th: Thread): int {
    th.priority - (if th.raised then 1 else 0)
  }

  ghost predicate BaseKept(s: State, s': State) {
    forall t :: t in s.threads ==> t in s'.threads && Base(s'.threads[t]) == Base(s.threads[t])
  }

  lemma LowerBase(s: State, c: nat, busy: Option<nat>)
    requires Inv(s, busy) && c < |s.cpus|
    ensures BaseKept(s, Lower(s, c, busy))
  {
    assert CurrentIsMine(s, c, busy);
  }

  lemma {:induction false} RaiseBase(s: State, c: nat, p: nat, i: nat, busy: Option<nat>)
    requires Inv(s, busy) && c < |s.cpus| && p < MAX_PRIORITY && i <= |ListOf(s, c, p)|
    ensures BaseKept(s, RaiseFrom(s, c, p, i, busy))
    decreases i
  {
    hide Inv;
    ShapeOf(s, busy);
    if i > 0 && |ListOf(s, c, p)| / 4 != 0 {
      var s1 := RaiseRound(s, c, p, i, busy);
      assert BaseKept(s, s1);
      RaiseBase(s1, c, p, i - 1, busy);
    }
  }

  lemma StarvationBase(s: State, c: nat, p: nat, busy: Option<nat>)
    requires Inv(s, busy) && c < |s.cpus| && p < MAX_PRIORITY
    ensures BaseKept(s, Starvation(s, c, p, busy))
  {
    hide Inv, RaiseFrom;
    ShapeOf(s, busy);
    var q := s.cpus[c].lists[p].noStarvationQuantum + 1;
    if q < Quantum(p) {
      SetNoStarvationInv(s, c, p, q, busy);
      RaiseBase(SetNoStarvation(s, c, p, q), c, p, |ListOf(s, c, p)|, busy);
    }
  }

  lemma {:induction false} StarvationFromBase(s: State, c: nat, p: nat, busy: Option<nat>)
    requires Inv(s, busy) && c < |s.cpus| && p <= MAX_PRIORITY
    ensures BaseKept(s, StarvationFrom(s, c, p, busy))
    decreases MAX_PRIORITY - p
  {
    hide Inv, Starvation;
    if p < MAX_PRIORITY {
      var s1 := StarvationKeeps(s, c, p, busy);
      StarvationBase(s, c, p, busy);
      StarvationFromBase(s1, c, p + 1, busy);
    }
  }

  lemma ScheduleBase(s: State, c: nat, busy: Option<nat>)
    requires Inv(s, busy) && (busy.None? || busy == Some(c)) && c < |s.cpus|
    ensures BaseKept(s, DoSchedule(s, c, busy))
  {
    hide Inv, StarvationFrom, Lower, Choose;
    LowerInv(s, c, busy);
    LowerBase(s, c, busy);
    if |s.cpus| > 1 {
      StarvationFromBase(Lower(s, c, busy), c, 0, busy);
    }
    var s1 := PrepareKeeps(s, c, busy);
    var s2, t := ChooseKeeps(s1, c, busy);
    SwitchBase(s2, c, t, busy);
  }

  lemma SwitchBase(s: State, c: nat, t: Tid, busy: Option<nat>)
    requires Inv(s, busy) && c < |s.cpus| && t in s.threads
    ensures s.cpus[c].current.Some? ==> s.cpus[c].current.value in s.threads
    ensures BaseKept(s, Switch(s, c, t))
  {
    assert CurrentIsMine(s, c, busy);
    hide Inv;
  }

  lemma YieldBase(s: State, c: nat, busy: Option<nat>)
    requires Inv(s, busy) && (busy.None? || busy == Some(c)) && c < |s.cpus|
    ensures BaseKept(s, DoYield(s, c, busy))
  {
    hide Inv, DoSchedule;
    CurrentKnown(s, c, busy);
    if s.cpus[c].current.None? {
      ScheduleBase(s, c, busy);
    } else {
      var t := s.cpus[c].current.value;
      var q := (s.threads[t].quantum + 1) % 256;
      SetQuantumInv(s, t, q, busy);
      ScheduleBase(SetQuantum(s, t, q), c, busy);
    }
  }

  ghost predicate Blocks(s: State, step: Step, t: Tid) {
    match step
    case BlockAndYield(c) => c < |s.cpus| && s.cpus[c].current == Some(t)
    case BlockWaiting(u) => t == u
    case _ => false
  }

  /** Every step gives a thread its raise back except one: a thread that is blocked while
      it is raised keeps the raised priority for good. */
  lemma BaseIff(s: State, step: Step, t: Tid)
    requires Inv(s, None) && Enabled(s, step) && t in s.threads
    ensures t in Exec(s, step).threads
    ensures Base(Exec(s, step).threads[t]) == Base(s.threads[t]) <==> !(Blocks(s, step, t) && s.threads[t].raised)
    ensures Blocks(s, step, t) && s.threads[t].raised ==> Base(Exec(s, step).threads[t]) == s.threads[t].priority
  {
    hide Inv, DoYield, DoSchedule, DoReady, DoBlock, DoBoost, BlockThenYield;
    ShapeOf(s, None);
    match step {
      case Initialize(u, priority, affinity) =>
      case ReadyThread(u) => ReadyBase(s, u, t);
      case BlockAndYield(c) => BlockedBase(s, c, t);
      case BlockWaiting(u) => WaitingBase(s, u, t);
      case Boost(u) => BoostBase(s, u, t);
      case Yield(c) => YieldBase(s, c, None);
      case Schedule(c) => ScheduleBase(s, c, None);
    }
  }

  lemma ReadyBase(s: State, u: Tid, t: Tid)
    requires Shape(s) && u in s.threads && t in s.threads
    ensures var s' := DoReady(s, u).0;
            t in s'.threads && Base(s'.threads[t]) == Base(s.threads[t])
  {
  }

  lemma WaitingBase(s: State, u: Tid, t: Tid)
    requires Inv(s, None) && Enabled(s, BlockWaiting(u)) && t in s.threads
    ensures s.threads[u].master.value < |s.cpus| && s.readyCount > 0 && Shape(s)
    ensures var s' := DoBlock(s, u).0;
            t in s'.threads &&
            Base(s'.threads[t]) == if t == u && s.threads[t].raised then s.threads[t].priority else Base(s.threads[t])
  {
    hide Inv, DoBlock;
    ShapeOf(s, None);
    BlockOneThread(s, u);
  }

  lemma BoostBase(s: State, u: Tid, t: Tid)
    requires Inv(s, None) && u in s.threads && t in s.threads
    ensures Shape(s) && (s.threads[u].master.Some? ==> s.threads[u].master.value < |s.cpus|)
    ensures var s' := DoBoost(s, u).0;
            t in s'.threads && Base(s'.threads[t]) == Base(s.threads[t])
  {
    ShapeOf(s, None);
    BoostInv(s, u);
  }

  lemma BlockedBase(s: State, c: nat, t: Tid)
    requires Inv(s, None) && Enabled(s, BlockAndYield(c)) && t in s.threads
    ensures var s' := BlockThenYield(s, c);
            t in s'.threads &&
            Base(s'.threads[t]) ==
              if s.cpus[c].current == Some(t) && s.threads[t].raised then s.threads[t].priority else Base(s.threads[t])
  {
    assert CurrentIsMine(s, c, None);
    var u := s.cpus[c].current.value;
    BlockInv(s, u, c);
    BlockOneThread(s, u);
    hide Inv, DoYield;
    YieldBase(DoBlock(s, u).0, c, Some(c));
  }
}
