/**
  Core_Schedule: lowering a raised thread, raising starved ones, choosing the next
  thread of a CPU and switching to it.
 */
module SchedCore {
  import opened Options
  import opened SchedModel

  // ---------- changes that leave the lists alone ----------

  /** Only counters and the current list of CPU c differ. */
  ghost predicate Cosmetic(s: State, s': State) {
    Shape(s) && Shape(s') && s'.threads == s.threads && s'.readyCount == s.readyCount && |s'.cpus| == |s.cpus| &&
    (forall c :: 0 <= c < |s.cpus| ==>
       s'.cpus[c].current == s.cpus[c].current && s'.cpus[c].idle == s.cpus[c].idle &&
       (s'.cpus[c].currentList.Some? ==> s'.cpus[c].currentList.value <= MAX_PRIORITY)) &&
    (forall c, p :: 0 <= c < |s.cpus| && 0 <= p <= MAX_PRIORITY ==> ListOf(s', c, p) == ListOf(s, c, p))
  }

  lemma SameLists(s: State, s': State)
    requires Shape(s) && Shape(s') && |s'.cpus| == |s.cpus|
    requires forall c, p :: 0 <= c < |s.cpus| && 0 <= p <= MAX_PRIORITY ==> ListOf(s', c, p) == ListOf(s, c, p)
    ensures TotalLength(s', |s'.cpus|) == TotalLength(s, |s.cpus|)
  {
    forall c | 0 <= c < |s.cpus|
      ensures CpuLength(s.cpus[c]) == CpuLength(s'.cpus[c])
    {
      assert ListOf(s', c, 0) == ListOf(s, c, 0) && ListOf(s', c, 1) == ListOf(s, c, 1) && ListOf(s', c, 2) == ListOf(s, c, 2);
      assert ListOf(s', c, 3) == ListOf(s, c, 3) && ListOf(s', c, 4) == ListOf(s, c, 4);
    }
    SameTotal(s, s', |s.cpus|);
  }

  lemma CosmeticInv(s: State, s': State, busy: Option<nat>)
    requires Inv(s, busy) && Cosmetic(s, s')
    ensures Inv(s', busy)
  {
    SameLists(s, s');
    forall c | 0 <= c < |s.cpus|
      ensures CurrentIsMine(s', c, busy) && IdleIsMine(s', c) && ListOk(s', c)
    {
      assert CurrentIsMine(s, c, busy) && IdleIsMine(s, c) && ListOk(s, c);
    }
    forall t | t in s'.threads
      ensures Listed(s', t) && RunningIsCurrent(s', t)
    {
      assert Listed(s, t) && RunningIsCurrent(s, t);
    }
  }

  /** What a step on CPU c leaves alone: the other CPUs, and every thread that does
      not belong to c, but for its quantum. */
  ghost predicate Outside(s: State, s': State, c: nat) {
    |s'.cpus| == |s.cpus| && s'.threads.Keys == s.threads.Keys && s'.readyCount == s.readyCount &&
    (forall d :: 0 <= d < |s.cpus| && d != c ==> s'.cpus[d] == s.cpus[d]) &&
    (forall t :: t in s.threads ==> SameOutside(s.threads[t], s'.threads[t], c))
  }

  ghost predicate SameOutside(th: Thread, th': Thread, c: nat) {
    if th.master == Some(c) then th'.master == Some(c)
    else th'.(quantum := 0) == th.(quantum := 0)
  }

  /** Moreover c keeps its current and idle thread, and threads their status. */
  ghost predicate Local(s: State, s': State, c: nat) {
    Outside(s, s', c) && c < |s.cpus| &&
    s'.cpus[c].current == s.cpus[c].current && s'.cpus[c].idle == s.cpus[c].idle &&
    (forall t :: t in s.threads ==> s'.threads[t].status == s.threads[t].status)
  }

  // ---------- lowering the current thread ----------

  function SetQuantum(s: State, t: Tid, q: nat): State
    requires t in s.threads
  {
    WithThread(s, t, s.threads[t].(quantum := q))
  }

  lemma SetQuantumInv(s: State, t: Tid, q: nat, busy: Option<nat>)
    requires Inv(s, busy) && t in s.threads
    ensures Inv(SetQuantum(s, t, q), busy)
  {
    var s' := SetQuantum(s, t, q);
    assert Shape(s');
    forall c, p | 0 <= c < |s.cpus| && 0 <= p <= MAX_PRIORITY
      ensures ListOf(s', c, p) == ListOf(s, c, p)
    {
    }
    forall c | 0 <= c < |s.cpus|
      ensures CurrentIsMine(s', c, busy) && IdleIsMine(s', c) && ListOk(s', c)
    {
      assert CurrentIsMine(s, c, busy) && IdleIsMine(s, c) && ListOk(s, c);
    }
    SameLists(s, s');
    forall u | u in s'.threads
      ensures Listed(s', u) && RunningIsCurrent(s', u)
    {
      assert Listed(s, u) && RunningIsCurrent(s, u);
    }
  }

  lemma LocalTrans(s: State, s1: State, s2: State, c: nat)
    requires Local(s, s1, c) && Local(s1, s2, c)
    ensures Local(s, s2, c)
  {
    OutsideTrans(s, s1, s2, c);
  }

  lemma RelistLocal(s: State, c: nat, t: Tid, p': nat, raised: bool)
    requires t in s.threads && c < |s.cpus| && |s.cpus[c].lists| == MAX_PRIORITY + 1
    requires 0 <= s.threads[t].priority <= MAX_PRIORITY && p' <= MAX_PRIORITY && s.threads[t].master == Some(c)
    ensures Local(s, Relist(s, c, t, p', raised), c)
  {
  }

  function Lower(s: State, c: nat, ghost busy: Option<nat>): (s': State)
    requires Inv(s, busy) && c < |s.cpus|
  {
    assert CurrentIsMine(s, c, busy);
    if s.cpus[c].current.None? then s
    else
      var t := s.cpus[c].current.value;
      if s.threads[t].raised then Relist(SetQuantum(s, t, 0), c, t, s.threads[t].priority - 1, false)
      else SetQuantum(s, t, 0)
  }

  lemma LowerInv(s: State, c: nat, busy: Option<nat>)
    requires Inv(s, busy) && c < |s.cpus|
    ensures Inv(Lower(s, c, busy), busy) && Local(s, Lower(s, c, busy), c)
  {
    assert CurrentIsMine(s, c, busy);
    if s.cpus[c].current.Some? {
      var t := s.cpus[c].current.value;
      SetQuantumInv(s, t, 0, busy);
      SetQuantumLocal(s, c, t, 0);
      if s.threads[t].raised {
        LowerRaised(s, c, t, busy);
      }
    }
  }

  lemma SetQuantumLocal(s: State, c: nat, t: Tid, q: nat)
    requires t in s.threads && c < |s.cpus|
    ensures Local(s, SetQuantum(s, t, q), c)
  {
  }

  lemma RaisedRange(s: State, t: Tid, busy: Option<nat>)
    requires Inv(s, busy) && t in s.threads && s.threads[t].raised
    ensures 1 <= s.threads[t].priority <= MAX_PRIORITY && Shape(s)
  {
  }

  lemma LowerRaised(s: State, c: nat, t: Tid, busy: Option<nat>)
    requires Inv(s, busy) && c < |s.cpus| && t in s.threads && s.threads[t].master == Some(c) && s.threads[t].raised
    ensures s.threads[t].priority >= 1
    ensures var s' := Relist(SetQuantum(s, t, 0), c, t, s.threads[t].priority - 1, false);
            Inv(s', busy) && Local(s, s', c)
  {
    hide Inv, Local, Relist;
    RaisedRange(s, t, busy);
    var s1, p := SetQuantum(s, t, 0), s.threads[t].priority - 1;
    SetQuantumInv(s, t, 0, busy);
    ShapeOf(s1, busy);
    SetQuantumLocal(s, c, t, 0);
    RelistInv(s1, c, t, p, false, busy);
    RelistLocal(s1, c, t, p, false);
    LocalTrans(s, s1, Relist(s1, c, t, p, false), c);
  }

  // ---------- raising starved threads ----------

  /** The loop of ThreadStarvationPrevention over list p, from its i-th node towards
      the head. */
  function RaiseFrom(s: State, c: nat, p: nat, i: nat, ghost busy: Option<nat>): (s': State)
    requires Inv(s, busy) && c < |s.cpus| && p < MAX_PRIORITY && i <= |ListOf(s, c, p)|
    decreases i
  {
    var l := ListOf(s, c, p);
    if i == 0 || |l| / 4 == 0 then s
    else
      var t := l[i - 1];
      assert t in l && ListOk(s, c);
      if t == s.cpus[c].idle || s.threads[t].status.Running? || s.threads[t].raised then
        RaiseFrom(s, c, p, i - 1, busy)
      else
        RelistInv(s, c, t, p + 1, true, busy);
        WithoutLemma(l, t);
        RaiseFrom(Relist(s, c, t, p + 1, true), c, p, i - 1, busy)
  }

  lemma {:induction false} RaiseKeeps(s: State, c: nat, p: nat, i: nat, busy: Option<nat>) returns (s': State)
    requires Inv(s, busy) && c < |s.cpus| && p < MAX_PRIORITY && i <= |ListOf(s, c, p)|
    ensures s' == RaiseFrom(s, c, p, i, busy) && Inv(s', busy) && Local(s, s', c)
    decreases i
  {
    hide Inv;
    ShapeOf(s, busy);
    if i > 0 && |ListOf(s, c, p)| / 4 != 0 {
      var s1 := RaiseRound(s, c, p, i, busy);
      s' := RaiseKeeps(s1, c, p, i - 1, busy);
      LocalTrans(s, s1, s', c);
    } else {
      s' := s;
    }
  }

  /** One round of the loop. */
  lemma RaiseRound(s: State, c: nat, p: nat, i: nat, busy: Option<nat>) returns (s1: State)
    requires Inv(s, busy) && c < |s.cpus| && p < MAX_PRIORITY && 0 < i <= |ListOf(s, c, p)|
    requires |ListOf(s, c, p)| / 4 != 0
    ensures var t := ListOf(s, c, p)[i - 1];
            t in s.threads && s.threads[t].priority == p && !s.threads[t].status.Blocked? &&
            s1 == if t == s.cpus[c].idle || s.threads[t].status.Running? || s.threads[t].raised then s
                  else Relist(s, c, t, p + 1, true)
    ensures Inv(s1, busy) && c < |s1.cpus| && i - 1 <= |ListOf(s1, c, p)| && Local(s, s1, c)
    ensures RaiseFrom(s, c, p, i, busy) == RaiseFrom(s1, c, p, i - 1, busy)
  {
    var l := ListOf(s, c, p);
    var t := l[i - 1];
    assert t in l && Listed(s, t) && ListOk(s, c);
    if t == s.cpus[c].idle || s.threads[t].status.Running? || s.threads[t].raised {
      s1 := s;
    } else {
      s1 := Relist(s, c, t, p + 1, true);
      RelistInv(s, c, t, p + 1, true, busy);
      RelistLocal(s, c, t, p + 1, true);
      WithoutLemma(l, t);
    }
  }

  /** The loop stands at the i-th node of list p and will end in done. */
  ghost predicate Raising(s: State, c: nat, p: nat, i: nat, busy: Option<nat>, done: State) {
    Inv(s, busy) && c < |s.cpus| && p < MAX_PRIORITY && i <= |ListOf(s, c, p)| && RaiseFrom(s, c, p, i, busy) == done
  }

  lemma RaisingOn(s: State, c: nat, p: nat, i: nat, busy: Option<nat>, done: State) returns (s1: State)
    requires Raising(s, c, p, i, busy, done) && i > 0 && |ListOf(s, c, p)| / 4 != 0
    ensures var t := ListOf(s, c, p)[i - 1];
            t in s.threads && s.threads[t].priority == p && !s.threads[t].status.Blocked? &&
            s1 == if t == s.cpus[c].idle || s.threads[t].status.Running? || s.threads[t].raised then s
                  else Relist(s, c, t, p + 1, true)
    ensures Raising(s1, c, p, i - 1, busy, done)
  {
    s1 := RaiseRound(s, c, p, i, busy);
  }

  lemma RaisingEnds(s: State, c: nat, p: nat, i: nat, busy: Option<nat>, done: State)
    requires Raising(s, c, p, i, busy, done) && (i == 0 || |ListOf(s, c, p)| / 4 == 0)
    ensures s == done
  {
  }

  function SetNoStarvation(s: State, c: nat, p: nat, q: nat): State
    requires c < |s.cpus| && p < |s.cpus[c].lists|
  {
    var cpu := s.cpus[c];
    s.(cpus := s.cpus[c := cpu.(lists := cpu.lists[p := cpu.lists[p].(noStarvationQuantum := q)])])
  }

  lemma SetNoStarvationInv(s: State, c: nat, p: nat, q: nat, busy: Option<nat>)
    requires Inv(s, busy) && c < |s.cpus| && p <= MAX_PRIORITY
    ensures Inv(SetNoStarvation(s, c, p, q), busy) && Local(s, SetNoStarvation(s, c, p, q), c)
    ensures |ListOf(SetNoStarvation(s, c, p, q), c, p)| == |ListOf(s, c, p)|
  {
    var s' := SetNoStarvation(s, c, p, q);
    forall d | 0 <= d < |s.cpus|
      ensures s'.cpus[d].currentList.Some? ==> s'.cpus[d].currentList.value <= MAX_PRIORITY
    {
      assert ListOk(s, d);
    }
    CosmeticInv(s, s', busy);
  }

  /** ThreadStarvationPrevention for list p of CPU c. */
  function Starvation(s: State, c: nat, p: nat, ghost busy: Option<nat>): (s': State)
    requires Inv(s, busy) && c < |s.cpus| && p < MAX_PRIORITY
  {
    var q := s.cpus[c].lists[p].noStarvationQuantum + 1;
    if q >= Quantum(p) then SetNoStarvation(s, c, p, 0)
    else
      SetNoStarvationInv(s, c, p, q, busy);
      RaiseFrom(SetNoStarvation(s, c, p, q), c, p, |ListOf(s, c, p)|, busy)
  }

  lemma StarvationInv(s: State, c: nat, p: nat, busy: Option<nat>)
    requires Inv(s, busy) && c < |s.cpus| && p < MAX_PRIORITY
    ensures Inv(Starvation(s, c, p, busy), busy) && Local(s, Starvation(s, c, p, busy), c)
  {
    var s' := StarvationKeeps(s, c, p, busy);
  }

  lemma StarvationKeeps(s: State, c: nat, p: nat, busy: Option<nat>) returns (s': State)
    requires Inv(s, busy) && c < |s.cpus| && p < MAX_PRIORITY
    ensures s' == Starvation(s, c, p, busy) && Inv(s', busy) && Local(s, s', c)
  {
    var q := s.cpus[c].lists[p].noStarvationQuantum + 1;
    if q >= Quantum(p) {
      SetNoStarvationInv(s, c, p, 0, busy);
      s' := SetNoStarvation(s, c, p, 0);
    } else {
      SetNoStarvationInv(s, c, p, q, busy);
      var s1 := SetNoStarvation(s, c, p, q);
      s' := RaiseKeeps(s1, c, p, |ListOf(s, c, p)|, busy);
      LocalTrans(s, s1, s', c);
    }
  }

  /** The passes over the lists p to 3. */
  function StarvationFrom(s: State, c: nat, p: nat, ghost busy: Option<nat>): (s': State)
    requires Inv(s, busy) && c < |s.cpus| && p <= MAX_PRIORITY
    decreases MAX_PRIORITY - p
  {
    if p == MAX_PRIORITY then s
    else
      StarvationInv(s, c, p, busy);
      StarvationFrom(Starvation(s, c, p, busy), c, p + 1, busy)
  }

  lemma {:induction false} StarvationFromKeeps(s: State, c: nat, p: nat, busy: Option<nat>) returns (s': State)
    requires Inv(s, busy) && c < |s.cpus| && p <= MAX_PRIORITY
    ensures s' == StarvationFrom(s, c, p, busy) && Inv(s', busy) && Local(s, s', c)
    decreases MAX_PRIORITY - p
  {
    if p < MAX_PRIORITY {
      var s1 := StarvationKeeps(s, c, p, busy);
      s' := StarvationFromKeeps(s1, c, p + 1, busy);
      LocalTrans(s, s1, s', c);
    } else {
      s' := s;
    }
  }

  // ---------- choosing ----------

  /** The node after t, if t is on the list and not its last. */
  function NextIn(l: seq<Tid>, t: Tid): Option<Tid> {
    if |l| < 2 then None else if l[0] == t then Some(l[1]) else NextIn(l[1..], t)
  }

  lemma {:induction false} NextInLemma(l: seq<Tid>, t: Tid)
    ensures NextIn(l, t).Some? ==> NextIn(l, t).value in l
    ensures NoDup(l) ==> NextIn(l, t) != Some(t)
  {
    if |l| >= 2 && l[0] != t {
      NextInLemma(l[1..], t);
    }
  }

  lemma {:induction false} NextAt(l: seq<Tid>, t: Tid, i: nat)
    requires NoDup(l) && i < |l| && l[i] == t
    ensures NextIn(l, t) == if i + 1 < |l| then Some(l[i + 1]) else None
  {
    if i > 0 {
      assert l[0] != l[i];
      NextAt(l[1..], t, i - 1);
    }
  }

  /** The first thread of l that is not running. */
  function FirstIdle(s: State, l: seq<Tid>): (r: Option<Tid>)
    requires forall t :: t in l ==> t in s.threads
    ensures r.Some? ==> r.value in l && !s.threads[r.value].status.Running?
    ensures r.None? ==> forall t :: t in l ==> s.threads[t].status.Running?
  {
    if l == [] then None else if s.threads[l[0]].status.Running? then FirstIdle(s, l[1..]) else Some(l[0])
  }

  /** The downward search from list p, ending at the idle thread. */
  function Pick(s: State, c: nat, p: int, ghost busy: Option<nat>): (t: Tid)
    requires Inv(s, busy) && c < |s.cpus| && p <= MAX_PRIORITY
    ensures t in s.threads && s.threads[t].master == Some(c)
    ensures t != s.cpus[c].idle ==> !s.threads[t].status.Running?
    decreases p + 1
  {
    assert IdleIsMine(s, c);
    if p < 0 then s.cpus[c].idle
    else
      var r := FirstIdle(s, ListOf(s, c, p));
      if r.Some? then r.value else Pick(s, c, p - 1, busy)
  }

  /** currentPriorityList and its quantum, once a new search begins. */
  function Turn(cpu: Cpu): Cpu
    requires |cpu.lists| == MAX_PRIORITY + 1 && (cpu.currentList.Some? ==> cpu.currentList.value <= MAX_PRIORITY)
  {
    var p := if cpu.currentList.Some? then cpu.currentList.value else MAX_PRIORITY;
    var q := cpu.lists[p].quantum + 1;
    if q >= Quantum(p) then
      cpu.(lists := cpu.lists[p := cpu.lists[p].(quantum := 0)],
           currentList := Some(if p == 0 then MAX_PRIORITY else p - 1))
    else
      cpu.(lists := cpu.lists[p := cpu.lists[p].(quantum := q)], currentList := Some(p))
  }

  lemma TurnInv(s: State, c: nat, busy: Option<nat>)
    requires Inv(s, busy) && c < |s.cpus|
    ensures |s.cpus[c].lists| == MAX_PRIORITY + 1 && ListOk(s, c)
    ensures var s' := s.(cpus := s.cpus[c := Turn(s.cpus[c])]);
            Inv(s', busy) && Local(s, s', c) && s'.cpus[c].currentList.Some? && ListOk(s', c)
  {
    assert ListOk(s, c);
    var s' := s.(cpus := s.cpus[c := Turn(s.cpus[c])]);
    forall d | 0 <= d < |s.cpus|
      ensures s'.cpus[d].currentList.Some? ==> s'.cpus[d].currentList.value <= MAX_PRIORITY
    {
      assert ListOk(s, d);
    }
    CosmeticInv(s, s', busy);
    assert ListOk(s', c);
  }

  /** The thread after the current one on its list, else the outcome of a new search. */
  function Choose(s: State, c: nat, ghost busy: Option<nat>): (r: (State, Tid))
    requires Inv(s, busy) && c < |s.cpus|
  {
    assert CurrentIsMine(s, c, busy);
    var next := if s.cpus[c].current.Some? then Successor(s, c, s.cpus[c].current.value, busy) else None;
    if next.Some? then (s, next.value)
    else
      TurnInv(s, c, busy);
      var s1 := s.(cpus := s.cpus[c := Turn(s.cpus[c])]);
      (s1, Pick(s1, c, s1.cpus[c].currentList.value, busy))
  }

  lemma ChooseKeeps(s: State, c: nat, busy: Option<nat>) returns (s': State, t: Tid)
    requires Inv(s, busy) && c < |s.cpus|
    ensures (s', t) == Choose(s, c, busy) && Inv(s', busy) && Local(s, s', c)
    ensures s'.threads == s.threads && t in s.threads && s.threads[t].master == Some(c)
  {
    assert CurrentIsMine(s, c, busy);
    var next := if s.cpus[c].current.Some? then Successor(s, c, s.cpus[c].current.value, busy) else None;
    if next.Some? {
      s', t := s, next.value;
    } else {
      TurnInv(s, c, busy);
      s' := s.(cpus := s.cpus[c := Turn(s.cpus[c])]);
      t := Pick(s', c, s'.cpus[c].currentList.value, busy);
    }
  }

  /** snode->next of a thread: a thread on no list has none. */
  function Successor(s: State, c: nat, t: Tid, ghost busy: Option<nat>): (r: Option<Tid>)
    requires Inv(s, busy) && c < |s.cpus| && t in s.threads && (s.threads[t].master == Some(c) || s.threads[t].master.None?)
    ensures r.Some? ==> r.value in s.threads && s.threads[r.value].master == Some(c) && r.value != t
  {
    assert Listed(s, t) && ListOk(s, c);
    if s.threads[t].master.None? then None
    else
      NextInLemma(ListOf(s, c, s.threads[t].priority), t);
      NextIn(ListOf(s, c, s.threads[t].priority), t)
  }

  lemma CurrentKnown(s: State, c: nat, busy: Option<nat>)
    requires Inv(s, busy) && c < |s.cpus|
    ensures s.cpus[c].current.Some? ==> s.cpus[c].current.value in s.threads
  {
    assert CurrentIsMine(s, c, busy);
  }

  // ---------- switching ----------

  /** The tail of Core_Schedule, from switch_thread on. */
  function Switch(s: State, c: nat, t: Tid): State
    requires c < |s.cpus| && t in s.threads
    requires s.cpus[c].current.Some? ==> s.cpus[c].current.value in s.threads
  {
    var s1 := WithThread(s, t, s.threads[t].(status := Running, master := Some(c), quantum := 0));
    var s2 :=
      if s.cpus[c].current.Some? && CanRun(s1.threads[s.cpus[c].current.value], c) then
        var u := s.cpus[c].current.value;
        WithThread(s1, u, s1.threads[u].(status := Ready))
      else s1;
    s2.(cpus := s2.cpus[c := s2.cpus[c].(current := Some(t))])
  }

  /** threadCanRunThread. */
  predicate CanRun(th: Thread, c: nat) {
    !th.status.Blocked? && c in th.affinity
  }

  /** The assertion in Core_Schedule: a thread to switch to is not running, unless it is
      the current one. */
  lemma NotRunningElsewhere(s: State, c: nat, t: Tid, busy: Option<nat>)
    requires Inv(s, busy) && c < |s.cpus| && t in s.threads && s.threads[t].master == Some(c)
    ensures s.cpus[c].current != Some(t) ==> !s.threads[t].status.Running?
  {
    assert RunningIsCurrent(s, t);
  }

  lemma SwitchLists(s: State, c: nat, t: Tid)
    requires Shape(s) && c < |s.cpus| && t in s.threads
    requires s.cpus[c].current.Some? ==> s.cpus[c].current.value in s.threads
    ensures var s' := Switch(s, c, t);
            Shape(s') && |s'.cpus| == |s.cpus| && s'.readyCount == s.readyCount &&
            (forall d, p :: 0 <= d < |s.cpus| && 0 <= p <= MAX_PRIORITY ==> ListOf(s', d, p) == ListOf(s, d, p)) &&
            TotalLength(s', |s'.cpus|) == TotalLength(s, |s.cpus|)
  {
    var s' := Switch(s, c, t);
    assert Shape(s');
    SameLists(s, s');
  }

  /** What becomes of each thread: the chosen one runs, a different one that ran
      before is ready again, and a thread chosen again is left ready. */
  lemma SwitchThreads(s: State, c: nat, t: Tid, busy: Option<nat>, u: Tid)
    requires Inv(s, busy) && (busy.None? || busy == Some(c)) && c < |s.cpus|
    requires t in s.threads && s.threads[t].master == Some(c) && u in s.threads
    ensures s.cpus[c].current.Some? ==> s.cpus[c].current.value in s.threads
    ensures var s' := Switch(s, c, t);
            var th, th' := s.threads[u], s'.threads[u];
            s'.threads.Keys == s.threads.Keys && th'.master == th.master && th'.priority == th.priority &&
            th'.raised == th.raised && th'.affinity == th.affinity &&
            th'.status ==
              if s.cpus[c].current == Some(u) then (if th.status.Blocked? then Blocked else Ready)
              else if u == t then Running
              else th.status
  {
    assert CurrentIsMine(s, c, busy) && Listed(s, t) && Listed(s, u);
  }

  lemma SwitchCpus(s: State, c: nat, t: Tid, busy: Option<nat>, d: nat)
    requires Inv(s, busy) && (busy.None? || busy == Some(c)) && c < |s.cpus| && d < |s.cpus|
    requires t in s.threads && s.threads[t].master == Some(c)
    ensures s.cpus[c].current.Some? ==> s.cpus[c].current.value in s.threads
    ensures var s' := Switch(s, c, t);
            Shape(s') && |s'.cpus| == |s.cpus| && CurrentIsMine(s', d, None) && IdleIsMine(s', d) && ListOk(s', d)
  {
    assert CurrentIsMine(s, c, busy) && CurrentIsMine(s, d, busy) && IdleIsMine(s, d) && ListOk(s, d);
    SwitchLists(s, c, t);
    SwitchThreads(s, c, t, busy, t);
    SwitchThreads(s, c, t, busy, s.cpus[d].idle);
    if s.cpus[d].current.Some? {
      SwitchThreads(s, c, t, busy, s.cpus[d].current.value);
    }
    var s' := Switch(s, c, t);
    assert forall p :: 0 <= p <= MAX_PRIORITY ==> ListOf(s', d, p) == ListOf(s, d, p);
  }

  lemma SwitchInv(s: State, c: nat, t: Tid, busy: Option<nat>)
    requires Inv(s, busy) && (busy.None? || busy == Some(c)) && c < |s.cpus|
    requires t in s.threads && s.threads[t].master == Some(c)
    ensures s.cpus[c].current.Some? ==> s.cpus[c].current.value in s.threads
    ensures Inv(Switch(s, c, t), None)
  {
    SwitchThreads(s, c, t, busy, t);
    var s' := Switch(s, c, t);
    SwitchLists(s, c, t);
    forall u | u in s'.threads
      ensures Listed(s', u) && RunningIsCurrent(s', u)
      ensures s'.threads[u].master == s.threads[u].master && s'.threads[u].priority == s.threads[u].priority
      ensures s'.threads[u].raised == s.threads[u].raised
    {
      SwitchThreads(s, c, t, busy, u);
      assert Listed(s, u) && RunningIsCurrent(s, u);
    }
    forall d | 0 <= d < |s.cpus|
      ensures CurrentIsMine(s', d, None) && IdleIsMine(s', d) && ListOk(s', d)
    {
      SwitchCpus(s, c, t, busy, d);
    }
  }

  // ---------- Core_Schedule ----------

  function Prepare(s: State, c: nat, ghost busy: Option<nat>): (s': State)
    requires Inv(s, busy) && c < |s.cpus|
  {
    LowerInv(s, c, busy);
    if |s.cpus| > 1 then StarvationFrom(Lower(s, c, busy), c, 0, busy) else Lower(s, c, busy)
  }

  lemma PrepareKeeps(s: State, c: nat, busy: Option<nat>) returns (s': State)
    requires Inv(s, busy) && c < |s.cpus|
    ensures s' == Prepare(s, c, busy) && Inv(s', busy) && Local(s, s', c)
  {
    LowerInv(s, c, busy);
    var s1 := Lower(s, c, busy);
    if |s.cpus| > 1 {
      s' := StarvationFromKeeps(s1, c, 0, busy);
      LocalTrans(s, s1, s', c);
    } else {
      s' := s1;
    }
  }

  lemma PrepareInv(s: State, c: nat, busy: Option<nat>)
    requires Inv(s, busy) && c < |s.cpus|
    ensures Inv(Prepare(s, c, busy), busy) && Local(s, Prepare(s, c, busy), c)
  {
    var s' := PrepareKeeps(s, c, busy);
  }

  lemma ChooseInv(s: State, c: nat, busy: Option<nat>)
    requires Inv(s, busy) && c < |s.cpus|
    ensures var r := Choose(s, c, busy);
            Inv(r.0, busy) && Local(s, r.0, c) && r.1 in r.0.threads && r.0.threads[r.1].master == Some(c)
  {
    var s', t := ChooseKeeps(s, c, busy);
  }

  function DoSchedule(s: State, c: nat, ghost busy: Option<nat>): (s': State)
    requires Inv(s, busy) && (busy.None? || busy == Some(c)) && c < |s.cpus|
  {
    PrepareInv(s, c, busy);
    ChooseInv(Prepare(s, c, busy), c, busy);
    var r := Choose(Prepare(s, c, busy), c, busy);
    assert CurrentIsMine(r.0, c, busy);
    Switch(r.0, c, r.1)
  }

  lemma ScheduleKeeps(s: State, c: nat, busy: Option<nat>) returns (s': State)
    requires Inv(s, busy) && (busy.None? || busy == Some(c)) && c < |s.cpus|
    ensures s' == DoSchedule(s, c, busy) && Inv(s', None)
  {
    var s1 := PrepareKeeps(s, c, busy);
    var s2, t := ChooseKeeps(s1, c, busy);
    SwitchInv(s2, c, t, busy);
    s' := Switch(s2, c, t);
  }

  /** Core_Yield on CPU c: a thread that can run and has some of its quantum left goes
      on. */
  function DoYield(s: State, c: nat, ghost busy: Option<nat>): (s': State)
    requires Inv(s, busy) && (busy.None? || busy == Some(c)) && c < |s.cpus|
  {
    assert CurrentIsMine(s, c, busy);
    if s.cpus[c].current.None? then DoSchedule(s, c, busy)
    else
      var t := s.cpus[c].current.value;
      var q := (s.threads[t].quantum + 1) % 256;
      SetQuantumInv(s, t, q, busy);
      if q < Quantum(s.threads[t].priority) && CanRun(s.threads[t], c) then SetQuantum(s, t, q)
      else DoSchedule(SetQuantum(s, t, q), c, busy)
  }

  lemma ScheduleInv(s: State, c: nat, busy: Option<nat>)
    requires Inv(s, busy) && (busy.None? || busy == Some(c)) && c < |s.cpus|
    ensures Inv(DoSchedule(s, c, busy), None)
  {
    var s' := ScheduleKeeps(s, c, busy);
  }

  lemma YieldKeeps(s: State, c: nat, busy: Option<nat>) returns (s': State)
    requires Inv(s, busy) && (busy.None? || busy == Some(c)) && c < |s.cpus|
    ensures s' == DoYield(s, c, busy) && Inv(s', None)
  {
    hide Inv, DoSchedule;
    CurrentKnown(s, c, busy);
    if s.cpus[c].current.None? {
      s' := ScheduleKeeps(s, c, busy);
    } else {
      var t := s.cpus[c].current.value;
      var q := (s.threads[t].quantum + 1) % 256;
      SetQuantumInv(s, t, q, busy);
      s' := SetQuantum(s, t, q);
      if q < Quantum(s.threads[t].priority) && CanRun(s.threads[t], c) {
        StillRunning(s', c);
      } else {
        s' := ScheduleKeeps(s', c, busy);
      }
    }
  }

  lemma YieldInv(s: State, c: nat, busy: Option<nat>)
    requires Inv(s, busy) && (busy.None? || busy == Some(c)) && c < |s.cpus|
    ensures Inv(DoYield(s, c, busy), None)
  {
    var s' := YieldKeeps(s, c, busy);
  }

  /** A CPU whose current thread is not blocked is not in the middle of anything. */
  lemma StillRunning(s: State, c: nat)
    requires Inv(s, Some(c)) || Inv(s, None)
    requires c < |s.cpus| && s.cpus[c].current.Some? && s.cpus[c].current.value in s.threads
    requires !s.threads[s.cpus[c].current.value].status.Blocked?
    ensures Inv(s, None)
  {
    if Inv(s, Some(c)) {
      forall d | 0 <= d < |s.cpus|
        ensures CurrentIsMine(s, d, None)
      {
        assert CurrentIsMine(s, d, Some(c));
      }
    }
  }

  /** Core_Schedule leaves the other CPUs and their threads alone. */
  lemma ScheduleOutside(s: State, c: nat, busy: Option<nat>)
    requires Inv(s, busy) && (busy.None? || busy == Some(c)) && c < |s.cpus|
    ensures Outside(s, DoSchedule(s, c, busy), c)
  {
    var s1 := PrepareKeeps(s, c, busy);
    var s2, t := ChooseKeeps(s1, c, busy);
    SwitchOutside(s2, c, t, busy);
    OutsideTrans(s, s1, s2, c);
    OutsideTrans(s, s2, Switch(s2, c, t), c);
  }

  lemma OutsideTrans(s: State, s1: State, s2: State, c: nat)
    requires Outside(s, s1, c) && Outside(s1, s2, c)
    ensures Outside(s, s2, c)
  {
    forall t | t in s.threads
      ensures SameOutside(s.threads[t], s2.threads[t], c)
    {
      assert SameOutside(s.threads[t], s1.threads[t], c) && SameOutside(s1.threads[t], s2.threads[t], c);
    }
  }

  lemma SwitchOutside(s: State, c: nat, t: Tid, busy: Option<nat>)
    requires Inv(s, busy) && (busy.None? || busy == Some(c)) && c < |s.cpus|
    requires t in s.threads && s.threads[t].master == Some(c)
    ensures s.cpus[c].current.Some? ==> s.cpus[c].current.value in s.threads
    ensures Outside(s, Switch(s, c, t), c)
  {
    assert CurrentIsMine(s, c, busy);
    var s' := Switch(s, c, t);
    forall u | u in s.threads
      ensures SameOutside(s.threads[u], s'.threads[u], c)
    {
    }
  }

  /** The thread that Core_Schedule picks is one of the CPU's own and becomes its
      current one.  It is marked running unless it was current already: then the last
      store leaves it ready, although the CPU goes on running it. */
  lemma ScheduledThread(s: State, c: nat, busy: Option<nat>)
    requires Inv(s, busy) && (busy.None? || busy == Some(c)) && c < |s.cpus|
    ensures var s' := DoSchedule(s, c, busy);
            |s'.cpus| == |s.cpus| && s'.cpus[c].current.Some? &&
            var t := s'.cpus[c].current.value;
            t in s'.threads && s'.threads[t].master == Some(c) && c in s'.threads[t].affinity &&
            (s'.threads[t].status.Running? <==> s.cpus[c].current != Some(t)) && !s'.threads[t].status.Blocked?
  {
    var s1 := PrepareKeeps(s, c, busy);
    var s2, t := ChooseKeeps(s1, c, busy);
    SwitchThreads(s2, c, t, busy, t);
    assert Listed(s2, t);
  }

  /** A pass over a list that ends in done leaves only idle, running and already raised
      threads on it, unless it is down to three. */
  lemma {:induction false} RaisedAll(s: State, c: nat, p: nat, i: nat, busy: Option<nat>, done: State)
    requires Raising(s, c, p, i, busy, done) && ExemptFrom(s, c, p, i)
    ensures ExemptOnly(done, c, p)
    decreases i
  {
    if i == 0 || |ListOf(s, c, p)| / 4 == 0 {
      RaisingEnds(s, c, p, i, busy, done);
    } else {
      var s1 := RaisedOne(s, c, p, i, busy, done);
      RaisedAll(s1, c, p, i - 1, busy, done);
    }
  }

  lemma RaisedOne(s: State, c: nat, p: nat, i: nat, busy: Option<nat>, done: State) returns (s1: State)
    requires Raising(s, c, p, i, busy, done) && i > 0 && |ListOf(s, c, p)| / 4 != 0 && ExemptFrom(s, c, p, i)
    ensures Raising(s1, c, p, i - 1, busy, done) && ExemptFrom(s1, c, p, i - 1)
  {
    s1 := RaisingOn(s, c, p, i, busy, done);
    var t := ListOf(s, c, p)[i - 1];
    if !Exempt(s, c, t) {
      RelistExempt(s, c, t, p, i, busy);
    }
  }

  ghost predicate ExemptFrom(s: State, c: nat, p: nat, i: nat)
    requires c < |s.cpus| && p < |s.cpus[c].lists|
  {
    forall j :: i <= j < |ListOf(s, c, p)| ==> Exempt(s, c, ListOf(s, c, p)[j])
  }

  ghost predicate ExemptOnly(s: State, c: nat, p: nat) {
    c < |s.cpus| && p < |s.cpus[c].lists| && (|ListOf(s, c, p)| < 4 || ExemptFrom(s, c, p, 0))
  }

  ghost predicate Exempt(s: State, c: nat, t: Tid)
    requires c < |s.cpus|
  {
    t in s.threads && (t == s.cpus[c].idle || s.threads[t].status.Running? || s.threads[t].raised)
  }

  lemma RelistExempt(s: State, c: nat, t: Tid, p: nat, i: nat, busy: Option<nat>)
    requires Inv(s, busy) && c < |s.cpus| && p < MAX_PRIORITY && 0 < i <= |ListOf(s, c, p)|
    requires t == ListOf(s, c, p)[i - 1] && t in s.threads && s.threads[t].priority == p
    requires ExemptFrom(s, c, p, i)
    ensures var s' := Relist(s, c, t, p + 1, true);
            Shape(s') && |s'.cpus| == |s.cpus| && |ListOf(s', c, p)| == |ListOf(s, c, p)| - 1 &&
            ExemptFrom(s', c, p, i - 1)
  {
    var l := ListOf(s, c, p);
    assert ListOk(s, c);
    WithoutAt(l, i - 1);
    RelistLists(s, c, t, p + 1, true, c, p);
    var s' := Relist(s, c, t, p + 1, true);
    assert Shape(s');
    forall j | i - 1 <= j < |ListOf(s', c, p)|
      ensures Exempt(s', c, ListOf(s', c, p)[j])
    {
      assert ListOf(s', c, p)[j] == l[j + 1];
    }
  }

  lemma {:induction false} WithoutAt(l: seq<Tid>, k: nat)
    requires NoDup(l) && k < |l|
    ensures Without(l, l[k]) == l[..k] + l[k + 1..]
  {
    if k > 0 {
      assert l[0] != l[k];
      WithoutAt(l[1..], k - 1);
    }
  }
}
