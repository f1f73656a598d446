/**
  The scheduler's state and what each of its operations makes of it.
 */
module SchedModel {
  import opened Options

  type Tid = nat

  datatype Status = Ready | Running | Blocked

  datatype Thread = Thread(
    priority: int, status: Status, raised: bool, died: bool,
    master: Option<nat>, affinity: set<nat>, quantum: nat)

  datatype PriorityList = PriorityList(list: seq<Tid>, noStarvationQuantum: nat, quantum: nat)

  datatype Cpu = Cpu(lists: seq<PriorityList>, current: Option<Tid>, idle: Tid, currentList: Option<nat>)

  datatype State = State(threads: map<Tid, Thread>, cpus: seq<Cpu>, readyCount: nat)

  /** THREAD_PRIORITY_IDLE is 0, THREAD_PRIORITY_URGENT is 4. */
  const MAX_PRIORITY := 4

  /** Core_ThreadPriorityToQuantum. */
  function Quantum(p: int): nat {
    if p <= 0 then 2 else if p == 1 then 4 else if p == 2 then 8 else 12
  }

  // ---------- lists ----------

  ghost predicate NoDup(l: seq<Tid>) {
    forall i, j :: 0 <= i < j < |l| ==> l[i] != l[j]
  }

  function Without(l: seq<Tid>, t: Tid): seq<Tid> {
    if l == [] then [] else if l[0] == t then l[1..] else [l[0]] + Without(l[1..], t)
  }

  lemma {:induction false} WithoutLemma(l: seq<Tid>, t: Tid)
    requires NoDup(l)
    ensures NoDup(Without(l, t)) && forall u :: u in Without(l, t) <==> u in l && u != t
    ensures |Without(l, t)| == |l| - (if t in l then 1 else 0)
  {
    if l != [] {
      assert forall u :: u in l <==> u == l[0] || u in l[1..];
      assert l[0] !in l[1..];
      WithoutLemma(l[1..], t);
      var w := Without(l[1..], t);
      if l[0] != t {
        assert forall u :: u in [l[0]] + w <==> u == l[0] || u in w;
        assert NoDup([l[0]] + w);
      }
    }
  }

  lemma AppendLemma(l: seq<Tid>, t: Tid)
    requires NoDup(l) && t !in l
    ensures NoDup(l + [t]) && forall u :: u in l + [t] <==> u in l || u == t
  {
  }

  // ---------- the state's parts ----------

  ghost predicate Shape(s: State) {
    forall c :: 0 <= c < |s.cpus| ==> |s.cpus[c].lists| == MAX_PRIORITY + 1
  }

  function ListOf(s: State, c: nat, p: nat): seq<Tid>
    requires c < |s.cpus| && p < |s.cpus[c].lists|
  {
    s.cpus[c].lists[p].list
  }

  function WithList(s: State, c: nat, p: nat, l: seq<Tid>): (s': State)
    requires c < |s.cpus| && p < |s.cpus[c].lists|
  {
    var cpu := s.cpus[c];
    s.(cpus := s.cpus[c := cpu.(lists := cpu.lists[p := cpu.lists[p].(list := l)])])
  }

  function WithThread(s: State, t: Tid, th: Thread): State {
    s.(threads := s.threads[t := th])
  }

  ghost function CpuLength(cpu: Cpu): nat
    requires |cpu.lists| == MAX_PRIORITY + 1
  {
    |cpu.lists[0].list| + |cpu.lists[1].list| + |cpu.lists[2].list| + |cpu.lists[3].list| + |cpu.lists[4].list|
  }

  /** The length of all lists of the first n CPUs together. */
  ghost function TotalLength(s: State, n: nat): nat
    requires Shape(s) && n <= |s.cpus|
  {
    if n == 0 then 0 else TotalLength(s, n - 1) + CpuLength(s.cpus[n - 1])
  }

  // ---------- the invariant ----------

  ghost predicate OnlyListed(s: State)
    requires Shape(s)
  {
    forall c, p, t :: 0 <= c < |s.cpus| && 0 <= p <= MAX_PRIORITY && t in ListOf(s, c, p) ==>
      t in s.threads && s.threads[t].master == Some(c) && s.threads[t].priority == p
  }

  ghost predicate Listed(s: State, t: Tid)
    requires Shape(s) && t in s.threads
  {
    var th := s.threads[t];
    th.master.Some? ==>
      th.master.value < |s.cpus| && 0 <= th.priority <= MAX_PRIORITY &&
      t in ListOf(s, th.master.value, th.priority) && th.master.value in th.affinity && !th.status.Blocked?
  }

  ghost predicate RunningIsCurrent(s: State, t: Tid)
    requires t in s.threads
  {
    var th := s.threads[t];
    th.status.Running? ==>
      th.master.Some? && th.master.value < |s.cpus| && s.cpus[th.master.value].current == Some(t)
  }

  /** The thread that c runs belongs to c; while c is in the middle of blocking its
      thread (c == busy), that thread is blocked and belongs to no CPU. */
  ghost predicate CurrentIsMine(s: State, c: nat, busy: Option<nat>)
    requires c < |s.cpus|
  {
    s.cpus[c].current.Some? ==>
      var t := s.cpus[c].current.value;
      t in s.threads &&
      (s.threads[t].master == Some(c) ||
       (busy == Some(c) && s.threads[t].master.None? && s.threads[t].status.Blocked? && !s.threads[t].raised))
  }

  ghost predicate IdleIsMine(s: State, c: nat)
    requires c < |s.cpus|
  {
    s.cpus[c].idle in s.threads && s.threads[s.cpus[c].idle].master == Some(c)
  }

  ghost predicate ListOk(s: State, c: nat)
    requires Shape(s) && c < |s.cpus|
  {
    (forall p :: 0 <= p <= MAX_PRIORITY ==> NoDup(ListOf(s, c, p))) &&
    (s.cpus[c].currentList.Some? ==> s.cpus[c].currentList.value <= MAX_PRIORITY)
  }

  ghost predicate Inv(s: State, busy: Option<nat>) {
    Shape(s) && OnlyListed(s) &&
    (forall t :: t in s.threads ==> Listed(s, t) && RunningIsCurrent(s, t)) &&
    (forall t :: t in s.threads && s.threads[t].raised ==> 1 <= s.threads[t].priority <= MAX_PRIORITY) &&
    (forall c :: 0 <= c < |s.cpus| ==> CurrentIsMine(s, c, busy) && IdleIsMine(s, c) && ListOk(s, c)) &&
    s.readyCount == TotalLength(s, |s.cpus|)
  }

  lemma ShapeOf(s: State, busy: Option<nat>)
    requires Inv(s, busy)
    ensures Shape(s)
  {
  }

  lemma {:induction false} TotalUpdate(s: State, c: nat, p: nat, l: seq<Tid>, n: nat)
    requires Shape(s) && c < |s.cpus| && p <= MAX_PRIORITY && n <= |s.cpus|
    ensures Shape(WithList(s, c, p, l))
    ensures TotalLength(WithList(s, c, p, l), n) ==
            TotalLength(s, n) + (if c < n then |l| - |ListOf(s, c, p)| else 0)
  {
    if n > 0 {
      TotalUpdate(s, c, p, l, n - 1);
    }
  }

  // ---------- one thread changes ----------

  /** Between s and s' only thread t and its place in the lists change. */
  ghost predicate OneThread(s: State, s': State, t: Tid)
    requires Shape(s) && Shape(s')
  {
    t in s'.threads && s'.threads == s.threads[t := s'.threads[t]] && |s'.cpus| == |s.cpus| &&
    (forall c :: 0 <= c < |s.cpus| ==>
       s'.cpus[c].current == s.cpus[c].current && s'.cpus[c].idle == s.cpus[c].idle && ListOk(s', c)) &&
    (forall c, p, u :: 0 <= c < |s.cpus| && 0 <= p <= MAX_PRIORITY && u != t ==>
       (u in ListOf(s', c, p) <==> u in ListOf(s, c, p))) &&
    (forall c, p :: 0 <= c < |s.cpus| && 0 <= p <= MAX_PRIORITY ==>
       (t in ListOf(s', c, p) <==> s'.threads[t].master == Some(c) && s'.threads[t].priority == p))
  }

  /** What the new thread must satisfy for the invariant to go on holding. */
  ghost predicate ThreadOk(s: State, t: Tid, busy: Option<nat>)
    requires Shape(s) && t in s.threads
  {
    var th := s.threads[t];
    (th.master.Some? ==>
       th.master.value < |s.cpus| && 0 <= th.priority <= MAX_PRIORITY && th.master.value in th.affinity &&
       !th.status.Blocked?) &&
    (th.raised ==> 1 <= th.priority <= MAX_PRIORITY) && RunningIsCurrent(s, t) &&
    (forall c :: 0 <= c < |s.cpus| && s.cpus[c].current == Some(t) ==> CurrentIsMine(s, c, busy)) &&
    (forall c :: 0 <= c < |s.cpus| && s.cpus[c].idle == t ==> th.master == Some(c))
  }

  lemma OneThreadInv(s: State, s': State, t: Tid, busy: Option<nat>, busy': Option<nat>)
    requires Inv(s, busy) && Shape(s') && OneThread(s, s', t) && ThreadOk(s', t, busy')
    requires busy.None? || busy == busy'
    requires s'.readyCount == TotalLength(s', |s'.cpus|)
    ensures Inv(s', busy')
  {
    forall u | u in s'.threads
      ensures Listed(s', u) && RunningIsCurrent(s', u)
    {
      if u != t {
        assert Listed(s, u) && RunningIsCurrent(s, u);
      }
    }
    forall c | 0 <= c < |s'.cpus|
      ensures CurrentIsMine(s', c, busy') && IdleIsMine(s', c)
    {
      assert CurrentIsMine(s, c, busy) && IdleIsMine(s, c);
    }
  }

  /** Inv makes a thread's place unique: it is on the list of its priority at its CPU
      and on no other. */
  lemma OnExactlyOneList(s: State, busy: Option<nat>, t: Tid, c: nat, p: nat)
    requires Inv(s, busy) && t in s.threads && c < |s.cpus| && p <= MAX_PRIORITY
    ensures t in ListOf(s, c, p) <==> s.threads[t].master == Some(c) && s.threads[t].priority == p
  {
    assert Listed(s, t);
  }

  lemma CurrentOnOneCpu(s: State, c: nat, d: nat)
    requires Inv(s, None) && c < |s.cpus| && d < |s.cpus|
    requires s.cpus[c].current.Some? && s.cpus[c].current == s.cpus[d].current
    ensures c == d
  {
    assert CurrentIsMine(s, c, None) && CurrentIsMine(s, d, None);
  }

  // ---------- moving a thread between lists ----------

  /** t goes to the tail of list p' of CPU c, in place of the list it is on. */
  function Relist(s: State, c: nat, t: Tid, p': nat, raised: bool): State
    requires t in s.threads && c < |s.cpus| && |s.cpus[c].lists| == MAX_PRIORITY + 1
    requires 0 <= s.threads[t].priority <= MAX_PRIORITY && p' <= MAX_PRIORITY
  {
    var p := s.threads[t].priority;
    var s1 := WithList(s, c, p, Without(ListOf(s, c, p), t));
    var s2 := WithList(s1, c, p', ListOf(s1, c, p') + [t]);
    WithThread(s2, t, s.threads[t].(priority := p', raised := raised))
  }

  lemma RelistTotal(s: State, c: nat, t: Tid, p': nat, raised: bool)
    requires Shape(s) && t in s.threads && c < |s.cpus| && p' <= MAX_PRIORITY
    requires 0 <= s.threads[t].priority <= MAX_PRIORITY && p' != s.threads[t].priority
    requires t in ListOf(s, c, s.threads[t].priority) && NoDup(ListOf(s, c, s.threads[t].priority))
    ensures Shape(Relist(s, c, t, p', raised))
    ensures TotalLength(Relist(s, c, t, p', raised), |s.cpus|) == TotalLength(s, |s.cpus|)
  {
    var p := s.threads[t].priority;
    var l, l' := ListOf(s, c, p), ListOf(s, c, p');
    WithoutLemma(l, t);
    var s1 := WithList(s, c, p, Without(l, t));
    TotalUpdate(s, c, p, Without(l, t), |s.cpus|);
    TotalUpdate(s1, c, p', l' + [t], |s.cpus|);
    SameTotal(WithList(s1, c, p', l' + [t]), Relist(s, c, t, p', raised), |s.cpus|);
  }

  /** Which lists Relist changes, and how. */
  lemma RelistLists(s: State, c: nat, t: Tid, p': nat, raised: bool, d: nat, q: nat)
    requires Shape(s) && t in s.threads && c < |s.cpus| && p' <= MAX_PRIORITY
    requires 0 <= s.threads[t].priority <= MAX_PRIORITY && p' != s.threads[t].priority
    requires d < |s.cpus| && q <= MAX_PRIORITY
    ensures var s', p := Relist(s, c, t, p', raised), s.threads[t].priority;
            |s'.cpus| == |s.cpus| && |s'.cpus[d].lists| == MAX_PRIORITY + 1 &&
            ListOf(s', d, q) ==
              if d == c && q == p then Without(ListOf(s, c, p), t)
              else if d == c && q == p' then ListOf(s, c, p') + [t]
              else ListOf(s, d, q)
  {
  }

  lemma RelistOneThread(s: State, c: nat, t: Tid, p': nat, raised: bool, busy: Option<nat>)
    requires Inv(s, busy) && t in s.threads && s.threads[t].master == Some(c) && c < |s.cpus|
    requires 0 <= s.threads[t].priority <= MAX_PRIORITY && p' <= MAX_PRIORITY && p' != s.threads[t].priority
    ensures Shape(Relist(s, c, t, p', raised)) && OneThread(s, Relist(s, c, t, p', raised), t)
  {
    var s', p := Relist(s, c, t, p', raised), s.threads[t].priority;
    assert Shape(s');
    forall d, q | 0 <= d < |s.cpus| && 0 <= q <= MAX_PRIORITY
      ensures NoDup(ListOf(s', d, q))
      ensures forall u :: u != t ==> (u in ListOf(s', d, q) <==> u in ListOf(s, d, q))
      ensures t in ListOf(s', d, q) <==> d == c && q == p'
    {
      RelistLists(s, c, t, p', raised, d, q);
      OnExactlyOneList(s, busy, t, d, q);
      assert ListOk(s, d);
      WithoutLemma(ListOf(s, d, q), t);
      if d == c && q == p' {
        AppendLemma(ListOf(s, d, q), t);
      }
    }
    forall d | 0 <= d < |s.cpus|
      ensures ListOk(s', d)
    {
      assert ListOk(s, d);
    }
  }

  lemma RelistInv(s: State, c: nat, t: Tid, p': nat, raised: bool, busy: Option<nat>)
    requires Inv(s, busy) && t in s.threads && s.threads[t].master == Some(c)
    requires p' <= MAX_PRIORITY && p' != s.threads[t].priority && (raised ==> p' >= 1)
    ensures c < |s.cpus| && 0 <= s.threads[t].priority <= MAX_PRIORITY
    ensures Inv(Relist(s, c, t, p', raised), busy)
  {
    assert Listed(s, t) && RunningIsCurrent(s, t) && ListOk(s, c);
    var s' := Relist(s, c, t, p', raised);
    RelistOneThread(s, c, t, p', raised, busy);
    RelistTotal(s, c, t, p', raised);
    SameHolder(s, s', t, busy);
    OneThreadInv(s, s', t, busy, busy);
  }

  /** A thread that keeps its CPU, status and affinity stays all right. */
  lemma SameHolder(s: State, s': State, t: Tid, busy: Option<nat>)
    requires Inv(s, busy) && Shape(s') && OneThread(s, s', t) && t in s.threads
    requires var th, th' := s.threads[t], s'.threads[t];
             th'.master == th.master && th'.status == th.status && th'.affinity == th.affinity &&
             (th'.raised ==> 1 <= th'.priority <= MAX_PRIORITY) &&
             (th.master.Some? ==> 0 <= th'.priority <= MAX_PRIORITY) &&
             (th.master.None? ==> busy.None?)
    ensures ThreadOk(s', t, busy)
  {
    assert Listed(s, t) && RunningIsCurrent(s, t);
    forall c | 0 <= c < |s.cpus|
      ensures CurrentIsMine(s', c, busy) && (s.cpus[c].idle == t ==> s.threads[t].master == Some(c))
    {
      assert CurrentIsMine(s, c, busy) && IdleIsMine(s, c);
    }
  }

  lemma {:induction false} SameTotal(s: State, s': State, n: nat)
    requires Shape(s) && n <= |s.cpus| <= |s'.cpus| && Shape(s')
    requires forall c :: 0 <= c < |s.cpus| ==> CpuLength(s.cpus[c]) == CpuLength(s'.cpus[c])
    ensures TotalLength(s, n) == TotalLength(s', n)
  {
    if n > 0 {
      SameTotal(s, s', n - 1);
    }
  }
}
