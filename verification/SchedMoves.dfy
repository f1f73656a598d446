/**
  What readying, blocking, boosting and the starvation passes do to threads and lists, told
  on the sequences themselves.
 */
module SchedMoves {
  import opened Options
  import opened SchedModel
  import opened SchedOps
  import opened SchedCore

  // ---------- lists ----------

  /** l' is l without t, in the same order. */
  ghost predicate TakenOut(l: seq<Tid>, t: Tid, l': seq<Tid>) {
    exists k :: 0 <= k < |l| && l[k] == t && l' == l[..k] + l[k + 1..]
  }

  lemma WithoutTakesOut(l: seq<Tid>, t: Tid)
    requires NoDup(l) && t in l
    ensures TakenOut(l, t, Without(l, t))
  {
    var k :| 0 <= k < |l| && l[k] == t;
    WithoutAt(l, k);
  }

  /** Only the lists p and p' of CPU c may differ. */
  ghost predicate OtherLists(s: State, s': State, c: nat, p: int, p': int) {
    Shape(s) && Shape(s') && |s'.cpus| == |s.cpus| &&
    forall d, q :: 0 <= d < |s.cpus| && 0 <= q <= MAX_PRIORITY && !(d == c && (q == p || q == p')) ==>
      ListOf(s', d, q) == ListOf(s, d, q)
  }

  lemma Placed(s: State, t: Tid, busy: Option<nat>)
    requires Inv(s, busy) && t in s.threads && s.threads[t].master.Some?
    ensures var th := s.threads[t];
            Shape(s) && th.master.value < |s.cpus| && 0 <= th.priority <= MAX_PRIORITY && !th.status.Blocked? &&
            t in ListOf(s, th.master.value, th.priority) && NoDup(ListOf(s, th.master.value, th.priority))
  {
    assert Listed(s, t) && ListOk(s, s.threads[t].master.value);
  }

  // ---------- readying, blocking, boosting ----------

  /** c is the first CPU that t may run on with the fewest threads on the list of t's
      priority. */
  ghost predicate Shortest(s: State, t: Tid, c: nat) {
    Shape(s) && t in s.threads && 0 <= s.threads[t].priority <= MAX_PRIORITY && c < |s.cpus| && c in s.threads[t].affinity &&
    var p := s.threads[t].priority;
    forall d :: 0 <= d < |s.cpus| && d in s.threads[t].affinity ==>
      |ListOf(s, c, p)| <= |ListOf(s, d, p)| && (d < c ==> |ListOf(s, c, p)| < |ListOf(s, d, p)|)
  }

  /** A thread that has no CPU becomes the last on the shortest list there is for it; without
      one, or with a bad priority, nothing changes and that is reported. */
  lemma ReadyIs(s: State, t: Tid)
    requires Inv(s, None) && t in s.threads
    ensures var (s', o) := DoReady(s, t);
            var th := s.threads[t];
            (o == InvalidArgument <==> th.priority < 0 || th.priority > MAX_PRIORITY) &&
            (o == InvalidAffinity <==>
               0 <= th.priority <= MAX_PRIORITY && th.master.None? && forall c :: 0 <= c < |s.cpus| ==> c !in th.affinity) &&
            (o != Success || th.master.Some? ==> s' == s) &&
            (o == Success && th.master.None? ==>
               exists c :: Shortest(s, t, c) && OtherLists(s, s', c, th.priority, th.priority) &&
                 ListOf(s', c, th.priority) == ListOf(s, c, th.priority) + [t] &&
                 s'.threads == s.threads[t := th.(master := Some(c), status := Ready)] &&
                 s'.readyCount == s.readyCount + 1)
  {
    ShapeOf(s, None);
    hide Inv;
    if !BadPriority(s.threads[t]) && s.threads[t].master.None? {
      LeastLoadedLemma(s, t, |s.cpus|);
      var best := LeastLoaded(s, t, |s.cpus|);
      hide LeastLoaded;
      if best.Some? {
        assert Shortest(s, t, best.value);
        var s' := PutOn(s, t, best.value);
        assert OtherLists(s, s', best.value, s.threads[t].priority, s.threads[t].priority);
      }
    }
  }

  /** A thread that has a CPU is taken out of its list, has none any more and is blocked. */
  lemma BlockIs(s: State, t: Tid)
    requires Inv(s, None) && t in s.threads
    ensures s.threads[t].master.Some? ==> s.threads[t].master.value < |s.cpus| && s.readyCount > 0
    ensures var (s', o) := DoBlock(s, t);
            var th := s.threads[t];
            (o == InvalidArgument <==> th.master.None?) && o != InvalidAffinity && (th.master.None? ==> s' == s) &&
            (th.master.Some? ==>
               var c, p := th.master.value, th.priority;
               0 <= p <= MAX_PRIORITY && OtherLists(s, s', c, p, p) && TakenOut(ListOf(s, c, p), t, ListOf(s', c, p)) &&
               s'.threads == s.threads[t := th.(raised := false, status := Blocked, quantum := 0, master := None)] &&
               s'.readyCount + 1 == s.readyCount)
  {
    ShapeOf(s, None);
    if s.threads[t].master.Some? {
      ListedCounts(s, t, None);
      Placed(s, t, None);
      WithoutTakesOut(ListOf(s, s.threads[t].master.value, s.threads[t].priority), t);
    }
    hide Inv, Without, NoDup;
  }

  /** A thread that lives, has a CPU or is blocked, and is neither raised nor at the highest
      priority gets the next one, and goes from its list to the end of the next. */
  lemma BoostIs(s: State, t: Tid)
    requires Inv(s, None) && t in s.threads
    ensures Shape(s) && (s.threads[t].master.Some? ==> s.threads[t].master.value < |s.cpus|)
    ensures var (s', o) := DoBoost(s, t);
            var th := s.threads[t];
            var refused := th.priority < 0 || th.priority > MAX_PRIORITY || th.died || (th.master.None? && !th.status.Blocked?);
            (o == InvalidArgument <==> refused) && o != InvalidAffinity && s'.readyCount == s.readyCount &&
            (refused || th.raised || th.priority == MAX_PRIORITY ==> s' == s) &&
            (!(refused || th.raised || th.priority == MAX_PRIORITY) ==>
               s'.threads == s.threads[t := th.(priority := th.priority + 1, raised := true)] &&
               (th.master.None? ==> s'.cpus == s.cpus) &&
               (th.master.Some? ==>
                  var c, p := th.master.value, th.priority;
                  OtherLists(s, s', c, p, p + 1) && TakenOut(ListOf(s, c, p), t, ListOf(s', c, p)) &&
                  ListOf(s', c, p + 1) == ListOf(s, c, p + 1) + [t]))
  {
    ShapeOf(s, None);
    BoostInv(s, t);
    var th := s.threads[t];
    if th.master.Some? {
      Placed(s, t, None);
      WithoutTakesOut(ListOf(s, th.master.value, th.priority), t);
      if th.priority < MAX_PRIORITY {
        RelistIs(s, th.master.value, t, th.priority + 1, true);
      }
    }
    hide Inv, Without, NoDup, Relist;
  }

  lemma RelistIs(s: State, c: nat, t: Tid, p': nat, raised: bool)
    requires Shape(s) && t in s.threads && c < |s.cpus| && p' <= MAX_PRIORITY
    requires 0 <= s.threads[t].priority <= MAX_PRIORITY && p' != s.threads[t].priority
    ensures var s', p := Relist(s, c, t, p', raised), s.threads[t].priority;
            OtherLists(s, s', c, p, p') && ListOf(s', c, p) == Without(ListOf(s, c, p), t) &&
            ListOf(s', c, p') == ListOf(s, c, p') + [t] && s'.readyCount == s.readyCount &&
            s'.threads == s.threads[t := s.threads[t].(priority := p', raised := raised)]
  {
    var s', p := Relist(s, c, t, p', raised), s.threads[t].priority;
    assert Shape(s');
    forall d, q | 0 <= d < |s.cpus| && 0 <= q <= MAX_PRIORITY && !(d == c && (q == p || q == p'))
      ensures ListOf(s', d, q) == ListOf(s, d, q)
    {
      RelistLists(s, c, t, p', raised, d, q);
    }
  }

  // ---------- the starvation passes ----------

  /** The count of passes over a list, which starts again at its quantum. */
  function Counted(n: nat, p: nat): nat {
    if n + 1 >= Quantum(p) then 0 else n + 1
  }

  /** Lists other than q and q + 1 of CPU c, and the counts of all lists but q, stay. */
  ghost predicate Besides(s: State, s': State, c: nat, q: nat) {
    Shape(s) && Shape(s') && c < |s.cpus| && |s'.cpus| == |s.cpus| && s'.cpus[c].idle == s.cpus[c].idle &&
    (forall p :: 0 <= p <= MAX_PRIORITY && p != q && p != q + 1 ==> ListOf(s', c, p) == ListOf(s, c, p)) &&
    (forall p :: 0 <= p <= MAX_PRIORITY && p != q ==>
       s'.cpus[c].lists[p].noStarvationQuantum == s.cpus[c].lists[p].noStarvationQuantum)
  }

  /** A thread is as it was, or was waiting, not raised, on list q of CPU c, and is raised. */
  ghost predicate KeptOrRaised(s: State, s': State, c: nat, q: nat, t: Tid) {
    t in s.threads && t in s'.threads &&
    (s'.threads[t] == s.threads[t] ||
     (c < |s.cpus| && s.threads[t].priority == q && s.threads[t].master == Some(c) &&
      t != s.cpus[c].idle && !s.threads[t].status.Running? && !s.threads[t].raised &&
      s'.threads[t] == s.threads[t].(priority := q + 1, raised := true)))
  }

  /** What one or more rounds over list q of CPU c do. */
  ghost predicate Passed(s: State, s': State, c: nat, q: nat) {
    Besides(s, s', c, q) && q <= MAX_PRIORITY && s'.threads.Keys == s.threads.Keys &&
    s'.cpus[c].lists[q].noStarvationQuantum == s.cpus[c].lists[q].noStarvationQuantum &&
    (forall t :: t in s.threads ==> KeptOrRaised(s, s', c, q, t)) &&
    (|ListOf(s', c, q)| == |ListOf(s, c, q)| || |ListOf(s', c, q)| >= 3)
  }

  lemma BesidesTrans(s: State, s1: State, s2: State, c: nat, q: nat)
    requires Besides(s, s1, c, q) && Besides(s1, s2, c, q)
    ensures Besides(s, s2, c, q)
  {
  }

  lemma KeptOrRaisedTrans(s: State, s1: State, s2: State, c: nat, q: nat, t: Tid)
    requires c < |s.cpus| && c < |s1.cpus| && s1.cpus[c].idle == s.cpus[c].idle
    requires KeptOrRaised(s, s1, c, q, t) && KeptOrRaised(s1, s2, c, q, t)
    ensures KeptOrRaised(s, s2, c, q, t)
  {
  }

  lemma PassedTrans(s: State, s1: State, s2: State, c: nat, q: nat)
    requires Passed(s, s1, c, q) && Passed(s1, s2, c, q)
    ensures Passed(s, s2, c, q)
  {
    BesidesTrans(s, s1, s2, c, q);
    hide Besides, ListOf;
    forall t | t in s.threads ensures KeptOrRaised(s, s2, c, q, t) {
      KeptOrRaisedTrans(s, s1, s2, c, q, t);
    }
  }

  lemma {:induction false} RaisePass(s: State, c: nat, q: nat, i: nat, busy: Option<nat>, done: State)
    requires Raising(s, c, q, i, busy, done)
    ensures Passed(s, done, c, q)
    decreases i
  {
    hide Inv, RaiseFrom, Besides, KeptOrRaised, Passed, Relist;
    ShapeOf(s, busy);
    if i > 0 && |ListOf(s, c, q)| / 4 != 0 {
      var s1 := RaisingOn(s, c, q, i, busy, done);
      RoundIs(s, s1, c, q, i, busy);
      RaisePass(s1, c, q, i - 1, busy, done);
      PassedTrans(s, s1, done, c, q);
    } else {
      RaisingEnds(s, c, q, i, busy, done);
      PassedSelf(s, c, q, busy);
    }
  }

  lemma PassedSelf(s: State, c: nat, q: nat, busy: Option<nat>)
    requires Inv(s, busy) && c < |s.cpus| && q <= MAX_PRIORITY
    ensures Passed(s, s, c, q)
  {
    ShapeOf(s, busy);
    hide Inv;
  }

  lemma RoundIs(s: State, s1: State, c: nat, q: nat, i: nat, busy: Option<nat>)
    requires Inv(s, busy) && c < |s.cpus| && q < MAX_PRIORITY && 0 < i <= |ListOf(s, c, q)|
    requires |ListOf(s, c, q)| / 4 != 0
    requires var t := ListOf(s, c, q)[i - 1];
             t in s.threads && s.threads[t].priority == q &&
             s1 == if t == s.cpus[c].idle || s.threads[t].status.Running? || s.threads[t].raised then s
                   else Relist(s, c, t, q + 1, true)
    ensures Passed(s, s1, c, q)
  {
    ShapeOf(s, busy);
    var l := ListOf(s, c, q);
    var t := l[i - 1];
    assert t in l && ListOk(s, c);
    assert NoDup(l) && s.threads[t].master == Some(c);
    hide Inv, ListOk;
    if t == s.cpus[c].idle || s.threads[t].status.Running? || s.threads[t].raised {
      PassedSelf(s, c, q, busy);
    } else {
      MovePasses(s, c, t, q);
    }
  }

  lemma MovePasses(s: State, c: nat, t: Tid, q: nat)
    requires Shape(s) && c < |s.cpus| && q < MAX_PRIORITY && t in s.threads && s.threads[t].priority == q
    requires s.threads[t].master == Some(c) && t != s.cpus[c].idle && !s.threads[t].status.Running? && !s.threads[t].raised
    requires NoDup(ListOf(s, c, q)) && t in ListOf(s, c, q) && |ListOf(s, c, q)| >= 4
    ensures Passed(s, Relist(s, c, t, q + 1, true), c, q)
  {
    RelistIs(s, c, t, q + 1, true);
    RelistCounts(s, c, t, q + 1, true);
    WithoutLemma(ListOf(s, c, q), t);
    hide Relist, NoDup, Without;
  }

  lemma RelistCounts(s: State, c: nat, t: Tid, p': nat, raised: bool)
    requires Shape(s) && t in s.threads && c < |s.cpus| && p' <= MAX_PRIORITY && 0 <= s.threads[t].priority <= MAX_PRIORITY
    ensures var s' := Relist(s, c, t, p', raised);
            Shape(s') && c < |s'.cpus| && s'.cpus[c].idle == s.cpus[c].idle && s'.cpus[c].current == s.cpus[c].current &&
            forall p :: 0 <= p <= MAX_PRIORITY ==>
              s'.cpus[c].lists[p].noStarvationQuantum == s.cpus[c].lists[p].noStarvationQuantum
  {
  }

  /** A pass over list q: its count goes on, and unless it starts again, only idle, running
      and raised threads are left, if there are four or more. */
  lemma StarvationIs(s: State, c: nat, q: nat, busy: Option<nat>) returns (s': State)
    requires Inv(s, busy) && c < |s.cpus| && q < MAX_PRIORITY
    ensures s' == Starvation(s, c, q, busy) && Inv(s', busy) && Besides(s, s', c, q)
    ensures s'.cpus[c].lists[q].noStarvationQuantum == Counted(s.cpus[c].lists[q].noStarvationQuantum, q)
    ensures s'.threads.Keys == s.threads.Keys && forall t :: t in s.threads ==> KeptOrRaised(s, s', c, q, t)
    ensures if s'.cpus[c].lists[q].noStarvationQuantum == 0 then
              s'.threads == s.threads && ListOf(s', c, q) == ListOf(s, c, q) && ListOf(s', c, q + 1) == ListOf(s, c, q + 1)
            else ExemptOnly(s', c, q) && (|ListOf(s', c, q)| == |ListOf(s, c, q)| || |ListOf(s', c, q)| >= 3)
  {
    ShapeOf(s, busy);
    var n := s.cpus[c].lists[q].noStarvationQuantum + 1;
    s' := StarvationKeeps(s, c, q, busy);
    if n >= Quantum(q) {
      hide Inv;
    } else {
      SetNoStarvationInv(s, c, q, n, busy);
      var s1 := SetNoStarvation(s, c, q, n);
      CountedOn(s, c, q, n);
      RaisePass(s1, c, q, |ListOf(s, c, q)|, busy, s');
      RaisedAll(s1, c, q, |ListOf(s, c, q)|, busy, s');
      hide Inv, RaiseFrom, ExemptOnly;
      forall t | t in s.threads ensures KeptOrRaised(s, s', c, q, t) {
        assert KeptOrRaised(s1, s', c, q, t);
      }
      BesidesTrans(s, s1, s', c, q);
    }
  }

  lemma CountedOn(s: State, c: nat, q: nat, n: nat)
    requires Shape(s) && c < |s.cpus| && q <= MAX_PRIORITY
    ensures var s1 := SetNoStarvation(s, c, q, n);
            Besides(s, s1, c, q) && s1.threads == s.threads && ListOf(s1, c, q) == ListOf(s, c, q) &&
            s1.cpus[c].lists[q].noStarvationQuantum == n
  {
  }

  /** What the passes leave of any thread: its status, and a running thread altogether; a
      raised one stays raised. */
  ghost predicate Spared(s: State, s': State, t: Tid) {
    t in s.threads && t in s'.threads && s'.threads[t].status == s.threads[t].status &&
    (s.threads[t].status.Running? ==> s'.threads[t] == s.threads[t]) &&
    (s.threads[t].raised ==> s'.threads[t].raised)
  }

  lemma SparedSelf(s: State)
    ensures forall t :: t in s.threads ==> Spared(s, s, t)
  {
  }

  lemma SparedThrough(s: State, s1: State, s2: State, c: nat, q: nat)
    requires s1.threads.Keys == s.threads.Keys && forall t :: t in s.threads ==> KeptOrRaised(s, s1, c, q, t)
    requires forall t :: t in s1.threads ==> Spared(s1, s2, t)
    ensures forall t :: t in s.threads ==> Spared(s, s2, t)
  {
    forall t | t in s.threads ensures Spared(s, s2, t) {
      assert KeptOrRaised(s, s1, c, q, t) && Spared(s1, s2, t);
    }
  }

  lemma ExemptStays(s: State, s': State, c: nat, p: nat)
    requires c < |s.cpus| && c < |s'.cpus| && s'.cpus[c].idle == s.cpus[c].idle && ExemptOnly(s, c, p)
    requires p < |s'.cpus[c].lists| && ListOf(s', c, p) == ListOf(s, c, p)
    requires forall t :: t in s.threads ==> Spared(s, s', t)
    ensures ExemptOnly(s', c, p)
  {
    forall j | |ListOf(s, c, p)| >= 4 && 0 <= j < |ListOf(s', c, p)|
      ensures Exempt(s', c, ListOf(s', c, p)[j])
    {
      assert Exempt(s, c, ListOf(s, c, p)[j]);
    }
  }

  /** What the passes from list q on do to list p. */
  lemma {:induction false} PassesOver(s: State, c: nat, q: nat, p: nat, busy: Option<nat>) returns (s': State)
    requires Inv(s, busy) && c < |s.cpus| && q <= MAX_PRIORITY && p < MAX_PRIORITY
    ensures s' == StarvationFrom(s, c, q, busy) && Shape(s) && Shape(s') && |s'.cpus| == |s.cpus|
    ensures s'.cpus[c].idle == s.cpus[c].idle && forall t :: t in s.threads ==> Spared(s, s', t)
    ensures var n, n' := s.cpus[c].lists[p].noStarvationQuantum, s'.cpus[c].lists[p].noStarvationQuantum;
            if q > p then n' == n && ListOf(s', c, p) == ListOf(s, c, p)
            else n' == Counted(n, p) && (n' != 0 ==> ExemptOnly(s', c, p))
    decreases MAX_PRIORITY - q
  {
    hide Inv, ListOf, ExemptOnly, Starvation, Counted, KeptOrRaised, Spared;
    ShapeOf(s, busy);
    if q < MAX_PRIORITY {
      var s1 := StarvationIs(s, c, q, busy);
      s' := PassesOver(s1, c, q + 1, p, busy);
      SparedThrough(s, s1, s', c, q);
      if q == p && s1.cpus[c].lists[p].noStarvationQuantum != 0 {
        ExemptStays(s1, s', c, p);
      }
    } else {
      s' := s;
      SparedSelf(s);
    }
  }

  /** Nothing but the threads' lists and the running thread's own fields change before the
      passes begin. */
  lemma LowerIs(s: State, c: nat, busy: Option<nat>) returns (s': State)
    requires Inv(s, busy) && c < |s.cpus|
    ensures s' == Lower(s, c, busy) && Inv(s', busy) && Shape(s) && Shape(s') && |s'.cpus| == |s.cpus|
    ensures s'.cpus[c].idle == s.cpus[c].idle && s'.cpus[c].current == s.cpus[c].current && s'.threads.Keys == s.threads.Keys
    ensures forall p :: 0 <= p <= MAX_PRIORITY ==>
              s'.cpus[c].lists[p].noStarvationQuantum == s.cpus[c].lists[p].noStarvationQuantum
    ensures forall t :: t in s.threads ==> s'.threads[t].status == s.threads[t].status
    ensures s.cpus[c].current.Some? ==>
              var t := s.cpus[c].current.value;
              t in s.threads && !s'.threads[t].raised &&
              s'.threads[t].priority == s.threads[t].priority - (if s.threads[t].raised then 1 else 0)
  {
    hide Inv, Relist;
    ShapeOf(s, busy);
    CurrentKnown(s, c, busy);
    LowerInv(s, c, busy);
    s' := Lower(s, c, busy);
    if s.cpus[c].current.Some? && s.threads[s.cpus[c].current.value].raised {
      var t := s.cpus[c].current.value;
      RaisedRange(s, t, busy);
      SetQuantumInv(s, t, 0, busy);
      ShapeOf(SetQuantum(s, t, 0), busy);
      RelistIs(SetQuantum(s, t, 0), c, t, s.threads[t].priority - 1, false);
      RelistCounts(SetQuantum(s, t, 0), c, t, s.threads[t].priority - 1, false);
    }
  }

  /** Every list and count of CPU c and every thread's priority are as they were. */
  ghost predicate Carried(s: State, s': State, c: nat) {
    Shape(s) && Shape(s') && c < |s.cpus| && |s'.cpus| == |s.cpus| && s'.threads.Keys == s.threads.Keys &&
    (forall u :: u in s.threads ==>
       s'.threads[u].raised == s.threads[u].raised && s'.threads[u].priority == s.threads[u].priority) &&
    forall p :: 0 <= p <= MAX_PRIORITY ==>
      ListOf(s', c, p) == ListOf(s, c, p) &&
      s'.cpus[c].lists[p].noStarvationQuantum == s.cpus[c].lists[p].noStarvationQuantum
  }

  lemma SwitchCarries(s: State, c: nat, t: Tid, busy: Option<nat>)
    requires Inv(s, busy) && c < |s.cpus| && t in s.threads
    requires s.cpus[c].current.Some? ==> s.cpus[c].current.value in s.threads
    ensures Carried(s, Switch(s, c, t), c)
  {
    ShapeOf(s, busy);
    hide Inv;
  }

  lemma CarriedSelf(s: State, c: nat)
    requires Shape(s) && c < |s.cpus|
    ensures Carried(s, s, c)
  {
  }

  lemma TurnCarries(s: State, c: nat, busy: Option<nat>)
    requires Inv(s, busy) && c < |s.cpus|
    ensures |s.cpus[c].lists| == MAX_PRIORITY + 1 && ListOk(s, c)
    ensures Carried(s, s.(cpus := s.cpus[c := Turn(s.cpus[c])]), c)
  {
    TurnInv(s, c, busy);
    ShapeOf(s, busy);
    ShapeOf(s.(cpus := s.cpus[c := Turn(s.cpus[c])]), busy);
    hide Inv;
  }

  lemma ChooseCarries(s: State, c: nat, busy: Option<nat>) returns (s': State, t: Tid)
    requires Inv(s, busy) && c < |s.cpus|
    ensures (s', t) == Choose(s, c, busy) && Inv(s', busy) && Carried(s, s', c) && t in s'.threads
    ensures s'.cpus[c].current.Some? ==> s'.cpus[c].current.value in s'.threads
  {
    hide Inv, Successor, Pick, Carried, Turn;
    ShapeOf(s, busy);
    s', t := ChooseKeeps(s, c, busy);
    CurrentKnown(s', c, busy);
    CarriedSelf(s, c);
    TurnCarries(s, c, busy);
  }

  /** What is on the lists when the next thread is chosen is there when it runs. */
  lemma ScheduleCarries(s: State, c: nat, busy: Option<nat>) returns (s1: State, s': State)
    requires Inv(s, busy) && (busy.None? || busy == Some(c)) && c < |s.cpus|
    ensures s1 == Prepare(s, c, busy) && s' == DoSchedule(s, c, busy) && Carried(s1, s', c)
  {
    hide Inv, Prepare, Switch;
    s1 := PrepareKeeps(s, c, busy);
    var s2, t := ChooseCarries(s1, c, busy);
    SwitchCarries(s2, c, t, busy);
    s' := Switch(s2, c, t);
  }

  /** One call of Core_Schedule, from s to s', and list p of CPU c. With a single CPU nothing
      is counted. Otherwise the count goes on, and starts again at the list's quantum; unless
      it does, of four or more threads on the list none is one that was waiting and is not
      raised. */
  ghost predicate Relieved(s: State, s': State, c: nat, p: nat) {
    Shape(s) && Shape(s') && c < |s.cpus| && |s'.cpus| == |s.cpus| && s'.threads.Keys == s.threads.Keys && p < MAX_PRIORITY &&
    var n, n' := s.cpus[c].lists[p].noStarvationQuantum, s'.cpus[c].lists[p].noStarvationQuantum;
    n' == (if |s.cpus| == 1 then n else Counted(n, p)) &&
    (|s.cpus| > 1 && n' != 0 && |ListOf(s', c, p)| >= 4 ==>
       forall t :: t in ListOf(s', c, p) ==>
         t in s.threads && (t == s.cpus[c].idle || s.threads[t].status.Running? || s'.threads[t].raised))
  }

  /** The thread that was running is back at the priority it had before it was raised. */
  ghost predicate Lowered(s: State, s': State, c: nat) {
    c < |s.cpus| && s.cpus[c].current.Some? &&
    var u := s.cpus[c].current.value;
    u in s.threads && u in s'.threads &&
    (s.threads[u].status.Running? ==>
       !s'.threads[u].raised && s'.threads[u].priority == s.threads[u].priority - (if s.threads[u].raised then 1 else 0))
  }

  lemma CarriedOver(s: State, s1: State, s': State, c: nat, p: nat)
    requires Relieved(s, s1, c, p) && Carried(s1, s', c)
    ensures Relieved(s, s', c, p) && (Lowered(s, s1, c) ==> Lowered(s, s', c))
  {
    hide Counted;
  }

  lemma PrepareRelieves(s: State, c: nat, p: nat, busy: Option<nat>)
    requires Inv(s, busy) && c < |s.cpus| && p < MAX_PRIORITY
    ensures Relieved(s, Prepare(s, c, busy), c, p)
    ensures s.cpus[c].current.Some? ==> Lowered(s, Prepare(s, c, busy), c)
  {
    hide Inv, Lower, StarvationFrom, Counted;
    var s1 := LowerIs(s, c, busy);
    var s2 := PrepareKeeps(s, c, busy);
    if |s.cpus| > 1 {
      var s2' := PassesOver(s1, c, 0, p, busy);
      if s2.cpus[c].lists[p].noStarvationQuantum != 0 && |ListOf(s2, c, p)| >= 4 {
        forall t | t in ListOf(s2, c, p)
          ensures t in s.threads && (t == s.cpus[c].idle || s.threads[t].status.Running? || s2.threads[t].raised)
        {
          var j :| 0 <= j < |ListOf(s2, c, p)| && ListOf(s2, c, p)[j] == t;
          assert Exempt(s2, c, t);
        }
      }
    }
  }

  lemma ScheduleStarves(s: State, c: nat, p: nat, busy: Option<nat>)
    requires Inv(s, busy) && (busy.None? || busy == Some(c)) && c < |s.cpus| && p < MAX_PRIORITY
    ensures Relieved(s, DoSchedule(s, c, busy), c, p)
    ensures s.cpus[c].current.Some? ==> Lowered(s, DoSchedule(s, c, busy), c)
  {
    hide Inv, DoSchedule, Prepare, Relieved, Lowered, Carried;
    PrepareRelieves(s, c, p, busy);
    var s1, s' := ScheduleCarries(s, c, busy);
    CarriedOver(s, s1, s', c, p);
  }
}
