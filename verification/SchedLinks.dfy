/**
  The scheduler's lists as linked nodes. CoreH_ThreadListAppend does not write the next
  link of the node it appends (see ThreadList); here it is shown that on every run of the
  scheduler that link is null whenever a node is appended, so that the links are those of
  the lists throughout.
 */
module SchedLinks {
  import opened Options
  import opened SchedModel
  import opened SchedOps
  import opened SchedCore
  import opened SchedRun

  /** The links of a thread's node. */
  datatype Link = Link(next: Option<Tid>, prev: Option<Tid>)

  type Links = map<Tid, Link>

  const NULL := Link(None, None)

  function LinkAt(l: seq<Tid>, i: int): Link
    requires 0 <= i < |l|
  {
    Link(if i + 1 < |l| then Some(l[i + 1]) else None, if i > 0 then Some(l[i - 1]) else None)
  }

  ghost predicate Linked(m: Links, l: seq<Tid>) {
    forall i :: 0 <= i < |l| ==> l[i] in m && m[l[i]] == LinkAt(l, i)
  }

  // ---------- the stores ----------

  /** CoreH_ThreadListAppend to the list l. */
  function Append(m: Links, l: seq<Tid>, t: Tid): Links
    requires t in m && forall u :: u in l ==> u in m
  {
    if l == [] then m[t := m[t].(prev := None)]
    else
      var tail := l[|l| - 1];
      var m1 := m[tail := m[tail].(next := Some(t))];
      m1[t := m1[t].(prev := Some(tail))]
  }

  /** CoreH_ThreadListRemove. */
  function Remove(m: Links, t: Tid): Links
    requires t in m && (m[t].next.Some? ==> m[t].next.value in m) && (m[t].prev.Some? ==> m[t].prev.value in m)
  {
    var n := m[t];
    var m1 := if n.next.Some? then m[n.next.value := m[n.next.value].(prev := n.prev)] else m;
    var m2 := if n.prev.Some? then m1[n.prev.value := m1[n.prev.value].(next := n.next)] else m1;
    m2[t := NULL]
  }

  lemma AppendLinked(m: Links, l: seq<Tid>, t: Tid)
    requires Linked(m, l) && NoDup(l) && t !in l && t in m
    ensures Linked(Append(m, l, t), l + [t]) <==> m[t].next.None?
    ensures forall u :: u in m && u !in l + [t] ==> Append(m, l, t)[u] == m[u]
    ensures Append(m, l, t).Keys == m.Keys
  {
    var m', l' := Append(m, l, t), l + [t];
    forall i | 0 <= i < |l| ensures m'[l[i]] == LinkAt(l', i) {
      assert l'[i] == l[i] && m[l[i]] == LinkAt(l, i);
    }
    assert l'[|l|] == t;
  }

  lemma RemoveLinked(m: Links, l: seq<Tid>, k: nat)
    requires Linked(m, l) && NoDup(l) && k < |l|
    ensures var t := l[k];
            t in m && (m[t].next.Some? ==> m[t].next.value in m) && (m[t].prev.Some? ==> m[t].prev.value in m)
    ensures var m' := Remove(m, l[k]);
            m'.Keys == m.Keys && Linked(m', l[..k] + l[k + 1..]) && m'[l[k]] == NULL &&
            forall u :: u in m && u !in l ==> m'[u] == m[u]
  {
    var t := l[k];
    assert m[t] == LinkAt(l, k);
    assert k + 1 < |l| ==> l[k + 1] in m;
    assert k > 0 ==> l[k - 1] in m;
    var m', l' := Remove(m, t), l[..k] + l[k + 1..];
    forall j | 0 <= j < |l'| ensures l'[j] in m' && m'[l'[j]] == LinkAt(l', j) {
      RemovedAt(m, l, k, j);
    }
  }

  lemma RemovedAt(m: Links, l: seq<Tid>, k: nat, j: nat)
    requires Linked(m, l) && NoDup(l) && k < |l| && j < |l| - 1
    requires var t := l[k];
             t in m && (m[t].next.Some? ==> m[t].next.value in m) && (m[t].prev.Some? ==> m[t].prev.value in m)
    ensures var m', l' := Remove(m, l[k]), l[..k] + l[k + 1..];
            l'[j] in m' && m'[l'[j]] == LinkAt(l', j)
  {
    hide Remove, Linked, NoDup;
    var i := if j < k then j else j + 1;
    PlacesDiffer(l, i, k);
    LinkedAt(m, l, i);
    LinkedAt(m, l, k);
    RemovedOther(m, l[k], l[i]);
    CutLink(l, k, j);
  }

  lemma LinkedAt(m: Links, l: seq<Tid>, i: nat)
    requires Linked(m, l) && i < |l|
    ensures l[i] in m && m[l[i]] == LinkAt(l, i)
  {
  }

  lemma PlacesDiffer(l: seq<Tid>, i: nat, k: nat)
    requires NoDup(l) && i < |l| && k < |l| && i != k
    ensures l[i] != l[k]
    ensures k + 1 < |l| ==> (l[k + 1] == l[i] <==> k + 1 == i)
    ensures k > 0 ==> (l[k - 1] == l[i] <==> k - 1 == i)
  {
  }

  /** The links of place j after place k is cut out. */
  lemma CutLink(l: seq<Tid>, k: nat, j: nat)
    requires k < |l| && j < |l| - 1
    ensures var i, l' := if j < k then j else j + 1, l[..k] + l[k + 1..];
            l'[j] == l[i] &&
            LinkAt(l', j) == Link(if i + 1 == k then LinkAt(l, k).next else LinkAt(l, i).next,
                                  if i == k + 1 then LinkAt(l, k).prev else LinkAt(l, i).prev)
  {
  }

  lemma RemovedOther(m: Links, t: Tid, u: Tid)
    requires t in m && (m[t].next.Some? ==> m[t].next.value in m) && (m[t].prev.Some? ==> m[t].prev.value in m)
    requires u in m && u != t
    ensures u in Remove(m, t)
    ensures Remove(m, t)[u] == Link(if m[t].prev == Some(u) then m[t].next else m[u].next,
                                    if m[t].next == Some(u) then m[t].prev else m[u].prev)
  {
  }

  // ---------- the links of all lists ----------

  /** All lists are linked, and a thread on none has null links. */
  ghost predicate LinksOk(s: State, m: Links) {
    Shape(s) && m.Keys == s.threads.Keys &&
    (forall c, p :: 0 <= c < |s.cpus| && 0 <= p <= MAX_PRIORITY ==> Linked(m, ListOf(s, c, p))) &&
    (forall t :: t in s.threads && s.threads[t].master.None? ==> m[t] == NULL)
  }

  /** CoreH_ThreadListAppend, CoreH_ThreadListRemove, and the node of a new thread. */
  datatype Store = Put(list: seq<Tid>, t: Tid) | Cut(t: Tid) | New(t: Tid)

  /** An append is allowed only with a null next link. */
  ghost predicate Allowed(m: Links, op: Store) {
    match op
    case Put(l, t) => t in m && m[t].next.None? && forall u :: u in l ==> u in m
    case Cut(t) => t in m && (m[t].next.Some? ==> m[t].next.value in m) && (m[t].prev.Some? ==> m[t].prev.value in m)
    case New(t) => t !in m
  }

  ghost function Do(m: Links, op: Store): Links
    requires Allowed(m, op)
  {
    match op
    case Put(l, t) => Append(m, l, t)
    case Cut(t) => Remove(m, t)
    case New(t) => m[t := NULL]
  }

  ghost function DoAll(m: Links, ops: seq<Store>): Option<Links>
    decreases |ops|
  {
    if ops == [] then Some(m) else if Allowed(m, ops[0]) then DoAll(Do(m, ops[0]), ops[1..]) else None
  }

  lemma {:induction false} DoBoth(m: Links, a: seq<Store>, b: seq<Store>)
    requires DoAll(m, a).Some?
    ensures DoAll(m, a + b) == DoAll(DoAll(m, a).value, b)
    decreases |a|
  {
    hide Allowed, Do;
    if a == [] {
      assert a + b == b;
    } else {
      assert (a + b)[1..] == a[1..] + b;
      DoBoth(Do(m, a[0]), a[1..], b);
    }
  }

  lemma DoOne(m: Links, op: Store)
    requires Allowed(m, op)
    ensures DoAll(m, [op]) == Some(Do(m, op))
  {
    hide Allowed, Do;
    assert [op][1..] == [];
  }

  // ---------- the stores of each operation ----------

  ghost function RelistStores(s: State, c: nat, t: Tid, p': nat): seq<Store>
    requires c < |s.cpus| && p' < |s.cpus[c].lists|
  {
    [Cut(t)] + [Put(ListOf(s, c, p'), t)]
  }

  ghost function LowerStores(s: State, c: nat, busy: Option<nat>): seq<Store>
    requires Inv(s, busy) && c < |s.cpus|
  {
    CurrentKnown(s, c, busy);
    if s.cpus[c].current.None? || !s.threads[s.cpus[c].current.value].raised then []
    else
      var t := s.cpus[c].current.value;
      RelistStores(s, c, t, s.threads[t].priority - 1)
  }

  ghost function RaiseStores(s: State, c: nat, p: nat, i: nat, busy: Option<nat>): seq<Store>
    requires Inv(s, busy) && c < |s.cpus| && p < MAX_PRIORITY && i <= |ListOf(s, c, p)|
    decreases i
  {
    var l := ListOf(s, c, p);
    if i == 0 || |l| / 4 == 0 then []
    else
      var t := l[i - 1];
      InTheList(s, c, p, i - 1, busy);
      if t == s.cpus[c].idle || s.threads[t].status.Running? || s.threads[t].raised then
        RaiseStores(s, c, p, i - 1, busy)
      else
        Raised(s, c, p, i, busy);
        RelistStores(s, c, t, p + 1) + RaiseStores(Relist(s, c, t, p + 1, true), c, p, i - 1, busy)
  }

  lemma Raised(s: State, c: nat, p: nat, i: nat, busy: Option<nat>)
    requires Inv(s, busy) && c < |s.cpus| && p < MAX_PRIORITY && 0 < i <= |ListOf(s, c, p)| && |ListOf(s, c, p)| / 4 != 0
    requires var t := ListOf(s, c, p)[i - 1];
             t in s.threads && !(t == s.cpus[c].idle || s.threads[t].status.Running? || s.threads[t].raised)
    ensures s.threads[ListOf(s, c, p)[i - 1]].priority == p
    ensures var s1 := Relist(s, c, ListOf(s, c, p)[i - 1], p + 1, true);
            Inv(s1, busy) && c < |s1.cpus| && i - 1 <= |ListOf(s1, c, p)|
  {
    var s1 := RaiseRound(s, c, p, i, busy);
  }

  ghost function StarvationStores(s: State, c: nat, p: nat, busy: Option<nat>): seq<Store>
    requires Inv(s, busy) && c < |s.cpus| && p < MAX_PRIORITY
  {
    var q := s.cpus[c].lists[p].noStarvationQuantum + 1;
    if q >= Quantum(p) then []
    else
      SetNoStarvationInv(s, c, p, q, busy);
      RaiseStores(SetNoStarvation(s, c, p, q), c, p, |ListOf(s, c, p)|, busy)
  }

  ghost function StarvationFromStores(s: State, c: nat, p: nat, busy: Option<nat>): seq<Store>
    requires Inv(s, busy) && c < |s.cpus| && p <= MAX_PRIORITY
    decreases MAX_PRIORITY - p
  {
    if p == MAX_PRIORITY then []
    else
      StarvationInv(s, c, p, busy);
      StarvationStores(s, c, p, busy) + StarvationFromStores(Starvation(s, c, p, busy), c, p + 1, busy)
  }

  /** A schedule step changes lists only before it chooses. */
  ghost function ScheduleStores(s: State, c: nat, busy: Option<nat>): seq<Store>
    requires Inv(s, busy) && c < |s.cpus|
  {
    LowerInv(s, c, busy);
    LowerStores(s, c, busy) + if |s.cpus| > 1 then StarvationFromStores(Lower(s, c, busy), c, 0, busy) else []
  }

  ghost function YieldStores(s: State, c: nat, busy: Option<nat>): seq<Store>
    requires Inv(s, busy) && c < |s.cpus|
  {
    CurrentKnown(s, c, busy);
    if s.cpus[c].current.None? then ScheduleStores(s, c, busy)
    else
      var t := s.cpus[c].current.value;
      var q := (s.threads[t].quantum + 1) % 256;
      SetQuantumInv(s, t, q, busy);
      if q < Quantum(s.threads[t].priority) && CanRun(s.threads[t], c) then []
      else ScheduleStores(SetQuantum(s, t, q), c, busy)
  }

  ghost function ReadyStores(s: State, t: Tid): seq<Store>
    requires Shape(s) && t in s.threads
  {
    var th := s.threads[t];
    if BadPriority(th) || th.master.Some? then []
    else
      var best := LeastLoaded(s, t, |s.cpus|);
      if best.None? then [] else [Put(ListOf(s, best.value, th.priority), t)]
  }

  ghost function BoostStores(s: State, t: Tid): seq<Store>
    requires Shape(s) && t in s.threads && (s.threads[t].master.Some? ==> s.threads[t].master.value < |s.cpus|)
  {
    var th := s.threads[t];
    if BadPriority(th) || th.died || th.raised || th.priority == MAX_PRIORITY || th.master.None? then []
    else RelistStores(s, th.master.value, t, th.priority + 1)
  }

  ghost function StepStores(s: State, step: Step): seq<Store>
    requires Inv(s, None) && Enabled(s, step)
  {
    ShapeOf(s, None);
    match step
    case Initialize(t, priority, affinity) =>
      if priority < 0 || priority > MAX_PRIORITY || affinity == {} then [] else [New(t)]
    case ReadyThread(t) => ReadyStores(s, t)
    case BlockAndYield(c) =>
      var t := s.cpus[c].current.value;
      CurrentBlocked(s, c);
      [Cut(t)] + YieldStores(DoBlock(s, t).0, c, Some(c))
    case BlockWaiting(t) => [Cut(t)]
    case Boost(t) =>
      BoostInv(s, t);
      BoostStores(s, t)
    case Yield(c) => YieldStores(s, c, None)
    case Schedule(c) => ScheduleStores(s, c, None)
  }

  lemma CurrentBlocked(s: State, c: nat)
    requires Inv(s, None) && Enabled(s, BlockAndYield(c))
    ensures var t := s.cpus[c].current.value;
            t in s.threads && s.threads[t].master == Some(c) && s.readyCount > 0 && Shape(s) &&
            Inv(DoBlock(s, t).0, Some(c)) && c < |DoBlock(s, t).0.cpus|
  {
    assert CurrentIsMine(s, c, None);
    BlockInv(s, s.cpus[c].current.value, c);
    BlockOneThread(s, s.cpus[c].current.value);
  }

  /** The stores of a whole run. */
  ghost function RunStores(s: State, steps: seq<Step>): seq<Store>
    requires Inv(s, None) && ExecAll(s, steps).Some?
    decreases |steps|
  {
    if steps == [] then [] else StepStores(s, steps[0]) + RunStores(Exec(s, steps[0]), steps[1..])
  }

  // ---------- the three changes of a list ----------

  lemma OtherList(s: State, busy: Option<nat>, c: nat, p: nat, d: nat, q: nat)
    requires Inv(s, busy) && c < |s.cpus| && p <= MAX_PRIORITY && d < |s.cpus| && q <= MAX_PRIORITY && (c, p) != (d, q)
    ensures forall u :: u in ListOf(s, d, q) ==> u !in ListOf(s, c, p)
    ensures forall u :: u in ListOf(s, d, q) ==> u in s.threads && s.threads[u].master == Some(d) && s.threads[u].priority == q
  {
    assert OnlyListed(s);
    forall u | u in ListOf(s, d, q) ensures u !in ListOf(s, c, p) {
      OnExactlyOneList(s, busy, u, c, p);
      OnExactlyOneList(s, busy, u, d, q);
    }
  }

  lemma LinkedSame(m: Links, m': Links, l: seq<Tid>)
    requires Linked(m, l) && forall u :: u in l ==> u in m && u in m' && m'[u] == m[u]
    ensures Linked(m', l)
  {
    forall i | 0 <= i < |l| ensures l[i] in m' && m'[l[i]] == LinkAt(l, i) {
      assert l[i] in l;
    }
  }

  lemma LinkedKnown(m: Links, l: seq<Tid>)
    requires Linked(m, l)
    ensures forall u :: u in l ==> u in m
  {
  }

  lemma ListNoDup(s: State, busy: Option<nat>, c: nat, p: nat)
    requires Inv(s, busy) && c < |s.cpus| && p <= MAX_PRIORITY
    ensures Shape(s) && NoDup(ListOf(s, c, p))
  {
    assert ListOk(s, c);
  }

  /** A thread on no list is put on one. */
  lemma PutOnLinks(s: State, m: Links, t: Tid, c: nat)
    requires Inv(s, None) && LinksOk(s, m) && t in s.threads && s.threads[t].master.None? && !BadPriority(s.threads[t])
    requires c < |s.cpus|
    ensures var op := Put(ListOf(s, c, s.threads[t].priority), t);
            Allowed(m, op) && LinksOk(PutOn(s, t, c), Do(m, op))
  {
    hide Inv, NoDup, Linked, OnlyListed, Append;
    var p := s.threads[t].priority;
    var l := ListOf(s, c, p);
    OnExactlyOneList(s, None, t, c, p);
    ListNoDup(s, None, c, p);
    assert Linked(m, l);
    LinkedKnown(m, l);
    AppendLinked(m, l, t);
    var s', m' := PutOn(s, t, c), Append(m, l, t);
    assert Shape(s');
    forall d, q | 0 <= d < |s.cpus| && 0 <= q <= MAX_PRIORITY ensures Linked(m', ListOf(s', d, q)) {
      if (c, p) != (d, q) {
        OtherList(s, None, c, p, d, q);
        assert Linked(m, ListOf(s, d, q));
        LinkedSame(m, m', ListOf(s, d, q));
      }
    }
    forall u | u in s'.threads && s'.threads[u].master.None? ensures m'[u] == NULL {
      OnExactlyOneList(s, None, u, c, p);
    }
  }

  lemma ListedAt(s: State, t: Tid, busy: Option<nat>)
    requires Inv(s, busy) && t in s.threads && s.threads[t].master.Some?
    ensures var th := s.threads[t];
            Shape(s) && th.master.value < |s.cpus| && 0 <= th.priority <= MAX_PRIORITY &&
            t in ListOf(s, th.master.value, th.priority)
  {
    assert SchedModel.Listed(s, t);
  }

  /** A listed thread's node leaves its list. */
  lemma CutLinks(s: State, m: Links, t: Tid, busy: Option<nat>) returns (m': Links)
    requires Inv(s, busy) && LinksOk(s, m) && t in s.threads && s.threads[t].master.Some?
    ensures var th := s.threads[t];
            th.master.value < |s.cpus| && 0 <= th.priority <= MAX_PRIORITY &&
            var l := ListOf(s, th.master.value, th.priority);
            Allowed(m, Cut(t)) && m' == Do(m, Cut(t)) && m'.Keys == m.Keys && m'[t] == NULL &&
            Linked(m', Without(l, t)) && forall u :: u in m && u !in l ==> m'[u] == m[u]
  {
    hide Inv, NoDup, Linked, OnlyListed, Without, Remove;
    ListedAt(s, t, busy);
    var c, p := s.threads[t].master.value, s.threads[t].priority;
    var l := ListOf(s, c, p);
    ListNoDup(s, busy, c, p);
    var k :| 0 <= k < |l| && l[k] == t;
    assert Linked(m, l);
    RemoveLinked(m, l, k);
    WithoutAt(l, k);
    m' := Remove(m, t);
  }

  lemma NotBlocked(s: State, t: Tid, busy: Option<nat>)
    requires Inv(s, busy) && t in s.threads && s.threads[t].master.Some?
    ensures !s.threads[t].status.Blocked? && Shape(s)
  {
    assert SchedModel.Listed(s, t);
  }

  lemma BlockLinks(s: State, m: Links, t: Tid)
    requires Inv(s, None) && LinksOk(s, m) && t in s.threads && s.threads[t].master.Some?
    ensures s.threads[t].master.value < |s.cpus| && s.readyCount > 0
    ensures Allowed(m, Cut(t)) && LinksOk(DoBlock(s, t).0, Do(m, Cut(t)))
  {
    hide Inv, NoDup, Linked, OnlyListed, Remove, Without;
    ListedCounts(s, t, None);
    var m' := CutLinks(s, m, t, None);
    var c, p := s.threads[t].master.value, s.threads[t].priority;
    NotBlocked(s, t, None);
    var s' := DoBlock(s, t).0;
    assert Shape(s');
    forall d, q | 0 <= d < |s.cpus| && 0 <= q <= MAX_PRIORITY ensures Linked(m', ListOf(s', d, q)) {
      if (c, p) != (d, q) {
        OtherList(s, None, c, p, d, q);
        assert Linked(m, ListOf(s, d, q));
        LinkedSame(m, m', ListOf(s, d, q));
      }
    }
    forall u | u in s'.threads && s'.threads[u].master.None? ensures m'[u] == NULL {
      OnExactlyOneList(s, None, u, c, p);
    }
  }

  lemma RelistLinks(s: State, m: Links, c: nat, t: Tid, p': nat, raised: bool, busy: Option<nat>)
    requires Inv(s, busy) && LinksOk(s, m) && t in s.threads && s.threads[t].master == Some(c) && p' <= MAX_PRIORITY
    requires p' != s.threads[t].priority
    ensures c < |s.cpus| && 0 <= s.threads[t].priority <= MAX_PRIORITY
    ensures Shape(s) && Goes(m, Relist(s, c, t, p', raised), RelistStores(s, c, t, p'))
  {
    hide Inv, NoDup, Linked, OnlyListed, Without, Append, Remove, Relist, DoAll, Allowed, Do;
    var m1, m2;
    m1, m2 := RelistDone(s, m, c, t, p', busy);
    var p, s' := s.threads[t].priority, Relist(s, c, t, p', raised);
    RelistOneThread(s, c, t, p', raised, busy);
    RelistMasters(s, c, t, p', raised);
    forall d, q | 0 <= d < |s.cpus| && 0 <= q <= MAX_PRIORITY ensures Linked(m2, ListOf(s', d, q)) {
      RelistedLinked(s, m, m1, m2, c, t, p', raised, busy, d, q);
    }
    forall u | u in s'.threads && s'.threads[u].master.None? ensures m2[u] == NULL {
      OnExactlyOneList(s, busy, u, c, p);
      OnExactlyOneList(s, busy, u, c, p');
    }
  }

  lemma RelistDone(s: State, m: Links, c: nat, t: Tid, p': nat, busy: Option<nat>) returns (m1: Links, m2: Links)
    requires Inv(s, busy) && LinksOk(s, m) && t in s.threads && s.threads[t].master == Some(c) && p' <= MAX_PRIORITY
    requires p' != s.threads[t].priority
    ensures c < |s.cpus| && 0 <= s.threads[t].priority <= MAX_PRIORITY && m1.Keys == m.Keys && m2.Keys == m.Keys
    ensures var p := s.threads[t].priority;
            Linked(m1, Without(ListOf(s, c, p), t)) && Linked(m2, ListOf(s, c, p') + [t]) &&
            (forall u :: u in m && u !in ListOf(s, c, p) ==> m1[u] == m[u]) &&
            (forall u :: u in m1 && u !in ListOf(s, c, p') + [t] ==> m2[u] == m1[u])
    ensures DoAll(m, RelistStores(s, c, t, p')) == Some(m2)
  {
    hide Inv, NoDup, Linked, OnlyListed, Without, Append, Remove, DoAll;
    m1 := CutLinks(s, m, t, busy);
    var p := s.threads[t].priority;
    var l' := ListOf(s, c, p');
    OtherList(s, busy, c, p, c, p');
    ListNoDup(s, busy, c, p');
    assert Linked(m, l');
    LinkedSame(m, m1, l');
    OnExactlyOneList(s, busy, t, c, p');
    AppendLinked(m1, l', t);
    m2 := Append(m1, l', t);
    DoOne(m, Cut(t));
    DoOne(m1, Put(l', t));
    DoBoth(m, [Cut(t)], [Put(l', t)]);
  }

  lemma RelistMasters(s: State, c: nat, t: Tid, p': nat, raised: bool)
    requires t in s.threads && c < |s.cpus| && |s.cpus[c].lists| == MAX_PRIORITY + 1
    requires 0 <= s.threads[t].priority <= MAX_PRIORITY && p' <= MAX_PRIORITY
    ensures var s' := Relist(s, c, t, p', raised);
            s'.threads.Keys == s.threads.Keys && |s'.cpus| == |s.cpus| &&
            forall u :: u in s.threads ==> s'.threads[u].master == s.threads[u].master
  {
  }

  lemma RelistedLinked(s: State, m: Links, m1: Links, m2: Links, c: nat, t: Tid, p': nat, raised: bool,
                       busy: Option<nat>, d: nat, q: nat)
    requires Inv(s, busy) && LinksOk(s, m) && t in s.threads && s.threads[t].master == Some(c) && p' <= MAX_PRIORITY
    requires c < |s.cpus| && 0 <= s.threads[t].priority <= MAX_PRIORITY && p' != s.threads[t].priority
    requires d < |s.cpus| && q <= MAX_PRIORITY && m1.Keys == m.Keys && m2.Keys == m.Keys
    requires var p := s.threads[t].priority;
             Linked(m1, Without(ListOf(s, c, p), t)) && Linked(m2, ListOf(s, c, p') + [t]) &&
             (forall u :: u in m && u !in ListOf(s, c, p) ==> m1[u] == m[u]) &&
             (forall u :: u in m1 && u !in ListOf(s, c, p') + [t] ==> m2[u] == m1[u])
    ensures var s' := Relist(s, c, t, p', raised);
            d < |s'.cpus| && |s'.cpus[d].lists| == MAX_PRIORITY + 1 && Linked(m2, ListOf(s', d, q))
  {
    var p := s.threads[t].priority;
    RelistLists(s, c, t, p', raised, d, q);
    if d == c && q == p {
      ListNoDup(s, busy, c, p);
      WithoutLemma(ListOf(s, c, p), t);
      OtherList(s, busy, c, p', c, p);
      LinkedSame(m1, m2, Without(ListOf(s, c, p), t));
    } else if !(d == c && q == p') {
      OtherList(s, busy, c, p, d, q);
      OtherList(s, busy, c, p', d, q);
      OnExactlyOneList(s, busy, t, d, q);
      assert Linked(m, ListOf(s, d, q));
      LinkedSame(m, m2, ListOf(s, d, q));
    }
  }

  // ---------- operations ----------

  /** The stores ops are allowed and lead to the links of the lists of s. */
  ghost predicate Goes(m: Links, s: State, ops: seq<Store>) {
    DoAll(m, ops).Some? && LinksOk(s, DoAll(m, ops).value)
  }

  lemma GoesOn(m: Links, s1: State, a: seq<Store>, s2: State, b: seq<Store>)
    requires Goes(m, s1, a) && Goes(DoAll(m, a).value, s2, b)
    ensures Goes(m, s2, a + b)
  {
    hide LinksOk, DoAll;
    DoBoth(m, a, b);
  }

  lemma GoesNowhere(m: Links, s: State)
    requires LinksOk(s, m)
    ensures Goes(m, s, [])
  {
  }

  /** Nothing changes that the links depend on. */
  ghost predicate SameHolders(s: State, s': State) {
    Shape(s) && Shape(s') && |s'.cpus| == |s.cpus| && s'.threads.Keys == s.threads.Keys &&
    (forall c, p :: 0 <= c < |s.cpus| && 0 <= p <= MAX_PRIORITY ==> ListOf(s', c, p) == ListOf(s, c, p)) &&
    (forall t :: t in s.threads ==> s'.threads[t].master == s.threads[t].master)
  }

  lemma GoesSame(m: Links, s: State, s': State, ops: seq<Store>)
    requires Goes(m, s, ops) && SameHolders(s, s')
    ensures Goes(m, s', ops)
  {
    hide DoAll, Linked;
  }

  lemma LowerLinks(s: State, m: Links, c: nat, busy: Option<nat>)
    requires Inv(s, busy) && LinksOk(s, m) && c < |s.cpus|
    ensures Goes(m, Lower(s, c, busy), LowerStores(s, c, busy))
  {
    hide Inv, LinksOk, Goes, Relist;
    CurrentKnown(s, c, busy);
    GoesNowhere(m, s);
    if s.cpus[c].current.Some? {
      var t := s.cpus[c].current.value;
      SetQuantumInv(s, t, 0, busy);
      var s1 := SetQuantum(s, t, 0);
      QuantumSame(s, t, 0, busy);
      GoesSame(m, s, s1, []);
      GoesValue(m, s1, []);
      if s.threads[t].raised {
        RaisedRange(s, t, busy);
        RaisedMine(s, c, busy);
        RelistLinks(s1, m, c, t, s.threads[t].priority - 1, false, busy);
      }
    }
  }

  lemma QuantumSame(s: State, t: Tid, q: nat, busy: Option<nat>)
    requires Inv(s, busy) && t in s.threads
    ensures SameHolders(s, SetQuantum(s, t, q))
  {
    ShapeOf(s, busy);
    hide Inv;
  }

  lemma RaisedMine(s: State, c: nat, busy: Option<nat>)
    requires Inv(s, busy) && c < |s.cpus| && s.cpus[c].current.Some? && s.cpus[c].current.value in s.threads
    requires s.threads[s.cpus[c].current.value].raised
    ensures s.threads[s.cpus[c].current.value].master == Some(c)
  {
    assert CurrentIsMine(s, c, busy);
  }

  lemma {:induction false} RaiseLinks(s: State, m: Links, c: nat, p: nat, i: nat, busy: Option<nat>)
    requires Inv(s, busy) && LinksOk(s, m) && c < |s.cpus| && p < MAX_PRIORITY && i <= |ListOf(s, c, p)|
    ensures Goes(m, RaiseFrom(s, c, p, i, busy), RaiseStores(s, c, p, i, busy))
    decreases i
  {
    hide Inv, LinksOk, Goes, DoAll, RelistStores, Relist;
    ShapeOf(s, busy);
    GoesNowhere(m, s);
    if i > 0 && |ListOf(s, c, p)| / 4 != 0 {
      var s1 := RaiseRound(s, c, p, i, busy);
      var t := ListOf(s, c, p)[i - 1];
      InTheList(s, c, p, i - 1, busy);
      if t == s.cpus[c].idle || s.threads[t].status.Running? || s.threads[t].raised {
        RaiseLinks(s, m, c, p, i - 1, busy);
      } else {
        RelistLinks(s, m, c, t, p + 1, true, busy);
        var a := RelistStores(s, c, t, p + 1);
        GoesValue(m, s1, a);
        RaiseLinks(s1, DoAll(m, a).value, c, p, i - 1, busy);
        GoesOn(m, s1, a, RaiseFrom(s1, c, p, i - 1, busy), RaiseStores(s1, c, p, i - 1, busy));
      }
    }
  }

  lemma GoesValue(m: Links, s: State, ops: seq<Store>)
    requires Goes(m, s, ops)
    ensures DoAll(m, ops).Some? && LinksOk(s, DoAll(m, ops).value)
  {
  }

  lemma InTheList(s: State, c: nat, p: nat, i: nat, busy: Option<nat>)
    requires Inv(s, busy) && c < |s.cpus| && p <= MAX_PRIORITY && Shape(s) && i < |ListOf(s, c, p)|
    ensures var t := ListOf(s, c, p)[i];
            t in s.threads && s.threads[t].master == Some(c) && s.threads[t].priority == p
  {
    assert ListOf(s, c, p)[i] in ListOf(s, c, p);
  }

  lemma StarvationLinks(s: State, m: Links, c: nat, p: nat, busy: Option<nat>)
    requires Inv(s, busy) && LinksOk(s, m) && c < |s.cpus| && p < MAX_PRIORITY
    ensures Goes(m, Starvation(s, c, p, busy), StarvationStores(s, c, p, busy))
  {
    hide Inv, DoAll, RaiseFrom, Linked, RaiseStores;
    ShapeOf(s, busy);
    GoesNowhere(m, s);
    var q := s.cpus[c].lists[p].noStarvationQuantum + 1;
    if q >= Quantum(p) {
      SetNoStarvationInv(s, c, p, 0, busy);
      NoStarvationSame(s, c, p, 0);
      GoesSame(m, s, SetNoStarvation(s, c, p, 0), []);
    } else {
      SetNoStarvationInv(s, c, p, q, busy);
      NoStarvationSame(s, c, p, q);
      var s1 := SetNoStarvation(s, c, p, q);
      GoesSame(m, s, s1, []);
      RaiseLinks(s1, m, c, p, |ListOf(s, c, p)|, busy);
    }
  }

  lemma NoStarvationSame(s: State, c: nat, p: nat, q: nat)
    requires Shape(s) && c < |s.cpus| && p <= MAX_PRIORITY
    ensures SameHolders(s, SetNoStarvation(s, c, p, q))
  {
  }

  lemma {:induction false} StarvationFromLinks(s: State, m: Links, c: nat, p: nat, busy: Option<nat>)
    requires Inv(s, busy) && LinksOk(s, m) && c < |s.cpus| && p <= MAX_PRIORITY
    ensures Goes(m, StarvationFrom(s, c, p, busy), StarvationFromStores(s, c, p, busy))
    decreases MAX_PRIORITY - p
  {
    hide Inv, LinksOk, Goes, DoAll, Starvation, StarvationStores;
    GoesNowhere(m, s);
    if p < MAX_PRIORITY {
      var s1 := StarvationKeeps(s, c, p, busy);
      StarvationLinks(s, m, c, p, busy);
      var a := StarvationStores(s, c, p, busy);
      GoesValue(m, s1, a);
      StarvationFromLinks(s1, DoAll(m, a).value, c, p + 1, busy);
      GoesOn(m, s1, a, StarvationFrom(s1, c, p + 1, busy), StarvationFromStores(s1, c, p + 1, busy));
    }
  }

  lemma PrepareLinks(s: State, m: Links, c: nat, busy: Option<nat>)
    requires Inv(s, busy) && LinksOk(s, m) && c < |s.cpus|
    ensures Goes(m, Prepare(s, c, busy), ScheduleStores(s, c, busy))
  {
    hide Inv, LinksOk, Goes, DoAll, StarvationFrom, Lower, LowerStores, StarvationFromStores;
    LowerInv(s, c, busy);
    var s1, a := Lower(s, c, busy), LowerStores(s, c, busy);
    LowerLinks(s, m, c, busy);
    GoesValue(m, s1, a);
    if |s.cpus| > 1 {
      StarvationFromLinks(s1, DoAll(m, a).value, c, 0, busy);
      GoesOn(m, s1, a, StarvationFrom(s1, c, 0, busy), StarvationFromStores(s1, c, 0, busy));
    } else {
      assert a + [] == a;
    }
  }

  lemma ChooseSame(s: State, c: nat, busy: Option<nat>) returns (s': State, t: Tid)
    requires Inv(s, busy) && c < |s.cpus|
    ensures (s', t) == Choose(s, c, busy) && Inv(s', busy) && SameHolders(s, s') && c < |s'.cpus|
    ensures t in s'.threads && s'.threads[t].master == Some(c)
  {
    s', t := ChooseKeeps(s, c, busy);
    assert CurrentIsMine(s, c, busy);
    TurnInv(s, c, busy);
    TurnSame(s, c);
  }

  lemma TurnSame(s: State, c: nat)
    requires Shape(s) && c < |s.cpus|
    requires s.cpus[c].currentList.Some? ==> s.cpus[c].currentList.value <= MAX_PRIORITY
    ensures SameHolders(s, s.(cpus := s.cpus[c := Turn(s.cpus[c])])) && SameHolders(s, s)
  {
  }

  lemma SwitchSame(s: State, c: nat, t: Tid, busy: Option<nat>)
    requires Inv(s, busy) && (busy.None? || busy == Some(c)) && c < |s.cpus|
    requires t in s.threads && s.threads[t].master == Some(c)
    ensures s.cpus[c].current.Some? ==> s.cpus[c].current.value in s.threads
    ensures SameHolders(s, Switch(s, c, t))
  {
    hide Inv, Switch;
    ShapeOf(s, busy);
    CurrentKnown(s, c, busy);
    SwitchLists(s, c, t);
    SwitchThreads(s, c, t, busy, t);
    forall u | u in s.threads ensures Switch(s, c, t).threads[u].master == s.threads[u].master {
      SwitchThreads(s, c, t, busy, u);
    }
  }

  lemma ScheduleLinks(s: State, m: Links, c: nat, busy: Option<nat>)
    requires Inv(s, busy) && LinksOk(s, m) && (busy.None? || busy == Some(c)) && c < |s.cpus|
    ensures Goes(m, DoSchedule(s, c, busy), ScheduleStores(s, c, busy))
  {
    hide Inv, LinksOk, Goes, DoAll, Prepare, Choose, Switch, SameHolders, ScheduleStores;
    var ops := ScheduleStores(s, c, busy);
    PrepareLinks(s, m, c, busy);
    var s1 := PrepareKeeps(s, c, busy);
    var s2, t := ChooseSame(s1, c, busy);
    GoesSame(m, s1, s2, ops);
    SwitchSame(s2, c, t, busy);
    GoesSame(m, s2, Switch(s2, c, t), ops);
  }

  lemma YieldLinks(s: State, m: Links, c: nat, busy: Option<nat>)
    requires Inv(s, busy) && LinksOk(s, m) && (busy.None? || busy == Some(c)) && c < |s.cpus|
    ensures Goes(m, DoYield(s, c, busy), YieldStores(s, c, busy))
  {
    hide Inv, DoAll, DoSchedule, Linked, ScheduleStores;
    CurrentKnown(s, c, busy);
    GoesNowhere(m, s);
    if s.cpus[c].current.None? {
      ScheduleLinks(s, m, c, busy);
    } else {
      var t := s.cpus[c].current.value;
      var q := (s.threads[t].quantum + 1) % 256;
      SetQuantumInv(s, t, q, busy);
      var s1 := SetQuantum(s, t, q);
      QuantumSame(s, t, q, busy);
      GoesSame(m, s, s1, []);
      if !(q < Quantum(s.threads[t].priority) && CanRun(s.threads[t], c)) {
        ScheduleLinks(s1, m, c, busy);
      }
    }
  }

  lemma BlockYieldLinks(s: State, m: Links, c: nat)
    requires Inv(s, None) && LinksOk(s, m) && Enabled(s, BlockAndYield(c))
    ensures Goes(m, BlockThenYield(s, c), StepStores(s, BlockAndYield(c)))
  {
    hide Inv, LinksOk, Goes, DoAll, DoYield, DoBlock, Allowed, Do, YieldStores;
    CurrentBlocked(s, c);
    var t := s.cpus[c].current.value;
    BlockLinks(s, m, t);
    var s1, m1 := DoBlock(s, t).0, Do(m, Cut(t));
    DoOne(m, Cut(t));
    YieldLinks(s1, m1, c, Some(c));
    assert Goes(m, s1, [Cut(t)]) by {
      GoesOne(m, s1, Cut(t));
    }
    GoesOn(m, s1, [Cut(t)], DoYield(s1, c, Some(c)), YieldStores(s1, c, Some(c)));
  }

  lemma GoesOne(m: Links, s: State, op: Store)
    requires Allowed(m, op) && LinksOk(s, Do(m, op))
    ensures Goes(m, s, [op])
  {
    hide DoAll, LinksOk;
    DoOne(m, op);
  }

  lemma ReadyLinks(s: State, m: Links, t: Tid)
    requires Inv(s, None) && LinksOk(s, m) && t in s.threads
    ensures Goes(m, DoReady(s, t).0, ReadyStores(s, t))
  {
    hide Goes, LinksOk, LeastLoaded;
    GoesNowhere(m, s);
    var th := s.threads[t];
    if !BadPriority(th) && th.master.None? && LeastLoaded(s, t, |s.cpus|).Some? {
      var c := LeastLoaded(s, t, |s.cpus|).value;
      PutOnLinks(s, m, t, c);
      GoesOne(m, PutOn(s, t, c), Put(ListOf(s, c, th.priority), t));
    }
  }

  lemma BoostLinks(s: State, m: Links, t: Tid)
    requires Inv(s, None) && LinksOk(s, m) && t in s.threads
    ensures Shape(s) && (s.threads[t].master.Some? ==> s.threads[t].master.value < |s.cpus|)
    ensures Goes(m, DoBoost(s, t).0, BoostStores(s, t))
  {
    hide Inv, Goes, LinksOk, Relist;
    ShapeOf(s, None);
    BoostInv(s, t);
    GoesNowhere(m, s);
    var th, s' := s.threads[t], DoBoost(s, t).0;
    if !(BadPriority(th) || th.died || th.raised || th.priority == MAX_PRIORITY) {
      if th.master.Some? {
        RelistLinks(s, m, th.master.value, t, th.priority + 1, true, None);
      } else {
        GoesSame(m, s, s', []);
      }
    }
  }

  lemma NewLinks(s: State, m: Links, t: Tid, priority: int, affinity: set<nat>)
    requires Inv(s, None) && LinksOk(s, m) && t !in s.threads
    ensures Goes(m, DoInitialize(s, t, priority, affinity).0, StepStores(s, Initialize(t, priority, affinity)))
  {
    GoesNowhere(m, s);
    if !(priority < 0 || priority > MAX_PRIORITY || affinity == {}) {
      var s', m' := DoInitialize(s, t, priority, affinity).0, m[t := NULL];
      forall c, p | 0 <= c < |s.cpus| && 0 <= p <= MAX_PRIORITY ensures Linked(m', ListOf(s', c, p)) {
        assert Linked(m, ListOf(s, c, p));
        LinkedSame(m, m', ListOf(s, c, p));
      }
      GoesOne(m, s', New(t));
    }
  }

  lemma WaitingLinks(s: State, m: Links, t: Tid)
    requires Inv(s, None) && LinksOk(s, m) && Enabled(s, BlockWaiting(t))
    ensures s.threads[t].master.value < |s.cpus| && s.readyCount > 0
    ensures Goes(m, DoBlock(s, t).0, [Cut(t)])
  {
    hide Goes, LinksOk;
    BlockLinks(s, m, t);
    GoesOne(m, DoBlock(s, t).0, Cut(t));
  }

  lemma StepLinks(s: State, m: Links, step: Step)
    requires Inv(s, None) && LinksOk(s, m) && Enabled(s, step)
    ensures Goes(m, Exec(s, step), StepStores(s, step))
  {
    hide Inv, LinksOk, DoAll, Goes, DoYield, DoSchedule, DoReady, DoBoost, DoBlock, BlockThenYield, DoInitialize;
    hide YieldStores, ScheduleStores, ReadyStores, BoostStores;
    match step {
      case Initialize(t, priority, affinity) => NewLinks(s, m, t, priority, affinity);
      case ReadyThread(t) => ReadyLinks(s, m, t);
      case BlockAndYield(c) => BlockYieldLinks(s, m, c);
      case BlockWaiting(t) => WaitingLinks(s, m, t);
      case Boost(t) => BoostLinks(s, m, t);
      case Yield(c) => YieldLinks(s, m, c, None);
      case Schedule(c) => ScheduleLinks(s, m, c, None);
    }
  }

  // ---------- runs ----------

  lemma {:induction false} RunLinksFrom(s: State, m: Links, steps: seq<Step>)
    requires Inv(s, None) && LinksOk(s, m) && ExecAll(s, steps).Some?
    ensures Goes(m, ExecAll(s, steps).value, RunStores(s, steps))
    decreases |steps|
  {
    hide Inv, LinksOk, DoAll, Goes, Enabled, Exec, StepStores;
    GoesNowhere(m, s);
    if steps != [] {
      var s1, a := Exec(s, steps[0]), StepStores(s, steps[0]);
      StepLinks(s, m, steps[0]);
      GoesValue(m, s1, a);
      RunLinksFrom(s1, DoAll(m, a).value, steps[1..]);
      GoesOn(m, s1, a, ExecAll(s1, steps[1..]).value, RunStores(s1, steps[1..]));
    }
  }

  /** The idle threads' nodes at the start: each alone on its list. */
  ghost function StartLinks(n: nat): (m: Links)
    ensures forall t: nat :: t in m <==> t < n
    ensures forall t: nat :: t in m ==> m[t] == NULL
  {
    if n == 0 then map[] else StartLinks(n - 1)[n - 1 := NULL]
  }

  /** On every run every append finds the next link of its node null, and the links are
      those of the lists. */
  lemma RunLinks(n: nat, steps: seq<Step>)
    ensures Inv(Start(n), None)
    ensures ExecAll(Start(n), steps).Some? ==>
              Goes(StartLinks(n), ExecAll(Start(n), steps).value, RunStores(Start(n), steps))
  {
    StartInv(n);
    if ExecAll(Start(n), steps).Some? {
      var s, m := Start(n), StartLinks(n);
      forall c, p | 0 <= c < n && 0 <= p <= MAX_PRIORITY ensures Linked(m, ListOf(s, c, p)) {
        StartLists(n, c, p);
      }
      assert LinksOk(s, m);
      RunLinksFrom(s, m, steps);
    }
  }
}
