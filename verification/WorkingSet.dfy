/**
  The page replacement algorithm: one pass over the working set and the list of the
  pages referenced since the pass before. All pages are small pages.
 */
module WorkingSet {
  import opened Aging

  const PAGE: nat := 0x1000

  type Pid = nat

  datatype Info = Info(age: bv8, pagedOut: bool, workingSets: nat)

  /** The two lists, the pages, and the pages handed to the swap code so far. */
  datatype State = State(ws: seq<Pid>, referenced: seq<Pid>, info: map<Pid, Info>, handed: seq<Pid>)

  // ---------- lists ----------

  ghost predicate NoDup(s: seq<Pid>) {
    forall i, j :: 0 <= i < j < |s| ==> s[i] != s[j]
  }

  function Keep(ps: seq<Pid>, gone: set<Pid>): (r: seq<Pid>)
    ensures forall p :: p in r <==> p in ps && p !in gone
  {
    if ps == [] then []
    else
      var r := Keep(ps[..|ps| - 1], gone);
      if ps[|ps| - 1] in gone then r else r + [ps[|ps| - 1]]
  }

  function Drop(ps: seq<Pid>, gone: set<Pid>): (r: seq<Pid>)
    ensures forall p :: p in r <==> p in ps && p in gone
  {
    if ps == [] then []
    else
      var r := Drop(ps[..|ps| - 1], gone);
      if ps[|ps| - 1] in gone then r + [ps[|ps| - 1]] else r
  }

  lemma {:induction false} KeepDropLength(ps: seq<Pid>, gone: set<Pid>)
    ensures |Keep(ps, gone)| + |Drop(ps, gone)| == |ps|
  {
    if ps != [] {
      KeepDropLength(ps[..|ps| - 1], gone);
    }
  }

  lemma {:induction false} KeepNoDup(ps: seq<Pid>, gone: set<Pid>)
    requires NoDup(ps)
    ensures NoDup(Keep(ps, gone))
  {
    if ps != [] {
      KeepNoDup(ps[..|ps| - 1], gone);
    }
  }

  /** The last k elements, the last one first. */
  function Newest(s: seq<Pid>, k: nat): (r: seq<Pid>)
    requires k <= |s|
    ensures |r| == k
    ensures forall i :: 0 <= i < k ==> r[i] == s[|s| - 1 - i]
  {
    if k == 0 then [] else Newest(s, k - 1) + [s[|s| - k]]
  }

  // ---------- consistency ----------

  ghost predicate Consistent(s: State) {
    NoDup(s.ws + s.referenced) &&
    (forall p :: p in s.ws ==> p in s.info && !s.info[p].pagedOut && s.info[p].workingSets == 1) &&
    (forall p :: p in s.referenced ==> p in s.info && !s.info[p].pagedOut && s.info[p].age == Touch(s.info[p].age)) &&
    (forall p :: p in s.info && p !in s.ws ==> s.info[p].workingSets == 0)
  }

  // ---------- the steps of the first loop ----------

  function SetAge(s: State, p: Pid, age: bv8): State
    requires p in s.info
  {
    s.(info := s.info[p := s.info[p].(age := age)])
  }

  /** The page at position i leaves the working set and is handed to the swap code. */
  function Evict(s: State, i: nat, fails: set<Pid>): State
    requires i < |s.ws| && s.ws[i] in s.info
  {
    var p := s.ws[i];
    State(s.ws[..i] + s.ws[i + 1..], s.referenced,
          s.info[p := Info(s.info[p].age, p !in fails, 0)], s.handed + [p])
  }

  /** The page referenced last joins the working set. */
  function Replace(s: State): State
    requires s.referenced != [] ==> s.referenced[|s.referenced| - 1] in s.info
  {
    if s.referenced == [] then s
    else
      var n := |s.referenced|;
      var r := s.referenced[n - 1];
      State(s.ws + [r], s.referenced[..n - 1],
            s.info[r := s.info[r].(workingSets := s.info[r].workingSets + 1)], s.handed)
  }

  ghost function Gone(s: State, touched: set<Pid>): set<Pid> {
    set p | p in s.ws && p in s.info && Aged(s.info[p].age, p in touched) == 0
  }

  function Min(a: nat, b: nat): nat {
    if a < b then a else b
  }

  /** The pages that take the places of those dropped. */
  ghost function Moved(o: State, gone: set<Pid>): seq<Pid> {
    Newest(o.referenced, Min(|Drop(o.ws, gone)|, |o.referenced|))
  }

  /** The loop ends before it comes to the page that takes the last place: it takes the
      next page to look at from the list before it makes the replacement. */
  ghost predicate Unseen(o: State, gone: set<Pid>) {
    o.ws != [] && Drop(o.ws, gone) == [o.ws[|o.ws| - 1]]
  }

  /** What a page is when the pages of done are dealt with, those of moved came from the
      referenced list, and those of seen among these were aged. */
  ghost function InfoNow(a: Info, p: Pid, touched: set<Pid>, fails: set<Pid>,
                         done: seq<Pid>, moved: seq<Pid>, seen: seq<Pid>): Info {
    var aged := Aged(a.age, p in touched);
    if p in done then
      if aged == 0 then Info(0, p !in fails, 0) else Info(aged, false, 1)
    else if p in moved then Info(if p in seen then aged else a.age, false, 1)
    else a
  }

  ghost predicate Lists(o: State, s: State, gone: set<Pid>, j: nat, k: nat) {
    j <= |o.ws| && k <= |o.referenced| &&
    k == Min(|Drop(o.ws[..j], gone)|, |o.referenced|) &&
    s.ws == Keep(o.ws[..j], gone) + o.ws[j..] + Newest(o.referenced, k) &&
    s.referenced == o.referenced[..|o.referenced| - k] &&
    s.handed == o.handed + Drop(o.ws[..j], gone)
  }

  ghost predicate Infos(o: State, s: State, touched: set<Pid>, fails: set<Pid>,
                        done: seq<Pid>, moved: seq<Pid>, seen: seq<Pid>) {
    s.info.Keys == o.info.Keys &&
    forall p :: p in o.info ==> s.info[p] == InfoNow(o.info[p], p, touched, fails, done, moved, seen)
  }

  /** The state after j pages of the old working set were dealt with, k pages joined it,
      and v of these were aged. */
  ghost predicate Passing(o: State, s: State, touched: set<Pid>, fails: set<Pid>, j: nat, k: nat, v: nat) {
    Lists(o, s, Gone(o, touched), j, k) && v <= k &&
    Infos(o, s, touched, fails, o.ws[..j], Newest(o.referenced, k), Newest(o.referenced, k)[..v])
  }

  lemma PassingStart(o: State, touched: set<Pid>, fails: set<Pid>)
    requires Consistent(o)
    ensures Passing(o, o, touched, fails, 0, 0, 0)
  {
    assert o.ws[..0] == [] && o.ws[0..] == o.ws;
    assert o.referenced[..|o.referenced|] == o.referenced;
  }

  lemma Disjoint(o: State, k: nat)
    requires Consistent(o) && k <= |o.referenced|
    ensures forall p :: p in o.ws ==> p !in o.referenced
    ensures forall p :: p in Newest(o.referenced, k) ==> p in o.referenced
    ensures NoDup(o.ws) && NoDup(o.referenced)
  {
    var all := o.ws + o.referenced;
    forall p | p in o.ws ensures p !in o.referenced {
      var i :| 0 <= i < |o.ws| && o.ws[i] == p;
      forall j | 0 <= j < |o.referenced| ensures o.referenced[j] != p {
        assert all[i] == p && all[|o.ws| + j] == o.referenced[j];
      }
    }
    forall i, j | 0 <= i < j < |o.ws| ensures o.ws[i] != o.ws[j] {
      assert all[i] == o.ws[i] && all[j] == o.ws[j];
    }
    forall i, j | 0 <= i < j < |o.referenced| ensures o.referenced[i] != o.referenced[j] {
      assert all[|o.ws| + i] == o.referenced[i] && all[|o.ws| + j] == o.referenced[j];
    }
  }

  lemma PageFacts(o: State, j: nat, k: nat)
    requires Consistent(o) && j < |o.ws| && k <= |o.referenced|
    ensures var p := o.ws[j];
            p in o.ws && p in o.info && !o.info[p].pagedOut && o.info[p].workingSets == 1 &&
            p !in o.ws[..j] && p !in Newest(o.referenced, k)
  {
    Disjoint(o, k);
    var p := o.ws[j];
    assert p in o.ws;
  }

  /** The next page of the old working set has not been looked at. */
  lemma NextPage(o: State, s: State, touched: set<Pid>, fails: set<Pid>, j: nat, k: nat)
    requires Consistent(o) && Passing(o, s, touched, fails, j, k, 0) && j < |o.ws|
    ensures var i := |Keep(o.ws[..j], Gone(o, touched))|;
            i < |s.ws| && s.ws[i] == o.ws[j] && o.ws[j] in s.info && o.ws[j] in o.info &&
            s.info[o.ws[j]] == o.info[o.ws[j]] && !o.info[o.ws[j]].pagedOut && o.info[o.ws[j]].workingSets == 1
  {
    hide Consistent, Keep, Drop, Newest, Gone, Aged;
    PageFacts(o, j, k);
  }

  lemma KeepNone(ps: seq<Pid>, gone: set<Pid>)
    ensures |Keep(ps[..0], gone)| == 0 && (ps == [] ==> |Keep(ps, gone)| == 0)
  {
  }

  lemma KeepNext(ps: seq<Pid>, j: nat, gone: set<Pid>)
    requires j < |ps|
    ensures Keep(ps[..j + 1], gone) == (if ps[j] in gone then Keep(ps[..j], gone) else Keep(ps[..j], gone) + [ps[j]])
    ensures Drop(ps[..j + 1], gone) == (if ps[j] in gone then Drop(ps[..j], gone) + [ps[j]] else Drop(ps[..j], gone))
  {
    assert ps[..j + 1][..j] == ps[..j];
  }

  lemma InfoDone(o: State, s: State, touched: set<Pid>, fails: set<Pid>, done: seq<Pid>, moved: seq<Pid>, p: Pid)
    requires Infos(o, s, touched, fails, done, moved, []) && p in o.info && p !in done && p !in moved
    requires !o.info[p].pagedOut && o.info[p].workingSets == 1
    ensures var aged := Aged(o.info[p].age, p in touched);
            (aged != 0 ==> Infos(o, SetAge(s, p, aged), touched, fails, done + [p], moved, [])) &&
            (aged == 0 ==> Infos(o, s.(info := s.info[p := Info(0, p !in fails, 0)]), touched, fails, done + [p], moved, []))
  {
    hide Aged;
  }

  lemma KeepStep(o: State, s: State, touched: set<Pid>, fails: set<Pid>, j: nat, k: nat)
    requires Consistent(o) && Passing(o, s, touched, fails, j, k, 0) && j < |o.ws| && o.ws[j] in s.info
    requires Aged(o.info[o.ws[j]].age, o.ws[j] in touched) != 0
    ensures Passing(o, SetAge(s, o.ws[j], Aged(o.info[o.ws[j]].age, o.ws[j] in touched)), touched, fails, j + 1, k, 0)
    ensures |Keep(o.ws[..j + 1], Gone(o, touched))| == |Keep(o.ws[..j], Gone(o, touched))| + 1
  {
    hide Consistent, Aged, Infos, Keep, Drop, Newest;
    var gone, p := Gone(o, touched), o.ws[j];
    PageFacts(o, j, k);
    assert p !in gone && Newest(o.referenced, k)[..0] == [];
    assert o.ws[..j + 1] == o.ws[..j] + [p];
    InfoDone(o, s, touched, fails, o.ws[..j], Newest(o.referenced, k), p);
    KeepNext(o.ws, j, gone);
    hide Gone;
    assert Keep(o.ws[..j], gone) + o.ws[j..] == Keep(o.ws[..j], gone) + [p] + o.ws[j + 1..];
  }

  lemma InfoMoved(o: State, s: State, touched: set<Pid>, fails: set<Pid>, done: seq<Pid>, moved: seq<Pid>, r: Pid)
    requires Infos(o, s, touched, fails, done, moved, []) && r in o.info && r !in done && r !in moved
    requires !o.info[r].pagedOut && o.info[r].workingSets == 0
    ensures r in s.info
    ensures Infos(o, s.(info := s.info[r := s.info[r].(workingSets := s.info[r].workingSets + 1)]),
                  touched, fails, done, moved + [r], [])
  {
    hide Aged;
  }

  lemma InfoSeen(o: State, s: State, touched: set<Pid>, fails: set<Pid>, done: seq<Pid>, moved: seq<Pid>, v: nat)
    requires v < |moved| && moved[v] in o.info && moved[v] !in done && NoDup(moved)
    requires Infos(o, s, touched, fails, done, moved, moved[..v])
    ensures var p := moved[v]; var aged := Aged(o.info[p].age, p in touched);
            p in s.info && s.info[p] == Info(o.info[p].age, false, 1) &&
            Infos(o, SetAge(s, p, aged), touched, fails, done, moved, moved[..v + 1])
  {
    hide Aged;
    assert moved[..v + 1] == moved[..v] + [moved[v]];
  }

  /** Position i is cut out of a list made of three parts, in the second of which it is
      the first. */
  lemma CutSecond(a: seq<Pid>, b: seq<Pid>, c: seq<Pid>)
    requires b != []
    ensures var s := a + b + c; s[..|a|] + s[|a| + 1..] == a + b[1..] + c
  {
  }

  lemma EvictLists(o: State, s: State, gone: set<Pid>, j: nat, k: nat, fails: set<Pid>) returns (e: State)
    requires Lists(o, s, gone, j, k) && j < |o.ws| && o.ws[j] in gone && o.ws[j] in s.info
    ensures var i := |Keep(o.ws[..j], gone)|; i < |s.ws| && s.ws[i] == o.ws[j] && e == Evict(s, i, fails)
    ensures e.ws == Keep(o.ws[..j + 1], gone) + o.ws[j + 1..] + Newest(o.referenced, k)
    ensures e.referenced == o.referenced[..|o.referenced| - k]
    ensures e.handed == o.handed + Drop(o.ws[..j + 1], gone) && |Drop(o.ws[..j + 1], gone)| == |Drop(o.ws[..j], gone)| + 1
  {
    KeepNext(o.ws, j, gone);
    hide Keep, Drop, Newest;
    var a, b, c := Keep(o.ws[..j], gone), o.ws[j..], Newest(o.referenced, k);
    CutSecond(a, b, c);
    assert b[1..] == o.ws[j + 1..];
    e := Evict(s, |a|, fails);
    assert o.handed + Drop(o.ws[..j], gone) + [o.ws[j]] == o.handed + (Drop(o.ws[..j], gone) + [o.ws[j]]);
  }

  lemma ReplaceLists(o: State, e: State, gone: set<Pid>, j: nat, k: nat) returns (s: State)
    requires j <= |o.ws| && k <= |o.referenced| && |Drop(o.ws[..j], gone)| > 0
    requires k == Min(|Drop(o.ws[..j], gone)| - 1, |o.referenced|)
    requires e.ws == Keep(o.ws[..j], gone) + o.ws[j..] + Newest(o.referenced, k)
    requires e.referenced == o.referenced[..|o.referenced| - k]
    requires e.handed == o.handed + Drop(o.ws[..j], gone)
    requires forall q :: q in e.referenced ==> q in e.info
    ensures s == Replace(e) && Lists(o, s, gone, j, if e.referenced == [] then k else k + 1)
  {
    hide Keep, Drop;
    s := Replace(e);
    if k < |o.referenced| {
      var n := |o.referenced|;
      assert Newest(o.referenced, k + 1) == Newest(o.referenced, k) + [o.referenced[n - k - 1]];
      hide Newest;
      assert e.referenced[..n - k - 1] == o.referenced[..n - (k + 1)];
    }
  }

  lemma DropInfos(o: State, s: State, touched: set<Pid>, fails: set<Pid>, j: nat, k: nat, p: Pid, e: State)
    requires Consistent(o) && j < |o.ws| && p == o.ws[j] && k <= |o.referenced|
    requires Infos(o, s, touched, fails, o.ws[..j], Newest(o.referenced, k), [])
    requires Aged(o.info[p].age, p in touched) == 0
    requires e.info == s.info[p := Info(0, p !in fails, 0)] && e.referenced == o.referenced[..|o.referenced| - k]
    ensures forall q :: q in e.referenced ==> q in e.info
    ensures Infos(o, Replace(e), touched, fails, o.ws[..j + 1],
                  Newest(o.referenced, if e.referenced == [] then k else k + 1), [])
  {
    hide Consistent, Newest, NoDup, Aged, Infos;
    var moved := Newest(o.referenced, k);
    PageFacts(o, j, k);
    assert o.ws[..j + 1] == o.ws[..j] + [p];
    InfoDone(o, s, touched, fails, o.ws[..j], moved, p);
    InfosKeys(o, s, touched, fails, o.ws[..j], moved);
    ReferencedKnown(o);
    if e.referenced != [] {
      var r := o.referenced[|o.referenced| - k - 1];
      assert e.referenced[|e.referenced| - 1] == r;
      NextReferenced(o, j, k);
      InfoMoved(o, s.(info := e.info), touched, fails, o.ws[..j + 1], moved, r);
      SameInfos(o, s.(info := Replace(e).info), Replace(e), touched, fails, o.ws[..j + 1], moved + [r]);
    } else {
      SameInfos(o, s.(info := e.info), Replace(e), touched, fails, o.ws[..j + 1], moved);
    }
  }

  lemma InfosKeys(o: State, s: State, touched: set<Pid>, fails: set<Pid>, done: seq<Pid>, moved: seq<Pid>)
    requires Infos(o, s, touched, fails, done, moved, [])
    ensures s.info.Keys == o.info.Keys
  {
  }

  lemma SameInfos(o: State, s: State, t: State, touched: set<Pid>, fails: set<Pid>, done: seq<Pid>, moved: seq<Pid>)
    requires Infos(o, s, touched, fails, done, moved, []) && s.info == t.info
    ensures Infos(o, t, touched, fails, done, moved, [])
  {
  }

  lemma ReferencedKnown(o: State)
    requires Consistent(o)
    ensures forall q :: q in o.referenced ==> q in o.info
  {
  }

  /** The page that takes the next place. */
  lemma NextReferenced(o: State, j: nat, k: nat)
    requires Consistent(o) && j < |o.ws| && k < |o.referenced|
    ensures var r := o.referenced[|o.referenced| - k - 1];
            r in o.info && !o.info[r].pagedOut && o.info[r].workingSets == 0 &&
            r !in o.ws[..j + 1] && r !in Newest(o.referenced, k) &&
            Newest(o.referenced, k + 1) == Newest(o.referenced, k) + [r]
  {
    Disjoint(o, k);
    var r := o.referenced[|o.referenced| - k - 1];
    assert r in o.referenced && r !in o.ws;
    forall i | 0 <= i < k ensures Newest(o.referenced, k)[i] != r {
    }
  }

  lemma EvictInfo(s: State, i: nat, fails: set<Pid>)
    requires i < |s.ws| && s.ws[i] in s.info
    ensures Evict(s, i, fails).info == s.info[s.ws[i] := Info(s.info[s.ws[i]].age, s.ws[i] !in fails, 0)]
  {
  }

  lemma DropStep(o: State, s: State, touched: set<Pid>, fails: set<Pid>, j: nat, k: nat) returns (e: State, k': nat)
    requires Consistent(o) && Passing(o, s, touched, fails, j, k, 0) && j < |o.ws| && o.ws[j] in s.info
    requires Aged(o.info[o.ws[j]].age, o.ws[j] in touched) == 0
    ensures var i := |Keep(o.ws[..j], Gone(o, touched))|;
            i < |s.ws| && s.ws[i] == o.ws[j] && e == Evict(SetAge(s, o.ws[j], 0), i, fails)
    ensures forall q :: q in e.referenced ==> q in e.info
    ensures k' == (if e.referenced == [] then k else k + 1) && Passing(o, Replace(e), touched, fails, j + 1, k', 0)
    ensures |Keep(o.ws[..j + 1], Gone(o, touched))| == |Keep(o.ws[..j], Gone(o, touched))|
  {
    hide Keep, Drop, Aged, Newest, Infos, NoDup, Evict, Replace;
    var gone, p := Gone(o, touched), o.ws[j];
    assert p in gone && Newest(o.referenced, k)[..0] == [];
    KeepNext(o.ws, j, gone);
    e := EvictLists(o, SetAge(s, p, 0), gone, j, k, fails);
    EvictInfo(SetAge(s, p, 0), |Keep(o.ws[..j], gone)|, fails);
    DropInfos(o, s, touched, fails, j, k, p, e);
    k' := if e.referenced == [] then k else k + 1;
    var t := ReplaceLists(o, e, gone, j + 1, k);
    assert Newest(o.referenced, k')[..0] == [];
  }

  lemma SeenStep(o: State, s: State, touched: set<Pid>, fails: set<Pid>, k: nat, v: nat)
    requires Consistent(o) && k <= |o.referenced| && Passing(o, s, touched, fails, |o.ws|, k, v) && v < k
    ensures var i, p := |Keep(o.ws, Gone(o, touched))| + v, Newest(o.referenced, k)[v];
            i < |s.ws| && s.ws[i] == p && p in o.info && p in s.info &&
            var aged := Aged(o.info[p].age, p in touched);
            aged != 0 && s.info[p] == Info(o.info[p].age, false, 1) &&
            Passing(o, SetAge(s, p, aged), touched, fails, |o.ws|, k, v + 1)
  {
    hide Consistent, Infos, Keep, Newest, NoDup, Gone, Aged, Lists, Passing;
    var moved, p := Newest(o.referenced, k), Newest(o.referenced, k)[v];
    PassingParts(o, s, touched, fails, k, v);
    SeenFacts(o, k, v, touched);
    InfoSeen(o, s, touched, fails, o.ws, moved, v);
    AllLooked(o, s, Gone(o, touched), k);
    var t := SetAge(s, p, Aged(o.info[p].age, p in touched));
    SameLists(o, s, t, Gone(o, touched), |o.ws|, k);
    PassingParts(o, t, touched, fails, k, v + 1);
  }

  lemma PassingParts(o: State, s: State, touched: set<Pid>, fails: set<Pid>, k: nat, v: nat)
    requires v <= k <= |o.referenced|
    ensures Passing(o, s, touched, fails, |o.ws|, k, v) <==>
            Lists(o, s, Gone(o, touched), |o.ws|, k) &&
            Infos(o, s, touched, fails, o.ws, Newest(o.referenced, k), Newest(o.referenced, k)[..v])
  {
    hide Lists, Infos, Newest, Gone;
    assert o.ws[..|o.ws|] == o.ws;
  }

  lemma AllLooked(o: State, s: State, gone: set<Pid>, k: nat)
    requires Lists(o, s, gone, |o.ws|, k)
    ensures s.ws == Keep(o.ws, gone) + Newest(o.referenced, k)
  {
    hide Keep, Drop, Newest;
    assert o.ws[..|o.ws|] == o.ws && o.ws[|o.ws|..] == [];
  }

  lemma SameLists(o: State, s: State, t: State, gone: set<Pid>, j: nat, k: nat)
    requires Lists(o, s, gone, j, k) && t.ws == s.ws && t.referenced == s.referenced && t.handed == s.handed
    ensures Lists(o, t, gone, j, k)
  {
  }

  lemma SeenFacts(o: State, k: nat, v: nat, touched: set<Pid>)
    requires Consistent(o) && v < k <= |o.referenced|
    ensures var moved := Newest(o.referenced, k);
            var p := moved[v];
            p in o.info && p !in o.ws && NoDup(moved) && Aged(o.info[p].age, p in touched) != 0
  {
    Disjoint(o, k);
    NewestApart(o.referenced, k);
    var p := Newest(o.referenced, k)[v];
    assert p in Newest(o.referenced, k);
    TouchedStays(o.info[p].age);
  }

  lemma NoDupJoin(a: seq<Pid>, b: seq<Pid>)
    requires NoDup(a) && NoDup(b) && forall p :: p in a ==> p !in b
    ensures NoDup(a + b)
  {
    forall i, j | 0 <= i < j < |a + b| ensures (a + b)[i] != (a + b)[j] {
      if i < |a| <= j {
        assert (a + b)[i] in a && (a + b)[j] in b;
      }
    }
  }

  lemma NewestApart(l: seq<Pid>, k: nat)
    requires NoDup(l) && k <= |l|
    ensures NoDup(Newest(l, k)) && NoDup(l[..|l| - k])
    ensures forall p :: p in Newest(l, k) ==> p in l && p !in l[..|l| - k]
    ensures forall p :: p in l ==> p in Newest(l, k) || p in l[..|l| - k]
  {
    forall p | p in l ensures p in Newest(l, k) || p in l[..|l| - k] {
      var i :| 0 <= i < |l| && l[i] == p;
      if i >= |l| - k {
        assert Newest(l, k)[|l| - 1 - i] == p;
      } else {
        assert l[..|l| - k][i] == p;
      }
    }
  }

  lemma AfterPassNoDup(o: State, gone: set<Pid>, k: nat)
    requires Consistent(o) && k <= |o.referenced|
    ensures NoDup(Keep(o.ws, gone) + Newest(o.referenced, k) + o.referenced[..|o.referenced| - k])
  {
    Disjoint(o, k);
    KeepNoDup(o.ws, gone);
    NewestApart(o.referenced, k);
    hide NoDup;
    NoDupJoin(Keep(o.ws, gone), Newest(o.referenced, k));
    NoDupJoin(Keep(o.ws, gone) + Newest(o.referenced, k), o.referenced[..|o.referenced| - k]);
  }

  /** After the first loop the lists are consistent again. */
  lemma AfterPass(o: State, s: State, touched: set<Pid>, fails: set<Pid>, k: nat, v: nat)
    requires Consistent(o) && Passing(o, s, touched, fails, |o.ws|, k, v)
    ensures Consistent(s) && s.ws == Keep(o.ws, Gone(o, touched)) + Newest(o.referenced, k)
  {
    hide NoDup, Keep, Drop, Newest, Aged, Infos;
    var gone := Gone(o, touched);
    assert o.ws[..|o.ws|] == o.ws && o.ws[|o.ws|..] == [];
    AfterPassNoDup(o, gone, k);
    assert s.ws == Keep(o.ws, gone) + Newest(o.referenced, k);
    AfterPassInfos(o, s, touched, fails, k, Newest(o.referenced, k)[..v]);
  }

  lemma AfterPassInfos(o: State, s: State, touched: set<Pid>, fails: set<Pid>, k: nat, seen: seq<Pid>)
    requires Consistent(o) && k <= |o.referenced|
    requires Infos(o, s, touched, fails, o.ws, Newest(o.referenced, k), seen)
    ensures forall p :: p in Keep(o.ws, Gone(o, touched)) || p in Newest(o.referenced, k) ==>
              p in s.info && !s.info[p].pagedOut && s.info[p].workingSets == 1
    ensures forall p :: p in o.referenced[..|o.referenced| - k] ==> p in o.info && p in s.info && s.info[p] == o.info[p]
    ensures forall p :: p in o.referenced[..|o.referenced| - k] ==> p in o.referenced
    ensures forall p :: p in s.info && p !in Keep(o.ws, Gone(o, touched)) && p !in Newest(o.referenced, k) ==>
              s.info[p].workingSets == 0
  {
    Disjoint(o, k);
    NewestApart(o.referenced, k);
    hide NoDup, Drop, Newest, Aged, Keep;
  }

  // ---------- the steps of the second loop ----------

  /** The page referenced last joins the working set if there is room, and is handed to
      the swap code if not. */
  function Settle(s: State, fails: set<Pid>, room: bool): State
    requires s.referenced != [] && s.referenced[|s.referenced| - 1] in s.info
  {
    var n := |s.referenced|;
    var p := s.referenced[n - 1];
    var i := s.info[p];
    if room then
      State(s.ws + [p], s.referenced[..n - 1],
            s.info[p := Info(Shift(i.age), i.pagedOut, i.workingSets + 1)], s.handed)
    else
      State(s.ws, s.referenced[..n - 1],
            s.info[p := Info(Shift(i.age), p !in fails, i.workingSets)], s.handed + [p])
  }

  /** The state after x pages of the referenced list found room for a of them. */
  ghost predicate Filling(o: State, s: State, x: nat, a: nat) {
    a <= x <= |o.referenced| &&
    s.ws == o.ws + Newest(o.referenced, a) &&
    s.referenced == o.referenced[..|o.referenced| - x] &&
    s.handed == o.handed + Newest(o.referenced, x)[a..]
  }

  lemma FillingStart(o: State)
    ensures Filling(o, o, 0, 0)
  {
    assert o.referenced[..|o.referenced|] == o.referenced;
  }

  lemma FillInfosStart(o: State, fails: set<Pid>)
    ensures FillInfos(o, o, fails, Newest(o.referenced, 0), Newest(o.referenced, 0)[0..])
  {
  }

  lemma SettleShape(s: State, fails: set<Pid>, room: bool)
    requires s.referenced != [] && s.referenced[|s.referenced| - 1] in s.info
    ensures |Settle(s, fails, room).referenced| == |s.referenced| - 1
    ensures |Settle(s, fails, room).ws| == if room then |s.ws| + 1 else |s.ws|
  {
  }

  lemma FilledAll(o: State, s: State, x: nat, a: nat)
    requires Filling(o, s, x, a) && s.referenced == []
    ensures x == |o.referenced|
  {
  }

  lemma FillingStep(o: State, s: State, x: nat, a: nat, fails: set<Pid>, room: bool)
    requires Consistent(o) && Consistent(s) && Filling(o, s, x, a) && x < |o.referenced| && (room ==> a == x)
    ensures s.referenced != [] && s.referenced[|s.referenced| - 1] in s.info
    ensures Filling(o, Settle(s, fails, room), x + 1, if room then a + 1 else a)
  {
    hide Newest, Consistent;
    ReferencedKnown(s);
    assert s.referenced != [] && s.referenced[|s.referenced| - 1] in s.referenced;
    CutLast(o.referenced, x);
    if room {
      JoinNext(o.ws, o.handed, o.referenced, x);
    } else {
      HandNext(o.handed, o.referenced, x, a);
    }
  }

  lemma CutLast(l: seq<Pid>, x: nat)
    requires x < |l|
    ensures var rest := l[..|l| - x];
            rest[|rest| - 1] == l[|l| - x - 1] && rest[..|rest| - 1] == l[..|l| - (x + 1)]
  {
  }

  lemma NewestNext(l: seq<Pid>, x: nat)
    requires x < |l|
    ensures Newest(l, x + 1) == Newest(l, x) + [l[|l| - x - 1]]
  {
  }

  lemma JoinNext(ws: seq<Pid>, handed: seq<Pid>, l: seq<Pid>, x: nat)
    requires x < |l|
    ensures ws + Newest(l, x) + [l[|l| - x - 1]] == ws + Newest(l, x + 1)
    ensures handed + Newest(l, x)[x..] == handed + Newest(l, x + 1)[x + 1..]
  {
    NewestNext(l, x);
    hide Newest;
  }

  lemma HandNext(handed: seq<Pid>, l: seq<Pid>, x: nat, a: nat)
    requires a <= x < |l|
    ensures handed + Newest(l, x)[a..] + [l[|l| - x - 1]] == handed + Newest(l, x + 1)[a..]
  {
    NewestNext(l, x);
    hide Newest;
  }

  /** Of the pages of the referenced list, those of joined were put in the working set and
      those of out were handed to the swap code. */
  ghost predicate FillInfos(o: State, s: State, fails: set<Pid>, joined: seq<Pid>, out: seq<Pid>) {
    s.info.Keys == o.info.Keys &&
    forall p :: p in o.info ==>
      var a := o.info[p];
      s.info[p] == if p in joined then Info(Shift(a.age), a.pagedOut, a.workingSets + 1)
                   else if p in out then Info(Shift(a.age), p !in fails, a.workingSets) else a
  }

  lemma FillInfosStep(o: State, s: State, fails: set<Pid>, joined: seq<Pid>, out: seq<Pid>, room: bool)
    requires FillInfos(o, s, fails, joined, out)
    requires s.referenced != [] && s.referenced[|s.referenced| - 1] in s.info
    requires s.referenced[|s.referenced| - 1] !in joined && s.referenced[|s.referenced| - 1] !in out
    ensures var p := s.referenced[|s.referenced| - 1];
            FillInfos(o, Settle(s, fails, room), fails, if room then joined + [p] else joined, if room then out else out + [p])
  {
    hide Shift;
  }

  lemma FillingInfosStep(o: State, s: State, fails: set<Pid>, x: nat, a: nat, room: bool)
    requires Consistent(o) && Filling(o, s, x, a) && x < |o.referenced| && (room ==> a == x)
    requires s.referenced != [] && s.referenced[|s.referenced| - 1] in s.info
    requires FillInfos(o, s, fails, Newest(o.referenced, a), Newest(o.referenced, x)[a..])
    ensures var a' := if room then a + 1 else a;
            FillInfos(o, Settle(s, fails, room), fails, Newest(o.referenced, a'), Newest(o.referenced, x + 1)[a'..])
  {
    hide Newest, FillInfos, Settle, Consistent, NoDup;
    var p := o.referenced[|o.referenced| - x - 1];
    assert s.referenced[|s.referenced| - 1] == p;
    NextSettled(o, x, a);
    FillInfosStep(o, s, fails, Newest(o.referenced, a), Newest(o.referenced, x)[a..], room);
    if room {
      assert Newest(o.referenced, x)[a..] == [] && Newest(o.referenced, x + 1)[a + 1..] == [];
    } else {
      assert Newest(o.referenced, x + 1)[a..] == Newest(o.referenced, x)[a..] + [p];
    }
  }

  lemma NextSettled(o: State, x: nat, a: nat)
    requires Consistent(o) && a <= x < |o.referenced|
    ensures var p := o.referenced[|o.referenced| - x - 1];
            p !in Newest(o.referenced, a) && p !in Newest(o.referenced, x)[a..] &&
            Newest(o.referenced, x + 1) == Newest(o.referenced, x) + [p]
  {
    Disjoint(o, x);
    var p := o.referenced[|o.referenced| - x - 1];
    forall i | 0 <= i < x ensures Newest(o.referenced, x)[i] != p {
    }
    forall i | 0 <= i < a ensures Newest(o.referenced, a)[i] != p {
    }
  }

  lemma SettleKeeps(s: State, fails: set<Pid>, room: bool)
    requires Consistent(s) && s.referenced != [] && s.referenced[|s.referenced| - 1] in s.info
    ensures Consistent(Settle(s, fails, room))
  {
    var n := |s.referenced|;
    var p := s.referenced[n - 1];
    var s' := Settle(s, fails, room);
    Disjoint(s, 0);
    assert p in s.referenced && p !in s.ws && p !in s.referenced[..n - 1];
    assert forall q :: q in s.referenced[..n - 1] ==> q in s.referenced;
    hide Shift;
    SettleNoDup(s.ws, s.referenced, room);
  }

  lemma SettleNoDup(ws: seq<Pid>, l: seq<Pid>, room: bool)
    requires NoDup(ws + l) && l != []
    ensures NoDup((if room then ws + [l[|l| - 1]] else ws) + l[..|l| - 1])
  {
    var all, n := ws + l, |l|;
    var r := (if room then ws + [l[n - 1]] else ws) + l[..n - 1];
    forall i, j | 0 <= i < j < |r| ensures r[i] != r[j] {
      var at := (h: int) => if h < |ws| then h else if !room then h else if h == |ws| then |ws| + n - 1 else h - 1;
      assert r[i] == all[at(i)] && r[j] == all[at(j)];
    }
  }

  // ---------- one pass ----------

  /** The page the first loop looks at: on the working set still, and not paged out. */
  lemma Looked(o: State, s: State, touched: set<Pid>, fails: set<Pid>, j: nat, k: nat, v: nat, i: nat)
    requires Consistent(o) && Passing(o, s, touched, fails, j, k, v) && i < |s.ws|
    requires j < |o.ws| ==> v == 0 && i == |Keep(o.ws[..j], Gone(o, touched))|
    requires j == |o.ws| ==> i == |Keep(o.ws, Gone(o, touched))| + v
    ensures s.ws[i] in o.info && s.ws[i] in s.info && !s.info[s.ws[i]].pagedOut && s.info[s.ws[i]].workingSets == 1
    ensures s.info[s.ws[i]].age == o.info[s.ws[i]].age
    ensures j < |o.ws| ==> s.ws[i] == o.ws[j]
    ensures j == |o.ws| ==> v < k && Aged(o.info[s.ws[i]].age, s.ws[i] in touched) != 0
  {
    hide Passing, Consistent, Keep, Newest, Gone;
    Behind(o, s, touched, fails, j, k, v);
    if j < |o.ws| {
      NextPage(o, s, touched, fails, j, k);
    } else {
      assert o.ws[..j] == o.ws;
      SeenStep(o, s, touched, fails, k, v);
    }
  }

  lemma Stayed(o: State, s: State, touched: set<Pid>, fails: set<Pid>, j: nat, k: nat, v: nat, i: nat)
    returns (j': nat, v': nat)
    requires Consistent(o) && Passing(o, s, touched, fails, j, k, v) && i < |s.ws|
    requires j < |o.ws| ==> v == 0 && i == |Keep(o.ws[..j], Gone(o, touched))|
    requires j == |o.ws| ==> i == |Keep(o.ws, Gone(o, touched))| + v
    requires s.ws[i] in o.info && s.ws[i] in s.info && Aged(o.info[s.ws[i]].age, s.ws[i] in touched) != 0
    ensures j' <= |o.ws|
    ensures Passing(o, SetAge(s, s.ws[i], Aged(o.info[s.ws[i]].age, s.ws[i] in touched)), touched, fails, j', k, v')
    ensures j' < |o.ws| ==> v' == 0 && i + 1 == |Keep(o.ws[..j'], Gone(o, touched))| && i + 1 < |s.ws|
    ensures j' == |o.ws| ==> i + 1 == |Keep(o.ws, Gone(o, touched))| + v'
    ensures j' == |o.ws| && i + 1 == |s.ws| ==> v' == k
    ensures j < |o.ws| && j' == |o.ws| ==> !Unseen(o, Gone(o, touched))
  {
    hide Passing, Consistent, Keep, Newest, Drop;
    LastStays(o, touched);
    hide Gone, Unseen;
    Looked(o, s, touched, fails, j, k, v, i);
    Behind(o, s, touched, fails, j, k, v);
    if j < |o.ws| {
      KeepStep(o, s, touched, fails, j, k);
      j', v' := j + 1, 0;
      assert j' == |o.ws| ==> o.ws[..j'] == o.ws;
    } else {
      SeenStep(o, s, touched, fails, k, v);
      assert o.ws[..j] == o.ws;
      j', v' := j, v + 1;
    }
  }

  lemma NoneUnseen(o: State, gone: set<Pid>)
    ensures o.ws == [] ==> !Unseen(o, gone)
  {
  }

  lemma LastStays(o: State, touched: set<Pid>)
    requires Consistent(o)
    ensures var n := |o.ws|;
            n > 0 && o.ws[n - 1] in o.info && Aged(o.info[o.ws[n - 1]].age, o.ws[n - 1] in touched) != 0 ==>
              !Unseen(o, Gone(o, touched))
  {
    hide Consistent, Aged;
    if Unseen(o, Gone(o, touched)) {
      assert o.ws[|o.ws| - 1] in Drop(o.ws, Gone(o, touched));
    }
  }

  /** The last page of the old working set is dropped with nothing behind it. */
  lemma LastLeaves(o: State, gone: set<Pid>, k: nat)
    requires o.ws != [] && o.ws[|o.ws| - 1] in gone
    requires k == Min(|Drop(o.ws[..|o.ws| - 1], gone)|, |o.referenced|)
    ensures Unseen(o, gone) ==> k == 0
    ensures !Unseen(o, gone) && k == 0 ==> o.referenced == []
  {
    var n := |o.ws|;
    KeepNext(o.ws, n - 1, gone);
    assert o.ws[..n] == o.ws;
    hide Drop;
    assert |Drop(o.ws[..n - 1], gone)| == 0 ==> Drop(o.ws[..n - 1], gone) == [];
  }

  /** Behind the next page of the old working set come the rest of it and what joined. */
  lemma Behind(o: State, s: State, touched: set<Pid>, fails: set<Pid>, j: nat, k: nat, v: nat)
    requires Consistent(o) && Passing(o, s, touched, fails, j, k, v)
    ensures j <= |o.ws| && v <= k <= |o.referenced|
    ensures |s.ws| == |Keep(o.ws[..j], Gone(o, touched))| + (|o.ws| - j) + k
  {
  }

  lemma Left(o: State, s: State, touched: set<Pid>, fails: set<Pid>, j: nat, k: nat, i: nat)
    returns (e: State, k': nat)
    requires Consistent(o) && Passing(o, s, touched, fails, j, k, 0) && i < |s.ws|
    requires j < |o.ws| && i == |Keep(o.ws[..j], Gone(o, touched))|
    requires s.ws[i] in o.info && s.ws[i] in s.info && Aged(o.info[s.ws[i]].age, s.ws[i] in touched) == 0
    ensures e == Evict(SetAge(s, s.ws[i], 0), i, fails) && forall q :: q in e.referenced ==> q in e.info
    ensures Passing(o, Replace(e), touched, fails, j + 1, k', 0)
    ensures j + 1 < |o.ws| ==> i == |Keep(o.ws[..j + 1], Gone(o, touched))| && i + 1 < |s.ws|
    ensures j + 1 == |o.ws| ==> i == |Keep(o.ws, Gone(o, touched))|
    ensures j + 1 == |o.ws| && Unseen(o, Gone(o, touched)) ==> i + 1 == |s.ws|
    ensures j + 1 == |o.ws| && !Unseen(o, Gone(o, touched)) && i + 1 == |s.ws| ==> k' == 0
  {
    hide Consistent, Keep, Drop, Newest, Evict, Replace, Unseen, Infos, Aged;
    Looked(o, s, touched, fails, j, k, 0, i);
    Behind(o, s, touched, fails, j, k, 0);
    e, k' := DropStep(o, s, touched, fails, j, k);
    assert o.ws[j] in Gone(o, touched);
    if j + 1 == |o.ws| {
      LastLeaves(o, Gone(o, touched), k);
    }
    hide Passing, Gone;
    assert j + 1 == |o.ws| ==> o.ws[..j + 1] == o.ws;
  }

  /** The number of pages at which the working set has no room left. */
  function Slots(capacity: nat): nat {
    (capacity + PAGE - 1) / PAGE
  }

  lemma RoomIff(n: nat, capacity: nat)
    ensures n * PAGE < capacity <==> n < Slots(capacity)
    ensures n * PAGE == capacity ==> n == Slots(capacity)
    ensures n * PAGE <= capacity ==> n <= Slots(capacity)
    ensures Slots(capacity) * PAGE <= capacity <==> capacity % PAGE == 0
  {
  }

  /** The lists a pass leads to, told from the lists it starts with: pages of age 0 leave
      the working set, pages referenced last take their places; with room left after that,
      the referenced list is emptied into the working set and the swap code. */
  ghost predicate Replaced(o: State, s: State, touched: set<Pid>, capacity: nat) {
    var gone := Gone(o, touched);
    var kept, dropped := Keep(o.ws, gone), Drop(o.ws, gone);
    var k := Min(|dropped|, |o.referenced|);
    var rest := o.referenced[..|o.referenced| - k];
    var first := kept + Newest(o.referenced, k);
    if |first| * PAGE == capacity then
      s.ws == first && s.referenced == rest && s.handed == o.handed + dropped
    else
      |first| * PAGE <= capacity &&
      var a := Min(|rest|, Slots(capacity) - |first|);
      s.ws == first + Newest(rest, a) && s.referenced == [] &&
      s.handed == o.handed + dropped + Newest(rest, |rest|)[a..]
  }

  /** What a pass makes of the pages. Those of the old working set are aged, and swapped
      out when their age is 0. Those that take the places of these are aged as well, unless
      the loop ended before. Those that came off the referenced list later are shifted, and
      swapped out if there was no room. The others are as they were. */
  ghost predicate PagesAfter(o: State, s: State, touched: set<Pid>, fails: set<Pid>) {
    s.info.Keys == o.info.Keys &&
    forall p :: p in o.info ==> PageAfter(o, s, touched, fails, p)
  }

  ghost predicate PageAfter(o: State, s: State, touched: set<Pid>, fails: set<Pid>, p: Pid)
    requires p in o.info && p in s.info
  {
    var a, b, gone := o.info[p], s.info[p], Gone(o, touched);
    var aged := Aged(a.age, p in touched);
    if p in o.ws then b == if aged == 0 then Info(0, p !in fails, 0) else Info(aged, false, 1)
    else if p in Moved(o, gone) then b == Info(if Unseen(o, gone) then a.age else aged, false, 1)
    else if p in o.referenced && p !in s.referenced then
      b == if p in s.ws then Info(Shift(a.age), false, 1) else Info(Shift(a.age), p !in fails, 0)
    else b == a
  }

  /** The whole of the first loop. */
  ghost predicate Passed(o: State, t: State, touched: set<Pid>, fails: set<Pid>, k: nat) {
    Passing(o, t, touched, fails, |o.ws|, k, if Unseen(o, Gone(o, touched)) then 0 else k)
  }

  lemma PassPages(o: State, t: State, touched: set<Pid>, fails: set<Pid>, k: nat)
    requires Consistent(o) && Passed(o, t, touched, fails, k)
    ensures PagesAfter(o, t, touched, fails) && Newest(o.referenced, k) == Moved(o, Gone(o, touched))
  {
    hide Keep, Drop, Newest, Gone, Aged, NoDup, Consistent, Shift, Unseen, PageAfter;
    assert o.ws[..|o.ws|] == o.ws;
    var gone := Gone(o, touched);
    var moved := Newest(o.referenced, k);
    assert moved[..k] == moved && moved[..0] == [];
    AfterPass(o, t, touched, fails, k, if Unseen(o, gone) then 0 else k);
    forall p | p in o.info ensures PageAfter(o, t, touched, fails, p) {
      PassPage(o, t, touched, fails, k, p);
    }
  }

  lemma PassPage(o: State, t: State, touched: set<Pid>, fails: set<Pid>, k: nat, p: Pid)
    requires Consistent(o) && p in o.info && p in t.info && k <= |o.referenced|
    requires Newest(o.referenced, k) == Moved(o, Gone(o, touched)) && t.referenced == o.referenced[..|o.referenced| - k]
    requires var moved := Newest(o.referenced, k);
             t.info[p] == InfoNow(o.info[p], p, touched, fails, o.ws, moved, if Unseen(o, Gone(o, touched)) then [] else moved)
    ensures PageAfter(o, t, touched, fails, p)
  {
    Disjoint(o, k);
    NewestApart(o.referenced, k);
    hide Newest, Gone, Aged, NoDup, Consistent, Shift, Unseen, Moved;
  }

  lemma FillPages(o: State, t: State, s: State, touched: set<Pid>, fails: set<Pid>, k: nat, a: nat)
    requires Consistent(o) && Passed(o, t, touched, fails, k) && Filling(t, s, |t.referenced|, a)
    requires FillInfos(t, s, fails, Newest(t.referenced, a), Newest(t.referenced, |t.referenced|)[a..])
    ensures PagesAfter(o, s, touched, fails)
  {
    hide Newest, Drop, Keep, Gone, Unseen, PageAfter, NoDup;
    PassPages(o, t, touched, fails, k);
    AfterPass(o, t, touched, fails, k, if Unseen(o, Gone(o, touched)) then 0 else k);
    FillParts(o, t, s, k, a);
    forall p | p in o.info ensures PageAfter(o, s, touched, fails, p) {
      FillPage(o, t, s, touched, fails, a, p);
    }
  }

  /** Where the pages of the referenced list are after the second loop. */
  lemma FillParts(o: State, t: State, s: State, k: nat, a: nat)
    requires Consistent(o) && k <= |o.referenced| && t.referenced == o.referenced[..|o.referenced| - k]
    requires Consistent(t) && Filling(t, s, |t.referenced|, a)
    ensures s.referenced == []
    ensures forall p :: p in t.referenced ==> p in o.referenced && p !in o.ws && p !in t.ws
    ensures forall p :: p in t.referenced ==> p in Newest(t.referenced, a) || p in Newest(t.referenced, |t.referenced|)[a..]
    ensures forall p :: p in Newest(t.referenced, a) ==> p in s.ws && p in t.referenced
    ensures forall p :: p in Newest(t.referenced, |t.referenced|)[a..] ==> p in t.referenced && p !in Newest(t.referenced, a)
    ensures forall p :: p in t.ws ==> p in s.ws
    ensures forall p :: p in s.ws && p !in t.ws ==> p in Newest(t.referenced, a)
    ensures forall p :: p in Newest(o.referenced, k) ==> p !in t.referenced
  {
    NewestApart(o.referenced, k) by {
      Disjoint(o, 0);
    }
    Disjoint(o, 0);
    Disjoint(t, a);
    assert forall p :: p in t.referenced ==> p in o.referenced;
    forall p | p in t.referenced
      ensures p in Newest(t.referenced, a) || p in Newest(t.referenced, |t.referenced|)[a..]
    {
      NewestSplit(t.referenced, a, p);
    }
    forall p | p in Newest(t.referenced, |t.referenced|)[a..] ensures p in t.referenced && p !in Newest(t.referenced, a) {
      NewestSplit(t.referenced, a, p);
    }
    hide Newest, NoDup;
  }

  lemma FillPage(o: State, t: State, s: State, touched: set<Pid>, fails: set<Pid>, a: nat, p: Pid)
    requires p in o.info && p in t.info && p in s.info && PageAfter(o, t, touched, fails, p)
    requires Consistent(t) && a <= |t.referenced| && s.referenced == []
    requires FillInfos(t, s, fails, Newest(t.referenced, a), Newest(t.referenced, |t.referenced|)[a..])
    requires p in t.referenced ==> p in o.referenced && p !in o.ws && p !in t.ws
    requires p in t.referenced ==> p in Newest(t.referenced, a) || p in Newest(t.referenced, |t.referenced|)[a..]
    requires p in Newest(t.referenced, a) ==> p in s.ws && p in t.referenced
    requires p in Newest(t.referenced, |t.referenced|)[a..] ==> p in t.referenced && p !in Newest(t.referenced, a)
    requires p in t.ws ==> p in s.ws
    requires p in s.ws && p !in t.ws ==> p in Newest(t.referenced, a)
    requires p in Moved(o, Gone(o, touched)) ==> p !in t.referenced
    ensures PageAfter(o, s, touched, fails, p)
  {
    hide Newest, NoDup, Shift, Aged, Moved, Gone, Unseen;
  }

  lemma PassReplaced(o: State, t: State, s: State, touched: set<Pid>, fails: set<Pid>, k: nat, capacity: nat)
    requires Consistent(o) && Passed(o, t, touched, fails, k) && |t.ws| * PAGE <= capacity
    requires |t.ws| * PAGE == capacity ==> s == t
    requires |t.ws| * PAGE < capacity ==>
               |t.ws| <= Slots(capacity) && s.referenced == [] &&
               Filling(t, s, |t.referenced|, Min(|t.referenced|, Slots(capacity) - |t.ws|))
    ensures Replaced(o, s, touched, capacity)
  {
    hide Consistent, Keep, Drop, Newest, Infos, Gone, Aged, Slots, Unseen;
    RoomIff(|t.ws|, capacity);
    AfterPass(o, t, touched, fails, k, if Unseen(o, Gone(o, touched)) then 0 else k);
    assert o.ws[..|o.ws|] == o.ws;
  }

  /** Exactly the pages that a pass takes off both lists are handed to the swap code. */
  lemma HandedIff(o: State, s: State, touched: set<Pid>, capacity: nat, p: Pid)
    requires Consistent(o) && Replaced(o, s, touched, capacity)
    ensures o.handed <= s.handed
    ensures p in s.handed[|o.handed|..] <==> (p in o.ws || p in o.referenced) && p !in s.ws && p !in s.referenced
  {
    hide Keep, Drop, Gone, Consistent, NoDup, Newest;
    var gone := Gone(o, touched);
    var kept, dropped := Keep(o.ws, gone), Drop(o.ws, gone);
    var k := Min(|dropped|, |o.referenced|);
    var rest := o.referenced[..|o.referenced| - k];
    var joined := Newest(o.referenced, k);
    Disjoint(o, k);
    NewestApart(o.referenced, k);
    var first := kept + joined;
    assert p in first <==> p in kept || p in joined;
    if |first| * PAGE == capacity {
      assert s.handed[|o.handed|..] == dropped;
    } else {
      RoomIff(|first|, capacity);
      var a := Min(|rest|, Slots(capacity) - |first|);
      NewestSplit(rest, a, p);
      var out := Newest(rest, |rest|)[a..];
      assert s.handed[|o.handed|..] == dropped + out;
      assert p in dropped + out <==> p in dropped || p in out;
      assert p in s.ws <==> p in first || p in Newest(rest, a);
    }
  }

  lemma NewestSplit(l: seq<Pid>, a: nat, p: Pid)
    requires NoDup(l) && a <= |l|
    ensures p in Newest(l, |l|)[a..] <==> p in l && p !in Newest(l, a)
  {
    NewestApart(l, |l|);
    NewestApart(l, a);
    var all := Newest(l, |l|);
    assert forall i :: 0 <= i < a ==> Newest(l, a)[i] == all[i];
    if p in l && p !in Newest(l, a) {
      var i :| 0 <= i < |all| && all[i] == p;
      assert i >= a;
      assert all[a..][i - a] == p;
    }
    if p in all[a..] {
      var i :| a <= i < |all| && all[i] == p;
    }
  }

  lemma TouchTwice(age: bv8)
    ensures Touch(Touch(age)) == Touch(age)
  {
  }

  // ---------- runs ----------

  /** A fault on a page that is paged out; what the hardware says was touched and which
      pages the swap code does not take, should a pass follow. */
  datatype Fault = Fault(page: Pid, touched: set<Pid>, fails: set<Pid>)

  /** The page is back and is the last of the referenced list. */
  ghost function Joined(s: State, p: Pid): State
    requires p in s.info
  {
    State(s.ws, s.referenced + [p], s.info[p := Info(Touch(s.info[p].age), false, 0)], s.handed)
  }

  ghost predicate PassDue(s: State, capacity: nat) {
    |s.referenced| + 1 >= capacity / 4 / PAGE
  }

  ghost predicate Stepped(s: State, f: Fault, s': State, capacity: nat) {
    f.page in s.info && s.info[f.page].pagedOut &&
    var j := Joined(s, f.page);
    if PassDue(s, capacity) then Replaced(j, s', f.touched, capacity) && PagesAfter(j, s', f.touched, f.fails)
    else s' == j
  }

  ghost predicate Run(states: seq<State>, faults: seq<Fault>, capacity: nat) {
    |states| == |faults| + 1 && Consistent(states[0]) &&
    forall i :: 0 <= i < |faults| ==> Stepped(states[i], faults[i], states[i + 1], capacity)
  }

  /** A page that was paged out is on no list, so it may be put on one. */
  lemma JoinKeeps(o: State, p: Pid)
    requires Consistent(o) && p in o.info && o.info[p].pagedOut
    ensures Consistent(Joined(o, p)) && o.info[p].workingSets == 0 && p !in o.ws
  {
    TouchTwice(o.info[p].age);
    assert p !in o.ws && p !in o.referenced;
    assert o.ws + (o.referenced + [p]) == o.ws + o.referenced + [p];
    NoDupJoin(o.ws + o.referenced, [p]);
    hide Touch, NoDup;
  }

  /** Where a page is after a pass. */
  lemma Whereabouts(o: State, s: State, touched: set<Pid>, capacity: nat, p: Pid)
    requires Consistent(o) && Replaced(o, s, touched, capacity)
    ensures p in o.ws ==> p !in o.referenced && p !in s.referenced && (p in s.ws <==> p !in Gone(o, touched))
    ensures p in Moved(o, Gone(o, touched)) ==> p in s.ws && p in o.referenced && p !in s.referenced
    ensures p in s.ws ==> p in o.ws || p in o.referenced
    ensures p in s.referenced ==> p in o.referenced && p !in s.ws && p !in Moved(o, Gone(o, touched))
  {
    hide Keep, Drop, Gone, Consistent, NoDup, Newest, Slots;
    var gone := Gone(o, touched);
    var k := Min(|Drop(o.ws, gone)|, |o.referenced|);
    var rest := o.referenced[..|o.referenced| - k];
    var first := Keep(o.ws, gone) + Newest(o.referenced, k);
    Disjoint(o, k);
    NewestApart(o.referenced, k);
    assert p in first <==> p in Keep(o.ws, gone) || p in Newest(o.referenced, k);
    if |first| * PAGE != capacity {
      RoomIff(|first|, capacity);
      var a := Min(|rest|, Slots(capacity) - |first|);
      NewestApart(rest, a);
      assert p in s.ws <==> p in first || p in Newest(rest, a);
    }
  }

  lemma PassNoDup(o: State, s: State, touched: set<Pid>, capacity: nat)
    requires Consistent(o) && Replaced(o, s, touched, capacity)
    ensures NoDup(s.ws + s.referenced)
  {
    hide Keep, Drop, Gone, Consistent, NoDup, Newest, Slots;
    var gone := Gone(o, touched);
    var k := Min(|Drop(o.ws, gone)|, |o.referenced|);
    var rest := o.referenced[..|o.referenced| - k];
    var first := Keep(o.ws, gone) + Newest(o.referenced, k);
    AfterPassNoDup(o, gone, k);
    if |first| * PAGE != capacity {
      RoomIff(|first|, capacity);
      var a := Min(|rest|, Slots(capacity) - |first|);
      PrefixNoDup(first, rest, a);
      assert s.ws + s.referenced == first + Newest(rest, a);
    }
  }

  lemma PrefixNoDup(first: seq<Pid>, rest: seq<Pid>, a: nat)
    requires NoDup(first + rest) && a <= |rest|
    ensures NoDup(first + Newest(rest, a))
  {
    var all, r := first + rest, first + Newest(rest, a);
    forall i, j | 0 <= i < j < |r| ensures r[i] != r[j] {
      var at := (h: int) => if h < |first| then h else |all| - 1 - (h - |first|);
      assert r[i] == all[at(i)] && r[j] == all[at(j)];
    }
  }

  lemma PassPageOk(o: State, s: State, touched: set<Pid>, fails: set<Pid>, capacity: nat, p: Pid)
    requires Consistent(o) && Replaced(o, s, touched, capacity)
    requires p in o.info && p in s.info && PageAfter(o, s, touched, fails, p)
    ensures p in s.ws ==> !s.info[p].pagedOut && s.info[p].workingSets == 1
    ensures p in s.referenced ==> s.info[p] == o.info[p]
    ensures p !in s.ws ==> s.info[p].workingSets == 0
  {
    hide Replaced, Drop, Newest, Moved, Unseen, NoDup, Shift, Aged;
    Whereabouts(o, s, touched, capacity, p);
  }

  lemma PassKeeps(o: State, s: State, touched: set<Pid>, fails: set<Pid>, capacity: nat)
    requires Consistent(o) && Replaced(o, s, touched, capacity) && PagesAfter(o, s, touched, fails)
    ensures Consistent(s)
  {
    PassNoDup(o, s, touched, capacity);
    hide Replaced, NoDup, PageAfter;
    forall p | p in s.ws || p in s.referenced ensures p in o.info && (p in s.referenced ==> p in o.referenced) {
      Whereabouts(o, s, touched, capacity, p);
    }
    forall p | p in o.info
      ensures p in s.ws ==> !s.info[p].pagedOut && s.info[p].workingSets == 1
      ensures p in s.referenced ==> s.info[p] == o.info[p]
      ensures p !in s.ws ==> s.info[p].workingSets == 0
    {
      PassPageOk(o, s, touched, fails, capacity, p);
    }
    hide Touch;
  }

  /** Every page-in keeps the lists and the pages consistent. */
  lemma StepKeeps(s: State, f: Fault, s': State, capacity: nat)
    requires Consistent(s) && Stepped(s, f, s', capacity)
    ensures Consistent(s')
  {
    hide Consistent, Replaced, PagesAfter, Joined;
    JoinKeeps(s, f.page);
    if PassDue(s, capacity) {
      PassKeeps(Joined(s, f.page), s', f.touched, f.fails, capacity);
    }
  }

  lemma {:induction false} RunConsistent(states: seq<State>, faults: seq<Fault>, capacity: nat, n: nat)
    requires Run(states, faults, capacity) && n <= |faults|
    ensures Consistent(states[n])
  {
    hide Consistent, Stepped;
    if n > 0 {
      RunConsistent(states, faults, capacity, n - 1);
      StepKeeps(states[n - 1], faults[n - 1], states[n], capacity);
    }
  }

  /** For each of the passes of the first n steps, whether it found p touched. */
  ghost function History(states: seq<State>, faults: seq<Fault>, capacity: nat, p: Pid, n: nat): seq<bool>
    requires n <= |faults| < |states|
  {
    if n == 0 then []
    else
      History(states, faults, capacity, p, n - 1) +
      if PassDue(states[n - 1], capacity) then [p in faults[n - 1].touched] else []
  }

  /** What a step does to a page of the working set. */
  lemma MemberStep(s: State, f: Fault, s': State, capacity: nat, p: Pid)
    requires Consistent(s) && Stepped(s, f, s', capacity) && p in s.ws
    ensures p in s.info && p in s'.info
    ensures var age := s.info[p].age;
            if PassDue(s, capacity) then
              s'.info[p].age == Aged(age, p in f.touched) && (p in s'.ws <==> Aged(age, p in f.touched) != 0)
            else s'.info[p].age == age && p in s'.ws
  {
    hide Consistent, Replaced, NoDup, Aged, Touch, Unseen, Moved, Shift;
    JoinKeeps(s, f.page);
    assert p in s.info by { InWorkingSet(s, p); }
    if PassDue(s, capacity) {
      var j := Joined(s, f.page);
      assert PageAfter(j, s', f.touched, f.fails, p);
      Whereabouts(j, s', f.touched, capacity, p);
    }
  }

  lemma InWorkingSet(s: State, p: Pid)
    requires Consistent(s) && p in s.ws
    ensures p in s.info
  {
  }

  lemma {:induction false} AgeOverRun(states: seq<State>, faults: seq<Fault>, capacity: nat, p: Pid, n: nat)
    requires Run(states, faults, capacity) && n <= |faults| && forall i :: 0 <= i < n ==> p in states[i].ws
    requires p in states[0].ws
    ensures p in states[0].info && p in states[n].info
    ensures states[n].info[p].age == AgeAfter(states[0].info[p].age, History(states, faults, capacity, p, n))
  {
    hide Consistent, Stepped, Aged, PassDue;
    InWorkingSet(states[0], p);
    if n > 0 {
      AgeOverRun(states, faults, capacity, p, n - 1);
      RunConsistent(states, faults, capacity, n - 1);
      MemberStep(states[n - 1], faults[n - 1], states[n], capacity, p);
      var h, t := History(states, faults, capacity, p, n - 1), p in faults[n - 1].touched;
      AgeSplit(states[0].info[p].age, h, [t]);
      assert [t][1..] == [];
      assert h + [] == h;
    }
  }

  /** A page leaves the working set in the pass that makes its age 0, and once eight passes
      have found it there, that is the pass in which, as in the six before, it was not
      touched: whatever other pages come and go meanwhile. */
  lemma EvictedIff(states: seq<State>, faults: seq<Fault>, capacity: nat, p: Pid)
    requires Run(states, faults, capacity) && faults != [] && forall i :: 0 <= i < |faults| ==> p in states[i].ws
    requires PassDue(states[|faults| - 1], capacity)
    ensures p in states[0].info
    ensures var h := History(states, faults, capacity, p, |faults|);
            && (p !in states[|faults|].ws <==> AgeAfter(states[0].info[p].age, h) == 0)
            && (|h| >= 8 ==>
                  (p !in states[|faults|].ws <==> forall i :: |h| - 7 <= i < |h| ==> !h[i]))
  {
    hide Consistent, Stepped, Aged, PassDue, AgeAfter;
    var n := |faults|;
    AgeOverRun(states, faults, capacity, p, n);
    RunConsistent(states, faults, capacity, n - 1);
    MemberStep(states[n - 1], faults[n - 1], states[n], capacity, p);
    var h := History(states, faults, capacity, p, n);
    if |h| >= 8 {
      DroppedIff(states[0].info[p].age, h);
    }
  }

  lemma {:induction false} HistoryGrows(states: seq<State>, faults: seq<Fault>, capacity: nat, p: Pid, n: nat, m: nat)
    requires n <= m <= |faults| < |states|
    ensures |History(states, faults, capacity, p, n)| <= |History(states, faults, capacity, p, m)|
  {
    hide PassDue;
    if n < m {
      HistoryGrows(states, faults, capacity, p, n, m - 1);
    }
  }

  /** A page with one of the two lowest bits of its age set stays for six passes. */
  lemma {:induction false} StaysSix(states: seq<State>, faults: seq<Fault>, capacity: nat, p: Pid, n: nat)
    requires Run(states, faults, capacity) && n <= |faults| && p in states[0].ws && p in states[0].info
    requires states[0].info[p].age & 3 != 0 && |History(states, faults, capacity, p, n)| <= 6
    ensures forall i :: 0 <= i <= n ==> p in states[i].ws
  {
    hide Consistent, Stepped, Aged, PassDue, AgeAfter;
    if n > 0 {
      HistoryGrows(states, faults, capacity, p, n - 1, n);
      StaysSix(states, faults, capacity, p, n - 1);
      AgeOverRun(states, faults, capacity, p, n);
      Survives(states[0].info[p].age, History(states, faults, capacity, p, n));
      RunConsistent(states, faults, capacity, n - 1);
      MemberStep(states[n - 1], faults[n - 1], states[n], capacity, p);
    }
  }

  lemma NewcomerAge(s: State, f: Fault, s': State, capacity: nat, p: Pid)
    requires Consistent(s) && Stepped(s, f, s', capacity) && p !in s.ws && p in s'.ws
    ensures p in s'.info && s'.info[p].age & 3 != 0
  {
    hide Consistent, Replaced, NoDup, Unseen, Moved, Aged, Touch, Shift;
    JoinKeeps(s, f.page);
    StepKeeps(s, f, s', capacity);
    InWorkingSet(s', p);
    var j := Joined(s, f.page);
    Whereabouts(j, s', f.touched, capacity, p);
    assert PageAfter(j, s', f.touched, f.fails, p);
    ReferencedTouched(j, p);
    LowBits(j.info[p].age, p in f.touched);
  }

  lemma ReferencedTouched(s: State, p: Pid)
    requires Consistent(s) && p in s.referenced
    ensures p in s.info && s.info[p].age == Touch(s.info[p].age)
  {
  }

  /** A page that joins the working set stays through the next six passes, touched or not. */
  lemma NewcomerStays(states: seq<State>, faults: seq<Fault>, capacity: nat, p: Pid)
    requires Run(states, faults, capacity) && faults != [] && p !in states[0].ws && p in states[1].ws
    requires |History(states[1..], faults[1..], capacity, p, |faults| - 1)| <= 6
    ensures forall i :: 1 <= i <= |faults| ==> p in states[i].ws
  {
    hide Consistent, Stepped, History;
    NewcomerAge(states[0], faults[0], states[1], capacity, p);
    StepKeeps(states[0], faults[0], states[1], capacity);
    assert Run(states[1..], faults[1..], capacity);
    StaysSix(states[1..], faults[1..], capacity, p, |faults| - 1);
    forall i | 1 <= i <= |faults| ensures p in states[i].ws {
      assert states[1..][i - 1] == states[i];
    }
  }

  // ---------- when a pass is due ----------

  /** A pass is due as soon as the referenced list, with one page more, would be over a
      quarter of the capacity. */
  lemma DueIff(n: nat, capacity: nat)
    ensures n >= capacity / 4 / PAGE <==> 4 * PAGE * (n + 1) > capacity
  {
  }

  /** A page-in that makes the referenced list that long runs a pass, which empties the list
      unless the working set is exactly full; any other adds the page to the list and changes
      no other page and not the working set. */
  lemma PageInIff(s: State, f: Fault, s': State, capacity: nat)
    requires Consistent(s) && Stepped(s, f, s', capacity)
    ensures 4 * PAGE * (|s.referenced| + 2) > capacity ==>
              Replaced(Joined(s, f.page), s', f.touched, capacity) &&
              PagesAfter(Joined(s, f.page), s', f.touched, f.fails) &&
              (s'.referenced == [] || |s'.ws| * PAGE == capacity)
    ensures 4 * PAGE * (|s.referenced| + 2) <= capacity ==>
              s'.ws == s.ws && s'.referenced == s.referenced + [f.page] && s'.handed == s.handed &&
              s'.info.Keys == s.info.Keys && f.page in s.info && !s'.info[f.page].pagedOut &&
              forall p :: p in s.info && p != f.page ==> s'.info[p] == s.info[p]
  {
    DueIff(|s.referenced| + 1, capacity);
    hide Consistent, PagesAfter;
  }

  /** Short enough to wait for the next pass. */
  ghost predicate Waiting(s: State, capacity: nat) {
    s.referenced == [] || 4 * PAGE * |s.referenced| < capacity || |s.ws| * PAGE == capacity
  }

  /** Over every run the referenced list stays below a quarter of the capacity, but for when
      the working set is exactly full. */
  lemma {:induction false} RunWaits(states: seq<State>, faults: seq<Fault>, capacity: nat, n: nat)
    requires Run(states, faults, capacity) && n <= |faults| && states[0].referenced == []
    ensures Waiting(states[n], capacity)
  {
    hide Consistent, Replaced, PagesAfter;
    if n > 0 {
      RunWaits(states, faults, capacity, n - 1);
      RunConsistent(states, faults, capacity, n - 1);
      PageInIff(states[n - 1], faults[n - 1], states[n], capacity);
    }
  }

  // ---------- a capacity that is no number of pages ----------

  /** A pass ends within the capacity, as the code asserts, exactly if the capacity is a
      number of pages or all pages it keeps and all that were referenced fit. */
  lemma WithinCapacityIff(o: State, s: State, touched: set<Pid>, capacity: nat)
    requires |o.ws| * PAGE <= capacity && Replaced(o, s, touched, capacity)
    ensures |s.ws| * PAGE <= capacity <==>
            capacity % PAGE == 0 || (|Keep(o.ws, Gone(o, touched))| + |o.referenced|) * PAGE <= capacity
  {
    hide Keep, Drop, Gone, Newest, Slots;
    var gone := Gone(o, touched);
    KeepDropLength(o.ws, gone);
    var first := |Keep(o.ws, gone)| + Min(|Drop(o.ws, gone)|, |o.referenced|);
    RoomIff(first, capacity);
    RoomIff(|s.ws|, capacity);
    RoomIff(|Keep(o.ws, gone)| + |o.referenced|, capacity);
  }

  const TWO_OUT := State([], [], map[0 := Info(0, true, 0), 1 := Info(0, true, 0)], [])

  /** One byte more than a page: the second page that is paged in is one too many. */
  lemma OverCapacity(s: State, s': State)
    requires Stepped(TWO_OUT, Fault(0, {}, {}), s, PAGE + 1) && Stepped(s, Fault(1, {}, {}), s', PAGE + 1)
    ensures Consistent(TWO_OUT) && |s.ws| * PAGE <= PAGE + 1 && |s'.ws| * PAGE > PAGE + 1
  {
    hide Stepped, Slots;
    FirstIn(s);
    SecondIn(s, s');
  }

  lemma FirstIn(s: State)
    requires Stepped(TWO_OUT, Fault(0, {}, {}), s, PAGE + 1)
    ensures Consistent(TWO_OUT) && Consistent(s) && s.ws == [0] && s.referenced == []
    ensures 0 in s.info && s.info[0].age == 2
  {
    hide Stepped, Joined;
    StepKeeps(TWO_OUT, Fault(0, {}, {}), s, PAGE + 1);
    FirstJoined(s);
    FirstLists(Joined(TWO_OUT, 0), s);
    FirstAge(Joined(TWO_OUT, 0), s);
  }

  lemma FirstJoined(s: State)
    requires Stepped(TWO_OUT, Fault(0, {}, {}), s, PAGE + 1)
    ensures var j := Joined(TWO_OUT, 0);
            j.ws == [] && j.referenced == [0] && 0 in j.info && j.info[0] == Info(1, false, 0) &&
            Replaced(j, s, {}, PAGE + 1) && PagesAfter(j, s, {}, {})
  {
    hide Replaced, PagesAfter;
  }

  lemma FirstLists(j: State, s: State)
    requires j.ws == [] && j.referenced == [0] && Replaced(j, s, {}, PAGE + 1)
    ensures s.ws == [0] && s.referenced == []
  {
    hide Gone;
    assert Newest([0], 1) == [0];
  }

  lemma FirstAge(j: State, s: State)
    requires j.ws == [] && j.referenced == [0] && 0 in j.info && j.info[0] == Info(1, false, 0)
    requires s.ws == [0] && s.referenced == [] && PagesAfter(j, s, {}, {})
    ensures 0 in s.info && s.info[0].age == 2
  {
    hide Gone, Unseen;
    assert PageAfter(j, s, {}, {}, 0);
    assert Moved(j, Gone(j, {})) == [];
  }

  lemma SecondIn(s: State, s': State)
    requires Consistent(s) && s.ws == [0] && s.referenced == [] && 0 in s.info && s.info[0].age == 2
    requires Stepped(s, Fault(1, {}, {}), s', PAGE + 1)
    ensures |s'.ws| * PAGE > PAGE + 1
  {
    hide Replaced, Slots, PagesAfter, Consistent;
    var j := Joined(s, 1);
    JoinKeeps(s, 1);
    assert j.referenced == [1] && Gone(j, {}) == {};
    assert Keep([0], {}) == [0];
    WithinCapacityIff(j, s', {}, PAGE + 1);
  }

  class Context {
    const capacity: nat
    var ws: seq<Pid>
    var referenced: seq<Pid>
    var info: map<Pid, Info>
    var size: nat
    ghost var handed: seq<Pid>

    ghost function St(): State
      reads this
    {
      State(ws, referenced, info, handed)
    }

    ghost predicate Sized()
      reads this
    {
      Consistent(St()) && size == |ws| * PAGE
    }

    ghost predicate Valid()
      reads this
    {
      Sized() && size <= capacity
    }

    constructor (capacity: nat, pages: map<Pid, Info>)
      requires forall p :: p in pages ==> pages[p].workingSets == 0
      ensures Valid() && St() == State([], [], pages, []) && this.capacity == capacity
    {
      this.capacity := capacity;
      ws, referenced, info, size, handed := [], [], pages, 0, [];
    }

    method EvictAt(i: nat, fails: set<Pid>)
      requires i < |ws| && ws[i] in info && info[ws[i]].workingSets == 1
      modifies this`ws, this`info, this`handed
      ensures St() == Evict(old(St()), i, fails)
    {
      var p := ws[i];
      ws := ws[..i] + ws[i + 1..];
      info := info[p := info[p].(workingSets := info[p].workingSets - 1)];
      if info[p].workingSets == 0 {
        handed := handed + [p];
        info := info[p := info[p].(pagedOut := p !in fails)];
      }
    }

    method ReplaceOne()
      requires referenced != [] && referenced[|referenced| - 1] in info
      modifies this`ws, this`referenced, this`info
      ensures St() == Replace(old(St()))
    {
      var r := referenced[|referenced| - 1];
      referenced := referenced[..|referenced| - 1];
      ws := ws + [r];
      info := info[r := info[r].(workingSets := info[r].workingSets + 1)];
    }

    /** The first loop. That no page of the working set is paged out is what keeps it from
        its panic. */
    method AgePass(touched: set<Pid>, fails: set<Pid>) returns (difference: int, ghost k: nat)
      requires Valid()
      modifies this`ws, this`referenced, this`info, this`handed
      ensures Passed(old(St()), St(), touched, fails, k)
      ensures size + difference == |ws| * PAGE && |ws| <= |old(ws)|
    {
      hide Passing, Consistent, Keep, Drop, Newest, Gone, Unseen;
      ghost var o := St();
      difference, k := 0, 0;
      ghost var v: nat := 0;
      PassingStart(o, touched, fails);
      var i: nat := 0;
      ghost var j: nat := 0;
      KeepNone(o.ws, Gone(o, touched));
      NoneUnseen(o, Gone(o, touched));
      var node := ws != [];
      while node
        invariant j <= |o.ws| && Passing(o, St(), touched, fails, j, k, v)
        invariant node ==> i < |ws|
        invariant j < |o.ws| ==> node && v == 0 && i == |Keep(o.ws[..j], Gone(o, touched))|
        invariant j == |o.ws| ==> i == |Keep(o.ws, Gone(o, touched))| + v
        invariant j == |o.ws| && Unseen(o, Gone(o, touched)) ==> !node && v == 0
        invariant j == |o.ws| && !Unseen(o, Gone(o, touched)) && !node ==> v == k
        invariant size + difference == |ws| * PAGE && |ws| <= |o.ws|
        decreases |referenced|, |ws| - i
      {
        Looked(o, St(), touched, fails, j, k, v, i);
        var p := ws[i];
        assert !info[p].pagedOut;
        var age := if p in touched then Touch(info[p].age) else info[p].age;
        age := Shift(age);
        ghost var s := St();
        info := info[p := info[p].(age := age)];
        if age != 0 {
          j, v := Stayed(o, s, touched, fails, j, k, v, i);
          i := i + 1;
          node := i < |ws|;
          continue;
        }
        var next := i + 1 < |ws|;
        ghost var e;
        e, k := Left(o, s, touched, fails, j, k, i);
        j := j + 1;
        EvictAt(i, fails);
        assert St() == e;
        difference := difference - PAGE;
        if size + difference < capacity && |referenced| > 0 {
          ReplaceOne();
          difference := difference + PAGE;
        }
        node := next;
      }
    }

    method SettleOne(fails: set<Pid>)
      requires referenced != [] && referenced[|referenced| - 1] in info
      modifies this
      ensures St() == Settle(old(St()), fails, old(size) < capacity)
      ensures size == if old(size) < capacity then old(size) + PAGE else old(size)
    {
      var n := |referenced|;
      var p := referenced[n - 1];
      info := info[p := info[p].(age := Shift(info[p].age))];
      referenced := referenced[..n - 1];
      if size < capacity {
        info := info[p := info[p].(workingSets := info[p].workingSets + 1)];
        size := size + PAGE;
        ws := ws + [p];
      } else {
        handed := handed + [p];
        info := info[p := info[p].(pagedOut := p !in fails)];
      }
    }

    /** The second loop. */
    method Fill(fails: set<Pid>)
      requires Valid() && size < capacity
      modifies this
      ensures Sized() && referenced == [] && |old(ws)| <= Slots(capacity)
      ensures Filling(old(St()), St(), |old(referenced)|, Min(|old(referenced)|, Slots(capacity) - |old(ws)|))
      ensures var a := Min(|old(referenced)|, Slots(capacity) - |old(ws)|);
              FillInfos(old(St()), St(), fails, Newest(old(referenced), a), Newest(old(referenced), |old(referenced)|)[a..])
    {
      hide Consistent, Newest, Filling, FillInfos, Settle, Slots;
      ghost var o := St();
      ghost var x: nat, a: nat := 0, 0;
      FillingStart(o);
      FillInfosStart(o, fails);
      RoomIff(|ws|, capacity);
      while referenced != []
        invariant Sized() && Filling(o, St(), x, a) && a == Min(x, Slots(capacity) - |o.ws|)
        invariant x + |referenced| == |o.referenced| && |ws| == |o.ws| + a
        invariant a <= x <= |o.referenced|
        invariant FillInfos(o, St(), fails, Newest(o.referenced, a), Newest(o.referenced, x)[a..])
        decreases |referenced|
      {
        RoomIff(|ws|, capacity);
        FillingStep(o, St(), x, a, fails, size < capacity);
        SettleKeeps(St(), fails, size < capacity);
        SettleShape(St(), fails, size < capacity);
        FillingInfosStep(o, St(), fails, x, a, size < capacity);
        a := if size < capacity then a + 1 else a;
        SettleOne(fails);
        x := x + 1;
      }
      FilledAll(o, St(), x, a);
    }

    /** One pass. Neither of its panics can happen, the working set's size is that of its
        pages, and the referenced list is emptied unless the working set is exactly full.
        Its assertion that the working set is within the capacity is ok. */
    method RunPass(touched: set<Pid>, fails: set<Pid>) returns (ok: bool)
      requires Valid()
      modifies this
      ensures Sized() && Replaced(old(St()), St(), touched, capacity)
      ensures ok <==> size <= capacity
      ensures ok <==> capacity % PAGE == 0 ||
                      (|Keep(old(ws), Gone(old(St()), touched))| + |old(referenced)|) * PAGE <= capacity
      ensures referenced == [] || size == capacity
      ensures PagesAfter(old(St()), St(), touched, fails)
    {
      hide Consistent, Replaced, Passing, Filling, FillInfos, PagesAfter, Newest, Keep, Gone, Slots, Unseen;
      ghost var o := St();
      var difference, k := AgePass(touched, fails);
      AfterPass(o, St(), touched, fails, k, if Unseen(o, Gone(o, touched)) then 0 else k);
      ghost var t := St();
      size := size + difference;
      assert size <= capacity;
      if size == capacity {
        PassReplaced(o, t, t, touched, fails, k, capacity);
        PassPages(o, t, touched, fails, k);
        WithinCapacityIff(o, t, touched, capacity);
        return true;
      }
      Fill(fails);
      PassReplaced(o, t, St(), touched, fails, k, capacity);
      FillPages(o, t, St(), touched, fails, k, Min(|t.referenced|, Slots(capacity) - |t.ws|));
      WithinCapacityIff(o, St(), touched, capacity);
      ok := size <= capacity;
    }

    /** A fault on a page that is paged out, once it has been swapped in. The assertion
        that such a page is in no working set holds. */
    method PageIn(p: Pid, touched: set<Pid>, fails: set<Pid>) returns (ok: bool)
      requires Valid() && p in info && info[p].pagedOut
      modifies this
      ensures Sized() && (ok <==> Valid())
      ensures capacity % PAGE == 0 || !PassDue(old(St()), capacity) ==> ok
      ensures Stepped(old(St()), Fault(p, touched, fails), St(), capacity)
      ensures 4 * PAGE * (|old(referenced)| + 2) > capacity ==>
                Replaced(Joined(old(St()), p), St(), touched, capacity) && (referenced == [] || size == capacity)
      ensures 4 * PAGE * (|old(referenced)| + 2) <= capacity ==>
                ws == old(ws) && size == old(size) && referenced == old(referenced) + [p] && handed == old(handed)
    {
      hide Consistent, Replaced, PagesAfter;
      JoinKeeps(St(), p);
      assert info[p].workingSets == 0;
      info := info[p := info[p].(pagedOut := false)];
      info := info[p := info[p].(age := Touch(info[p].age))];
      referenced := referenced + [p];
      DueIff(|referenced|, capacity);
      assert St() == Joined(old(St()), p);
      ok := true;
      if |referenced| >= capacity / 4 / PAGE {
        ok := RunPass(touched, fails);
      }
    }
  }
}
