/**
  The bucket table of utils/hashmap.c as a value: open addressing where an entry
  may push aside one that is closer to its home bucket.
 */
module RobinHood {
  import opened Options

  /** dib is one plus the distance to the home bucket; zero marks an empty bucket. */
  datatype Bucket = Bucket(hash: nat, dib: nat, key: int, val: int)

  type Table = b: seq<Bucket> | |b| > 0 witness [Bucket(0, 0, 0, 0)]

  /** hash & mask, for a power-of-two table size n. */
  function Home(hash: nat, n: nat): (i: nat)
    requires n > 0
    ensures i < n
  {
    hash % n
  }

  /** (i + 1) & mask. */
  function Next(i: nat, n: nat): (j: nat)
    requires i < n
    ensures j < n
  {
    if i + 1 == n then 0 else i + 1
  }

  ghost function Prev(i: nat, n: nat): (j: nat)
    requires i < n
    ensures j < n && Next(j, n) == i
  {
    if i == 0 then n - 1 else i - 1
  }

  /** How many steps of Next lead from i to j. */
  ghost function Dist(i: nat, j: nat, n: nat): (d: nat)
    requires i < n && j < n
    ensures d < n && (d == 0 <==> i == j)
  {
    if i <= j then j - i else j + n - i
  }

  ghost predicate Placed(e: Bucket, i: nat, n: nat)
    requires i < n
  {
    e.dib == 1 + Dist(Home(e.hash, n), i, n)
  }

  ghost predicate AllPlaced(b: Table) {
    forall i :: 0 <= i < |b| && b[i].dib > 0 ==> Placed(b[i], i, |b|)
  }

  /** No bucket is more than one step worse off than the one before it. */
  ghost predicate Ordered(b: Table) {
    forall i :: 0 <= i < |b| ==> b[i].dib <= b[Prev(i, |b|)].dib + 1
  }

  /** pos says in which bucket each key lies. */
  ghost predicate Indexed(b: Table, pos: map<int, nat>) {
    (forall k :: k in pos ==> pos[k] < |b| && b[pos[k]].dib > 0 && b[pos[k]].key == k) &&
    (forall i :: 0 <= i < |b| && b[i].dib > 0 ==> b[i].key in pos && pos[b[i].key] == i)
  }

  ghost predicate Hashed(b: Table, hashOf: int -> nat) {
    forall i :: 0 <= i < |b| && b[i].dib > 0 ==> b[i].hash == hashOf(b[i].key)
  }

  ghost predicate Sound(b: Table, pos: map<int, nat>, hashOf: int -> nat) {
    AllPlaced(b) && Ordered(b) && Indexed(b, pos) && Hashed(b, hashOf)
  }

  ghost function Contents(b: Table, pos: map<int, nat>): map<int, int>
    requires Indexed(b, pos)
  {
    map k | k in pos :: b[pos[k]].val
  }

  // ---------- what the order gives ----------

  /** Every bucket from an entry's home up to the entry is at least as badly off as
      the entry would be there. */
  lemma {:induction false} Reach(b: Table, p: nat, i: nat)
    requires Ordered(b) && p < |b| && i < |b| && b[p].dib > 0 && Placed(b[p], p, |b|)
    requires Dist(Home(b[p].hash, |b|), i, |b|) <= Dist(Home(b[p].hash, |b|), p, |b|)
    ensures b[i].dib >= 1 + Dist(Home(b[p].hash, |b|), i, |b|)
    decreases Dist(i, p, |b|)
  {
    if i != p {
      var j := Next(i, |b|);
      Reach(b, p, j);
      assert Prev(j, |b|) == i;
    }
  }

  /** Nothing lies further from its home than the nearest empty bucket before it. */
  lemma {:induction false} HoleBound(b: Table, z: nat, i: nat)
    requires Ordered(b) && z < |b| && i < |b| && b[z].dib == 0
    ensures b[i].dib <= Dist(z, i, |b|)
    decreases Dist(z, i, |b|)
  {
    if i != z {
      HoleBound(b, z, Prev(i, |b|));
    }
  }

  ghost function Used(b: Table, m: nat): (u: nat)
    requires m <= |b|
    ensures u <= m
  {
    if m == 0 then 0 else Used(b, m - 1) + if b[m - 1].dib > 0 then 1 else 0
  }

  lemma {:induction false} KeysUpTo(b: Table, pos: map<int, nat>, m: nat) returns (ks: set<int>)
    requires Indexed(b, pos) && m <= |b|
    ensures |ks| == Used(b, m)
    ensures forall k :: k in ks <==> k in pos && pos[k] < m
  {
    if m == 0 {
      ks := {};
    } else {
      ks := KeysUpTo(b, pos, m - 1);
      var k := b[m - 1].key;
      if b[m - 1].dib > 0 {
        assert pos[k] == m - 1;
        ks := ks + {k};
      }
    }
  }

  lemma {:induction false} UsedAll(b: Table, m: nat)
    requires m <= |b|
    ensures Used(b, m) == m <==> forall i :: 0 <= i < m ==> b[i].dib > 0
  {
    if m > 0 {
      UsedAll(b, m - 1);
    }
  }

  /** There are never more keys than buckets, and as many exactly if no bucket is
      empty. */
  lemma FitsIn(b: Table, pos: map<int, nat>)
    requires Indexed(b, pos)
    ensures |pos| <= |b|
    ensures |pos| == |b| <==> forall i :: 0 <= i < |b| ==> b[i].dib > 0
  {
    var ks := KeysUpTo(b, pos, |b|);
    assert forall k :: k in ks <==> k in pos.Keys;
    assert ks == pos.Keys;
    UsedAll(b, |b|);
  }

  // ---------- one entry in hand ----------

  /** e is in hand at bucket i of a sound table that does not hold its key. */
  ghost predicate InHand(b: Table, pos: map<int, nat>, hashOf: int -> nat, e: Bucket, i: nat) {
    Sound(b, pos, hashOf) && i < |b| && Placed(e, i, |b|) && e.dib <= b[Prev(i, |b|)].dib + 1 &&
    e.key !in pos && e.hash == hashOf(e.key)
  }

  /** What the table holds together with the entry in hand. */
  ghost function Total(b: Table, pos: map<int, nat>, e: Bucket): map<int, int>
    requires Indexed(b, pos)
  {
    Contents(b, pos)[e.key := e.val]
  }

  /** Putting an entry that is worse off than the bucket's owner keeps the order. */
  lemma PutOrdered(b: Table, i: nat, e: Bucket)
    requires Ordered(b) && i < |b| && b[i].dib <= e.dib <= b[Prev(i, |b|)].dib + 1
    ensures Ordered(b[i := e])
  {
    var b' := b[i := e];
    forall j | 0 <= j < |b'|
      ensures b'[j].dib <= b'[Prev(j, |b'|)].dib + 1
    {
      assert b[j].dib <= b[Prev(j, |b|)].dib + 1;
    }
  }

  lemma PutPlaced(b: Table, hashOf: int -> nat, i: nat, e: Bucket)
    requires AllPlaced(b) && Hashed(b, hashOf) && i < |b| && Placed(e, i, |b|) && e.hash == hashOf(e.key)
    ensures AllPlaced(b[i := e]) && Hashed(b[i := e], hashOf)
  {
  }

  lemma PutFresh(b: Table, pos: map<int, nat>, i: nat, e: Bucket)
    requires Indexed(b, pos) && i < |b| && e.key !in pos && e.dib > 0 && b[i].dib == 0
    ensures Indexed(b[i := e], pos[e.key := i])
    ensures Contents(b[i := e], pos[e.key := i]) == Total(b, pos, e)
  {
    var b', pos' := b[i := e], pos[e.key := i];
    assert Indexed(b', pos');
    var c, d := Contents(b', pos'), Total(b, pos, e);
    assert c.Keys == d.Keys;
    assert forall k :: k in c ==> c[k] == d[k];
  }

  lemma PutOver(b: Table, pos: map<int, nat>, i: nat, e: Bucket)
    requires Indexed(b, pos) && i < |b| && e.key !in pos && e.dib > 0 && b[i].dib > 0
    ensures var pos' := (pos - {b[i].key})[e.key := i];
            Indexed(b[i := e], pos') && Total(b[i := e], pos', b[i]) == Total(b, pos, e)
  {
    var b', pos' := b[i := e], (pos - {b[i].key})[e.key := i];
    assert Indexed(b', pos');
    var c, d := Total(b', pos', b[i]), Total(b, pos, e);
    assert c.Keys == d.Keys;
    assert forall k :: k in c ==> c[k] == d[k];
  }

  lemma DropIn(b: Table, pos: map<int, nat>, hashOf: int -> nat, e: Bucket, i: nat)
    requires InHand(b, pos, hashOf, e, i) && b[i].dib == 0
    ensures Sound(b[i := e], pos[e.key := i], hashOf)
    ensures Contents(b[i := e], pos[e.key := i]) == Total(b, pos, e)
    ensures b[i := e][Next(i, |b|)].dib <= 1
  {
    PutOrdered(b, i, e);
    PutPlaced(b, hashOf, i, e);
    PutFresh(b, pos, i, e);
    assert Prev(Next(i, |b|), |b|) == i;
  }

  /** An entry in hand has not come round to its home again. */
  lemma NotRound(b: Table, pos: map<int, nat>, hashOf: int -> nat, e: Bucket, i: nat, z: nat)
    requires InHand(b, pos, hashOf, e, i) && z < |b| && b[z].dib == 0 && i != z
    ensures e.dib < |b|
  {
    HoleBound(b, z, Prev(i, |b|));
  }

  lemma PushOn(b: Table, pos: map<int, nat>, hashOf: int -> nat, e: Bucket, i: nat, z: nat)
    requires InHand(b, pos, hashOf, e, i) && z < |b| && b[z].dib == 0
    requires 0 < b[i].dib < e.dib
    ensures var b', pos', e' := b[i := e], (pos - {b[i].key})[e.key := i], b[i].(dib := b[i].dib + 1);
            InHand(b', pos', hashOf, e', Next(i, |b|)) && b'[z].dib == 0 && Total(b', pos', e') == Total(b, pos, e)
  {
    NotRound(b, pos, hashOf, e, i, z);
    PutOrdered(b, i, e);
    PutPlaced(b, hashOf, i, e);
    PutOver(b, pos, i, e);
    assert Prev(Next(i, |b|), |b|) == i;
  }

  lemma PassOn(b: Table, pos: map<int, nat>, hashOf: int -> nat, e: Bucket, i: nat, z: nat)
    requires InHand(b, pos, hashOf, e, i) && z < |b| && b[z].dib == 0
    requires b[i].dib >= e.dib
    ensures InHand(b, pos, hashOf, e.(dib := e.dib + 1), Next(i, |b|))
  {
    NotRound(b, pos, hashOf, e, i, z);
    assert Prev(Next(i, |b|), |b|) == i;
  }

  // ---------- the insertion loop, one round at a time ----------

  const DIB_LIMIT := 0x1_0000

  datatype Probe =
    | Looking(b: Table, e: Bucket, i: nat)
    | Stored(b: Table, was: Option<int>)

  /** One round of the loop in hashmap_set_with_hash; dib is a 16-bit field. */
  function SetRound(s: Probe): Probe
    requires s.Looking? ==> s.i < |s.b|
  {
    match s
    case Stored(_, _) => s
    case Looking(b, e, i) =>
      var cur := b[i];
      if cur.dib == 0 then Stored(b[i := e], None)
      else if e.hash == cur.hash && e.key == cur.key then Stored(b[i := cur.(val := e.val)], Some(cur.val))
      else if cur.dib < e.dib then
        Looking(b[i := e], cur.(dib := (cur.dib + 1) % DIB_LIMIT), Next(i, |b|))
      else
        Looking(b, e.(dib := (e.dib + 1) % DIB_LIMIT), Next(i, |b|))
  }

  ghost function SetRounds(s: Probe, rounds: nat): (r: Probe)
    requires s.Looking? ==> s.i < |s.b|
    ensures r.Looking? ==> r.i < |r.b|
  {
    if rounds == 0 then s else SetRound(SetRounds(s, rounds - 1))
  }

  /** Some number of rounds leads from s to t. */
  ghost predicate LeadsTo(s: Probe, t: Probe)
    requires s.Looking? ==> s.i < |s.b|
  {
    exists rounds: nat :: SetRounds(s, rounds) == t
  }

  lemma LeadsToSelf(s: Probe)
    requires s.Looking? ==> s.i < |s.b|
    ensures LeadsTo(s, s)
  {
    assert SetRounds(s, 0) == s;
  }

  lemma LeadsToNext(s: Probe, t: Probe)
    requires (s.Looking? ==> s.i < |s.b|) && LeadsTo(s, t) && (t.Looking? ==> t.i < |t.b|)
    ensures LeadsTo(s, SetRound(t))
  {
    var rounds: nat :| SetRounds(s, rounds) == t;
    assert SetRounds(s, rounds + 1) == SetRound(t);
  }

  ghost predicate Full(b: Table) {
    forall i :: 0 <= i < |b| ==> b[i].dib > 0
  }

  /** In a full table the loop never ends for a key that is not there: whatever it
      holds in hand is nowhere in the table. */
  lemma {:induction false} NeverStored(b: Table, pos: map<int, nat>, e: Bucket, i: nat, rounds: nat)
    returns (pos': map<int, nat>)
    requires Indexed(b, pos) && Full(b) && i < |b| && e.key !in pos
    ensures var s := SetRounds(Looking(b, e, i), rounds);
            s.Looking? && Indexed(s.b, pos') && Full(s.b) && s.i < |s.b| && s.e.key !in pos'
  {
    if rounds == 0 {
      pos' := pos;
    } else {
      pos' := NeverStored(b, pos, e, i, rounds - 1);
      var s := SetRounds(Looking(b, e, i), rounds - 1);
      var cur := s.b[s.i];
      if cur.dib < s.e.dib {
        PutOver(s.b, pos', s.i, s.e);
        pos' := (pos' - {cur.key})[s.e.key := s.i];
      }
    }
  }

  // ---------- closing the gap after a deletion ----------

  ghost function Emptied(b: Table, q: nat): Table
    requires q < |b|
  {
    b[q := b[q].(dib := 0)]
  }

  /** Bucket q is to be refilled or emptied; the entry that was there had dib d. */
  ghost predicate Gap(b: Table, pos: map<int, nat>, hashOf: int -> nat, q: nat, d: nat) {
    |b| >= 2 && q < |b| &&
    var t := Emptied(b, q);
    AllPlaced(t) && Hashed(t, hashOf) && Indexed(t, pos) &&
    (forall i :: 0 <= i < |t| && i != Next(q, |t|) ==> t[i].dib <= t[Prev(i, |t|)].dib + 1) &&
    t[Next(q, |t|)].dib <= d + 1 && d <= t[Prev(q, |t|)].dib + 1
  }

  lemma OpenGap(b: Table, pos: map<int, nat>, hashOf: int -> nat, p: nat)
    requires Sound(b, pos, hashOf) && |b| >= 2 && p < |b| && b[p].dib > 0
    ensures Gap(Emptied(b, p), pos - {b[p].key}, hashOf, p, b[p].dib)
    ensures Contents(Emptied(b, p), pos - {b[p].key}) == Contents(b, pos) - {b[p].key}
  {
    var n, t := |b|, Emptied(b, p);
    assert Emptied(t, p) == t;
    RemoveIndexed(b, pos, p);
    forall i | 0 <= i < n
      ensures t[i].dib <= b[i].dib <= b[Prev(i, n)].dib + 1 && (i != Next(p, n) ==> t[Prev(i, n)] == b[Prev(i, n)])
    {
    }
    assert Prev(Next(p, n), n) == p;
  }

  lemma RemoveIndexed(b: Table, pos: map<int, nat>, p: nat)
    requires Indexed(b, pos) && p < |b| && b[p].dib > 0
    ensures Indexed(Emptied(b, p), pos - {b[p].key})
    ensures Contents(Emptied(b, p), pos - {b[p].key}) == Contents(b, pos) - {b[p].key}
  {
    assert Indexed(Emptied(b, p), pos - {b[p].key});
    var c, c' := Contents(b, pos) - {b[p].key}, Contents(Emptied(b, p), pos - {b[p].key});
    assert c.Keys == c'.Keys;
    assert forall k :: k in c ==> c[k] == c'[k];
  }

  lemma ShiftGap(b: Table, pos: map<int, nat>, hashOf: int -> nat, q: nat, d: nat)
    requires Gap(b, pos, hashOf, q, d) && b[Next(q, |b|)].dib > 1
    ensures var i := Next(q, |b|);
            var b', pos' := b[q := b[i].(dib := b[i].dib - 1)], pos[b[i].key := q];
            Gap(b', pos', hashOf, i, b[i].dib) &&
            Contents(Emptied(b', i), pos') == Contents(Emptied(b, q), pos)
  {
    var n, i := |b|, Next(q, |b|);
    var b', pos' := b[q := b[i].(dib := b[i].dib - 1)], pos[b[i].key := q];
    ShiftIndexed(b, pos, q);
    ShiftOrdered(b, pos, hashOf, q, d);
    var t, t' := Emptied(b, q), Emptied(b', i);
    assert t[i] == b[i] && t'[q] == b'[q];
    assert Placed(t[i], i, n);
    assert Placed(t'[q], q, n);
  }

  lemma ShiftIndexed(b: Table, pos: map<int, nat>, q: nat)
    requires |b| >= 2 && q < |b| && Indexed(Emptied(b, q), pos) && b[Next(q, |b|)].dib > 1
    ensures var i := Next(q, |b|);
            var b', pos' := b[q := b[i].(dib := b[i].dib - 1)], pos[b[i].key := q];
            Indexed(Emptied(b', i), pos') && Contents(Emptied(b', i), pos') == Contents(Emptied(b, q), pos)
  {
    var i := Next(q, |b|);
    var b', pos' := b[q := b[i].(dib := b[i].dib - 1)], pos[b[i].key := q];
    var t, t' := Emptied(b, q), Emptied(b', i);
    assert t[i] == b[i] && pos[b[i].key] == i && t'[q] == b'[q];
    forall j | 0 <= j < |t'| && t'[j].dib > 0
      ensures t'[j].key in pos' && pos'[t'[j].key] == j
    {
      if j != q {
        assert t'[j] == t[j];
      }
    }
    assert Indexed(t', pos');
    hide Indexed;
    SameContents(t, pos, t', pos');
  }

  lemma SameContents(b: Table, pos: map<int, nat>, b': Table, pos': map<int, nat>)
    requires Indexed(b, pos) && Indexed(b', pos') && pos.Keys == pos'.Keys
    requires forall k :: k in pos ==> b[pos[k]].val == b'[pos'[k]].val
    ensures Contents(b', pos') == Contents(b, pos)
  {
    var c, c' := Contents(b, pos), Contents(b', pos');
    assert c.Keys == c'.Keys;
    hide Indexed;
    assert forall k :: k in c ==> c[k] == c'[k];
  }

  lemma ShiftOrdered(b: Table, pos: map<int, nat>, hashOf: int -> nat, q: nat, d: nat)
    requires Gap(b, pos, hashOf, q, d) && b[Next(q, |b|)].dib > 1
    ensures var n, i := |b|, Next(q, |b|);
            var t' := Emptied(b[q := b[i].(dib := b[i].dib - 1)], i);
            (forall j :: 0 <= j < n && j != Next(i, n) ==> t'[j].dib <= t'[Prev(j, n)].dib + 1) &&
            t'[Next(i, n)].dib <= b[i].dib + 1 && b[i].dib <= t'[Prev(i, n)].dib + 1
  {
    var n, i := |b|, Next(q, |b|);
    var t, t' := Emptied(b, q), Emptied(b[q := b[i].(dib := b[i].dib - 1)], i);
    assert Prev(i, n) == q && Prev(Next(i, n), n) == i;
    forall j | 0 <= j < n && j != Next(i, n)
      ensures t'[j].dib <= t'[Prev(j, n)].dib + 1
    {
      if j != i && j != q {
        assert t[j].dib <= t[Prev(j, n)].dib + 1;
      }
    }
    assert Next(i, n) != i;
    if Next(i, n) != q {
      assert t[Next(i, n)].dib <= t[Prev(Next(i, n), n)].dib + 1;
    }
  }

  lemma CloseGap(b: Table, pos: map<int, nat>, hashOf: int -> nat, q: nat, d: nat)
    requires Gap(b, pos, hashOf, q, d) && b[Next(q, |b|)].dib <= 1
    ensures Sound(Emptied(b, q), pos, hashOf)
  {
    var t := Emptied(b, q);
    forall i | 0 <= i < |t|
      ensures t[i].dib <= t[Prev(i, |t|)].dib + 1
    {
      if i == Next(q, |t|) {
        assert t[i].dib <= 1;
      }
    }
  }

  // ---------- an entry whose key the table already holds ----------

  /** e, on its way from its home, has not passed the bucket p that holds its key. */
  ghost predicate Returning(b: Table, p: nat, e: Bucket, i: nat) {
    p < |b| && i < |b| && b[p].dib > 0 && b[p].key == e.key && b[p].hash == e.hash &&
    Placed(b[p], p, |b|) && Placed(e, i, |b|) && e.dib <= b[p].dib
  }

  /** It meets no empty bucket and no entry it may push aside before p. */
  lemma KeepReturning(b: Table, p: nat, e: Bucket, i: nat)
    requires Ordered(b) && Returning(b, p, e, i)
    ensures b[i].dib >= e.dib > 0
    ensures i != p ==> Returning(b, p, e.(dib := e.dib + 1), Next(i, |b|))
  {
    Reach(b, p, i);
  }

  lemma Overwrite(b: Table, pos: map<int, nat>, hashOf: int -> nat, i: nat, val: int)
    requires Sound(b, pos, hashOf) && i < |b| && b[i].dib > 0
    ensures Sound(b[i := b[i].(val := val)], pos, hashOf)
    ensures Contents(b[i := b[i].(val := val)], pos) == Contents(b, pos)[b[i].key := val]
  {
    var b' := b[i := b[i].(val := val)];
    assert forall j :: 0 <= j < |b| ==> b'[j].dib == b[j].dib && b'[j].key == b[j].key && b'[j].hash == b[j].hash;
    assert Ordered(b') by {
      forall j | 0 <= j < |b'|
        ensures b'[j].dib <= b'[Prev(j, |b'|)].dib + 1
      {
        assert b[j].dib <= b[Prev(j, |b|)].dib + 1;
      }
    }
    assert Indexed(b', pos);
    var c, c' := Contents(b, pos)[b[i].key := val], Contents(b', pos);
    assert c.Keys == c'.Keys;
    assert forall k :: k in c ==> c[k] == c'[k];
  }

  // ---------- the insertion loop keeps its course ----------

  /** Delete's shift loop ends at a bucket that need not move. */
  ghost predicate Anchored(b: Table) {
    exists a :: 0 <= a < |b| && b[a].dib <= 1
  }

  /** What an insertion is to achieve; target is where it ends at the latest. */
  datatype Goal = Goal(present: bool, target: nat, total: map<int, int>, was: Option<int>)

  ghost predicate Going(s: Probe, pos: map<int, nat>, hashOf: int -> nat, g: Goal) {
    s.Looking? && s.i < |s.b| && g.target < |s.b| && |s.b| < DIB_LIMIT && Sound(s.b, pos, hashOf) &&
    Total(s.b, pos, s.e) == g.total &&
    if g.present then
      Returning(s.b, g.target, s.e, s.i) && Anchored(s.b) && g.was == Some(s.b[g.target].val)
    else
      InHand(s.b, pos, hashOf, s.e, s.i) && s.b[g.target].dib == 0 && g.was == None
  }

  ghost predicate Gone(s: Probe, pos: map<int, nat>, hashOf: int -> nat, g: Goal) {
    s.Stored? && Sound(s.b, pos, hashOf) && Contents(s.b, pos) == g.total && Anchored(s.b) && s.was == g.was
  }

  ghost predicate OnCourse(s: Probe, pos: map<int, nat>, hashOf: int -> nat, g: Goal) {
    if s.Stored? then Gone(s, pos, hashOf, g) else Going(s, pos, hashOf, g)
  }

  /** What is left to do. */
  ghost function Left(s: Probe, g: Goal): nat {
    if s.Looking? && s.i < |s.b| && g.target < |s.b| then 1 + Dist(s.i, g.target, |s.b|) else 0
  }

  lemma RoundMatch(s: Probe, pos: map<int, nat>, hashOf: int -> nat, g: Goal)
    requires Going(s, pos, hashOf, g) && g.present && s.i == g.target
    ensures Gone(SetRound(s), pos, hashOf, g)
  {
    Overwrite(s.b, pos, hashOf, s.i, s.e.val);
    var a :| 0 <= a < |s.b| && s.b[a].dib <= 1;
    assert SetRound(s).b[a].dib <= 1;
  }

  lemma RoundReturn(s: Probe, pos: map<int, nat>, hashOf: int -> nat, g: Goal)
    requires Going(s, pos, hashOf, g) && g.present && s.i != g.target
    ensures SetRound(s) == Looking(s.b, s.e.(dib := s.e.dib + 1), Next(s.i, |s.b|))
    ensures Going(SetRound(s), pos, hashOf, g)
  {
    KeepReturning(s.b, g.target, s.e, s.i);
    assert pos[s.b[g.target].key] == g.target;
  }

  lemma RoundDrop(s: Probe, pos: map<int, nat>, hashOf: int -> nat, g: Goal)
    requires Going(s, pos, hashOf, g) && !g.present && s.b[s.i].dib == 0
    ensures SetRound(s).Stored? && Gone(SetRound(s), pos[s.e.key := s.i], hashOf, g)
    ensures |pos[s.e.key := s.i]| == |pos| + 1
  {
    DropIn(s.b, pos, hashOf, s.e, s.i);
    assert SetRound(s).b[Next(s.i, |s.b|)].dib <= 1;
  }

  lemma RoundPush(s: Probe, pos: map<int, nat>, hashOf: int -> nat, g: Goal)
    requires Going(s, pos, hashOf, g) && !g.present && 0 < s.b[s.i].dib < s.e.dib
    ensures var pos' := (pos - {s.b[s.i].key})[s.e.key := s.i];
            SetRound(s).Looking? && Going(SetRound(s), pos', hashOf, g) && |pos'| == |pos|
    ensures Left(SetRound(s), g) < Left(s, g)
  {
    PushOn(s.b, pos, hashOf, s.e, s.i, g.target);
    var k := s.b[s.i].key;
    assert (pos - {k})[s.e.key := s.i].Keys == pos.Keys - {k} + {s.e.key};
  }

  lemma RoundPass(s: Probe, pos: map<int, nat>, hashOf: int -> nat, g: Goal)
    requires Going(s, pos, hashOf, g) && !g.present && s.b[s.i].dib >= s.e.dib
    ensures SetRound(s).Looking? && Going(SetRound(s), pos, hashOf, g)
    ensures Left(SetRound(s), g) < Left(s, g)
  {
    PassOn(s.b, pos, hashOf, s.e, s.i, g.target);
  }

  lemma RoundFresh(s: Probe, pos: map<int, nat>, hashOf: int -> nat, g: Goal) returns (pos': map<int, nat>)
    requires Going(s, pos, hashOf, g) && !g.present
    ensures OnCourse(SetRound(s), pos', hashOf, g) && Left(SetRound(s), g) < Left(s, g)
    ensures |pos'| == |pos| + (if SetRound(s).Stored? then 1 else 0)
  {
    if s.b[s.i].dib == 0 {
      RoundDrop(s, pos, hashOf, g);
      pos' := pos[s.e.key := s.i];
    } else if s.b[s.i].dib < s.e.dib {
      RoundPush(s, pos, hashOf, g);
      pos' := (pos - {s.b[s.i].key})[s.e.key := s.i];
    } else {
      RoundPass(s, pos, hashOf, g);
      pos' := pos;
    }
  }

  /** Every round either ends with the entry stored or leads closer to the target. */
  lemma RoundKeeps(s: Probe, pos: map<int, nat>, hashOf: int -> nat, g: Goal) returns (pos': map<int, nat>)
    requires Going(s, pos, hashOf, g)
    ensures OnCourse(SetRound(s), pos', hashOf, g) && Left(SetRound(s), g) < Left(s, g)
    ensures |pos'| == |pos| + (if SetRound(s).Stored? && !g.present then 1 else 0)
  {
    if !g.present {
      pos' := RoundFresh(s, pos, hashOf, g);
    } else if s.i == g.target {
      RoundMatch(s, pos, hashOf, g);
      pos' := pos;
    } else {
      RoundReturn(s, pos, hashOf, g);
      pos' := pos;
    }
  }

  /** Only an entry whose key the table held from the start can meet its own key. */
  lemma NoMatch(s: Probe, pos: map<int, nat>, hashOf: int -> nat, g: Goal)
    requires Going(s, pos, hashOf, g) && !g.present
    ensures s.b[s.i].dib == 0 || s.b[s.i].key != s.e.key
  {
  }

  /** The insertion loop ends, with the entry stored. */
  lemma {:induction false} SetEnds(s: Probe, pos: map<int, nat>, hashOf: int -> nat, g: Goal)
    returns (rounds: nat, pos': map<int, nat>)
    requires Going(s, pos, hashOf, g)
    ensures Gone(SetRounds(s, rounds), pos', hashOf, g)
    decreases Left(s, g)
  {
    var pos1 := RoundKeeps(s, pos, hashOf, g);
    var s' := SetRound(s);
    if s'.Stored? {
      rounds, pos' := 1, pos1;
      assert SetRounds(s, 1) == s' by {
        assert SetRounds(s, 0) == s;
      }
    } else {
      rounds, pos' := SetEnds(s', pos1, hashOf, g);
      RoundsAfter(s, rounds);
      rounds := rounds + 1;
    }
  }

  lemma {:induction false} RoundsAfter(s: Probe, k: nat)
    requires s.Looking? ==> s.i < |s.b|
    ensures SetRounds(SetRound(s), k) == SetRounds(s, k + 1)
  {
    if k > 0 {
      RoundsAfter(s, k - 1);
    } else {
      assert SetRounds(s, 0) == s;
    }
  }

  ghost predicate Ends(s: Probe)
    requires s.Looking? && s.i < |s.b|
  {
    exists rounds: nat :: SetRounds(s, rounds).Stored?
  }

  // ---------- probing for a key ----------

  /** The bucket that k steps of a probe from i lead to. */
  function Along(i: nat, k: nat, n: nat): (j: nat)
    requires i < n
    ensures j < n
  {
    if k == 0 then i else Next(Along(i, k - 1, n), n)
  }

  lemma {:induction false} AlongLemma(i: nat, k: nat, n: nat)
    requires i < n && k < n
    ensures Along(i, k, n) == if i + k < n then i + k else i + k - n
  {
    if k > 0 {
      AlongLemma(i, k - 1, n);
    }
  }

  /** A probe for key stops at bucket j. */
  predicate Stops(b: Table, key: int, j: nat) {
    j < |b| && (b[j].dib == 0 || b[j].key == key)
  }

  /** The probe of hashmap_get and hashmap_delete stops, from any bucket on, if and only
      if the table has an empty bucket or holds the key. */
  lemma ProbeEndsIff(b: Table, pos: map<int, nat>, key: int, i: nat)
    requires Indexed(b, pos) && i < |b|
    ensures (exists k: nat :: Stops(b, key, Along(i, k, |b|))) <==> |pos| < |b| || key in pos
  {
    FitsIn(b, pos);
    if |pos| < |b| || key in pos {
      var j: nat;
      if key in pos {
        j := pos[key];
      } else {
        j :| j < |b| && b[j].dib == 0;
      }
      AlongLemma(i, Dist(i, j, |b|), |b|);
      assert Stops(b, key, Along(i, Dist(i, j, |b|), |b|));
    } else {
      forall k: nat ensures !Stops(b, key, Along(i, k, |b|)) {
        var j := Along(i, k, |b|);
        assert b[j].dib > 0 && b[j].key in pos;
      }
    }
  }

  /** hashmap_set's loop ends if and only if the table has an empty bucket or already
      holds the key. */
  lemma SetEndsIff(b: Table, pos: map<int, nat>, hashOf: int -> nat, key: int, val: int)
    requires Sound(b, pos, hashOf) && Anchored(b) && |b| < DIB_LIMIT
    ensures Ends(Looking(b, Bucket(hashOf(key), 1, key, val), Home(hashOf(key), |b|))) <==>
            |pos| < |b| || key in pos
  {
    var e := Bucket(hashOf(key), 1, key, val);
    var s := Looking(b, e, Home(e.hash, |b|));
    FitsIn(b, pos);
    if key in pos {
      var g := Goal(true, pos[key], Total(b, pos, e), Some(b[pos[key]].val));
      var rounds, pos' := SetEnds(s, pos, hashOf, g);
      assert SetRounds(s, rounds).Stored?;
    } else if |pos| < |b| {
      var t :| 0 <= t < |b| && b[t].dib == 0;
      var g := Goal(false, t, Total(b, pos, e), None);
      var rounds, pos' := SetEnds(s, pos, hashOf, g);
      assert SetRounds(s, rounds).Stored?;
    } else {
      forall rounds: nat
        ensures !SetRounds(s, rounds).Stored?
      {
        var pos' := NeverStored(b, pos, e, s.i, rounds);
      }
    }
  }

  // ---------- carrying a table over ----------

  lemma EmptyTable(b: Table, hashOf: int -> nat)
    requires forall i :: 0 <= i < |b| ==> b[i].dib == 0
    ensures Sound(b, map[], hashOf) && Contents(b, map[]) == map[] && Anchored(b)
  {
    assert b[0].dib <= 1;
  }

  lemma UsedIsCount(b: Table, pos: map<int, nat>)
    requires Indexed(b, pos)
    ensures Used(b, |b|) == |pos|
  {
    var ks := KeysUpTo(b, pos, |b|);
    assert forall k :: k in ks <==> k in pos.Keys;
    assert ks == pos.Keys;
  }

  lemma {:induction false} UsedMonotone(b: Table, i: nat, j: nat)
    requires i <= j <= |b|
    ensures Used(b, i) <= Used(b, j)
    decreases j
  {
    if i < j {
      UsedMonotone(b, i, j - 1);
    }
  }

  /** m holds exactly what the first i buckets of b hold. */
  ghost predicate Carried(m: map<int, int>, b: Table, pos: map<int, nat>, i: nat)
    requires Indexed(b, pos)
  {
    forall k :: (k in m <==> k in pos && pos[k] < i) && (k in m ==> m[k] == b[pos[k]].val)
  }

  lemma CarryOne(m: map<int, int>, b: Table, pos: map<int, nat>, i: nat)
    requires Indexed(b, pos) && i < |b| && b[i].dib > 0 && Carried(m, b, pos, i)
    ensures b[i].key !in m && Carried(m[b[i].key := b[i].val], b, pos, i + 1)
  {
    assert pos[b[i].key] == i;
  }

  lemma CarryNone(m: map<int, int>, b: Table, pos: map<int, nat>, i: nat)
    requires Indexed(b, pos) && i < |b| && b[i].dib == 0 && Carried(m, b, pos, i)
    ensures Carried(m, b, pos, i + 1)
  {
  }

  lemma CarriedAll(m: map<int, int>, b: Table, pos: map<int, nat>)
    requires Indexed(b, pos) && Carried(m, b, pos, |b|)
    ensures m == Contents(b, pos)
  {
    var c := Contents(b, pos);
    assert forall k :: k in m <==> k in c;
    assert m.Keys == c.Keys;
    assert forall k :: k in m ==> m[k] == c[k];
  }

  // ---------- the shift loop of a deletion ----------

  /** Bucket q is to be refilled; a is where the loop stops at the latest. */
  ghost predicate Closing(b: Table, pos: map<int, nat>, hashOf: int -> nat, q: nat, d: nat, a: nat, items: map<int, int>) {
    Gap(b, pos, hashOf, q, d) && Contents(Emptied(b, q), pos) == items &&
    a < |b| && b[a].dib <= 1 && (q == a ==> d <= 1)
  }

  lemma StartClosing(b: Table, pos: map<int, nat>, hashOf: int -> nat, p: nat) returns (a: nat)
    requires Sound(b, pos, hashOf) && |b| >= 2 && p < |b| && b[p].dib > 0 && Anchored(b)
    ensures Closing(Emptied(b, p), pos - {b[p].key}, hashOf, p, b[p].dib, a, Contents(b, pos) - {b[p].key})
    ensures b[p].key in pos
  {
    OpenGap(b, pos, hashOf, p);
    a :| 0 <= a < |b| && b[a].dib <= 1;
    assert Emptied(Emptied(b, p), p) == Emptied(b, p);
  }

  ghost predicate Closed(b: Table, pos: map<int, nat>, hashOf: int -> nat, items: map<int, int>) {
    Sound(b, pos, hashOf) && Contents(b, pos) == items && Anchored(b)
  }

  /** One round of the shift loop: the next entry moves back, unless it is at home or
      there is none. */
  ghost function ShiftRound(b: Table, q: nat): Table
    requires q < |b|
  {
    var next := b[Next(q, |b|)];
    if next.dib <= 1 then Emptied(b, q) else b[q := next.(dib := next.dib - 1)]
  }

  lemma GoOnClosing(b: Table, pos: map<int, nat>, hashOf: int -> nat, q: nat, d: nat, a: nat, items: map<int, int>)
    requires Closing(b, pos, hashOf, q, d, a, items) && b[Next(q, |b|)].dib > 1
    ensures var i := Next(q, |b|);
            Closing(ShiftRound(b, q), pos[b[i].key := q], hashOf, i, b[i].dib, a, items) &&
            b[i].key in pos && Dist(Next(i, |b|), a, |b|) < Dist(i, a, |b|)
  {
    ShiftGap(b, pos, hashOf, q, d);
    var i := Next(q, |b|);
    assert Emptied(b, q)[i] == b[i];
  }

  lemma FinishClosing(b: Table, pos: map<int, nat>, hashOf: int -> nat, q: nat, d: nat, a: nat, items: map<int, int>)
    requires Closing(b, pos, hashOf, q, d, a, items) && b[Next(q, |b|)].dib <= 1
    ensures Closed(ShiftRound(b, q), pos, hashOf, items)
  {
    CloseGap(b, pos, hashOf, q, d);
    assert Emptied(b, q)[q].dib <= 1;
  }

  lemma ShiftKeeps(b: Table, pos: map<int, nat>, hashOf: int -> nat, q: nat, d: nat, a: nat, items: map<int, int>)
    returns (pos': map<int, nat>, d': nat)
    requires Closing(b, pos, hashOf, q, d, a, items)
    ensures var i, b' := Next(q, |b|), ShiftRound(b, q);
            |pos'| == |pos| &&
            if b[i].dib <= 1 then Closed(b', pos', hashOf, items)
            else Closing(b', pos', hashOf, i, d', a, items) && Dist(Next(i, |b|), a, |b|) < Dist(i, a, |b|)
  {
    var i := Next(q, |b|);
    if b[i].dib <= 1 {
      FinishClosing(b, pos, hashOf, q, d, a, items);
      pos', d' := pos, d;
    } else {
      GoOnClosing(b, pos, hashOf, q, d, a, items);
      pos', d' := pos[b[i].key := q], b[i].dib;
      assert pos'.Keys == pos.Keys;
    }
  }
}
