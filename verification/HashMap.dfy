/**
  The hash map of utils/hashmap.c: a finite map kept in a Robin Hood table.
 */
module HashMap {
  import opened Options
  import opened RobinHood
  import opened Bits

  // ---------- sizes ----------

  lemma Powers(n: nat)
    requires n in {16, 32, 64, 128, 256, 512, 1024, 2048, 4096, 8192, 16384, 32768}
    ensures PowerOfTwo(n)
  {
    assert PowerOfTwo(8) && PowerOfTwo(16) && PowerOfTwo(32) && PowerOfTwo(64) && PowerOfTwo(128);
    assert PowerOfTwo(256) && PowerOfTwo(512) && PowerOfTwo(1024) && PowerOfTwo(2048);
    assert PowerOfTwo(4096) && PowerOfTwo(8192) && PowerOfTwo(16384) && PowerOfTwo(32768);
  }

  // ---------- fixed point: 24.8 bits, results cut to 32 bits ----------

  function Wrap32(x: int): int {
    (x + 0x8000_0000) % 0x1_0000_0000 - 0x8000_0000
  }

  function FromInt(i: int): int {
    i * 256
  }

  function ToInt(f: int): int {
    f / 256
  }

  function XMul(a: int, b: int): int {
    Wrap32(a * b / 256)
  }

  function XDiv(a: int, b: int): int
    requires b > 0
  {
    Wrap32(a * 256 / b)
  }

  function Percent(p: int): int {
    XDiv(FromInt(p), FromInt(100))
  }

  function ClampLoadFactor(f: int): int {
    if f < Percent(50) then Percent(50) else if f > Percent(95) then Percent(95) else f
  }

  /** The load factor that hashmap_new stores in its 8-bit field. */
  function LoadFactor(): int {
    XMul(ClampLoadFactor(Percent(60)), FromInt(100)) % 256
  }

  function GrowAt(n: nat): int {
    ToInt(XMul(FromInt(n), XDiv(FromInt(LoadFactor()), FromInt(100))))
  }

  function ShrinkAt(n: nat): int {
    XMul(n, Percent(10))
  }

  const MAX_BUCKETS := 0x8000

  lemma Thresholds(n: nat)
    requires 16 <= n <= MAX_BUCKETS
    ensures LoadFactor() == 196
    ensures GrowAt(n) == n * 501 / 256 && n < GrowAt(n)
    ensures ShrinkAt(n) == n * 25 / 256 && 0 <= ShrinkAt(n) < n / 2
  {
    hide XDiv, XMul, Percent, LoadFactor, FromInt, ToInt;
    StoredFactor();
    Scaled(n);
  }

  lemma StoredFactor()
    ensures LoadFactor() == 196 && XDiv(FromInt(196), FromInt(100)) == 501 && Percent(10) == 25
  {
    assert Percent(60) == 153 && Percent(50) == 128 && Percent(95) == 243;
    assert XMul(153, 25600) == 15300;
  }

  lemma Scaled(n: nat)
    requires 16 <= n <= MAX_BUCKETS
    ensures ToInt(XMul(FromInt(n), 501)) == n * 501 / 256 && XMul(n, 25) == n * 25 / 256
  {
    assert FromInt(n) * 501 / 256 == n * 501;
    assert ToInt(n * 501) == n * 501 / 256;
  }

  /** The thresholds that hashmap_clear sets. */
  lemma ClearThresholds(n: nat)
    requires 16 <= n <= MAX_BUCKETS
    ensures n * (LoadFactor() / 100) == n && 0 <= ToInt(XMul(n, Percent(10))) <= n / 2
  {
    hide XMul, Percent, GrowAt, LoadFactor;
    Thresholds(n);
    assert XMul(n, Percent(10)) == ShrinkAt(n);
  }

  // ---------- the map ----------

  const HASH_LIMIT := 0x1_0000_0000_0000

  function ClipHash(hash: nat): nat {
    hash % HASH_LIMIT
  }

  ghost function Lookup(m: map<int, int>, key: int): Option<int> {
    if key in m then Some(m[key]) else None
  }

  method Zeroed(n: nat) returns (a: array<Bucket>)
    ensures fresh(a) && a.Length == n && forall i :: 0 <= i < n ==> a[i].dib == 0
  {
    a := new Bucket[n](_ => Bucket(0, 0, 0, 0));
  }

  /** The first n buckets of a block. An array here is as long as the part of the block in
      use, so that it is another one when less of the block is used. */
  method FirstOf(a: array<Bucket>, n: nat) returns (b: array<Bucket>)
    requires n <= a.Length
    ensures fresh(b) && b[..] == a[..n]
  {
    b := new Bucket[n](i requires 0 <= i < n && n <= a.Length reads a => a[i]);
  }

  method ZeroAll(a: array<Bucket>)
    modifies a
    ensures forall i :: 0 <= i < a.Length ==> a[i].dib == 0
  {
    for n := 0 to a.Length
      invariant forall i :: 0 <= i < n ==> a[i].dib == 0
    {
      a[n] := Bucket(0, 0, 0, 0);
    }
  }

  lemma HalfIsPower(cap: nat, n: nat)
    requires PowerOfTwo(cap) && PowerOfTwo(n) && 16 <= cap < n
    ensures PowerOfTwo(n / 2) && cap <= n / 2
  {
    if n / 2 < cap {
      SamePower(cap, n);
    }
  }

  class Map {
    /** The clipped hash of each key: items that compare equal hash equally. */
    const hashOf: int -> nat
    var buckets: array<Bucket>
    var count: nat
    var cap: nat
    var growat: nat
    var shrinkat: nat
    var growpower: nat
    var oom: bool
    ghost var pos: map<int, nat>

    /** The table, without the counters. */
    ghost predicate Rough()
      reads this`buckets, this`pos, buckets
    {
      16 <= buckets.Length <= MAX_BUCKETS && PowerOfTwo(buckets.Length) &&
      Sound(buckets[..], pos, hashOf) && Anchored(buckets[..])
    }

    /** All but that there are at least as many buckets as the capacity. */
    ghost predicate Ready()
      reads this, buckets
    {
      Rough() && count == |pos| && shrinkat <= buckets.Length / 2 && 1 <= growpower <= 16 &&
      16 <= cap <= MAX_BUCKETS && PowerOfTwo(cap)
    }

    ghost predicate Valid()
      reads this, buckets
    {
      Ready() && cap <= buckets.Length
    }

    ghost function Items(): map<int, int>
      requires Rough()
      reads this`buckets, this`pos, buckets
    {
      Contents(buckets[..], pos)
    }

    /** hashmap_new: an empty table of the least power of two, at least 16, that is
        not below cap. */
    constructor (cap: nat, hashOf: int -> nat)
      requires cap <= MAX_BUCKETS
      ensures Valid() && Items() == map[] && fresh(buckets) && this.hashOf == hashOf
      ensures cap <= buckets.Length == this.cap && (cap <= 16 ==> buckets.Length == 16)
      ensures cap > 16 ==> buckets.Length < 2 * cap
      ensures growat == GrowAt(buckets.Length) && shrinkat == ShrinkAt(buckets.Length) && !oom && growpower == 1
    {
      var ncap := 16;
      while ncap < cap
        invariant ncap in {16, 32, 64, 128, 256, 512, 1024, 2048, 4096, 8192, 16384, 32768}
        invariant cap <= 16 ==> ncap == 16
        invariant cap > 16 ==> ncap < 2 * cap
        decreases MAX_BUCKETS - ncap
      {
        ncap := 2 * ncap;
      }
      Thresholds(ncap);
      Powers(ncap);
      this.hashOf := hashOf;
      this.cap, count, growpower, oom := ncap, 0, 1, false;
      growat, shrinkat := GrowAt(ncap), ShrinkAt(ncap);
      pos := map[];
      var zeroed := Zeroed(ncap);
      buckets := zeroed;
      EmptyTable(zeroed[..], hashOf);
    }

    /** hash & mask. */
    function Slot(hash: nat): (i: nat)
      requires 16 <= buckets.Length && PowerOfTwo(buckets.Length)
      reads this`buckets
      ensures i < buckets.Length && i == Home(hash, buckets.Length)
    {
      MaskIsMod(hash, buckets.Length);
      BitAnd(hash, buckets.Length - 1)
    }

    /** hashmap_get_with_hash.  With a full table the key must be there: the probe
        only stops at an empty bucket or a match. */
    method GetWithHash(key: int, hash: nat) returns (r: Option<int>)
      requires Valid() && ClipHash(hash) == hashOf(key)
      requires count < buckets.Length || key in Items()
      ensures r == Lookup(Items(), key)
    {
      var i := FindBucket(key, ClipHash(hash));
      if buckets[i].dib == 0 {
        return None;
      }
      return Some(buckets[i].val);
    }

    /** The probe loop that get and delete share: to the key's bucket, or to an empty
        one. */
    method FindBucket(key: int, hash: nat) returns (i: nat)
      requires Valid() && hash == hashOf(key)
      requires count < buckets.Length || key in Items()
      ensures i < buckets.Length
      ensures key in Items() ==> buckets[i].dib > 0 && pos[key] == i
      ensures key !in Items() ==> buckets[i].dib == 0
    {
      ghost var b: Table := buckets[..];
      ghost var home := Home(hash, |b|);
      ghost var target;
      if key in pos {
        target := pos[key];
      } else {
        FitsIn(b, pos);
        target :| 0 <= target < |b| && b[target].dib == 0;
      }
      i := Slot(hash);
      while true
        invariant i < buckets.Length
        invariant key in pos ==> Dist(home, i, |b|) <= Dist(home, target, |b|)
        decreases Dist(i, target, |b|)
      {
        if key in pos {
          Reach(b, target, i);
        }
        if buckets[i].dib == 0 {
          return;
        }
        if buckets[i].hash == hash && buckets[i].key == key {
          return;
        }
        i := Next(i, buckets.Length);
      }
    }

    /** The loop of hashmap_set_with_hash: a run of SetRound. */
    method Store(key: int, val: int, hash: nat) returns (was: Option<int>)
      requires Valid() && hash == hashOf(key)
      requires count < buckets.Length || key in Items()
      modifies this`count, this`pos, buckets
      ensures Valid() && Items() == old(Items())[key := val]
      ensures was == Lookup(old(Items()), key)
      ensures LeadsTo(Looking(old(buckets[..]), Bucket(hash, 1, key, val), Home(hash, buckets.Length)),
                      Stored(buckets[..], was))
    {
      var i := Slot(hash);
      var e := Bucket(hash, 1, key, val);
      ghost var g := Aim(key, val, e);
      was := Settle(e, i, g);
      if was.None? {
        count := count + 1;
      }
    }

    method Settle(e0: Bucket, i0: nat, ghost g: Goal) returns (was: Option<int>)
      requires buckets.Length > 0 && Going(Looking(buckets[..], e0, i0), pos, hashOf, g)
      modifies this`pos, buckets
      ensures Gone(Stored(buckets[..], was), pos, hashOf, g)
      ensures |pos| == |old(pos)| + (if g.present then 0 else 1)
      ensures LeadsTo(Looking(old(buckets[..]), e0, i0), Stored(buckets[..], was))
    {
      var done, e := false, e0;
      var i: nat := i0;
      was := None;
      ghost var start := Looking(buckets[..], e0, i0);
      ghost var s := start;
      LeadsToSelf(start);
      while !done
        invariant s == Probing(done, e, i, was)
        invariant OnCourse(s, pos, hashOf, g) && LeadsTo(start, s)
        invariant |pos| == |old(pos)| + (if done && !g.present then 1 else 0)
        decreases Left(s, g)
      {
        LeadsToNext(start, s);
        pos := RoundKeeps(s, pos, hashOf, g);
        done, e, i, was := SetOnce(e, i);
        s := SetRound(s);
      }
    }

    ghost function Probing(done: bool, e: Bucket, i: nat, was: Option<int>): Probe
      requires buckets.Length > 0
      reads this`buckets, buckets
    {
      if done then Stored(buckets[..], was) else Looking(buckets[..], e, i)
    }

    /** One round of the loop in hashmap_set_with_hash. */
    method SetOnce(e: Bucket, i: nat) returns (done: bool, e': Bucket, i': nat, was: Option<int>)
      requires i < buckets.Length
      modifies buckets
      ensures Probing(done, e', i', was) == SetRound(Looking(old(buckets[..]), e, i))
    {
      done, e', i', was := true, e, i, None;
      var cur := buckets[i];
      if cur.dib == 0 {
        buckets[i] := e;
        return;
      }
      if e.hash == cur.hash && e.key == cur.key {
        buckets[i] := cur.(val := e.val);
        was := Some(cur.val);
        return;
      }
      if cur.dib < e.dib {
        buckets[i] := e;
        e' := cur;
      }
      i' := Next(i, buckets.Length);
      e' := e'.(dib := (e'.dib + 1) % DIB_LIMIT);
      done := false;
    }

    lemma Aim(key: int, val: int, e: Bucket) returns (g: Goal)
      requires Valid() && (count < buckets.Length || key in Items())
      requires e == Bucket(hashOf(key), 1, key, val)
      ensures g.total == Items()[key := val] && g.was == Lookup(Items(), key)
      ensures Going(Looking(buckets[..], e, Home(e.hash, buckets.Length)), pos, hashOf, g)
    {
      var t := Target(key);
      g := Goal(key in pos, t, Items()[key := val], Lookup(Items(), key));
    }

    /** Where the probe for a key will end at the latest. */
    lemma Target(key: int) returns (t: nat)
      requires Valid() && (count < buckets.Length || key in Items())
      ensures t < buckets.Length
      ensures if key in pos then t == pos[key] else buckets[t].dib == 0
    {
      FitsIn(buckets[..], pos);
      if key in pos {
        t := pos[key];
      } else {
        t :| 0 <= t < buckets.Length && buckets[..][t].dib == 0;
      }
    }

    // ---------- rehashing ----------

    /** One round of the loop in resize0, which compares no keys. */
    method RehashOnce(e: Bucket, i: nat) returns (done: bool, e': Bucket, i': nat)
      requires i < buckets.Length && (buckets[i].dib == 0 || buckets[i].key != e.key)
      modifies buckets
      ensures Probing(done, e', i', None) == SetRound(Looking(old(buckets[..]), e, i))
    {
      done, e', i' := true, e, i;
      var cur := buckets[i];
      if cur.dib == 0 {
        buckets[i] := e;
        return;
      }
      if cur.dib < e.dib {
        buckets[i] := e;
        e' := cur;
      }
      i' := Next(i, buckets.Length);
      e' := e'.(dib := (e'.dib + 1) % DIB_LIMIT);
      done := false;
    }

    /** Takes an entry of another table over into this one. */
    method Adopt(entry: Bucket)
      requires Rough() && |pos| < buckets.Length
      requires entry.key !in Items() && entry.hash == hashOf(entry.key)
      modifies this`pos, buckets
      ensures Rough() && |pos| == |old(pos)| + 1
      ensures Items() == old(Items())[entry.key := entry.val]
    {
      var e := entry.(dib := 1);
      ghost var g := AimFresh(e);
      Reinsert(e, Slot(e.hash), g);
    }

    method Reinsert(e0: Bucket, i0: nat, ghost g: Goal)
      requires buckets.Length > 0 && Going(Looking(buckets[..], e0, i0), pos, hashOf, g) && !g.present
      modifies this`pos, buckets
      ensures Gone(Stored(buckets[..], None), pos, hashOf, g) && |pos| == |old(pos)| + 1
    {
      var done, e := false, e0;
      var i: nat := i0;
      ghost var s := Looking(buckets[..], e0, i0);
      while !done
        invariant s == Probing(done, e, i, None)
        invariant OnCourse(s, pos, hashOf, g)
        invariant |pos| == |old(pos)| + (if done then 1 else 0)
        decreases Left(s, g)
      {
        NoMatch(s, pos, hashOf, g);
        pos := RoundKeeps(s, pos, hashOf, g);
        done, e, i := RehashOnce(e, i);
        s := SetRound(s);
      }
    }

    lemma AimFresh(e: Bucket) returns (g: Goal)
      requires Rough() && |pos| < buckets.Length
      requires e.dib == 1 && e.hash == hashOf(e.key) && e.key !in pos
      ensures !g.present && g.total == Items()[e.key := e.val] && g.was == None
      ensures Going(Looking(buckets[..], e, Home(e.hash, buckets.Length)), pos, hashOf, g)
    {
      FitsIn(buckets[..], pos);
      var t :| 0 <= t < buckets.Length && buckets[..][t].dib == 0;
      g := Goal(false, t, Items()[e.key := e.val], None);
    }

    /** resize0 to any capacity with room for all items. */
    method Resize(newCap: nat, mallocFails: bool) returns (ok: bool)
      requires Valid() && count <= newCap <= MAX_BUCKETS
      modifies this`buckets, this`growat, this`shrinkat, this`pos
      ensures Ready() && ok == !mallocFails && Items() == old(Items()) && fresh(buckets) == ok
      ensures !ok ==> buckets == old(buckets) && pos == old(pos) && growat == old(growat) && shrinkat == old(shrinkat)
      ensures ok ==> newCap <= buckets.Length && growat == GrowAt(buckets.Length) && shrinkat == ShrinkAt(buckets.Length)
      ensures ok ==> if newCap <= 16 then buckets.Length == 16 else buckets.Length < 2 * newCap
    {
      if mallocFails {
        return false;
      }
      var map2 := new Map(newCap, hashOf);
      CarryOver(map2, buckets[..]);
      TakeOver(map2);
      ok := true;
    }

    method TakeOver(map2: Map)
      requires map2 != this && map2.Rough() && map2.hashOf == hashOf
      modifies this`buckets, this`growat, this`shrinkat, this`pos
      ensures Rough() && pos == map2.pos && Items() == map2.Items() && buckets == map2.buckets
      ensures growat == map2.growat && shrinkat == map2.shrinkat
    {
      buckets, pos := map2.buckets, map2.pos;
      growat, shrinkat := map2.growat, map2.shrinkat;
    }

    /** The loop of resize0 over the old buckets. */
    method CarryOver(map2: Map, ghost b: Table)
      requires buckets[..] == b && Indexed(b, pos) && Hashed(b, hashOf) && |pos| <= map2.buckets.Length
      requires map2.buckets != buckets && map2 != this && map2.hashOf == hashOf
      requires map2.Rough() && map2.pos == map[]
      modifies map2`pos, map2.buckets
      ensures map2.Rough() && |map2.pos| == |pos| && map2.Items() == Contents(b, pos)
    {
      hide Map.CarriedTo;
      CarryBegins(map2, b);
      for i := 0 to buckets.Length
        invariant CarriedTo(map2, b, i)
      {
        CarryBucket(map2, b, i);
      }
      CarryEnds(map2, b);
    }

    ghost predicate CarriedTo(map2: Map, b: Table, i: nat)
      reads this`pos, map2, map2.buckets
    {
      Indexed(b, pos) && i <= |b| && map2.Rough() && |map2.pos| == Used(b, i) && Carried(map2.Items(), b, pos, i)
    }

    lemma CarryBegins(map2: Map, b: Table)
      requires Indexed(b, pos) && map2.Rough() && map2.pos == map[]
      ensures CarriedTo(map2, b, 0)
    {
      hide Sound, Anchored, PowerOfTwo;
      assert map2.Items() == map[];
    }

    lemma CarryEnds(map2: Map, b: Table)
      requires CarriedTo(map2, b, |b|)
      ensures map2.Rough() && |map2.pos| == |pos| && Indexed(b, pos) && map2.Items() == Contents(b, pos)
    {
      hide Sound, Anchored, PowerOfTwo;
      UsedIsCount(b, pos);
      CarriedAll(map2.Items(), b, pos);
    }

    method CarryBucket(map2: Map, ghost b: Table, i: nat)
      requires buckets[..] == b && Indexed(b, pos) && Hashed(b, hashOf) && i < |b| && |pos| <= map2.buckets.Length
      requires map2.buckets != buckets && map2 != this && map2.hashOf == hashOf && CarriedTo(map2, b, i)
      modifies map2`pos, map2.buckets
      ensures CarriedTo(map2, b, i + 1)
    {
      hide Sound, Anchored, PowerOfTwo, Carried;
      UsedIsCount(b, pos);
      if buckets[i].dib != 0 {
        UsedMonotone(b, i + 1, |b|);
        CarryOne(map2.Items(), b, pos, i);
        map2.Adopt(buckets[i]);
      } else {
        CarryNone(map2.Items(), b, pos, i);
      }
    }

    // ---------- set and delete ----------

    /** hashmap_set_with_hash.  Unless the growth check fires, the table must have an
        empty bucket or hold the key already; see SetEndsIff. */
    method SetWithHash(key: int, val: int, hash: nat, mallocFails: bool) returns (was: Option<int>)
      requires Valid() && ClipHash(hash) == hashOf(key)
      requires count < growat ==> count < buckets.Length || key in Items()
      requires count >= growat ==> buckets.Length * Pow2(growpower) <= MAX_BUCKETS
      modifies this, buckets
      ensures Valid() && oom == (old(count >= growat) && mallocFails)
      ensures oom ==> was == None && Items() == old(Items())
      ensures !oom ==> was == Lookup(old(Items()), key) && Items() == old(Items())[key := val]
      ensures cap == old(cap) && growpower == old(growpower)
      ensures if old(count >= growat) && !oom
              then fresh(buckets) && buckets.Length == old(buckets.Length) * Pow2(growpower) &&
                   growat == GrowAt(buckets.Length) && shrinkat == ShrinkAt(buckets.Length)
              else buckets == old(buckets) && growat == old(growat) && shrinkat == old(shrinkat)
    {
      hide Sound, Anchored, PowerOfTwo, GrowAt, ShrinkAt;
      oom := false;
      if count >= growat {
        var ok := Grow(mallocFails);
        if !ok {
          oom := true;
          return None;
        }
      }
      was := Store(key, val, ClipHash(hash));
    }

    method Grow(mallocFails: bool) returns (ok: bool)
      requires Valid() && buckets.Length * Pow2(growpower) <= MAX_BUCKETS
      modifies this`buckets, this`growat, this`shrinkat, this`pos
      ensures Valid() && ok == !mallocFails && Items() == old(Items())
      ensures if ok
              then fresh(buckets) && count < buckets.Length == old(buckets.Length) * Pow2(growpower) &&
                   growat == GrowAt(buckets.Length) && shrinkat == ShrinkAt(buckets.Length)
              else buckets == old(buckets) && pos == old(pos) && growat == old(growat) && shrinkat == old(shrinkat)
    {
      FitsIn(buckets[..], pos);
      PowerTimes(buckets.Length, growpower);
      ghost var n := buckets.Length * Pow2(growpower);
      ok := Resize(buckets.Length * Pow2(growpower), mallocFails);
      if ok {
        SamePower(n, buckets.Length);
      }
    }

    /** hashmap_delete_with_hash. */
    method DeleteWithHash(key: int, hash: nat, mallocFails: bool) returns (was: Option<int>)
      requires Valid() && ClipHash(hash) == hashOf(key)
      requires count < buckets.Length || key in Items()
      modifies this, buckets
      ensures Valid() && !oom && was == Lookup(old(Items()), key) && Items() == old(Items()) - {key}
      ensures cap == old(cap) && growpower == old(growpower)
      ensures if was.Some? && old(buckets.Length) > cap && count <= old(shrinkat) && !mallocFails
              then fresh(buckets) && buckets.Length == old(buckets.Length) / 2 &&
                   growat == GrowAt(buckets.Length) && shrinkat == ShrinkAt(buckets.Length)
              else buckets == old(buckets) && growat == old(growat) && shrinkat == old(shrinkat)
    {
      hide Sound, Anchored, PowerOfTwo, GrowAt, ShrinkAt;
      oom := false;
      was := TakeOut(key, ClipHash(hash));
      if was.Some? {
        MaybeShrink(mallocFails);
      }
    }

    method TakeOut(key: int, hash: nat) returns (was: Option<int>)
      requires Valid() && hash == hashOf(key) && (count < buckets.Length || key in Items())
      modifies this`count, this`pos, buckets
      ensures Valid() && was == Lookup(old(Items()), key) && Items() == old(Items()) - {key}
    {
      var i := FindBucket(key, hash);
      if buckets[i].dib == 0 {
        return None;
      }
      was := Some(buckets[i].val);
      CloseUp(i);
      count := count - 1;
    }

    method MaybeShrink(mallocFails: bool)
      requires Valid()
      modifies this`buckets, this`growat, this`shrinkat, this`pos
      ensures Valid() && Items() == old(Items())
      ensures if old(buckets.Length > cap && count <= shrinkat) && !mallocFails
              then fresh(buckets) && buckets.Length == old(buckets.Length) / 2 &&
                   growat == GrowAt(buckets.Length) && shrinkat == ShrinkAt(buckets.Length)
              else buckets == old(buckets) && pos == old(pos) && growat == old(growat) && shrinkat == old(shrinkat)
    {
      if buckets.Length > cap && count <= shrinkat {
        HalfIsPower(cap, buckets.Length);
        ghost var n := buckets.Length / 2;
        var ok := Resize(buckets.Length / 2, mallocFails);
        if ok {
          SamePower(n, buckets.Length);
        }
      }
    }

    /** The shift loop of hashmap_delete_with_hash. */
    method CloseUp(p: nat)
      requires Rough() && p < buckets.Length && buckets[p].dib > 0
      modifies this`pos, buckets
      ensures Rough() && |pos| == |old(pos)| - 1
      ensures Items() == old(Items() - {buckets[p].key})
    {
      ghost var items, d := Items() - {buckets[p].key}, buckets[p].dib;
      ghost var a := StartClosing(buckets[..], pos, hashOf, p);
      pos := pos - {buckets[p].key};
      buckets[p] := buckets[p].(dib := 0);
      Shift(p, d, a, items);
    }

    method Shift(p: nat, ghost d: nat, ghost a: nat, ghost items: map<int, int>)
      requires buckets.Length > 0 && Closing(buckets[..], pos, hashOf, p, d, a, items)
      modifies this`pos, buckets
      ensures Closed(buckets[..], pos, hashOf, items) && |pos| == |old(pos)|
    {
      var prev: nat, done := p, false;
      ghost var d := d;
      while !done
        invariant if done then Closed(buckets[..], pos, hashOf, items)
                  else Closing(buckets[..], pos, hashOf, prev, d, a, items)
        invariant |pos| == |old(pos)|
        decreases !done, if !done then Dist(Next(prev, buckets.Length), a, buckets.Length) else 0
      {
        pos, d := ShiftKeeps(buckets[..], pos, hashOf, prev, d, a, items);
        done, prev := ShiftOnce(prev);
      }
    }

    /** One round of the shift loop. */
    method ShiftOnce(prev: nat) returns (done: bool, i: nat)
      requires prev < buckets.Length
      modifies buckets
      ensures i == Next(prev, buckets.Length) && done == (old(buckets[..])[i].dib <= 1)
      ensures buckets[..] == ShiftRound(old(buckets[..]), prev)
    {
      i := Next(prev, buckets.Length);
      var bucket := buckets[i];
      done := bucket.dib <= 1;
      if done {
        buckets[prev] := buckets[prev].(dib := 0);
        return;
      }
      buckets[prev] := bucket;
      buckets[prev] := buckets[prev].(dib := buckets[prev].dib - 1);
    }

    /** hashmap_clear.  Afterwards growth sets in exactly when the table is full, and there
        are cap buckets: those of a new table, or, when there is no memory for one, the first
        cap of the old, which has no fewer. */
    method Clear(updateCap: bool, mallocFails: bool)
      requires Valid()
      modifies this`buckets, this`pos, this`count, this`cap, this`growat, this`shrinkat, buckets
      ensures Valid() && Items() == map[] && count == 0 && growat == buckets.Length
      ensures cap == buckets.Length == if updateCap then old(buckets.Length) else old(cap)
      ensures cap <= old(buckets.Length)
      ensures if updateCap || old(buckets.Length == cap) then buckets == old(buckets) else fresh(buckets)
    {
      hide Sound, Anchored, PowerOfTwo, LoadFactor, ToInt, XMul, Percent;
      if updateCap {
        cap := buckets.Length;
      } else if buckets.Length != cap {
        if mallocFails {
          buckets := FirstOf(buckets, cap);
        } else {
          buckets := Zeroed(cap);
        }
      }
      ClearThresholds(cap);
      count, pos := 0, map[];
      ZeroAll(buckets);
      EmptyTable(buckets[..], hashOf);
      growat := buckets.Length * (LoadFactor() / 100);
      shrinkat := ToInt(XMul(buckets.Length, Percent(10)));
    }

    /** hashmap_iter: on from bucket i to the next item. */
    method Iter(i: nat) returns (found: bool, i': nat, key: int, val: int)
      requires buckets.Length > 0 && i <= buckets.Length
      ensures i <= i' <= buckets.Length && Used(buckets[..], i') == Used(buckets[..], i) + (if found then 1 else 0)
      ensures found ==>
                i < i' && buckets[i' - 1].dib > 0 && key == buckets[i' - 1].key && val == buckets[i' - 1].val
      ensures !found ==> i' == buckets.Length
    {
      i', found, key, val := i, false, 0, 0;
      while i' < buckets.Length
        invariant i <= i' <= buckets.Length && !found && Used(buckets[..], i') == Used(buckets[..], i)
      {
        var bucket := buckets[i'];
        i' := i' + 1;
        if bucket.dib != 0 {
          return true, i', bucket.key, bucket.val;
        }
      }
    }

    /** A whole iteration yields every item exactly once. */
    method IterAll() returns (keys: seq<int>, vals: seq<int>)
      requires Valid()
      ensures |keys| == |vals| == |Items()|
      ensures forall i, j :: 0 <= i < j < |keys| ==> keys[i] != keys[j]
      ensures forall j :: 0 <= j < |keys| ==> keys[j] in Items() && Items()[keys[j]] == vals[j]
    {
      keys, vals := [], [];
      var i, more := 0, true;
      ghost var b: Table := buckets[..];
      UsedIsCount(b, pos);
      while more
        invariant i <= buckets.Length && |keys| == |vals| == Used(b, i) && (!more ==> i == buckets.Length)
        invariant forall j :: 0 <= j < |keys| ==> keys[j] in pos && pos[keys[j]] < i && b[pos[keys[j]]].val == vals[j]
        invariant forall h, j :: 0 <= h < j < |keys| ==> keys[h] != keys[j]
        decreases more, buckets.Length - i
      {
        var key, val;
        ghost var from := i;
        more, i, key, val := Iter(i);
        if more {
          assert pos[key] == i - 1 >= from;
          keys, vals := keys + [key], vals + [val];
        }
      }
      assert Items().Keys == pos.Keys;
    }
  }

  // ---------- when hashmap_set returns ----------

  /** In a table made by hashmap_new or resize0 the growth check never fires, because
      the stored load factor is 196; a set then returns if and only if the table has an
      empty bucket or holds the key. */
  lemma DefaultSetReturnsIff(b: Table, pos: map<int, nat>, hashOf: int -> nat, key: int, val: int)
    requires Sound(b, pos, hashOf) && Anchored(b) && 16 <= |b| <= MAX_BUCKETS
    ensures |pos| < GrowAt(|b|)
    ensures Ends(Looking(b, Bucket(hashOf(key), 1, key, val), Home(hashOf(key), |b|))) <==>
            |pos| < |b| || key in pos
  {
    Thresholds(|b|);
    FitsIn(b, pos);
    SetEndsIff(b, pos, hashOf, key, val);
  }

  function Identity(k: int): nat {
    if k < 0 then 0 else k
  }

  /** A table with key i at home in bucket i, for all its n buckets. */
  ghost function Filled(n: nat): Table
    requires n > 0
  {
    seq(n, i requires 0 <= i < n => Bucket(i, 1, i, 0))
  }

  ghost function UpTo(n: nat): (m: map<int, nat>)
    ensures forall k :: k in m <==> 0 <= k < n
    ensures forall k :: k in m ==> m[k] == k
    ensures |m| == n
  {
    if n == 0 then map[] else UpTo(n - 1)[n - 1 := n - 1]
  }

  /** In a map of n buckets holding the keys 0 to n - 1 the growth check does not fire
      and setting key n does not return. */
  lemma FullTableHangs(n: nat)
    requires 16 <= n <= MAX_BUCKETS
    ensures Sound(Filled(n), UpTo(n), Identity) && |UpTo(n)| < GrowAt(n)
    ensures !Ends(Looking(Filled(n), Bucket(n, 1, n, 0), 0))
  {
    FilledSound(n);
    DefaultSetReturnsIff(Filled(n), UpTo(n), Identity, n, 0);
    assert n % n == 0;
  }

  lemma FilledSound(n: nat)
    requires n > 0
    ensures Sound(Filled(n), UpTo(n), Identity) && Anchored(Filled(n))
  {
    var b := Filled(n);
    forall i | 0 <= i < n
      ensures Placed(b[i], i, n)
    {
      ModUnique(i, n, 0, i);
    }
    assert Indexed(b, UpTo(n));
    assert b[0].dib <= 1;
  }

  /** The map holds the keys 0 to k - 1, and its growth check is that of 16 buckets. */
  ghost predicate Holds(m: Map, k: nat)
    reads m, m.buckets
  {
    m.Valid() && m.hashOf == Identity && m.buckets.Length == 16 && m.growat == GrowAt(16) && m.Items().Keys == UpTo(k).Keys
  }

  method SetNext(m: Map, k: nat)
    requires Holds(m, k) && k < 16
    modifies m, m.buckets
    ensures Holds(m, k + 1) && m.buckets == old(m.buckets)
  {
    hide Holds;
    Below16(m, k);
    var _ := m.SetWithHash(k, 0, k, false);
    One16(m, k);
  }

  lemma Below16(m: Map, k: nat)
    requires Holds(m, k) && k < 16
    ensures m.Valid() && ClipHash(k) == m.hashOf(k) && m.count < m.growat && m.count < m.buckets.Length == 16
    ensures m.Items().Keys == UpTo(k).Keys && m.hashOf == Identity && m.growat == GrowAt(16)
  {
    hide Sound, Anchored, PowerOfTwo, GrowAt, ShrinkAt, ClipHash, Identity, LoadFactor, Contents;
    Thresholds(16);
    Clip16(k);
    CountOf(m, k);
  }

  lemma Clip16(k: nat)
    requires k < 16
    ensures ClipHash(k) == Identity(k) == k
  {
  }

  lemma One16(m: Map, k: nat)
    requires m.Valid() && m.hashOf == Identity && m.buckets.Length == 16 && m.growat == GrowAt(16)
    requires m.Items().Keys == UpTo(k).Keys + {k}
    ensures Holds(m, k + 1)
  {
    hide Sound, Anchored, PowerOfTwo, GrowAt, ShrinkAt;
    assert UpTo(k + 1).Keys == UpTo(k).Keys + {k};
  }

  lemma CountOf(m: Map, k: nat)
    requires Holds(m, k)
    ensures m.count == k && forall x :: x in m.pos <==> 0 <= x < k
  {
    hide Sound, Anchored, PowerOfTwo, GrowAt, ShrinkAt;
    assert m.Items().Keys == m.pos.Keys;
    assert |m.pos.Keys| == |m.pos| && |UpTo(k).Keys| == |UpTo(k)|;
  }

  /** Sixteen sets in a new map lead to such a table: a set of a seventeenth key does not
      return. */
  method SixteenSets() returns (m: Map)
    ensures Holds(m, 16) && m.count == m.buckets.Length && m.count < m.growat
    ensures forall val :: !Ends(Looking(m.buckets[..], Bucket(16, 1, 16, val), Home(16, 16)))
  {
    hide Sound, Anchored, PowerOfTwo, GrowAt, ShrinkAt;
    m := new Map(0, Identity);
    assert Holds(m, 0);
    hide Holds;
    for k := 0 to 16
      invariant Holds(m, k) && fresh(m) && fresh(m.buckets)
    {
      SetNext(m, k);
    }
    Hangs(m);
  }

  lemma Hangs(m: Map)
    requires Holds(m, 16)
    ensures m.count == m.buckets.Length && m.count < m.growat
    ensures forall val :: !Ends(Looking(m.buckets[..], Bucket(16, 1, 16, val), Home(16, 16)))
  {
    hide Ends, GrowAt, PowerOfTwo;
    Thresholds(16);
    CountOf(m, 16);
    forall val ensures !Ends(Looking(m.buckets[..], Bucket(16, 1, 16, val), Home(16, 16))) {
      DefaultSetReturnsIff(m.buckets[..], m.pos, Identity, 16, val);
    }
  }
}
