/**
  Allocate, Reallocate and Free of the kernel heap, and the bytes of the blocks in use.
 */
module Heap {
  import opened Options
  import opened HeapModel

  // ---------- bytes ----------

  type Bytes = map<nat, bv8>

  /** What is known of memory after n bytes from a on were overwritten or given away. */
  function Wipe(m: Bytes, a: nat, n: nat): Bytes {
    map k | k in m && !(a <= k < a + n) :: m[k]
  }

  ghost predicate KeptAt(m: Bytes, m': Bytes, a: nat, n: nat) {
    forall k :: a <= k < a + n ==> (k in m <==> k in m') && (k in m ==> m'[k] == m[k])
  }

  /** Every block in use has the bytes it had. */
  ghost predicate Kept(live: map<nat, nat>, m: Bytes, m': Bytes) {
    forall h :: h in live ==> KeptAt(m, m', h + NODE, live[h])
  }

  lemma WipeKeeps(m: Bytes, a: nat, n: nat, c: nat, cSize: nat)
    requires Apart(a, n, c, cSize)
    ensures KeptAt(m, Wipe(m, a, n), c, cSize)
  {
  }

  lemma KeptTrans(live: map<nat, nat>, m: Bytes, m': Bytes, m'': Bytes)
    requires Kept(live, m, m') && Kept(live, m', m'')
    ensures Kept(live, m, m'')
  {
  }

  /** Writing inside a free node touches no block in use. */
  lemma WipeFree(s: State, m: Bytes, f: nat, a: nat, n: nat)
    requires Inv(s) && f in s.nodes && !Allocated(s, f) && f <= a && a + n <= f + NODE + s.nodes[f].size
    ensures Kept(Live(s), m, Wipe(m, a, n))
  {
    hide RegionsApart, OrderOk, RegionOk, NodeOk;
    assert NodesApart(s.nodes);
    forall h | h in Live(s) ensures KeptAt(m, Wipe(m, a, n), h + NODE, Live(s)[h]) {
      assert Apart(h, NODE + s.nodes[h].size, f, NODE + s.nodes[f].size);
      WipeKeeps(m, a, n, h + NODE, s.nodes[h].size);
    }
  }

  lemma WipeBlock(s: State, m: Bytes, b: nat, pages: nat)
    requires Inv(s) && FreshBlock(s, b, pages)
    ensures Kept(Live(s), m, Wipe(m, b, pages * PAGE))
  {
    forall h | h in Live(s) ensures KeptAt(m, Wipe(m, b, pages * PAGE), h + NODE, Live(s)[h]) {
      OutsideBlock(s, b, pages, h);
      WipeKeeps(m, b, pages * PAGE, h + NODE, s.nodes[h].size);
    }
  }

  /** A store to the header of any node touches no block in use, */
  lemma WipeHeader(s: State, m: Bytes, g: nat)
    requires Inv(s) && g in s.nodes
    ensures Kept(Live(s), m, Wipe(m, g, NODE))
  {
    hide RegionsApart, OrderOk, RegionOk, NodeOk;
    assert NodesApart(s.nodes);
    forall h | h in Live(s) ensures KeptAt(m, Wipe(m, g, NODE), h + NODE, Live(s)[h]) {
      assert h != g ==> Apart(h, NODE + s.nodes[h].size, g, NODE + s.nodes[g].size);
      WipeKeeps(m, g, NODE, h + NODE, s.nodes[h].size);
    }
  }

  lemma CoversSize(size: nat)
    ensures size <= PageCount(size) * PAGE
  {
  }

  /** and neither does a store to the header of any region. */
  lemma WipeRegionHeader(s: State, m: Bytes, b: nat)
    requires Inv(s) && b in s.regions
    ensures Kept(Live(s), m, Wipe(m, b, REGION))
  {
    hide PageCount, OrderOk, NodesApart, NoDup;
    assert RegionOk(s, b);
    CoversSize(s.regions[b].size);
    forall h | h in Live(s) ensures KeptAt(m, Wipe(m, b, REGION), h + NODE, Live(s)[h]) {
      assert NodeOk(s, h);
      var c := s.nodes[h].region;
      assert c != b ==> Apart(b, PageCount(s.regions[b].size) * PAGE, c, PageCount(s.regions[c].size) * PAGE);
      WipeKeeps(m, b, REGION, h + NODE, s.nodes[h].size);
    }
  }

  lemma KeptLess(live: map<nat, nat>, live': map<nat, nat>, m: Bytes, m': Bytes)
    requires Kept(live, m, m') && forall h :: h in live' ==> h in live && live'[h] <= live[h]
    ensures Kept(live', m, m')
  {
    forall h | h in live' ensures KeptAt(m, m', h + NODE, live'[h]) {
      assert KeptAt(m, m', h + NODE, live[h]);
    }
  }

  /** The nodes beside place i of a list, and the last one. */
  function Beside(l: seq<nat>, i: nat): seq<nat>
    requires i < |l|
  {
    (if i > 0 then [l[i - 1]] else []) + (if i + 1 < |l| then [l[i + 1]] else [])
  }

  function Last(l: seq<nat>): seq<nat> {
    if l == [] then [] else [l[|l| - 1]]
  }

  lemma ListedNodes(s: State, b: nat)
    requires Inv(s) && b in s.regions
    ensures forall h :: h in s.regions[b].free || h in s.regions[b].inUse ==> h in s.nodes
  {
    assert RegionOk(s, b);
  }

  /** Giving back the pages of a region touches no block of another region. */
  lemma WipeRegion(s: State, m: Bytes, b: nat)
    requires Inv(s) && b in s.regions
    ensures forall h :: h in Live(s) && s.nodes[h].region != b ==>
              KeptAt(m, Wipe(m, b, PageCount(s.regions[b].size) * PAGE), h + NODE, Live(s)[h])
  {
    hide PageCount;
    var n := PageCount(s.regions[b].size) * PAGE;
    forall h | h in Live(s) && s.nodes[h].region != b ensures KeptAt(m, Wipe(m, b, n), h + NODE, Live(s)[h]) {
      assert NodeOk(s, h);
      var c := s.nodes[h].region;
      assert Apart(b, n, c, PageCount(s.regions[c].size) * PAGE);
      WipeKeeps(m, b, n, h + NODE, s.nodes[h].size);
    }
  }

  lemma KeptSame(live: map<nat, nat>, m: Bytes)
    ensures Kept(live, m, m)
  {
  }

  lemma LiveNodes(s: State)
    ensures forall h :: h in Live(s) ==> h in s.nodes
  {
  }

  lemma PositiveNode(s: State, g: nat)
    requires Inv(s) && g in Live(s)
    ensures g > 0 && (g + NODE) % 0x10 == g % 0x10
  {
    hide NodesApart, RegionsApart, OrderOk, PageCount, NoDup;
    assert NodeOk(s, g);
    assert RegionOk(s, s.nodes[g].region);
  }

  lemma OrderedRegion(s: State, i: nat)
    requires Inv(s) && i < |s.order|
    ensures s.order[i] in s.regions
  {
    assert s.order[i] in s.order;
  }

  lemma OrderedRegions(s: State)
    requires Inv(s)
    ensures forall b :: b in s.order ==> b in s.regions
  {
  }

  lemma SixteenLemma(size: nat)
    ensures RoundUp(size, 0x10) % 0x10 == 0 && size <= RoundUp(size, 0x10) < size + 0x10
  {
  }

  lemma HintInside(s: State, b: nat)
    requires Inv(s) && b in s.regions
    ensures s.regions[b].biggest.Some? ==> s.regions[b].biggest.value in s.nodes
  {
    assert RegionOk(s, b);
  }

  lemma InOrder(s: State, b: nat)
    requires Inv(s) && b in s.regions
    ensures b in s.order
  {
  }

  lemma ClosedKept(s: State, t: State, b: nat, h: nat, m: Bytes, m': Bytes)
    requires b in s.regions && s.regions[b].inUse == [h] && Live(t) == Live(s) - {h}
    requires forall x :: x in Live(s) && s.nodes[x].region != b ==> KeptAt(m, m', x + NODE, Live(s)[x])
    ensures Kept(Live(t), m, m')
  {
    forall x | x in Live(t) ensures KeptAt(m, m', x + NODE, Live(t)[x]) {
      assert x in Live(s) && Allocated(s, x);
    }
  }

  /** The n bytes from p on are now at q. */
  ghost predicate Moved(m: Bytes, m': Bytes, p: nat, q: nat, n: nat) {
    forall k :: p <= k < p + n && k in m ==> q + (k - p) in m' && m'[q + (k - p)] == m[k]
  }

  lemma LiveIs(s: State, h: nat)
    requires Allocated(s, h)
    ensures h in Live(s) && Live(s)[h] == s.nodes[h].size
  {
  }

  lemma SixteenSame(size: nat)
    requires size % 0x10 == 0
    ensures RoundUp(size, 0x10) == size
  {
  }

  /** Of any two blocks in use, neither reaches into the other. */
  lemma BlocksApart(s: State, t: State, h: nat, g: nat, size: nat)
    requires Inv(t) && h in Live(s) && g !in Live(s) && Live(t) == Live(s)[g := size] && Live(s)[h] < size
    ensures Allocated(t, h) && t.nodes[h].size == Live(s)[h]
    ensures Apart(g + NODE, Live(s)[h], h + NODE, Live(s)[h])
    ensures forall x :: x in Live(s) ==> Apart(g + NODE, Live(s)[h], x + NODE, Live(s)[x])
  {
    assert NodesApart(t.nodes);
    assert g in Live(t) && Live(t)[g] == size;
    forall x | x in Live(s) ensures Apart(g + NODE, Live(s)[h], x + NODE, Live(s)[x]) {
      assert x in Live(t) && Live(t)[x] == Live(s)[x];
      assert Apart(g, NODE + t.nodes[g].size, x, NODE + t.nodes[x].size);
    }
    assert h in Live(t);
  }

  ghost predicate SameOutside(m: Bytes, m': Bytes, a: nat, n: nat) {
    forall k :: !(a <= k < a + n) ==> (k in m' <==> k in m) && (k in m' ==> m'[k] == m[k])
  }

  lemma KeptOutside(m: Bytes, m1: Bytes, m2: Bytes, a: nat, n: nat, q: nat, qSize: nat)
    requires KeptAt(m, m1, a, n) && SameOutside(m1, m2, q, qSize) && Apart(q, qSize, a, n)
    ensures KeptAt(m, m2, a, n)
  {
  }

  lemma MovedKept(m: Bytes, m1: Bytes, m2: Bytes, p: nat, q: nat, n: nat)
    requires KeptAt(m, m1, p, n) && Moved(m1, m2, p, q, n)
    ensures Moved(m, m2, p, q, n)
  {
  }

  lemma CopyKeeps(s: State, m: Bytes, m1: Bytes, m2: Bytes, p: nat, q: nat, n: nat)
    requires p >= NODE && p - NODE in Live(s) && Live(s)[p - NODE] == n && Kept(Live(s), m, m1)
    requires forall x :: x in Live(s) ==> Apart(q, n, x + NODE, Live(s)[x])
    requires Moved(m1, m2, p, q, n) && SameOutside(m1, m2, q, n)
    ensures Moved(m, m2, p, q, n) && Kept(Live(s), m, m2)
  {
    hide Live, KeptAt, Moved, SameOutside, Apart;
    assert KeptAt(m, m1, p, n);
    MovedKept(m, m1, m2, p, q, n);
    forall h | h in Live(s) ensures KeptAt(m, m2, h + NODE, Live(s)[h]) {
      KeptOutside(m, m1, m2, h + NODE, Live(s)[h], q, n);
    }
  }

  lemma FreeKeeps(s: State, u: State, m: Bytes, m2: Bytes, m3: Bytes, p: nat, q: nat, n: nat, size: nat)
    requires p >= NODE && q >= NODE && p != q && n <= size && q - NODE !in Live(s)
    requires Live(u) == Live(s)[q - NODE := size] - {p - NODE}
    requires Moved(m, m2, p, q, n) && Kept(Live(s), m, m2) && Kept(Live(u), m2, m3)
    ensures Moved(m, m3, p, q, n) && Kept(Live(s) - {p - NODE}, m, m3)
  {
    hide Live, KeptAt, Moved;
    assert q - NODE in Live(u) && Live(u)[q - NODE] == size;
    assert KeptAt(m2, m3, q, size);
    MovedThen(m, m2, m3, p, q, n, size);
    forall h | h in Live(s) - {p - NODE} ensures KeptAt(m, m3, h + NODE, Live(s)[h]) {
      assert h in Live(u) && Live(u)[h] == Live(s)[h];
      KeptAtTrans(m, m2, m3, h + NODE, Live(s)[h]);
    }
  }

  lemma KeptAtTrans(m: Bytes, m2: Bytes, m3: Bytes, a: nat, n: nat)
    requires KeptAt(m, m2, a, n) && KeptAt(m2, m3, a, n)
    ensures KeptAt(m, m3, a, n)
  {
  }

  lemma MovedThen(m: Bytes, m2: Bytes, m3: Bytes, p: nat, q: nat, n: nat, size: nat)
    requires Moved(m, m2, p, q, n) && KeptAt(m2, m3, q, size) && n <= size
    ensures Moved(m, m3, p, q, n)
  {
  }

  lemma LiveSame(s: State, h: nat)
    requires Allocated(s, h)
    ensures Live(s)[h := s.nodes[h].size] == Live(s)
  {
  }

  /** The largest request is a whole number of pages, so rounding up stays below it. */
  lemma TopSize(size: nat)
    requires size <= WORD - 4 * PAGE
    ensures RoundUp(size, 0x10) <= WORD - 4 * PAGE
  {
  }

  // ---------- searches ----------

  predicate Serves(nodes: map<nat, Node>, h: nat, size: nat) {
    h in nodes && (nodes[h].size == size || nodes[h].size >= size + NODE)
  }

  /** The hint of region b says it can serve size bytes. */
  ghost predicate Promises(s: State, b: nat, size: nat) {
    b in s.regions && s.regions[b].free != [] && s.regions[b].biggest.Some? &&
    s.regions[b].biggest.value in s.nodes && s.nodes[s.regions[b].biggest.value].size >= size
  }

  /** Free node i is the first of region b that can serve size bytes. */
  ghost predicate FirstFit(s: State, b: nat, i: nat, size: nat) {
    b in s.regions && i < |s.regions[b].free| && Serves(s.nodes, s.regions[b].free[i], size) &&
    forall j :: 0 <= j < i ==> !Serves(s.nodes, s.regions[b].free[j], size)
  }

  ghost predicate NoFit(s: State, b: nat, size: nat) {
    b in s.regions ==> forall j :: 0 <= j < |s.regions[b].free| ==> !Serves(s.nodes, s.regions[b].free[j], size)
  }

  /** A region that is passed over: its hint says no, or none of its free nodes fits. */
  ghost predicate Passed(s: State, b: nat, size: nat) {
    !Promises(s, b, size) || NoFit(s, b, size)
  }

  /** What serving size bytes from free node i of region b makes of the heap. */
  ghost function Taken(s: State, b: nat, i: nat, size: nat): State
    requires b in s.regions && i < |s.regions[b].free| && Serves(s.nodes, s.regions[b].free[i], size)
  {
    if s.nodes[s.regions[b].free[i]].size == size then Claim(s, b, i) else Split(s, b, i, size)
  }

  /** The heap after serving size bytes: from the first region whose hint promises them and
      that has a free node for them, or else from a new region. */
  ghost predicate Served(s: State, t: State, size: nat, block: Option<nat>) {
    (forall k, i ::
       (0 <= k < |s.order| && Promises(s, s.order[k], size) && FirstFit(s, s.order[k], i, size) &&
        forall j :: 0 <= j < k ==> Passed(s, s.order[j], size)) ==> t == Taken(s, s.order[k], i, size)) &&
    ((forall j :: 0 <= j < |s.order| ==> Passed(s, s.order[j], size)) ==>
       block.Some? &&
       var n := Open(s, block.value, BlockSize(size));
       block.value in n.regions && FirstFit(n, block.value, 0, size) && t == Taken(n, block.value, 0, size))
  }

  lemma ServedThere(s: State, k: nat, i: nat, size: nat, block: Option<nat>)
    requires k < |s.order| && Promises(s, s.order[k], size) && FirstFit(s, s.order[k], i, size)
    requires forall j :: 0 <= j < k ==> Passed(s, s.order[j], size)
    ensures Served(s, Taken(s, s.order[k], i, size), size, block)
    ensures !Passed(s, s.order[k], size)
  {
    var t := Taken(s, s.order[k], i, size);
    forall k', i' | 0 <= k' < |s.order| && Promises(s, s.order[k'], size) && FirstFit(s, s.order[k'], i', size) &&
                    (forall j :: 0 <= j < k' ==> Passed(s, s.order[j], size))
      ensures t == Taken(s, s.order[k'], i', size)
    {
      assert !Passed(s, s.order[k], size) && !Passed(s, s.order[k'], size);
      assert k' == k && i' == i;
    }
  }

  lemma ServedNew(s: State, t: State, size: nat, block: Option<nat>)
    requires forall j :: 0 <= j < |s.order| ==> Passed(s, s.order[j], size)
    requires block.Some?
    requires var n := Open(s, block.value, BlockSize(size));
             block.value in n.regions && FirstFit(n, block.value, 0, size) && t == Taken(n, block.value, 0, size)
    ensures Served(s, t, size, block)
  {
    hide Open, BlockSize, Taken;
    forall k, i | 0 <= k < |s.order| && Promises(s, s.order[k], size) ensures !FirstFit(s, s.order[k], i, size) {
      assert Passed(s, s.order[k], size);
    }
  }

  lemma PassedMore(s: State, start: nat, idx: nat, size: nat)
    requires start <= idx < |s.order| && NoFit(s, s.order[idx], size)
    requires forall j :: 0 <= j < start ==> Passed(s, s.order[j], size)
    requires forall j :: start <= j < idx ==> !Promises(s, s.order[j], size)
    ensures forall j :: 0 <= j < idx + 1 ==> Passed(s, s.order[j], size)
  {
    hide NoFit, Promises;
  }

  lemma PassedTo(s: State, start: nat, end: nat, size: nat)
    requires start <= end <= |s.order|
    requires forall j :: 0 <= j < start ==> Passed(s, s.order[j], size)
    requires forall j :: start <= j < end ==> !Promises(s, s.order[j], size)
    ensures forall j :: 0 <= j < end ==> Passed(s, s.order[j], size)
  {
    hide NoFit, Promises;
  }

  /** Freeing h gives its whole region back if nothing else in it is in use, and makes h
      the last free node of its region otherwise. */
  ghost predicate Freed(s: State, t: State, h: nat) {
    h in s.nodes && s.nodes[h].region in s.regions &&
    var b := s.nodes[h].region;
    if |s.regions[b].inUse| == 1 then
      exists j :: 0 <= j < |s.order| && s.order[j] == b && s.pages >= PageCount(s.regions[b].size) && t == Close(s, j)
    else
      exists i :: 0 <= i < |s.regions[b].inUse| && s.regions[b].inUse[i] == h && t == Return(s, b, i)
  }

  /** No region would serve size bytes, and the provider has no pages. */
  ghost predicate NoRoom(s: State, size: nat, block: Option<nat>) {
    block.None? && forall j :: 0 <= j < |s.order| ==> Passed(s, s.order[j], size)
  }

  /** What a growth that found no room does: the block at p is free, and bytes are kept only
      where the copy to address 0 did not write. */
  ghost predicate BlockLost(s: State, t: State, m: Bytes, m': Bytes, p: nat)
    requires p >= NODE && p - NODE in s.nodes
  {
    Freed(s, t, p - NODE) && Live(t) == Live(s) - {p - NODE} &&
    forall h :: h in Live(t) && Apart(0, s.nodes[p - NODE].size, h + NODE, Live(t)[h]) ==> KeptAt(m, m', h + NODE, Live(t)[h])
  }

  lemma LostLemma(s: State, t: State, m: Bytes, m1: Bytes, m2: Bytes, p: nat, n: nat)
    requires p >= NODE && p - NODE in s.nodes && s.nodes[p - NODE].size == n
    requires Freed(s, t, p - NODE) && Live(t) == Live(s) - {p - NODE} && m1 == Wipe(m, 0, n) && Kept(Live(t), m1, m2)
    ensures BlockLost(s, t, m, m2, p)
  {
    hide Freed, Live;
    forall h | h in Live(t) && Apart(0, n, h + NODE, Live(t)[h]) ensures KeptAt(m, m2, h + NODE, Live(t)[h]) {
      WipeKeeps(m, 0, n, h + NODE, Live(t)[h]);
      KeptAtTrans(m, m1, m2, h + NODE, Live(t)[h]);
    }
  }

  /** What Free does to the lists of a region that has another block in use: the node is the
      last of the free ones, and the hint names a node at least as large. */
  ghost predicate BackOnList(s: State, t: State, h: nat) {
    h in s.nodes && t.nodes == s.nodes && t.order == s.order && t.pages == s.pages && s.nodes[h].region in s.regions &&
    var b := s.nodes[h].region;
    b in t.regions && t.regions == s.regions[b := t.regions[b]] &&
    t.regions[b].size == s.regions[b].size && t.regions[b].free == s.regions[b].free + [h] &&
    (forall x :: x in t.regions[b].inUse <==> x in s.regions[b].inUse && x != h) &&
    t.regions[b].biggest.Some? && t.regions[b].biggest.value in s.nodes &&
    s.nodes[t.regions[b].biggest.value].size >= s.nodes[h].size
  }

  lemma ReturnedBack(s: State, b: nat, i: nat)
    requires Inv(s) && b in s.regions && i < |s.regions[b].inUse|
    ensures BackOnList(s, Return(s, b, i), s.regions[b].inUse[i])
  {
    UsedNode(s, b, i);
    HintInside(s, b);
    CutLemma(s.regions[b].inUse, i);
    hide Inv, NoDup, RegionOk;
  }

  /** A block that was freed can be had again: a request for as many bytes does not fail. */
  lemma FreedServes(s: State, t: State, h: nat)
    requires Inv(t) && BackOnList(s, t, h)
    ensures !NoRoom(t, s.nodes[h].size, None)
  {
    var b := s.nodes[h].region;
    InOrder(t, b);
    var j :| 0 <= j < |t.order| && t.order[j] == b;
    var k := |s.regions[b].free|;
    assert t.regions[b].free[k] == h && Serves(t.nodes, t.regions[b].free[k], s.nodes[h].size);
    assert Promises(t, b, s.nodes[h].size) && !NoFit(t, b, s.nodes[h].size);
    assert !Passed(t, t.order[j], s.nodes[h].size);
  }

  const EMPTY := State(map[], [], map[], 0)

  lemma OneBlock() returns (s: State, h: nat)
    ensures Inv(EMPTY) && Inv(s) && Served(EMPTY, s, 0x4000, Some(PAGE)) && Live(s) == map[h := 0x4000]
    ensures s.order == [PAGE] && PAGE in s.regions && s.regions[PAGE].inUse == [h] && h in s.nodes
    ensures s.nodes[h].region == PAGE && s.regions[PAGE].biggest == Some(PAGE + REGION)
    ensures PAGE + REGION in s.nodes && s.nodes[PAGE + REGION].size == 0xB0
  {
    hide PageCount, NodesApart, Inv, Live;
    assert Inv(EMPTY) && Live(EMPTY) == map[] by {
      EmptyInv();
    }
    PagesBalance(0x4000);
    assert BlockSize(0x4000) == 0x4100;
    var n := OpenInv(EMPTY, PAGE, 0x4100);
    assert n.regions[PAGE].free == [PAGE + REGION] && n.nodes[PAGE + REGION].size == 0x4100;
    s, h := SplitInv(n, PAGE, 0, 0x4000);
    assert FirstFit(n, PAGE, 0, 0x4000);
    ServedNew(EMPTY, s, 0x4000, Some(PAGE));
  }

  lemma EmptyInv()
    ensures Inv(EMPTY) && Live(EMPTY) == map[]
  {
  }

  /** A heap with one block of 0x4000 bytes, as the first request for it leaves it, has no
      room to make it 0x8000; and then the block is gone. */
  lemma GrowthLoses() returns (s: State, h: nat)
    ensures Inv(EMPTY) && Served(EMPTY, s, 0x4000, Some(PAGE)) && Inv(s) && Live(s) == map[h := 0x4000]
    ensures NoRoom(s, 0x8000, None) && forall t :: Freed(s, t, h) ==> Live(t) == map[]
  {
    hide Served, Live, PageCount, Inv;
    s, h := OneBlock();
    assert !Promises(s, PAGE, 0x8000);
    forall t | Freed(s, t, h) ensures Live(t) == map[] {
      var j :| 0 <= j < |s.order| && s.order[j] == PAGE && s.pages >= PageCount(s.regions[PAGE].size) && t == Close(s, j);
      var t' := CloseInv(s, j, h);
    }
  }

  /** The hint of every region is a largest of its free nodes. */
  ghost predicate HintsRight(s: State) {
    forall b, x :: b in s.regions && x in s.regions[b].free && x in s.nodes ==>
      s.regions[b].biggest.Some? && s.regions[b].biggest.value in s.nodes &&
      s.nodes[x].size <= s.nodes[s.regions[b].biggest.value].size
  }

  /** A region is passed over only for sizes that none of its free nodes would serve, whatever
      is asked for, exactly if the hints are right. */
  lemma PassedIff(s: State)
    requires Inv(s)
    ensures HintsRight(s) <==> forall b, size :: b in s.regions && Passed(s, b, size) ==> NoFit(s, b, size)
  {
    hide NodesApart, RegionsApart, RegionOk, NodeOk;
    if HintsRight(s) {
      forall b, size | b in s.regions && Passed(s, b, size) ensures NoFit(s, b, size) {
        forall j | 0 <= j < |s.regions[b].free| ensures !Serves(s.nodes, s.regions[b].free[j], size) {
          assert s.regions[b].free[j] in s.regions[b].free;
        }
      }
    }
    if forall b, size :: b in s.regions && Passed(s, b, size) ==> NoFit(s, b, size) {
      forall b, x | b in s.regions && x in s.regions[b].free && x in s.nodes
        ensures s.regions[b].biggest.Some? && s.regions[b].biggest.value in s.nodes
        ensures s.nodes[x].size <= s.nodes[s.regions[b].biggest.value].size
      {
        var j :| 0 <= j < |s.regions[b].free| && s.regions[b].free[j] == x;
        assert Serves(s.nodes, s.regions[b].free[j], s.nodes[x].size);
        assert !NoFit(s, b, s.nodes[x].size);
      }
    }
  }

  /** As long as the hints are right, a request finds no room exactly if no free node would
      serve it. */
  lemma NoRoomIff(s: State, size: nat)
    requires Inv(s) && HintsRight(s)
    ensures NoRoom(s, size, None) <==> forall b :: b in s.regions ==> NoFit(s, b, size)
  {
    hide NodesApart, RegionsApart, RegionOk, NodeOk;
    if NoRoom(s, size, None) {
      forall b | b in s.regions ensures NoFit(s, b, size) {
        var k :| 0 <= k < |s.order| && s.order[k] == b;
        assert Passed(s, s.order[k], size);
        forall j | 0 <= j < |s.regions[b].free| ensures !Serves(s.nodes, s.regions[b].free[j], size) {
          assert s.regions[b].free[j] in s.regions[b].free;
        }
      }
    }
  }

  /** The heap of a run of four calls: two blocks of 0x1000 bytes, the first of them freed,
      and then a block of 0x2000. A third request for 0x1000 bytes finds no room, although
      the block that was freed is there: the hint is the node that was split last. */
  lemma HintMisses() returns (s1: State, s2: State, s3: State, s4: State, h: nat)
    ensures Served(EMPTY, s1, 0x1000, Some(PAGE)) && Served(s1, s2, 0x1000, None) && Freed(s2, s3, h)
    ensures Served(s3, s4, 0x2000, None) && Inv(s4)
    ensures PAGE in s4.regions && h in s4.regions[PAGE].free && h in s4.nodes && s4.nodes[h].size == 0x1000
    ensures NoRoom(s4, 0x1000, None)
  {
    hide Inv, Served, Freed, Alone, NoRoom;
    var n := PAGE + REGION;
    s1, h := FirstBlock();
    var g, k;
    s2, g := NextBlock(s1, [n], [h], 0x1000);
    s3 := FirstFreed(s2, n, h, g);
    s4, k := NextBlock(s3, [n, h], [g], 0x2000);
    Overlooked(s4, [n, h], [g] + [k], 0x1000);
  }

  /** One region, at PAGE, with these nodes free and in use and its first node as the hint. */
  ghost predicate Alone(s: State, free: seq<nat>, used: seq<nat>) {
    s.order == [PAGE] && s.regions == map[PAGE := Region(0x41B0, free, used, Some(PAGE + REGION))]
  }

  lemma FirstBlock() returns (s: State, h: nat)
    ensures Served(EMPTY, s, 0x1000, Some(PAGE)) && Inv(s) && Alone(s, [PAGE + REGION], [h])
    ensures var n := PAGE + REGION;
            h == n + NODE + 0x30B0 && n in s.nodes && h in s.nodes && s.nodes[n].size == 0x30B0 &&
            s.nodes[h] == Node(0x1000, PAGE)
  {
    hide Inv, PageCount, Live, NodesApart;
    var s0 := FirstRegion();
    s, h := SplitInv(s0, PAGE, 0, 0x1000);
    assert FirstFit(s0, PAGE, 0, 0x1000);
    ServedNew(EMPTY, s, 0x1000, Some(PAGE));
    assert s.regions[PAGE].inUse == [] + [h] == [h];
    assert s.regions[PAGE] == Region(0x41B0, [PAGE + REGION], [h], Some(PAGE + REGION));
    assert s.regions == map[PAGE := s.regions[PAGE]];
  }

  /** A block that the first free node serves. */
  lemma NextBlock(s: State, free: seq<nat>, used: seq<nat>, size: nat) returns (t: State, g: nat)
    requires Inv(s) && Alone(s, free, used) && free != [] && free[0] == PAGE + REGION && free[0] in s.nodes
    requires s.nodes[free[0]].size > size + NODE && size % 0x10 == 0
    ensures Served(s, t, size, None) && Inv(t) && Alone(t, free, used + [g])
    ensures g == free[0] + NODE + (s.nodes[free[0]].size - (size + NODE)) && g !in s.nodes
    ensures t.nodes == s.nodes[free[0] := Node(s.nodes[free[0]].size - (size + NODE), PAGE)][g := Node(size, PAGE)]
  {
    hide Inv, Live, Served;
    t, g := SplitInv(s, PAGE, 0, size);
    ServedThere(s, 0, 0, size, None);
  }

  lemma FirstFreed(s: State, n: nat, h: nat, g: nat) returns (t: State)
    requires Inv(s) && n == PAGE + REGION && Alone(s, [n], [h] + [g])
    requires n in s.nodes && h in s.nodes && s.nodes[n].size >= s.nodes[h].size && s.nodes[h].region == PAGE
    ensures Freed(s, t, h) && Inv(t) && Alone(t, [n, h], [g]) && t.nodes == s.nodes
  {
    hide Inv, Live;
    t := ReturnInv(s, PAGE, 0);
    assert s.regions[PAGE].inUse == [h, g] && Cut([h, g], 0) == [g] && [n] + [h] == [n, h];
    assert t.regions[PAGE] == Region(0x41B0, [n, h], [g], Some(n));
    assert t.regions == map[PAGE := t.regions[PAGE]];
  }

  lemma Overlooked(s: State, free: seq<nat>, used: seq<nat>, size: nat)
    requires Alone(s, free, used) && PAGE + REGION in s.nodes && s.nodes[PAGE + REGION].size < size
    ensures NoRoom(s, size, None) && PAGE in s.regions && s.regions[PAGE].free == free
  {
    assert !Promises(s, PAGE, size);
  }

  lemma FirstRegion() returns (s: State)
    ensures Inv(EMPTY) && BlockSize(0x1000) == 0x4100 && s == Open(EMPTY, PAGE, 0x4100) && Inv(s)
    ensures s.order == [PAGE] && s.nodes == map[PAGE + REGION := Node(0x4100, PAGE)]
    ensures s.regions == map[PAGE := Region(0x41B0, [PAGE + REGION], [], Some(PAGE + REGION))]
  {
    hide PageCount, NodesApart, Inv, Live;
    EmptyInv();
    PagesBalance(0x1000);
    assert BlockSize(0x1000) == 0x4100;
    s := OpenInv(EMPTY, PAGE, 0x4100);
  }

  class Heap {
    var regions: map<nat, Region>
    var order: seq<nat>
    var nodes: map<nat, Node>
    var pages: nat
    var mem: Bytes

    ghost function St(): State
      reads this`regions, this`order, this`nodes, this`pages
    {
      State(regions, order, nodes, pages)
    }

    ghost predicate Valid()
      reads this`regions, this`order, this`nodes, this`pages
    {
      Inv(St()) && Full(St())
    }

    constructor ()
      ensures Valid() && St() == State(map[], [], map[], 0) && mem == map[]
    {
      regions, order, nodes, pages, mem := map[], [], map[], 0, map[];
    }

    /** The first region from place start on whose hint promises size bytes. */
    method FindRegion(start: nat, size: nat) returns (idx: nat)
      requires Valid() && start <= |order|
      ensures start <= idx <= |order|
      ensures idx < |order| ==> Promises(St(), order[idx], size)
      ensures forall j :: start <= j < idx ==> !Promises(St(), order[j], size)
    {
      hide Full, NoDup;
      idx := start;
      while idx < |order|
        invariant start <= idx <= |order|
        invariant forall j :: start <= j < idx ==> !Promises(St(), order[j], size)
      {
        assert order[idx] in order && RegionOk(St(), order[idx]);
        var r := regions[order[idx]];
        if |r.free| > 0 && r.biggest.Some? {
          if nodes[r.biggest.value].size >= size {
            return;
          }
        }
        idx := idx + 1;
      }
    }

    /** The first free node of a region that serves size bytes. What the loop checks of
        each node before, on pain of a panic, is asserted. */
    method FindNode(b: nat, size: nat) returns (i: nat)
      requires Inv(St()) && b in regions
      ensures i <= |regions[b].free|
      ensures if i < |regions[b].free| then FirstFit(St(), b, i, size) else NoFit(St(), b, size)
    {
      hide Inv;
      i := 0;
      while i < |regions[b].free|
        invariant i <= |regions[b].free|
        invariant forall j :: 0 <= j < i ==> !Serves(nodes, regions[b].free[j], size)
      {
        var h := regions[b].free[i];
        FreeNode(St(), b, i);
        assert nodes[h].size <= regions[b].size && nodes[h].region == b;
        if nodes[h].size == size || nodes[h].size >= size + NODE {
          return;
        }
        i := i + 1;
      }
    }

    /** The largest free node is looked for when the one known so far is taken. */
    method FindBiggest(l: seq<nat>) returns (res: Option<nat>)
      requires forall h :: h in l ==> h in nodes
      ensures res == Biggest(nodes, l)
    {
      res := None;
      var i := 0;
      while i < |l|
        invariant i <= |l| && res == Biggest(nodes, l[..i])
      {
        assert l[i] in l && l[..i + 1][..i] == l[..i];
        if res.None? || nodes[l[i]].size > nodes[res.value].size {
          res := Some(l[i]);
        }
        i := i + 1;
      }
      assert l[..|l|] == l;
    }

    /** Stores to the headers of nodes: neighbours on a list, for their links. */
    method StoreTo(hs: seq<nat>)
      requires Inv(St()) && forall h :: h in hs ==> h in nodes
      modifies this`mem
      ensures Kept(Live(St()), old(mem), mem)
    {
      hide Inv, Live, Kept, Wipe;
      KeptSame(Live(St()), mem);
      for i := 0 to |hs|
        invariant Kept(Live(St()), old(mem), mem)
      {
        WipeHeader(St(), mem, hs[i]);
        KeptTrans(Live(St()), old(mem), mem, Wipe(mem, hs[i], NODE));
        mem := Wipe(mem, hs[i], NODE);
      }
    }

    /** Stores to the headers of regions. */
    method StoreToRegions(bs: seq<nat>)
      requires Inv(St()) && forall b :: b in bs ==> b in regions
      modifies this`mem
      ensures Kept(Live(St()), old(mem), mem)
    {
      hide Inv, Live, Kept, Wipe;
      KeptSame(Live(St()), mem);
      for i := 0 to |bs|
        invariant Kept(Live(St()), old(mem), mem)
      {
        WipeRegionHeader(St(), mem, bs[i]);
        KeptTrans(Live(St()), old(mem), mem, Wipe(mem, bs[i], REGION));
        mem := Wipe(mem, bs[i], REGION);
      }
    }

    /** The stores for a node that leaves one list of region b and joins another: to its own
        header, to its neighbours, to the last node of the other list and to the region. */
    method Relink(b: nat, own: seq<nat>, besides: seq<nat>, last: seq<nat>)
      requires Inv(St()) && b in regions
      requires forall h :: h in own || h in besides || h in last ==> h in nodes
      modifies this`mem
      ensures Kept(Live(St()), old(mem), mem)
    {
      hide Inv, Live, Kept;
      StoreTo(besides + own + last);
      ghost var m := mem;
      StoreToRegions([b]);
      KeptTrans(Live(St()), old(mem), m, mem);
    }

    method ClaimNode(b: nat, i: nat) returns (g: nat)
      requires Inv(St()) && b in regions && i < |regions[b].free|
      modifies this
      ensures St() == Claim(old(St()), b, i) && g == old(regions[b]).free[i]
      ensures Kept(old(Live(St())), old(mem), mem)
    {
      hide Inv, Live, Kept;
      var r := regions[b];
      g := r.free[i];
      ListedNodes(St(), b);
      Relink(b, [g], Beside(r.free, i), Last(r.inUse));
      var free := r.free[..i] + r.free[i + 1..];
      var biggest := r.biggest;
      if biggest == Some(g) {
        biggest := FindBiggest(free);
      }
      regions := regions[b := r.(free := free, inUse := r.inUse + [g], biggest := biggest)];
    }

    method SplitNode(b: nat, i: nat, size: nat) returns (g: nat)
      requires Inv(St()) && b in regions && i < |regions[b].free| && regions[b].free[i] in nodes
      requires nodes[regions[b].free[i]].size >= size + NODE
      modifies this
      ensures St() == Split(old(St()), b, i, size)
      ensures g == old(regions[b]).free[i] + NODE + (old(nodes[regions[b].free[i]]).size - (size + NODE))
      ensures Kept(old(Live(St())), old(mem), mem)
    {
      hide Inv, Live, Kept, Fits, NodesApart, RegionOk, NoDup, Wipe;
      FreeNode(St(), b, i);
      ListedNodes(St(), b);
      var r := regions[b];
      var n := r.free[i];
      var rest := nodes[n].size - (size + NODE);
      g := n + NODE + rest;
      Relink(b, [n], if rest == 0 then Beside(r.free, i) else [], Last(r.inUse));
      WipeFree(St(), mem, n, g, NODE);
      KeptTrans(Live(St()), old(mem), mem, Wipe(mem, g, NODE));
      mem := Wipe(mem, g, NODE);
      nodes := nodes[n := Node(rest, b)];
      if rest == 0 {
        r := r.(free := r.free[..i] + r.free[i + 1..]);
      }
      nodes := nodes[g := Node(size, b)];
      regions := regions[b := r.(inUse := r.inUse + [g])];
    }

    /** Serves size bytes from free node i of region b. */
    method Take(b: nat, i: nat, size: nat) returns (g: nat)
      requires Inv(St()) && b in regions && i < |regions[b].free| && size % 0x10 == 0
      requires Serves(nodes, regions[b].free[i], size)
      requires forall c :: c in regions && c != b ==> regions[c].inUse != []
      modifies this
      ensures Valid() && St() == Taken(old(St()), b, i, size) && g % 0x10 == 0 && Footprint(nodes) == old(Footprint(nodes))
      ensures g !in old(Live(St())) && Live(St()) == old(Live(St()))[g := size]
      ensures Kept(old(Live(St())), old(mem), mem)
    {
      hide Inv, Live, Kept, Biggest, Footprint;
      ghost var s := St();
      var h := regions[b].free[i];
      if nodes[h].size == size {
        ghost var t := ClaimInv(s, b, i);
        g := ClaimNode(b, i);
      } else {
        ghost var t, g' := SplitInv(s, b, i, size);
        SplitFootprint(s, b, i, size);
        LiveNodes(s);
        g := SplitNode(b, i, size);
      }
    }

    method Allocate(size0: nat, block: Option<nat>) returns (p: nat)
      requires Valid() && size0 <= WORD - 4 * PAGE
      requires block.Some? ==> FreshBlock(St(), block.value, PageCount(BlockSize(RoundUp(size0, 0x10))))
      modifies this
      ensures Valid()
      ensures p == 0 ==> St() == old(St()) && mem == old(mem)
      ensures p == 0 <==> size0 == 0 || (block.None? && forall j :: 0 <= j < |old(order)| ==>
                            Passed(old(St()), old(order)[j], RoundUp(size0, 0x10)))
      ensures p != 0 ==> Served(old(St()), St(), RoundUp(size0, 0x10), block)
      ensures var size := RoundUp(size0, 0x10);
              Footprint(nodes) == old(Footprint(nodes)) +
                (if size0 > 0 && block.Some? && NoRoom(old(St()), size, None) then NODE + BlockSize(size) else 0)
      ensures p != 0 ==>
              var g, size := p - NODE, RoundUp(size0, 0x10);
              size0 > 0 && g >= 0 && p % 0x10 == 0 && g !in old(Live(St())) && Live(St()) == old(Live(St()))[g := size]
      ensures Kept(old(Live(St())), old(mem), mem)
    {
      hide Inv, Live, BlockSize, PageCount, Wipe, Promises, NoFit, Taken, Open, Serves, Passed, Served, Footprint;
      if size0 == 0 {
        KeptSame(Live(St()), mem);
        return 0;
      }
      var size := RoundUp(size0, 0x10);
      SixteenLemma(size0);
      var start := 0;
      while start <= |order|
        invariant start <= |order| && St() == old(St()) && mem == old(mem)
        invariant forall j :: 0 <= j < start ==> Passed(St(), order[j], size)
        decreases |order| - start
      {
        var idx := FindRegion(start, size);
        PassedTo(St(), start, idx, size);
        if idx == |order| {
          p := FromNewRegion(size, block);
          if p != 0 {
            ServedNew(old(St()), St(), size, block);
          }
          return;
        }
        var b := order[idx];
        OrderedRegion(St(), idx);
        var i := FindNode(b, size);
        if i < |regions[b].free| {
          ServedThere(St(), idx, i, size, block);
          var g := Take(b, i, size);
          PositiveNode(St(), g);
          return g + NODE;
        }
        PassedMore(St(), start, idx, size);
        start := idx + 1;
      }
    }

    method FromNewRegion(size: nat, block: Option<nat>) returns (p: nat)
      requires Valid() && size % 0x10 == 0
      requires block.Some? ==> FreshBlock(St(), block.value, PageCount(BlockSize(size)))
      modifies this
      ensures Valid()
      ensures p == 0 <==> block.None?
      ensures p == 0 ==> St() == old(St()) && mem == old(mem)
      ensures p != 0 ==> Footprint(nodes) == old(Footprint(nodes)) + NODE + BlockSize(size)
      ensures p != 0 ==> var n := Open(old(St()), block.value, BlockSize(size));
                block.value in n.regions && FirstFit(n, block.value, 0, size) && St() == Taken(n, block.value, 0, size)
      ensures p != 0 ==> p >= NODE && p % 0x10 == 0 &&
                         p - NODE !in old(Live(St())) && Live(St()) == old(Live(St()))[p - NODE := size]
      ensures Kept(old(Live(St())), old(mem), mem)
    {
      hide Inv, Live, BlockSize, PageCount, Wipe, Footprint;
      if block.None? {
        KeptSame(Live(St()), mem);
        return 0;
      }
      var b, n := block.value, BlockSize(size);
      PagesBalance(size);
      ghost var s := St();
      ghost var t := OpenInv(s, b, n);
      OpenFootprint(s, b, n);
      OrderedRegions(s);
      StoreToRegions(Last(order));
      WipeBlock(s, mem, b, PageCount(n));
      KeptTrans(Live(s), old(mem), mem, Wipe(mem, b, PageCount(n) * PAGE));
      var h := b + REGION;
      regions := regions[b := Region(n + REGION, [h], [], Some(h))];
      nodes := nodes[h := Node(n, b)];
      order := order + [b];
      pages := pages + PageCount(n);
      mem := Wipe(mem, b, PageCount(n) * PAGE);
      ghost var wiped := mem;
      assert St() == t;
      var i := FindNode(b, size);
      assert Serves(nodes, regions[b].free[0], size) && FirstFit(St(), b, 0, size);
      var g := Take(b, i, size);
      KeptTrans(Live(s), old(mem), wiped, mem);
      PositiveNode(St(), g);
      p := g + NODE;
    }

    method IndexOf(l: seq<nat>, x: nat) returns (i: nat)
      requires x in l
      ensures i < |l| && l[i] == x
    {
      i := 0;
      while l[i] != x
        invariant i < |l| && x !in l[..i]
        decreases |l| - i
      {
        i := i + 1;
      }
    }

    method Free(p: nat)
      requires Valid() && (p == 0 || (p >= NODE && Allocated(St(), p - NODE)))
      modifies this
      ensures Valid()
      ensures p == 0 ==> St() == old(St()) && mem == old(mem)
      ensures p != 0 ==> Live(St()) == old(Live(St())) - {p - NODE} && Kept(Live(St()), old(mem), mem)
      ensures p != 0 ==> Freed(old(St()), St(), p - NODE)
      ensures p != 0 && |old(regions[nodes[p - NODE].region]).inUse| > 1 ==>
                BackOnList(old(St()), St(), p - NODE) && !NoRoom(St(), old(nodes[p - NODE]).size, None)
    {
      if p == 0 {
        return;
      }
      hide Inv, Live, Kept, PageCount, BackOnList, NoRoom;
      var h := p - NODE;
      var b := nodes[h].region;
      var r := regions[b];
      var i := IndexOf(r.inUse, h);
      if |r.inUse| == 1 {
        FreeRegion(b, h);
        return;
      }
      ReturnNode(b, i);
      FreedServes(old(St()), St(), h);
    }

    /** Makes node i in use of region b the last free one of the region. */
    method ReturnNode(b: nat, i: nat)
      requires Valid() && b in regions && i < |regions[b].inUse| && |regions[b].inUse| > 1
      modifies this
      ensures Valid() && St() == Return(old(St()), b, i)
      ensures Live(St()) == old(Live(St())) - {old(regions[b]).inUse[i]} && Kept(Live(St()), old(mem), mem)
      ensures BackOnList(old(St()), St(), old(regions[b]).inUse[i])
    {
      hide Inv, Live, Kept, BackOnList;
      ghost var s := St();
      ReturnedBack(s, b, i);
      ghost var t := ReturnInv(s, b, i);
      ListedNodes(s, b);
      var r := regions[b];
      var h := r.inUse[i];
      Relink(b, [h], Beside(r.inUse, i), Last(r.free));
      KeptLess(Live(s), Live(t), old(mem), mem);
      var biggest := r.biggest;
      HintInside(s, b);
      if biggest.None? || nodes[h].size > nodes[biggest.value].size {
        biggest := Some(h);
      }
      regions := regions[b := r.(free := r.free + [h], inUse := r.inUse[..i] + r.inUse[i + 1..], biggest := biggest)];
      assert St() == t;
    }

    method FreeRegion(b: nat, ghost h: nat)
      requires Valid() && b in regions && regions[b].inUse == [h]
      modifies this
      ensures Valid() && Live(St()) == old(Live(St())) - {h} && Kept(Live(St()), old(mem), mem)
      ensures exists j :: 0 <= j < |old(order)| && old(order)[j] == b && old(pages) >= PageCount(old(regions[b]).size) &&
                St() == Close(old(St()), j)
    {
      hide Inv, Live, Kept, PageCount, Wipe;
      InOrder(St(), b);
      var j := IndexOf(order, b);
      ghost var s := St();
      ghost var t := CloseInv(s, j, h);
      OrderedRegions(s);
      StoreToRegions(Beside(order, j) + [b]);
      KeptLess(Live(s), Live(t), old(mem), mem);
      WipeRegion(s, mem, b);
      ClosedKept(s, t, b, h, mem, Wipe(mem, b, PageCount(regions[b].size) * PAGE));
      KeptTrans(Live(t), old(mem), mem, Wipe(mem, b, PageCount(regions[b].size) * PAGE));
      mem := Wipe(mem, b, PageCount(regions[b].size) * PAGE);
      pages := pages - PageCount(regions[b].size);
      nodes := map x | x in nodes && nodes[x].region != b :: nodes[x];
      order := order[..j] + order[j + 1..];
      regions := regions - {b};
      assert St() == t;
    }

    /** Copies n bytes; both ranges are blocks in use, and apart. */
    method Copy(dst: nat, src: nat, n: nat)
      requires Apart(dst, n, src, n)
      modifies this`mem
      ensures Moved(old(mem), mem, src, dst, n) && SameOutside(old(mem), mem, dst, n)
    {
      var i := 0;
      while i < n
        invariant i <= n
        invariant Moved(old(mem), mem, src, dst, i) && SameOutside(old(mem), mem, dst, i)
      {
        if src + i in mem {
          mem := mem[dst + i := mem[src + i]];
        } else {
          mem := mem - {dst + i};
        }
        i := i + 1;
      }
    }

    /** Moves a block to a larger one. That none was found is not looked at: the code copies
        to address 0 all the same, and frees the block. */
    method Grow(p: nat, size: nat, block: Option<nat>) returns (q: nat)
      requires Valid() && p >= NODE && Allocated(St(), p - NODE) && nodes[p - NODE].size < size
      requires 0 < size <= WORD - 4 * PAGE && size % 0x10 == 0
      requires block.Some? ==> FreshBlock(St(), block.value, PageCount(BlockSize(size)))
      modifies this
      ensures Valid()
      ensures q == 0 <==> NoRoom(old(St()), size, block)
      ensures q == 0 ==> BlockLost(old(St()), St(), old(mem), mem, p)
      ensures q != 0 ==>
              q >= NODE && q % 0x10 == 0 && Live(St()) == old(Live(St()))[q - NODE := size] - {p - NODE} &&
              Moved(old(mem), mem, p, q, old(nodes[p - NODE]).size) &&
              Kept(old(Live(St())) - {p - NODE}, old(mem), mem)
    {
      hide Inv, Live, Kept, BlockSize, PageCount, Moved, Passed, Freed, Served, Wipe;
      ghost var s := St();
      var n := nodes[p - NODE].size;
      LiveIs(s, p - NODE);
      SixteenSame(size);
      q := Allocate(size, block);
      if q == 0 {
        mem := Wipe(mem, 0, n);
        ghost var m := mem;
        Free(p);
        LostLemma(s, St(), old(mem), m, mem, p, n);
        return;
      }
      ghost var t, m1 := St(), mem;
      BlocksApart(s, t, p - NODE, q - NODE, size);
      Copy(q, p, n);
      CopyKeeps(s, old(mem), m1, mem, p, q, n);
      ghost var m2 := mem;
      Free(p);
      FreeKeeps(s, St(), old(mem), m2, mem, p, q, n, size);
    }

    method Reallocate(p: nat, newSize: nat, block: Option<nat>) returns (q: nat)
      requires Valid() && (p == 0 || (p >= NODE && Allocated(St(), p - NODE))) && newSize <= WORD - 4 * PAGE
      requires block.Some? ==> FreshBlock(St(), block.value, PageCount(BlockSize(RoundUp(newSize, 0x10))))
      modifies this
      ensures Valid()
      ensures newSize == 0 ==> q == 0 && (p != 0 ==> Live(St()) == old(Live(St())) - {p - NODE}) &&
                               Kept(Live(St()), old(mem), mem)
      ensures newSize > 0 && p == 0 ==>
              (q == 0 <==> NoRoom(old(St()), RoundUp(newSize, 0x10), block)) && Kept(old(Live(St())), old(mem), mem) &&
              (q == 0 ==> St() == old(St())) &&
              (q != 0 ==> q >= NODE && Live(St()) == old(Live(St()))[q - NODE := RoundUp(newSize, 0x10)])
      ensures newSize > 0 && p != 0 && RoundUp(newSize, 0x10) <= old(nodes[p - NODE]).size ==>
              q == p && Live(St()) == old(Live(St()))[p - NODE := RoundUp(newSize, 0x10)] && Kept(Live(St()), old(mem), mem)
      ensures newSize > 0 && p != 0 && RoundUp(newSize, 0x10) > old(nodes[p - NODE]).size ==>
              (q == 0 <==> NoRoom(old(St()), RoundUp(newSize, 0x10), block)) &&
              (q == 0 ==> BlockLost(old(St()), St(), old(mem), mem, p)) &&
              (q != 0 ==>
                 q >= NODE && q % 0x10 == 0 &&
                 Live(St()) == old(Live(St()))[q - NODE := RoundUp(newSize, 0x10)] - {p - NODE} &&
                 Moved(old(mem), mem, p, q, old(nodes[p - NODE]).size) &&
                 Kept(old(Live(St())) - {p - NODE}, old(mem), mem))
    {
      hide Inv, Live, Kept, BlockSize, PageCount, Moved, RoundUp, Passed, Freed, Served;
      if newSize == 0 {
        Free(p);
        KeptSame(Live(St()), mem);
        return 0;
      }
      if p == 0 {
        q := Allocate(newSize, block);
        return;
      }
      var size := RoundUp(newSize, 0x10);
      SixteenLemma(newSize);
      TopSize(newSize);
      var objSize := nodes[p - NODE].size;
      LiveIs(St(), p - NODE);
      if objSize == size {
        LiveSame(St(), p - NODE);
        KeptSame(Live(St()), mem);
        return p;
      }
      if size < objSize {
        ghost var s := St();
        ghost var t := ResizeInv(s, p - NODE, size);
        StoreTo([p - NODE]);
        KeptLess(Live(s), Live(t), old(mem), mem);
        nodes := nodes[p - NODE := nodes[p - NODE].(size := size)];
        return p;
      }
      q := Grow(p, size, block);
    }
  }
}
