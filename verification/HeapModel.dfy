/**
  The kernel heap: regions of pages, each with nodes that are free or allocated. A node
  is a header of 80 bytes with its payload right behind it.
 */
module HeapModel {
  import opened Options

  const PAGE: nat := 0x1000
  const WORD: nat := 0x1_0000_0000_0000_0000
  /** The sizes of the two headers, whose fields are aligned to 16 bytes each. */
  const NODE: nat := 0x50
  const REGION: nat := 0xB0

  // ---------- sizes ----------

  function RoundUp(x: nat, to: nat): nat
    requires to > 0
  {
    if x % to == 0 then x else x + (to - x % to)
  }

  /** What is asked of the page provider for a region that is to serve size bytes. */
  function BlockSize(size: nat): nat {
    RoundUp(size, 4 * PAGE) + REGION + NODE
  }

  function PageCount(size: nat): nat {
    if size % PAGE == 0 then size / PAGE else size / PAGE + 1
  }

  /** A region is given back with as many pages as it was taken with, although the size
      it is given back by is larger; and its only node ends within these pages, although
      it reaches beyond the size that was asked for. */
  lemma PagesBalance(size: nat)
    ensures PageCount(BlockSize(size)) == PageCount(BlockSize(size) + REGION)
    ensures REGION + NODE + BlockSize(size) <= PageCount(BlockSize(size)) * PAGE
    ensures BlockSize(size) % 0x10 == 0 && size + NODE < BlockSize(size)
  {
    var k := WholeRegion(size);
    PagesOf(k);
  }

  lemma WholeRegion(size: nat) returns (k: nat)
    ensures RoundUp(size, 4 * PAGE) == 0x4000 * k && size <= 0x4000 * k
  {
    k := RoundUp(size, 4 * PAGE) / 0x4000;
  }

  lemma PagesOf(k: nat)
    ensures PageCount(0x4000 * k + 0x100) == 4 * k + 1 && PageCount(0x4000 * k + 0x1B0) == 4 * k + 1
    ensures (0x4000 * k + 0x100) % 0x10 == 0
  {
    assert (0x4000 * k + 0x100) / 0x1000 == 4 * k;
    assert (0x4000 * k + 0x1B0) / 0x1000 == 4 * k;
  }

  /** The same sizes in 64 bits. */
  function RoundUp64(x: nat, to: nat): nat
    requires to > 0
  {
    RoundUp(x, to) % WORD
  }

  function BlockSize64(size: nat): nat {
    (RoundUp64(size, 4 * PAGE) + REGION + NODE) % WORD
  }

  /** Whether the only node of a new region is taken for the request, whole or split. */
  predicate Taken64(size: nat) {
    BlockSize64(size) == size || BlockSize64(size) >= (size + NODE) % WORD
  }

  /** In 64 bits a new region serves a request of size0 bytes, with a block of at least as
      many inside its node, exactly if they are at most 2^64 less four pages. Beyond that
      the node has 256 bytes. It is left, and another region opened, unless adding the
      header to the size wraps too; then a block larger than the node is handed out, or,
      if already the rounding wrapped, one of no bytes. */
  lemma FreshFitsIff(size0: nat)
    requires size0 < WORD
    ensures var size := RoundUp64(size0, 0x10);
            && ((size0 <= size && size + NODE < WORD && size + NODE <= BlockSize64(size)) <==> size0 <= WORD - 4 * PAGE)
            && (size0 <= WORD - 4 * PAGE ==> size == RoundUp(size0, 0x10) && BlockSize64(size) == BlockSize(size))
            && (size0 > WORD - 4 * PAGE ==> BlockSize64(size) == REGION + NODE)
            && (Taken64(size) <==> !(WORD - 4 * PAGE < size0 <= WORD - NODE - 0x10))
            && (size0 > WORD - NODE - 0x10 ==> size == 0 || size >= WORD - NODE)
  {
    hide RoundUp, RoundUp64, BlockSize, BlockSize64;
    Rounded64(size0);
    Block64(RoundUp64(size0, 0x10));
  }

  lemma Rounded64(x: nat)
    requires x < WORD
    ensures var r := RoundUp64(x, 0x10);
            if x > WORD - 0x10 then r == 0
            else r == RoundUp(x, 0x10) && x <= r < x + 0x10 && r % 0x10 == 0
  {
  }

  lemma Block64(size: nat)
    requires size < WORD
    ensures size == 0 || size > WORD - 4 * PAGE ==> BlockSize64(size) == REGION + NODE
    ensures size <= WORD - 4 * PAGE ==> BlockSize64(size) == BlockSize(size) && size + NODE < BlockSize64(size)
  {
    RoundUpBound(size);
    PagesBalance(size);
  }

  lemma RoundUpBound(size: nat)
    requires size < WORD
    ensures size <= WORD - 4 * PAGE ==> RoundUp(size, 4 * PAGE) <= WORD - 4 * PAGE
    ensures size > WORD - 4 * PAGE ==> RoundUp(size, 4 * PAGE) == WORD
  {
  }

  datatype Ending = Given | Refused | Still

  /** A request that finds no node opens region after region, as the provider answers. */
  function Openings(size: nat, answers: seq<bool>): Ending {
    if answers == [] then Still
    else if !answers[0] then Refused
    else if Taken64(size) then Given
    else Openings(size, answers[1..])
  }

  /** It is served by the first region or by none: a request for which the first does not
      do opens regions as long as it is given any. */
  lemma {:induction false} OpeningsIff(size: nat, answers: seq<bool>)
    ensures Openings(size, answers) == Given <==> answers != [] && answers[0] && Taken64(size)
    ensures Openings(size, answers) == Still <==>
            answers == [] || (!Taken64(size) && forall i :: 0 <= i < |answers| ==> answers[i])
  {
    if answers != [] && answers[0] && !Taken64(size) {
      OpeningsIff(size, answers[1..]);
      assert forall i :: 0 <= i < |answers[1..]| ==> answers[1..][i] == answers[i + 1];
      if forall i :: 0 <= i < |answers[1..]| ==> answers[1..][i] {
        forall i | 0 <= i < |answers| ensures answers[i] {
          assert i > 0 ==> answers[i] == answers[1..][i - 1];
        }
      }
    }
  }

  /** Sizes that are asked for and not served: one opens regions for ever, one is given a
      block that is larger than all of its region, one a block of no bytes. */
  lemma HugeRequests(answers: seq<bool>)
    requires forall i :: 0 <= i < |answers| ==> answers[i]
    ensures Openings(WORD - 4 * PAGE + 0x10, answers) == Still
    ensures Taken64(WORD - NODE) && BlockSize64(WORD - NODE) == REGION + NODE
    ensures Taken64(RoundUp64(WORD - 1, 0x10)) && RoundUp64(WORD - 1, 0x10) == 0
  {
    hide RoundUp, RoundUp64, BlockSize64, Openings;
    Rounded64(WORD - 1);
    Block64(0);
    Block64(WORD - NODE);
    Block64(WORD - 4 * PAGE + 0x10);
    OpeningsIff(WORD - 4 * PAGE + 0x10, answers);
  }

  // ---------- the state ----------

  /** Nodes are known by the addresses of their headers, regions by their first address. */
  datatype Node = Node(size: nat, region: nat)

  datatype Region = Region(size: nat, free: seq<nat>, inUse: seq<nat>, biggest: Option<nat>)

  datatype State = State(regions: map<nat, Region>, order: seq<nat>, nodes: map<nat, Node>, pages: nat)

  ghost predicate NoDup(l: seq<nat>) {
    forall i, j :: 0 <= i < j < |l| ==> l[i] != l[j]
  }

  function Cut(l: seq<nat>, i: nat): seq<nat>
    requires i < |l|
  {
    l[..i] + l[i + 1..]
  }

  lemma CutLemma(l: seq<nat>, i: nat)
    requires NoDup(l) && i < |l|
    ensures NoDup(Cut(l, i)) && forall x :: x in Cut(l, i) <==> x in l && x != l[i]
  {
    var c := Cut(l, i);
    assert forall j :: 0 <= j < |c| ==> c[j] == l[if j < i then j else j + 1];
    forall x | x in l && x != l[i] ensures x in c {
      var j :| 0 <= j < |l| && l[j] == x;
      assert c[if j < i then j else j - 1] == x;
    }
  }

  ghost predicate Apart(a: nat, aSize: nat, b: nat, bSize: nat) {
    a + aSize <= b || b + bSize <= a
  }

  /** A node of size bytes at h lies, aligned, in the pages behind the header of the region
      at b, which says it has regionSize bytes. */
  ghost predicate Fits(b: nat, regionSize: nat, h: nat, size: nat) {
    h % 0x10 == 0 && size % 0x10 == 0 && b + REGION <= h &&
    h + NODE + size <= b + PageCount(regionSize) * PAGE && size + REGION <= regionSize
  }

  ghost predicate NodeOk(s: State, h: nat) {
    h in s.nodes ==>
      var n := s.nodes[h];
      n.region in s.regions && Fits(n.region, s.regions[n.region].size, h, n.size)
  }

  /** No two nodes, header and payload together, overlap. */
  ghost predicate NodesApart(nodes: map<nat, Node>) {
    forall h, g :: h in nodes && g in nodes && h != g ==> Apart(h, NODE + nodes[h].size, g, NODE + nodes[g].size)
  }

  ghost predicate ListOk(s: State, b: nat, l: seq<nat>) {
    NoDup(l) && forall h :: h in l ==> h in s.nodes && s.nodes[h].region == b
  }

  /** The hint: none, a free node, or what is left of one that was used up. */
  ghost predicate HintOk(s: State, b: nat, hint: Option<nat>, free: seq<nat>) {
    hint.Some? ==>
      hint.value in s.nodes && s.nodes[hint.value].region == b && (hint.value in free || s.nodes[hint.value].size == 0)
  }

  ghost predicate RegionOk(s: State, b: nat) {
    b in s.regions ==>
      var r := s.regions[b];
      0 < b && b % PAGE == 0 && REGION <= r.size && ListOk(s, b, r.free) && ListOk(s, b, r.inUse) &&
      (forall h :: h in r.free ==> h !in r.inUse) && HintOk(s, b, r.biggest, r.free)
  }

  ghost predicate RegionsApart(s: State) {
    forall b, c :: b in s.regions && c in s.regions && b != c ==>
      Apart(b, PageCount(s.regions[b].size) * PAGE, c, PageCount(s.regions[c].size) * PAGE)
  }

  ghost function TotalPages(regions: map<nat, Region>, order: seq<nat>): nat {
    if order == [] then 0
    else TotalPages(regions, order[..|order| - 1]) +
         (if order[|order| - 1] in regions then PageCount(regions[order[|order| - 1]].size) else 0)
  }

  ghost predicate OrderOk(s: State) {
    NoDup(s.order) && (forall b :: b in s.order <==> b in s.regions) && s.pages == TotalPages(s.regions, s.order)
  }

  /** No node is lost: it is free, in use, or used up. */
  ghost predicate Listed(s: State, h: nat) {
    h in s.nodes && s.nodes[h].region in s.regions ==>
      var r := s.regions[s.nodes[h].region];
      h in r.free || h in r.inUse || s.nodes[h].size == 0
  }

  ghost predicate Inv(s: State) {
    (forall h :: NodeOk(s, h)) && NodesApart(s.nodes) && (forall b :: RegionOk(s, b)) && RegionsApart(s) && OrderOk(s) &&
    forall h :: Listed(s, h)
  }

  /** Every region serves someone. */
  ghost predicate Full(s: State) {
    forall b :: b in s.regions ==> s.regions[b].inUse != []
  }

  ghost predicate Allocated(s: State, h: nat) {
    h in s.nodes && s.nodes[h].region in s.regions && h in s.regions[s.nodes[h].region].inUse
  }

  /** The allocated nodes and their sizes. */
  ghost function Live(s: State): map<nat, nat> {
    map h | h in s.nodes && Allocated(s, h) :: s.nodes[h].size
  }

  // ---------- splitting a free node ----------

  function WithRegion(s: State, b: nat, r: Region): State {
    s.(regions := s.regions[b := r])
  }

  /** The end of free node i is made a node of its own, which is allocated. */
  function Split(s: State, b: nat, i: nat, size: nat): State
    requires b in s.regions && i < |s.regions[b].free| && s.regions[b].free[i] in s.nodes
    requires s.nodes[s.regions[b].free[i]].size >= size + NODE
  {
    var r, h := s.regions[b], s.regions[b].free[i];
    var rest := s.nodes[h].size - (size + NODE);
    var g := h + NODE + rest;
    WithRegion(s, b, r.(free := if rest == 0 then Cut(r.free, i) else r.free, inUse := r.inUse + [g]))
      .(nodes := s.nodes[h := Node(rest, b)][g := Node(size, b)])
  }

  lemma SplitApart(nodes: map<nat, Node>, h: nat, rest: nat, g: nat, size: nat, b: nat)
    requires NodesApart(nodes) && h in nodes && nodes[h].size == rest + NODE + size && g == h + NODE + rest
    ensures g !in nodes && NodesApart(nodes[h := Node(rest, b)][g := Node(size, b)])
  {
  }

  /** What a free node of a region is known to be. */
  lemma FreeNode(s: State, b: nat, i: nat)
    requires Inv(s) && b in s.regions && i < |s.regions[b].free|
    ensures var h := s.regions[b].free[i];
            h in s.nodes && s.nodes[h].region == b && Fits(b, s.regions[b].size, h, s.nodes[h].size) &&
            h !in s.regions[b].inUse && NoDup(s.regions[b].free)
    ensures RegionOk(s, b) && NodesApart(s.nodes)
  {
    assert RegionOk(s, b) && s.regions[b].free[i] in s.regions[b].free;
    assert NodeOk(s, s.regions[b].free[i]);
  }

  /** Regions keep their addresses and sizes, whatever becomes of their lists. */
  ghost predicate SameRegions(s: State, t: State) {
    s.regions.Keys == t.regions.Keys && (forall b :: b in s.regions ==> s.regions[b].size == t.regions[b].size) &&
    s.order == t.order && s.pages == t.pages
  }

  lemma {:induction false} SameTotal(s: State, t: State, order: seq<nat>)
    requires SameRegions(s, t)
    ensures TotalPages(s.regions, order) == TotalPages(t.regions, order)
  {
    if order != [] {
      SameTotal(s, t, order[..|order| - 1]);
    }
  }

  /** What is left to show when only the lists of region b and the nodes changed. */
  lemma OneRegion(s: State, t: State, b: nat)
    requires Inv(s) && SameRegions(s, t) && NodesApart(t.nodes) && RegionOk(t, b)
    requires forall h :: NodeOk(t, h) && Listed(t, h)
    requires forall c :: c in s.regions && c != b ==> t.regions[c] == s.regions[c]
    requires forall h :: h in s.nodes && s.nodes[h].region != b ==> h in t.nodes && t.nodes[h] == s.nodes[h]
    ensures Inv(t)
  {
    SameTotal(s, t, s.order);
    hide NoDup, Apart, PageCount, NodesApart, TotalPages, Fits;
    forall c ensures RegionOk(t, c) {
      OtherRegion(s, t, b, c);
    }
  }

  lemma OtherRegion(s: State, t: State, b: nat, c: nat)
    requires RegionOk(s, c) && SameRegions(s, t) && RegionOk(t, b)
    requires c in s.regions && c != b ==> t.regions[c] == s.regions[c]
    requires forall h :: h in s.nodes && s.nodes[h].region != b ==> h in t.nodes && t.nodes[h] == s.nodes[h]
    ensures RegionOk(t, c)
  {
    hide NoDup;
  }

  lemma SplitInv(s: State, b: nat, i: nat, size: nat) returns (t: State, g: nat)
    requires Inv(s) && b in s.regions && i < |s.regions[b].free| && size % 0x10 == 0
    requires s.regions[b].free[i] in s.nodes && s.nodes[s.regions[b].free[i]].size >= size + NODE
    ensures t == Split(s, b, i, size) && Inv(t)
    ensures g == s.regions[b].free[i] + NODE + (s.nodes[s.regions[b].free[i]].size - (size + NODE))
    ensures g !in s.nodes && Live(t) == Live(s)[g := size] && g % 0x10 == 0
  {
    hide Inv, NodesApart, RegionOk, NodeOk, Fits, Live, NoDup;
    var h := s.regions[b].free[i];
    FreeNode(s, b, i);
    var rest := s.nodes[h].size - (size + NODE);
    g := h + NODE + rest;
    t := Split(s, b, i, size);
    SplitApart(s.nodes, h, rest, g, size, b);
    SplitNodeOk(s, b, i, size, g);
    SplitLists(s, b, i, size, g);
    forall x ensures Listed(t, x) {
      SplitListed(s, b, i, size, g, x);
    }
    OneRegion(s, t, b);
    Grows(s, t, b, g);
  }

  lemma SplitNodeOk(s: State, b: nat, i: nat, size: nat, g: nat)
    requires Inv(s) && b in s.regions && i < |s.regions[b].free| && size % 0x10 == 0
    requires s.regions[b].free[i] in s.nodes && s.nodes[s.regions[b].free[i]].size >= size + NODE
    requires g == s.regions[b].free[i] + NODE + (s.nodes[s.regions[b].free[i]].size - (size + NODE))
    ensures g % 0x10 == 0 && forall x :: NodeOk(Split(s, b, i, size), x)
  {
    hide Inv, Fits, NodesApart, RegionOk, NodeOk;
    FreeNode(s, b, i);
    var h := s.regions[b].free[i];
    FitsSplit(b, s.regions[b].size, h, s.nodes[h].size - (size + NODE), g, size);
    forall x ensures NodeOk(Split(s, b, i, size), x) {
      SplitOneOk(s, b, i, size, g, x);
    }
  }

  lemma SplitOneOk(s: State, b: nat, i: nat, size: nat, g: nat, x: nat)
    requires Inv(s) && b in s.regions && i < |s.regions[b].free|
    requires s.regions[b].free[i] in s.nodes && s.nodes[s.regions[b].free[i]].size >= size + NODE
    requires g == s.regions[b].free[i] + NODE + (s.nodes[s.regions[b].free[i]].size - (size + NODE))
    requires var h := s.regions[b].free[i];
             Fits(b, s.regions[b].size, h, s.nodes[h].size - (size + NODE)) && Fits(b, s.regions[b].size, g, size)
    ensures NodeOk(Split(s, b, i, size), x)
  {
    hide Fits, NodesApart, RegionOk, RegionsApart, OrderOk;
    assert NodeOk(s, x);
  }

  lemma SplitListed(s: State, b: nat, i: nat, size: nat, g: nat, x: nat)
    requires Inv(s) && b in s.regions && i < |s.regions[b].free|
    requires s.regions[b].free[i] in s.nodes && s.nodes[s.regions[b].free[i]].size >= size + NODE
    requires g == s.regions[b].free[i] + NODE + (s.nodes[s.regions[b].free[i]].size - (size + NODE))
    ensures Listed(Split(s, b, i, size), x)
  {
    assert Listed(s, x);
    assert RegionOk(s, b);
    CutLemma(s.regions[b].free, i);
    hide Inv, RegionOk, NoDup;
    assert forall y :: y in s.regions[b].inUse + [g] <==> y in s.regions[b].inUse || y == g;
  }

  lemma FitsSplit(b: nat, regionSize: nat, h: nat, rest: nat, g: nat, size: nat)
    requires Fits(b, regionSize, h, rest + NODE + size) && g == h + NODE + rest && size % 0x10 == 0
    ensures Fits(b, regionSize, h, rest) && Fits(b, regionSize, g, size)
  {
  }

  /** Node g joins those in use in region b; the others in use stay what they are. */
  lemma Grows(s: State, t: State, b: nat, g: nat)
    requires b in s.regions && b in t.regions && t.regions == s.regions[b := t.regions[b]]
    requires t.regions[b].inUse == s.regions[b].inUse + [g]
    requires g in t.nodes && t.nodes[g].region == b && t.nodes.Keys == s.nodes.Keys + {g}
    requires forall x :: x in s.nodes && x != g ==> t.nodes[x].region == s.nodes[x].region
    requires forall x :: x in s.nodes && x != g && Allocated(s, x) ==> t.nodes[x] == s.nodes[x]
    requires g !in s.regions[b].inUse && (g in s.nodes ==> s.nodes[g].region == b)
    ensures Live(t) == Live(s)[g := t.nodes[g].size] && g !in Live(s)
  {
    assert forall x :: x in s.regions[b].inUse + [g] <==> x in s.regions[b].inUse || x == g;
    assert forall x :: Allocated(t, x) <==> Allocated(s, x) || x == g;
    hide Allocated;
  }

  lemma SplitLists(s: State, b: nat, i: nat, size: nat, g: nat)
    requires RegionOk(s, b) && b in s.regions && i < |s.regions[b].free|
    requires s.regions[b].free[i] in s.nodes && s.nodes[s.regions[b].free[i]].size >= size + NODE && g !in s.nodes
    requires g == s.regions[b].free[i] + NODE + (s.nodes[s.regions[b].free[i]].size - (size + NODE))
    ensures RegionOk(Split(s, b, i, size), b) && g !in s.regions[b].inUse
  {
    var r, t := s.regions[b], Split(s, b, i, size);
    CutLemma(r.free, i);
    assert g !in r.inUse && g !in r.free;
    assert t.regions[b].inUse == r.inUse + [g];
    assert forall x :: x in r.inUse + [g] <==> x in r.inUse || x == g;
  }

  // ---------- taking a free node whole ----------

  function Larger(nodes: map<nat, Node>, a: Option<nat>, h: nat): Option<nat> {
    if h in nodes && (a.None? || a.value !in nodes || nodes[h].size > nodes[a.value].size) then Some(h) else a
  }

  /** The first of the largest nodes of a list. */
  function Biggest(nodes: map<nat, Node>, l: seq<nat>): (a: Option<nat>)
    ensures a.Some? ==> a.value in l && a.value in nodes
  {
    if l == [] then None else Larger(nodes, Biggest(nodes, l[..|l| - 1]), l[|l| - 1])
  }

  lemma {:induction false} BiggestLemma(nodes: map<nat, Node>, l: seq<nat>)
    requires forall h :: h in l ==> h in nodes
    ensures Biggest(nodes, l).None? <==> l == []
    ensures l != [] ==> forall h :: h in l ==> nodes[h].size <= nodes[Biggest(nodes, l).value].size
  {
    if l != [] {
      BiggestLemma(nodes, l[..|l| - 1]);
      assert forall h :: h in l ==> h in l[..|l| - 1] || h == l[|l| - 1];
    }
  }

  /** Free node i is allocated as it is. */
  function Claim(s: State, b: nat, i: nat): State
    requires b in s.regions && i < |s.regions[b].free|
  {
    var r, h := s.regions[b], s.regions[b].free[i];
    var free := Cut(r.free, i);
    WithRegion(s, b, r.(free := free, inUse := r.inUse + [h],
                        biggest := if r.biggest == Some(h) then Biggest(s.nodes, free) else r.biggest))
  }

  lemma ClaimInv(s: State, b: nat, i: nat) returns (t: State)
    requires Inv(s) && b in s.regions && i < |s.regions[b].free|
    ensures t == Claim(s, b, i) && Inv(t)
    ensures var h := s.regions[b].free[i];
            h in s.nodes && Live(t) == Live(s)[h := s.nodes[h].size] && h % 0x10 == 0 && h !in Live(s)
  {
    hide Inv, NodesApart, RegionOk, Live, Biggest, NoDup;
    t := Claim(s, b, i);
    FreeNode(s, b, i);
    ClaimLists(s, b, i);
    SameNodesOk(s, t);
    forall x ensures Listed(t, x) {
      ClaimListed(s, b, i, x);
    }
    hide NodeOk, Fits;
    OneRegion(s, t, b);
    Grows(s, t, b, s.regions[b].free[i]);
  }

  lemma ClaimListed(s: State, b: nat, i: nat, x: nat)
    requires Inv(s) && b in s.regions && i < |s.regions[b].free|
    ensures Listed(Claim(s, b, i), x)
  {
    assert Listed(s, x);
    assert RegionOk(s, b);
    CutLemma(s.regions[b].free, i);
    hide Inv, RegionOk, NoDup, Biggest;
    var r := s.regions[b];
    assert forall y :: y in r.inUse + [r.free[i]] <==> y in r.inUse || y == r.free[i];
  }

  ghost predicate LargestOf(nodes: map<nat, Node>, l: seq<nat>, h: nat) {
    h in l && h in nodes && forall x :: x in l ==> x in nodes && nodes[x].size <= nodes[h].size
  }

  /** The hint afterwards is a largest free node, if it was the node that was taken, and
      there is one exactly if a free node is left; otherwise it is what it was. */
  lemma ClaimHint(s: State, b: nat, i: nat)
    requires Inv(s) && b in s.regions && i < |s.regions[b].free|
    ensures var t, h := Claim(s, b, i), s.regions[b].free[i];
            var r, r' := s.regions[b], t.regions[b];
            r'.free == r.free[..i] + r.free[i + 1..] && r'.inUse == r.inUse + [h] && t.nodes == s.nodes &&
            if r.biggest != Some(h) then r'.biggest == r.biggest
            else (r'.biggest.None? <==> r'.free == []) &&
                 (r'.biggest.Some? ==> LargestOf(s.nodes, r'.free, r'.biggest.value))
  {
    assert RegionOk(s, b);
    var r := s.regions[b];
    CutLemma(r.free, i);
    hide Inv, NoDup;
    BiggestLemma(s.nodes, Cut(r.free, i));
    hide Biggest;
  }

  lemma SameNodesOk(s: State, t: State)
    requires Inv(s) && SameRegions(s, t) && t.nodes == s.nodes
    ensures forall x :: NodeOk(t, x)
  {
    forall x ensures NodeOk(t, x) {
      assert NodeOk(s, x);
    }
  }

  lemma ClaimLists(s: State, b: nat, i: nat)
    requires RegionOk(s, b) && b in s.regions && i < |s.regions[b].free|
    ensures RegionOk(Claim(s, b, i), b)
  {
    var r, h := s.regions[b], s.regions[b].free[i];
    CutLemma(r.free, i);
    assert h in r.free && h !in r.inUse;
    assert forall x :: x in r.inUse + [h] <==> x in r.inUse || x == h;
  }

  // ---------- a new region ----------

  /** A size as asked of the page provider for a region. */
  ghost predicate GoodBlock(n: nat) {
    n % 0x10 == 0 && PageCount(n) == PageCount(n + REGION) && REGION + NODE + n <= PageCount(n) * PAGE
  }

  function Open(s: State, b: nat, n: nat): State {
    var h := b + REGION;
    State(s.regions[b := Region(n + REGION, [h], [], Some(h))], s.order + [b], s.nodes[h := Node(n, b)],
          s.pages + PageCount(n))
  }

  /** What the page provider gives: whole pages that no region has. */
  ghost predicate FreshBlock(s: State, b: nat, pages: nat) {
    0 < b && b % PAGE == 0 && b !in s.regions &&
    forall c :: c in s.regions ==> Apart(c, PageCount(s.regions[c].size) * PAGE, b, pages * PAGE)
  }

  lemma OutsideBlock(s: State, b: nat, pages: nat, g: nat)
    requires Inv(s) && FreshBlock(s, b, pages) && g in s.nodes
    ensures Apart(g, NODE + s.nodes[g].size, b, pages * PAGE)
  {
    hide NodesApart, RegionOk, RegionsApart, OrderOk, PageCount;
    assert NodeOk(s, g);
  }

  lemma NewFits(b: nat, n: nat)
    requires GoodBlock(n) && b % PAGE == 0
    ensures Fits(b, n + REGION, b + REGION, n)
  {
    hide PageCount;
    BehindHeader(b);
  }

  lemma BehindHeader(b: nat)
    requires b % PAGE == 0
    ensures (b + REGION) % 0x10 == 0
  {
    var k := b / PAGE;
    assert b + REGION == 0x10 * (0x100 * k + 0xB);
  }

  lemma OpenNodes(s: State, b: nat, n: nat)
    requires Inv(s) && FreshBlock(s, b, PageCount(n)) && GoodBlock(n)
    ensures b + REGION !in s.nodes && NodesApart(Open(s, b, n).nodes)
  {
    forall g | g in s.nodes ensures Apart(g, NODE + s.nodes[g].size, b + REGION, NODE + n) && g != b + REGION {
      OutsideBlock(s, b, PageCount(n), g);
    }
    assert NodesApart(s.nodes);
    hide PageCount, Inv;
  }

  lemma {:induction false} MoreTotal(regions: map<nat, Region>, order: seq<nat>, b: nat, r: Region)
    requires b !in order
    ensures TotalPages(regions[b := r], order) == TotalPages(regions, order)
  {
    if order != [] {
      MoreTotal(regions, order[..|order| - 1], b, r);
    }
  }

  lemma OpenOrder(s: State, b: nat, n: nat)
    requires OrderOk(s) && b !in s.regions && GoodBlock(n)
    ensures OrderOk(Open(s, b, n))
  {
    hide PageCount;
    var t := Open(s, b, n);
    MoreTotal(s.regions, s.order, b, t.regions[b]);
    assert t.order[..|t.order| - 1] == s.order;
    assert forall x :: x in t.order <==> x in s.order || x == b;
  }

  lemma OpenLists(s: State, b: nat, n: nat)
    requires Inv(s) && FreshBlock(s, b, PageCount(n)) && GoodBlock(n) && b + REGION !in s.nodes
    ensures forall c :: RegionOk(Open(s, b, n), c)
    ensures RegionsApart(Open(s, b, n))
  {
    hide PageCount, NodesApart, OrderOk, NodeOk;
    var t := Open(s, b, n);
    forall c ensures RegionOk(t, c) {
      assert RegionOk(s, c);
    }
  }

  lemma OpenNodeOk(s: State, b: nat, n: nat)
    requires Inv(s) && b % PAGE == 0 && b !in s.regions && GoodBlock(n) && b + REGION !in s.nodes
    ensures forall x :: NodeOk(Open(s, b, n), x)
  {
    hide PageCount, NodesApart, OrderOk, RegionOk, RegionsApart, Fits;
    NewFits(b, n);
    forall x ensures NodeOk(Open(s, b, n), x) {
      assert NodeOk(s, x);
    }
  }

  lemma OpenLive(s: State, b: nat, n: nat)
    requires Inv(s) && b !in s.regions && b + REGION !in s.nodes
    ensures Live(Open(s, b, n)) == Live(s)
  {
    hide PageCount, NodesApart, OrderOk, RegionOk, RegionsApart, Fits;
    var t := Open(s, b, n);
    forall x ensures Allocated(t, x) <==> Allocated(s, x) {
      assert NodeOk(s, x);
    }
    hide Allocated;
  }

  lemma OpenInv(s: State, b: nat, n: nat) returns (t: State)
    requires Inv(s) && FreshBlock(s, b, PageCount(n)) && GoodBlock(n)
    ensures t == Open(s, b, n) && Inv(t) && Live(t) == Live(s)
  {
    hide PageCount, NodesApart, OrderOk, RegionOk, RegionsApart, NodeOk, Live, Open;
    t := Open(s, b, n);
    OpenNodes(s, b, n);
    OpenOrder(s, b, n);
    OpenLists(s, b, n);
    OpenNodeOk(s, b, n);
    forall x ensures Listed(t, x) {
      OpenListed(s, b, n, x);
    }
    OpenLive(s, b, n);
  }

  lemma OpenListed(s: State, b: nat, n: nat, x: nat)
    requires Inv(s) && b !in s.regions
    ensures Listed(Open(s, b, n), x)
  {
    assert Listed(s, x) && NodeOk(s, x);
    hide Inv, PageCount;
  }

  // ---------- giving a node back ----------

  /** Node i of those in use becomes a free node. */
  function Return(s: State, b: nat, i: nat): State
    requires b in s.regions && i < |s.regions[b].inUse|
  {
    var r, h := s.regions[b], s.regions[b].inUse[i];
    WithRegion(s, b, r.(free := r.free + [h], inUse := Cut(r.inUse, i), biggest := Larger(s.nodes, r.biggest, h)))
  }

  lemma UsedNode(s: State, b: nat, i: nat)
    requires Inv(s) && b in s.regions && i < |s.regions[b].inUse|
    ensures var h := s.regions[b].inUse[i];
            h in s.nodes && s.nodes[h].region == b && Allocated(s, h) && h in s.regions[b].inUse && h !in s.regions[b].free
    ensures RegionOk(s, b) && NodesApart(s.nodes) && NoDup(s.regions[b].inUse)
  {
    assert RegionOk(s, b) && s.regions[b].inUse[i] in s.regions[b].inUse;
  }

  lemma ReturnLists(s: State, b: nat, i: nat)
    requires RegionOk(s, b) && b in s.regions && i < |s.regions[b].inUse|
    ensures RegionOk(Return(s, b, i), b)
  {
    var r, h := s.regions[b], s.regions[b].inUse[i];
    CutLemma(r.inUse, i);
    assert h in r.inUse && h !in r.free;
    assert forall x :: x in r.free + [h] <==> x in r.free || x == h;
  }

  lemma ReturnListed(s: State, b: nat, i: nat, x: nat)
    requires Inv(s) && b in s.regions && i < |s.regions[b].inUse|
    ensures Listed(Return(s, b, i), x)
  {
    assert Listed(s, x);
    assert RegionOk(s, b);
    CutLemma(s.regions[b].inUse, i);
    hide Inv, RegionOk, NoDup;
    var r := s.regions[b];
    assert forall y :: y in r.free + [r.inUse[i]] <==> y in r.free || y == r.inUse[i];
  }

  /** Node h is no longer in use; the others in use stay what they are. */
  lemma Shrinks(s: State, t: State, h: nat)
    requires h in s.nodes && Allocated(s, h)
    requires forall x :: Allocated(t, x) <==> Allocated(s, x) && x != h
    requires forall x :: Allocated(t, x) ==> x in s.nodes && t.nodes[x] == s.nodes[x]
    ensures Live(t) == Live(s) - {h}
  {
  }

  lemma ReturnInv(s: State, b: nat, i: nat) returns (t: State)
    requires Inv(s) && b in s.regions && i < |s.regions[b].inUse|
    ensures t == Return(s, b, i) && Inv(t) && Live(t) == Live(s) - {s.regions[b].inUse[i]}
  {
    hide Inv, NodesApart, RegionOk, Live, NoDup;
    t := Return(s, b, i);
    UsedNode(s, b, i);
    ReturnLists(s, b, i);
    SameNodesOk(s, t);
    forall x ensures Listed(t, x) {
      ReturnListed(s, b, i, x);
    }
    hide NodeOk, Fits;
    OneRegion(s, t, b);
    CutLemma(s.regions[b].inUse, i);
    Shrinks(s, t, s.regions[b].inUse[i]);
  }

  /** Region b, at place j of the list, is given back. */
  function Close(s: State, j: nat): State
    requires j < |s.order| && s.order[j] in s.regions && s.pages >= PageCount(s.regions[s.order[j]].size)
  {
    var b := s.order[j];
    State(s.regions - {b}, Cut(s.order, j), map h | h in s.nodes && s.nodes[h].region != b :: s.nodes[h],
          s.pages - PageCount(s.regions[b].size))
  }

  lemma {:induction false} CutTotal(regions: map<nat, Region>, order: seq<nat>, j: nat)
    requires NoDup(order) && j < |order| && order[j] in regions
    ensures TotalPages(regions, order) == TotalPages(regions - {order[j]}, Cut(order, j)) + PageCount(regions[order[j]].size)
  {
    hide PageCount;
    var n, b := |order| - 1, order[j];
    var last := order[n];
    if j == n {
      assert Cut(order, j) == order[..n];
      LessTotal(regions, order[..n], b);
    } else {
      CutTotal(regions, order[..n], j);
      assert Cut(order, j) == Cut(order[..n], j) + [last];
      assert Cut(order, j)[..n - 1] == Cut(order[..n], j);
    }
  }

  lemma {:induction false} LessTotal(regions: map<nat, Region>, order: seq<nat>, b: nat)
    requires b !in order
    ensures TotalPages(regions - {b}, order) == TotalPages(regions, order)
  {
    if order != [] {
      LessTotal(regions, order[..|order| - 1], b);
    }
  }

  lemma CloseOrder(s: State, j: nat)
    requires OrderOk(s) && j < |s.order|
    ensures s.order[j] in s.regions && s.pages >= PageCount(s.regions[s.order[j]].size)
    ensures OrderOk(Close(s, j))
  {
    assert s.order[j] in s.order;
    CutTotal(s.regions, s.order, j);
    CutLemma(s.order, j);
    hide PageCount, TotalPages;
  }

  lemma CloseNodes(s: State, j: nat)
    requires Inv(s) && j < |s.order| && s.order[j] in s.regions && s.pages >= PageCount(s.regions[s.order[j]].size)
    ensures forall x :: NodeOk(Close(s, j), x)
    ensures forall c :: RegionOk(Close(s, j), c)
    ensures NodesApart(Close(s, j).nodes) && RegionsApart(Close(s, j))
  {
    hide PageCount, OrderOk, Fits;
    var t := Close(s, j);
    forall x ensures NodeOk(t, x) {
      assert NodeOk(s, x);
    }
    forall c ensures RegionOk(t, c) {
      assert RegionOk(s, c);
    }
  }

  lemma CloseInv(s: State, j: nat, h: nat) returns (t: State)
    requires Inv(s) && j < |s.order| && s.order[j] in s.regions && s.regions[s.order[j]].inUse == [h]
    ensures s.pages >= PageCount(s.regions[s.order[j]].size)
    ensures t == Close(s, j) && Inv(t) && Live(t) == Live(s) - {h}
  {
    hide PageCount, NodesApart, OrderOk, RegionOk, RegionsApart, NodeOk, Live;
    var b := s.order[j];
    CloseOrder(s, j);
    CloseNodes(s, j);
    t := Close(s, j);
    forall x ensures Listed(t, x) {
      assert Listed(s, x);
    }
    UsedNode(s, b, 0);
    CloseLive(s, j, h);
  }

  lemma CloseLive(s: State, j: nat, h: nat)
    requires Inv(s) && j < |s.order| && s.order[j] in s.regions && s.regions[s.order[j]].inUse == [h]
    requires s.pages >= PageCount(s.regions[s.order[j]].size) && Allocated(s, h) && s.nodes[h].region == s.order[j]
    ensures Live(Close(s, j)) == Live(s) - {h}
  {
    hide Inv, PageCount;
    Shrinks(s, Close(s, j), h);
  }

  // ---------- shrinking a node ----------

  function Resize(s: State, h: nat, size: nat): State
    requires h in s.nodes
  {
    s.(nodes := s.nodes[h := s.nodes[h].(size := size)])
  }

  lemma ResizeOk(s: State, h: nat, size: nat)
    requires Inv(s) && Allocated(s, h) && size <= s.nodes[h].size && size % 0x10 == 0
    ensures var t := Resize(s, h, size);
            NodesApart(t.nodes) && RegionOk(t, s.nodes[h].region) && forall x :: NodeOk(t, x) && Listed(t, x)
  {
    hide PageCount, OrderOk, RegionsApart, NoDup;
    var t := Resize(s, h, size);
    assert RegionOk(s, s.nodes[h].region);
    forall x ensures NodeOk(t, x) && Listed(t, x) {
      assert NodeOk(s, x) && Listed(s, x);
    }
  }

  lemma ResizeInv(s: State, h: nat, size: nat) returns (t: State)
    requires Inv(s) && Allocated(s, h) && size <= s.nodes[h].size && size % 0x10 == 0
    ensures t == Resize(s, h, size) && Inv(t) && Live(t) == Live(s)[h := size]
  {
    hide Inv, NodesApart, RegionOk, NodeOk;
    t := Resize(s, h, size);
    ResizeOk(s, h, size);
    OneRegion(s, t, s.nodes[h].region);
    assert forall x :: Allocated(t, x) <==> Allocated(s, x);
  }

  // ---------- no byte is lost ----------

  /** The bytes of all nodes, headers and payloads. */
  ghost function Footprint(nodes: map<nat, Node>): nat {
    if nodes == map[] then 0
    else
      var h :| h in nodes;
      NODE + nodes[h].size + Footprint(nodes - {h})
  }

  lemma {:induction false} TakeAway(nodes: map<nat, Node>, h: nat)
    requires h in nodes
    ensures Footprint(nodes) == NODE + nodes[h].size + Footprint(nodes - {h})
    decreases |nodes|
  {
    var g :| g in nodes && Footprint(nodes) == NODE + nodes[g].size + Footprint(nodes - {g});
    if g != h {
      assert |nodes - {g}| < |nodes| && |nodes - {h}| < |nodes| by {
        Fewer(nodes, g);
        Fewer(nodes, h);
      }
      TakeAway(nodes - {g}, h);
      TakeAway(nodes - {h}, g);
      assert nodes - {g} - {h} == nodes - {h} - {g};
    }
  }

  lemma Fewer(nodes: map<nat, Node>, h: nat)
    requires h in nodes
    ensures |nodes - {h}| < |nodes|
  {
    assert (nodes - {h}).Keys == nodes.Keys - {h};
    assert |nodes.Keys| == |nodes| && |(nodes - {h}).Keys| == |nodes - {h}|;
  }

  lemma Change(nodes: map<nat, Node>, h: nat, n: Node)
    ensures Footprint(nodes[h := n]) == NODE + n.size + Footprint(nodes - {h})
  {
    TakeAway(nodes[h := n], h);
    assert nodes[h := n] - {h} == nodes - {h};
  }

  /** Splitting a node divides its bytes between the two. */
  lemma SplitFootprint(s: State, b: nat, i: nat, size: nat)
    requires Inv(s) && b in s.regions && i < |s.regions[b].free| && size % 0x10 == 0
    requires s.regions[b].free[i] in s.nodes && s.nodes[s.regions[b].free[i]].size >= size + NODE
    ensures Footprint(Split(s, b, i, size).nodes) == Footprint(s.nodes)
  {
    hide Inv, Footprint;
    var t, g := SplitInv(s, b, i, size);
    var h := s.regions[b].free[i];
    var rest := s.nodes[h].size - (size + NODE);
    assert t.nodes == s.nodes[h := Node(rest, b)][g := Node(size, b)];
    Change(s.nodes[h := Node(rest, b)], g, Node(size, b));
    assert s.nodes[h := Node(rest, b)] - {g} == s.nodes[h := Node(rest, b)];
    Change(s.nodes, h, Node(rest, b));
    TakeAway(s.nodes, h);
  }

  /** A new region brings its block and a header, and nothing else. */
  lemma OpenFootprint(s: State, b: nat, n: nat)
    requires Inv(s) && FreshBlock(s, b, PageCount(n)) && GoodBlock(n)
    ensures Footprint(Open(s, b, n).nodes) == Footprint(s.nodes) + NODE + n
  {
    hide Inv, Footprint, PageCount;
    OpenNodes(s, b, n);
    Change(s.nodes, b + REGION, Node(n, b));
    assert s.nodes - {b + REGION} == s.nodes;
  }

  /** Shrinking a block where it is loses the bytes it gives up. */
  lemma ResizeFootprint(s: State, h: nat, size: nat)
    requires h in s.nodes && size <= s.nodes[h].size
    ensures Footprint(Resize(s, h, size).nodes) + (s.nodes[h].size - size) == Footprint(s.nodes)
  {
    hide Footprint;
    Change(s.nodes, h, s.nodes[h].(size := size));
    TakeAway(s.nodes, h);
  }
}
