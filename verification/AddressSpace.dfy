/**
  The virtual address allocator: the search for a free range in the page tree, the
  mapping of a range, and its release. One page size; addresses and sizes are 64-bit.
  The page tree is given by its in-order sequence, so that its minimum is the first
  element and the next node is the next element.
 */
module AddressSpace {

  const PAGE: nat := 0x1000
  const WORD: nat := 0x1_0000_0000_0000_0000

  datatype Page = Page(addr: nat, guard: bool)

  ghost predicate Ordered(ps: seq<Page>) {
    (forall i, j :: 0 <= i < j < |ps| ==> ps[i].addr < ps[j].addr) &&
    (forall i :: 0 <= i < |ps| ==> Aligned(ps[i].addr))
  }

  ghost predicate Aligned(a: nat) {
    a % PAGE == 0 && a + PAGE <= WORD
  }

  ghost function Pages(ps: seq<Page>): set<Page> {
    set p | p in ps
  }

  ghost predicate Mapped(ps: seq<Page>, a: nat) {
    exists i :: 0 <= i < |ps| && ps[i].addr == a
  }

  // ---------- the ordered sequence ----------

  /** How many pages lie below a. */
  function Below(ps: seq<Page>, a: nat): (n: nat)
    ensures n <= |ps|
  {
    if ps == [] || ps[0].addr >= a then 0 else 1 + Below(ps[1..], a)
  }

  lemma {:induction false} BelowLemma(ps: seq<Page>, a: nat)
    requires Ordered(ps)
    ensures forall i :: 0 <= i < |ps| ==> (ps[i].addr < a <==> i < Below(ps, a))
  {
    if ps != [] && ps[0].addr < a {
      BelowLemma(ps[1..], a);
      forall i | 0 <= i < |ps| ensures ps[i].addr < a <==> i < Below(ps, a) {
        if i > 0 {
          assert ps[i] == ps[1..][i - 1];
        }
      }
    }
  }

  /** Pages that lie in order and are the same pages lie in the same order. */
  lemma {:induction false} SamePages(a: seq<Page>, b: seq<Page>)
    requires Ordered(a) && Ordered(b) && Pages(a) == Pages(b)
    ensures a == b
  {
    if a == [] {
      if b != [] {
        HasPages(b);
      }
    } else {
      assert a[0] in Pages(a);
      var k :| 0 <= k < |b| && b[k] == a[0];
      assert b[0] in Pages(b);
      var m :| 0 <= m < |a| && a[m] == b[0];
      assert k == 0;
      forall p ensures p in Pages(a[1..]) <==> p in Pages(b[1..]) {
        Tail(a, p);
        Tail(b, p);
      }
      SamePages(a[1..], b[1..]);
    }
  }

  lemma HasPages(b: seq<Page>)
    requires b != []
    ensures Pages(b) != {}
  {
    assert b[0] in Pages(b);
  }

  lemma Tail(a: seq<Page>, p: Page)
    requires Ordered(a) && a != []
    ensures p in Pages(a[1..]) <==> p in Pages(a) && p != a[0]
  {
    if p in Pages(a) && p != a[0] {
      var i :| 0 <= i < |a| && a[i] == p;
      assert p == a[1..][i - 1];
    }
  }

  function Insert(ps: seq<Page>, p: Page): seq<Page> {
    var k := Below(ps, p.addr);
    ps[..k] + [p] + ps[k..]
  }

  lemma InsertLemma(ps: seq<Page>, p: Page)
    requires Ordered(ps) && Aligned(p.addr) && !Mapped(ps, p.addr)
    ensures Ordered(Insert(ps, p)) && Pages(Insert(ps, p)) == Pages(ps) + {p}
  {
    var k := Below(ps, p.addr);
    BelowLemma(ps, p.addr);
    InsertAt(ps, k, p);
  }

  lemma InsertAt(ps: seq<Page>, k: nat, p: Page)
    requires Ordered(ps) && Aligned(p.addr) && k <= |ps|
    requires forall i :: 0 <= i < |ps| ==> (i < k ==> ps[i].addr < p.addr) && (k <= i ==> p.addr < ps[i].addr)
    ensures Ordered(ps[..k] + [p] + ps[k..]) && Pages(ps[..k] + [p] + ps[k..]) == Pages(ps) + {p}
  {
    hide Aligned;
    var q := ps[..k] + [p] + ps[k..];
    forall i | 0 <= i < |q| ensures q[i] == (if i < k then ps[i] else if i == k then p else ps[i - 1]) {
    }
    InsertPages(ps, k, p);
  }

  lemma InsertPages(ps: seq<Page>, k: nat, p: Page)
    requires k <= |ps|
    ensures Pages(ps[..k] + [p] + ps[k..]) == Pages(ps) + {p}
  {
    assert ps == ps[..k] + ps[k..];
  }

  lemma DropLemma(ps: seq<Page>, k: nat)
    requires Ordered(ps) && k < |ps|
    ensures Ordered(ps[..k] + ps[k + 1..]) && Pages(ps[..k] + ps[k + 1..]) == Pages(ps) - {ps[k]}
  {
    assert ps == ps[..k] + [ps[k]] + ps[k + 1..];
  }

  // ---------- the search ----------

  /** The address the search settles on, once page k is the last one looked at. */
  function Scan(ps: seq<Page>, k: nat, hi: nat, t: nat): nat
    requires k < hi <= |ps|
    decreases hi - k
  {
    if k + 1 == hi then ps[k].addr + PAGE
    else if ps[k + 1].addr >= ps[k].addr + PAGE + t then ps[k].addr + PAGE + PAGE
    else Scan(ps, k + 1, hi, t)
  }

  function RoundDown(size: nat): nat {
    size - size % PAGE
  }

  /** The address chosen for size bytes among the pages from base up to limit. */
  function Pick(ps: seq<Page>, base: nat, limit: nat, size: nat): nat {
    Settle(ps, base, Below(ps, base), Below(ps, limit), (RoundDown(size) + PAGE) % WORD)
  }

  function Settle(ps: seq<Page>, base: nat, lo: nat, hi: nat, t: nat): nat
    requires hi <= |ps|
  {
    if lo >= hi || (ps[lo].addr != base && ps[lo].addr >= base + t) then base
    else if t == 0 then base + PAGE
    else Scan(ps, lo, hi, t)
  }

  ghost predicate Apart(p: Page, a: nat, size: nat) {
    p.addr + PAGE <= a || a + size <= p.addr
  }

  lemma {:induction false} ScanLemma(ps: seq<Page>, k: nat, hi: nat, t: nat)
    requires Ordered(ps) && k < hi <= |ps| && t >= PAGE
    ensures forall j :: 0 <= j < hi ==> Apart(ps[j], Scan(ps, k, hi, t), t - PAGE)
    ensures Scan(ps, k, hi, t) % PAGE == 0 && Scan(ps, k, hi, t) > ps[k].addr
    ensures Scan(ps, k, hi, t) + (t - PAGE) <= ps[hi - 1].addr || Scan(ps, k, hi, t) == ps[hi - 1].addr + PAGE
    ensures Scan(ps, k, hi, t) + (t - PAGE) <= ps[hi - 1].addr <==>
            exists j :: k <= j < hi - 1 && ps[j + 1].addr >= ps[j].addr + PAGE + t
    decreases hi - k
  {
    if k + 1 == hi {
    } else if ps[k + 1].addr >= ps[k].addr + PAGE + t {
      assert ps[k + 1].addr <= ps[hi - 1].addr;
    } else {
      ScanLemma(ps, k + 1, hi, t);
    }
  }

  ghost predicate Bounds(base: nat, limit: nat) {
    0 < base < limit && limit + PAGE <= WORD && base % PAGE == 0
  }

  ghost predicate Within(ps: seq<Page>, base: nat, limit: nat, lo: nat, hi: nat) {
    Ordered(ps) && Bounds(base, limit) && lo <= |ps| && hi <= |ps| &&
    (forall i :: 0 <= i < |ps| ==> (ps[i].addr < base <==> i < lo) && (ps[i].addr < limit <==> i < hi))
  }

  lemma WithinLemma(ps: seq<Page>, base: nat, limit: nat)
    requires Ordered(ps) && Bounds(base, limit)
    ensures Within(ps, base, limit, Below(ps, base), Below(ps, limit))
  {
    BelowLemma(ps, base);
    BelowLemma(ps, limit);
  }

  lemma SettleLemma(ps: seq<Page>, base: nat, limit: nat, lo: nat, hi: nat, size: nat)
    requires Within(ps, base, limit, lo, hi)
    ensures var a := Settle(ps, base, lo, hi, size + PAGE);
            base <= a && a % PAGE == 0 && forall j :: 0 <= j < hi ==> Apart(ps[j], a, size)
    ensures Settle(ps, base, lo, hi, size + PAGE) + size <= limit <==> Roomy(ps, base, limit, lo, hi, size)
  {
    if lo < hi {
      ScanLemma(ps, lo, hi, size + PAGE);
    }
  }

  lemma PickLow(ps: seq<Page>, base: nat, limit: nat, size: nat)
    requires Ordered(ps) && Bounds(base, limit) && RoundDown(size) + PAGE < WORD
    ensures var a := Pick(ps, base, limit, size);
            base <= a && a % PAGE == 0 && forall p :: p in ps && p.addr < limit ==> Apart(p, a, RoundDown(size))
  {
    WithinLemma(ps, base, limit);
    SettleLemma(ps, base, limit, Below(ps, base), Below(ps, limit), RoundDown(size));
    hide Settle;
  }

  /** The range chosen overlaps no page below the limit, unless size + PAGE wraps: then
      it does not exactly if the only page from base up to the limit is one at base. */
  lemma PickApartIff(ps: seq<Page>, base: nat, limit: nat, size: nat)
    requires Ordered(ps) && Bounds(base, limit) && size < WORD
    ensures (forall p :: p in ps && p.addr < limit ==> Apart(p, Pick(ps, base, limit, size), RoundDown(size))) <==>
            size < WORD - PAGE || (forall p :: p in ps && base <= p.addr < limit ==> p.addr == base)
  {
    var lo, hi := Below(ps, base), Below(ps, limit);
    BelowLemma(ps, base);
    BelowLemma(ps, limit);
    if size < WORD - PAGE {
      PickLow(ps, base, limit, size);
    } else {
      assert RoundDown(size) == WORD - PAGE;
      var a := Pick(ps, base, limit, size);
      if lo < hi {
        assert ps[lo] in ps;
        if lo + 1 < hi {
          assert ps[lo + 1] in ps && ps[lo + 1].addr > base;
          assert !Apart(ps[lo + 1], a, RoundDown(size));
        }
        forall p | p in ps && p.addr == base && ps[lo].addr == base ensures p == ps[lo] {
        }
      }
    }
  }

  ghost predicate Roomy(ps: seq<Page>, base: nat, limit: nat, lo: nat, hi: nat, size: nat)
    requires hi <= |ps|
  {
    if lo >= hi then base + size <= limit
    else
      ps[lo].addr >= base + size + PAGE ||
      (exists j :: lo <= j < hi - 1 && ps[j + 1].addr >= ps[j].addr + PAGE + size + PAGE) ||
      ps[hi - 1].addr + PAGE + size <= limit
  }

  /** The limit is not checked: the range ends below it exactly if there was room for it
      before the first page, between two pages with a page to spare, or after the last. */
  lemma PickInLimitIff(ps: seq<Page>, base: nat, limit: nat, size: nat)
    requires Ordered(ps) && Bounds(base, limit) && size + PAGE < WORD && size % PAGE == 0
    ensures Pick(ps, base, limit, size) + size <= limit <==>
            Roomy(ps, base, limit, Below(ps, base), Below(ps, limit), size)
  {
    hide Settle, Roomy;
    WithinLemma(ps, base, limit);
    SettleLemma(ps, base, limit, Below(ps, base), Below(ps, limit), size);
  }

  /** Between pages j and j + 1 there is room for size bytes and a page. */
  ghost predicate Gap(ps: seq<Page>, j: nat, size: nat)
    requires j + 1 < |ps|
  {
    ps[j + 1].addr - (ps[j].addr + PAGE) >= size + PAGE
  }

  ghost predicate FirstGap(ps: seq<Page>, lo: nat, hi: nat, size: nat, j: nat)
    requires hi <= |ps|
  {
    lo <= j < hi - 1 && Gap(ps, j, size) && forall i :: lo <= i < j ==> !Gap(ps, i, size)
  }

  ghost predicate NoGap(ps: seq<Page>, lo: nat, hi: nat, size: nat)
    requires hi <= |ps|
  {
    forall j :: lo <= j < hi - 1 ==> !Gap(ps, j, size)
  }

  /** Which address it is: the base, if the first page of the space leaves room before it;
      else a page behind the page before the first gap; else right behind the last page. */
  lemma PickIs(ps: seq<Page>, base: nat, limit: nat, size: nat, lo: nat, hi: nat)
    requires Within(ps, base, limit, lo, hi) && size + PAGE < WORD && size % PAGE == 0
    ensures lo >= hi || ps[lo].addr >= base + size + PAGE ==> Pick(ps, base, limit, size) == base
    ensures lo < hi && ps[lo].addr < base + size + PAGE ==>
              (forall j: nat :: FirstGap(ps, lo, hi, size, j) ==> Pick(ps, base, limit, size) == ps[j].addr + PAGE + PAGE) &&
              (NoGap(ps, lo, hi, size) ==> Pick(ps, base, limit, size) == ps[hi - 1].addr + PAGE)
  {
    hide Pick, Within, NoGap, Scan;
    PickSettles(ps, base, limit, size, lo, hi);
    if lo < hi && ps[lo].addr < base + size + PAGE {
      forall j: nat | FirstGap(ps, lo, hi, size, j) ensures Scan(ps, lo, hi, size + PAGE) == ps[j].addr + PAGE + PAGE {
        ScanTo(ps, lo, hi, size, j);
      }
      if NoGap(ps, lo, hi, size) {
        ScanToEnd(ps, lo, hi, size);
      }
    }
  }

  lemma PickSettles(ps: seq<Page>, base: nat, limit: nat, size: nat, lo: nat, hi: nat)
    requires Within(ps, base, limit, lo, hi) && size + PAGE < WORD && size % PAGE == 0
    ensures hi <= |ps| && Pick(ps, base, limit, size) == Settle(ps, base, lo, hi, size + PAGE)
  {
    hide Settle, RoundDown, Below;
    WithinOnce(ps, base, limit, lo, hi);
    Whole(size);
  }

  lemma Whole(size: nat)
    requires size % PAGE == 0
    ensures RoundDown(size) == size
  {
  }

  lemma WithinOnce(ps: seq<Page>, base: nat, limit: nat, lo: nat, hi: nat)
    requires Within(ps, base, limit, lo, hi)
    ensures lo == Below(ps, base) && hi == Below(ps, limit)
  {
    BelowLemma(ps, base);
    BelowLemma(ps, limit);
    var l, h := Below(ps, base), Below(ps, limit);
    assert l < |ps| ==> (ps[l].addr < base <==> l < lo);
    assert lo < |ps| ==> (ps[lo].addr < base <==> lo < l);
    assert h < |ps| ==> (ps[h].addr < limit <==> h < hi);
    assert hi < |ps| ==> (ps[hi].addr < limit <==> hi < h);
  }

  lemma {:induction false} ScanTo(ps: seq<Page>, k: nat, hi: nat, size: nat, j: nat)
    requires hi <= |ps| && FirstGap(ps, k, hi, size, j)
    ensures k < hi && Scan(ps, k, hi, size + PAGE) == ps[j].addr + PAGE + PAGE
    decreases j - k
  {
    if k < j {
      assert !Gap(ps, k, size);
      ScanTo(ps, k + 1, hi, size, j);
    }
  }

  lemma {:induction false} ScanToEnd(ps: seq<Page>, k: nat, hi: nat, size: nat)
    requires k < hi <= |ps| && NoGap(ps, k, hi, size)
    ensures Scan(ps, k, hi, size + PAGE) == ps[hi - 1].addr + PAGE
    decreases hi - k
  {
    if k + 1 < hi {
      assert !Gap(ps, k, size);
      ScanToEnd(ps, k + 1, hi, size);
    }
  }

  /** n pages from base on, without a gap. */
  function Solid(base: nat, n: nat): seq<Page> {
    seq(n, i requires 0 <= i < n => Page(base + i * PAGE, false))
  }

  /** How many pages reach from base to the first one that is not below the limit. */
  function Reach(base: nat, limit: nat): nat
    requires base <= limit
  {
    (limit - base + PAGE - 1) / PAGE
  }

  lemma {:induction false} SolidScan(base: nat, n: nat, k: nat, hi: nat)
    requires k < hi <= n
    ensures Scan(Solid(base, n), k, hi, 2 * PAGE) == base + hi * PAGE
    decreases hi - k
  {
    if k + 1 < hi {
      SolidScan(base, n, k + 1, hi);
    }
  }

  lemma SolidLayout(base: nat, limit: nat)
    requires Bounds(base, limit)
    ensures var n := Reach(base, limit); var ps := Solid(base, n + 1);
            n > 0 && Ordered(ps) && Below(ps, base) == 0 && Below(ps, limit) == n &&
            limit <= base + n * PAGE < limit + PAGE
  {
    var n := Reach(base, limit);
    var ps := Solid(base, n + 1);
    forall i | 0 <= i < |ps| ensures Aligned(ps[i].addr) {
      AlignedStep(base, i);
    }
    assert Ordered(ps);
    hide Below, Ordered;
    BelowLemma(ps, base);
    BelowLemma(ps, limit);
    assert ps[0].addr == base && ps[n - 1].addr < limit && ps[n].addr >= limit;
  }

  lemma AlignedStep(base: nat, i: nat)
    requires base % PAGE == 0
    ensures (base + i * PAGE) % PAGE == 0
  {
  }

  /** For any bounds: with every page of the address space mapped and the one behind it, the
      address found for one page is that of the page behind. */
  lemma PickBeyondLimit(base: nat, limit: nat)
    requires Bounds(base, limit)
    ensures var n := Reach(base, limit); var ps := Solid(base, n + 1);
            n < |ps| && Ordered(ps) && Pick(ps, base, limit, PAGE) == ps[n].addr && limit <= ps[n].addr
  {
    hide Scan, Ordered;
    var n := Reach(base, limit);
    SolidLayout(base, limit);
    SolidScan(base, n + 1, 0, n);
    assert RoundDown(PAGE) == PAGE;
  }

  // ---------- lookups and ranges ----------

  predicate Has(ps: seq<Page>, a: nat) {
    var k := Below(ps, a);
    k < |ps| && ps[k].addr == a
  }

  lemma HasLemma(ps: seq<Page>, a: nat)
    requires Ordered(ps)
    ensures Has(ps, a) <==> Mapped(ps, a)
  {
    BelowLemma(ps, a);
  }

  function RoundUp(size: nat): nat {
    if size % PAGE == 0 then size else (size + (PAGE - size % PAGE)) % WORD
  }

  lemma NextSlot(a: nat, x: nat)
    requires a % PAGE == 0 && x % PAGE == 0 && a <= x < a + PAGE
    ensures x == a
  {
  }

  lemma SlotGap(a: nat, x: nat)
    requires a % PAGE == 0 && x % PAGE == 0
    ensures a <= x < a + PAGE ==> x == a
  {
  }

  lemma NothingHere(ps: seq<Page>, a: nat)
    requires Ordered(ps) && a % PAGE == 0 && !Mapped(ps, a)
    ensures forall i :: 0 <= i < |ps| ==> !(a <= ps[i].addr < a + PAGE)
  {
    forall i | 0 <= i < |ps| ensures !(a <= ps[i].addr < a + PAGE) {
      SlotGap(a, ps[i].addr);
    }
  }

  /** Some page starts in the range from b to the (wrapping) end of size bytes. */
  ghost predicate Conflict(ps: seq<Page>, b: nat, size: nat) {
    exists i :: 0 <= i < |ps| && b <= ps[i].addr < (b + size) % WORD
  }

  ghost function Addrs(ps: seq<Page>): set<nat> {
    set p | p in ps :: p.addr
  }

  function Slot(b: nat, i: nat): nat {
    (b + i * PAGE) % WORD
  }

  ghost function SlotAddrs(b: nat, from: nat, to: nat): set<nat> {
    set i | from <= i < to :: Slot(b, i)
  }

  /** Pages from up to to of a mapping at b; page 0 may be a guard page. */
  ghost function Slots(b: nat, from: nat, to: nat, guard: bool): set<Page> {
    set i | from <= i < to :: Page(Slot(b, i), guard && i == 0)
  }

  lemma SlotLemma(b: nat, i: nat, j: nat)
    requires b % PAGE == 0 && b < WORD && i <= j && j * PAGE < WORD
    ensures Aligned(Slot(b, i)) && (Slot(b, i) == Slot(b, j) ==> i == j)
  {
    SlotValue(b, i);
    SlotValue(b, j);
  }

  lemma SlotValue(b: nat, i: nat)
    requires b % PAGE == 0 && b < WORD && i * PAGE < WORD
    ensures Slot(b, i) == (if b + i * PAGE < WORD then b + i * PAGE else b + i * PAGE - WORD)
    ensures Aligned(Slot(b, i))
  {
  }

  lemma AddrsOf(ps: seq<Page>)
    ensures forall a :: a in Addrs(ps) <==> Mapped(ps, a)
  {
  }

  /** The node of a page: a new one, unless the tree has one at that address. */
  function Place(ps: seq<Page>, a: nat, guard: bool): seq<Page> {
    if Has(ps, a) then
      var k := Below(ps, a);
      ps[k := Page(a, ps[k].guard || guard)]
    else Insert(ps, Page(a, guard))
  }

  lemma PlaceOld(ps: seq<Page>, a: nat, guard: bool)
    requires Ordered(ps) && Has(ps, a)
    ensures Ordered(Place(ps, a, guard)) && Addrs(Place(ps, a, guard)) == Addrs(ps)
  {
    hide Aligned, Addrs, Ordered;
    SameAddrs(ps, Place(ps, a, guard));
  }

  lemma SameAddrs(ps: seq<Page>, q: seq<Page>)
    requires |ps| == |q| && forall i :: 0 <= i < |ps| ==> q[i].addr == ps[i].addr
    ensures Addrs(q) == Addrs(ps) && (Ordered(ps) ==> Ordered(q))
  {
    hide Aligned;
    AddrsOf(ps);
    AddrsOf(q);
    assert forall x :: Mapped(ps, x) ==> Mapped(q, x);
    hide Addrs;
    assert forall x :: Mapped(q, x) ==> Mapped(ps, x);
    assert Addrs(q) == Addrs(ps);
  }

  lemma PlaceLemma(ps: seq<Page>, a: nat, guard: bool)
    requires Ordered(ps) && Aligned(a)
    ensures Ordered(Place(ps, a, guard)) && Addrs(Place(ps, a, guard)) == Addrs(ps) + {a}
    ensures a !in Addrs(ps) ==> Pages(Place(ps, a, guard)) == Pages(ps) + {Page(a, guard)}
  {
    hide Aligned, Ordered;
    HasLemma(ps, a);
    AddrsOf(ps);
    if Has(ps, a) {
      PlaceOld(ps, a, guard);
    } else {
      InsertLemma(ps, Page(a, guard));
      AddrsSplit(ps, Insert(ps, Page(a, guard)), Page(a, guard));
    }
  }

  lemma AddrsSplit(ps: seq<Page>, q: seq<Page>, p: Page)
    requires Pages(q) == Pages(ps) + {p}
    ensures Addrs(q) == Addrs(ps) + {p.addr}
  {
    forall a ensures a in Addrs(q) <==> a in Addrs(ps) || a == p.addr {
      if a in Addrs(q) {
        var x :| x in q && x.addr == a;
        assert x in Pages(q);
        assert x in ps || x == p;
      }
      if a in Addrs(ps) {
        var x :| x in ps && x.addr == a;
        assert x in Pages(q);
      }
      assert p in Pages(q);
    }
  }

  function Remove(ps: seq<Page>, a: nat): seq<Page> {
    if Has(ps, a) then
      var k := Below(ps, a);
      ps[..k] + ps[k + 1..]
    else ps
  }

  lemma RemoveLemma(ps: seq<Page>, a: nat)
    requires Ordered(ps)
    ensures Ordered(Remove(ps, a)) && Pages(Remove(ps, a)) == (set p | p in ps && p.addr != a)
    ensures Addrs(Remove(ps, a)) == Addrs(ps) - {a}
  {
    hide Aligned;
    HasLemma(ps, a);
    var r := Remove(ps, a);
    if Has(ps, a) {
      var k := Below(ps, a);
      DropLemma(ps, k);
      assert forall p :: p in ps && p.addr == a ==> p == ps[k];
    }
    assert forall p :: p in Pages(r) <==> p in ps && p.addr != a;
    assert forall p :: p in r <==> p in Pages(r);
  }

  /** Beside the old pages, ps has those of a mapping of n pages at b from page from up to
      page to; if the old pages left that room free, it has nothing else and no less. */
  ghost predicate Placed(old_: seq<Page>, ps: seq<Page>, b: nat, n: nat, from: nat, to: nat, guard: bool) {
    Ordered(ps) && Addrs(ps) == Addrs(old_) + SlotAddrs(b, from, to) &&
    (Addrs(old_) !! SlotAddrs(b, 0, n) ==> Pages(ps) == Pages(old_) + Slots(b, from, to, guard))
  }

  lemma PlaceNext(old_: seq<Page>, ps: seq<Page>, b: nat, n: nat, i: nat, guard: bool)
    requires Placed(old_, ps, b, n, 0, i, guard) && i < n && n * PAGE < WORD && b % PAGE == 0 && b < WORD
    ensures Placed(old_, Place(ps, Slot(b, i), guard && i == 0), b, n, 0, i + 1, guard)
  {
    hide Ordered, Place, Slot;
    SlotLemma(b, i, i);
    PlaceLemma(ps, Slot(b, i), guard && i == 0);
    assert SlotAddrs(b, 0, i + 1) == SlotAddrs(b, 0, i) + {Slot(b, i)};
    assert Slots(b, 0, i + 1, guard) == Slots(b, 0, i, guard) + {Page(Slot(b, i), guard && i == 0)};
    if Addrs(old_) !! SlotAddrs(b, 0, n) {
      assert Slot(b, i) in SlotAddrs(b, 0, n);
      NotBefore(b, i);
    }
  }

  lemma NotBefore(b: nat, i: nat)
    requires b % PAGE == 0 && b < WORD && i * PAGE < WORD
    ensures Slot(b, i) !in SlotAddrs(b, 0, i)
  {
    forall j | 0 <= j < i ensures Slot(b, j) != Slot(b, i) {
      SlotLemma(b, j, i);
    }
  }

  lemma NotAfter(b: nat, i: nat, n: nat)
    requires b % PAGE == 0 && b < WORD && n * PAGE < WORD
    ensures Slot(b, i) !in SlotAddrs(b, i + 1, n)
  {
    forall j | i < j < n ensures Slot(b, j) != Slot(b, i) {
      SlotLemma(b, i, j);
    }
  }

  lemma CleanNext(old_: seq<Page>, ps: seq<Page>, b: nat, n: nat, i: nat, to: nat, guard: bool)
    requires Placed(old_, ps, b, n, i, to, guard) && i < to <= n && n * PAGE < WORD && b % PAGE == 0 && b < WORD
    ensures Slot(b, i) in Addrs(old_) ==> Placed(old_, ps, b, n, i + 1, to, guard)
    ensures Slot(b, i) !in Addrs(old_) ==> Placed(old_, Remove(ps, Slot(b, i)), b, n, i + 1, to, guard)
  {
    hide Ordered, Remove, Slot;
    var a := Slot(b, i);
    assert SlotAddrs(b, i, to) == {a} + SlotAddrs(b, i + 1, to);
    assert a in SlotAddrs(b, 0, n);
    if a !in Addrs(old_) {
      NotAfter(b, i, to);
      RemoveLemma(ps, a);
      if Addrs(old_) !! SlotAddrs(b, 0, n) {
        CleanPages(old_, ps, b, i, to, guard);
      }
    }
  }

  lemma CleanPages(old_: seq<Page>, ps: seq<Page>, b: nat, i: nat, to: nat, guard: bool)
    requires Pages(ps) == Pages(old_) + Slots(b, i, to, guard) && Slot(b, i) !in Addrs(old_)
    requires Slot(b, i) !in SlotAddrs(b, i + 1, to) && i < to
    ensures (set p | p in ps && p.addr != Slot(b, i)) == Pages(old_) + Slots(b, i + 1, to, guard)
  {
    hide Slot;
    forall p ensures p in ps && p.addr != Slot(b, i) <==> p in Pages(old_) + Slots(b, i + 1, to, guard) {
      assert p in ps <==> p in Pages(ps);
      assert p in Pages(old_) ==> p.addr in Addrs(old_);
      if p in Slots(b, i + 1, to, guard) {
        var j :| i + 1 <= j < to && p == Page(Slot(b, j), guard && j == 0);
        assert p.addr in SlotAddrs(b, i + 1, to);
      }
    }
  }

  lemma PlacedNone(ps: seq<Page>, b: nat, n: nat, guard: bool)
    requires Ordered(ps)
    ensures Placed(ps, ps, b, n, 0, 0, guard)
  {
    assert SlotAddrs(b, 0, 0) == {} && Slots(b, 0, 0, guard) == {};
  }

  lemma PlacedOrdered(old_: seq<Page>, ps: seq<Page>, b: nat, n: nat, from: nat, to: nat, guard: bool)
    requires Placed(old_, ps, b, n, from, to, guard)
    ensures Ordered(ps)
  {
  }

  lemma PlacedEnd(old_: seq<Page>, ps: seq<Page>, b: nat, n: nat, i: nat, guard: bool)
    requires Placed(old_, ps, b, n, i, i, guard) && Ordered(old_)
    ensures Addrs(ps) == Addrs(old_)
    ensures Addrs(old_) !! SlotAddrs(b, 0, n) ==> ps == old_
  {
    hide Ordered;
    assert SlotAddrs(b, i, i) == {} && Slots(b, i, i, guard) == {};
    if Addrs(old_) !! SlotAddrs(b, 0, n) {
      SamePages(ps, old_);
    }
  }

  lemma OursLemma(old_: seq<Page>, ps: seq<Page>, b: nat, n: nat, i: nat, guard: bool)
    requires Placed(old_, ps, b, n, 0, i, guard) && i < n && n * PAGE < WORD && b % PAGE == 0 && b < WORD
    ensures Has(ps, Slot(b, i)) <==> Slot(b, i) in Addrs(old_)
  {
    hide Ordered, Slot;
    HasLemma(ps, Slot(b, i));
    AddrsOf(ps);
    NotBefore(b, i);
  }

  // ---------- choosing where to map ----------

  /** The base looked at in turn n of the loop that retries a hint. */
  ghost function TurnBase(ps: seq<Page>, base: nat, limit: nat, b0: nat, size: nat, n: nat): nat {
    if n == 0 && b0 != 0 then b0 else Pick(ps, base, limit, size)
  }

  datatype Choice = Use(b: nat) | Taken | Retries

  ghost function Choose(ps: seq<Page>, base: nat, limit: nat, b0: nat, size: nat, hint: bool): Choice {
    var b := TurnBase(ps, base, limit, b0, size, 0);
    if !Conflict(ps, b, size) then Use(b)
    else if !hint then Taken
    else
      var c := TurnBase(ps, base, limit, b0, size, 1);
      if Conflict(ps, c, size) then Retries else Use(c)
  }

  /** Where a mapping goes: to the base that was asked for, if there is one and either it is
      free or must be kept; else to the address the search proposes. */
  ghost predicate GoesTo(ps: seq<Page>, base: nat, limit: nat, b0: nat, size: nat, hint: bool, b: nat) {
    if b0 != 0 && !(hint && Conflict(ps, b0, size)) then b == b0 else b == Pick(ps, base, limit, size)
  }

  /** A base that was asked for and is taken is refused exactly without the hint flag; with
      it, or without a base, only the address the search proposes can be in the way. */
  lemma ChooseIff(ps: seq<Page>, base: nat, limit: nat, b0: nat, size: nat, hint: bool)
    ensures var c := Choose(ps, base, limit, b0, size, hint);
            (c == Taken <==>
               !hint && Conflict(ps, if b0 != 0 then b0 else Pick(ps, base, limit, size), size)) &&
            (c == Retries <==>
               hint && (b0 == 0 || Conflict(ps, b0, size)) && Conflict(ps, Pick(ps, base, limit, size), size)) &&
            (c.Use? ==> GoesTo(ps, base, limit, b0, size, hint, c.b) && !Conflict(ps, c.b, size))
  {
    hide Pick, Conflict;
  }

  /** A hint is retried for ever exactly if its own range meets a page and the range the
      search proposes ends below 2^64 and holds a page at or above the limit. */
  lemma RetriesIff(ps: seq<Page>, base: nat, limit: nat, b0: nat, size: nat)
    requires Ordered(ps) && Bounds(base, limit) && size < WORD && size % PAGE == 0
    ensures Choose(ps, base, limit, b0, size, true).Retries? <==>
            (b0 == 0 || Conflict(ps, b0, size)) && Pick(ps, base, limit, size) + size < WORD &&
            exists p :: p in ps && limit <= p.addr &&
              Pick(ps, base, limit, size) <= p.addr < Pick(ps, base, limit, size) + size
  {
    hide Pick, Ordered;
    PickConflict(ps, base, limit, size);
    assert TurnBase(ps, base, limit, b0, size, 1) == Pick(ps, base, limit, size);
  }

  /** The range the search proposes meets a page only beyond the limit. */
  lemma PickConflict(ps: seq<Page>, base: nat, limit: nat, size: nat)
    requires Ordered(ps) && Bounds(base, limit) && size < WORD && size % PAGE == 0
    ensures var a := Pick(ps, base, limit, size);
            Conflict(ps, a, size) <==>
            a + size < WORD && exists p :: p in ps && limit <= p.addr && a <= p.addr < a + size
  {
    hide Pick, Ordered;
    var a := Pick(ps, base, limit, size);
    PickSmall(ps, base, limit, size);
    if size + PAGE < WORD {
      PickLow(ps, base, limit, size);
    }
    if Conflict(ps, a, size) {
      var i :| 0 <= i < |ps| && a <= ps[i].addr < (a + size) % WORD;
      WrappedEnd(a, size, ps[i].addr);
      assert ps[i] in ps && !Apart(ps[i], a, size);
    }
    if a + size < WORD && exists p :: p in ps && limit <= p.addr && a <= p.addr < a + size {
      var p :| p in ps && limit <= p.addr && a <= p.addr < a + size;
      var i :| 0 <= i < |ps| && ps[i] == p;
      assert a <= ps[i].addr < (a + size) % WORD;
    }
  }

  /** With every page of the address space mapped and the one behind it, a hint at the base
      for one page is retried for ever. */
  lemma HintHangs(base: nat, limit: nat)
    requires Bounds(base, limit) && limit + 2 * PAGE <= WORD
    ensures var ps := Solid(base, Reach(base, limit) + 1);
            Ordered(ps) && Choose(ps, base, limit, base, PAGE, true) == Retries
  {
    hide Pick, Ordered;
    var n := Reach(base, limit);
    var ps := Solid(base, n + 1);
    SolidLayout(base, limit);
    PickBeyondLimit(base, limit);
    BehindPage(base, limit, n);
    assert ps[0].addr == base && ps[n] in ps;
    assert Conflict(ps, base, PAGE);
    hide Bounds, Conflict;
    RetriesIff(ps, base, limit, base, PAGE);
  }

  lemma BehindPage(base: nat, limit: nat, n: nat)
    requires limit + 2 * PAGE <= WORD && base + n * PAGE < limit + PAGE
    ensures base + n * PAGE + PAGE < WORD
  {
  }

  ghost predicate Hangs(base: nat, limit: nat, ps: seq<Page>, b0: nat, size: nat) {
    Ordered(ps) && size < WORD && size % PAGE == 0 && Choose(ps, base, limit, b0, size, true).Retries?
  }

  /** There is a layout on which some hint is retried for ever exactly if a page fits between
      the limit and the last page below 2^64. */
  lemma CanHangIff(base: nat, limit: nat)
    requires Bounds(base, limit)
    ensures (exists ps, b0, size :: Hangs(base, limit, ps, b0, size)) <==> limit + 2 * PAGE <= WORD
  {
    hide Choose, Ordered;
    if limit + 2 * PAGE <= WORD {
      HintHangs(base, limit);
      assert Hangs(base, limit, Solid(base, Reach(base, limit) + 1), base, PAGE);
    } else {
      forall ps, b0, size ensures !Hangs(base, limit, ps, b0, size) {
        if Hangs(base, limit, ps, b0, size) {
          RoomBehind(ps, base, limit, b0, size);
        }
      }
    }
  }

  lemma RoomBehind(ps: seq<Page>, base: nat, limit: nat, b0: nat, size: nat)
    requires Bounds(base, limit) && Hangs(base, limit, ps, b0, size)
    ensures limit + 2 * PAGE <= WORD
  {
    hide Choose, Pick;
    RetriesIff(ps, base, limit, b0, size);
    PickSmall(ps, base, limit, size);
    var a := Pick(ps, base, limit, size);
    var p :| p in ps && limit <= p.addr && a <= p.addr < a + size;
    assert Aligned(p.addr);
    PagesBetween(a, size, p.addr);
  }

  /** A page in a range of whole pages that ends below 2^64 is not the last one. */
  lemma PagesBetween(a: nat, size: nat, x: nat)
    requires a % PAGE == 0 && size % PAGE == 0 && x % PAGE == 0 && x < a + size < WORD
    ensures x + 2 * PAGE <= WORD
  {
    var i, j, k := a / PAGE, size / PAGE, x / PAGE;
    assert a == i * PAGE && size == j * PAGE && x == k * PAGE;
    assert k + 1 <= i + j;
  }

  lemma WrappedEnd(a: nat, size: nat, x: nat)
    requires a < WORD && size < WORD && a <= x < (a + size) % WORD
    ensures x < a + size < WORD
  {
  }

  lemma PickSmall(ps: seq<Page>, base: nat, limit: nat, size: nat)
    requires Ordered(ps) && Bounds(base, limit) && size < WORD
    ensures Pick(ps, base, limit, size) % PAGE == 0 && 0 < Pick(ps, base, limit, size) < WORD
  {
    WithinLemma(ps, base, limit);
    var lo, hi := Below(ps, base), Below(ps, limit);
    if lo < hi {
      var t := (RoundDown(size) + PAGE) % WORD;
      if t > 0 {
        assert t >= PAGE by { WholePages(size); }
        ScanLemma(ps, lo, hi, t);
      }
    }
  }

  lemma WholePages(size: nat)
    ensures var t := (RoundDown(size) + PAGE) % WORD; t == 0 || t >= PAGE
  {
    assert RoundDown(size) % PAGE == 0;
    assert (RoundDown(size) + PAGE) % PAGE == 0;
    assert WORD % PAGE == 0;
  }

  // ---------- releasing a range ----------

  function At(b: nat, i: nat): nat {
    b + i * PAGE
  }

  ghost predicate AllMapped(ps: seq<Page>, b: nat, e: nat) {
    Mapped(ps, b) && forall i: nat :: At(b, i) < e ==> Mapped(ps, At(b, i))
  }

  predicate GuardAt(ps: seq<Page>, a: nat) {
    var k := Below(ps, a);
    k < |ps| && ps[k].addr == a && ps[k].guard
  }

  lemma GuardLemma(ps: seq<Page>, a: nat)
    requires Ordered(ps)
    ensures GuardAt(ps, a) <==> Page(a, true) in ps
  {
    BelowLemma(ps, a);
  }

  /** Where a release at b starts: a guard page below b goes with it. */
  function ReleaseBase(ps: seq<Page>, b: nat): (r: nat)
    requires b >= PAGE
  {
    if GuardAt(ps, b - PAGE) then b - PAGE else b
  }

  /** The pages that do not start in the range from from to to. */
  ghost predicate Cut(ps: seq<Page>, q: seq<Page>, from: nat, to: nat) {
    Ordered(q) && Pages(q) == (set p | p in ps && !(from <= p.addr < to))
  }

  lemma CutNone(ps: seq<Page>, from: nat, to: nat)
    requires Ordered(ps) && to <= from
    ensures Cut(ps, ps, from, to)
  {
  }

  lemma CutNext(ps: seq<Page>, q: seq<Page>, from: nat, a: nat)
    requires Ordered(ps) && Cut(ps, q, from, a) && from <= a && a % PAGE == 0 && Mapped(ps, a)
    ensures Has(q, a) && Cut(ps, Remove(q, a), from, a + PAGE)
  {
    hide Aligned, Remove;
    var i :| 0 <= i < |ps| && ps[i].addr == a;
    assert ps[i] in Pages(q);
    HasLemma(q, a);
    RemoveLemma(q, a);
    forall p | p in ps ensures from <= p.addr < a + PAGE <==> from <= p.addr < a || p.addr == a {
      var k :| 0 <= k < |ps| && ps[k] == p;
      AlignedAt(ps, k);
      if a <= p.addr < a + PAGE {
        NextSlot(a, p.addr);
      }
    }
    assert forall p :: p in q <==> p in Pages(q);
  }

  lemma BelowNext(ps: seq<Page>, a: nat)
    requires Ordered(ps) && a % PAGE == 0 && Has(ps, a)
    ensures Below(ps, a + PAGE) == Below(ps, a) + 1
  {
    BelowLemma(ps, a);
    BelowLemma(ps, a + PAGE);
    var k := Below(ps, a);
    if k + 1 < |ps| && ps[k + 1].addr < a + PAGE {
      AlignedAt(ps, k + 1);
      NextSlot(a, ps[k + 1].addr);
    }
  }

  // ---------- what mapping and releasing do together ----------

  function WholeSize(size: nat): nat {
    (size + PAGE - 1) / PAGE * PAGE
  }

  lemma WholeSizeLemma(size: nat)
    requires size < WORD
    ensures RoundUp(size) == WholeSize(size) % WORD && WholeSize(size) <= WORD
    ensures WholeSize(size) == WORD ==> RoundUp(size) == 0
  {
    RoundUpLemma(size);
    var k := (size + PAGE - 1) / PAGE;
    if size % PAGE == 0 {
      assert k * PAGE == size;
    } else {
      assert k * PAGE == size - size % PAGE + PAGE;
    }
  }

  /** A release that reports success takes away the whole range, with its guard page,
      exactly if the range ends below 2^64. */
  lemma FreeExactIff(ps: seq<Page>, q: seq<Page>, b: nat, size: nat)
    requires Ordered(ps) && b % PAGE == 0 && PAGE <= b < WORD && 0 < size < WORD
    requires AllMapped(ps, b, (b + RoundUp(size)) % WORD)
    requires Cut(ps, q, ReleaseBase(ps, b), (b + RoundUp(size)) % WORD)
    ensures Cut(ps, q, ReleaseBase(ps, b), b + WholeSize(size)) <==> b + WholeSize(size) < WORD
  {
    hide Ordered, RoundUp, WholeSize;
    WholeSizeLemma(size);
    RoundUpLemma(size);
    PositiveSize(size);
    var e := (b + RoundUp(size)) % WORD;
    if b + WholeSize(size) >= WORD {
      EndLemma(b, size);
      assert e <= b;
      var i :| 0 <= i < |ps| && ps[i].addr == b;
      assert ps[i] in Pages(q);
      assert ps[i] !in (set p | p in ps && !(ReleaseBase(ps, b) <= p.addr < b + WholeSize(size)));
    }
  }

  /** The last page of all: its release is reported, and it is still there. */
  lemma LastPageStays()
    ensures var b := WORD - PAGE; var ps := [Page(b, false)]; var e := (b + RoundUp(PAGE)) % WORD;
            Ordered(ps) && AllMapped(ps, b, e) && Cut(ps, ps, ReleaseBase(ps, b), e) &&
            !Cut(ps, ps, ReleaseBase(ps, b), b + WholeSize(PAGE))
  {
    var b := WORD - PAGE;
    var ps := [Page(b, false)];
    assert ps[0].addr == b && Mapped(ps, b);
    CutNone(ps, ReleaseBase(ps, b), 0);
    FreeExactIff(ps, ps, b, PAGE);
  }

  lemma PositiveSize(size: nat)
    requires 0 < size
    ensures WholeSize(size) >= PAGE
  {
  }

  lemma SlotsInRange(b: nat, n: nat, guard: bool)
    requires b % PAGE == 0 && b + n * PAGE < WORD
    ensures forall p :: p in Slots(b, 0, n, guard) ==> b <= p.addr < b + n * PAGE && (p.guard ==> guard && p.addr == b)
    ensures forall a :: b <= a < b + n * PAGE && a % PAGE == 0 ==> a in SlotAddrs(b, 0, n)
  {
    forall a | b <= a < b + n * PAGE && a % PAGE == 0 ensures a in SlotAddrs(b, 0, n) {
      var i := (a - b) / PAGE;
      assert Slot(b, i) == a;
    }
  }

  lemma OutsideRange(was: seq<Page>, b: nat, n: nat, p: Page)
    requires Ordered(was) && p in was && Addrs(was) !! SlotAddrs(b, 0, n) && b % PAGE == 0 && b + n * PAGE < WORD
    ensures !(b <= p.addr < b + n * PAGE)
  {
    SlotsInRange(b, n, false);
    var i :| 0 <= i < |was| && was[i] == p;
    AlignedAt(was, i);
    assert p.addr in Addrs(was);
  }

  /** Releasing what was mapped gives back the pages as they were, except where a lone
      guard page lies right below a mapping made without one. */
  lemma RoundTripIff(was: seq<Page>, ps: seq<Page>, q: seq<Page>, b: nat, n: nat, guard: bool)
    requires Ordered(was) && Placed(was, ps, b, n, 0, n, guard) && Addrs(was) !! SlotAddrs(b, 0, n)
    requires b % PAGE == 0 && PAGE <= b && b + n * PAGE < WORD && n >= 1
    requires Cut(ps, q, ReleaseBase(ps, if guard then b + PAGE else b), b + n * PAGE)
    ensures q == was <==> guard || !GuardAt(was, b - PAGE)
  {
    hide Ordered, Slot;
    PlacedOrdered(was, ps, b, n, 0, n, guard);
    SlotsInRange(b, n, guard);
    FirstSlot(b, n, guard);
    assert forall p :: p in ps <==> p in was || p in Slots(b, 0, n, guard) by {
      assert forall p :: p in ps <==> p in Pages(ps);
    }
    GuardLemma(ps, b - PAGE);
    GuardLemma(ps, b);
    GuardLemma(was, b - PAGE);
    forall p | p in was ensures !(b <= p.addr < b + n * PAGE) {
      OutsideRange(was, b, n, p);
    }
    if guard || !GuardAt(was, b - PAGE) {
      assert Pages(q) == Pages(was);
      SamePages(q, was);
    } else {
      var g := Page(b - PAGE, true);
      assert g in Pages(was) && g !in Pages(q);
    }
  }

  lemma FirstSlot(b: nat, n: nat, guard: bool)
    requires n >= 1 && b < WORD
    ensures Page(b, guard) in Slots(b, 0, n, guard)
  {
    assert Slot(b, 0) == b;
  }

  lemma SecondSlot(b: nat, n: nat, guard: bool)
    requires n >= 2 && b + PAGE < WORD
    ensures Page(b + PAGE, false) in Slots(b, 0, n, guard)
  {
    assert Slot(b, 1) == b + PAGE;
  }

  /** Every guard page is followed by a page of its mapping. */
  ghost predicate GuardsFollowed(ps: seq<Page>) {
    forall p :: p in ps && p.guard ==> Page(p.addr + PAGE, false) in ps
  }

  lemma GuardsAfterAlloc(was: seq<Page>, ps: seq<Page>, b: nat, n: nat, guard: bool)
    requires GuardsFollowed(was) && Placed(was, ps, b, n, 0, n, guard) && Addrs(was) !! SlotAddrs(b, 0, n)
    requires b % PAGE == 0 && b + n * PAGE < WORD && (guard ==> n >= 2)
    ensures GuardsFollowed(ps)
  {
    hide Ordered, Slot;
    SlotsInRange(b, n, guard);
    if guard {
      SecondSlot(b, n, guard);
    }
    assert forall p :: p in ps <==> p in was || p in Slots(b, 0, n, guard) by {
      assert forall p :: p in ps <==> p in Pages(ps);
    }
  }

  lemma GuardsAfterFree(ps: seq<Page>, q: seq<Page>, b: nat, e: nat)
    requires Ordered(ps) && GuardsFollowed(ps) && b % PAGE == 0 && PAGE <= b
    requires Cut(ps, q, ReleaseBase(ps, b), e)
    ensures GuardsFollowed(q)
  {
    var from := ReleaseBase(ps, b);
    GuardLemma(ps, b - PAGE);
    assert forall p :: p in q <==> p in Pages(q);
    forall p | p in q && p.guard ensures Page(p.addr + PAGE, false) in q {
      var f := Page(p.addr + PAGE, false);
      assert f in ps;
      if GuardAt(ps, b - PAGE) {
        OtherAddr(ps, f, Page(from, true));
      }
      assert f.addr != from;
      var i :| 0 <= i < |ps| && ps[i] == p;
      AlignedAt(ps, i);
      SlotGap(from, f.addr);
      assert f in Pages(q);
    }
  }

  lemma OtherAddr(ps: seq<Page>, p: Page, r: Page)
    requires Ordered(ps) && p in ps && r in ps && p != r
    ensures p.addr != r.addr
  {
    var i :| 0 <= i < |ps| && ps[i] == p;
    var j :| 0 <= j < |ps| && ps[j] == r;
  }

  /** So, where guard pages are followed, mapping and releasing always cancel out. */
  lemma NoLoneGuard(was: seq<Page>, b: nat, n: nat)
    requires Ordered(was) && GuardsFollowed(was) && Addrs(was) !! SlotAddrs(b, 0, n)
    requires b % PAGE == 0 && PAGE <= b && b + n * PAGE < WORD && n >= 1
    ensures !GuardAt(was, b - PAGE)
  {
    GuardLemma(was, b - PAGE);
    if GuardAt(was, b - PAGE) {
      OutsideRange(was, b, n, Page(b, false));
    }
  }

  /** What the search has learnt before it looks at page i. */
  ghost predicate Searching(ps: seq<Page>, base: nat, lo: nat, hi: nat, t: nat,
                            i: nat, lastNode: int, lastAddress: nat)
    requires hi <= |ps|
  {
    if i <= lo then
      lastAddress == base && lastNode == (if lo < |ps| && ps[lo].addr == base then lo else -1)
    else
      i <= hi &&
      if lastNode == -1 then lastAddress == base && ps[lo].addr >= base + t && Settle(ps, base, lo, hi, t) == base
      else lastNode == i - 1 && lastAddress == ps[i - 1].addr + PAGE && 0 < t &&
           Settle(ps, base, lo, hi, t) == Scan(ps, i - 1, hi, t)
  }

  lemma SearchStart(ps: seq<Page>, base: nat, lo: nat, hi: nat, t: nat)
    requires hi <= |ps| && lo == Below(ps, base)
    ensures Searching(ps, base, lo, hi, t, 0, if Has(ps, base) then lo else -1, base)
  {
  }

  lemma SearchSkip(ps: seq<Page>, base: nat, lo: nat, hi: nat, t: nat, i: nat, lastNode: int, lastAddress: nat)
    requires hi <= |ps| && i < lo && Searching(ps, base, lo, hi, t, i, lastNode, lastAddress)
    ensures Searching(ps, base, lo, hi, t, i + 1, lastNode, lastAddress)
  {
  }

  lemma SearchStep(ps: seq<Page>, base: nat, limit: nat, lo: nat, hi: nat, t: nat,
                   i: nat, lastNode: int, lastAddress: nat)
    requires Within(ps, base, limit, lo, hi) && lo <= i < hi
    requires Searching(ps, base, lo, hi, t, i, lastNode, lastAddress)
    ensures lastAddress <= ps[i].addr
    ensures ps[i].addr - lastAddress >= t && lastNode == -1 ==>
              Searching(ps, base, lo, hi, t, i + 1, lastNode, lastAddress)
    ensures ps[i].addr - lastAddress >= t && lastNode != -1 ==>
              Settle(ps, base, lo, hi, t) == lastAddress + PAGE
    ensures ps[i].addr - lastAddress < t ==>
              Searching(ps, base, lo, hi, t, i + 1, i, ps[i].addr + PAGE)
  {
    if i > lo && lastNode != -1 {
      assert ps[i - 1].addr + PAGE <= ps[i].addr by {
        assert Aligned(ps[i].addr) && Aligned(ps[i - 1].addr);
      }
    }
  }

  lemma SearchEnd(ps: seq<Page>, base: nat, limit: nat, lo: nat, hi: nat, t: nat,
                  i: nat, lastNode: int, lastAddress: nat)
    requires Within(ps, base, limit, lo, hi) && i <= |ps| && (i == |ps| || ps[i].addr >= limit)
    requires Searching(ps, base, lo, hi, t, i, lastNode, lastAddress)
    ensures -1 <= lastNode < |ps|
    ensures Settle(ps, base, lo, hi, t) == (if lastNode == -1 then base else ps[lastNode].addr + PAGE)
  {
  }

  lemma AlignedAt(ps: seq<Page>, i: nat)
    requires Ordered(ps) && i < |ps|
    ensures ps[i].addr % PAGE == 0
  {
  }

  function Total(size: nat, guard: bool): nat {
    if guard then (RoundUp(size) + PAGE) % WORD else RoundUp(size)
  }

  lemma TotalLemma(size: nat, guard: bool)
    requires size < WORD
    ensures Total(size, guard) % PAGE == 0 && Total(size, guard) < WORD
    ensures Total(size, guard) / PAGE * PAGE == Total(size, guard)
  {
    RoundUpLemma(size);
  }

  lemma RoundUpLemma(size: nat)
    requires size < WORD
    ensures RoundUp(size) % PAGE == 0 && RoundUp(size) + PAGE <= WORD
    ensures size + PAGE <= WORD ==> size <= RoundUp(size) < size + PAGE
    ensures size + PAGE > WORD ==> RoundUp(size) == 0
  {
  }

  /** The bytes that are mapped: those asked for, rounded up to whole pages, and a guard page. */
  lemma TotalIs(size: nat, guard: bool)
    requires size + PAGE + PAGE <= WORD
    ensures var more := if guard then PAGE else 0;
            Total(size, guard) % PAGE == 0 && size + more <= Total(size, guard) < size + more + PAGE
  {
    RoundUpLemma(size);
  }

  lemma TwoPages(size: nat)
    requires 0 < size && size + PAGE + PAGE <= WORD
    ensures Total(size, true) / PAGE >= 2
  {
    RoundUpLemma(size);
  }

  lemma EndLemma(b: nat, size: nat)
    requires b % PAGE == 0 && b < WORD && size < WORD
    ensures (b + RoundUp(size)) % WORD % PAGE == 0
    ensures b + RoundUp(size) >= WORD ==> (b + RoundUp(size)) % WORD < b
  {
    RoundUpLemma(size);
  }

  /** Where the check for mapped pages does not wrap, what it accepts is free. */
  lemma ClearLemma(ps: seq<Page>, b: nat, n: nat)
    requires !Conflict(ps, b, n * PAGE) && b % PAGE == 0 && b + n * PAGE < WORD
    ensures Addrs(ps) !! SlotAddrs(b, 0, n)
  {
    AddrsOf(ps);
    forall a | a in SlotAddrs(b, 0, n) ensures a !in Addrs(ps) {
      var i :| 0 <= i < n && a == Slot(b, i);
      assert b <= a < b + n * PAGE;
    }
  }

  lemma MappedAt(ps: seq<Page>, b: nat, e: nat, addr: nat)
    requires Ordered(ps) && b >= PAGE && b % PAGE == 0 && AllMapped(ps, b, e)
    requires ReleaseBase(ps, b) <= addr < e && addr % PAGE == 0
    ensures Mapped(ps, addr)
  {
    GuardLemma(ps, b - PAGE);
    if addr < b {
      NextSlot(b - PAGE, addr);
    } else {
      var i := (addr - b) / PAGE;
      assert At(b, i) == addr;
    }
  }

  datatype Outcome = Done(addr: nat) | Invalid | InUse | NotMapped | RetriesForEver

  datatype Status = Success | InvalidArgument | NotFound

  class Context {
    const base: nat
    const limit: nat
    var pages: seq<Page>
    var committed: nat

    ghost predicate Valid()
      reads this
    {
      Ordered(pages) && Bounds(base, limit)
    }

    constructor (base: nat, limit: nat)
      requires Bounds(base, limit)
      ensures Valid() && pages == [] && committed == 0 && this.base == base && this.limit == limit
    {
      this.base, this.limit := base, limit;
      pages, committed := [], 0;
    }

    method FindAvailable(size0: nat) returns (found: nat)
      requires Valid() && size0 < WORD
      ensures found == Pick(pages, base, limit, size0)
    {
      hide Ordered, Scan, Settle, Searching;
      var size := size0;
      if size % PAGE != 0 {
        size := size - size % PAGE;
      }
      var gap := (size + PAGE) % WORD;
      ghost var lo, hi := Below(pages, base), Below(pages, limit);
      WithinLemma(pages, base, limit);
      var lastNode: int := if Has(pages, base) then Below(pages, base) else -1;
      var lastAddress: nat := base;
      found := 0;
      var i: nat := 0;
      SearchStart(pages, base, lo, hi, gap);
      while i < |pages|
        invariant i <= |pages| && found == 0 && Searching(pages, base, lo, hi, gap, i, lastNode, lastAddress)
      {
        var addr := pages[i].addr;
        if addr < base {
          SearchSkip(pages, base, lo, hi, gap, i, lastNode, lastAddress);
          i := i + 1;
          continue;
        }
        if addr >= limit {
          break;
        }
        SearchStep(pages, base, limit, lo, hi, gap, i, lastNode, lastAddress);
        if addr - lastAddress >= gap {
          if lastNode == -1 {
            i := i + 1;
            continue;
          }
          found := lastAddress + PAGE;
          break;
        }
        lastAddress := addr + PAGE;
        lastNode := i;
        i := i + 1;
      }
      if found == 0 {
        SearchEnd(pages, base, limit, lo, hi, gap, i, lastNode, lastAddress);
        if lastNode != -1 {
          AlignedAt(pages, lastNode);
          found := pages[lastNode].addr - pages[lastNode].addr % PAGE + PAGE;
        } else {
          found := base;
        }
      }
    }

    method Conflicts(b: nat, size: nat) returns (r: bool)
      requires Valid() && b % PAGE == 0 && size % PAGE == 0
      ensures r == Conflict(pages, b, size)
    {
      var end := (b + size) % WORD;
      var addr := b;
      while addr < end
        invariant b <= addr && addr % PAGE == 0
        invariant forall i :: 0 <= i < |pages| ==> !(b <= pages[i].addr < addr)
      {
        HasLemma(pages, addr);
        if Has(pages, addr) {
          return true;
        }
        NothingHere(pages, addr);
        addr := addr + PAGE;
      }
      return false;
    }

    /** Maps n pages from b; the mapping of page failAt fails. */
    method Populate(b: nat, n: nat, guard: bool, failAt: nat) returns (ok: bool)
      requires Valid() && b % PAGE == 0 && b < WORD && n * PAGE < WORD
      modifies this`pages
      ensures Valid() && (ok <==> failAt >= n || (guard && failAt == 0))
      ensures ok ==> Placed(old(pages), pages, b, n, 0, n, guard)
      ensures !ok ==> Addrs(pages) == old(Addrs(pages))
      ensures !ok && old(Addrs(pages)) !! SlotAddrs(b, 0, n) ==> pages == old(pages)
    {
      hide Ordered, Place, Placed, Slot;
      ghost var was := pages;
      PlacedNone(was, b, n, guard);
      var nodes: seq<bool> := [];
      var i := 0;
      while i < n
        invariant i <= n && Valid() && Placed(was, pages, b, n, 0, i, guard)
        invariant failAt >= i || (guard && failAt == 0)
        invariant |nodes| == i && forall j :: 0 <= j < i ==> nodes[j] == (Slot(b, j) !in Addrs(was))
      {
        var ours := !Has(pages, Slot(b, i));
        OursLemma(was, pages, b, n, i, guard);
        if i == failAt && !(guard && i == 0) {
          CleanUp(was, b, n, i, guard, nodes);
          return false;
        }
        nodes := nodes + [ours];
        PlaceNext(was, pages, b, n, i, guard);
        pages := Place(pages, Slot(b, i), guard && i == 0);
        PlacedOrdered(was, pages, b, n, 0, i + 1, guard);
        i := i + 1;
      }
      return true;
    }

    method CleanUp(ghost was: seq<Page>, b: nat, ghost n: nat, i: nat, ghost guard: bool, nodes: seq<bool>)
      requires Valid() && Ordered(was) && b % PAGE == 0 && b < WORD && n * PAGE < WORD && i <= n
      requires Placed(was, pages, b, n, 0, i, guard)
      requires |nodes| == i && forall j :: 0 <= j < i ==> nodes[j] == (Slot(b, j) !in Addrs(was))
      modifies this`pages
      ensures Valid() && Addrs(pages) == Addrs(was)
      ensures Addrs(was) !! SlotAddrs(b, 0, n) ==> pages == was
    {
      hide Ordered, Placed, Remove, Slot;
      var j := 0;
      while j < i
        invariant j <= i && Valid() && Placed(was, pages, b, n, j, i, guard)
      {
        CleanNext(was, pages, b, n, j, i, guard);
        if nodes[j] {
          RemoveLemma(pages, Slot(b, j));
          pages := Remove(pages, Slot(b, j));
        }
        j := j + 1;
      }
      PlacedEnd(was, pages, b, n, i, guard);
    }

    method ChooseBase(b0: nat, size: nat, hint: bool) returns (c: Choice)
      requires Valid() && b0 % PAGE == 0 && b0 < WORD && size % PAGE == 0 && size < WORD
      ensures c == Choose(pages, base, limit, b0, size, hint)
      ensures c == Taken <==> !hint && Conflict(pages, if b0 != 0 then b0 else Pick(pages, base, limit, size), size)
      ensures c.Use? ==> GoesTo(pages, base, limit, b0, size, hint, c.b)
      ensures c.Use? ==> c.b % PAGE == 0 && c.b < WORD && !Conflict(pages, c.b, size)
    {
      hide Pick, Conflict, Ordered;
      PickSmall(pages, base, limit, size);
      var b := b0;
      if b == 0 {
        b := FindAvailable(size);
      }
      var taken := Conflicts(b, size);
      if !taken {
        return Use(b);
      }
      if !hint {
        return Taken;
      }
      b := FindAvailable(size);
      taken := Conflicts(b, size);
      if !taken {
        return Use(b);
      }
      return Retries;
    }

    method Alloc(b0: nat, size0: nat, guard: bool, hint: bool, failAt: nat) returns (r: Outcome, ghost b: nat)
      requires Valid() && b0 < WORD && size0 < WORD && committed < WORD
      modifies this
      ensures Valid()
      ensures r.Invalid? <==> size0 == 0 || b0 % PAGE != 0
      ensures var size := Total(size0, guard);
              !r.Invalid? ==> match Choose(old(pages), base, limit, b0, size, hint)
                case Taken => r == InUse
                case Retries => r == RetriesForEver
                case Use(c) => b == c && (r.Done? || r.NotMapped?)
      ensures var size := Total(size0, guard);
              !r.Invalid? && !hint ==>
                (r == InUse <==> Conflict(old(pages), if b0 != 0 then b0 else Pick(old(pages), base, limit, size), size))
      ensures var size := Total(size0, guard);
              !r.Invalid? && hint ==>
                (r == RetriesForEver <==>
                   (b0 == 0 || Conflict(old(pages), b0, size)) && Conflict(old(pages), Pick(old(pages), base, limit, size), size))
      ensures hint ==> r != InUse
      ensures !hint ==> r != RetriesForEver
      ensures r.Done? || r.NotMapped? ==>
              GoesTo(old(pages), base, limit, b0, Total(size0, guard), hint, b) &&
              !Conflict(old(pages), b, Total(size0, guard))
      ensures r.Done? ==>
              var n := Total(size0, guard) / PAGE;
              r.addr == (if guard then (b + PAGE) % WORD else b) &&
              Placed(old(pages), pages, b, n, 0, n, guard) &&
              committed == (old(committed) + n * PAGE) % WORD
      ensures !r.Done? ==> Addrs(pages) == old(Addrs(pages)) && committed == old(committed)
      ensures !r.Done? && b + Total(size0, guard) < WORD ==> pages == old(pages)
      ensures r.Done? && size0 + PAGE + PAGE <= WORD && b + Total(size0, guard) < WORD && old(GuardsFollowed(pages)) ==>
                GuardsFollowed(pages)
    {
      hide Ordered, Placed, Conflict, RoundUp, Slot;
      b := 0;
      if size0 == 0 || b0 % PAGE != 0 {
        return Invalid, 0;
      }
      var size := RoundUp(size0);
      if guard {
        size := (size + PAGE) % WORD;
      }
      TotalLemma(size0, guard);
      ChooseIff(pages, base, limit, b0, size, hint);
      var c := ChooseBase(b0, size, hint);
      match c {
        case Taken => return InUse, 0;
        case Retries => return RetriesForEver, 0;
        case Use(chosen) =>
          b := chosen;
          var n := size / PAGE;
          if chosen + n * PAGE < WORD {
            ClearLemma(pages, chosen, n);
          }
          var ok := Populate(chosen, n, guard, failAt);
          if !ok {
            return NotMapped, b;
          }
          if chosen + n * PAGE < WORD && size0 + PAGE + PAGE <= WORD && GuardsFollowed(old(pages)) {
            TwoPages(size0);
            GuardsAfterAlloc(old(pages), pages, chosen, n, guard);
          }
          committed := (committed + size) % WORD;
          return Done(if guard then (chosen + PAGE) % WORD else chosen), b;
      }
    }

    method Free(b: nat, size0: nat) returns (r: Status)
      requires Valid() && b < WORD && size0 < WORD && committed < WORD
      modifies this
      ensures Valid()
      ensures r == InvalidArgument <==> b % PAGE != 0 || b == 0 || size0 == 0
      ensures var e := (b + RoundUp(size0)) % WORD;
              r != InvalidArgument ==> (r == NotFound <==> !AllMapped(old(pages), b, e))
      ensures r != Success ==> pages == old(pages) && committed == old(committed)
      ensures r == Success ==>
              var e := (b + RoundUp(size0)) % WORD;
              b >= PAGE && Cut(old(pages), pages, ReleaseBase(old(pages), b), e) &&
              (old(GuardsFollowed(pages)) ==> GuardsFollowed(pages)) &&
              committed == (old(committed) + WORD - Total(size0, GuardAt(old(pages), b - PAGE))) % WORD
    {
      if b % PAGE != 0 || b == 0 || size0 == 0 {
        return InvalidArgument;
      }
      var size := RoundUp(size0);
      var e := (b + size) % WORD;
      var ok := CheckRange(b, e);
      if !ok {
        return NotFound;
      }
      var from := b;
      if GuardAt(pages, b - PAGE) {
        from := b - PAGE;
        size := (size + PAGE) % WORD;
      }
      EndLemma(b, size0);
      RemoveRange(b, from, e);
      if GuardsFollowed(old(pages)) {
        GuardsAfterFree(old(pages), pages, b, e);
      }
      committed := (committed + WORD - size) % WORD;
      return Success;
    }

    method CheckRange(b: nat, e: nat) returns (ok: bool)
      requires Valid() && b % PAGE == 0 && e < WORD
      ensures ok == AllMapped(pages, b, e)
    {
      hide Ordered;
      HasLemma(pages, b);
      if !Has(pages, b) {
        return false;
      }
      var curr := Below(pages, b);
      var addr := b;
      ghost var k: nat := 0;
      while addr < e
        invariant addr == At(b, k) && addr % PAGE == 0 && curr == Below(pages, addr)
        invariant forall i: nat :: i < k ==> Mapped(pages, At(b, i))
        decreases e - addr
      {
        HasLemma(pages, addr);
        if curr >= |pages| || pages[curr].addr != addr {
          assert !Mapped(pages, At(b, k));
          return false;
        }
        BelowNext(pages, addr);
        curr := curr + 1;
        addr := addr + PAGE;
        k := k + 1;
      }
      return true;
    }

    method RemoveRange(b: nat, from: nat, e: nat)
      requires Valid() && b >= PAGE && b % PAGE == 0 && e % PAGE == 0
      requires AllMapped(pages, b, e) && from == ReleaseBase(pages, b)
      modifies this`pages
      ensures Valid() && Cut(old(pages), pages, from, e)
    {
      hide Ordered, Remove;
      ghost var was := pages;
      CutNone(was, from, from);
      var addr := from;
      while addr < e
        invariant from <= addr && addr % PAGE == 0 && Ordered(pages) && Cut(was, pages, from, addr)
        invariant addr == from || addr <= e
        decreases e - addr
      {
        MappedAt(was, b, e, addr);
        CutNext(was, pages, from, addr);
        RemoveLemma(pages, addr);
        pages := Remove(pages, addr);
        addr := addr + PAGE;
      }
      if e <= from {
        CutNone(was, from, e);
      }
    }
  }
}
