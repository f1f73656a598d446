/**
  The arithmetic of the physical page allocator, in pages: which part of a free run
  satisfies a request, and what a sequence of requests does to free and held runs.
 */
module PhysPages {
  import opened Bits

  const PAGE: nat := 0x1000
  const WORD: nat := 0x1_0000_0000_0000_0000
  const MAX_PAGES: nat := 0x10_0000_0000_0000

  // ---------- powers of two ----------

  lemma {:induction false} PowMul(a: nat, b: nat)
    requires PowerOfTwo(a) && PowerOfTwo(b)
    ensures PowerOfTwo(a * b)
    decreases a
  {
    if a == 1 {
      assert a * b == b;
    } else {
      var h := a / 2;
      PowMul(h, b);
      assert a * b == 2 * (h * b);
    }
  }

  lemma MaxIsPower()
    ensures PowerOfTwo(PAGE) && PowerOfTwo(MAX_PAGES) && MAX_PAGES * PAGE == WORD
  {
    assert PowerOfTwo(4);
    hide PowerOfTwo;
    PowMul(4, 4);
    PowMul(16, 16);
    PowMul(16, 256);
    PowMul(4096, 4096);
    PowMul(4096 * 4096, 4096);
    PowMul(4096 * 4096 * 4096, 4096);
    PowMul(4096 * 4096 * 4096 * 4096, 16);
  }

  lemma {:induction false} PowDivides(a: nat, b: nat)
    requires PowerOfTwo(a) && PowerOfTwo(b) && b <= a
    ensures a % b == 0
    decreases b
  {
    if b > 1 {
      PowDivides(a / 2, b / 2);
      DoubleMod(a, b / 2);
    }
  }

  function PopCount(x: nat): nat {
    if x == 0 then 0 else x % 2 + PopCount(x / 2)
  }

  lemma {:induction false} PopCountLemma(x: nat)
    ensures PopCount(x) == 0 <==> x == 0
    ensures PopCount(x) == 1 <==> PowerOfTwo(x)
  {
    if x > 1 {
      PopCountLemma(x / 2);
    }
  }

  /** The test of the alignment counts the bits of its low 32 bits only. */
  predicate Accepted(a: nat) {
    PopCount(a % 0x1_0000_0000) <= 1
  }

  lemma AcceptedIff(a: nat)
    requires 0 < a < 0x1_0000_0000
    ensures Accepted(a) <==> PowerOfTwo(a)
  {
    PopCountLemma(a);
    hide PopCount, PowerOfTwo;
    assert a % 0x1_0000_0000 == a;
  }

  // ---------- one request ----------

  /** The request, rounded up to the alignment in 64 bits. */
  function RoundTo(n: nat, a: nat): nat
    requires a > 0
  {
    if n % a == 0 then n else (n + (a - n % a)) % WORD
  }

  function AlignMask(a: nat): nat {
    (a * PAGE + WORD - 1) % WORD
  }

  function PageMask(a: nat): nat {
    ((AlignMask(a) + 1) % WORD / PAGE + WORD - 1) % WORD
  }

  datatype Run = Run(start: nat, len: nat)

  /** How many pages the code takes off a run to serve n pages aligned to a. */
  function Required(r: Run, n: nat, a: nat): nat {
    (n + BitAnd(r.len, PageMask(a)) + BitAnd(r.start * PAGE, AlignMask(a)) / PAGE) % WORD
  }

  lemma ScaleMod(p: nat, a: nat)
    requires a > 0
    ensures (p * PAGE) % (a * PAGE) == p % a * PAGE
  {
    var q, r := p / a, p % a;
    assert p == a * q + r;
    assert p * PAGE == (a * PAGE) * q + r * PAGE;
    ModUnique(p * PAGE, a * PAGE, q, r * PAGE);
  }

  lemma Masks(a: nat)
    requires 0 < a < MAX_PAGES
    ensures AlignMask(a) == a * PAGE - 1 && PageMask(a) == a - 1
  {
  }

  lemma RequiredIs(r: Run, n: nat, a: nat)
    requires PowerOfTwo(a) && a < MAX_PAGES
    ensures Required(r, n, a) == (n + r.len % a + r.start % a) % WORD
  {
    hide PowerOfTwo, BitAnd, AlignMask, PageMask;
    PowPositive(a);
    Masks(a);
    MaxIsPower();
    PowMul(a, PAGE);
    MaskIsMod(r.len, a);
    MaskIsMod(r.start * PAGE, a * PAGE);
    ScaleMod(r.start, a);
  }

  /** What a caller wants from a run that was found sufficient: at least n pages, from an
      aligned page on, within the run. */
  ghost predicate Served(r: Run, n: nat, a: nat)
    requires a > 0
  {
    var m := RoundTo(n, a);
    var k := Required(r, m, a);
    n <= m < n + a && m <= k <= r.len && (r.start + r.len - k) % a == 0
  }

  lemma RoundToLemma(n: nat, a: nat)
    requires 0 < a && n + a <= WORD
    ensures RoundTo(n, a) % a == 0 && n <= RoundTo(n, a) < n + a
  {
    var q := n / a;
    assert n == a * q + n % a;
    if n % a != 0 {
      assert n + (a - n % a) == a * (q + 1) + 0;
      ModUnique(n + (a - n % a), a, q + 1, 0);
    }
  }

  lemma MulLe(a: nat, k: nat, j: nat)
    requires a > 0 && a * k <= a * j
    ensures k <= j
  {
    if j < k {
      MulStep(a, j, k);
    }
  }

  lemma DifferenceMod(x: nat, y: nat, m: nat, a: nat)
    requires a > 0 && m % a == 0 && m + y % a + x % a <= y
    ensures (x + y - (m + y % a + x % a)) % a == 0
  {
    var i, j, k := x / a, y / a, m / a;
    assert x == a * i + x % a && y == a * j + y % a && m == a * k;
    var d := x + y - (m + y % a + x % a);
    assert d == a * (i + j - k);
    MulLe(a, k, j);
    ModUnique(d, a, i + j - k, 0);
  }

  lemma SmallServed(r: Run, n: nat, a: nat)
    requires PowerOfTwo(a) && a < MAX_PAGES && n <= MAX_PAGES && Required(r, RoundTo(n, a), a) <= r.len
    requires r.len <= MAX_PAGES
    ensures Served(r, n, a)
  {
    hide PowerOfTwo, RoundTo, Required;
    PowPositive(a);
    RoundToLemma(n, a);
    var m := RoundTo(n, a);
    RequiredIs(r, m, a);
    assert Required(r, m, a) == m + r.len % a + r.start % a;
    DifferenceMod(r.start, r.len, m, a);
  }

  /** An alignment of 2^52 pages or more leaves no run that is large enough. */
  lemma HugeAlignment(r: Run, n: nat, a: nat)
    requires PowerOfTwo(a) && MAX_PAGES <= a < WORD && 0 < n <= MAX_PAGES && r.start + r.len <= MAX_PAGES
    ensures Required(r, RoundTo(n, a), a) > r.len
  {
    hide PowerOfTwo, BitAnd, AlignMask, PageMask, RoundTo;
    HugeMasks(a);
    WordIsPower();
    MaskIsMod(r.len, WORD);
    MaskIsMod(r.start * PAGE, WORD);
    HalfWord(a);
    HugeRound(n, a);
  }

  lemma HugeMasks(a: nat)
    requires PowerOfTwo(a) && MAX_PAGES <= a
    ensures AlignMask(a) == WORD - 1 && PageMask(a) == WORD - 1
  {
    hide PowerOfTwo;
    MaxIsPower();
    PowDivides(a, MAX_PAGES);
    var q := a / MAX_PAGES;
    assert a == MAX_PAGES * q;
    assert a * PAGE == q * WORD;
    WholeWords(q);
  }

  lemma PowPositive(a: nat)
    requires PowerOfTwo(a)
    ensures a > 0
  {
  }

  lemma WholeWords(q: nat)
    ensures (q * WORD + WORD - 1) % WORD == WORD - 1
  {
    ModUnique(q * WORD + WORD - 1, WORD, q, WORD - 1);
  }

  lemma WordIsPower()
    ensures PowerOfTwo(WORD)
  {
    MaxIsPower();
    PowMul(MAX_PAGES, PAGE);
  }

  lemma HalfWord(a: nat)
    requires PowerOfTwo(a) && a < WORD
    ensures a <= WORD / 2
  {
    hide PowerOfTwo;
    if a > WORD / 2 {
      WordIsPower();
      HalfPower(WORD);
      PowDivides(a, WORD / 2);
    }
  }

  lemma HugeRound(n: nat, a: nat)
    requires MAX_PAGES <= a <= WORD / 2 && 0 < n <= MAX_PAGES
    ensures RoundTo(n, a) == a
  {
    if n < a {
      ModUnique(n, a, 0, n);
    } else {
      assert n == a;
      ModUnique(n, a, 1, 0);
    }
  }

  /** For a power-of-two alignment, a run found sufficient serves the request exactly if
      no more than 2^52 pages, all that 64 bits can address, were asked for. */
  lemma ServedIff(r: Run, n: nat, a: nat)
    requires PowerOfTwo(a) && a < WORD && 0 < n < WORD && r.start + r.len <= MAX_PAGES && r.start > 0
    requires Required(r, RoundTo(n, a), a) <= r.len
    ensures Served(r, n, a) <==> n <= MAX_PAGES
  {
    if n <= MAX_PAGES {
      if a < MAX_PAGES {
        SmallServed(r, n, a);
      } else {
        HugeAlignment(r, n, a);
      }
    }
  }

  /** Such a request does succeed: 2^64 - 1 pages at alignment 2 round up to none. */
  lemma WrappedRequest(r: Run)
    requires r.start + r.len <= MAX_PAGES && r.len >= 2
    ensures Required(r, RoundTo(WORD - 1, 2), 2) <= r.len && !Served(r, WORD - 1, 2)
  {
    hide PowerOfTwo, Required, RoundTo;
    RoundsToNone();
    RequiredIs(r, 0, 2);
  }

  lemma RoundsToNone()
    ensures PowerOfTwo(2) && RoundTo(WORD - 1, 2) == 0
  {
  }

  // ---------- alignments that are no power of two ----------

  lemma {:induction false} DivisorIsPower(p: nat, a: nat, q: nat)
    requires PowerOfTwo(p) && p == a * q
    ensures PowerOfTwo(a)
    decreases p
  {
    if p == 1 {
      Unit(a, q);
    } else if a % 2 == 0 {
      var h := a / 2;
      assert p / 2 == h * q by { assert a * q == 2 * (h * q); }
      DivisorIsPower(p / 2, h, q);
    } else {
      OddTimes(a, q);
      var h := q / 2;
      assert p / 2 == a * h by { assert a * q == 2 * (a * h); }
      DivisorIsPower(p / 2, a, h);
    }
  }

  lemma Unit(a: nat, q: nat)
    requires a * q == 1
    ensures a == 1
  {
  }

  lemma OddTimes(a: nat, q: nat)
    requires a % 2 == 1 && a * q % 2 == 0
    ensures q % 2 == 0
  {
    var i := a / 2;
    assert a * q == 2 * (i * q) + q;
  }

  lemma {:induction false} AndBelow(p: nat, y: nat)
    requires PowerOfTwo(p) && y < p
    ensures BitAnd(p, y) == 0
    decreases p
  {
    if p > 1 {
      AndBelow(p / 2, y / 2);
    }
  }

  lemma {:induction false} PowerAbove(a: nat, top: nat) returns (p: nat)
    requires 0 < a <= top && PowerOfTwo(top)
    ensures PowerOfTwo(p) && a <= p <= top
    decreases top
  {
    if top == 1 || a > top / 2 {
      p := top;
    } else {
      p := PowerAbove(a, top / 2);
    }
  }

  const LARGE: nat := 0x8_0000_0000_0000

  lemma MisalignedRun(a: nat) returns (r: Run)
    requires 0 < a <= LARGE && !PowerOfTwo(a)
    ensures r.start > 0 && r.start + r.len <= MAX_PAGES
    ensures Required(r, RoundTo(a, a), a) <= r.len && (r.start + r.len - Required(r, RoundTo(a, a), a)) % a != 0
  {
    hide PowerOfTwo, BitAnd, AlignMask, PageMask;
    MaxIsPower();
    HalfPower(MAX_PAGES);
    var p := PowerAbove(a, LARGE);
    r := Run(p, p);
    Masks(a);
    PowMul(p, PAGE);
    AndBelow(p, a - 1);
    AndBelow(p * PAGE, a * PAGE - 1);
    ModUnique(a, a, 1, 0);
    assert Required(r, a, a) == a;
    Leftover(p, a);
  }

  lemma HalfPower(p: nat)
    requires PowerOfTwo(p) && p > 1
    ensures PowerOfTwo(p / 2)
  {
  }

  lemma Leftover(p: nat, a: nat)
    requires PowerOfTwo(p) && 0 < a <= p && !PowerOfTwo(a)
    ensures (p + p - a) % a != 0
  {
    if (p + p - a) % a == 0 {
      var q := (p + p - a) / a;
      assert p + p - a == a * q;
      assert 2 * p == a * (q + 1);
      assert PowerOfTwo(2 * p);
      DivisorIsPower(2 * p, a, q + 1);
    }
  }

  lemma {:induction false} TopBits(x: nat, y: nat, p: nat)
    requires PowerOfTwo(p) && p <= x < 2 * p && p <= y < 2 * p
    ensures BitAnd(x, y) >= p
    decreases p
  {
    if p > 1 {
      TopBits(x / 2, y / 2, p / 2);
    }
  }

  lemma {:induction false} AndAtMost(x: nat, y: nat)
    ensures BitAnd(x, y) <= x
  {
    if x > 0 && y > 0 {
      AndAtMost(x / 2, y / 2);
    }
  }

  /** As many pages as 64 bits can address may be asked for at almost any alignment
      without the sizes wrapping around. */
  const ANY: nat := WORD - 2 * MAX_PAGES

  lemma RoundToBound(n: nat, a: nat)
    requires 0 < n <= MAX_PAGES && 0 < a < ANY
    ensures n <= RoundTo(n, a) < ANY && RoundTo(n, a) >= a
  {
    if n < a {
      ModUnique(n, a, 0, n);
    } else {
      RoundToLemma(n, a);
    }
  }

  /** A run found sufficient has all the pages that are handed out. */
  lemma RequiredBound(r: Run, n: nat, a: nat)
    requires 0 < n <= MAX_PAGES && 0 < a < ANY && r.start + r.len <= MAX_PAGES
    ensures Required(r, RoundTo(n, a), a) ==
            RoundTo(n, a) + BitAnd(r.len, PageMask(a)) + BitAnd(r.start * PAGE, AlignMask(a)) / PAGE
  {
    hide RoundTo, BitAnd, PageMask, AlignMask;
    RoundToBound(n, a);
    AndAtMost(r.len, PageMask(a));
    AndAtMost(r.start * PAGE, AlignMask(a));
  }

  /** With an alignment of more than 2^51 pages no run will do. */
  lemma NoneLargeEnough(r: Run, n: nat, a: nat)
    requires LARGE < a < ANY && 0 < n <= MAX_PAGES
    requires r.start > 0 && r.start + r.len <= MAX_PAGES
    ensures Required(r, RoundTo(n, a), a) > r.len
  {
    hide RoundTo, BitAnd, PageMask, AlignMask, Required, PowerOfTwo;
    RoundToBound(n, a);
    RequiredBound(r, n, a);
    if a < MAX_PAGES && r.len >= LARGE {
      Masks(a);
      MaxIsPower();
      HalfPower(MAX_PAGES);
      TopBits(r.len, a - 1, LARGE);
    }
  }

  /** Up to 2^51 pages, only for a power of two does every sufficient run yield an aligned
      address; beyond, no run is sufficient. The code accepts other alignments from 2^32 on. */
  lemma AlignedIff(a: nat)
    requires 0 < a < ANY
    ensures PowerOfTwo(a) || a > LARGE <==>
            forall r: Run, n: nat ::
              (r.start > 0 && r.start + r.len <= MAX_PAGES && 0 < n <= MAX_PAGES &&
               Required(r, RoundTo(n, a), a) <= r.len) ==>
              (r.start + r.len - Required(r, RoundTo(n, a), a)) % a == 0
  {
    hide RoundTo, Required, PowerOfTwo;
    if PowerOfTwo(a) || a > LARGE {
      forall r: Run, n: nat | r.start > 0 && r.start + r.len <= MAX_PAGES && 0 < n <= MAX_PAGES &&
                              Required(r, RoundTo(n, a), a) <= r.len
        ensures (r.start + r.len - Required(r, RoundTo(n, a), a)) % a == 0
      {
        SufficientAligned(r, n, a);
      }
    } else {
      var r := MisalignedRun(a);
    }
  }

  lemma SufficientAligned(r: Run, n: nat, a: nat)
    requires 0 < a < ANY && (PowerOfTwo(a) || a > LARGE) && 0 < n <= MAX_PAGES
    requires r.start > 0 && r.start + r.len <= MAX_PAGES && Required(r, RoundTo(n, a), a) <= r.len
    ensures (r.start + r.len - Required(r, RoundTo(n, a), a)) % a == 0
  {
    hide RoundTo, Required, PowerOfTwo;
    if a > LARGE {
      NoneLargeEnough(r, n, a);
    } else {
      SmallServed(r, n, a);
    }
  }

  lemma OddAlignmentAccepted()
    ensures Accepted(0x1_0000_0001) && !PowerOfTwo(0x1_0000_0001)
  {
    assert PopCount(1) == 1;
  }

  // ---------- free and held runs ----------

  ghost predicate Apart(r: Run, s: Run) {
    r.start + r.len <= s.start || s.start + s.len <= r.start
  }

  ghost predicate InBounds(r: Run) {
    0 < r.start && 0 < r.len && r.start + r.len <= MAX_PAGES
  }

  ghost predicate Pairwise(rs: seq<Run>) {
    (forall i :: 0 <= i < |rs| ==> InBounds(rs[i])) &&
    (forall i, j :: 0 <= i < j < |rs| ==> Apart(rs[i], rs[j]))
  }

  ghost predicate Across(rs: seq<Run>, ss: seq<Run>) {
    forall i, j :: 0 <= i < |rs| && 0 <= j < |ss| ==> Apart(rs[i], ss[j])
  }

  ghost function Total(rs: seq<Run>): nat {
    if rs == [] then 0 else rs[0].len + Total(rs[1..])
  }

  lemma {:induction false} TotalAppend(rs: seq<Run>, ss: seq<Run>)
    ensures Total(rs + ss) == Total(rs) + Total(ss)
  {
    if rs == [] {
      assert rs + ss == ss;
    } else {
      assert (rs + ss)[1..] == rs[1..] + ss;
      TotalAppend(rs[1..], ss);
    }
  }

  /** The first run of the list that is sufficient, or the list's length. */
  function FirstFit(free: seq<Run>, m: nat, a: nat): (i: nat)
    ensures i <= |free|
    ensures i < |free| ==> Required(free[i], m, a) <= free[i].len
    ensures forall j :: 0 <= j < i ==> Required(free[j], m, a) > free[j].len
  {
    if free == [] || Required(free[0], m, a) <= free[0].len then 0
    else 1 + FirstFit(free[1..], m, a)
  }

  function Without(rs: seq<Run>, i: nat): seq<Run>
    requires i < |rs|
  {
    rs[..i] + rs[i + 1..]
  }

  /** Of run i only a part is left, or nothing. */
  function Leave(rs: seq<Run>, i: nat, left: Run): seq<Run>
    requires i < |rs|
  {
    if left.len == 0 then Without(rs, i) else rs[i := left]
  }

  lemma TotalSplit(ps: seq<Run>, r: Run, ss: seq<Run>)
    ensures Total(ps + [r] + ss) == Total(ps) + r.len + Total(ss)
  {
    TotalAppend(ps + [r], ss);
    TotalAppend(ps, [r]);
    assert Total([r]) == r.len;
  }

  lemma LeaveTotal(rs: seq<Run>, i: nat, left: Run)
    requires i < |rs|
    ensures Total(Leave(rs, i, left)) == Total(rs) - rs[i].len + left.len
  {
    hide Total;
    assert rs == rs[..i] + [rs[i]] + rs[i + 1..];
    TotalSplit(rs[..i], rs[i], rs[i + 1..]);
    if left.len == 0 {
      TotalAppend(rs[..i], rs[i + 1..]);
    } else {
      assert rs[i := left] == rs[..i] + [left] + rs[i + 1..];
      TotalSplit(rs[..i], left, rs[i + 1..]);
    }
  }

  // ---------- runs of requests ----------

  datatype State = State(free: seq<Run>, held: seq<Run>, used: nat)

  ghost predicate Inv(s: State) {
    Pairwise(s.free) && Pairwise(s.held) && Across(s.free, s.held) && s.used < WORD
  }

  function Effective(a: nat): (r: nat)
    ensures r > 0
  {
    if a == 0 then 1 else a
  }

  function DoAlloc(s: State, n: nat, a0: nat): State {
    var a := Effective(a0);
    var m := RoundTo(n, a);
    var i := FirstFit(s.free, m, a);
    if n == 0 || !Accepted(a) || i == |s.free| then s
    else Take(s, i, Required(s.free[i], m, a), m)
  }

  /** The holder of run j gives back its first m pages. */
  function DoFree(s: State, j: nat, m: nat): State
    requires j < |s.held| && 0 < m <= s.held[j].len
  {
    var r := s.held[j];
    State(s.free + [Run(r.start, m)],
          Leave(s.held, j, Run(r.start + m, r.len - m)),
          (s.used - m) % WORD)
  }

  datatype Step = Alloc(n: nat, a: nat) | Free(j: nat, m: nat)

  ghost predicate Enabled(s: State, step: Step) {
    match step
    case Alloc(n, a) => n <= MAX_PAGES && a < ANY
    case Free(j, m) => j < |s.held| && 0 < m <= s.held[j].len
  }

  ghost function Exec(s: State, step: Step): State
    requires Enabled(s, step)
  {
    match step
    case Alloc(n, a) => DoAlloc(s, n, a)
    case Free(j, m) => DoFree(s, j, m)
  }

  ghost predicate Reaches(s: State, steps: seq<Step>, t: State)
    decreases |steps|
  {
    if steps == [] then s == t else Enabled(s, steps[0]) && Reaches(Exec(s, steps[0]), steps[1..], t)
  }

  /** Parts of a run are apart from whatever the run is apart from. */
  ghost predicate PartOf(r: Run, s: Run) {
    s.start <= r.start && r.start + r.len <= s.start + s.len
  }

  /** Where in the old list entry j of the new list comes from. */
  function Source(i: nat, left: Run, j: nat): nat {
    if left.len == 0 && j >= i then j + 1 else j
  }

  lemma LeaveAt(rs: seq<Run>, i: nat, left: Run, j: nat)
    requires i < |rs| && j < |Leave(rs, i, left)|
    ensures var h := Source(i, left, j);
            h < |rs| && Leave(rs, i, left)[j] == (if h == i then left else rs[h]) && (h == i ==> left.len > 0)
  {
  }

  lemma LeavePairwise(rs: seq<Run>, ss: seq<Run>, i: nat, left: Run, part: Run)
    requires Pairwise(rs) && Across(rs, ss) && i < |rs|
    requires PartOf(left, rs[i]) && PartOf(part, rs[i]) && Apart(left, part)
    ensures Pairwise(Leave(rs, i, left)) && Across(Leave(rs, i, left), ss)
    ensures forall j :: 0 <= j < |Leave(rs, i, left)| ==> Apart(Leave(rs, i, left)[j], part)
  {
    hide Leave;
    var rs' := Leave(rs, i, left);
    forall j | 0 <= j < |rs'|
      ensures InBounds(rs'[j]) && Apart(rs'[j], part)
      ensures Source(i, left, j) < |rs| && PartOf(rs'[j], rs[Source(i, left, j)])
    {
      LeaveAt(rs, i, left, j);
    }
  }

  /** Moving a part of a run from one list to the end of another keeps all runs apart. */
  lemma MovePart(rs: seq<Run>, ss: seq<Run>, i: nat, left: Run, part: Run)
    requires Pairwise(rs) && Pairwise(ss) && Across(rs, ss) && i < |rs|
    requires 0 < part.len && PartOf(left, rs[i]) && PartOf(part, rs[i]) && Apart(left, part)
    ensures Pairwise(Leave(rs, i, left)) && Pairwise(ss + [part]) && Across(Leave(rs, i, left), ss + [part])
  {
    LeavePairwise(rs, ss, i, left, part);
    hide Leave;
  }

  /** The last k pages are taken off free run i; the first m of them are handed out. */
  function Take(s: State, i: nat, k: nat, m: nat): State
    requires i < |s.free| && k <= s.free[i].len
  {
    var r := s.free[i];
    State(Leave(s.free, i, Run(r.start, r.len - k)), s.held + [Run(r.start + r.len - k, m)], (s.used + k) % WORD)
  }

  lemma TakeKeeps(s: State, i: nat, k: nat, m: nat)
    requires Inv(s) && i < |s.free| && 0 < m <= k <= s.free[i].len
    ensures Inv(Take(s, i, k, m))
    ensures (Total(Take(s, i, k, m).free) + Take(s, i, k, m).used) % WORD == (Total(s.free) + s.used) % WORD
  {
    hide Pairwise, Across, Leave, Total;
    var r := s.free[i];
    MovePart(s.free, s.held, i, Run(r.start, r.len - k), Run(r.start + r.len - k, m));
    LeaveTotal(s.free, i, Run(r.start, r.len - k));
    AddMod(Total(s.free) - k, s.used + k);
  }

  lemma AllocKeeps(s: State, n: nat, a: nat)
    requires Inv(s) && Enabled(s, Alloc(n, a))
    ensures Inv(DoAlloc(s, n, a))
    ensures (Total(DoAlloc(s, n, a).free) + DoAlloc(s, n, a).used) % WORD == (Total(s.free) + s.used) % WORD
  {
    hide Required, RoundTo, Accepted, Pairwise, Across, PowerOfTwo, Total, Leave;
    var e := Effective(a);
    var m := RoundTo(n, e);
    var i := FirstFit(s.free, m, e);
    if n > 0 && Accepted(e) && i < |s.free| {
      Bounded(s.free, i);
      RoundToBound(n, e);
      RequiredBound(s.free[i], n, e);
      TakeKeeps(s, i, Required(s.free[i], m, e), m);
    }
  }

  /** The pages of r are handed out of free run i: from an aligned page on, n of them or as
      few more as make a multiple of a, before nothing but the two remainders of the run. The
      run keeps what lies before them, and the other free runs stay. */
  ghost predicate Handed(free: seq<Run>, i: nat, r: Run, free': seq<Run>, n: nat, a: nat)
    requires a > 0
  {
    i < |free| && r.start % a == 0 && r.len % a == 0 && n <= r.len < n + a && free[i].start <= r.start &&
    r.start + r.len + free[i].len % a + free[i].start % a == free[i].start + free[i].len &&
    free' == if r.start == free[i].start then free[..i] + free[i + 1..]
             else free[i := Run(free[i].start, r.start - free[i].start)]
  }

  /** Run r has no aligned len pages before its remainders. */
  ghost predicate TooShort(r: Run, len: nat, a: nat)
    requires a > 0
  {
    r.len < len + r.len % a + r.start % a
  }

  /** No free run has n pages, rounded up to a multiple of a. */
  ghost predicate NoneFits(free: seq<Run>, n: nat, a: nat)
    requires a > 0
  {
    forall j, len: nat :: 0 <= j < |free| && len % a == 0 && n <= len < n + a ==> TooShort(free[j], len, a)
  }

  /** r is handed out of the first free run that has the pages. */
  ghost predicate HandedFirst(free: seq<Run>, i: nat, r: Run, free': seq<Run>, n: nat, a: nat)
    requires a > 0
  {
    Handed(free, i, r, free', n, a) && forall j :: 0 <= j < i ==> TooShort(free[j], r.len, a)
  }

  /** An allocation hands out pages of the first free run that has them, and changes nothing
      if none has. */
  ghost predicate AllocDone(free: seq<Run>, held: seq<Run>, free': seq<Run>, held': seq<Run>, n: nat, a: nat)
    requires a > 0
  {
    if NoneFits(free, n, a) then free' == free && held' == held
    else exists i, r :: HandedFirst(free, i, r, free', n, a) && held' == held + [r]
  }

  /** Up to 2^52 pages, at an alignment that is a smaller power of two. */
  ghost predicate Sensible(n: nat, a: nat) {
    0 < n <= MAX_PAGES && PowerOfTwo(a) && a < MAX_PAGES
  }

  lemma HandedOut(free: seq<Run>, free': seq<Run>, held': seq<Run>, n: nat, a: nat)
    requires a > 0 && AllocDone(free, [], free', held', n, a)
    ensures held' == [] <==> NoneFits(free, n, a)
    ensures held' != [] ==> held'[0].start % a == 0 && exists i :: HandedFirst(free, i, held'[0], free', n, a)
  {
    hide NoneFits, Handed, TooShort;
    if !NoneFits(free, n, a) {
      var i, r :| HandedFirst(free, i, r, free', n, a) && held' == [] + [r];
      assert held'[0] == r && r.start % a == 0 by { Alright(free, i, r, free', n, a); }
    }
  }

  lemma Alright(free: seq<Run>, i: nat, r: Run, free': seq<Run>, n: nat, a: nat)
    requires a > 0 && Handed(free, i, r, free', n, a)
    ensures r.start % a == 0
  {
  }

  lemma AllocServes(s: State, n: nat, a: nat)
    requires Inv(s) && Sensible(n, Effective(a))
    ensures var t := DoAlloc(s, n, a);
            AllocDone(s.free, s.held, t.free, t.held, n, Effective(a)) &&
            Total(t.free) <= Total(s.free) && t.used == (s.used + Total(s.free) - Total(t.free)) % WORD
  {
    hide Required, RoundTo, Accepted, Inv, PowerOfTwo, Total, Take, FirstFit, NoneFits, HandedFirst;
    var e := Effective(a);
    var m := RoundTo(n, e);
    var i := FirstFit(s.free, m, e);
    PowerAccepted(e);
    PowPositive(e);
    RoundToLemma(n, e);
    forall j | 0 <= j < |s.free| ensures Required(s.free[j], m, e) == m + s.free[j].len % e + s.free[j].start % e {
      RequiredSmall(s, j, m, e);
    }
    if i < |s.free| {
      FoundRun(s, i, m, n, e);
      TakeTotal(s, i, Required(s.free[i], m, e), m);
    } else {
      NoRun(s.free, m, n, e);
      UsedSmall(s);
    }
  }

  lemma UsedSmall(s: State)
    requires Inv(s)
    ensures s.used % WORD == s.used
  {
  }

  lemma RequiredSmall(s: State, j: nat, m: nat, a: nat)
    requires Inv(s) && j < |s.free| && PowerOfTwo(a) && a < MAX_PAGES && m < 2 * MAX_PAGES
    ensures InBounds(s.free[j]) && Required(s.free[j], m, a) == m + s.free[j].len % a + s.free[j].start % a
  {
    hide PowerOfTwo, Required;
    PowPositive(a);
    Bounded(s.free, j);
    RequiredIs(s.free[j], m, a);
    Small(s.free[j], m, a);
  }

  lemma TakeTotal(s: State, i: nat, k: nat, m: nat)
    requires i < |s.free| && k <= s.free[i].len
    ensures var t := Take(s, i, k, m);
            Total(t.free) + k == Total(s.free) && t.used == (s.used + k) % WORD
  {
    hide Total, Leave;
    LeaveTotal(s.free, i, Run(s.free[i].start, s.free[i].len - k));
  }

  lemma FoundRun(s: State, i: nat, m: nat, n: nat, a: nat)
    requires Inv(s) && i < |s.free| && 0 < a < MAX_PAGES && m % a == 0 && n <= m < n + a
    requires forall j :: 0 <= j < |s.free| ==> Required(s.free[j], m, a) == m + s.free[j].len % a + s.free[j].start % a
    requires Required(s.free[i], m, a) <= s.free[i].len
    requires forall j :: 0 <= j < i ==> Required(s.free[j], m, a) > s.free[j].len
    ensures !NoneFits(s.free, n, a)
    ensures var t := Take(s, i, Required(s.free[i], m, a), m);
            exists h, r :: HandedFirst(s.free, h, r, t.free, n, a) && t.held == s.held + [r]
  {
    hide Required, Take, Handed;
    Bounded(s.free, i);
    assert !TooShort(s.free[i], m, a);
    TakeHanded(s, i, m, n, a);
    var t := Take(s, i, Required(s.free[i], m, a), m);
    var r :| Handed(s.free, i, r, t.free, n, a) && r.len == m && t.held == s.held + [r];
    assert HandedFirst(s.free, i, r, t.free, n, a);
  }

  lemma NoRun(free: seq<Run>, m: nat, n: nat, a: nat)
    requires 0 < a && m % a == 0 && n <= m < n + a
    requires forall j :: 0 <= j < |free| ==> Required(free[j], m, a) == m + free[j].len % a + free[j].start % a
    requires forall j :: 0 <= j < |free| ==> Required(free[j], m, a) > free[j].len
    ensures NoneFits(free, n, a)
  {
    hide Required;
    forall j, len: nat | 0 <= j < |free| && len % a == 0 && n <= len < n + a ensures TooShort(free[j], len, a) {
      OneMultiple(n, a, len, m);
    }
  }

  lemma Small(r: Run, m: nat, a: nat)
    requires InBounds(r) && 0 < a < MAX_PAGES && m < 2 * MAX_PAGES
    ensures (m + r.len % a + r.start % a) % WORD == m + r.len % a + r.start % a
  {
  }

  lemma OneMultiple(n: nat, a: nat, x: nat, y: nat)
    requires a > 0 && x % a == 0 && y % a == 0 && n <= x < n + a && n <= y < n + a
    ensures x == y
  {
    var i, j := x / a, y / a;
    assert x == a * i && y == a * j;
    if i < j {
      MulStep(a, i, j);
    } else if j < i {
      MulStep(a, j, i);
    }
  }

  lemma TakeHanded(s: State, i: nat, m: nat, n: nat, a: nat)
    requires i < |s.free| && InBounds(s.free[i]) && 0 < a < MAX_PAGES && m % a == 0 && n <= m < n + a
    requires Required(s.free[i], m, a) == m + s.free[i].len % a + s.free[i].start % a <= s.free[i].len
    ensures var t := Take(s, i, Required(s.free[i], m, a), m);
            exists r :: Handed(s.free, i, r, t.free, n, a) && r.len == m && t.held == s.held + [r]
  {
    hide Required;
    var f := s.free[i];
    var k := Required(f, m, a);
    DifferenceMod(f.start, f.len, m, a);
    var t := Take(s, i, k, m);
    var r := t.held[|s.held|];
    assert t.held == s.held + [r];
    assert Handed(s.free, i, r, t.free, n, a);
  }

  /** A power of two passes the test of the alignment. */
  lemma PowerAccepted(a: nat)
    requires PowerOfTwo(a) && a < MAX_PAGES
    ensures Accepted(a)
  {
    hide PowerOfTwo;
    PowPositive(a);
    if a < 0x1_0000_0000 {
      AcceptedIff(a);
    } else {
      FourGiga();
      PowDivides(a, 0x1_0000_0000);
    }
  }

  lemma FourGiga()
    ensures PowerOfTwo(0x1_0000_0000)
  {
    hide PowerOfTwo;
    assert PowerOfTwo(0x10000) by { SixteenBits(); }
    PowMul(0x10000, 0x10000);
  }

  lemma SixteenBits()
    ensures PowerOfTwo(0x10000)
  {
    assert PowerOfTwo(16);
    hide PowerOfTwo;
    PowMul(16, 16);
    PowMul(256, 256);
  }

  lemma Bounded(rs: seq<Run>, i: nat)
    requires Pairwise(rs) && i < |rs|
    ensures InBounds(rs[i])
  {
  }

  lemma AddMod(x: int, y: int)
    ensures (x + y % WORD) % WORD == (x + y) % WORD
  {
    var q, z := y / WORD, x + y % WORD;
    assert x + y == z + WORD * q;
    assert z == WORD * (z / WORD) + z % WORD;
    assert x + y == WORD * (z / WORD + q) + z % WORD;
  }

  lemma FreeKeeps(s: State, j: nat, m: nat)
    requires Inv(s) && Enabled(s, Free(j, m))
    ensures Inv(DoFree(s, j, m))
    ensures (Total(DoFree(s, j, m).free) + DoFree(s, j, m).used) % WORD == (Total(s.free) + s.used) % WORD
  {
    Bounded(s.held, j);
    AcrossBack(s.free, s.held);
    hide Pairwise, Across;
    var r := s.held[j];
    MovePart(s.held, s.free, j, Run(r.start + m, r.len - m), Run(r.start, m));
    AcrossBack(DoFree(s, j, m).held, DoFree(s, j, m).free);
    TotalAppend(s.free, [Run(r.start, m)]);
    AddMod(Total(s.free) + m, s.used - m);
  }

  lemma AcrossBack(rs: seq<Run>, ss: seq<Run>)
    requires Across(rs, ss)
    ensures Across(ss, rs)
  {
  }

  /** Over every run of requests: free and held runs stay apart, and the free pages plus
      the used count is what it was, in 64 bits. */
  lemma {:induction false} RunSafety(s: State, steps: seq<Step>, t: State)
    requires Inv(s) && Reaches(s, steps, t)
    ensures Inv(t) && (Total(t.free) + t.used) % WORD == (Total(s.free) + s.used) % WORD
    decreases |steps|
  {
    hide Inv, DoAlloc, DoFree, Total;
    if steps != [] {
      match steps[0] {
        case Alloc(n, a) => AllocKeeps(s, n, a);
        case Free(j, m) => FreeKeeps(s, j, m);
      }
      RunSafety(Exec(s, steps[0]), steps[1..], t);
    }
  }
}
