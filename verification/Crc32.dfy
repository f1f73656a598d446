/**
  The GPT code's CRC-32: a table filled by nested loops, one table look-up per byte.
  The reference is the bit-serial shift register of section 8 of RFC 1952, which takes
  in the message one bit at a time, the least significant bit of each byte first.
 */
module Crc32 {

  const POLY: bv32 := 0xEDB8_8320

  // ---------- words ----------

  function Xor(c: bv32, d: bv32): bv32 { c ^ d }

  function Not(c: bv32): bv32 { !c }

  function Ext(b: bv8): bv32 { b as bv32 }

  function Half(c: bv32): bv32 { c >> 1 }

  predicate Odd(c: bv32) { c & 1 == 1 }

  lemma XorSelf(c: bv32, d: bv32)
    ensures Xor(c, d) == Xor(d, c) && Xor(Xor(c, d), d) == c && Xor(c, 0) == c
  {
  }

  lemma XorAssoc(c: bv32, d: bv32, e: bv32)
    ensures Xor(Xor(c, d), e) == Xor(c, Xor(d, e))
  {
  }

  lemma HalfXor(c: bv32, d: bv32)
    ensures Half(Xor(c, d)) == Xor(Half(c), Half(d))
  {
  }

  lemma OddXor(c: bv32, d: bv32)
    ensures Odd(Xor(c, d)) == (Odd(c) != Odd(d))
  {
  }

  /** The polynomial's top bit is set, so a shift's top bit tells what was shifted out. */
  lemma HalfTells(c: bv32, d: bv32)
    ensures Half(c) != Xor(Half(d), POLY)
    ensures Half(c) == Half(d) && Odd(c) == Odd(d) ==> c == d
  {
  }

  // ---------- the bit-serial reference ----------

  /** One bit of the message enters the register. */
  function FeedBit(c: bv32, bit: bool): bv32 {
    if Odd(c) != bit then Xor(Half(c), POLY) else Half(c)
  }

  function Feed(c: bv32, bits: seq<bool>): bv32
    decreases |bits|
  {
    if bits == [] then c else Feed(FeedBit(c, bits[0]), bits[1..])
  }

  /** The n low bits of x, the least significant first. */
  function LowBits(x: bv32, n: nat): (r: seq<bool>)
    ensures |r| == n
  {
    if n == 0 then [] else [Odd(x)] + LowBits(Half(x), n - 1)
  }

  function MessageBits(data: seq<bv8>): seq<bool> {
    if data == [] then [] else LowBits(Ext(data[0]), 8) + MessageBits(data[1..])
  }

  /** The register starts as all ones and is complemented at the end. */
  function Checksum(data: seq<bv8>): bv32 {
    Not(Feed(0xFFFF_FFFF, MessageBits(data)))
  }

  // ---------- shifts without message bits ----------

  function Step(c: bv32): bv32 {
    FeedBit(c, false)
  }

  function Steps(c: bv32, n: nat): bv32
    decreases n
  {
    if n == 0 then c else Steps(Step(c), n - 1)
  }

  lemma {:induction false} StepsLast(c: bv32, n: nat)
    ensures Steps(c, n + 1) == Step(Steps(c, n))
    decreases n
  {
    hide Step;
    if n > 0 {
      StepsLast(Step(c), n - 1);
    }
  }

  lemma StepInjective(c: bv32, d: bv32)
    requires Step(c) == Step(d)
    ensures c == d
  {
    hide Xor, Half, Odd;
    HalfTells(c, d);
    HalfTells(d, c);
    XorSelf(Half(c), POLY);
    XorSelf(Half(d), POLY);
  }

  lemma {:induction false} StepsInjective(c: bv32, d: bv32, n: nat)
    requires Steps(c, n) == Steps(d, n)
    ensures c == d
    decreases n
  {
    hide Step;
    if n > 0 {
      StepsInjective(Step(c), Step(d), n - 1);
      StepInjective(c, d);
    }
  }

  lemma StepLinear(c: bv32, d: bv32)
    ensures Step(Xor(c, d)) == Xor(Step(c), Step(d))
  {
    hide Xor, Half, Odd;
    OddXor(c, d);
    HalfXor(c, d);
    var h, k := Half(c), Half(d);
    XorAssoc(h, k, POLY);
    XorSelf(k, POLY);
    XorSelf(h, POLY);
    XorAssoc(h, POLY, k);
    XorAssoc(h, POLY, Xor(k, POLY));
    XorSelf(POLY, Xor(k, POLY));
  }

  lemma {:induction false} StepsLinear(c: bv32, d: bv32, n: nat)
    ensures Steps(Xor(c, d), n) == Xor(Steps(c, n), Steps(d, n))
    decreases n
  {
    hide Xor, Step;
    if n > 0 {
      StepLinear(c, d);
      StepsLinear(Step(c), Step(d), n - 1);
    }
  }

  function Shr(x: bv32, n: nat): bv32 {
    if n == 0 then x else Shr(Half(x), n - 1)
  }

  predicate LowClear(c: bv32, n: nat) {
    n == 0 || (!Odd(c) && LowClear(Half(c), n - 1))
  }

  /** A register whose low n bits are clear is only shifted by n steps. */
  lemma {:induction false} StepsOfHigh(c: bv32, n: nat)
    requires LowClear(c, n)
    ensures Steps(c, n) == Shr(c, n)
    decreases n
  {
    hide Odd, Half;
    if n > 0 {
      assert Step(c) == Half(c);
      StepsOfHigh(Half(c), n - 1);
    }
  }

  // ---------- a byte at a time ----------

  function Low(c: bv32): bv32 { c & 0xFF }

  function High(c: bv32): bv32 { c & 0xFFFF_FF00 }

  function Down(c: bv32): bv32 { c >> 8 }

  lemma LowHigh(c: bv32)
    ensures c == Xor(Low(c), High(c)) && Down(High(c)) == Down(c)
  {
  }

  lemma HighParity(c: bv32)
    ensures var h := High(c);
            !Odd(h) && !Odd(Half(h)) && !Odd(Half(Half(h))) && !Odd(Half(Half(Half(h)))) &&
            !Odd(Half(Half(Half(Half(h))))) && !Odd(Half(Half(Half(Half(Half(h)))))) &&
            !Odd(Half(Half(Half(Half(Half(Half(h))))))) && !Odd(Half(Half(Half(Half(Half(Half(Half(h))))))))
  {
  }

  lemma HighIsClear(c: bv32)
    ensures LowClear(High(c), 8)
  {
    HighParity(c);
    hide Odd, Half, High;
    var h := High(c);
    var h4 := Half(Half(Half(Half(h))));
    assert LowClear(Half(Half(Half(h4))), 1);
    assert LowClear(Half(Half(h4)), 2);
    assert LowClear(h4, 4);
    assert LowClear(Half(Half(h)), 6);
  }

  lemma HalfEightTimes(x: bv32)
    ensures Half(Half(Half(Half(Half(Half(Half(Half(x)))))))) == Down(x)
  {
  }

  lemma ShrByEight(x: bv32)
    ensures Shr(x, 8) == Down(x)
  {
    HalfEightTimes(x);
    hide Half, Down;
    var y := Half(Half(Half(Half(x))));
    assert Shr(x, 8) == Shr(Half(Half(x)), 6) == Shr(y, 4);
    assert Shr(y, 4) == Shr(Half(Half(y)), 2);
    assert Shr(Half(Half(Half(y))), 1) == Half(Half(Half(Half(y))));
  }

  /** Why a table of 256 entries is enough. */
  lemma TableStep(c: bv32)
    ensures Steps(c, 8) == Xor(Down(c), Steps(Low(c), 8))
  {
    hide Xor, Steps, Low, High, Down;
    LowHigh(c);
    StepsLinear(Low(c), High(c), 8);
    HighIsClear(c);
    StepsOfHigh(High(c), 8);
    ShrByEight(High(c));
    XorSelf(Down(c), Steps(Low(c), 8));
  }

  /** Feeding the low bit of x leaves what is still to be fed beside the register. */
  lemma FeedLow(c: bv32, x: bv32)
    ensures Xor(FeedBit(c, Odd(x)), Half(x)) == Step(Xor(c, x))
  {
    hide Xor, Half, Odd;
    OddXor(c, x);
    HalfXor(c, x);
    var h, k := Half(c), Half(x);
    XorAssoc(h, POLY, k);
    XorAssoc(h, k, POLY);
    XorSelf(POLY, k);
  }

  lemma {:induction false} FeedWord(c: bv32, x: bv32, n: nat)
    ensures Xor(Feed(c, LowBits(x, n)), Shr(x, n)) == Steps(Xor(c, x), n)
    decreases n
  {
    hide Xor, Step, FeedBit, Half, Odd;
    if n > 0 {
      FeedLow(c, x);
      FeedWord(FeedBit(c, Odd(x)), Half(x), n - 1);
      assert LowBits(x, n)[1..] == LowBits(Half(x), n - 1);
    }
  }

  lemma ShrOfByte(b: bv8)
    ensures Shr(Ext(b), 8) == 0
  {
    hide Shr;
    ShrByEight(Ext(b));
  }

  /** Eight bits of the message cost eight shifts of register and byte together. */
  lemma FeedByte(c: bv32, b: bv8)
    ensures Feed(c, LowBits(Ext(b), 8)) == Steps(Xor(c, Ext(b)), 8)
  {
    hide Xor, Feed, Steps, Shr, LowBits;
    ShrOfByte(b);
    FeedWord(c, Ext(b), 8);
    XorSelf(Feed(c, LowBits(Ext(b), 8)), 0);
  }

  /** One table look-up per byte: the fast form. */
  function FeedBytes(c: bv32, data: seq<bv8>): bv32
    decreases |data|
  {
    if data == [] then c else FeedBytes(Steps(Xor(c, Ext(data[0])), 8), data[1..])
  }

  lemma {:induction false} FeedAppend(c: bv32, a: seq<bool>, b: seq<bool>)
    ensures Feed(c, a + b) == Feed(Feed(c, a), b)
    decreases |a|
  {
    hide FeedBit;
    if a == [] {
      assert a + b == b;
    } else {
      FeedAppend(FeedBit(c, a[0]), a[1..], b);
      assert (a + b)[1..] == a[1..] + b;
    }
  }

  /** The byte form computes what the bit-serial form defines. */
  lemma {:induction false} BytesAreBits(c: bv32, data: seq<bv8>)
    ensures FeedBytes(c, data) == Feed(c, MessageBits(data))
    decreases |data|
  {
    hide Steps, Xor, LowBits, FeedBit;
    if data != [] {
      FeedByte(c, data[0]);
      BytesAreBits(Steps(Xor(c, Ext(data[0])), 8), data[1..]);
      FeedAppend(c, LowBits(Ext(data[0]), 8), MessageBits(data[1..]));
    }
  }

  lemma {:induction false} BytesAppend(c: bv32, a: seq<bv8>, b: seq<bv8>)
    ensures FeedBytes(c, a + b) == FeedBytes(FeedBytes(c, a), b)
    decreases |a|
  {
    hide Steps, Xor;
    if a == [] {
      assert a + b == b;
    } else {
      BytesAppend(Steps(Xor(c, a[0] as bv32), 8), a[1..], b);
      assert (a + b)[1..] == a[1..] + b;
    }
  }

  lemma XorInjective(c: bv32, d: bv32, x: bv32)
    requires Xor(c, x) == Xor(d, x)
    ensures c == d
  {
    hide Xor;
    XorSelf(c, x);
    XorSelf(d, x);
  }

  /** No bytes bring two different registers together again. */
  lemma {:induction false} BytesInjective(c: bv32, d: bv32, data: seq<bv8>)
    requires FeedBytes(c, data) == FeedBytes(d, data)
    ensures c == d
    decreases |data|
  {
    hide Steps, Xor;
    if data != [] {
      var x := Ext(data[0]);
      BytesInjective(Steps(Xor(c, x), 8), Steps(Xor(d, x), 8), data[1..]);
      StepsInjective(Xor(c, x), Xor(d, x), 8);
      XorInjective(c, d, x);
    }
  }

  // ---------- differences within four bytes ----------

  function Up(c: bv32): bv32 { c << 8 }

  function Join(b0: bv8, b1: bv8, b2: bv8, b3: bv8): bv32 {
    Xor(Ext(b0), Up(Xor(Ext(b1), Up(Xor(Ext(b2), Up(Ext(b3)))))))
  }

  lemma UpIsHigh(j: bv32)
    ensures High(Up(j)) == Up(j)
  {
  }

  lemma JoinThree(b1: bv8, b2: bv8, b3: bv8)
    ensures var j := Xor(Ext(b1), Up(Xor(Ext(b2), Up(Ext(b3))))); Down(Up(j)) == j
  {
  }

  lemma JoinTwo(b2: bv8, b3: bv8)
    ensures var j := Xor(Ext(b2), Up(Ext(b3))); Down(Up(j)) == j
    ensures Down(Up(Ext(b3))) == Ext(b3)
  {
  }

  lemma JoinInjective(a0: bv8, a1: bv8, a2: bv8, a3: bv8, b0: bv8, b1: bv8, b2: bv8, b3: bv8)
    requires Join(a0, a1, a2, a3) == Join(b0, b1, b2, b3)
    ensures a0 == b0 && a1 == b1 && a2 == b2 && a3 == b3
  {
  }

  /** A later byte may as well enter eight shifts earlier, eight places higher up. */
  lemma Earlier(c: bv32, x: bv32, j: bv32)
    requires Down(Up(j)) == j
    ensures Xor(Steps(Xor(c, x), 8), j) == Steps(Xor(c, Xor(x, Up(j))), 8)
  {
    hide Xor, Steps, Up, Down, High;
    UpIsHigh(j);
    HighIsClear(Up(j));
    StepsOfHigh(Up(j), 8);
    ShrByEight(Up(j));
    XorAssoc(c, x, Up(j));
    StepsLinear(Xor(c, x), Up(j), 8);
  }

  function Enter(c: bv32, x: bv32): bv32 { Steps(Xor(c, x), 8) }

  lemma EnterFour(c: bv32, x0: bv32, x1: bv32, x2: bv32, x3: bv32)
    requires var j2 := Xor(x2, Up(x3)); var j1 := Xor(x1, Up(j2));
             Down(Up(x3)) == x3 && Down(Up(j2)) == j2 && Down(Up(j1)) == j1
    ensures Enter(Enter(Enter(Enter(c, x0), x1), x2), x3) ==
            Steps(Steps(Steps(Steps(Xor(c, Xor(x0, Up(Xor(x1, Up(Xor(x2, Up(x3))))))), 8), 8), 8), 8)
  {
    hide Xor, Steps, Up, Down;
    var c1 := Enter(c, x0);
    var j2 := Xor(x2, Up(x3));
    Earlier(Enter(c1, x1), x2, x3);
    Earlier(c1, x1, j2);
    Earlier(c, x0, Xor(x1, Up(j2)));
  }

  lemma EnterBytes(c: bv32, b0: bv8, b1: bv8, b2: bv8, b3: bv8)
    ensures FeedBytes(c, [b0, b1, b2, b3]) == Enter(Enter(Enter(Enter(c, Ext(b0)), Ext(b1)), Ext(b2)), Ext(b3))
  {
    hide Xor, Steps, Ext;
    var w := [b0, b1, b2, b3];
    assert w[1..] == [b1, b2, b3] && w[1..][1..] == [b2, b3] && w[1..][1..][1..] == [b3];
    var c2 := Enter(Enter(c, Ext(b0)), Ext(b1));
    assert FeedBytes(c, w) == FeedBytes(c2, [b2, b3]);
    assert [b2, b3][1..] == [b3] && [b3][1..] == [];
    assert FeedBytes(c2, [b2, b3]) == FeedBytes(Enter(c2, Ext(b2)), [b3]);
    assert FeedBytes(Enter(Enter(c2, Ext(b2)), Ext(b3)), []) == Enter(Enter(c2, Ext(b2)), Ext(b3));
  }

  lemma FeedFour(c: bv32, b0: bv8, b1: bv8, b2: bv8, b3: bv8)
    ensures FeedBytes(c, [b0, b1, b2, b3]) ==
            Steps(Steps(Steps(Steps(Xor(c, Join(b0, b1, b2, b3)), 8), 8), 8), 8)
  {
    JoinThree(b1, b2, b3);
    JoinTwo(b2, b3);
    hide Xor, Steps, Up, Down, Ext, FeedBytes, Enter;
    EnterBytes(c, b0, b1, b2, b3);
    EnterFour(c, Ext(b0), Ext(b1), Ext(b2), Ext(b3));
  }

  lemma FourInjective(c: bv32, a: seq<bv8>, b: seq<bv8>)
    requires |a| == |b| == 4 && FeedBytes(c, a) == FeedBytes(c, b)
    ensures a == b
  {
    hide Xor, Steps, FeedBytes, Join;
    assert a == [a[0], a[1], a[2], a[3]] && b == [b[0], b[1], b[2], b[3]];
    FeedFour(c, a[0], a[1], a[2], a[3]);
    FeedFour(c, b[0], b[1], b[2], b[3]);
    var x, y := Xor(c, Join(a[0], a[1], a[2], a[3])), Xor(c, Join(b[0], b[1], b[2], b[3]));
    StepsInjective(Steps(Steps(Steps(x, 8), 8), 8), Steps(Steps(Steps(y, 8), 8), 8), 8);
    StepsInjective(Steps(Steps(x, 8), 8), Steps(Steps(y, 8), 8), 8);
    StepsInjective(Steps(x, 8), Steps(y, 8), 8);
    StepsInjective(x, y, 8);
    XorSelf(c, Join(a[0], a[1], a[2], a[3]));
    XorSelf(c, Join(b[0], b[1], b[2], b[3]));
    XorInjective(Join(a[0], a[1], a[2], a[3]), Join(b[0], b[1], b[2], b[3]), c);
    JoinInjective(a[0], a[1], a[2], a[3], b[0], b[1], b[2], b[3]);
  }

  lemma ThreeParts(c: bv32, p: seq<bv8>, u: seq<bv8>, v: seq<bv8>, s: seq<bv8>)
    requires |u| == |v| == 4 && FeedBytes(c, p + u + s) == FeedBytes(c, p + v + s)
    ensures u == v
  {
    hide FeedBytes;
    BytesAppend(c, p + u, s);
    BytesAppend(c, p + v, s);
    BytesInjective(FeedBytes(c, p + u), FeedBytes(c, p + v), s);
    BytesAppend(c, p, u);
    BytesAppend(c, p, v);
    FourInjective(FeedBytes(c, p), u, v);
  }

  lemma NotTwice(c: bv32)
    ensures Not(Not(c)) == c
  {
  }

  lemma WindowRecovered(a: seq<bv8>, b: seq<bv8>, i: nat)
    requires |a| == |b| && Checksum(a) == Checksum(b)
    requires forall k :: 0 <= k < |a| && !(i <= k < i + 4) ==> a[k] == b[k]
    ensures a == b
  {
    hide FeedBytes, Feed, MessageBits, Not;
    if i < |a| {
      var c: bv32 := 0xFFFF_FFFF;
      NotTwice(Feed(c, MessageBits(a)));
      NotTwice(Feed(c, MessageBits(b)));
      BytesAreBits(c, a);
      BytesAreBits(c, b);
      var pad: seq<bv8> := [0, 0, 0, 0];
      BytesAppend(c, a, pad);
      BytesAppend(c, b, pad);
      var a', b' := a + pad, b + pad;
      var p, u, v, s := a'[..i], a'[i..i + 4], b'[i..i + 4], a'[i + 4..];
      assert a' == p + u + s;
      assert b' == p + v + s;
      ThreeParts(c, p, u, v, s);
      assert a == a'[..|a|] && b == b'[..|b|];
    }
  }

  /** Two messages of one length that differ, but only inside a window of four bytes,
      have different checksums. */
  lemma WindowDetected(a: seq<bv8>, b: seq<bv8>, i: nat)
    requires |a| == |b| && a != b
    requires forall k :: 0 <= k < |a| && !(i <= k < i + 4) ==> a[k] == b[k]
    ensures Checksum(a) != Checksum(b)
  {
    hide Checksum;
    if Checksum(a) == Checksum(b) {
      WindowRecovered(a, b, i);
    }
  }

  // ---------- the code ----------

  /** A byte as the code reads it, as a signed char that is widened to 32 bits. */
  function Widen(b: bv8): bv32 {
    if b & 0x80 != 0 then 0xFFFF_FF00 | Ext(b) else Ext(b)
  }

  function Word(k: nat): bv32
    requires k < 256
  {
    k as bv32
  }

  ghost predicate Filled(table: seq<bv32>) {
    |table| == 256 && forall k :: 0 <= k < 256 ==> table[k] == Steps(Word(k), 8)
  }

  lemma LowOfWiden(c: bv32, b: bv8)
    ensures Low(Xor(c, Widen(b))) == Low(Xor(c, Ext(b))) && Down(Xor(c, Ext(b))) == Down(c)
  {
  }

  /** Where in the table the code looks. */
  function Slot(c: bv32, b: bv8): (k: nat)
    ensures k < 256
  {
    LowIsByte(Xor(c, Widen(b)));
    Low(Xor(c, Widen(b))) as int
  }

  lemma LowIsByte(x: bv32)
    ensures 0 <= (Low(x) as int) < 256 && (Low(x) as int) as bv32 == Low(x)
  {
  }

  lemma LoopStep(c: bv32)
    ensures Xor(Half(c), POLY & (0 - (c & 1))) == Step(c)
  {
    if c & 1 == 1 {
    } else {
      assert c & 1 == 0;
    }
  }

  /** A look-up does for the register what eight bits of the message do. */
  lemma LookUp(c: bv32, b: bv8, table: seq<bv32>)
    requires Filled(table)
    ensures Xor(Down(c), table[Slot(c, b)]) == FeedBytes(c, [b])
  {
    LowIsByte(Xor(c, Widen(b)));
    LowOfWiden(c, b);
    hide Xor, Low, Down, Widen, Steps, Ext;
    var x := Xor(c, Ext(b));
    assert table[Slot(c, b)] == Steps(Low(x), 8);
    TableStep(x);
    assert [b][1..] == [];
  }

  lemma LookUpNext(start: bv32, data: seq<bv8>, i: nat, c: bv32, table: seq<bv32>)
    requires Filled(table) && i < |data| && c == FeedBytes(start, data[..i])
    ensures Xor(Down(c), table[Slot(c, data[i])]) == FeedBytes(start, data[..i + 1])
  {
    hide Xor, Down, Slot, FeedBytes;
    LookUp(c, data[i], table);
    BytesAppend(start, data[..i], [data[i]]);
    assert data[..i + 1] == data[..i] + [data[i]];
  }

  /** Continuing from the checksum of a over b gives the checksum of a + b. */
  lemma Continues(a: seq<bv8>, b: seq<bv8>)
    ensures Not(FeedBytes(Not(Checksum(a)), b)) == Checksum(a + b)
  {
    hide FeedBytes, Feed, MessageBits, Not;
    var c: bv32 := 0xFFFF_FFFF;
    NotTwice(Feed(c, MessageBits(a)));
    BytesAreBits(c, a);
    BytesAreBits(c, a + b);
    BytesAppend(c, a, b);
  }

  class Crc {
    const crctab: array<bv32>
    var initialized: bool

    ghost predicate Valid()
      reads this, crctab
    {
      crctab.Length == 256 && (initialized ==> Filled(crctab[..]))
    }

    constructor ()
      ensures Valid() && !initialized && fresh(crctab)
    {
      crctab := new bv32[256];
      initialized := false;
    }

    method Entry(i: nat) returns (crc: bv32)
      requires i < 256
      ensures crc == Steps(Word(i), 8)
    {
      hide Word, Step;
      crc := Word(i);
      var j := 0;
      while j < 8
        invariant 0 <= j <= 8 && crc == Steps(Word(i), j)
      {
        var mask := 0 - (crc & 1);
        LoopStep(crc);
        StepsLast(Word(i), j);
        crc := (crc >> 1) ^ (POLY & mask);
        j := j + 1;
      }
    }

    method Init()
      requires crctab.Length == 256
      modifies crctab
      ensures Filled(crctab[..])
    {
      hide Steps, Word;
      var i := 0;
      while i < 256
        invariant 0 <= i <= 256
        invariant forall k :: 0 <= k < i ==> crctab[k] == Steps(Word(k), 8)
      {
        var crc := Entry(i);
        crctab[i] := crc;
        i := i + 1;
      }
    }

    method Run(data: seq<bv8>, start: bv32) returns (result: bv32)
      requires Filled(crctab[..])
      ensures result == Not(FeedBytes(start, data))
    {
      hide Xor, Down, Slot, Not, Steps;
      result := start;
      var i := 0;
      while i < |data|
        invariant 0 <= i <= |data| && result == FeedBytes(start, data[..i])
      {
        LookUpNext(start, data, i, result, crctab[..]);
        result := Xor(Down(result), crctab[Slot(result, data[i])]);
        i := i + 1;
      }
      assert data[..|data|] == data;
      result := Not(result);
    }

    method BytesFromPrevious(data: seq<bv8>, previous: bv32) returns (r: bv32)
      requires Valid()
      modifies this, crctab
      ensures Valid() && initialized
      ensures r == Not(Feed(Not(previous), MessageBits(data)))
      ensures forall a :: previous == Checksum(a) ==> r == Checksum(a + data)
    {
      hide FeedBytes, Feed, MessageBits, Not, Checksum, Filled;
      if !initialized {
        Init();
        initialized := true;
      }
      r := Run(data, Not(previous));
      BytesAreBits(Not(previous), data);
      forall a | previous == Checksum(a) ensures r == Checksum(a + data) {
        Continues(a, data);
      }
    }

    method Bytes(data: seq<bv8>) returns (r: bv32)
      requires Valid()
      modifies this, crctab
      ensures Valid() && initialized && r == Checksum(data)
    {
      if !initialized {
        Init();
        initialized := true;
      }
      r := Run(data, Not(0));
      BytesAreBits(0xFFFF_FFFF, data);
    }
  }
}
