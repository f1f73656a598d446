/**
  What the CRC-32 register computes: the remainder of a long division of polynomials over
  the field of two elements, by the generator polynomial of section 8 of RFC 1952. A
  polynomial is the set of its exponents.
 */
module CrcDivision {
  import opened Crc32

  type Poly = set<nat>

  /** The generator polynomial. */
  const GENERATOR: Poly := {32, 26, 23, 22, 16, 12, 11, 10, 8, 7, 5, 4, 2, 1, 0}

  function Sum(p: Poly, q: Poly): (r: Poly)
    ensures forall e :: e in r <==> (e in p) != (e in q)
  {
    (p - q) + (q - p)
  }

  function TimesX(p: Poly): (r: Poly)
    ensures forall e :: e in r <==> e > 0 && e - 1 in p
  {
    set e | e in p :: e + 1
  }

  function TimesPower(p: Poly, n: nat): Poly {
    if n == 0 then p else TimesX(TimesPower(p, n - 1))
  }

  function Times(bit: bool, p: Poly): Poly {
    if bit then p else {}
  }

  /** The product of g and the polynomial with coefficients q, the highest power first. */
  function Product(q: seq<bool>, g: Poly): Poly
    decreases |q|
  {
    if q == [] then {} else Sum(TimesX(Product(q[..|q| - 1], g)), Times(q[|q| - 1], g))
  }

  lemma ProductMore(q: seq<bool>, bit: bool, g: Poly)
    ensures Product(q + [bit], g) == Sum(TimesX(Product(q, g)), Times(bit, g))
  {
    assert (q + [bit])[..|q|] == q;
  }

  // ---------- the register as a polynomial ----------

  predicate Bit(c: bv32, i: nat) {
    Odd(Shr(c, i))
  }

  /** The least significant bit stands for the highest power. */
  predicate Coefficient(c: bv32, e: nat) {
    e < 32 && Bit(c, 31 - e)
  }

  function Register(c: bv32): (p: Poly)
    ensures forall e :: e in p <==> Coefficient(c, e)
  {
    set e: nat | e < 32 && Coefficient(c, e)
  }

  lemma {:induction false} ShrAdd(c: bv32, m: nat, n: nat)
    ensures Shr(c, m + n) == Shr(Shr(c, m), n)
    decreases m
  {
    hide Half;
    if m > 0 {
      ShrAdd(Half(c), m - 1, n);
    }
  }

  lemma DownFourTimes(c: bv32)
    ensures Down(Down(Down(Down(c)))) == 0
  {
  }

  lemma ShrAll(c: bv32)
    ensures Shr(c, 32) == 0
  {
    DownFourTimes(c);
    hide Shr, Down;
    ShrAdd(c, 8, 24);
    ShrByEight(c);
    ShrAdd(Down(c), 8, 16);
    ShrByEight(Down(c));
    ShrAdd(Down(Down(c)), 8, 8);
    ShrByEight(Down(Down(c)));
    ShrByEight(Down(Down(Down(c))));
  }

  lemma {:induction false} BitXor(c: bv32, d: bv32, i: nat)
    ensures Bit(Xor(c, d), i) == (Bit(c, i) != Bit(d, i))
    decreases i
  {
    hide Xor, Half, Odd;
    if i == 0 {
      OddXor(c, d);
    } else {
      HalfXor(c, d);
      BitXor(Half(c), Half(d), i - 1);
    }
  }

  lemma RegisterXor(c: bv32, d: bv32)
    ensures Register(Xor(c, d)) == Sum(Register(c), Register(d))
  {
    hide Xor, Bit;
    forall e: nat | e < 32 ensures Coefficient(Xor(c, d), e) == (Coefficient(c, e) != Coefficient(d, e)) {
      BitXor(c, d, 31 - e);
    }
  }

  /** A shift multiplies by x, and what falls out is the coefficient of x to the 32. */
  lemma RegisterHalf(c: bv32)
    ensures TimesX(Register(c)) == Sum(Register(Half(c)), Times(Odd(c), {32}))
  {
    ShrAll(c);
    assert !Bit(Half(c), 31) by {
      assert Shr(c, 32) == Shr(Half(c), 31);
      assert !Odd(0);
    }
    hide Odd, Half;
    assert Bit(c, 0) == Odd(c);
    var l, r := TimesX(Register(c)), Sum(Register(Half(c)), Times(Odd(c), {32}));
    forall e: nat ensures e in l <==> e in r {
      if 0 < e < 32 {
        assert Bit(Half(c), 31 - e) == Bit(c, 31 - (e - 1));
      }
    }
  }

  /** The constant of the code is the generator without its highest power, bits reversed. */
  lemma PolyIsGenerator()
    ensures Register(POLY) == GENERATOR - {32}
  {
    hide Bit, Shr;
    ShrNone(POLY);
    FourBits(POLY, 0, 0xEDB8_8320);
    FourBits(POLY, 4, 0x0EDB_8832);
    FourBits(POLY, 8, 0x00ED_B883);
    FourBits(POLY, 12, 0x000E_DB88);
    FourBits(POLY, 16, 0x0000_EDB8);
    FourBits(POLY, 20, 0x0000_0EDB);
    FourBits(POLY, 24, 0x0000_00ED);
    FourBits(POLY, 28, 0x0000_000E);
    forall e: nat | e < 32 ensures Coefficient(POLY, e) <==> e in GENERATOR {
    }
  }

  lemma ShrNone(c: bv32)
    ensures Shr(c, 0) == c
  {
  }

  lemma Nibble(w: bv32)
    ensures Half(Half(Half(Half(w)))) == w >> 4
    ensures Odd(w) == (w & 1 != 0) && Odd(Half(w)) == (w & 2 != 0)
    ensures Odd(Half(Half(w))) == (w & 4 != 0) && Odd(Half(Half(Half(w)))) == (w & 8 != 0)
  {
  }

  lemma FourBits(c: bv32, n: nat, w: bv32)
    requires Shr(c, n) == w
    ensures Bit(c, n) == (w & 1 != 0) && Bit(c, n + 1) == (w & 2 != 0)
    ensures Bit(c, n + 2) == (w & 4 != 0) && Bit(c, n + 3) == (w & 8 != 0)
    ensures Shr(c, n + 4) == w >> 4
  {
    Nibble(w);
    hide Half, Odd;
    ShrAdd(c, n, 1);
    ShrAdd(c, n + 1, 1);
    ShrAdd(c, n + 2, 1);
    ShrAdd(c, n + 3, 1);
  }

  // ---------- long division ----------

  /** One bit of the message is one step of the division: the generator is taken away if the
      highest coefficient calls for it. */
  lemma StepDivides(c: bv32, bit: bool)
    ensures Sum(Sum(TimesX(Register(c)), Times(bit, {32})), Register(FeedBit(c, bit))) == Times(Odd(c) != bit, GENERATOR)
  {
    hide Odd, Half, Xor, Register, TimesX, Sum;
    RegisterHalf(c);
    RegisterXor(Half(c), POLY);
    PolyIsGenerator();
    assert 32 in GENERATOR;
    TakenAway(Register(Half(c)), GENERATOR, Odd(c), bit);
  }

  lemma TakenAway(h: Poly, g: Poly, odd: bool, bit: bool)
    requires 32 in g
    ensures Sum(Sum(Sum(h, Times(odd, {32})), Times(bit, {32})), if odd != bit then Sum(h, g - {32}) else h) ==
            Times(odd != bit, g)
  {
  }

  /** The message times x to the 32, and before it what is in the register at the start. */
  function Dividend(c: bv32, bits: seq<bool>): Poly {
    Sum(TimesPower(Register(c), |bits|), Product(bits, {32}))
  }

  function Quotient(c: bv32, bits: seq<bool>): (q: seq<bool>)
    ensures |q| == |bits|
    decreases |bits|
  {
    if bits == [] then []
    else
      var n := |bits| - 1;
      Quotient(c, bits[..n]) + [Odd(Feed(c, bits[..n])) != bits[n]]
  }

  lemma FeedLast(c: bv32, bits: seq<bool>)
    requires bits != []
    ensures Feed(c, bits) == FeedBit(Feed(c, bits[..|bits| - 1]), bits[|bits| - 1])
  {
    hide FeedBit;
    var n := |bits| - 1;
    FeedAppend(c, bits[..n], [bits[n]]);
    assert bits == bits[..n] + [bits[n]] && [bits[n]][1..] == [];
  }

  /** A step of the division, in terms of polynomials alone. */
  lemma Extended(p: Poly, m: Poly, r: Poly, k: Poly, b: Poly, r': Poly, g: Poly)
    requires Sum(Sum(p, m), r) == k && Sum(Sum(TimesX(r), b), r') == g
    ensures Sum(Sum(TimesX(p), Sum(TimesX(m), b)), r') == Sum(TimesX(k), g)
  {
    hide Sum, TimesX;
    forall e: nat
      ensures e in Sum(Sum(TimesX(p), Sum(TimesX(m), b)), r') <==> e in Sum(TimesX(k), g)
    {
      assert e in Sum(Sum(TimesX(r), b), r') <==> e in g;
      if e > 0 {
        assert e - 1 in Sum(Sum(p, m), r) <==> e - 1 in k;
      }
    }
  }

  lemma SumNone(p: Poly)
    ensures Sum(p, {}) == p && Sum({}, p) == p && Sum(p, p) == {} && TimesX({}) == {}
  {
  }

  /** Dividing what was fed to the register by the generator leaves what is in it. */
  lemma {:induction false} Divided(c: bv32, bits: seq<bool>)
    ensures Sum(Dividend(c, bits), Register(Feed(c, bits))) == Product(Quotient(c, bits), GENERATOR)
    decreases |bits|
  {
    hide Sum, TimesX, Times, Register, FeedBit, Odd, Product;
    if bits == [] {
      SumNone(Register(c));
      ProductOfNone([], {32});
      ProductOfNone([], GENERATOR);
    } else {
      var n := |bits| - 1;
      var some, bit := bits[..n], bits[n];
      Divided(c, some);
      var r, quotient := Feed(c, some), Quotient(c, some);
      StepDivides(r, bit);
      FeedLast(c, bits);
      Extended(TimesPower(Register(c), n), Product(some, {32}), Register(r), Product(quotient, GENERATOR),
               Times(bit, {32}), Register(FeedBit(r, bit)), Times(Odd(r) != bit, GENERATOR));
      ProductMore(some, bit, {32});
      ProductMore(quotient, Odd(r) != bit, GENERATOR);
      assert bits == some + [bit];
    }
  }

  // ---------- there is one remainder ----------

  lemma {:induction false} ProductOfNone(q: seq<bool>, g: Poly)
    requires forall i :: 0 <= i < |q| ==> !q[i]
    ensures Product(q, g) == {}
    decreases |q|
  {
    if q != [] {
      ProductOfNone(q[..|q| - 1], g);
    }
  }

  /** The highest power of a multiple of a polynomial of degree 32. */
  lemma {:induction false} ProductTop(q: seq<bool>, k: nat, g: Poly)
    requires k < |q| && q[k] && forall i :: 0 <= i < k ==> !q[i]
    requires 32 in g && forall e :: e in g ==> e <= 32
    ensures 32 + (|q| - 1 - k) in Product(q, g)
    decreases |q|
  {
    hide Product, Sum, TimesX;
    var n := |q| - 1;
    var some := q[..n];
    assert q == some + [q[n]];
    ProductMore(some, q[n], g);
    if k == n {
      ProductOfNone(some, g);
    } else {
      assert some[k];
      ProductTop(some, k, g);
    }
  }

  /** Only zero is a multiple of the generator and of lower degree. */
  lemma LowMultiple(q: seq<bool>)
    requires forall e :: e in Product(q, GENERATOR) ==> e < 32
    ensures Product(q, GENERATOR) == {}
  {
    if k :| 0 <= k < |q| && q[k] {
      var j := FirstSet(q, k);
      ProductTop(q, j, GENERATOR);
      assert false;
    }
    ProductOfNone(q, GENERATOR);
  }

  lemma {:induction false} FirstSet(q: seq<bool>, k: nat) returns (j: nat)
    requires k < |q| && q[k]
    ensures j <= k && q[j] && forall i :: 0 <= i < j ==> !q[i]
    decreases k
  {
    if i :| 0 <= i < k && q[i] {
      j := FirstSet(q, i);
    } else {
      j := k;
    }
  }

  function Differences(a: seq<bool>, b: seq<bool>): (d: seq<bool>)
    requires |a| == |b|
    ensures |d| == |a|
    decreases |a|
  {
    if a == [] then [] else Differences(a[..|a| - 1], b[..|b| - 1]) + [a[|a| - 1] != b[|b| - 1]]
  }

  lemma SumTimesX(p: Poly, q: Poly)
    ensures TimesX(Sum(p, q)) == Sum(TimesX(p), TimesX(q))
  {
  }

  lemma {:induction false} ProductDifferences(a: seq<bool>, b: seq<bool>, g: Poly)
    requires |a| == |b|
    ensures Product(Differences(a, b), g) == Sum(Product(a, g), Product(b, g))
    decreases |a|
  {
    if a != [] {
      var n := |a| - 1;
      ProductDifferences(a[..n], b[..n], g);
      ProductMore(Differences(a[..n], b[..n]), a[n] != b[n], g);
      SumTimesX(Product(a[..n], g), Product(b[..n], g));
    }
  }

  /** Words with the same bits are the same. */
  lemma {:induction false} SameBits(c: bv32, d: bv32, n: nat)
    requires Shr(c, n) == Shr(d, n) && forall i: nat :: i < n ==> Bit(c, i) == Bit(d, i)
    ensures c == d
    decreases n
  {
    HalfTells(c, d);
    hide Half, Odd;
    if n > 0 {
      assert Bit(c, 0) == Bit(d, 0);
      forall i: nat | i < n - 1 ensures Bit(Half(c), i) == Bit(Half(d), i) {
        assert Bit(c, i + 1) == Bit(d, i + 1);
      }
      SameBits(Half(c), Half(d), n - 1);
    }
  }

  lemma RegisterTells(c: bv32, d: bv32)
    requires Register(c) == Register(d)
    ensures c == d
  {
    hide Shr;
    ShrAll(c);
    ShrAll(d);
    forall i: nat | i < 32 ensures Bit(c, i) == Bit(d, i) {
      assert 31 - i in Register(c) <==> 31 - i in Register(d);
    }
    SameBits(c, d, 32);
  }

  /** r is what is left of d after division by the generator. */
  ghost predicate Remainder(d: Poly, n: nat, r: bv32) {
    exists q: seq<bool> :: |q| == n && Sum(d, Register(r)) == Product(q, GENERATOR)
  }

  lemma OneRemainder(d: Poly, n: nat, r: bv32, r': bv32)
    requires Remainder(d, n, r) && Remainder(d, n, r')
    ensures r == r'
  {
    hide Product, Register;
    var a: seq<bool> :| |a| == n && Sum(d, Register(r)) == Product(a, GENERATOR);
    var b: seq<bool> :| |b| == n && Sum(d, Register(r')) == Product(b, GENERATOR);
    ProductDifferences(a, b, GENERATOR);
    var p := Sum(Register(r), Register(r'));
    SumTwice(d, Register(r), Register(r'));
    forall e | e in p ensures e < 32 {
      assert Coefficient(r, e) || Coefficient(r', e);
    }
    LowMultiple(Differences(a, b));
    SumEmpty(Register(r), Register(r'));
    RegisterTells(r, r');
  }

  lemma SumTwice(d: Poly, p: Poly, q: Poly)
    ensures Sum(Sum(d, p), Sum(d, q)) == Sum(p, q)
  {
  }

  lemma SumEmpty(p: Poly, q: Poly)
    requires Sum(p, q) == {}
    ensures p == q
  {
    forall e ensures e in p <==> e in q {
      assert e !in Sum(p, q);
    }
  }

  lemma {:induction false} EightPerByte(data: seq<bv8>)
    ensures |MessageBits(data)| == 8 * |data|
  {
    hide LowBits;
    if data != [] {
      EightPerByte(data[1..]);
    }
  }

  /** The checksum is the complement of the remainder, and nothing else is: with the register
      set to ones at the start, the message times x to the 32 is divided by the generator. */
  lemma ChecksumIff(data: seq<bv8>, r: bv32)
    ensures var bits := MessageBits(data);
            r == Checksum(data) <==> Remainder(Dividend(0xFFFF_FFFF, bits), 8 * |data|, Not(r))
  {
    hide Dividend, Feed, MessageBits, Register, Product, Not;
    var bits := MessageBits(data);
    var c: bv32 := 0xFFFF_FFFF;
    EightPerByte(data);
    Divided(c, bits);
    NotTwice(Feed(c, bits));
    NotTwice(r);
    assert |Quotient(c, bits)| == |bits|;
    if Remainder(Dividend(c, bits), |bits|, Not(r)) {
      OneRemainder(Dividend(c, bits), |bits|, Not(r), Feed(c, bits));
    }
  }
}
