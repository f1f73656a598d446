/**
  The age of a page: eight bits, of which the lowest is set on a reference and all are
  shifted up once in every pass of the page replacement algorithm.
 */
module Aging {

  function Touch(age: bv8): bv8 {
    age | 1
  }

  function Shift(age: bv8): bv8 {
    age << 1
  }

  /** What one pass makes of the age of a page in the working set. */
  function Aged(age: bv8, touched: bool): bv8 {
    Shift(if touched then Touch(age) else age)
  }

  lemma TouchedStays(age: bv8)
    ensures Shift(Touch(age)) != 0
  {
  }

  function AgeAfter(age: bv8, touches: seq<bool>): bv8
    decreases |touches|
  {
    if touches == [] then age else AgeAfter(Aged(age, touches[0]), touches[1..])
  }

  lemma {:induction false} AgeSplit(age: bv8, a: seq<bool>, b: seq<bool>)
    ensures AgeAfter(age, a + b) == AgeAfter(AgeAfter(age, a), b)
    decreases |a|
  {
    hide Aged;
    if a == [] {
      assert a + b == b;
    } else {
      assert (a + b)[1..] == a[1..] + b;
      AgeSplit(Aged(age, a[0]), a[1..], b);
    }
  }

  function Bit(touched: bool, weight: bv8): bv8 {
    if touched then weight else 0
  }

  /** Seven passes as bits: the last pass is bit 1, the one before is bit 2, up to bit 7. */
  function Encoded(t: seq<bool>): bv8
    requires |t| == 7
  {
    Bit(t[6], 2) | Bit(t[5], 4) | Bit(t[4], 8) | Bit(t[3], 16) | Bit(t[2], 32) | Bit(t[1], 64) | Bit(t[0], 128)
  }

  lemma OneStep(age: bv8, t: bool)
    ensures Aged(age, t) & 1 == 0
    ensures Aged(age, t) == (age << 1) | Bit(t, 2)
  {
  }

  lemma SevenSteps(x: bv8, t0: bool, t1: bool, t2: bool, t3: bool, t4: bool, t5: bool, t6: bool)
    requires x & 1 == 0
    ensures Aged(Aged(Aged(Aged(Aged(Aged(Aged(x, t0), t1), t2), t3), t4), t5), t6) ==
            Bit(t6, 2) | Bit(t5, 4) | Bit(t4, 8) | Bit(t3, 16) | Bit(t2, 32) | Bit(t1, 64) | Bit(t0, 128)
  {
    var b0, b1, b2, b3, b4, b5, b6 := Bit(t0, 2), Bit(t1, 2), Bit(t2, 2), Bit(t3, 2), Bit(t4, 2), Bit(t5, 2), Bit(t6, 2);
    var x1 := Aged(x, t0);
    var x2 := Aged(x1, t1);
    var x3 := Aged(x2, t2);
    var x4 := Aged(x3, t3);
    var x5 := Aged(x4, t4);
    var x6 := Aged(x5, t5);
    OneStep(x, t0);
    OneStep(x1, t1);
    OneStep(x2, t2);
    OneStep(x3, t3);
    OneStep(x4, t4);
    OneStep(x5, t5);
    OneStep(x6, t6);
    hide Aged;
  }

  lemma AgeOfSeven(x: bv8, t: seq<bool>)
    requires |t| == 7
    ensures AgeAfter(x, t) == Aged(Aged(Aged(Aged(Aged(Aged(Aged(x, t[0]), t[1]), t[2]), t[3]), t[4]), t[5]), t[6])
  {
    hide Aged, AgeAfter;
    var x1 := Aged(x, t[0]);
    var x2 := Aged(x1, t[1]);
    var x3 := Aged(x2, t[2]);
    var x4 := Aged(x3, t[3]);
    var x5 := Aged(x4, t[4]);
    var x6 := Aged(x5, t[5]);
    AgeFrom(x, t, 0);
    AgeFrom(x1, t, 1);
    AgeFrom(x2, t, 2);
    AgeFrom(x3, t, 3);
    AgeFrom(x4, t, 4);
    AgeFrom(x5, t, 5);
    AgeFrom(x6, t, 6);
    AgeEnd(Aged(x6, t[6]), t);
    assert t[0..] == t;
  }

  lemma AgeFrom(x: bv8, t: seq<bool>, i: nat)
    requires i < |t|
    ensures AgeAfter(x, t[i..]) == AgeAfter(Aged(x, t[i]), t[i + 1..])
  {
    assert t[i..][1..] == t[i + 1..];
  }

  lemma AgeEnd(x: bv8, t: seq<bool>)
    ensures AgeAfter(x, t[|t|..]) == x
  {
  }

  lemma AgeOnce(age: bv8, t: bool)
    ensures AgeAfter(age, [t]) == Aged(age, t)
  {
    assert [t][1..] == [];
  }

  lemma EncodedIs(t: seq<bool>)
    requires |t| == 7
    ensures Encoded(t) ==
            Bit(t[6], 2) | Bit(t[5], 4) | Bit(t[4], 8) | Bit(t[3], 16) | Bit(t[2], 32) | Bit(t[1], 64) | Bit(t[0], 128)
  {
  }

  /** After eight passes or more the age is the touch history of the last seven, whatever
      it was before. */
  lemma AgeIsHistory(age: bv8, touches: seq<bool>)
    requires |touches| >= 8
    ensures AgeAfter(age, touches) == Encoded(touches[|touches| - 7..])
  {
    var n := |touches|;
    var before, first, last := touches[..n - 8], touches[n - 8], touches[n - 7..];
    assert touches == before + [first] + last;
    hide Aged, AgeAfter, Encoded;
    AgeSplit(age, before + [first], last);
    AgeSplit(age, before, [first]);
    AgeOnce(AgeAfter(age, before), first);
    var x := AgeAfter(AgeAfter(age, before), [first]);
    OneStep(AgeAfter(age, before), first);
    AgeOfSeven(x, last);
    EncodedIs(last);
    SevenSteps(x, last[0], last[1], last[2], last[3], last[4], last[5], last[6]);
  }

  lemma EncodedZero(t: seq<bool>)
    requires |t| == 7
    ensures Encoded(t) == 0 <==> forall i :: 0 <= i < 7 ==> !t[i]
  {
    if forall i :: 0 <= i < 7 ==> !t[i] {
    } else {
      assert t[0] || t[1] || t[2] || t[3] || t[4] || t[5] || t[6];
    }
  }

  /** So the last of eight passes or more finds the age to be 0, and drops the page,
      exactly if the page was touched neither in it nor in the six before. */
  lemma DroppedIff(age: bv8, touches: seq<bool>)
    requires |touches| >= 8
    ensures AgeAfter(age, touches) == 0 <==> forall i :: |touches| - 7 <= i < |touches| ==> !touches[i]
  {
    hide AgeAfter, Encoded;
    var last := touches[|touches| - 7..];
    AgeIsHistory(age, touches);
    EncodedZero(last);
    assert forall i :: 0 <= i < 7 ==> last[i] == touches[|touches| - 7 + i];
    assert forall i :: |touches| - 7 <= i < |touches| ==> touches[i] == last[i - (|touches| - 7)];
  }

  /** A bit of the age climbs by one in every pass. */
  lemma BitClimbs(age: bv8, t: bool, k: nat)
    requires k < 7 && age & (1 << k) != 0
    ensures Aged(age, t) & (1 << (k + 1)) != 0
  {
    if k == 0 {
    } else if k == 1 {
    } else if k == 2 {
    } else if k == 3 {
    } else if k == 4 {
    } else if k == 5 {
    } else {
    }
  }

  lemma {:induction false} BitStays(age: bv8, touches: seq<bool>, k: nat)
    requires k + |touches| < 8 && age & (1 << k) != 0
    ensures AgeAfter(age, touches) != 0
    decreases |touches|
  {
    hide Aged;
    if touches != [] {
      BitClimbs(age, touches[0], k);
      BitStays(Aged(age, touches[0]), touches[1..], k + 1);
    }
  }

  /** A page with one of the two lowest bits set lives through six passes. */
  lemma Survives(age: bv8, touches: seq<bool>)
    requires age & 3 != 0 && |touches| <= 6
    ensures AgeAfter(age, touches) != 0
  {
    hide AgeAfter;
    if age & (1 << 0) != 0 {
      BitStays(age, touches, 0);
    } else {
      BitStays(age, touches, 1);
    }
  }

  /** The age of a page just referenced has one of these, before a pass and after. */
  lemma LowBits(age: bv8, touched: bool)
    requires age == Touch(age)
    ensures age & 3 != 0 && Shift(age) & 3 != 0 && Aged(age, touched) & 3 != 0
  {
  }
}
