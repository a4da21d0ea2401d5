/** The exclusive or on integers is the one of the machine, bit by bit. */
module XorLaws {
  import opened Bytes

  // The machine's operations carry names so that a proof can use their laws without their bits.

  function Value(a: bv8): nat {
    a as int
  }

  function Upper(a: bv8): bv8 {
    a >> 1
  }

  function Lowest(a: bv8): nat {
    (a & 1) as int
  }

  function Either(a: bv8, b: bv8): bv8 {
    a ^ b
  }

  lemma LowestOf(a: bv8)
    ensures Value(a) == 2 * Value(Upper(a)) + Lowest(a) && Lowest(a) < 2
  {
  }

  lemma EitherParts(a: bv8, b: bv8)
    ensures Upper(Either(a, b)) == Either(Upper(a), Upper(b))
    ensures Lowest(Either(a, b)) == (Lowest(a) + Lowest(b)) % 2
  {
  }

  lemma ZeroOnly(a: bv8, b: bv8)
    requires Value(a) == 0 && Value(b) == 0
    ensures Value(Either(a, b)) == 0
  {
  }

  /** The digits of a sum of two even numbers and two digits. */
  lemma DigitOf(h: nat, l: nat, g: nat, m: nat)
    requires l < 2 && m < 2
    ensures (2 * h + l) / 2 == h && (2 * h + l + (2 * g + m)) % 2 == (l + m) % 2
  {
  }

  lemma {:induction false} XorIsBitwise(a: bv8, b: bv8, n: nat)
    requires Value(a) < Pow2(n) && Value(b) < Pow2(n)
    ensures BitXor(Value(a), Value(b)) == Value(Either(a, b))
    decreases n
  {
    hide Value, Upper, Lowest, Either, BitXor;
    if n == 0 {
      ZeroOnly(a, b);
      XorZeros();
    } else {
      LowestOf(a);
      LowestOf(b);
      LowestOf(Either(a, b));
      EitherParts(a, b);
      XorIsBitwise(Upper(a), Upper(b), n - 1);
      XorDigits(Value(a), Value(b));
      DigitOf(Value(Upper(a)), Lowest(a), Value(Upper(b)), Lowest(b));
      DigitOf(Value(Upper(b)), Lowest(b), Value(Upper(a)), Lowest(a));
    }
  }

  lemma XorZeros()
    ensures BitXor(0, 0) == 0
  {
  }

  /** On bytes the exclusive or is the one of the machine. */
  lemma Xor8Bits(a: bv8, b: bv8)
    ensures Xor8(a as int, b as int) == (a ^ b) as int
  {
    assert Pow2(8) == 0x100;
    XorIsBitwise(a, b, 8);
  }

  lemma {:induction false} XorSplits(a: nat, b: nat, c: nat, d: nat, n: nat)
    requires c < Pow2(n) && d < Pow2(n)
    ensures BitXor(a * Pow2(n) + c, b * Pow2(n) + d) == BitXor(a, b) * Pow2(n) + BitXor(c, d)
    decreases n
  {
    hide BitXor;
    if n == 0 {
      XorZeros();
    } else {
      var p := Pow2(n - 1);
      XorSplits(a, b, c / 2, d / 2, n - 1);
      HalfOf(a, c, p);
      HalfOf(b, d, p);
      XorDigits(a * (2 * p) + c, b * (2 * p) + d);
      XorDigits(c, d);
      Regroup(BitXor(a, b), BitXor(c / 2, d / 2), p, c, d, a * (2 * p) + c, b * (2 * p) + d);
    }
  }

  lemma HalfOf(a: nat, c: nat, p: nat)
    ensures (a * (2 * p) + c) / 2 == a * p + c / 2 && (a * (2 * p) + c) % 2 == c % 2
  {
    var q := a * p;
    assert a * (2 * p) == 2 * q;
  }

  lemma Regroup(x: nat, y: nat, p: nat, c: nat, d: nat, e: nat, f: nat)
    requires e % 2 == c % 2 && f % 2 == d % 2
    ensures 2 * (x * p + y) + (e + f) % 2 == x * (2 * p) + (2 * y + (c + d) % 2)
  {
    assert x * (2 * p) == 2 * (x * p);
  }

  /** On words it works byte by byte. */
  lemma Xor16Bits(ah: bv8, al: bv8, bh: bv8, bl: bv8)
    ensures Xor16(Mk16(ah as int, al as int), Mk16(bh as int, bl as int)) == Mk16((ah ^ bh) as int, (al ^ bl) as int)
  {
    hide Xor16, Xor8;
    Xor16Bytes(ah as int, al as int, bh as int, bl as int);
    Xor8Bits(ah, bh);
    Xor8Bits(al, bl);
  }

  lemma Xor16Bytes(ah: byte, al: byte, bh: byte, bl: byte)
    ensures Xor16(Mk16(ah, al), Mk16(bh, bl)) == Mk16(Xor8(ah, bh), Xor8(al, bl))
  {
    assert Pow2(8) == 0x100;
    XorSplits(ah, bh, al, bl, 8);
  }

  lemma {:induction false} XorWithZero(v: nat)
    ensures BitXor(v, 0) == v
  {
    if v > 0 {
      XorWithZero(v / 2);
    }
  }

  lemma {:induction false} XorSymmetric(a: nat, b: nat)
    ensures BitXor(a, b) == BitXor(b, a)
    decreases a + b
  {
    if a > 0 || b > 0 {
      XorSymmetric(a / 2, b / 2);
    }
  }
}
