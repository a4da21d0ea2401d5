/** Bytes and words as integers, and their bitwise exclusive or. */
module Bytes {

  type byte = b: int | 0 <= b < 0x100
  type Word = w: int | 0 <= w < 0x10000

  function BitXor(a: nat, b: nat): nat {
    if a == 0 && b == 0 then 0 else 2 * BitXor(a / 2, b / 2) + (a + b) % 2
  }

  lemma XorDigits(a: nat, b: nat)
    ensures BitXor(a, b) == 2 * BitXor(a / 2, b / 2) + (a + b) % 2
  {
  }

  lemma HalfAndParity(h: nat, a: nat, b: nat)
    ensures var x := 2 * h + (a + b) % 2;
            x / 2 == h && (x + b) % 2 == a % 2
  {
    assert (a + b) % 2 == (a % 2 + b % 2) % 2;
  }

  lemma {:induction false} XorTwice(a: nat, b: nat)
    ensures BitXor(BitXor(a, b), b) == a
  {
    if !(a == 0 && b == 0) {
      XorTwice(a / 2, b / 2);
      var h, x := BitXor(a / 2, b / 2), BitXor(a, b);
      assert x == 2 * h + (a + b) % 2 by { XorDigits(a, b); }
      HalfAndParity(h, a, b);
      assert BitXor(x, b) == 2 * BitXor(x / 2, b / 2) + (x + b) % 2 by { XorDigits(x, b); }
    }
  }

  function Pow2(n: nat): (p: nat)
    ensures p >= 1
  {
    if n == 0 then 1 else 2 * Pow2(n - 1)
  }

  lemma {:induction false} XorFits(a: nat, b: nat, n: nat)
    requires a < Pow2(n) && b < Pow2(n)
    ensures BitXor(a, b) < Pow2(n)
    decreases n
  {
    if n > 0 {
      XorFits(a / 2, b / 2, n - 1);
    }
  }

  function Xor8(a: byte, b: byte): byte {
    XorFits(a, b, 8);
    assert Pow2(8) == 0x100;
    BitXor(a, b)
  }

  function Xor16(a: Word, b: Word): Word {
    assert Pow2(8) == 0x100 && Pow2(12) == 0x1000 && Pow2(16) == 0x10000;
    XorFits(a, b, 16);
    BitXor(a, b)
  }

  function Lo8(v: Word): byte {
    v % 256
  }

  function Hi8(v: Word): byte {
    v / 256
  }

  /** The halves share no bit, so the exclusive or of `lo` and the shifted `hi` is their sum. */
  function Mk16(hi: byte, lo: byte): Word {
    hi * 256 + lo
  }

  /** The little-endian word at `at`; zero where the string is too short. */
  function Le16(b: seq<byte>, at: nat): nat {
    if at + 1 < |b| then Mk16(b[at + 1], b[at]) else 0
  }
}
