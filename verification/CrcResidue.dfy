/** What a receiver may rely on: a payload followed by its check value, lowest byte first, always leaves
    the same remainder. */
module CrcResidue {
  import opened Bytes
  import opened Iteration
  import opened Crc32
  import opened LinkCipher

  // ----- the check value as four bytes -----

  // Words as numbers carry names so that a proof can use their laws without their bits.

  function Number(c: bv32): int {
    c as int
  }

  function Low24(c: bv32): bv32 {
    c & 0xFF_FFFF
  }

  function Low16(c: bv32): bv32 {
    c & 0xFFFF
  }

  lemma TopByte(c: bv32)
    ensures Number(c) == 0x100_0000 * Number(LowByte(c >> 24)) + Number(Low24(c))
  {
  }

  lemma NextByte(c: bv32)
    ensures Number(Low24(c)) == 0x1_0000 * Number(LowByte(c >> 16)) + Number(Low16(c))
  {
  }

  lemma LastBytes(c: bv32)
    ensures Number(Low16(c)) == 0x100 * Number(LowByte(c >> 8)) + Number(LowByte(c))
  {
  }

  lemma ByteNumber(c: bv32)
    ensures ByteOf(c) == Number(LowByte(c))
  {
  }

  /** The four bytes are the word as a number, lowest byte first. */
  lemma LeBytesNumber(c: bv32)
    ensures var b: seq<int> := LeBytes(c);
            |b| == 4 && b[0] + 0x100 * b[1] + 0x1_0000 * b[2] + 0x100_0000 * b[3] == c as int
  {
    assert Number(c) == c as int;
    hide Number, LowByte, Low24, Low16, ByteOf;
    TopByte(c);
    NextByte(c);
    LastBytes(c);
    ByteNumber(c);
    ByteNumber(c >> 8);
    ByteNumber(c >> 16);
    ByteNumber(c >> 24);
  }

  lemma WidenByte(c: bv32)
    ensures Widen(ByteOf(c)) == LowByte(c)
  {
    LowByteIndex(c);
  }

  // ----- feeding a word's own complement -----

  lemma {:induction false} FeedAppend(c: bv32, a: seq<byte>, b: seq<byte>)
    ensures Feed(c, a + b) == Feed(Feed(c, a), b)
    decreases |b|
  {
    hide FeedBits;
    if b == [] {
      assert a + b == a;
    } else {
      var n := |b| - 1;
      FeedAppend(c, a, b[..n]);
      assert (a + b)[..|a| + n] == a + b[..n];
    }
  }

  /** Eight division steps. */
  function Eight(x: bv32): bv32 {
    var x2 := ShiftStep(ShiftStep(x));
    var x4 := ShiftStep(ShiftStep(x2));
    var x6 := ShiftStep(ShiftStep(x4));
    ShiftStep(ShiftStep(x6))
  }

  lemma EightIsIter(x: bv32)
    ensures Iter(ShiftStep, x, 8) == Eight(x)
  {
    hide ShiftStep;
    var x1 := ShiftStep(x);
    var x2 := ShiftStep(x1);
    var x3 := ShiftStep(x2);
    var x4 := ShiftStep(x3);
    var x5 := ShiftStep(x4);
    var x6 := ShiftStep(x5);
    var x7 := ShiftStep(x6);
    assert Iter(ShiftStep, x4, 4) == Eight(x);
    assert Iter(ShiftStep, x, 8) == Iter(ShiftStep, x4, 4);
  }

  lemma KnownEntries()
    ensures Eight(0xFF) == 0x2D02EF8D && Eight(0x72) == 0xBE0B1010 && Eight(0) == 0 && Eight(0xED) == 0xDEBB9EC5
  {
  }

  /** One more byte. */
  lemma FeedOne(c: bv32, x: bv32)
    ensures Feed(c, [ByteOf(x)]) == Xor(Eight(LowByte(Xor(c, LowByte(x)))), Shift8(c))
  {
    hide FeedBits, ShiftStep, Iter, LowByte, Shift8, Widen, ByteOf, Eight, Xor;
    WidenByte(x);
    LowTwice(x);
    ByteStep(c, LowByte(x));
    EightIsIter(LowByte(Xor(c, LowByte(x))));
    FeedSingle(c, ByteOf(x));
  }

  lemma FeedSingle(c: bv32, b: byte)
    ensures Feed(c, [b]) == FeedBits(ShiftStep, c, Widen(b), 8)
  {
    hide FeedBits, ShiftStep, Widen;
    assert [b][..0] == [];
  }

  lemma LowTwice(x: bv32)
    ensures LowByte(LowByte(x)) == LowByte(x)
  {
  }

  /** The remainder after `k` bytes of the complement of `s`. */
  function After(s: bv32, k: nat): bv32 {
    match k
    case 0 => s
    case 1 => Xor(0x2D02EF8D, Shift8(s))
    case 2 => Xor(0xBE0B1010, Shift8(After(s, 1)))
    case 3 => Shift8(After(s, 2))
    case _ => 0xDEBB20E3
  }

  /** Byte `k` of the complement, at the bottom. */
  function Lane(s: bv32, k: nat): bv32 {
    match k
    case 0 => !s
    case 1 => !s >> 8
    case 2 => !s >> 16
    case _ => !s >> 24
  }

  /** The table index of each byte does not depend on the word. */
  lemma Indices(s: bv32)
    ensures LowByte(Xor(After(s, 0), LowByte(Lane(s, 0)))) == 0xFF
    ensures LowByte(Xor(After(s, 1), LowByte(Lane(s, 1)))) == 0x72
    ensures LowByte(Xor(After(s, 2), LowByte(Lane(s, 2)))) == 0
    ensures LowByte(Xor(After(s, 3), LowByte(Lane(s, 3)))) == 0xED
  {
  }

  lemma Afters(s: bv32)
    ensures Xor(0x2D02EF8D, Shift8(After(s, 0))) == After(s, 1)
    ensures Xor(0xBE0B1010, Shift8(After(s, 1))) == After(s, 2)
    ensures Xor(0, Shift8(After(s, 2))) == After(s, 3)
  {
    hide Xor, Shift8;
    Xor0(Shift8(After(s, 2)));
  }

  lemma Xor0(c: bv32)
    ensures Xor(0, c) == c
  {
  }

  lemma LastAfter(s: bv32)
    ensures Xor(0xDEBB9EC5, Shift8(After(s, 3))) == After(s, 4)
  {
    hide Xor, Shift8;
    assert After(s, 1) == Xor(0x2D02EF8D, Shift8(s));
    assert After(s, 2) == Xor(0xBE0B1010, Shift8(After(s, 1)));
    assert After(s, 3) == Shift8(After(s, 2));
    ShiftedOut(s);
  }

  lemma ShiftedOut(s: bv32)
    ensures Shift8(Shift8(Xor(0xBE0B1010, Shift8(Xor(0x2D02EF8D, Shift8(s)))))) == 0xBE26
    ensures Xor(0xDEBB9EC5, 0xBE26) == 0xDEBB20E3
  {
  }

  lemma FeedLane(s: bv32, k: nat)
    requires k < 4
    ensures Feed(After(s, k), [ByteOf(Lane(s, k))]) == After(s, k + 1)
  {
    hide Feed, ByteOf, Eight, LowByte, Shift8, Xor, After, Lane;
    Indices(s);
    Afters(s);
    LastAfter(s);
    KnownEntries();
    FeedOne(After(s, k), Lane(s, k));
  }

  lemma Lanes(s: bv32)
    ensures LeBytes(!s) == [ByteOf(Lane(s, 0)), ByteOf(Lane(s, 1)), ByteOf(Lane(s, 2)), ByteOf(Lane(s, 3))]
  {
    hide ByteOf;
  }

  lemma Ends(s: bv32)
    ensures After(s, 0) == s && After(s, 4) == 0xDEBB20E3
  {
  }

  lemma FeedComplement(s: bv32)
    ensures Feed(s, LeBytes(!s)) == 0xDEBB20E3
  {
    hide Feed, ByteOf, After, Lane, LeBytes;
    Lanes(s);
    Ends(s);
    var b := LeBytes(!s);
    FeedLane(s, 0);
    FeedLane(s, 1);
    FeedLane(s, 2);
    FeedLane(s, 3);
    FeedAppend(s, [b[0]], [b[1]]);
    FeedAppend(s, [b[0], b[1]], [b[2]]);
    FeedAppend(s, [b[0], b[1], b[2]], [b[3]]);
    assert [b[0]] + [b[1]] == [b[0], b[1]];
    assert [b[0], b[1]] + [b[2]] == [b[0], b[1], b[2]];
    assert [b[0], b[1], b[2]] + [b[3]] == b;
  }

  /** The remainder of every payload with its check value. */
  lemma IcvResidue(payload: seq<byte>)
    ensures Feed(0xFFFFFFFF, payload + Icv(payload)) == 0xDEBB20E3
  {
    hide Feed, LeBytes;
    var s := Feed(0xFFFFFFFF, payload);
    FeedComplement(s);
    FeedAppend(0xFFFFFFFF, payload, Icv(payload));
  }
}
