/** Applying a step a number of times. */
module Iteration {

  function Iter<T>(f: T -> T, x: T, n: nat): T {
    if n == 0 then x else Iter(f, f(x), n - 1)
  }

  /** What turns one step of `f` into one step of `g` turns all of them. */
  lemma {:induction false} IterCommutes<T(!new), U>(h: T -> U, f: T -> T, g: U -> U, x: T, n: nat)
    requires forall y :: h(f(y)) == g(h(y))
    ensures h(Iter(f, x, n)) == Iter(g, h(x), n)
  {
    if n > 0 {
      IterCommutes(h, f, g, f(x), n - 1);
      assert h(f(x)) == g(h(x));
    }
  }

  /** An operation that one step respects is respected by all of them. */
  lemma {:induction false} IterDistributes<T(!new)>(op: (T, T) -> T, f: T -> T, a: T, b: T, n: nat)
    requires forall x, y :: f(op(x, y)) == op(f(x), f(y))
    ensures Iter(f, op(a, b), n) == op(Iter(f, a, n), Iter(f, b, n))
  {
    if n > 0 {
      IterDistributes(op, f, f(a), f(b), n - 1);
      assert f(op(a, b)) == op(f(a), f(b));
    }
  }
}

/** The table-driven CRC-32 of the WEP and TKIP integrity check. */
module Crc32 {
  import opened Iteration
  import opened Bytes

  // The word operations carry names so that a proof can use their laws without their bits.

  function Xor(a: bv32, b: bv32): bv32 {
    a ^ b
  }

  function LowBit(a: bv32): bv32 {
    a & 1
  }

  function LowByte(a: bv32): bv32 {
    a & 0xFF
  }

  function Half(a: bv32): bv32 {
    a >> 1
  }

  function Shift8(a: bv32): bv32 {
    a >> 8
  }

  // ----- the reference: one message bit at a time, least significant bit first -----

  /** One division step of the reflected CRC-32, polynomial 0xEDB88320. */
  function ShiftStep(c: bv32): bv32 {
    if LowBit(c) == 1 then Xor(Half(c), 0xEDB88320) else Half(c)
  }

  /** Feed the `n` low bits of `d`, lowest first, to a division step. */
  function FeedBits(step: bv32 -> bv32, c: bv32, d: bv32, n: nat): bv32
    decreases n
  {
    if n == 0 then c else FeedBits(step, step(Xor(c, LowBit(d))), Half(d), n - 1)
  }

  function Widen(b: byte): bv32 {
    b as bv32
  }

  function Feed(c: bv32, buf: seq<byte>): bv32 {
    if buf == [] then c else FeedBits(ShiftStep, Feed(c, buf[..|buf| - 1]), Widen(buf[|buf| - 1]), 8)
  }

  function Crc(buf: seq<byte>): bv32 {
    !Feed(0xFFFFFFFF, buf)
  }

  // ----- the table, built by bit reversal and a most-significant-first polynomial loop -----

  /** `crc32_reverseBit`, in the 32-bit arithmetic its byte operand is promoted to. */
  function ReverseByte(d: bv32): bv32 {
    ((d << 7) & 0x80) | ((d << 5) & 0x40) | ((d << 3) & 0x20) | ((d << 1) & 0x10)
    | ((d >> 1) & 0x08) | ((d >> 3) & 0x04) | ((d >> 5) & 0x02) | ((d >> 7) & 0x01)
  }

  /** The four bytes in reverse order, each with its bits reversed. */
  function Reflect(c: bv32): bv32 {
    ReverseByte((c >> 24) & 0xFF)
    | (ReverseByte((c >> 16) & 0xFF) << 8)
    | (ReverseByte((c >> 8) & 0xFF) << 16)
    | (ReverseByte(c & 0xFF) << 24)
  }

  function PolyStep(c: bv32): bv32 {
    if c & 0x80000000 != 0 then (c << 1) ^ 0x04C11DB7 else c << 1
  }

  /** The table entry for byte value `d`. */
  function TableEntry(d: bv32): bv32 {
    Reflect(Iter(PolyStep, ReverseByte(d) << 24, 8))
  }

  // ----- a table entry is eight reflected steps -----

  /** Reversing all 32 bits by swapping ever larger groups. */
  function Butterfly(c: bv32): bv32 {
    var c1 := ((c >> 1) & 0x55555555) | ((c & 0x55555555) << 1);
    var c2 := ((c1 >> 2) & 0x33333333) | ((c1 & 0x33333333) << 2);
    var c4 := ((c2 >> 4) & 0x0F0F0F0F) | ((c2 & 0x0F0F0F0F) << 4);
    var c8 := ((c4 >> 8) & 0x00FF00FF) | ((c4 & 0x00FF00FF) << 8);
    (c8 >> 16) | (c8 << 16)
  }

  lemma ReflectIsButterfly(c: bv32)
    ensures Reflect(c) == Butterfly(c)
  {
  }

  lemma ButterflyShift(c: bv32)
    ensures Butterfly(c << 1) == Butterfly(c) >> 1
  {
  }

  lemma ButterflyPoly(c: bv32)
    ensures Butterfly((c << 1) ^ 0x04C11DB7) == (Butterfly(c) >> 1) ^ 0xEDB88320
  {
  }

  lemma ButterflyTop(c: bv32)
    ensures Butterfly(c) & 1 == (c >> 31) & 1
  {
  }

  lemma ButterflyStart(d: bv32)
    requires d & 0xFF == d
    ensures Butterfly(ReverseByte(d) << 24) == d
  {
  }

  lemma StepWithTop(c: bv32)
    requires c & 0x80000000 != 0
    ensures Butterfly(PolyStep(c)) == ShiftStep(Butterfly(c))
  {
    ButterflyPoly(c);
    ButterflyTop(c);
  }

  lemma StepWithoutTop(c: bv32)
    requires c & 0x80000000 == 0
    ensures Butterfly(PolyStep(c)) == ShiftStep(Butterfly(c))
  {
    ButterflyShift(c);
    ButterflyTop(c);
  }

  /** Stepping in one bit order and reversing is reversing and stepping in the other. */
  lemma ButterflyStep(c: bv32)
    ensures Butterfly(PolyStep(c)) == ShiftStep(Butterfly(c))
  {
    if c & 0x80000000 == 0 { StepWithoutTop(c); } else { StepWithTop(c); }
  }

  /** The entry that the two reversals and the other bit order compute: eight reflected steps. */
  lemma TableEntryMeaning(d: bv32)
    requires LowByte(d) == d
    ensures TableEntry(d) == Iter(ShiftStep, d, 8)
  {
    forall c: bv32 ensures Butterfly(PolyStep(c)) == ShiftStep(Butterfly(c)) { ButterflyStep(c); }
    IterCommutes(Butterfly, PolyStep, ShiftStep, ReverseByte(d) << 24, 8);
    ButterflyStart(d);
    ReflectIsButterfly(Iter(PolyStep, ReverseByte(d) << 24, 8));
  }

  // ----- eight steps at once -----

  lemma XorHalf(a: bv32, b: bv32)
    ensures Half(Xor(a, b)) == Xor(Half(a), Half(b))
  {
  }

  lemma XorLow(a: bv32, b: bv32)
    ensures LowBit(Xor(a, b)) == 1 <==> (LowBit(a) == 1) != (LowBit(b) == 1)
  {
  }

  lemma XorBoth(x: bv32, y: bv32, p: bv32)
    ensures Xor(Xor(x, p), Xor(y, p)) == Xor(x, y)
  {
    assert (x ^ p) ^ (y ^ p) == x ^ y;
  }

  lemma XorComm(x: bv32, y: bv32)
    ensures Xor(x, y) == Xor(y, x)
  {
  }

  lemma XorRight(x: bv32, y: bv32, p: bv32)
    ensures Xor(x, Xor(y, p)) == Xor(Xor(x, y), p)
  {
    assert x ^ (y ^ p) == (x ^ y) ^ p;
  }

  lemma XorLeft(x: bv32, y: bv32, p: bv32)
    ensures Xor(Xor(x, p), y) == Xor(Xor(x, y), p)
  {
    hide Xor;
    XorRight(x, p, y);
    XorComm(p, y);
    XorRight(x, y, p);
  }

  /** One step is linear over exclusive or. */
  lemma StepLinear(a: bv32, b: bv32)
    ensures ShiftStep(Xor(a, b)) == Xor(ShiftStep(a), ShiftStep(b))
  {
    hide Xor, Half, LowBit;
    XorHalf(a, b);
    XorLow(a, b);
    XorBoth(Half(a), Half(b), 0xEDB88320);
    XorLeft(Half(a), Half(b), 0xEDB88320);
    XorRight(Half(a), Half(b), 0xEDB88320);
  }

  lemma EvenStep(h: bv32)
    requires LowBit(h) == 0
    ensures ShiftStep(h) == Half(h)
  {
  }

  ghost predicate LowClear(h: bv32, n: nat)
    decreases n
  {
    n == 0 || (LowBit(h) == 0 && LowClear(Half(h), n - 1))
  }

  /** A word with its `n` low bits clear takes `n` steps by shifting alone. */
  lemma {:induction false} ClearOnlyShifts(step: bv32 -> bv32, h: bv32, n: nat)
    requires LowClear(h, n) && forall x :: LowBit(x) == 0 ==> step(x) == Half(x)
    ensures Iter(step, h, n) == Iter(Half, h, n)
    decreases n
  {
    hide LowBit, Half;
    if n > 0 {
      ClearOnlyShifts(step, Half(h), n - 1);
    }
  }

  lemma ShiftAgain(h: bv32)
    ensures (h >> 1) >> 1 == h >> 2 && (h >> 2) >> 1 == h >> 3 && (h >> 3) >> 1 == h >> 4
    ensures (h >> 4) >> 1 == h >> 5 && (h >> 5) >> 1 == h >> 6 && (h >> 6) >> 1 == h >> 7
    ensures (h >> 7) >> 1 == h >> 8
  {
  }

  lemma HalfEightTimes(h: bv32)
    ensures Iter(Half, h, 8) == Shift8(h)
  {
    ShiftAgain(h);
    assert Iter(Half, h >> 8, 0) == h >> 8;
    assert Iter(Half, h >> 7, 1) == h >> 8;
    assert Iter(Half, h >> 6, 2) == h >> 8;
    assert Iter(Half, h >> 5, 3) == h >> 8;
    assert Iter(Half, h >> 4, 4) == h >> 8;
    assert Iter(Half, h >> 3, 5) == h >> 8;
    assert Iter(Half, h >> 2, 6) == h >> 8;
    assert Iter(Half, h >> 1, 7) == h >> 8;
  }

  lemma ClearBits(h: bv32)
    requires h & 0xFF == 0
    ensures h & 1 == 0 && (h >> 1) & 1 == 0 && (h >> 2) & 1 == 0 && (h >> 3) & 1 == 0
    ensures (h >> 4) & 1 == 0 && (h >> 5) & 1 == 0 && (h >> 6) & 1 == 0 && (h >> 7) & 1 == 0
  {
  }

  lemma LowByteClear(h: bv32)
    requires LowByte(h) == 0
    ensures LowClear(h, 8)
  {
    ClearBits(h);
    ShiftAgain(h);
    assert LowClear(h >> 8, 0);
    assert LowClear(h >> 7, 1);
    assert LowClear(h >> 6, 2);
    assert LowClear(h >> 5, 3);
    assert LowClear(h >> 4, 4);
    assert LowClear(h >> 3, 5);
    assert LowClear(h >> 2, 6);
    assert LowClear(h >> 1, 7);
  }

  lemma HighSteps(h: bv32)
    requires LowByte(h) == 0
    ensures Iter(ShiftStep, h, 8) == Shift8(h)
  {
    forall x: bv32 | LowBit(x) == 0 ensures ShiftStep(x) == Half(x) { EvenStep(x); }
    hide *;
    LowByteClear(h);
    ClearOnlyShifts(ShiftStep, h, 8);
    HalfEightTimes(h);
  }

  function HighPart(x: bv32): bv32 {
    x & 0xFFFFFF00
  }

  lemma SplitWord(x: bv32)
    ensures x == Xor(LowByte(x), HighPart(x))
    ensures LowByte(HighPart(x)) == 0 && Shift8(HighPart(x)) == Shift8(x)
  {
  }

  /** Eight steps of a word: its low byte looked up, the rest shifted down. */
  lemma EightSteps(x: bv32)
    ensures Iter(ShiftStep, x, 8) == Xor(Iter(ShiftStep, LowByte(x), 8), Shift8(x))
  {
    forall a: bv32, b: bv32 ensures ShiftStep(Xor(a, b)) == Xor(ShiftStep(a), ShiftStep(b)) { StepLinear(a, b); }
    hide *;
    SplitWord(x);
    IterDistributes(Xor, ShiftStep, LowByte(x), HighPart(x), 8);
    HighSteps(HighPart(x));
  }

  function AllButLow(d: bv32): bv32 {
    d & 0xFFFFFFFE
  }

  lemma BitAndRest(d: bv32)
    ensures d == Xor(LowBit(d), AllButLow(d))
  {
  }

  lemma RestIsEven(d: bv32)
    ensures LowBit(AllButLow(d)) == 0
  {
  }

  lemma RestHalf(d: bv32)
    ensures Half(AllButLow(d)) == Half(d)
  {
  }

  lemma SplitBit(c: bv32, d: bv32)
    ensures Xor(c, d) == Xor(Xor(c, LowBit(d)), AllButLow(d))
    ensures LowBit(AllButLow(d)) == 0 && Half(AllButLow(d)) == Half(d)
  {
    hide Xor, LowBit, Half, AllButLow;
    BitAndRest(d);
    XorRight(c, LowBit(d), AllButLow(d));
    RestIsEven(d);
    RestHalf(d);
  }

  /** Adding a word and stepping is adding its low bit, stepping, and adding the rest shifted. */
  predicate PeelLaw(step: bv32 -> bv32, x: bv32, y: bv32) {
    step(Xor(x, y)) == Xor(step(Xor(x, LowBit(y))), Half(y))
  }

  lemma PeelBit(c: bv32, d: bv32)
    ensures PeelLaw(ShiftStep, c, d)
  {
    hide ShiftStep, Xor, LowBit, Half, AllButLow;
    SplitBit(c, d);
    StepLinear(Xor(c, LowBit(d)), AllButLow(d));
    EvenStep(AllButLow(d));
  }

  ghost predicate HasBits(d: bv32, n: nat)
    decreases n
  {
    if n == 0 then d == 0 else HasBits(Half(d), n - 1)
  }

  lemma XorZero(c: bv32)
    ensures Xor(c, 0) == c
  {
  }

  /** Feeding bits one by one is stepping the word that had all of them added at once. */
  lemma {:induction false} FeedBitsIsSteps(step: bv32 -> bv32, c: bv32, d: bv32, n: nat)
    requires HasBits(d, n)
    requires forall x, y :: PeelLaw(step, x, y)
    ensures FeedBits(step, c, d, n) == Iter(step, Xor(c, d), n)
    decreases n
  {
    hide Xor, LowBit, Half;
    if n == 0 {
      XorZero(c);
    } else {
      FeedBitsIsSteps(step, step(Xor(c, LowBit(d))), Half(d), n - 1);
      assert PeelLaw(step, c, d);
    }
  }

  lemma ByteIsLow(b: byte)
    ensures LowByte(Widen(b)) == Widen(b)
  {
  }

  lemma ByteHasBits(d: bv32)
    requires LowByte(d) == d
    ensures HasBits(d, 8)
  {
    assert d >> 8 == 0;
    ShiftAgain(d);
    assert HasBits(d >> 8, 0);
    assert HasBits(d >> 7, 1);
    assert HasBits(d >> 6, 2);
    assert HasBits(d >> 5, 3);
    assert HasBits(d >> 4, 4);
    assert HasBits(d >> 3, 5);
    assert HasBits(d >> 2, 6);
    assert HasBits(d >> 1, 7);
  }

  lemma ShiftIgnoresByte(c: bv32, d: bv32)
    requires LowByte(d) == d
    ensures Shift8(Xor(c, d)) == Shift8(c)
  {
  }

  /** Looking the low byte up and shifting the rest equals feeding the byte's eight bits. */
  lemma ByteStep(c: bv32, d: bv32)
    requires LowByte(d) == d
    ensures FeedBits(ShiftStep, c, d, 8) == Xor(Iter(ShiftStep, LowByte(Xor(c, d)), 8), Shift8(c))
  {
    hide *;
    forall x: bv32, y: bv32 ensures PeelLaw(ShiftStep, x, y) { PeelBit(x, y); }
    ByteHasBits(d);
    FeedBitsIsSteps(ShiftStep, c, d, 8);
    EightSteps(Xor(c, d));
    ShiftIgnoresByte(c, d);
  }

  // ----- the code with its lazily built table -----

  /** The entry the reference asks for at table index `i`. */
  function EntryAt(i: int): bv32
    requires 0 <= i < 256
  {
    Iter(ShiftStep, i as bv32, 8)
  }

  ghost predicate IsTable(t: seq<bv32>) {
    |t| == 256 && forall i :: 0 <= i < 256 ==> t[i] == EntryAt(i)
  }

  lemma IndexFits(i: int)
    requires 0 <= i < 256
    ensures LowByte(i as bv32) == i as bv32
  {
  }

  lemma BuiltEntryAt(i: int)
    requires 0 <= i < 256
    ensures TableEntry(i as bv32) == EntryAt(i)
  {
    hide ShiftStep, TableEntry, Iter, LowByte;
    IndexFits(i);
    TableEntryMeaning(i as bv32);
  }

  lemma LowByteIndex(x: bv32)
    ensures (LowByte(x) as int) < 256 && (LowByte(x) as int) as bv32 == LowByte(x)
  {
  }

  /** One pass of the table loop extends the reference by one byte. */
  lemma TableLoopStep(t: seq<bv32>, buf: seq<byte>, i: nat, crc: bv32)
    requires IsTable(t) && i < |buf| && crc == Feed(0xFFFFFFFF, buf[..i])
    ensures var k := LowByte(Xor(crc, Widen(buf[i])));
            (k as int) < 256 && Xor(t[k as int], Shift8(crc)) == Feed(0xFFFFFFFF, buf[..i + 1])
  {
    hide ShiftStep, FeedBits, Iter, Xor, LowByte, Shift8, Widen;
    var d := Widen(buf[i]);
    ByteIsLow(buf[i]);
    ByteStep(crc, d);
    LowByteIndex(Xor(crc, d));
    assert buf[..i + 1][..i] == buf[..i];
  }

  /** The polynomial loop for one entry. */
  method BuildEntry(d: bv32) returns (e: bv32)
    ensures e == TableEntry(d)
  {
    hide PolyStep, ReverseByte, Reflect;
    var c := ReverseByte(d) << 24;
    for j := 0 to 8
      invariant Iter(PolyStep, c, 8 - j) == Iter(PolyStep, ReverseByte(d) << 24, 8)
    {
      c := PolyStep(c);
    }
    e := Reflect(c);
  }

  method BuildEntryAt(i: int) returns (e: bv32)
    requires 0 <= i < 256
    ensures e == EntryAt(i)
  {
    hide TableEntry, EntryAt;
    e := BuildEntry(i as bv32);
    BuiltEntryAt(i);
  }

  class CrcEngine {
    var initialized: bool
    var table: seq<bv32>

    ghost predicate Valid()
      reads this
    {
      initialized ==> IsTable(table)
    }

    constructor ()
      ensures Valid() && !initialized
    {
      initialized, table := false, [];
    }

    method InitTable()
      requires Valid()
      modifies this
      ensures Valid() && initialized
    {
      hide EntryAt;
      if initialized {
        return;
      }
      var t: seq<bv32> := [];
      for i := 0 to 256
        invariant |t| == i
        invariant forall k :: 0 <= k < i ==> t[k] == EntryAt(k)
      {
        var e := BuildEntryAt(i);
        t := t + [e];
      }
      table, initialized := t, true;
    }

    /** For every byte string the table-driven loop computes the bit-at-a-time CRC-32. */
    method GetCrc(buf: seq<byte>) returns (crc: bv32)
      requires Valid()
      modifies this
      ensures Valid() && crc == Crc(buf)
    {
      InitTable();
      hide ShiftStep, FeedBits, Iter, Xor, LowByte, Shift8, Widen;
      crc := 0xFFFFFFFF;
      for i := 0 to |buf|
        invariant crc == Feed(0xFFFFFFFF, buf[..i])
        invariant initialized && IsTable(table)
      {
        TableLoopStep(table, buf, i, crc);
        crc := Xor(table[LowByte(Xor(crc, Widen(buf[i]))) as int], Shift8(crc));
      }
      assert buf[..|buf|] == buf;
      crc := !crc;
    }
  }
}
