/** What the mixing of the Michael code does to each bit, how it is undone, and codes of fixed messages. */
module MichaelLaws {
  import opened Bytes
  import opened Michael
  import LinkCipher
  import Crc32

  // ----- bits -----

  predicate Bit(a: bv32, i: bv32)
    requires i < 32
  {
    (a >> i) & 1 == 1
  }

  /** Bit `i` of a word rotated to the left comes from `n` places below, round the end. */
  lemma RolBits(a: bv32, n: bv32, i: bv32)
    requires 0 < n < 32 && i < 32
    ensures (i - n) & 31 < 32 && (Bit(Rol(a, n), i) <==> Bit(a, (i - n) & 31))
  {
    if i < n {
      RolWraps(a, n, i);
    } else {
      RolShifts(a, n, i);
    }
  }

  lemma RolWraps(a: bv32, n: bv32, i: bv32)
    requires 0 < n < 32 && i < n
    ensures (i - n) & 31 < 32 && (Bit(Rol(a, n), i) <==> Bit(a, (i - n) & 31))
  {
  }

  lemma RolShifts(a: bv32, n: bv32, i: bv32)
    requires 0 < n <= i < 32
    ensures (i - n) & 31 < 32 && (Bit(Rol(a, n), i) <==> Bit(a, (i - n) & 31))
  {
  }

  lemma RorBits(a: bv32, n: bv32, i: bv32)
    requires 0 < n < 32 && i < 32
    ensures (i + n) & 31 < 32 && (Bit(Ror(a, n), i) <==> Bit(a, (i + n) & 31))
  {
    RolBits(a, 32 - n, i);
    assert (i - (32 - n)) & 31 == (i + n) & 31;
  }

  /** The bytes of each half are swapped. */
  lemma SwapBits(a: bv32, i: bv32)
    requires i < 32
    ensures i ^ 8 < 32 && (Bit(SwapHalves(a), i) <==> Bit(a, i ^ 8))
  {
  }

  // ----- the mixing undone -----

  function Minus(a: bv32, b: bv32): bv32 {
    a - b
  }

  function Unblock(q: Pair, m: bv32): Pair {
    var l3 := Minus(q.l, q.r);
    var r3 := Flip(q.r, Ror(l3, 2));
    var l2 := Minus(l3, r3);
    var r2 := Flip(r3, Rol(l2, 3));
    var l1 := Minus(l2, r2);
    var r1 := Flip(r2, SwapHalves(l1));
    var l0 := Minus(l1, r1);
    Pair(Flip(l0, m), Flip(r1, Rol(l0, 17)))
  }

  lemma FlipTwice(a: bv32, b: bv32)
    ensures Flip(Flip(a, b), b) == a
  {
    FlipBack(a, b);
    assert Flip(a, b) == a ^ b;
  }

  lemma FlipBack(a: bv32, b: bv32)
    ensures Flip(a ^ b, b) == a
  {
  }

  lemma PlusMinus(a: bv32, b: bv32)
    ensures Minus(Plus(a, b), b) == a
  {
    MinusBack(a, b);
    assert Plus(a, b) == a + b;
  }

  lemma MinusBack(a: bv32, b: bv32)
    ensures Minus(a + b, b) == a
  {
  }

  lemma MinusPlus(a: bv32, b: bv32)
    ensures Plus(Minus(a, b), b) == a
  {
    PlusBack(a, b);
    assert Minus(a, b) == a - b;
  }

  lemma PlusBack(a: bv32, b: bv32)
    ensures Plus(a - b, b) == a
  {
  }

  /** For every message word the mixing is a bijection of the two halves. */
  lemma BlockBijective(p: Pair, m: bv32)
    ensures Unblock(Block(p, m), m) == p && Block(Unblock(p, m), m) == p
  {
    hide Rol, Ror, SwapHalves, Flip, Plus, Minus;
    forall a, b ensures Flip(Flip(a, b), b) == a {
      FlipTwice(a, b);
    }
    forall a, b ensures Minus(Plus(a, b), b) == a {
      PlusMinus(a, b);
    }
    forall a, b ensures Plus(Minus(a, b), b) == a {
      MinusPlus(a, b);
    }
  }

  /** Two messages of whole words that differ in the last one only have different codes. */
  lemma LastWordCounts(p: Pair, m: bv32, n: bv32)
    requires m != n
    ensures Block(p, m) != Block(p, n)
  {
    hide Block;
    BlockBijective(p, m);
    BlockBijective(p, n);
    if Block(p, m) == Block(p, n) {
      SameLeft(p, m, n);
    }
  }

  lemma SameLeft(p: Pair, m: bv32, n: bv32)
    requires m != n
    ensures Unblock(Block(p, m), m) == p ==> Unblock(Block(p, m), n) != p
  {
  }

  /** Undo the mixing of a whole message, last word first. */
  function Unabsorb(q: Pair, s: seq<byte>): Pair
    requires |s| % 4 == 0
    decreases |s|
  {
    if s == [] then q else Unabsorb(Unblock(q, Word32(s[|s| - 4..])), s[..|s| - 4])
  }

  lemma {:induction false} AbsorbUndone(k: Pair, s: seq<byte>)
    requires |s| % 4 == 0
    ensures Unabsorb(Absorb(k, s), s) == k && Absorb(Unabsorb(k, s), s) == k
    decreases |s|
  {
    hide Block, Unblock, Word32;
    if s != [] {
      var n, m := |s| - 4, Word32(s[|s| - 4..]);
      AbsorbUndone(k, s[..n]);
      BlockBijective(Absorb(k, s[..n]), m);
      AbsorbUndone(Unblock(k, m), s[..n]);
      BlockBijective(k, m);
    }
  }

  /** For every message the code is a bijection of the key: who knows both knows the key. */
  lemma CodeGivesKey(k: Pair, msg: seq<byte>)
    ensures Unabsorb(Mic(k, msg), Padded(msg)) == k && Mic(Unabsorb(k, Padded(msg)), msg) == k
  {
    AbsorbUndone(k, Padded(msg));
  }

  // ----- words and bytes -----

  lemma {:induction false} WordOf(b: seq<byte>)
    requires |b| == 4
    ensures Word32(b) == Put(Put(Put(Put(0, b[0], 0), b[1], 1), b[2], 2), b[3], 3)
  {
    hide Put;
    assert b[..3][..2] == b[..2] && b[..2][..1] == b[..1] && b[..1][..0] == [];
    assert Word32(b[..1]) == Put(0, b[0], 0);
    assert Word32(b[..2]) == Put(Word32(b[..1]), b[1], 1);
    assert Word32(b[..3]) == Put(Word32(b[..2]), b[2], 2);
  }

  lemma Rejoined(c: bv32)
    ensures (((0 | (c & 0xFF)) | (((c >> 8) & 0xFF) << 8)) | (((c >> 16) & 0xFF) << 16))
            | (((c >> 24) & 0xFF) << 24) == c
  {
  }

  lemma ByteBack(c: bv32)
    ensures Wide(LinkCipher.ByteOf(c)) == c & 0xFF
  {
    Crc32.LowByteIndex(c);
  }

  /** Writing a word and reading it again, lowest byte first both times. */
  lemma WordReadBack(c: bv32)
    ensures Word32(LinkCipher.LeBytes(c)) == c
  {
    hide Word32, Wide, LinkCipher.ByteOf;
    var b := LinkCipher.LeBytes(c);
    WordOf(b);
    ByteBack(c);
    ByteBack(c >> 8);
    ByteBack(c >> 16);
    ByteBack(c >> 24);
    Rejoined(c);
  }

  // ----- fixed inputs -----

  lemma KnownBlocks()
    ensures Block(Pair(1, 0), 0) == Pair(0x6B519593, 0x572B8B8A)
    ensures Block(Pair(0, 0), 0x5A) == Pair(0xC000134D, 0xEAA1301E)
    ensures Block(Pair(0xC000134D, 0xEAA1301E), 0) == Pair(0x1C5C9282, 0xB830D1A1)
  {
  }

  lemma KnownWords()
    ensures Word32([0, 0, 0, 0]) == 0 && Word32([0x5A, 0, 0, 0]) == 0x5A
  {
    WordOf([0, 0, 0, 0]);
    WordOf([0x5A, 0, 0, 0]);
  }

  lemma KnownBytes()
    ensures LinkCipher.LeBytes(0x1C5C9282) == [0x82, 0x92, 0x5C, 0x1C]
    ensures LinkCipher.LeBytes(0xB830D1A1) == [0xA1, 0xD1, 0x30, 0xB8]
  {
  }

  /** The code of the empty message under the zero key. */
  lemma EmptyCode()
    ensures MicBytes(Mic(KeyWords(seq(8, _ => 0)), [])) == [0x82, 0x92, 0x5C, 0x1C, 0xA1, 0xD1, 0x30, 0xB8]
  {
    hide Block, Word32, LinkCipher.LeBytes;
    KnownBlocks();
    KnownWords();
    KnownBytes();
    var zeros: seq<byte> := [0, 0, 0, 0];
    var key: seq<byte> := seq(8, _ => 0);
    assert key[..4] == zeros && key[4..8] == zeros;
    var p := Padded([]);
    assert p == [0x5A, 0, 0, 0] + zeros;
    AbsorbSnoc(Pair(0, 0), [0x5A, 0, 0, 0], zeros);
    AbsorbSnoc(Pair(0, 0), [], [0x5A, 0, 0, 0]);
    assert [] + [0x5A, 0, 0, 0] == [0x5A, 0, 0, 0];
  }
}
