/** Packet keys of fixed inputs, and the key words as one number: what no inverse can tell apart. */
module TkipVectors {
  import opened Bytes
  import opened XorLaws
  import opened TkipKey

  // ----- the words of the key -----

  /** A byte string as a little-endian number. */
  function LeNumber(b: seq<byte>): nat {
    if b == [] then 0 else b[0] + 0x100 * LeNumber(b[1..])
  }

  /** A list of words as a little-endian number. */
  function LeWords(ws: seq<Word>): nat {
    if ws == [] then 0 else ws[0] + 0x1_0000 * LeWords(ws[1..])
  }

  function KeyWords(tk: TempKey, n: nat): (ws: seq<Word>)
    requires n <= 8
    ensures |ws| == 8 - n
    decreases 8 - n
  {
    if n == 8 then [] else [Tk16(tk, n)] + KeyWords(tk, n + 1)
  }

  lemma {:induction false} WordsFrom(tk: TempKey, n: nat)
    requires n <= 8
    ensures LeWords(KeyWords(tk, n)) == LeNumber(tk[2 * n..])
    decreases 8 - n
  {
    if n < 8 {
      WordsFrom(tk, n + 1);
      var t := tk[2 * n..];
      assert t[1..][1..] == tk[2 * (n + 1)..];
      assert t[0] == tk[2 * n] && t[1..][0] == tk[2 * n + 1];
      assert ([Tk16(tk, n)] + KeyWords(tk, n + 1))[1..] == KeyWords(tk, n + 1);
    }
  }

  /** The eight words are the key read as one little-endian number. */
  lemma WordsAreKey(tk: TempKey)
    ensures LeWords(KeyWords(tk, 0)) == LeNumber(tk)
  {
    WordsFrom(tk, 0);
    assert tk[0..] == tk;
  }

  /** The second key byte, as the code writes it. */
  lemma GuardBits(h: bv8)
    ensures WeakKeyGuard(h as int) == ((h | 0x20) & 0x7F) as int
  {
    hide WeakKeyGuard;
    GuardLow(h);
    GuardBit(h & 0x7F);
    GuardOf(h as int, (h & 0x7F) as int);
  }

  lemma GuardLow(h: bv8)
    ensures (h & 0x7F) as int == (h as int) % 0x80
    ensures (h | 0x20) & 0x7F == if (h & 0x7F) & 0x20 != 0 then h & 0x7F else (h & 0x7F) + 0x20
  {
  }

  lemma GuardBit(l: bv8)
    requires l <= 0x7F
    ensures l & 0x20 != 0 <==> (l as int / 0x20) % 2 == 1
    ensures l & 0x20 == 0 ==> (l + 0x20) as int == l as int + 0x20
  {
  }

  lemma GuardOf(h: byte, low: int)
    requires low == h % 0x80
    ensures WeakKeyGuard(h) == if (low / 0x20) % 2 == 1 then low else low + 0x20
  {
  }

  // ----- all tables zero -----

  function ZeroBox(): Sbox {
    Sbox(seq(256, _ => 0), seq(256, _ => 0))
  }

  lemma XorZero(v: Word)
    ensures Xor16(v, 0) == v
  {
    hide BitXor;
    XorWithZero(v);
  }

  lemma ZeroS(v: Word)
    ensures S(ZeroBox(), v) == 0
  {
    XorZero(0);
  }

  const FIRST_KEY: TempKey := [1] + seq(15, _ => 0)

  lemma FirstWords(n: nat)
    requires n < 8
    ensures Tk16(FIRST_KEY, n) == if n == 0 then 1 else 0
  {
  }

  /** Without an S-box a round only counts. */
  lemma ZeroRound(tk: TempKey, i: nat, p: P1K)
    ensures Round(ZeroBox(), tk, i, p) == p.(k4 := Add(p.k4, i % 0x10000))
  {
    hide S, Tk16, Xor16;
    forall v: Word ensures S(ZeroBox(), v) == 0 {
      ZeroS(v);
    }
  }

  lemma {:induction false} ZeroRounds(tk: TempKey, n: nat)
    requires n <= 8
    ensures Rounds(ZeroBox(), tk, P1K(0, 0, 0, 0, 0), n) == P1K(0, 0, 0, 0, Below(n))
  {
    hide Round, ZeroBox, Add;
    if n > 0 {
      ZeroRounds(tk, n - 1);
      ZeroRound(tk, n - 1, P1K(0, 0, 0, 0, Below(n - 1)));
      SmallSum(Below(n - 1), n - 1);
    }
  }

  lemma SmallSum(a: nat, b: nat)
    requires a <= 100 && b <= 100
    ensures Add(a, b % 0x10000) == a + b
  {
  }

  /** The sum of the numbers below `n`. */
  function Below(n: nat): (r: nat)
    requires n <= 8
    ensures r <= 8 * n
  {
    if n == 0 then 0 else Below(n - 1) + (n - 1)
  }

  lemma ZeroMix(tk: TempKey, p: Ppk)
    ensures Mix(ZeroBox(), tk, p) == p
  {
    hide S, Tk16, Xor16;
    forall v: Word ensures S(ZeroBox(), v) == 0 {
      ZeroS(v);
    }
  }

  /** Key 01 00 .. 00, everything else zero. */
  lemma FirstPacketKey()
    ensures PacketKey(ZeroBox(), FIRST_KEY, seq(6, _ => 0), 0, 0)
         == [0x00, 0x20, 0x00, 0x15, 0x0E, 0x00, 0x07, 0x00, 0x03, 0x80, 0x01, 0xC0, 0x1C, 0xE0, 0x2A, 0x70]
  {
    hide Rounds, Mix, Sweep, KeyBytes, Tk16, Xor16, ZeroBox;
    ZeroRounds(FIRST_KEY, 8);
    assert Below(8) == 28;
    var p := P1K(0, 0, 0, 0, 28);
    var e := Ppk(0, 0, 0, 0, 28, 28);
    ZeroMix(FIRST_KEY, e);
    FirstSweep();
    FirstWords(0);
    assert Xor16(0x702A, 1) == 0x702B by { Xor16Bits(0x70, 0x2A, 0x00, 0x01); }
    FirstEmits();
  }

  /** A rotation to the right: the lowest bit becomes the highest. */
  lemma Rotated(v: Word, r: Word)
    requires v == 2 * (r % 0x8000) + r / 0x8000
    ensures RotR1(v) == r
  {
  }

  lemma FirstEmits()
    requires Xor16(0x702A, Tk16(FIRST_KEY, 0)) == 0x702B
    ensures KeyBytes(FIRST_KEY, Ppk(0x000E, 0x0007, 0x8003, 0xC001, 0xE01C, 0x702A), 0)
         == [0x00, 0x20, 0x00, 0x15, 0x0E, 0x00, 0x07, 0x00, 0x03, 0x80, 0x01, 0xC0, 0x1C, 0xE0, 0x2A, 0x70]
  {
    hide Tk16, Xor16;
  }

  lemma FirstSweep()
    ensures Sweep(FIRST_KEY, Ppk(0, 0, 0, 0, 28, 28)) == Ppk(0x000E, 0x0007, 0x8003, 0xC001, 0xE01C, 0x702A)
  {
    hide Tk16, Xor16, RotR1;
    FirstWords(6);
    FirstWords(7);
    XorZero(28);
    XorZero(0x000E);
    Rotated(28, 0x000E);
    Rotated(0x000E, 0x0007);
    Rotated(0x0007, 0x8003);
    Rotated(0x8003, 0xC001);
    Rotated(0xC001, 0xE000);
    Rotated(0xE01C, 0x700E);
  }

  // ----- tables that leave every word as it is -----

  function PlainBox(): Sbox {
    Sbox(seq(256, v => v), seq(256, v => 0x100 * v))
  }

  lemma PlainS(v: Word)
    ensures S(PlainBox(), v) == v
  {
    hide BitXor;
    assert Pow2(8) == 0x100;
    XorSplits(0, v / 256, v % 256, 0, 8);
    XorSymmetric(0, v / 256);
    XorWithZero(v / 256);
    XorWithZero(v % 256);
  }

  /** Sixteen different bytes. */
  const SECOND_KEY: TempKey :=
    [0x01, 0x02, 0x03, 0x04, 0x05, 0x06, 0x07, 0x08, 0x09, 0x0A, 0x0B, 0x0C, 0x0D, 0x0E, 0x0F, 0x10]

  lemma SecondWords(n: nat)
    requires n < 8
    ensures Tk16(SECOND_KEY, n) == 0x201 + 0x202 * n
  {
  }

  /** The words before round `n`. */
  function Stage(n: nat): P1K {
    match n
    case 0 => P1K(0xCDEF, 0x89AB, 0x2210, 0x4433, 0x6650)
    case 1 => P1K(0x3240, 0xBDF0, 0xDA09, 0x1837, 0x8086)
    case 2 => P1K(0xB6C5, 0x7CB2, 0x4AC2, 0x7304, 0xF78E)
    case 3 => P1K(0xAC54, 0x2703, 0x77CC, 0xECC5, 0xE654)
    case 4 => P1K(0x8EAB, 0xADAF, 0x1970, 0xF644, 0xD89E)
    case 5 => P1K(0x694A, 0x1CFE, 0x3067, 0x34AE, 0x0F51)
    case 6 => P1K(0x749C, 0x9999, 0xC5F9, 0x0AA4, 0x1DFD)
    case 7 => P1K(0x9498, 0x2C36, 0xEC38, 0xECD9, 0x0CDB)
    case _ => P1K(0x9D70, 0xC1AD, 0xB9DE, 0x96AA, 0x9F8B)
  }

  lemma Round0()
    ensures Round(PlainBox(), SECOND_KEY, 0, Stage(0)) == Stage(1)
  {
    PlainWords();
    hide S, Tk16, Xor16, PlainBox;
    assert Xor16(0x6650, 0x0201) == 0x6451 by { Xor16Bits(0x66, 0x50, 0x02, 0x01); }
    assert Xor16(0x3240, 0x0605) == 0x3445 by { Xor16Bits(0x32, 0x40, 0x06, 0x05); }
    assert Xor16(0xBDF0, 0x0A09) == 0xB7F9 by { Xor16Bits(0xBD, 0xF0, 0x0A, 0x09); }
    assert Xor16(0xDA09, 0x0E0D) == 0xD404 by { Xor16Bits(0xDA, 0x09, 0x0E, 0x0D); }
    assert Xor16(0x1837, 0x0201) == 0x1A36 by { Xor16Bits(0x18, 0x37, 0x02, 0x01); }
  }

  lemma Round1()
    ensures Round(PlainBox(), SECOND_KEY, 1, Stage(1)) == Stage(2)
  {
    PlainWords();
    hide S, Tk16, Xor16, PlainBox;
    assert Xor16(0x8086, 0x0403) == 0x8485 by { Xor16Bits(0x80, 0x86, 0x04, 0x03); }
    assert Xor16(0xB6C5, 0x0807) == 0xBEC2 by { Xor16Bits(0xB6, 0xC5, 0x08, 0x07); }
    assert Xor16(0x7CB2, 0x0C0B) == 0x70B9 by { Xor16Bits(0x7C, 0xB2, 0x0C, 0x0B); }
    assert Xor16(0x4AC2, 0x100F) == 0x5ACD by { Xor16Bits(0x4A, 0xC2, 0x10, 0x0F); }
    assert Xor16(0x7304, 0x0403) == 0x7707 by { Xor16Bits(0x73, 0x04, 0x04, 0x03); }
  }

  lemma Round2()
    ensures Round(PlainBox(), SECOND_KEY, 2, Stage(2)) == Stage(3)
  {
    PlainWords();
    hide S, Tk16, Xor16, PlainBox;
    assert Xor16(0xF78E, 0x0201) == 0xF58F by { Xor16Bits(0xF7, 0x8E, 0x02, 0x01); }
    assert Xor16(0xAC54, 0x0605) == 0xAA51 by { Xor16Bits(0xAC, 0x54, 0x06, 0x05); }
    assert Xor16(0x2703, 0x0A09) == 0x2D0A by { Xor16Bits(0x27, 0x03, 0x0A, 0x09); }
    assert Xor16(0x77CC, 0x0E0D) == 0x79C1 by { Xor16Bits(0x77, 0xCC, 0x0E, 0x0D); }
    assert Xor16(0xECC5, 0x0201) == 0xEEC4 by { Xor16Bits(0xEC, 0xC5, 0x02, 0x01); }
  }

  lemma Round3()
    ensures Round(PlainBox(), SECOND_KEY, 3, Stage(3)) == Stage(4)
  {
    PlainWords();
    hide S, Tk16, Xor16, PlainBox;
    assert Xor16(0xE654, 0x0403) == 0xE257 by { Xor16Bits(0xE6, 0x54, 0x04, 0x03); }
    assert Xor16(0x8EAB, 0x0807) == 0x86AC by { Xor16Bits(0x8E, 0xAB, 0x08, 0x07); }
    assert Xor16(0xADAF, 0x0C0B) == 0xA1A4 by { Xor16Bits(0xAD, 0xAF, 0x0C, 0x0B); }
    assert Xor16(0x1970, 0x100F) == 0x097F by { Xor16Bits(0x19, 0x70, 0x10, 0x0F); }
    assert Xor16(0xF644, 0x0403) == 0xF247 by { Xor16Bits(0xF6, 0x44, 0x04, 0x03); }
  }

  lemma Round4()
    ensures Round(PlainBox(), SECOND_KEY, 4, Stage(4)) == Stage(5)
  {
    PlainWords();
    hide S, Tk16, Xor16, PlainBox;
    assert Xor16(0xD89E, 0x0201) == 0xDA9F by { Xor16Bits(0xD8, 0x9E, 0x02, 0x01); }
    assert Xor16(0x694A, 0x0605) == 0x6F4F by { Xor16Bits(0x69, 0x4A, 0x06, 0x05); }
    assert Xor16(0x1CFE, 0x0A09) == 0x16F7 by { Xor16Bits(0x1C, 0xFE, 0x0A, 0x09); }
    assert Xor16(0x3067, 0x0E0D) == 0x3E6A by { Xor16Bits(0x30, 0x67, 0x0E, 0x0D); }
    assert Xor16(0x34AE, 0x0201) == 0x36AF by { Xor16Bits(0x34, 0xAE, 0x02, 0x01); }
  }

  lemma Round5()
    ensures Round(PlainBox(), SECOND_KEY, 5, Stage(5)) == Stage(6)
  {
    PlainWords();
    hide S, Tk16, Xor16, PlainBox;
    assert Xor16(0x0F51, 0x0403) == 0x0B52 by { Xor16Bits(0x0F, 0x51, 0x04, 0x03); }
    assert Xor16(0x749C, 0x0807) == 0x7C9B by { Xor16Bits(0x74, 0x9C, 0x08, 0x07); }
    assert Xor16(0x9999, 0x0C0B) == 0x9592 by { Xor16Bits(0x99, 0x99, 0x0C, 0x0B); }
    assert Xor16(0xC5F9, 0x100F) == 0xD5F6 by { Xor16Bits(0xC5, 0xF9, 0x10, 0x0F); }
    assert Xor16(0x0AA4, 0x0403) == 0x0EA7 by { Xor16Bits(0x0A, 0xA4, 0x04, 0x03); }
  }

  lemma Round6()
    ensures Round(PlainBox(), SECOND_KEY, 6, Stage(6)) == Stage(7)
  {
    PlainWords();
    hide S, Tk16, Xor16, PlainBox;
    assert Xor16(0x1DFD, 0x0201) == 0x1FFC by { Xor16Bits(0x1D, 0xFD, 0x02, 0x01); }
    assert Xor16(0x9498, 0x0605) == 0x929D by { Xor16Bits(0x94, 0x98, 0x06, 0x05); }
    assert Xor16(0x2C36, 0x0A09) == 0x263F by { Xor16Bits(0x2C, 0x36, 0x0A, 0x09); }
    assert Xor16(0xEC38, 0x0E0D) == 0xE235 by { Xor16Bits(0xEC, 0x38, 0x0E, 0x0D); }
    assert Xor16(0xECD9, 0x0201) == 0xEED8 by { Xor16Bits(0xEC, 0xD9, 0x02, 0x01); }
  }

  lemma Round7()
    ensures Round(PlainBox(), SECOND_KEY, 7, Stage(7)) == Stage(8)
  {
    PlainWords();
    hide S, Tk16, Xor16, PlainBox;
    assert Xor16(0x0CDB, 0x0403) == 0x08D8 by { Xor16Bits(0x0C, 0xDB, 0x04, 0x03); }
    assert Xor16(0x9D70, 0x0807) == 0x9577 by { Xor16Bits(0x9D, 0x70, 0x08, 0x07); }
    assert Xor16(0xC1AD, 0x0C0B) == 0xCDA6 by { Xor16Bits(0xC1, 0xAD, 0x0C, 0x0B); }
    assert Xor16(0xB9DE, 0x100F) == 0xA9D1 by { Xor16Bits(0xB9, 0xDE, 0x10, 0x0F); }
    assert Xor16(0x96AA, 0x0403) == 0x92A9 by { Xor16Bits(0x96, 0xAA, 0x04, 0x03); }
  }

  lemma PlainWords()
    ensures forall v: Word :: S(PlainBox(), v) == v
    ensures forall n: nat :: n < 8 ==> Tk16(SECOND_KEY, n) == 0x201 + 0x202 * n
  {
    forall v: Word ensures S(PlainBox(), v) == v {
      PlainS(v);
    }
    forall n: nat | n < 8 ensures Tk16(SECOND_KEY, n) == 0x201 + 0x202 * n {
      SecondWords(n);
    }
  }

  lemma StageRound(n: nat)
    requires n < 8
    ensures Round(PlainBox(), SECOND_KEY, n, Stage(n)) == Stage(n + 1)
  {
    hide Round, Stage;
    match n
    case 0 => Round0();
    case 1 => Round1();
    case 2 => Round2();
    case 3 => Round3();
    case 4 => Round4();
    case 5 => Round5();
    case 6 => Round6();
    case _ => Round7();
  }

  lemma {:induction false} StagesReached(n: nat)
    requires n <= 8
    ensures Rounds(PlainBox(), SECOND_KEY, Stage(0), n) == Stage(n)
  {
    hide Round, PlainBox, Stage;
    if n > 0 {
      StagesReached(n - 1);
      StageRound(n - 1);
    }
  }

  lemma SecondLoad()
    ensures Load(0x89AB_CDEF, [0x10, 0x22, 0x33, 0x44, 0x50, 0x66]) == Stage(0)
    ensures Expand(Stage(8), 0xC1D2) == Ppk(0x9D70, 0xC1AD, 0xB9DE, 0x96AA, 0x9F8B, 0x615D)
  {
  }

  lemma SecondMix()
    ensures Mix(PlainBox(), SECOND_KEY, Ppk(0x9D70, 0xC1AD, 0xB9DE, 0x96AA, 0x9F8B, 0x615D))
         == Ppk(0x00CC, 0xC67C, 0x7A57, 0x08FA, 0xA27E, 0x0FD2)
  {
    PlainWords();
    hide S, Tk16, Xor16, PlainBox;
    assert Xor16(0x615D, 0x0201) == 0x635C by { Xor16Bits(0x61, 0x5D, 0x02, 0x01); }
    assert Xor16(0x00CC, 0x0403) == 0x04CF by { Xor16Bits(0x00, 0xCC, 0x04, 0x03); }
    assert Xor16(0xC67C, 0x0605) == 0xC079 by { Xor16Bits(0xC6, 0x7C, 0x06, 0x05); }
    assert Xor16(0x7A57, 0x0807) == 0x7250 by { Xor16Bits(0x7A, 0x57, 0x08, 0x07); }
    assert Xor16(0x08FA, 0x0A09) == 0x02F3 by { Xor16Bits(0x08, 0xFA, 0x0A, 0x09); }
    assert Xor16(0xA27E, 0x0C0B) == 0xAE75 by { Xor16Bits(0xA2, 0x7E, 0x0C, 0x0B); }
  }

  lemma SecondSweep()
    ensures Sweep(SECOND_KEY, Ppk(0x00CC, 0xC67C, 0x7A57, 0x08FA, 0xA27E, 0x0FD2))
         == Ppk(0x81BB, 0x0F56, 0x8202, 0x49FB, 0x477B, 0xB38F)
  {
    PlainWords();
    hide S, Tk16, Xor16, PlainBox, RotR1;
    assert Xor16(0x0FD2, 0x0E0D) == 0x01DF by { Xor16Bits(0x0F, 0xD2, 0x0E, 0x0D); }
    assert Xor16(0x81BB, 0x100F) == 0x91B4 by { Xor16Bits(0x81, 0xBB, 0x10, 0x0F); }
    Rotated(0x01DF, 0x80EF);
    Rotated(0x91B4, 0x48DA);
    Rotated(0x0F56, 0x07AB);
    Rotated(0x8202, 0x4101);
    Rotated(0x49FB, 0xA4FD);
    Rotated(0x477B, 0xA3BD);
  }

  /** A whole packet key: every key word, every table half, every rotation, address and packet number
      has its part in it. */
  lemma SecondPacketKey()
    ensures PacketKey(PlainBox(), SECOND_KEY, [0x10, 0x22, 0x33, 0x44, 0x50, 0x66], 0x89AB_CDEF, 0xC1D2)
         == [0xC1, 0x61, 0xD2, 0xC7, 0xBB, 0x81, 0x56, 0x0F, 0x02, 0x82, 0xFB, 0x49, 0x7B, 0x47, 0x8F, 0xB3]
  {
    hide Stage, Load, Expand, Rounds, Mix, Sweep, Tk16, Xor16, PlainBox, KeyBytes;
    SecondLoad();
    StagesReached(8);
    SecondMix();
    SecondSweep();
    SecondWords(0);
    assert Xor16(0xB38F, 0x0201) == 0xB18E by { Xor16Bits(0xB3, 0x8F, 0x02, 0x01); }
    SecondEmits();
  }

  lemma SecondEmits()
    requires Xor16(0xB38F, Tk16(SECOND_KEY, 0)) == 0xB18E
    ensures KeyBytes(SECOND_KEY, Ppk(0x81BB, 0x0F56, 0x8202, 0x49FB, 0x477B, 0xB38F), 0xC1D2)
         == [0xC1, 0x61, 0xD2, 0xC7, 0xBB, 0x81, 0x56, 0x0F, 0x02, 0x82, 0xFB, 0x49, 0x7B, 0x47, 0x8F, 0xB3]
  {
    hide Tk16, Xor16;
  }
}
