/** TKIP per-packet key mixing on 16-bit words, held as integers below 65536 with every sum reduced.
    The two S-box tables are parameters: every statement holds for all of them. */
module TkipKey {

  import opened Bytes

  type Table = t: seq<Word> | |t| == 256 witness seq(256, _ => 0)

  datatype Sbox = Sbox(lo: Table, hi: Table)

  /** A 128-bit temporal key and a 48-bit transmitter address. */
  type TempKey = k: seq<byte> | |k| == 16 witness seq(16, _ => 0)
  type Addr = a: seq<byte> | |a| == 6 witness seq(6, _ => 0)

  function Add(a: Word, b: Word): Word {
    (a + b) % 0x10000
  }

  function Sub(a: Word, b: Word): Word {
    (a - b) % 0x10000
  }

  function RotR1(v: Word): Word {
    (v / 2 + (v % 2) * 0x8000) % 0x10000
  }

  /** Word `n` of the temporal key. */
  function Tk16(tk: TempKey, n: int): Word
    requires 0 <= n < 8
  {
    Mk16(tk[2 * n + 1], tk[2 * n])
  }

  function S(box: Sbox, v: Word): Word {
    Xor16(box.lo[v % 256], box.hi[v / 256])
  }

  lemma AddSub(a: Word, b: Word)
    ensures Sub(Add(a, b), b) == a && Add(Sub(a, b), b) == a
  {
  }

  lemma Split16(v: Word)
    ensures Mk16(Hi8(v), Lo8(v)) == v
  {
  }

  lemma Join16(hi: byte, lo: byte)
    ensures Hi8(Mk16(hi, lo)) == hi && Lo8(Mk16(hi, lo)) == lo
  {
  }

  // ----- phase 1 -----

  datatype P1K = P1K(k0: Word, k1: Word, k2: Word, k3: Word, k4: Word)

  /** Load the upper packet number and the transmitter address. */
  function Load(iv32: int, ta: Addr): P1K
    requires 0 <= iv32 < 0x1_0000_0000
  {
    P1K(iv32 % 0x10000, iv32 / 0x10000, Mk16(ta[1], ta[0]), Mk16(ta[3], ta[2]), Mk16(ta[5], ta[4]))
  }

  function Round(box: Sbox, tk: TempKey, i: nat, p: P1K): P1K {
    var h := i % 2;
    var k0 := Add(p.k0, S(box, Xor16(p.k4, Tk16(tk, h + 0))));
    var k1 := Add(p.k1, S(box, Xor16(k0, Tk16(tk, h + 2))));
    var k2 := Add(p.k2, S(box, Xor16(k1, Tk16(tk, h + 4))));
    var k3 := Add(p.k3, S(box, Xor16(k2, Tk16(tk, h + 6))));
    var k4 := Add(Add(p.k4, S(box, Xor16(k3, Tk16(tk, h + 0)))), i % 0x10000);
    P1K(k0, k1, k2, k3, k4)
  }

  function Rounds(box: Sbox, tk: TempKey, p: P1K, n: nat): P1K {
    if n == 0 then p else Round(box, tk, n - 1, Rounds(box, tk, p, n - 1))
  }

  function Phase1(box: Sbox, tk: TempKey, ta: Addr, iv32: int): P1K
    requires 0 <= iv32 < 0x1_0000_0000
  {
    Rounds(box, tk, Load(iv32, ta), 8)
  }

  // ----- phase 1 undone -----

  function Unload(p: P1K): (int, Addr) {
    (p.k1 * 0x10000 + p.k0,
     [Lo8(p.k2), Hi8(p.k2), Lo8(p.k3), Hi8(p.k3), Lo8(p.k4), Hi8(p.k4)])
  }

  function Unround(box: Sbox, tk: TempKey, i: nat, q: P1K): P1K {
    var h := i % 2;
    var k4 := Sub(Sub(q.k4, i % 0x10000), S(box, Xor16(q.k3, Tk16(tk, h + 0))));
    var k3 := Sub(q.k3, S(box, Xor16(q.k2, Tk16(tk, h + 6))));
    var k2 := Sub(q.k2, S(box, Xor16(q.k1, Tk16(tk, h + 4))));
    var k1 := Sub(q.k1, S(box, Xor16(q.k0, Tk16(tk, h + 2))));
    var k0 := Sub(q.k0, S(box, Xor16(k4, Tk16(tk, h + 0))));
    P1K(k0, k1, k2, k3, k4)
  }

  function Unrounds(box: Sbox, tk: TempKey, q: P1K, n: nat): P1K
    decreases n
  {
    if n == 0 then q else Unrounds(box, tk, Unround(box, tk, n - 1, q), n - 1)
  }

  lemma UnloadLoad(iv32: int, ta: Addr)
    requires 0 <= iv32 < 0x1_0000_0000
    ensures Unload(Load(iv32, ta)) == (iv32, ta)
  {
    hide Mk16, Lo8, Hi8;
    Join16(ta[1], ta[0]);
    Join16(ta[3], ta[2]);
    Join16(ta[5], ta[4]);
    assert ta == [ta[0], ta[1], ta[2], ta[3], ta[4], ta[5]];
  }

  lemma LoadUnload(p: P1K)
    ensures 0 <= Unload(p).0 < 0x1_0000_0000 && Load(Unload(p).0, Unload(p).1) == p
  {
    hide Mk16, Lo8, Hi8;
    Split16(p.k2);
    Split16(p.k3);
    Split16(p.k4);
  }

  lemma UnroundRound(box: Sbox, tk: TempKey, i: nat, p: P1K)
    ensures Unround(box, tk, i, Round(box, tk, i, p)) == p
  {
    hide S, Xor16, Tk16, Add, Sub;
    var h, q := i % 2, Round(box, tk, i, p);
    AddSub(Add(p.k4, S(box, Xor16(q.k3, Tk16(tk, h + 0)))), i % 0x10000);
    AddSub(p.k4, S(box, Xor16(q.k3, Tk16(tk, h + 0))));
    AddSub(p.k3, S(box, Xor16(q.k2, Tk16(tk, h + 6))));
    AddSub(p.k2, S(box, Xor16(q.k1, Tk16(tk, h + 4))));
    AddSub(p.k1, S(box, Xor16(q.k0, Tk16(tk, h + 2))));
    AddSub(p.k0, S(box, Xor16(p.k4, Tk16(tk, h + 0))));
  }

  lemma RoundUnround(box: Sbox, tk: TempKey, i: nat, q: P1K)
    ensures Round(box, tk, i, Unround(box, tk, i, q)) == q
  {
    hide S, Xor16, Tk16, Add, Sub;
    var h, p := i % 2, Unround(box, tk, i, q);
    AddSub(q.k0, S(box, Xor16(p.k4, Tk16(tk, h + 0))));
    AddSub(q.k1, S(box, Xor16(q.k0, Tk16(tk, h + 2))));
    AddSub(q.k2, S(box, Xor16(q.k1, Tk16(tk, h + 4))));
    AddSub(q.k3, S(box, Xor16(q.k2, Tk16(tk, h + 6))));
    AddSub(Sub(q.k4, i % 0x10000), S(box, Xor16(q.k3, Tk16(tk, h + 0))));
    AddSub(q.k4, i % 0x10000);
  }

  lemma {:induction false} UnroundsRounds(box: Sbox, tk: TempKey, p: P1K, n: nat)
    ensures Unrounds(box, tk, Rounds(box, tk, p, n), n) == p
  {
    hide Round, Unround;
    if n > 0 {
      UnroundRound(box, tk, n - 1, Rounds(box, tk, p, n - 1));
      UnroundsRounds(box, tk, p, n - 1);
    }
  }

  lemma {:induction false} RoundsUnrounds(box: Sbox, tk: TempKey, q: P1K, n: nat)
    ensures Rounds(box, tk, Unrounds(box, tk, q, n), n) == q
    decreases n
  {
    hide Round, Unround;
    if n > 0 {
      RoundsUnrounds(box, tk, Unround(box, tk, n - 1, q), n - 1);
      RoundUnround(box, tk, n - 1, q);
    }
  }

  /** The address and upper packet number that phase 1 turned into `q`. */
  function Phase1Inverse(box: Sbox, tk: TempKey, q: P1K): (int, Addr) {
    Unload(Unrounds(box, tk, q, 8))
  }

  /** For a fixed key phase 1 is a bijection between 80-bit inputs and 80-bit outputs. */
  lemma Phase1Bijective(box: Sbox, tk: TempKey, ta: Addr, iv32: int, q: P1K)
    requires 0 <= iv32 < 0x1_0000_0000
    ensures Phase1Inverse(box, tk, Phase1(box, tk, ta, iv32)) == (iv32, ta)
    ensures var (v, a) := Phase1Inverse(box, tk, q);
            0 <= v < 0x1_0000_0000 && Phase1(box, tk, a, v) == q
  {
    hide Load, Unload, Rounds, Unrounds;
    UnroundsRounds(box, tk, Load(iv32, ta), 8);
    UnloadLoad(iv32, ta);
    LoadUnload(Unrounds(box, tk, q, 8));
    RoundsUnrounds(box, tk, q, 8);
  }

  // ----- phase 2 -----

  datatype Ppk = Ppk(k0: Word, k1: Word, k2: Word, k3: Word, k4: Word, k5: Word)

  function Expand(p: P1K, iv16: Word): Ppk {
    Ppk(p.k0, p.k1, p.k2, p.k3, p.k4, Add(p.k4, iv16))
  }

  function Mix(box: Sbox, tk: TempKey, p: Ppk): Ppk {
    var k0 := Add(p.k0, S(box, Xor16(p.k5, Tk16(tk, 0))));
    var k1 := Add(p.k1, S(box, Xor16(k0, Tk16(tk, 1))));
    var k2 := Add(p.k2, S(box, Xor16(k1, Tk16(tk, 2))));
    var k3 := Add(p.k3, S(box, Xor16(k2, Tk16(tk, 3))));
    var k4 := Add(p.k4, S(box, Xor16(k3, Tk16(tk, 4))));
    var k5 := Add(p.k5, S(box, Xor16(k4, Tk16(tk, 5))));
    Ppk(k0, k1, k2, k3, k4, k5)
  }

  function Sweep(tk: TempKey, p: Ppk): Ppk {
    var k0 := Add(p.k0, RotR1(Xor16(p.k5, Tk16(tk, 6))));
    var k1 := Add(p.k1, RotR1(Xor16(k0, Tk16(tk, 7))));
    var k2 := Add(p.k2, RotR1(k1));
    var k3 := Add(p.k3, RotR1(k2));
    var k4 := Add(p.k4, RotR1(k3));
    var k5 := Add(p.k5, RotR1(k4));
    Ppk(k0, k1, k2, k3, k4, k5)
  }

  /** `(h | 0x20) & 0x7F`. */
  function WeakKeyGuard(h: byte): byte {
    var low := h % 0x80;
    if (low / 0x20) % 2 == 1 then low else low + 0x20
  }

  /** The 16 key bytes: the cleartext IV part, a check byte and the six mixed words. */
  function KeyBytes(tk: TempKey, p: Ppk, iv16: Word): (k: seq<byte>)
    ensures |k| == 16
  {
    [Hi8(iv16), WeakKeyGuard(Hi8(iv16)), Lo8(iv16), Lo8(Xor16(p.k5, Tk16(tk, 0)) / 2),
     Lo8(p.k0), Hi8(p.k0), Lo8(p.k1), Hi8(p.k1), Lo8(p.k2), Hi8(p.k2),
     Lo8(p.k3), Hi8(p.k3), Lo8(p.k4), Hi8(p.k4), Lo8(p.k5), Hi8(p.k5)]
  }

  function Phase2(box: Sbox, tk: TempKey, p: P1K, iv16: Word): (k: seq<byte>)
    ensures |k| == 16
  {
    KeyBytes(tk, Sweep(tk, Mix(box, tk, Expand(p, iv16))), iv16)
  }

  // ----- phase 2 undone -----

  function Unmix(box: Sbox, tk: TempKey, q: Ppk): Ppk {
    var k5 := Sub(q.k5, S(box, Xor16(q.k4, Tk16(tk, 5))));
    var k4 := Sub(q.k4, S(box, Xor16(q.k3, Tk16(tk, 4))));
    var k3 := Sub(q.k3, S(box, Xor16(q.k2, Tk16(tk, 3))));
    var k2 := Sub(q.k2, S(box, Xor16(q.k1, Tk16(tk, 2))));
    var k1 := Sub(q.k1, S(box, Xor16(q.k0, Tk16(tk, 1))));
    var k0 := Sub(q.k0, S(box, Xor16(k5, Tk16(tk, 0))));
    Ppk(k0, k1, k2, k3, k4, k5)
  }

  function Unsweep(tk: TempKey, q: Ppk): Ppk {
    var k5 := Sub(q.k5, RotR1(q.k4));
    var k4 := Sub(q.k4, RotR1(q.k3));
    var k3 := Sub(q.k3, RotR1(q.k2));
    var k2 := Sub(q.k2, RotR1(q.k1));
    var k1 := Sub(q.k1, RotR1(Xor16(q.k0, Tk16(tk, 7))));
    var k0 := Sub(q.k0, RotR1(Xor16(k5, Tk16(tk, 6))));
    Ppk(k0, k1, k2, k3, k4, k5)
  }

  function ReadWords(k: seq<byte>): Ppk
    requires |k| == 16
  {
    Ppk(Mk16(k[5], k[4]), Mk16(k[7], k[6]), Mk16(k[9], k[8]),
        Mk16(k[11], k[10]), Mk16(k[13], k[12]), Mk16(k[15], k[14]))
  }

  /** The phase 1 key and lower packet number that a key came from. */
  function Phase2Inverse(box: Sbox, tk: TempKey, k: seq<byte>): (P1K, Word)
    requires |k| == 16
  {
    var p := Unmix(box, tk, Unsweep(tk, ReadWords(k)));
    (P1K(p.k0, p.k1, p.k2, p.k3, p.k4), Mk16(k[0], k[2]))
  }

  lemma UnmixMix(box: Sbox, tk: TempKey, p: Ppk)
    ensures Unmix(box, tk, Mix(box, tk, p)) == p
  {
    hide S, Xor16, Tk16, Add, Sub;
    var q := Mix(box, tk, p);
    AddSub(p.k5, S(box, Xor16(q.k4, Tk16(tk, 5))));
    AddSub(p.k4, S(box, Xor16(q.k3, Tk16(tk, 4))));
    AddSub(p.k3, S(box, Xor16(q.k2, Tk16(tk, 3))));
    AddSub(p.k2, S(box, Xor16(q.k1, Tk16(tk, 2))));
    AddSub(p.k1, S(box, Xor16(q.k0, Tk16(tk, 1))));
    AddSub(p.k0, S(box, Xor16(p.k5, Tk16(tk, 0))));
  }

  lemma UnsweepSweep(tk: TempKey, p: Ppk)
    ensures Unsweep(tk, Sweep(tk, p)) == p
  {
    hide RotR1, Xor16, Tk16, Add, Sub;
    var q := Sweep(tk, p);
    AddSub(p.k5, RotR1(q.k4));
    AddSub(p.k4, RotR1(q.k3));
    AddSub(p.k3, RotR1(q.k2));
    AddSub(p.k2, RotR1(q.k1));
    AddSub(p.k1, RotR1(Xor16(q.k0, Tk16(tk, 7))));
    AddSub(p.k0, RotR1(Xor16(p.k5, Tk16(tk, 6))));
  }

  lemma ReadKeyBytes(tk: TempKey, p: Ppk, iv16: Word)
    ensures var k := KeyBytes(tk, p, iv16);
            ReadWords(k) == p && Mk16(k[0], k[2]) == iv16
  {
    hide Mk16, Lo8, Hi8, Xor16, Tk16;
    Split16(p.k0);
    Split16(p.k1);
    Split16(p.k2);
    Split16(p.k3);
    Split16(p.k4);
    Split16(p.k5);
    Split16(iv16);
  }

  /** Phase 2 is injective in the phase 1 key and the lower packet number. */
  lemma Phase2Injective(box: Sbox, tk: TempKey, p: P1K, iv16: Word)
    ensures Phase2Inverse(box, tk, Phase2(box, tk, p, iv16)) == (p, iv16)
  {
    hide Mix, Unmix, Sweep, Unsweep, KeyBytes, ReadWords, Mk16;
    var e := Expand(p, iv16);
    UnmixMix(box, tk, e);
    UnsweepSweep(tk, Mix(box, tk, e));
    ReadKeyBytes(tk, Sweep(tk, Mix(box, tk, e)), iv16);
  }

  // ----- the packet key -----

  function PacketKey(box: Sbox, tk: TempKey, ta: Addr, iv32: int, iv16: Word): (k: seq<byte>)
    requires 0 <= iv32 < 0x1_0000_0000
    ensures |k| == 16
  {
    Phase2(box, tk, Phase1(box, tk, ta, iv32), iv16)
  }

  /** Under one temporal key, distinct transmitter address and packet number always give
      distinct 16-byte packet keys. */
  lemma PacketKeysDistinct(box: Sbox, tk: TempKey, ta: Addr, iv32: int, iv16: Word,
                           ta': Addr, iv32': int, iv16': Word)
    requires 0 <= iv32 < 0x1_0000_0000 && 0 <= iv32' < 0x1_0000_0000
    requires (ta, iv32, iv16) != (ta', iv32', iv16')
    ensures PacketKey(box, tk, ta, iv32, iv16) != PacketKey(box, tk, ta', iv32', iv16')
  {
    hide Phase1, Phase2, Phase1Inverse, Phase2Inverse;
    var p, p' := Phase1(box, tk, ta, iv32), Phase1(box, tk, ta', iv32');
    Phase1Bijective(box, tk, ta, iv32, p);
    Phase1Bijective(box, tk, ta', iv32', p');
    Phase2Injective(box, tk, p, iv16);
    Phase2Injective(box, tk, p', iv16');
  }

  // ----- the code, updating its word arrays in place -----

  ghost function FiveOf(a: array<Word>): P1K
    requires a.Length >= 5
    reads a
  {
    P1K(a[0], a[1], a[2], a[3], a[4])
  }

  ghost function SixOf(a: array<Word>): Ppk
    requires a.Length >= 6
    reads a
  {
    Ppk(a[0], a[1], a[2], a[3], a[4], a[5])
  }

  method RoundInPlace(box: Sbox, tk: TempKey, p1k: array<Word>, i: nat)
    requires p1k.Length >= 5
    modifies p1k
    ensures FiveOf(p1k) == Round(box, tk, i, old(FiveOf(p1k)))
  {
    hide S, Xor16, Tk16, Add;
    var h := i % 2;
    p1k[0] := Add(p1k[0], S(box, Xor16(p1k[4], Tk16(tk, h + 0))));
    p1k[1] := Add(p1k[1], S(box, Xor16(p1k[0], Tk16(tk, h + 2))));
    p1k[2] := Add(p1k[2], S(box, Xor16(p1k[1], Tk16(tk, h + 4))));
    p1k[3] := Add(p1k[3], S(box, Xor16(p1k[2], Tk16(tk, h + 6))));
    p1k[4] := Add(p1k[4], S(box, Xor16(p1k[3], Tk16(tk, h + 0))));
    p1k[4] := Add(p1k[4], i % 0x10000);
  }

  method MixPhase1(box: Sbox, p1k: array<Word>, tk: TempKey, ta: Addr, iv32: int)
    requires p1k.Length >= 5 && 0 <= iv32 < 0x1_0000_0000
    modifies p1k
    ensures FiveOf(p1k) == Phase1(box, tk, ta, iv32)
  {
    hide Round;
    p1k[0] := iv32 % 0x10000;
    p1k[1] := iv32 / 0x10000;
    p1k[2] := Mk16(ta[1], ta[0]);
    p1k[3] := Mk16(ta[3], ta[2]);
    p1k[4] := Mk16(ta[5], ta[4]);
    for i := 0 to 8
      invariant FiveOf(p1k) == Rounds(box, tk, Load(iv32, ta), i)
    {
      RoundInPlace(box, tk, p1k, i);
    }
  }

  method MixInPlace(box: Sbox, tk: TempKey, ppk: array<Word>)
    requires ppk.Length == 6
    modifies ppk
    ensures SixOf(ppk) == Mix(box, tk, old(SixOf(ppk)))
  {
    hide S, Xor16, Tk16, Add;
    ppk[0] := Add(ppk[0], S(box, Xor16(ppk[5], Tk16(tk, 0))));
    ppk[1] := Add(ppk[1], S(box, Xor16(ppk[0], Tk16(tk, 1))));
    ppk[2] := Add(ppk[2], S(box, Xor16(ppk[1], Tk16(tk, 2))));
    ppk[3] := Add(ppk[3], S(box, Xor16(ppk[2], Tk16(tk, 3))));
    ppk[4] := Add(ppk[4], S(box, Xor16(ppk[3], Tk16(tk, 4))));
    ppk[5] := Add(ppk[5], S(box, Xor16(ppk[4], Tk16(tk, 5))));
  }

  method SweepInPlace(tk: TempKey, ppk: array<Word>)
    requires ppk.Length == 6
    modifies ppk
    ensures SixOf(ppk) == Sweep(tk, old(SixOf(ppk)))
  {
    hide RotR1, Xor16, Tk16, Add;
    ppk[0] := Add(ppk[0], RotR1(Xor16(ppk[5], Tk16(tk, 6))));
    ppk[1] := Add(ppk[1], RotR1(Xor16(ppk[0], Tk16(tk, 7))));
    ppk[2] := Add(ppk[2], RotR1(ppk[1]));
    ppk[3] := Add(ppk[3], RotR1(ppk[2]));
    ppk[4] := Add(ppk[4], RotR1(ppk[3]));
    ppk[5] := Add(ppk[5], RotR1(ppk[4]));
  }

  method MixPhase2(box: Sbox, tk: TempKey, p1k: array<Word>, iv16: Word) returns (rc4key: seq<byte>)
    requires p1k.Length >= 5
    ensures rc4key == Phase2(box, tk, FiveOf(p1k), iv16)
  {
    hide Mix, Sweep, Add, KeyBytes;
    var ppk := new Word[6](_ => 0);
    for i := 0 to 5
      invariant forall k :: 0 <= k < i ==> ppk[k] == p1k[k]
    {
      ppk[i] := p1k[i];
    }
    ppk[5] := Add(p1k[4], iv16);
    MixInPlace(box, tk, ppk);
    SweepInPlace(tk, ppk);
    rc4key := EmitKey(tk, ppk, iv16);
  }

  method EmitKey(tk: TempKey, ppk: array<Word>, iv16: Word) returns (rc4key: seq<byte>)
    requires ppk.Length == 6
    ensures rc4key == KeyBytes(tk, SixOf(ppk), iv16)
  {
    hide Xor16, Tk16, Hi8, Lo8, WeakKeyGuard;
    rc4key := [Hi8(iv16), WeakKeyGuard(Hi8(iv16)), Lo8(iv16), Lo8(Xor16(ppk[5], Tk16(tk, 0)) / 2)];
    for i := 0 to 6
      invariant |rc4key| == 4 + 2 * i
      invariant rc4key == KeyBytes(tk, SixOf(ppk), iv16)[..4 + 2 * i]
    {
      rc4key := rc4key + [Lo8(ppk[i]), Hi8(ppk[i])];
    }
  }
}
