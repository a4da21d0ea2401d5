/** What the permutation, split and self-inverse laws of ARC4 leave open: which key byte enters which
    round, and which entry is handed out. */
module Arc4Laws {
  import opened Bytes
  import opened XorLaws
  import opened Arc4

  // ----- the key is used cyclically -----

  lemma {:induction false} DoubledRounds(key: seq<byte>, n: nat)
    requires key != [] && n <= 256
    ensures var a, b := Scheduled(key, n), Scheduled(key + key, n);
            a.state == b.state && a.j == b.j && (b.next == a.next || b.next == a.next + |key|)
  {
    hide Swap;
    if n > 0 {
      DoubledRounds(key, n - 1);
      var a, b := Scheduled(key, n - 1), Scheduled(key + key, n - 1);
      assert (key + key)[b.next] == key[a.next];
    }
  }

  /** A key and the same key written twice give the same key stream. */
  lemma DoubledKey(key: seq<byte>)
    requires key != []
    ensures Start(key + key) == Start(key)
  {
    DoubledRounds(key, 256);
  }

  // ----- a key whose schedule can be followed -----

  /** The key that exchanges every entry with the last one, and in the last round with the first. */
  function RotorKey(): (k: seq<byte>)
    ensures |k| == 256
  {
    seq(256, i requires 0 <= i < 256 => if i == 0 then 255 else if i == 255 then 3 else 256 - i)
  }

  /** The state after `n` rounds. */
  function Rotor(n: nat): (s: seq<int>)
    requires n <= 256
    ensures |s| == 256
  {
    if n == 0 then Identity()
    else if n == 256 then
      seq(256, i requires 0 <= i < 256 => if i == 0 then 254 else if i == 255 then 255 else i - 1)
    else
      seq(256, i requires 0 <= i < 256 =>
        if i == 0 then 255 else if i == 255 then n - 1 else if i < n then i - 1 else i)
  }

  lemma RotorStep(n: nat)
    requires n < 256
    ensures Swap(Rotor(n), n, if n == 255 then 0 else 255) == Rotor(n + 1)
  {
  }

  lemma RotorIndex(n: nat)
    requires n < 256
    ensures ((if n == 0 then 0 else 255) + RotorKey()[n] + Rotor(n)[n]) % 256 == if n == 255 then 0 else 255
  {
  }

  lemma {:induction false} RotorRounds(n: nat)
    requires n <= 256
    ensures var s := Scheduled(RotorKey(), n);
            s.state == Rotor(n) && (n < 256 ==> s.next == n && s.j == if n == 0 then 0 else 255)
  {
    hide Swap, Rotor, RotorKey, Identity;
    if n == 0 {
      RotorFirst();
    } else {
      RotorRounds(n - 1);
      RotorStep(n - 1);
      RotorIndex(n - 1);
    }
  }

  lemma RotorFirst()
    ensures Rotor(0) == Identity()
  {
  }

  // ----- what is handed out -----

  /** The byte handed out is the entry of the new state at the sum of the two entries just exchanged. */
  lemma OutputPlace(c: Ctx)
    requires Valid(c)
    ensures var o := Next(c);
            && 0 <= o.c.y < 256 && o.c.x == (c.x + 1) % 256
            && 0 <= o.c.state[o.c.x] + o.c.state[o.c.y] && o.c.y == (c.y + o.c.state[o.c.y]) % 256
            && o.k == o.c.state[(o.c.state[o.c.x] + o.c.state[o.c.y]) % 256]
  {
    EntriesInRange(c.state);
  }

  /** Turn `c` into the next context and hand out `k`, reading the state only where it is used. */
  lemma NextIs(c: Ctx, x: int, y: int, sx: int, sy: int)
    requires 0 <= c.x < 255 && |c.state| == 256 && x == c.x + 1 && c.state[x] == sx
    requires y == (sx + c.y) % 256 && c.state[y] == sy
    ensures Next(c) == var s := c.state[y := sx][x := sy]; Output(Ctx(x, y, s), s[(sx + sy) % 256])
  {
  }

  lemma RotorEnds()
    ensures var s := Rotor(256);
            && s[0] == 254 && s[1] == 0 && s[2] == 1 && s[3] == 2 && s[4] == 3 && s[254] == 253 && s[255] == 255
  {
  }

  /** The contexts before each of the first three bytes. */
  function First(s: seq<int>): Ctx {
    Ctx(0, 0, s)
  }

  function Second(s: seq<int>): Ctx
    requires |s| == 256
  {
    Ctx(1, 0, s[0 := 0][1 := 254])
  }

  function Third(s: seq<int>): Ctx
    requires |s| == 256
  {
    Ctx(2, 1, Second(s).state[1 := 1][2 := 254])
  }

  lemma FirstByte()
    ensures Next(First(Rotor(256))) == Output(Second(Rotor(256)), 253)
  {
    RotorEnds();
    hide Rotor, Next;
    NextIs(First(Rotor(256)), 1, 0, 0, 254);
  }

  lemma SecondByte()
    ensures Next(Second(Rotor(256))) == Output(Third(Rotor(256)), 255)
  {
    RotorEnds();
    hide Rotor, Next;
    NextIs(Second(Rotor(256)), 2, 1, 1, 254);
  }

  lemma ThirdByte()
    ensures Next(Third(Rotor(256))).k == 3
  {
    RotorEnds();
    hide Rotor, Next;
    NextIs(Third(Rotor(256)), 3, 3, 2, 2);
  }

  /** The first three bytes of the key stream of that key. */
  lemma RotorStream()
    ensures var a := Next(Start(RotorKey()));
            var b := Next(a.c);
            var c := Next(b.c);
            [a.k, b.k, c.k] == [253, 255, 3]
  {
    hide Next, Rotor, RotorKey, Second, Third;
    RotorRounds(256);
    FirstByte();
    SecondByte();
    ThirdByte();
  }

  lemma CryptOne(c: Ctx, src: seq<byte>, o: Output)
    requires 0 <= c.x < 256 && |c.state| == 256 && src != [] && o == Next(c)
    ensures Crypt(c, src).out == [Mask(src[0], o.k)] + Crypt(o.c, src[1..]).out
  {
    hide Next, Mask;
  }

  /** A text of three zeros under that key. */
  lemma RotorCrypt()
    ensures Crypt(Start(RotorKey()), [0, 0, 0]).out == [253, 255, 3]
  {
    hide Next, RotorKey, Rotor, Crypt, Start, Mask;
    RotorStream();
    var c := Start(RotorKey());
    var a := Next(c);
    var b := Next(a.c);
    var d := Next(b.c);
    CryptOne(c, [0, 0, 0], a);
    CryptOne(a.c, [0, 0], b);
    CryptOne(b.c, [0], d);
    assert [0, 0, 0][1..] == [0, 0] && [0, 0][1..] == [0] && [0][1..] == [];
    CryptNone(d.c);
    Masked(253);
    Masked(255);
    Masked(3);
  }

  lemma CryptNone(c: Ctx)
    requires 0 <= c.x < 256 && |c.state| == 256
    ensures Crypt(c, []).out == []
  {
  }

  lemma Masked(k: byte)
    ensures Mask(0, k) == k
  {
    hide BitXor;
    XorSymmetric(0, k);
    XorWithZero(k);
  }
}
