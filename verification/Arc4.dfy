/** ARC4: key schedule, key stream and in-place encryption. */
module Arc4 {

  import opened Bytes

  /** The context: two indices and the 256-entry state, entries as integers below 256. */
  datatype Ctx = Ctx(x: int, y: int, state: seq<int>)

  function Identity(): (s: seq<int>)
    ensures |s| == 256
  {
    seq(256, i => i)
  }

  /** The state is a rearrangement of 0..255. */
  ghost predicate IsPermutation(s: seq<int>) {
    |s| == 256 && multiset(s) == multiset(Identity())
  }

  ghost predicate Valid(c: Ctx) {
    0 <= c.x < 256 && 0 <= c.y < 256 && IsPermutation(c.state)
  }

  lemma EntriesInRange(s: seq<int>)
    requires IsPermutation(s)
    ensures forall i :: 0 <= i < 256 ==> 0 <= s[i] < 256
  {
    forall i | 0 <= i < 256 ensures 0 <= s[i] < 256 {
      assert s[i] in multiset(s);
      assert s[i] in Identity();
    }
  }

  function Swap(s: seq<int>, i: int, j: int): (r: seq<int>)
    requires 0 <= i < |s| && 0 <= j < |s|
    ensures |r| == |s|
  {
    s[j := s[i]][i := s[j]]
  }

  lemma SwapIsPermutation(s: seq<int>, i: int, j: int)
    requires IsPermutation(s) && 0 <= i < 256 && 0 <= j < 256
    ensures IsPermutation(Swap(s, i, j))
  {
    assert multiset(Swap(s, i, j)) == multiset(s);
  }

  // ----- key schedule -----

  datatype Schedule = Schedule(state: seq<int>, j: int, next: nat)

  /** Round `n`: mix in the next key byte, swap, and go round the key cyclically. */
  function ScheduleStep(s: Schedule, n: int, key: seq<byte>): Schedule
    requires |s.state| == 256 && 0 <= n < 256 && s.next < |key|
  {
    var j := (s.j + key[s.next] + s.state[n]) % 256;
    Schedule(Swap(s.state, n, j), j, if s.next + 1 >= |key| then 0 else s.next + 1)
  }

  function Scheduled(key: seq<byte>, n: nat): (r: Schedule)
    requires key != [] && n <= 256
    ensures |r.state| == 256 && r.next < |key|
  {
    if n == 0 then Schedule(Identity(), 0, 0)
    else ScheduleStep(Scheduled(key, n - 1), n - 1, key)
  }

  lemma ScheduledNext(key: seq<byte>, n: nat)
    requires key != [] && n < 256
    ensures Scheduled(key, n + 1) == ScheduleStep(Scheduled(key, n), n, key)
  {
  }

  function Start(key: seq<byte>): (c: Ctx)
    requires key != []
    ensures |c.state| == 256 && c.x == 0
  {
    Ctx(0, 0, Scheduled(key, 256).state)
  }

  /** For every non-empty key, every round leaves the state a permutation of 0..255. */
  lemma {:induction false} ScheduledIsPermutation(key: seq<byte>, n: nat)
    requires key != [] && n <= 256
    ensures IsPermutation(Scheduled(key, n).state)
  {
    if n > 0 {
      ScheduledIsPermutation(key, n - 1);
      var p := Scheduled(key, n - 1);
      SwapIsPermutation(p.state, n - 1, (p.j + key[p.next] + p.state[n - 1]) % 256);
    }
  }

  // ----- key stream -----

  datatype Output = Output(c: Ctx, k: int)

  function Next(c: Ctx): (o: Output)
    requires 0 <= c.x < 256 && |c.state| == 256
    ensures 0 <= o.c.x < 256 && |o.c.state| == 256
  {
    var x := (c.x + 1) % 256;
    var sx := c.state[x];
    var y := (sx + c.y) % 256;
    var sy := c.state[y];
    var s := c.state[y := sx][x := sy];
    Output(Ctx(x, y, s), s[(sx + sy) % 256])
  }

  lemma NextValid(c: Ctx)
    requires Valid(c)
    ensures Valid(Next(c).c) && 0 <= Next(c).k < 256
  {
    var x := (c.x + 1) % 256;
    var y := (c.state[x] + c.y) % 256;
    SwapIsPermutation(c.state, x, y);
    EntriesInRange(Next(c).c.state);
  }

  function Mask(b: byte, k: int): byte {
    Xor8(b, k % 256)
  }

  datatype Crypted = Crypted(c: Ctx, out: seq<byte>)

  function Crypt(c: Ctx, src: seq<byte>): (r: Crypted)
    requires 0 <= c.x < 256 && |c.state| == 256
    ensures 0 <= r.c.x < 256 && |r.c.state| == 256 && |r.out| == |src|
    decreases |src|
  {
    if src == [] then Crypted(c, [])
    else
      var o := Next(c);
      var r := Crypt(o.c, src[1..]);
      Crypted(r.c, [Mask(src[0], o.k)] + r.out)
  }

  /** Two consecutive calls are one call on the concatenation. */
  lemma {:induction false} CryptSplits(c: Ctx, a: seq<byte>, b: seq<byte>)
    requires 0 <= c.x < 256 && |c.state| == 256
    ensures var r := Crypt(c, a);
            Crypt(c, a + b) == Crypted(Crypt(r.c, b).c, r.out + Crypt(r.c, b).out)
    decreases |a|
  {
    hide Mask, Next;
    if a == [] {
      assert a + b == b;
    } else {
      assert (a + b)[1..] == a[1..] + b;
      CryptSplits(Next(c).c, a[1..], b);
    }
  }

  lemma MaskTwice(b: byte, k: int)
    ensures Mask(Mask(b, k), k) == b
  {
    XorTwice(b, k % 256);
  }

  /** Encrypting twice from one context restores the input and ends in the same context. */
  lemma {:induction false} CryptTwice(c: Ctx, src: seq<byte>)
    requires 0 <= c.x < 256 && |c.state| == 256
    ensures Crypt(c, Crypt(c, src).out) == Crypted(Crypt(c, src).c, src)
    decreases |src|
  {
    hide Mask;
    if src != [] {
      var o := Next(c);
      var rest := Crypt(o.c, src[1..]).out;
      CryptTwice(o.c, src[1..]);
      MaskTwice(src[0], o.k);
      assert ([Mask(src[0], o.k)] + rest)[1..] == rest;
    }
  }

  lemma CryptOne(c: Ctx, b: byte)
    requires 0 <= c.x < 256 && |c.state| == 256
    ensures Crypt(c, [b]) == Crypted(Next(c).c, [Mask(b, Next(c).k)])
  {
    hide Mask, Next;
    assert Crypt(Next(c).c, []) == Crypted(Next(c).c, []);
  }

  /** One more byte of input. */
  lemma CryptSnoc(c: Ctx, src: seq<byte>, i: nat)
    requires 0 <= c.x < 256 && |c.state| == 256 && i < |src|
    ensures var r := Crypt(c, src[..i]);
            Crypt(c, src[..i + 1]) == Crypted(Next(r.c).c, r.out + [Mask(src[i], Next(r.c).k)])
  {
    hide *;
    assert src[..i + 1] == src[..i] + [src[i]];
    CryptSplits(c, src[..i], [src[i]]);
    CryptOne(Crypt(c, src[..i]).c, src[i]);
  }

  // ----- the code -----

  /** The two loops of `arc4_init`. */
  method MixKey(state: array<int>, key: seq<byte>)
    requires key != [] && state.Length == 256
    modifies state
    ensures state[..] == Scheduled(key, 256).state
  {
    for n := 0 to 256
      invariant forall i :: 0 <= i < n ==> state[i] == i
    {
      state[n] := n;
    }
    assert Schedule(state[..], 0, 0) == Scheduled(key, 0) by { assert state[..] == Identity(); }
    hide Scheduled;
    var keyIndex: nat, j := 0, 0;
    for n := 0 to 256
      invariant keyIndex < |key|
      invariant Schedule(state[..], j, keyIndex) == Scheduled(key, n)
    {
      ghost var was := state[..];
      var t := state[n];
      j := (j + key[keyIndex] + t) % 256;
      var u := state[j];
      state[j] := t;
      state[n] := u;
      assert state[..] == was[j := t][n := u];
      ScheduledNext(key, n);
      keyIndex := if keyIndex + 1 >= |key| then 0 else keyIndex + 1;
    }
  }

  class Context {
    var x: int
    var y: int
    const state: array<int>

    ghost function View(): Ctx
      reads this, state
    {
      Ctx(x, y, state[..])
    }

    ghost predicate Ready()
      reads this, state
    {
      state.Length == 256 && Valid(View())
    }

    /** `arc4_init`. */
    constructor (key: seq<byte>)
      requires key != []
      ensures fresh(state) && Ready() && View() == Start(key)
    {
      x, y := 0, 0;
      state := new int[256];
      new;
      MixKey(state, key);
      ScheduledIsPermutation(key, 256);
    }

    /** `arc4_byte`. */
    method NextByte() returns (k: int)
      requires Ready()
      modifies this, state
      ensures Ready() && 0 <= k < 256
      ensures Output(View(), k) == Next(old(View()))
    {
      hide IsPermutation;
      ghost var c := View();
      NextValid(c);
      var x' := (x + 1) % 256;
      var sx := state[x'];
      var y' := (sx + y) % 256;
      var sy := state[y'];
      x, y := x', y';
      state[y'] := sx;
      state[x'] := sy;
      assert state[..] == c.state[y' := sx][x' := sy];
      k := state[(sx + sy) % 256];
    }

    /** `arc4_encrypt`: fill `dest` from `ofs` with the encryption of `src`. */
    method Encrypt(dest: array<byte>, ofs: nat, src: seq<byte>)
      requires Ready() && ofs + |src| <= dest.Length && dest as object != state
      modifies this, state, dest
      ensures Ready()
      ensures View() == Crypt(old(View()), src).c
      ensures dest[..] == old(dest[..ofs]) + Crypt(old(View()), src).out + old(dest[ofs + |src|..])
    {
      hide IsPermutation, Next;
      ghost var c, was := View(), dest[..];
      assert src[..0] == [];
      for i := 0 to |src|
        invariant Ready() && View() == Crypt(c, src[..i]).c
        invariant dest[..] == was[..ofs] + Crypt(c, src[..i]).out + was[ofs + i..]
      {
        CryptSnoc(c, src, i);
        ghost var out, before := Crypt(c, src[..i]).out, dest[..];
        var k := NextByte();
        dest[ofs + i] := Mask(src[i], k);
        assert dest[..] == before[ofs + i := Mask(src[i], k)];
        assert before[ofs + i := Mask(src[i], k)] == was[..ofs] + (out + [Mask(src[i], k)]) + was[ofs + i + 1..];
      }
      assert src[..|src|] == src;
    }
  }
}
