/** 32-bit words as their bits, least significant first, and the descriptor field macros. */
module BitWord {
  import opened Bytes

  type Word32 = w: seq<bool> | |w| == 32 witness seq(32, i => false)

  function And(a: Word32, b: Word32): Word32 {
    seq(32, i requires 0 <= i < 32 => a[i] && b[i])
  }

  function Or(a: Word32, b: Word32): Word32 {
    seq(32, i requires 0 <= i < 32 => a[i] || b[i])
  }

  function Not(a: Word32): Word32 {
    seq(32, i requires 0 <= i < 32 => !a[i])
  }

  function Shl(a: Word32, n: nat): Word32 {
    seq(32, i requires 0 <= i < 32 => i >= n && a[i - n])
  }

  function Shr(a: Word32, n: nat): Word32 {
    seq(32, i requires 0 <= i < 32 => i + n < 32 && a[i + n])
  }

  function Ones(): Word32 {
    seq(32, i => true)
  }

  /** All ones shifted down. */
  function LenMask(len: nat): Word32
    requires 1 <= len <= 32
  {
    Shr(Ones(), 32 - len)
  }

  /** The read macro. */
  function GetBits(w: Word32, ofs: nat, len: nat): Word32
    requires 1 <= len <= 32
  {
    And(Shr(w, ofs), LenMask(len))
  }

  /** The write macro: clear the field, then put the masked and shifted value in. */
  function SetBits(w: Word32, ofs: nat, len: nat, v: Word32): Word32
    requires 1 <= len <= 32
  {
    if ofs == 0 && len == 32 then v
    else Or(And(w, Not(Shl(LenMask(len), ofs))), Shl(And(v, LenMask(len)), ofs))
  }

  /** Writing a field replaces its bits by the value's low ones and no other bit. */
  lemma SetBitsMeaning(w: Word32, ofs: nat, len: nat, v: Word32)
    requires 1 <= len && ofs + len <= 32
    ensures forall i :: 0 <= i < 32 ==>
              SetBits(w, ofs, len, v)[i] == if ofs <= i < ofs + len then v[i - ofs] else w[i]
  {
  }

  lemma GetBitsMeaning(w: Word32, ofs: nat, len: nat)
    requires 1 <= len && ofs + len <= 32
    ensures forall i :: 0 <= i < 32 ==> GetBits(w, ofs, len)[i] == (i < len && w[ofs + i])
  {
  }

  /** Reading a field back gives the value cut to the field's width. */
  lemma ReadBack(w: Word32, ofs: nat, len: nat, v: Word32)
    requires 1 <= len && ofs + len <= 32
    ensures GetBits(SetBits(w, ofs, len, v), ofs, len) == And(v, LenMask(len))
  {
    hide SetBits;
    var n := SetBits(w, ofs, len, v);
    SetBitsMeaning(w, ofs, len, v);
    GetBitsMeaning(n, ofs, len);
    forall i | 0 <= i < 32 ensures GetBits(n, ofs, len)[i] == And(v, LenMask(len))[i] {
      if i < len {
        assert n[ofs + i] == v[i];
      }
    }
  }

  /** A field that shares no bit with the written one is unchanged. */
  lemma ReadOther(w: Word32, ofs: nat, len: nat, v: Word32, o: nat, l: nat)
    requires 1 <= len && ofs + len <= 32 && 1 <= l && o + l <= 32
    requires o + l <= ofs || ofs + len <= o
    ensures GetBits(SetBits(w, ofs, len, v), o, l) == GetBits(w, o, l)
  {
    hide SetBits, GetBits;
    var n := SetBits(w, ofs, len, v);
    SetBitsMeaning(w, ofs, len, v);
    GetBitsMeaning(n, o, l);
    GetBitsMeaning(w, o, l);
    forall i | 0 <= i < 32 ensures GetBits(n, o, l)[i] == GetBits(w, o, l)[i] {
      if i < l {
        assert n[o + i] == w[o + i];
      }
    }
  }

  // ----- numbers -----

  /** The low `n` bits of a number. */
  function Digits(v: nat, n: nat): (r: seq<bool>)
    ensures |r| == n
  {
    if n == 0 then [] else [v % 2 == 1] + Digits(v / 2, n - 1)
  }

  function Number(bits: seq<bool>): nat {
    if bits == [] then 0 else (if bits[0] then 1 else 0) + 2 * Number(bits[1..])
  }

  function Bits(v: nat): Word32 {
    Digits(v, 32)
  }

  lemma {:induction false} DigitsNumber(v: nat, n: nat)
    ensures Number(Digits(v, n)) == v % Pow2(n)
    decreases n
  {
    if n > 0 {
      DigitsNumber(v / 2, n - 1);
      assert Digits(v, n)[1..] == Digits(v / 2, n - 1);
      HalfMod(v, Pow2(n - 1));
    }
  }

  lemma HalfMod(v: nat, p: nat)
    requires p >= 1
    ensures v % (2 * p) == v % 2 + 2 * (v / 2 % p)
  {
    var q, r := v / 2 / p, v / 2 % p;
    assert q * (2 * p) == 2 * (q * p);
    ModUnique(v, 2 * p, q, 2 * r + v % 2);
  }

  lemma Distribute(a: int, b: int, m: int)
    ensures (a - b) * m == a * m - b * m
  {
  }

  lemma AtLeast(k: int, m: int)
    requires k >= 1 && m >= 1
    ensures k * m >= m
  {
  }

  lemma ModUnique(v: int, m: int, q: int, r: int)
    requires m >= 1 && v == q * m + r && 0 <= r < m
    ensures v % m == r
  {
    var a := v / m;
    Distribute(a, q, m);
    Distribute(q, a, m);
    if a > q {
      AtLeast(a - q, m);
    } else if a < q {
      AtLeast(q - a, m);
    }
  }

  lemma {:induction false} DigitsPrefix(v: nat, n: nat, k: nat)
    requires k <= n
    ensures Digits(v, n)[..k] == Digits(v, k)
    decreases k
  {
    if k > 0 {
      DigitsPrefix(v / 2, n - 1, k - 1);
      assert Digits(v, n)[..k] == [v % 2 == 1] + Digits(v / 2, n - 1)[..k - 1];
    }
  }

  lemma {:induction false} NumberPadded(bits: seq<bool>, k: nat)
    requires k <= |bits| && forall i :: k <= i < |bits| ==> !bits[i]
    ensures Number(bits) == Number(bits[..k])
    decreases |bits|
  {
    if bits != [] {
      if k == 0 {
        NumberPadded(bits[1..], 0);
        assert bits[1..][..0] == [] && bits[..0] == [];
      } else {
        NumberPadded(bits[1..], k - 1);
        assert bits[..k][1..] == bits[1..][..k - 1];
      }
    }
  }

  /** In numbers: the masked value is the value modulo the field's width. */
  lemma MaskedNumber(v: nat, len: nat)
    requires 1 <= len <= 32
    ensures Number(And(Bits(v), LenMask(len))) == v % Pow2(len)
  {
    var m := And(Bits(v), LenMask(len));
    assert forall i :: 0 <= i < 32 ==> m[i] == (i < len && Bits(v)[i]);
    NumberPadded(m, len);
    assert m[..len] == Bits(v)[..len];
    DigitsPrefix(v, 32, len);
    DigitsNumber(v, len);
  }

  /** A field of a word, as a number. */
  function Field(w: Word32, ofs: nat, len: nat): nat
    requires 1 <= len <= 32
  {
    Number(GetBits(w, ofs, len))
  }

  /** Write a number into a field. */
  function Put(w: Word32, ofs: nat, len: nat, v: nat): Word32
    requires 1 <= len <= 32
  {
    SetBits(w, ofs, len, Bits(v))
  }

  lemma FieldReadBack(w: Word32, ofs: nat, len: nat, v: nat)
    requires 1 <= len && ofs + len <= 32
    ensures Field(Put(w, ofs, len, v), ofs, len) == v % Pow2(len)
  {
    ReadBack(w, ofs, len, Bits(v));
    MaskedNumber(v, len);
  }

  lemma FieldOther(w: Word32, ofs: nat, len: nat, v: nat, o: nat, l: nat)
    requires 1 <= len && ofs + len <= 32 && 1 <= l && o + l <= 32
    requires o + l <= ofs || ofs + len <= o
    ensures Field(Put(w, ofs, len, v), o, l) == Field(w, o, l)
  {
    ReadOther(w, ofs, len, Bits(v), o, l);
  }

  /** Both at once, for every field of the word. */
  lemma PutEffect(w: Word32, ofs: nat, len: nat, v: nat)
    requires 1 <= len && ofs + len <= 32
    ensures Field(Put(w, ofs, len, v), ofs, len) == v % Pow2(len)
    ensures forall o: nat, l: nat | 1 <= l && o + l <= 32 && (o + l <= ofs || ofs + len <= o) ::
              Field(Put(w, ofs, len, v), o, l) == Field(w, o, l)
  {
    hide Field, Put;
    FieldReadBack(w, ofs, len, v);
    forall o: nat, l: nat | 1 <= l && o + l <= 32 && (o + l <= ofs || ofs + len <= o)
      ensures Field(Put(w, ofs, len, v), o, l) == Field(w, o, l)
    {
      FieldOther(w, ofs, len, v, o, l);
    }
  }
}
