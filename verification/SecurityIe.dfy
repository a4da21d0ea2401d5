/** The RSN, WPA and WMM elements of an association request. */
module SecurityIe {
  import opened Bytes

  /** Cipher bits: 0 none, 1 WEP-40, 2 WEP-104, 3 TKIP, 4 CCMP. */
  type Ciphers = set<nat>

  /** The two families of suite selectors. */
  datatype Family = RsnSuites | WpaSuites

  function Prefix(f: Family): nat {
    match f
    case RsnSuites => 0x000FAC
    case WpaSuites => 0x0050F2
  }

  /** What a selector stands for; nothing if it is unknown. */
  function Suite(f: Family, x: nat): Ciphers {
    if x / 256 != Prefix(f) then {}
    else
      match x % 256
      case 0 => {0}
      case 1 => {1}
      case 2 => {3}
      case 4 => {4}
      case 5 => {2}
      case _ => {}
  }

  function Be32(b: seq<byte>, at: nat): nat
    requires at + 4 <= |b|
  {
    0x100_0000 * (b[at] as int) + 0x1_0000 * (b[at + 1] as int) + 0x100 * (b[at + 2] as int) + b[at + 3]
  }

  // ----- the parsers -----

  /** An output that a parser may leave unassigned. */
  datatype Output = Unassigned | Assigned(ciphers: Ciphers)

  datatype Report = Report(code: int, group: Output, pairwise: Output)

  /** The ciphers of `n` selectors from `at` on. */
  function Union(f: Family, b: seq<byte>, at: nat, n: nat): Ciphers
    requires at + 4 * n <= |b|
  {
    if n == 0 then {} else Union(f, b, at, n - 1) + Suite(f, Be32(b, at + 4 * (n - 1)))
  }

  /** The part that both parsers share, from the version field on. */
  function ParseSuites(f: Family, b: seq<byte>): Report {
    if |b| < 2 then Report(-3, Unassigned, Unassigned)
    else if Le16(b, 0) != 1 then Report(-4, Unassigned, Unassigned)
    else if |b| == 2 then Report(0, Unassigned, Unassigned)
    else if |b| < 6 then Report(-5, Unassigned, Unassigned)
    else
      var group := Assigned(Suite(f, Be32(b, 2)));
      if |b| == 6 then Report(0, group, Unassigned)
      else if |b| < 8 then Report(-6, group, Unassigned)
      else
        var n := Le16(b, 6);
        if n == 0 || |b| - 8 < 4 * n then Report(-7, group, Unassigned)
        else Report(0, group, Assigned(Union(f, b, 8, n)))
  }

  /** The caller passes the element's length in eight bits, so the two longest elements fail. */
  function ParseRsn(data: seq<byte>): Report {
    if |data| == 254 then Report(-1, Unassigned, Unassigned)
    else if |data| > 254 then Report(-2, Unassigned, Unassigned)
    else ParseSuites(RsnSuites, data)
  }

  const WPA_TYPE := 0x0050F201
  const WMM_TYPE := 0x0050F202

  function ParseWpa(data: seq<byte>): Report {
    if |data| == 254 then Report(-1, Unassigned, Unassigned)
    else if |data| > 254 then Report(-2, Unassigned, Unassigned)
    else if |data| < 4 then Report(-3, Unassigned, Unassigned)
    else if Be32(data, 0) != WPA_TYPE then Report(-4, Unassigned, Unassigned)
    else ParseSuites(WpaSuites, data[4..])
  }

  /** Subtype and version are read behind an element that ends before them; `behind` is what they say. */
  function ParseWmm(data: seq<byte>, behind: bool): int
    requires |data| >= 4
  {
    if Be32(data, 0) != WMM_TYPE then -3
    else if (if |data| >= 6 then data[4] == 0 && data[5] == 1 else behind) then 0
    else -4
  }

  /** The loop over the selectors. */
  method ReadSuites(f: Family, b: seq<byte>, at: nat, n: nat) returns (cs: Ciphers)
    requires n > 0 && at + 4 * n <= |b|
    ensures forall c :: c in cs <==> exists i :: 0 <= i < n && c in SuiteAt(f, b, at, i)
    ensures cs == Union(f, b, at, n)
  {
    var left, pos := n, at;
    cs := {};
    while left > 0
      invariant 0 <= left <= n && pos == at + 4 * (n - left)
      invariant cs == Union(f, b, at, n - left)
    {
      cs := cs + Suite(f, Be32(b, pos));
      pos, left := pos + 4, left - 1;
    }
    UnionMeaning(f, b, at, n);
  }

  function SuiteAt(f: Family, b: seq<byte>, at: nat, i: nat): Ciphers {
    if at + 4 * i + 4 <= |b| then Suite(f, Be32(b, at + 4 * i)) else {}
  }

  lemma {:induction false} UnionMeaning(f: Family, b: seq<byte>, at: nat, n: nat)
    requires at + 4 * n <= |b|
    ensures forall c :: c in Union(f, b, at, n) <==> exists i :: 0 <= i < n && c in SuiteAt(f, b, at, i)
  {
    hide Suite, Be32;
    if n > 0 {
      UnionMeaning(f, b, at, n - 1);
      assert SuiteAt(f, b, at, n - 1) == Suite(f, Be32(b, at + 4 * (n - 1)));
    }
  }

  // ----- writing them -----

  type Cipher = c: nat | c < 5

  function All(cs: seq<Cipher>): Ciphers {
    set c | c in cs
  }

  /** The last byte of a cipher's selector. */
  function Selector(c: Cipher): byte {
    match c
    case 0 => 0
    case 1 => 1
    case 2 => 5
    case 3 => 2
    case _ => 4
  }

  function SelectorBytes(f: Family, c: Cipher): (r: seq<byte>)
    ensures |r| == 4
  {
    match f
    case RsnSuites => [0x00, 0x0F, 0xAC, Selector(c)]
    case WpaSuites => [0x00, 0x50, 0xF2, Selector(c)]
  }

  lemma SelectorReads(f: Family, c: Cipher, b: seq<byte>, at: nat)
    requires at + 4 <= |b| && b[at..at + 4] == SelectorBytes(f, c)
    ensures Suite(f, Be32(b, at)) == {c}
  {
    var s := b[at..at + 4];
    assert b[at] == s[0] && b[at + 1] == s[1] && b[at + 2] == s[2] && b[at + 3] == s[3];
  }

  function SelectorList(f: Family, cs: seq<Cipher>): (r: seq<byte>)
    ensures |r| == 4 * |cs|
  {
    if cs == [] then [] else SelectorList(f, cs[..|cs| - 1]) + SelectorBytes(f, cs[|cs| - 1])
  }

  /** Version 1, the group cipher and a list of pairwise ciphers. */
  function SuiteBytes(f: Family, group: Cipher, cs: seq<Cipher>): (r: seq<byte>)
    requires |cs| < 256
    ensures |r| == 8 + 4 * |cs|
  {
    [1, 0] + SelectorBytes(f, group) + [|cs|, 0] + SelectorList(f, cs)
  }

  lemma {:induction false} UnionOfList(f: Family, head: seq<byte>, cs: seq<Cipher>, rest: seq<byte>)
    ensures Union(f, head + SelectorList(f, cs) + rest, |head|, |cs|) == All(cs)
    decreases |cs|
  {
    hide Suite, Be32, SelectorBytes;
    if cs != [] {
      var n := |cs| - 1;
      var front, last := SelectorList(f, cs[..n]), SelectorBytes(f, cs[n]);
      var b := head + SelectorList(f, cs) + rest;
      assert b == head + front + (last + rest);
      UnionOfList(f, head, cs[..n], last + rest);
      assert b[|head| + 4 * n..|head| + 4 * n + 4] == last;
      SelectorReads(f, cs[n], b, |head| + 4 * n);
      assert cs == cs[..n] + [cs[n]];
    }
  }

  /** What was written is read back, whatever follows it. */
  lemma SuitesReadBack(f: Family, group: Cipher, cs: seq<Cipher>, rest: seq<byte>)
    requires 1 <= |cs| < 256
    ensures ParseSuites(f, SuiteBytes(f, group, cs) + rest) == Report(0, Assigned({group}), Assigned(All(cs)))
  {
    hide Suite, Be32, SelectorBytes, Union;
    var g := SelectorBytes(f, group);
    var head := [1, 0] + g + [|cs|, 0];
    var b := SuiteBytes(f, group, cs) + rest;
    assert b == head + SelectorList(f, cs) + rest;
    assert b[2..6] == g;
    SelectorReads(f, group, b, 2);
    assert b[0] == head[0] == 1 && b[1] == head[1] == 0 && b[6] == head[6] == |cs| && b[7] == head[7] == 0;
    assert Le16(b, 0) == 1 && Le16(b, 6) == |cs|;
    UnionOfList(f, head, cs, rest);
  }

  // ----- elements that are cut off or say something else -----

  /** The longest element whose length still fits in eight bits with its header. */
  const LONGEST := 253

  const WPA_BYTES: seq<byte> := [0x00, 0x50, 0xF2, 0x01]

  /** What is left of the report when only the first `k` bytes are there. */
  function CutReport(group: Cipher, k: nat): Report {
    if k < 2 then Report(-3, Unassigned, Unassigned)
    else if k == 2 then Report(0, Unassigned, Unassigned)
    else if k < 6 then Report(-5, Unassigned, Unassigned)
    else if k == 6 then Report(0, Assigned({group}), Unassigned)
    else if k == 7 then Report(-6, Assigned({group}), Unassigned)
    else Report(-7, Assigned({group}), Unassigned)
  }

  /** A written list cut off anywhere is an error, but behind the version and behind the group cipher,
      where the outputs that are not reached stay unassigned. */
  lemma CutSuites(f: Family, group: Cipher, cs: seq<Cipher>, k: nat)
    requires 1 <= |cs| < 256 && k < 8 + 4 * |cs|
    ensures ParseSuites(f, SuiteBytes(f, group, cs)[..k]) == CutReport(group, k)
  {
    hide Suite, Be32, SelectorBytes, Union, SelectorList;
    var g, w := SelectorBytes(f, group), SuiteBytes(f, group, cs);
    var b := w[..k];
    assert k >= 2 ==> b[0] == w[0] == 1 && b[1] == w[1] == 0;
    if k >= 6 {
      assert b[2..6] == w[2..6] == g;
      SelectorReads(f, group, b, 2);
    }
    assert k >= 8 ==> b[6] == w[6] == |cs| && b[7] == w[7] == 0;
  }

  /** Another version, and a list of no ciphers, are errors. */
  lemma OtherSuites(f: Family, b: seq<byte>)
    ensures |b| >= 2 && (b[0] != 1 || b[1] != 0) ==> ParseSuites(f, b).code == -4
    ensures |b| >= 8 && b[..2] == [1, 0] && b[6..8] == [0, 0] ==> ParseSuites(f, b).code == -7
  {
    hide Suite, Be32, Union;
    if |b| >= 8 && b[..2] == [1, 0] && b[6..8] == [0, 0] {
      assert b[0] == b[..2][0] && b[1] == b[..2][1] && b[6] == b[6..8][0] && b[7] == b[6..8][1];
    }
  }

  /** A vendor element of another kind is no WPA element and no error; one too short for its kind is. */
  lemma OtherVendor(data: seq<byte>)
    requires |data| <= LONGEST
    ensures |data| < 4 ==> ParseWpa(data).code == -3
    ensures |data| >= 4 && data[..4] != WPA_BYTES ==> ParseWpa(data).code == -4
  {
    if |data| >= 4 && data[..4] != WPA_BYTES {
      assert data[..4] == [data[0], data[1], data[2], data[3]];
      FourBytes(data);
    }
  }

  lemma FourBytes(data: seq<byte>)
    requires |data| >= 4
    ensures Be32(data, 0) == WPA_TYPE ==> data[0] == 0x00 && data[1] == 0x50 && data[2] == 0xF2 && data[3] == 0x01
    ensures Be32(data, 0) == WMM_TYPE ==> data[0] == 0x00 && data[1] == 0x50 && data[2] == 0xF2 && data[3] == 0x02
  {
  }

  /** A vendor element is a WMM element exactly if it starts with that type, subtype 0 and version 1;
      where it ends before these, what lies behind it decides. */
  lemma WmmExactly(data: seq<byte>, behind: bool)
    requires |data| >= 4
    ensures ParseWmm(data, behind) == 0 <==>
            && data[..4] == [0x00, 0x50, 0xF2, 0x02]
            && if |data| >= 6 then data[4..6] == [0, 1] else behind
  {
    FourBytes(data);
    assert data[..4] == [data[0], data[1], data[2], data[3]];
    if |data| >= 6 {
      assert data[4..6] == [data[4], data[5]];
    }
  }

  /** A written RSN element is read back exactly when it fits in 253 bytes. */
  lemma RsnReadBack(group: Cipher, cs: seq<Cipher>, rest: seq<byte>)
    requires 1 <= |cs| && 8 + 4 * |cs| + |rest| <= 255
    ensures var r := ParseRsn(SuiteBytes(RsnSuites, group, cs) + rest);
            && (r == Report(0, Assigned({group}), Assigned(All(cs))) <==> 8 + 4 * |cs| + |rest| <= LONGEST)
            && (r.code != 0 <==> 8 + 4 * |cs| + |rest| > LONGEST)
  {
    hide ParseSuites, SuiteBytes;
    SuitesReadBack(RsnSuites, group, cs, rest);
  }

  /** So is a written WPA element; a longer one reports an error that the caller refuses. */
  lemma WpaReadBack(group: Cipher, cs: seq<Cipher>, rest: seq<byte>)
    requires 1 <= |cs| && 12 + 4 * |cs| + |rest| <= 255
    ensures var r := ParseWpa(WPA_BYTES + (SuiteBytes(WpaSuites, group, cs) + rest));
            && (r == Report(0, Assigned({group}), Assigned(All(cs))) <==> 12 + 4 * |cs| + |rest| <= LONGEST)
            && (-3 <= r.code < 0 <==> 12 + 4 * |cs| + |rest| > LONGEST)
  {
    hide ParseSuites, SuiteBytes;
    SuitesReadBack(WpaSuites, group, cs, rest);
    var data := WPA_BYTES + (SuiteBytes(WpaSuites, group, cs) + rest);
    assert data[4..] == SuiteBytes(WpaSuites, group, cs) + rest;
    assert Be32(data, 0) == WPA_TYPE;
  }
}
