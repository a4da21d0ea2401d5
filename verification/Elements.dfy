/** Information elements: the writer, the walkers and the beacon channel reset. */
module Elements {
  import opened Bytes

  /** An element: identifier and at most 255 bytes of data. */
  datatype Raw = Raw(id: byte, data: seq<byte>)
  type Ie = e: Raw | |e.data| <= 255 witness Raw(0, [])

  function EncodeOne(e: Ie): (r: seq<byte>)
    ensures |r| == 2 + |e.data|
  {
    [e.id, |e.data|] + e.data
  }

  function Encode(es: seq<Ie>): seq<byte> {
    if es == [] then [] else EncodeOne(es[0]) + Encode(es[1..])
  }

  datatype Parsed = Malformed | Elements(es: seq<Ie>)

  /** Split a byte string into elements; malformed when an element runs past the end. */
  function Parse(s: seq<byte>): Parsed
    decreases |s|
  {
    if s == [] then Elements([])
    else if |s| < 2 || |s| - 2 < s[1] then Malformed
    else
      match Parse(s[2 + s[1] as int..])
      case Malformed => Malformed
      case Elements(es) => Elements([Raw(s[0], s[2..2 + s[1] as int])] + es)
  }

  // ----- the round trip, both ways -----

  lemma ParseOne(e: Ie, rest: seq<byte>)
    requires Parse(rest).Elements?
    ensures Parse(EncodeOne(e) + rest) == Elements([e] + Parse(rest).es)
  {
    var s, n := EncodeOne(e) + rest, |e.data|;
    assert s[1] == n && s[2..2 + n] == e.data && s[2 + n..] == rest;
  }

  lemma {:induction false} ParseEncoded(es: seq<Ie>)
    ensures Parse(Encode(es)) == Elements(es)
  {
    if es != [] {
      ParseEncoded(es[1..]);
      ParseOne(es[0], Encode(es[1..]));
      assert es == [es[0]] + es[1..];
    }
  }

  lemma EncodeCons(e: Ie, es: seq<Ie>)
    ensures Encode([e] + es) == EncodeOne(e) + Encode(es)
  {
    assert ([e] + es)[1..] == es;
  }

  lemma ParseCons(s: seq<byte>)
    requires s != [] && Parse(s).Elements?
    ensures |s| >= 2 && |s| - 2 >= s[1]
    ensures var n: int := s[1];
            Parse(s[2 + n..]).Elements? && Parse(s).es == [Raw(s[0], s[2..2 + n])] + Parse(s[2 + n..]).es
  {
  }

  lemma OneThenRest(s: seq<byte>, n: int)
    requires |s| >= 2 && n == s[1] && 2 + n <= |s|
    ensures s == EncodeOne(Raw(s[0], s[2..2 + n])) + s[2 + n..]
  {
  }

  lemma {:induction false} EncodeParsed(s: seq<byte>)
    requires Parse(s).Elements?
    ensures Encode(Parse(s).es) == s
    decreases |s|
  {
    if s == [] {
      return;
    }
    hide Encode, Parse, EncodeOne;
    ParseCons(s);
    var n: int := s[1];
    var rest, data := s[2 + n..], s[2..2 + n];
    EncodeParsed(rest);
    EncodeCons(Raw(s[0], data), Parse(rest).es);
    OneThenRest(s, n);
  }

  // ----- a list that is cut off -----

  /** The whole elements at the front of a byte string, and what is left behind them. */
  datatype Cut = Cut(es: seq<Ie>, rest: seq<byte>)

  /** No whole element starts here. */
  predicate Unfinished(s: seq<byte>) {
    |s| < 2 || |s| - 2 < s[1]
  }

  function Whole(s: seq<byte>): (c: Cut)
    ensures |c.rest| <= |s|
    decreases |s|
  {
    if Unfinished(s) then Cut([], s)
    else
      var n: int := s[1];
      var c := Whole(s[2 + n..]);
      Cut([Raw(s[0], s[2..2 + n])] + c.es, c.rest)
  }

  /** A string splits into whole elements and a rest where none starts, in this one way. */
  lemma {:induction false} WholeUnique(es: seq<Ie>, rest: seq<byte>)
    requires Unfinished(rest)
    ensures Whole(Encode(es) + rest) == Cut(es, rest)
  {
    if |es| == 0 {
      assert Encode(es) + rest == rest;
    } else {
      WholeUnique(es[1..], rest);
      hide Encode, EncodeOne, Whole;
      EncodeCons(es[0], es[1..]);
      assert es == [es[0]] + es[1..];
      WholeOne(es[0], Encode(es[1..]) + rest);
      Regroup(EncodeOne(es[0]), Encode(es[1..]), rest);
    }
  }

  lemma Regroup(a: seq<byte>, b: seq<byte>, c: seq<byte>)
    ensures a + b + c == a + (b + c)
  {
  }

  lemma WholeOne(e: Ie, more: seq<byte>)
    ensures Whole(EncodeOne(e) + more) == Cut([e] + Whole(more).es, Whole(more).rest)
  {
    var s, n := EncodeOne(e) + more, |e.data|;
    assert s[1] == n && s[2..2 + n] == e.data && s[2 + n..] == more;
  }

  lemma {:induction false} WholeSplits(s: seq<byte>)
    ensures s == Encode(Whole(s).es) + Whole(s).rest && Unfinished(Whole(s).rest)
    decreases |s|
  {
    if Unfinished(s) {
      assert [] + s == s;
    } else {
      hide Encode, EncodeOne, Whole;
      var n: int := s[1];
      var more, e := s[2 + n..], Raw(s[0], s[2..2 + n]);
      WholeSplits(more);
      OneThenRest(s, n);
      WholeOne(e, more);
      EncodeCons(e, Whole(more).es);
      Regroup(EncodeOne(e), Encode(Whole(more).es), Whole(more).rest);
    }
  }

  /** It parses exactly when nothing is left. */
  lemma {:induction false} ParseIsWhole(s: seq<byte>)
    ensures Parse(s).Elements? <==> |Whole(s).rest| == 0
    ensures Parse(s).Elements? ==> Parse(s).es == Whole(s).es
    decreases |s|
  {
    if !Unfinished(s) {
      ParseIsWhole(s[2 + s[1] as int..]);
    }
  }

  // ----- offsets -----

  lemma {:induction false} EncodeAppend(a: seq<Ie>, b: seq<Ie>)
    ensures Encode(a + b) == Encode(a) + Encode(b)
  {
    if a == [] {
      assert a + b == b;
    } else {
      EncodeAppend(a[1..], b);
      assert (a + b)[1..] == a[1..] + b;
    }
  }

  /** Where element `k` starts; `k` may be one past the last. */
  function Offset(es: seq<Ie>, k: nat): nat
    requires k <= |es|
  {
    |Encode(es[..k])|
  }

  /** The encoding around element `k`. */
  lemma Around(es: seq<Ie>, k: nat)
    requires k < |es|
    ensures Encode(es) == Encode(es[..k]) + EncodeOne(es[k]) + Encode(es[k + 1..])
    ensures Offset(es, k + 1) == Offset(es, k) + 2 + |es[k].data|
  {
    EncodeAppend(es[..k], es[k..]);
    assert es == es[..k] + es[k..];
    assert es[k..][1..] == es[k + 1..];
    EncodeAppend(es[..k], [es[k]]);
    assert es[..k + 1] == es[..k] + [es[k]];
    assert [es[k]][1..] == [];
  }

  lemma OffsetEnd(es: seq<Ie>)
    ensures Offset(es, |es|) == |Encode(es)|
  {
    assert es[..|es|] == es;
  }

  /** Every element lies inside the encoding. */
  lemma OffsetInside(es: seq<Ie>, k: nat)
    requires k < |es|
    ensures Offset(es, k) + 2 + |es[k].data| <= |Encode(es)|
    ensures Encode(es)[Offset(es, k)] == es[k].id && Encode(es)[Offset(es, k) + 1] == |es[k].data|
    ensures Encode(es)[Offset(es, k) + 2..Offset(es, k) + 2 + |es[k].data|] == es[k].data
  {
    Around(es, k);
    var o := Offset(es, k);
    assert Encode(es)[o + 2..o + 2 + |es[k].data|] == es[k].data;
  }

  // ----- the code: writing and walking -----

  /** Write one element at `at` and return the place and length after it. */
  method SetIe(buf: array<byte>, at: nat, id: byte, data: seq<byte>, frlen: nat) returns (next: nat, len: nat)
    requires |data| <= 255 && at + 2 + |data| <= buf.Length
    modifies buf
    ensures buf[..] == old(buf[..at]) + EncodeOne(Raw(id, data)) + old(buf[at + 2 + |data|..])
    ensures next == at + 2 + |data| && len == frlen + 2 + |data|
  {
    buf[at] := id;
    buf[at + 1] := |data|;
    forall i | 0 <= i < |data| {
      buf[at + 2 + i] := data[i];
    }
    assert buf[at + 2..at + 2 + |data|] == data;
    return at + 2 + |data|, frlen + 2 + |data|;
  }

  /** Successive writes lay the elements down one after the other. */
  method WriteAll(buf: array<byte>, es: seq<Ie>) returns (n: nat)
    requires |Encode(es)| <= buf.Length
    modifies buf
    ensures n == |Encode(es)| && buf[..n] == Encode(es) && buf[n..] == old(buf[n..])
  {
    n := 0;
    var len := 0;
    for k := 0 to |es|
      invariant n == len == Offset(es, k) <= buf.Length
      invariant buf[..n] == Encode(es[..k]) && buf[n..] == old(buf[n..])
    {
      OffsetInside(es, k);
      Around(es, k);
      ghost var was := buf[..];
      n, len := SetIe(buf, n, es[k].id, es[k].data, len);
      EncodeAppend(es[..k], [es[k]]);
      assert es[..k + 1] == es[..k] + [es[k]] && [es[k]][1..] == [];
      assert buf[..n] == was[..Offset(es, k)] + EncodeOne(es[k]);
    }
    OffsetEnd(es);
    assert es[..|es|] == es;
  }

  /** The offset walk visits exactly the elements written, in order, and reads only inside them. */
  method Walk(buf: array<byte>, n: nat, ghost es: seq<Ie>) returns (seen: seq<Ie>)
    requires n <= buf.Length && buf[..n] == Encode(es)
    ensures seen == es
  {
    seen := [];
    var ofs := 0;
    ghost var k := 0;
    while ofs < n
      invariant k <= |es| && ofs == Offset(es, k) && seen == es[..k]
      invariant ofs <= n
      decreases n - ofs
    {
      NotAtEnd(es, k);
      OffsetInside(es, k);
      Around(es, k);
      assert buf[ofs] == buf[..n][ofs] && buf[ofs + 1] == buf[..n][ofs + 1];
      var data := buf[ofs + 2..ofs + 2 + buf[ofs + 1]];
      assert data == buf[..n][ofs + 2..ofs + 2 + |es[k].data|];
      seen := seen + [Raw(buf[ofs], data)];
      ofs, k := ofs + 2 + buf[ofs + 1], k + 1;
    }
    AtEnd(es, k);
  }

  lemma NotAtEnd(es: seq<Ie>, k: nat)
    requires k <= |es| && Offset(es, k) < |Encode(es)|
    ensures k < |es|
  {
    OffsetEnd(es);
  }

  lemma AtEnd(es: seq<Ie>, k: nat)
    requires k <= |es| && Offset(es, k) >= |Encode(es)|
    ensures k == |es| && es[..k] == es
  {
    if k < |es| {
      OffsetInside(es, k);
    }
  }

  /** The first element with an identifier, or the number of elements. */
  function First(es: seq<Ie>, id: byte): (k: nat)
    ensures k <= |es|
    ensures k < |es| ==> es[k].id == id
    ensures forall j :: 0 <= j < k ==> es[j].id != id
  {
    if es == [] || es[0].id == id then 0 else First(es[1..], id) + 1
  }

  /** The search returns the first element with the identifier. It looks at a first header before it
      tests the length, so it is right about its list exactly when the list has an element or the byte
      behind it is not the identifier. */
  method Search(buf: array<byte>, varLen: nat, id: byte, ghost es: seq<Ie>) returns (ok: bool, at: nat)
    requires varLen <= buf.Length && buf[..varLen] == Encode(es) && (es == [] ==> 2 <= buf.Length)
    ensures es != [] ==> (ok <==> exists j :: 0 <= j < |es| && es[j].id == id)
    ensures es != [] && ok ==> at == Offset(es, First(es, id))
    ensures es == [] ==> (ok <==> buf[0] == id) && (ok ==> at == 0)
    ensures (ok <==> exists j :: 0 <= j < |es| && es[j].id == id) <==> es != [] || buf[0] != id
  {
    at := 0;
    ghost var k := 0;
    while true
      invariant es != [] ==> k < |es| && at == Offset(es, k) && forall j :: 0 <= j < k ==> es[j].id != id
      invariant es == [] ==> k == 0 && at == 0
      decreases |es| - k
    {
      if es != [] {
        OffsetInside(es, k);
        Around(es, k);
        assert buf[at] == buf[..varLen][at] && buf[at + 1] == buf[..varLen][at + 1];
      }
      if buf[at] == id {
        if es != [] {
          assert es[k].id == id && First(es, id) == k;
        }
        return true, at;
      }
      at, k := at + 2 + buf[at + 1], k + 1;
      if at >= varLen {
        if es != [] {
          AtEnd(es, k);
        }
        return false, at;
      }
      NotAtEnd(es, k);
    }
  }

  /** On an empty list with the identifier behind it the search finds an element that is not there. */
  method EmptySearchFinds(id: byte) returns (ok: bool, at: nat)
    ensures ok && at == 0
  {
    var buf := new byte[2](_ => 0);
    buf[0] := id;
    ok, at := Search(buf, 0, id, []);
  }

  // ----- resetting the beacon channel -----

  const DS_PARAMS: byte := 3

  function Replaced(es: seq<Ie>, k: nat, e: Ie): seq<Ie>
    requires k < |es|
  {
    es[k := e]
  }

  /** The list with the channel byte of the first DS element replaced, if it has one. */
  function WithChannel(es: seq<Ie>, channel: byte): seq<Ie> {
    var k := First(es, DS_PARAMS);
    if k < |es| && |es[k].data| > 0 then Replaced(es, k, Raw(es[k].id, es[k].data[0 := channel])) else es
  }

  /** The code writes the byte behind the first DS element's header, whatever the element's length. */
  function Poked(s: seq<byte>, es: seq<Ie>, channel: byte): seq<byte> {
    var k := First(es, DS_PARAMS);
    if k < |es| then PokedAt(s, Offset(es, k) + 2, channel) else s
  }

  function PokedAt(s: seq<byte>, at: nat, x: byte): seq<byte> {
    if at < |s| then s[at := x] else s
  }

  method ResetChannel(buf: array<byte>, n: nat, channel: byte, ghost es: seq<Ie>)
    requires n <= buf.Length && buf[..n] == Encode(es)
    requires var k := First(es, DS_PARAMS); k < |es| ==> Offset(es, k) + 2 < buf.Length
    modifies buf
    ensures buf[..] == Poked(old(buf[..]), es, channel)
    ensures buf[..n] == Poked(old(buf[..n]), es, channel)
  {
    var ofs := 0;
    ghost var k := 0;
    while ofs < n
      invariant k <= |es| && ofs == Offset(es, k) <= n && buf[..] == old(buf[..])
      invariant forall j :: 0 <= j < k ==> es[j].id != DS_PARAMS
      decreases n - ofs
    {
      NotAtEnd(es, k);
      OffsetInside(es, k);
      Around(es, k);
      assert buf[ofs] == buf[..n][ofs] && buf[ofs + 1] == buf[..n][ofs + 1];
      if buf[ofs] == DS_PARAMS {
        assert First(es, DS_PARAMS) == k;
        buf[ofs + 2] := channel;
        return;
      }
      ofs, k := ofs + 2 + buf[ofs + 1], k + 1;
    }
    AtEnd(es, k);
  }

  lemma PokeMiddle(a: seq<byte>, b: seq<byte>, c: seq<byte>, i: nat, x: byte)
    requires i < |b|
    ensures (a + b + c)[|a| + i := x] == a + b[i := x] + c
  {
  }

  /** Replacing byte `i` of element `k` of the encoding by `x`, when that leaves an element `e`. */
  lemma Update(es: seq<Ie>, k: nat, i: nat, x: byte, e: Ie)
    requires k < |es| && i < 2 + |es[k].data| && EncodeOne(e) == EncodeOne(es[k])[i := x]
    ensures Offset(es, k) + i < |Encode(es)|
    ensures Encode(es)[Offset(es, k) + i := x] == Encode(Replaced(es, k, e))
  {
    hide Encode, EncodeOne;
    var n := es[k := e];
    Around(es, k);
    Around(n, k);
    assert n[..k] == es[..k] && n[k + 1..] == es[k + 1..];
    PokeMiddle(Encode(es[..k]), EncodeOne(es[k]), Encode(es[k + 1..]), i, x);
  }

  /** The element has a channel byte. */
  lemma PokeChannel(es: seq<Ie>, k: nat, channel: byte)
    requires k < |es| && |es[k].data| > 0
    ensures PokedAt(Encode(es), Offset(es, k) + 2, channel)
            == Encode(Replaced(es, k, Raw(es[k].id, es[k].data[0 := channel])))
  {
    hide Encode, EncodeOne, Replaced;
    var e := Raw(es[k].id, es[k].data[0 := channel]);
    assert EncodeOne(e) == EncodeOne(es[k])[2 := channel] by { PokedData(es[k], channel); }
    Update(es, k, 2, channel, e);
  }

  /** The element is empty and another follows it. */
  lemma PokeNext(es: seq<Ie>, k: nat, channel: byte)
    requires k + 1 < |es| && |es[k].data| == 0
    ensures PokedAt(Encode(es), Offset(es, k) + 2, channel) == Encode(Replaced(es, k + 1, Raw(channel, es[k + 1].data)))
  {
    hide Encode, EncodeOne, Replaced;
    var e := Raw(channel, es[k + 1].data);
    Around(es, k);
    assert EncodeOne(e) == EncodeOne(es[k + 1])[0 := channel] by { PokedId(es[k + 1], channel); }
    Update(es, k + 1, 0, channel, e);
  }

  /** The element is empty and the last one: the byte lies behind the encoding. */
  lemma PokeBehind(es: seq<Ie>, k: nat, channel: byte)
    requires k + 1 == |es| && |es[k].data| == 0
    ensures PokedAt(Encode(es), Offset(es, k) + 2, channel) == Encode(es)
  {
    hide Encode;
    Around(es, k);
    OffsetEnd(es);
  }

  /** The list the buffer holds after the reset: the channel replaced, or, when the first DS element
      is empty and another follows, that one's identifier overwritten. */
  function AfterReset(es: seq<Ie>, channel: byte): seq<Ie> {
    var k := First(es, DS_PARAMS);
    if k + 1 < |es| && |es[k].data| == 0 then Replaced(es, k + 1, Raw(channel, es[k + 1].data))
    else WithChannel(es, channel)
  }

  lemma PokedParses(es: seq<Ie>, channel: byte)
    ensures Parse(Poked(Encode(es), es, channel)) == Elements(AfterReset(es, channel))
  {
    hide Encode, Parse, First, Offset, PokedAt, Replaced;
    var k := First(es, DS_PARAMS);
    ParseEncoded(AfterReset(es, channel));
    if k < |es| {
      if |es[k].data| > 0 {
        PokeChannel(es, k, channel);
      } else if k + 1 < |es| {
        PokeNext(es, k, channel);
      } else {
        PokeBehind(es, k, channel);
      }
    }
  }

  lemma PokedData(e: Ie, x: byte)
    requires |e.data| > 0
    ensures EncodeOne(Raw(e.id, e.data[0 := x])) == EncodeOne(e)[2 := x]
  {
  }

  lemma PokedId(e: Ie, x: byte)
    ensures EncodeOne(Raw(x, e.data)) == EncodeOne(e)[0 := x]
  {
  }

  /** Resetting changes only the first DS element's channel byte in the parsed list, exactly when
      that element is not an empty one in front of an element with another identifier. */
  lemma ResetIffChannelByte(es: seq<Ie>, channel: byte)
    ensures var k := First(es, DS_PARAMS);
            Parse(Poked(Encode(es), es, channel)) == Elements(WithChannel(es, channel))
            <==> !(k + 1 < |es| && |es[k].data| == 0 && es[k + 1].id != channel)
  {
    hide Encode, Parse, First, Poked, AfterReset, WithChannel;
    PokedParses(es, channel);
    ResetHits(es, channel);
  }

  lemma ResetHits(es: seq<Ie>, channel: byte)
    ensures var k := First(es, DS_PARAMS);
            AfterReset(es, channel) == WithChannel(es, channel)
            <==> !(k + 1 < |es| && |es[k].data| == 0 && es[k + 1].id != channel)
  {
    hide AfterReset, WithChannel, First, Replaced;
    var k := First(es, DS_PARAMS);
    if k + 1 < |es| && |es[k].data| == 0 {
      Misses(es, channel);
      IdChanged(es, k + 1, channel);
    } else {
      Hits(es, channel);
    }
  }

  lemma Misses(es: seq<Ie>, channel: byte)
    requires var k := First(es, DS_PARAMS); k + 1 < |es| && |es[k].data| == 0
    ensures var k := First(es, DS_PARAMS);
            && AfterReset(es, channel) == Replaced(es, k + 1, Raw(channel, es[k + 1].data))
            && WithChannel(es, channel) == es
  {
    hide First, Replaced;
  }

  lemma Hits(es: seq<Ie>, channel: byte)
    requires var k := First(es, DS_PARAMS); !(k + 1 < |es| && |es[k].data| == 0)
    ensures AfterReset(es, channel) == WithChannel(es, channel)
  {
    hide First, WithChannel;
  }

  lemma IdChanged(es: seq<Ie>, j: nat, x: byte)
    requires j < |es|
    ensures Replaced(es, j, Raw(x, es[j].data)) == es <==> es[j].id == x
  {
    var n := es[j := Raw(x, es[j].data)];
    if es[j].id == x {
      assert n == es;
    } else {
      assert n[j] != es[j];
    }
  }

  /** An empty DS element in front of an SSID: channel 6 turns the SSID into an element 6. */
  lemma EmptyDsOverwritesNext()
    ensures var es := [Raw(DS_PARAMS, []), Raw(0, [0x61])];
            Parse(Poked(Encode(es), es, 6)) == Elements([Raw(DS_PARAMS, []), Raw(6, [0x61])])
  {
    hide Encode, Parse, Poked, First;
    var es: seq<Ie> := [Raw(DS_PARAMS, []), Raw(0, [0x61])];
    assert First(es, DS_PARAMS) == 0 by { assert es[0].id == DS_PARAMS; }
    PokedParses(es, 6);
  }
}
