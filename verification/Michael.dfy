/** The Michael message integrity code of TKIP. */
module Michael {
  import opened Bytes
  import LinkCipher

  // ----- words -----

  function Rol(a: bv32, n: bv32): bv32
    requires 0 < n < 32
  {
    (a << n) | ((a >> (32 - n)) & ((1 << n) - 1))
  }

  function Ror(a: bv32, n: bv32): bv32
    requires 0 < n < 32
  {
    Rol(a, 32 - n)
  }

  function SwapHalves(a: bv32): bv32 {
    ((a & 0xFF00FF00) >> 8) | ((a & 0x00FF00FF) << 8)
  }

  // Sum and exclusive or carry names so that a proof can use their laws without their bits.

  function Plus(a: bv32, b: bv32): bv32 {
    a + b
  }

  function Flip(a: bv32, b: bv32): bv32 {
    a ^ b
  }

  datatype Pair = Pair(l: bv32, r: bv32)

  /** The keyed mixing of one message word. */
  function Block(p: Pair, m: bv32): Pair {
    var l0 := Flip(p.l, m);
    var r1 := Flip(p.r, Rol(l0, 17));
    var l1 := Plus(l0, r1);
    var r2 := Flip(r1, SwapHalves(l1));
    var l2 := Plus(l1, r2);
    var r3 := Flip(r2, Rol(l2, 3));
    var l3 := Plus(l2, r3);
    var r4 := Flip(r3, Ror(l3, 2));
    Pair(Plus(l3, r4), r4)
  }

  function Wide(b: byte): bv32 {
    b as bv32
  }

  /** Put byte `b` at byte place `n` of a word. */
  function Put(m: bv32, b: byte, n: nat): bv32
    requires n < 4
  {
    match n
    case 0 => m | Wide(b)
    case 1 => m | (Wide(b) << 8)
    case 2 => m | (Wide(b) << 16)
    case _ => m | (Wide(b) << 24)
  }

  /** Up to four bytes as a little-endian word. */
  function Word32(s: seq<byte>): bv32
    requires |s| <= 4
  {
    if s == [] then 0 else Put(Word32(s[..|s| - 1]), s[|s| - 1], |s| - 1)
  }

  // ----- the definition, word by word on the padded message -----

  function Absorb(k: Pair, s: seq<byte>): Pair
    requires |s| % 4 == 0
  {
    if s == [] then k
    else Block(Absorb(k, s[..|s| - 4]), Word32(s[|s| - 4..]))
  }

  /** The byte 0x5A and then four to seven zeros, up to a whole number of words. */
  function Padding(len: nat): (p: seq<byte>)
    ensures 5 <= |p| <= 8 && (len + |p|) % 4 == 0
  {
    [0x5A] + seq(4 + (3 - len % 4), _ => 0)
  }

  function Padded(msg: seq<byte>): (r: seq<byte>)
    ensures |r| % 4 == 0
  {
    msg + Padding(|msg|)
  }

  function Mic(k: Pair, msg: seq<byte>): Pair {
    Absorb(k, Padded(msg))
  }

  // ----- the byte stream -----

  datatype Stream = Stream(p: Pair, m: bv32, n: nat)

  function Fresh(k: Pair): Stream {
    Stream(k, 0, 0)
  }

  function AppendByte(s: Stream, b: byte): (r: Stream)
    requires s.n < 4
    ensures r.n < 4
  {
    var m := Put(s.m, b, s.n);
    if s.n + 1 >= 4 then Stream(Block(s.p, m), 0, 0) else Stream(s.p, m, s.n + 1)
  }

  function Append(s: Stream, src: seq<byte>): (r: Stream)
    requires s.n < 4
    ensures r.n < 4
  {
    if src == [] then s else AppendByte(Append(s, src[..|src| - 1]), src[|src| - 1])
  }

  /** How a message is split into appends does not matter. */
  lemma {:induction false} AppendSplits(s: Stream, a: seq<byte>, b: seq<byte>)
    requires s.n < 4
    ensures Append(s, a + b) == Append(Append(s, a), b)
    decreases |b|
  {
    hide AppendByte;
    if b == [] {
      assert a + b == a;
    } else {
      var n := |b| - 1;
      assert (a + b)[..|a| + n] == a + b[..n];
      AppendSplits(s, a, b[..n]);
    }
  }

  /** The stream has absorbed the whole words of `msg` and holds the bytes after them. */
  ghost predicate Holds(k: Pair, msg: seq<byte>, s: Stream) {
    var q := |msg| - |msg| % 4;
    s == Stream(Absorb(k, msg[..q]), Word32(msg[q..]), |msg| % 4)
  }

  lemma WordSnoc(t: seq<byte>, b: byte)
    requires |t| < 4
    ensures Word32(t + [b]) == Put(Word32(t), b, |t|)
  {
    hide Put;
    assert (t + [b])[..|t|] == t;
  }

  lemma AbsorbSnoc(k: Pair, s: seq<byte>, t: seq<byte>)
    requires |s| % 4 == 0 && |t| == 4
    ensures Absorb(k, s + t) == Block(Absorb(k, s), Word32(t))
  {
    hide Block, Word32;
    var n := s + t;
    assert n[..|n| - 4] == s && n[|n| - 4..] == t;
  }

  lemma NothingHeld()
    ensures Word32([]) == 0
  {
  }

  lemma AppendHolds(k: Pair, msg: seq<byte>, s: Stream, b: byte)
    requires Holds(k, msg, s)
    ensures Holds(k, msg + [b], AppendByte(s, b))
  {
    hide Block, Put, Word32, Absorb;
    var q, next := |msg| - |msg| % 4, msg + [b];
    var whole, held := msg[..q], msg[q..];
    assert msg == whole + held && next == whole + (held + [b]);
    WordSnoc(held, b);
    if |held| == 3 {
      AbsorbSnoc(k, whole, held + [b]);
      NothingHeld();
      assert next[..|next|] == next && next[|next|..] == [];
    } else {
      assert next[..q] == whole && next[q..] == held + [b];
    }
  }

  lemma {:induction false} StreamHolds(k: Pair, msg: seq<byte>)
    ensures Holds(k, msg, Append(Fresh(k), msg))
  {
    hide Block, Put, AppendByte;
    if msg != [] {
      var n := |msg| - 1;
      StreamHolds(k, msg[..n]);
      AppendHolds(k, msg[..n], Append(Fresh(k), msg[..n]), msg[n]);
      assert msg == msg[..n] + [msg[n]];
    }
  }

  /** Streaming the padded message byte by byte gives the word-wise code and an empty buffer. */
  lemma StreamIsMic(k: Pair, msg: seq<byte>)
    ensures Append(Fresh(k), Padded(msg)) == Stream(Mic(k, msg), 0, 0)
  {
    hide Block, Put, AppendByte, Append, Absorb;
    var p := Padded(msg);
    StreamHolds(k, p);
    assert p[..|p|] == p && p[|p|..] == [];
  }

  // ----- the code -----

  function KeyWords(key: seq<byte>): Pair
    requires |key| >= 8
  {
    Pair(Word32(key[..4]), Word32(key[4..8]))
  }

  class MicData {
    var key: Pair
    var p: Pair
    var m: bv32
    var nBytesInM: nat

    ghost predicate Valid()
      reads this
    {
      nBytesInM < 4
    }

    ghost function View(): Stream
      reads this
    {
      Stream(p, m, nBytesInM)
    }

    constructor (k: seq<byte>)
      requires |k| >= 8
      ensures Valid() && key == KeyWords(k) && View() == Fresh(key)
    {
      key := KeyWords(k);
      p, m, nBytesInM := KeyWords(k), 0, 0;
    }

    method AppendOne(b: byte)
      requires Valid()
      modifies this`p, this`m, this`nBytesInM
      ensures Valid() && View() == AppendByte(old(View()), b)
    {
      hide Block, Put;
      m := Put(m, b, nBytesInM);
      nBytesInM := nBytesInM + 1;
      if nBytesInM >= 4 {
        p := Block(p, m);
        m, nBytesInM := 0, 0;
      }
    }

    method AppendMany(src: seq<byte>)
      requires Valid()
      modifies this`p, this`m, this`nBytesInM
      ensures Valid() && View() == Append(old(View()), src)
    {
      hide AppendByte;
      for i := 0 to |src|
        invariant Valid() && View() == Append(old(View()), src[..i])
      {
        AppendOne(src[i]);
        assert src[..i + 1][..i] == src[..i];
      }
      assert src[..|src|] == src;
    }

    /** For the message streamed in since the key was set: its code, and the context reset. */
    method GetMic(ghost msg: seq<byte>) returns (mic: Pair)
      requires Valid() && View() == Append(Fresh(key), msg)
      modifies this`p, this`m, this`nBytesInM
      ensures Valid() && mic == Mic(key, msg) && View() == Fresh(key)
    {
      hide AppendByte, Block, Put, Mic, Append;
      StreamCount(key, msg);
      ghost var pad: seq<byte> := [0x5A, 0, 0, 0, 0];
      AppendMany([0x5A, 0, 0, 0, 0]);
      AppendSplits(Fresh(key), msg, pad);
      StreamCount(key, msg + pad);
      while nBytesInM != 0
        invariant Valid() && |pad| <= 8
        invariant pad == [0x5A] + seq(|pad| - 1, _ => 0) && |pad| >= 5
        invariant View() == Append(Fresh(key), msg + pad)
        invariant nBytesInM == (|msg| + |pad|) % 4
        invariant |pad| == 8 ==> nBytesInM == 0
        invariant |pad| <= |Padding(|msg|)|
        decreases 8 - |pad|
      {
        AppendMany([0]);
        AppendSplits(Fresh(key), msg + pad, [0]);
        assert msg + pad + [0] == msg + (pad + [0]);
        pad := pad + [0];
        StreamCount(key, msg + pad);
      }
      assert pad == Padding(|msg|);
      StreamIsMic(key, msg);
      mic := p;
      p, m, nBytesInM := key, 0, 0;
    }
  }

  /** The buffer holds the bytes past the last whole word. */
  lemma StreamCount(k: Pair, msg: seq<byte>)
    ensures Append(Fresh(k), msg).n == |msg| % 4
  {
    StreamHolds(k, msg);
  }

  // ----- the code of a transmitted frame -----

  const NULL_KEY := seq(16, _ => 0)

  predicate ToDs(frame: seq<byte>)
    requires |frame| >= 30
  {
    frame[1] % 2 == 1
  }

  predicate FromDs(frame: seq<byte>)
    requires |frame| >= 30
  {
    frame[1] / 2 % 2 == 1
  }

  /** The destination address, which the direction bits place. */
  function Destination(frame: seq<byte>): seq<byte>
    requires |frame| >= 30
  {
    if ToDs(frame) then frame[16..22] else frame[4..10]
  }

  function Source(frame: seq<byte>): seq<byte>
    requires |frame| >= 30
  {
    if !FromDs(frame) then frame[10..16] else if ToDs(frame) then frame[24..30] else frame[16..22]
  }

  /** What the code of a frame protects: the addresses, the priority and the payload. */
  function Protected(frame: seq<byte>, priority: byte, payload: seq<byte>): seq<byte>
    requires |frame| >= 30
  {
    Destination(frame) + Source(frame) + [priority, 0, 0, 0] + payload
  }

  /** One fragment's payload in the buffer. */
  datatype Range = Range(at: nat, len: nat)

  predicate Inside(rs: seq<Range>, n: nat) {
    forall i :: 0 <= i < |rs| ==> rs[i].at + rs[i].len <= n
  }

  /** The payloads of all fragments, one after the other. */
  function Gather(buf: seq<byte>, rs: seq<Range>): seq<byte>
    requires Inside(rs, |buf|)
  {
    if rs == [] then []
    else
      var r := rs[|rs| - 1];
      Gather(buf, rs[..|rs| - 1]) + buf[r.at..r.at + r.len]
  }

  /** The place behind the last fragment. */
  function End(rs: seq<Range>): nat {
    if rs == [] then 0 else rs[|rs| - 1].at + rs[|rs| - 1].len
  }

  /** The code as eight bytes, both words little-endian. */
  function MicBytes(p: Pair): (r: seq<byte>)
    ensures |r| == 8
  {
    LinkCipher.LeBytes(p.l) + LinkCipher.LeBytes(p.r)
  }

  /** Stream in the fragments one by one. */
  method AppendFragments(data: MicData, buf: array<byte>, rs: seq<Range>, ghost before: seq<byte>)
    requires data.Valid() && Inside(rs, buf.Length) && data.View() == Append(Fresh(data.key), before)
    modifies data`p, data`m, data`nBytesInM
    ensures data.Valid() && data.View() == Append(Fresh(data.key), before + Gather(buf[..], rs))
  {
    hide Append;
    ghost var start := Fresh(data.key);
    assert before + [] == before;
    assert rs[..0] == [];
    for i := 0 to |rs|
      invariant data.Valid() && data.View() == Append(start, before + Gather(buf[..], rs[..i]))
    {
      var part := buf[rs[i].at..rs[i].at + rs[i].len];
      data.AppendMany(part);
      AppendSplits(start, before + Gather(buf[..], rs[..i]), part);
      assert rs[..i + 1][..i] == rs[..i];
      assert before + Gather(buf[..], rs[..i]) + part == before + Gather(buf[..], rs[..i + 1]);
    }
    assert rs[..|rs|] == rs;
  }

  /** A TKIP frame without an installed key is refused; with one, the code of its addresses, priority
      and payload, streamed in piece by piece and fragment by fragment, is stored behind the last
      fragment. Other frames are left alone. */
  method TxMic(tkip: bool, key: seq<byte>, buf: array<byte>, qos: bool, priority: byte, frags: seq<Range>, len: nat)
    returns (ok: bool, newLen: nat)
    requires |key| == 16 && buf.Length >= 30 && Inside(frags, buf.Length) && End(frags) + 8 <= buf.Length
    modifies buf
    ensures ok <==> !tkip || key != NULL_KEY
    ensures !ok || !tkip ==> buf[..] == old(buf[..]) && newLen == len
    ensures ok && tkip ==>
              var was := old(buf[..]);
              var mic := Mic(KeyWords(key), Protected(was, if qos then priority else 0, Gather(was, frags)));
              buf[..] == was[..End(frags)] + MicBytes(mic) + was[End(frags) + 8..] && newLen == len + 8
  {
    hide Append, Mic, KeyWords, MicBytes, Gather;
    if !tkip || key == NULL_KEY {
      return !tkip, len;
    }
    ghost var was := buf[..];
    var data := new MicData(key);
    ghost var start := Fresh(data.key);
    var da: seq<byte> := if buf[1] % 2 == 1 then buf[16..22] else buf[4..10];
    data.AppendMany(da);
    var sa: seq<byte> :=
      if buf[1] / 2 % 2 == 0 then buf[10..16] else if buf[1] % 2 == 1 then buf[24..30] else buf[16..22];
    data.AppendMany(sa);
    AppendSplits(start, da, sa);
    var prio: seq<byte> := [if qos then priority else 0, 0, 0, 0];
    data.AppendMany(prio);
    AppendSplits(start, da + sa, prio);
    ghost var front: seq<byte> := da + sa + prio;
    AppendFragments(data, buf, frags, front);
    var mic := data.GetMic(front + Gather(was, frags));
    assert da == Destination(was) && sa == Source(was);
    var bytes := MicBytes(mic);
    StoreCode(buf, End(frags), bytes);
    return true, len + 8;
  }

  method StoreCode(buf: array<byte>, at: nat, code: seq<byte>)
    requires at + |code| <= buf.Length
    modifies buf
    ensures buf[..] == old(buf[..at]) + code + old(buf[at + |code|..])
  {
    forall i | 0 <= i < |code| {
      buf[at + i] := code[i];
    }
    assert buf[at..at + |code|] == code;
  }
}
