/** WEP and TKIP protection of a frame: header, IV, encrypted payload and integrity check value. */
module LinkCipher {
  import opened Bytes
  import opened Arc4
  import opened TkipKey
  import Crc32

  const ICV_LEN := 4

  function ByteOf(c: bv32): byte {
    Crc32.LowByteIndex(c);
    Crc32.LowByte(c) as int
  }

  /** The four bytes of a word, little-endian. */
  function LeBytes(c: bv32): (r: seq<byte>)
    ensures |r| == 4
  {
    [ByteOf(c), ByteOf(c >> 8), ByteOf(c >> 16), ByteOf(c >> 24)]
  }

  /** The integrity check value. */
  function Icv(payload: seq<byte>): (r: seq<byte>)
    ensures |r| == ICV_LEN
  {
    LeBytes(Crc32.Crc(payload))
  }

  /** The payload and its check value, encrypted as one string; everything before `ofs` in the clear. */
  function Seal(key: seq<byte>, frame: seq<byte>, ofs: nat): (r: seq<byte>)
    requires key != [] && ofs + ICV_LEN <= |frame|
    ensures |r| == |frame| && r[..ofs] == frame[..ofs]
  {
    var payload := frame[ofs..|frame| - ICV_LEN];
    frame[..ofs] + Crypt(Start(key), payload + Icv(payload)).out
  }

  datatype Opened = Opened(ok: bool, frame: seq<byte>)

  /** Decrypt in one string and compare the check values. Where the frame has no room for a check
      value, the code's payload length wraps below zero: the code of the empty payload, which is
      zero, is compared with the last four bytes, some of them in front of `ofs`. */
  function Open(key: seq<byte>, frame: seq<byte>, ofs: nat): (r: Opened)
    requires key != [] && ICV_LEN <= ofs <= |frame|
    ensures |r.frame| == |frame| && r.frame[..ofs] == frame[..ofs]
  {
    var clear := frame[..ofs] + Crypt(Start(key), frame[ofs..]).out;
    var n := |frame| - ICV_LEN;
    Opened(Icv(if ofs <= n then clear[ofs..n] else []) == clear[n..], clear)
  }

  /** Opening what was sealed with the same key succeeds and restores header and payload. */
  lemma OpenSealed(key: seq<byte>, frame: seq<byte>, ofs: nat)
    requires key != [] && ICV_LEN <= ofs && ofs + ICV_LEN <= |frame|
    ensures var payload := frame[ofs..|frame| - ICV_LEN];
            Open(key, Seal(key, frame, ofs), ofs)
            == Opened(true, frame[..|frame| - ICV_LEN] + Icv(payload))
  {
    hide Crypt, Start, Icv;
    var payload := frame[ofs..|frame| - ICV_LEN];
    var plain := payload + Icv(payload);
    var sealed := Seal(key, frame, ofs);
    CryptTwice(Start(key), plain);
    assert sealed[ofs..] == Crypt(Start(key), plain).out;
    var clear, n := sealed[..ofs] + plain, |frame| - ICV_LEN;
    assert clear[ofs..n] == payload && clear[n..] == Icv(payload);
    assert clear == frame[..n] + Icv(payload);
  }

  /** The frame is the sealing of some frame. */
  ghost predicate IsSealing(key: seq<byte>, frame: seq<byte>, ofs: nat)
    requires key != []
  {
    exists g: seq<byte> :: |g| == |frame| && ofs + ICV_LEN <= |g| && Seal(key, g, ofs) == frame
  }

  /** A frame that opens and has room for a check value is the sealing of what it opened to. */
  lemma SealOpened(key: seq<byte>, frame: seq<byte>, ofs: nat)
    requires key != [] && ICV_LEN <= ofs <= |frame|
    requires Open(key, frame, ofs).ok
    ensures ofs + ICV_LEN <= |frame| ==> Seal(key, Open(key, frame, ofs).frame, ofs) == frame
    ensures |frame| < ofs + ICV_LEN ==> ZeroTail(key, frame, ofs)
  {
    hide Open, Seal, ZeroTail;
    if |frame| < ofs + ICV_LEN {
      ShortOpens(key, frame, ofs);
    } else {
      SealOpenedLong(key, frame, ofs);
    }
  }

  lemma SealOpenedLong(key: seq<byte>, frame: seq<byte>, ofs: nat)
    requires key != [] && ICV_LEN <= ofs && ofs + ICV_LEN <= |frame|
    requires Open(key, frame, ofs).ok
    ensures Seal(key, Open(key, frame, ofs).frame, ofs) == frame
  {
    hide Crypt, Start, Icv;
    var plain, n := Crypt(Start(key), frame[ofs..]).out, |frame| - ICV_LEN;
    var clear := Open(key, frame, ofs).frame;
    Tail(frame[..ofs], plain, n);
    CryptTwice(Start(key), frame[ofs..]);
    assert frame == frame[..ofs] + frame[ofs..];
  }

  lemma Tail(head: seq<byte>, plain: seq<byte>, n: nat)
    requires |head| <= n <= |head| + |plain|
    ensures var clear := head + plain;
            clear[..|head|] == head && plain == clear[|head|..n] + clear[n..]
  {
  }

  /** The last four bytes, as far as they lie behind `ofs` decrypted, are zero. */
  predicate ZeroTail(key: seq<byte>, frame: seq<byte>, ofs: nat)
    requires key != [] && ICV_LEN <= ofs <= |frame| < ofs + ICV_LEN
  {
    && frame[|frame| - ICV_LEN..ofs] == seq(ofs + ICV_LEN - |frame|, _ => 0)
    && Crypt(Start(key), frame[ofs..]).out == seq(|frame| - ofs, _ => 0)
  }

  lemma EmptyIcv()
    ensures Icv([]) == [0, 0, 0, 0]
  {
    assert Crc32.Crc([]) == 0;
    ZeroBytes();
  }

  lemma ZeroBytes()
    ensures LeBytes(0) == [0, 0, 0, 0]
  {
    Crc32.LowByteIndex(0);
    assert 0 as bv32 >> 8 == 0 && 0 as bv32 >> 16 == 0 && 0 as bv32 >> 24 == 0;
  }

  /** A frame without room for a check value opens exactly when its last four bytes are zero. */
  lemma ShortOpens(key: seq<byte>, frame: seq<byte>, ofs: nat)
    requires key != [] && ICV_LEN <= ofs <= |frame| < ofs + ICV_LEN
    ensures Open(key, frame, ofs).ok <==> ZeroTail(key, frame, ofs)
  {
    hide Crypt, Start, Icv;
    EmptyIcv();
    var plain := Crypt(Start(key), frame[ofs..]).out;
    var clear, n := frame[..ofs] + plain, |frame| - ICV_LEN;
    assert clear[n..] == frame[n..ofs] + plain;
    ZeroParts(frame[n..ofs], plain);
  }

  lemma ZeroParts(a: seq<byte>, b: seq<byte>)
    requires |a| + |b| == 4
    ensures a + b == [0, 0, 0, 0] <==> a == seq(|a|, _ => 0) && b == seq(|b|, _ => 0)
  {
    if a + b == [0, 0, 0, 0] {
      assert forall i :: 0 <= i < |a| ==> a[i] == (a + b)[i] == 0;
      assert forall i :: 0 <= i < |b| ==> b[i] == (a + b)[|a| + i] == 0;
    }
  }

  /** The frames that open are the sealings under the key, exactly when the frame has room for a check
      value or does not end in zeros. */
  lemma OpensExactlySealed(key: seq<byte>, frame: seq<byte>, ofs: nat)
    requires key != [] && ICV_LEN <= ofs <= |frame|
    ensures (Open(key, frame, ofs).ok <==> IsSealing(key, frame, ofs))
            <==> (ofs + ICV_LEN <= |frame| || !ZeroTail(key, frame, ofs))
    ensures IsSealing(key, frame, ofs) ==> Open(key, frame, ofs).ok
  {
    hide Open, Seal, ZeroTail;
    if ofs + ICV_LEN <= |frame| {
      if Open(key, frame, ofs).ok {
        SealOpened(key, frame, ofs);
        assert IsSealing(key, frame, ofs);
      }
      forall g | |g| == |frame| && Seal(key, g, ofs) == frame ensures Open(key, frame, ofs).ok {
        OpenSealed(key, g, ofs);
      }
    } else {
      ShortOpens(key, frame, ofs);
    }
  }

  /** A frame of a header and an all-zero IV and nothing else opens under every key. */
  lemma ZeroIvOpens(key: seq<byte>, frame: seq<byte>, ofs: nat)
    requires key != [] && ICV_LEN <= ofs == |frame| && frame[ofs - ICV_LEN..] == [0, 0, 0, 0]
    ensures Open(key, frame, ofs) == Opened(true, frame) && !IsSealing(key, frame, ofs)
  {
    ShortOpens(key, frame, ofs);
    assert frame[ofs..] == [];
    assert frame[..ofs] + [] == frame;
  }

  /** The code seals in two steps, payload first and check value after it. */
  lemma SealInTwoSteps(key: seq<byte>, frame: seq<byte>, ofs: nat)
    requires key != [] && ofs + ICV_LEN <= |frame|
    ensures var payload := frame[ofs..|frame| - ICV_LEN];
            var r := Crypt(Start(key), payload);
            Seal(key, frame, ofs) == frame[..ofs] + r.out + Crypt(r.c, Icv(payload)).out
  {
    hide Crypt, Start, Icv;
    var payload := frame[ofs..|frame| - ICV_LEN];
    CryptSplits(Start(key), payload, Icv(payload));
  }

  // ----- the keys, read from the clear part of the frame -----

  /** Four default keys of at most 13 bytes. */
  type WepKeys = ks: seq<seq<byte>> | |ks| == 4 && forall i :: 0 <= i < 4 ==> |ks[i]| <= 13
    witness [[], [], [], []]

  /** The first three IV bytes and the default key that the fourth selects. */
  function WepKey(keys: WepKeys, frame: seq<byte>, hdr: nat): (k: seq<byte>)
    requires hdr + 4 <= |frame|
    ensures k != [] && |k| <= 16
  {
    frame[hdr..hdr + 3] + keys[frame[hdr + 3] / 64]
  }

  /** The lower 16 and upper 32 bits of the packet number in an eight-byte TKIP IV. */
  function LowPn(frame: seq<byte>, hdr: nat): Word
    requires hdr + 8 <= |frame|
  {
    Mk16(frame[hdr], frame[hdr + 2])
  }

  function HighPn(frame: seq<byte>, hdr: nat): (v: int)
    requires hdr + 8 <= |frame|
    ensures 0 <= v < 0x1_0000_0000
  {
    Mk16(frame[hdr + 7], frame[hdr + 6]) * 0x10000 + Mk16(frame[hdr + 5], frame[hdr + 4])
  }

  function TkipFrameKey(box: Sbox, tk: TempKey, ta: Addr, frame: seq<byte>, hdr: nat): (k: seq<byte>)
    requires hdr + 8 <= |frame|
    ensures k != [] && |k| == 16
  {
    PacketKey(box, tk, ta, HighPn(frame, hdr), LowPn(frame, hdr))
  }

  /** WEP frames of any length survive the round trip: sealing keeps the IV, so the receiver
      rebuilds the same key. */
  lemma WepRoundTrip(keys: WepKeys, frame: seq<byte>, hdr: nat, ivLen: nat)
    requires ivLen >= 4 && hdr + ivLen + ICV_LEN <= |frame|
    ensures var ofs := hdr + ivLen;
            var sealed := Seal(WepKey(keys, frame, hdr), frame, ofs);
            var r := Open(WepKey(keys, sealed, hdr), sealed, ofs);
            r.ok && r.frame[..|frame| - ICV_LEN] == frame[..|frame| - ICV_LEN]
  {
    hide Seal, Open, Icv;
    var ofs := hdr + ivLen;
    var key := WepKey(keys, frame, hdr);
    var sealed := Seal(key, frame, ofs);
    assert WepKey(keys, sealed, hdr) == key by {
      assert sealed[hdr..hdr + 3] == sealed[..ofs][hdr..hdr + 3];
      assert frame[hdr..hdr + 3] == frame[..ofs][hdr..hdr + 3];
      assert sealed[hdr + 3] == sealed[..ofs][hdr + 3] == frame[..ofs][hdr + 3];
    }
    OpenSealed(key, frame, ofs);
  }

  /** TKIP frames of any length survive the round trip. */
  lemma TkipRoundTrip(box: Sbox, tk: TempKey, ta: Addr, frame: seq<byte>, hdr: nat, ivLen: nat)
    requires ivLen >= 8 && hdr + ivLen + ICV_LEN <= |frame|
    ensures var ofs := hdr + ivLen;
            var sealed := Seal(TkipFrameKey(box, tk, ta, frame, hdr), frame, ofs);
            var r := Open(TkipFrameKey(box, tk, ta, sealed, hdr), sealed, ofs);
            r.ok && r.frame[..|frame| - ICV_LEN] == frame[..|frame| - ICV_LEN]
  {
    hide Seal, Open, Icv, PacketKey;
    var ofs := hdr + ivLen;
    var key := TkipFrameKey(box, tk, ta, frame, hdr);
    var sealed := Seal(key, frame, ofs);
    assert TkipFrameKey(box, tk, ta, sealed, hdr) == key by {
      assert forall i :: hdr <= i < hdr + 8 ==> sealed[i] == sealed[..ofs][i] == frame[..ofs][i];
    }
    OpenSealed(key, frame, ofs);
  }

  // ----- the code -----

  /** The shared tail of the two data-frame encryptions: check value, payload, check value. */
  method SealFrame(key: seq<byte>, frame: array<byte>, ofs: nat, crc: Crc32.CrcEngine)
    requires key != [] && ofs + ICV_LEN <= frame.Length && crc.Valid()
    modifies frame, crc
    ensures crc.Valid()
    ensures frame[..] == Seal(key, old(frame[..]), ofs)
  {
    hide Crypt, Start, LeBytes, Crc32.Crc;
    ghost var was := frame[..];
    var icvOfs := frame.Length - ICV_LEN;
    var payload := frame[ofs..icvOfs];
    var c := crc.GetCrc(payload);
    var icv := LeBytes(c);
    var ctx := new Context(key);
    ctx.Encrypt(frame, ofs, payload);
    ghost var r, mid := Crypt(Start(key), payload), frame[..];
    assert mid == was[..ofs] + r.out + was[icvOfs..];
    ctx.Encrypt(frame, icvOfs, icv);
    assert mid[..icvOfs] == was[..ofs] + r.out;
    SealInTwoSteps(key, was, ofs);
  }

  /** The shared tail of the decryptions: one string, then the comparison. */
  method OpenFrame(key: seq<byte>, frame: array<byte>, ofs: nat, crc: Crc32.CrcEngine) returns (ok: bool)
    requires key != [] && ICV_LEN <= ofs <= frame.Length && crc.Valid()
    modifies frame, crc
    ensures crc.Valid()
    ensures Opened(ok, frame[..]) == Open(key, old(frame[..]), ofs)
  {
    hide Crypt, Start, LeBytes, Crc32.Crc;
    ghost var was := frame[..];
    var icvOfs := frame.Length - ICV_LEN;
    var ctx := new Context(key);
    ctx.Encrypt(frame, ofs, frame[ofs..]);
    ghost var plain := Crypt(Start(key), was[ofs..]).out;
    ghost var clear := was[..ofs] + plain;
    assert frame[..] == clear;
    var payload := if ofs <= icvOfs then frame[ofs..icvOfs] else [];
    assert ofs <= icvOfs ==> payload == clear[ofs..icvOfs];
    var c := crc.GetCrc(payload);
    var icv := LeBytes(c);
    ok := icv == frame[icvOfs..];
    assert frame[icvOfs..] == clear[icvOfs..];
  }

  const WEP40 := 1
  const WEP104 := 5

  method WepEncrypt(algo: int, keys: WepKeys, frame: array<byte>, hdr: nat, ivLen: nat, crc: Crc32.CrcEngine)
    returns (res: int)
    requires ivLen >= 4 && hdr + ivLen + ICV_LEN <= frame.Length && crc.Valid()
    modifies frame, crc
    ensures crc.Valid()
    ensures res == if algo == WEP40 || algo == WEP104 then 0 else -1
    ensures frame[..] == if res == 0 then Seal(WepKey(keys, old(frame[..]), hdr), old(frame[..]), hdr + ivLen)
                         else old(frame[..])
  {
    hide Seal;
    if algo != WEP40 && algo != WEP104 {
      return -1;
    }
    var key := frame[hdr..hdr + 3] + keys[frame[hdr + 3] / 64];
    assert key == WepKey(keys, frame[..], hdr) by { assert frame[hdr..hdr + 3] == frame[..][hdr..hdr + 3]; }
    SealFrame(key, frame, hdr + ivLen, crc);
    return 0;
  }

  method WepDecrypt(keys: WepKeys, frame: array<byte>, hdr: nat, ivLen: nat, crc: Crc32.CrcEngine)
    returns (ret: int)
    requires ivLen >= 4 && hdr + ivLen <= frame.Length && crc.Valid()
    modifies frame, crc
    ensures crc.Valid() && (ret == 0 || ret == -1)
    ensures Opened(ret == 0, frame[..]) == Open(WepKey(keys, old(frame[..]), hdr), old(frame[..]), hdr + ivLen)
  {
    hide Open;
    var key := frame[hdr..hdr + 3] + keys[frame[hdr + 3] / 64];
    assert key == WepKey(keys, frame[..], hdr) by { assert frame[hdr..hdr + 3] == frame[..][hdr..hdr + 3]; }
    var ok := OpenFrame(key, frame, hdr + ivLen, crc);
    ret := if ok then 0 else -1;
  }

  /** The authentication variant stores the check value first and encrypts in one call. */
  method WepEncryptAuth(keys: WepKeys, frame: array<byte>, crc: Crc32.CrcEngine)
    requires 28 + ICV_LEN <= frame.Length && crc.Valid()
    modifies frame, crc
    ensures crc.Valid()
    ensures frame[..] == Seal(WepKey(keys, old(frame[..]), 24), old(frame[..]), 28)
  {
    hide Crypt, Start, LeBytes, Crc32.Crc;
    ghost var was := frame[..];
    var icvOfs := frame.Length - ICV_LEN;
    var key := frame[24..27] + keys[frame[27] / 64];
    assert key == WepKey(keys, was, 24) by { assert frame[24..27] == was[24..27]; }
    var payload := frame[28..icvOfs];
    var c := crc.GetCrc(payload);
    var icv := LeBytes(c);
    frame[icvOfs], frame[icvOfs + 1], frame[icvOfs + 2], frame[icvOfs + 3] := icv[0], icv[1], icv[2], icv[3];
    assert frame[28..] == payload + icv;
    var ctx := new Context(key);
    ctx.Encrypt(frame, 28, frame[28..]);
    assert frame[..28] == was[..28];
  }

  method WepDecryptAuth(keys: WepKeys, frame: array<byte>, crc: Crc32.CrcEngine) returns (ret: int)
    requires 28 <= frame.Length && crc.Valid()
    modifies frame, crc
    ensures crc.Valid() && (ret == 0 || ret == -1)
    ensures Opened(ret == 0, frame[..]) == Open(WepKey(keys, old(frame[..]), 24), old(frame[..]), 28)
  {
    ret := WepDecrypt(keys, frame, 24, 4, crc);
  }

  method FrameKey(box: Sbox, tk: TempKey, ta: Addr, frame: array<byte>, hdr: nat) returns (key: seq<byte>)
    requires hdr + 8 <= frame.Length
    ensures key == TkipFrameKey(box, tk, ta, frame[..], hdr)
  {
    hide Phase1, Phase2;
    var p1k := new Word[5](_ => 0);
    MixPhase1(box, p1k, tk, ta, HighPn(frame[..], hdr));
    key := MixPhase2(box, tk, p1k, LowPn(frame[..], hdr));
  }

  method TkipEncrypt(box: Sbox, tk: TempKey, ta: Addr, frame: array<byte>, hdr: nat, ivLen: nat,
                     crc: Crc32.CrcEngine)
    requires ivLen >= 8 && hdr + ivLen + ICV_LEN <= frame.Length && crc.Valid()
    modifies frame, crc
    ensures crc.Valid()
    ensures frame[..] == Seal(TkipFrameKey(box, tk, ta, old(frame[..]), hdr), old(frame[..]), hdr + ivLen)
  {
    hide Seal, TkipFrameKey;
    var key := FrameKey(box, tk, ta, frame, hdr);
    SealFrame(key, frame, hdr + ivLen, crc);
  }

  /** Which key the receiver finds: none installed for the group, no such station, or a key. */
  datatype KeyChoice = NoGroupKey | NoStation | Key(tk: TempKey)

  method TkipDecrypt(box: Sbox, choice: KeyChoice, ta: Addr, frame: array<byte>, hdr: nat, ivLen: nat,
                     crc: Crc32.CrcEngine)
    returns (res: int)
    requires ivLen >= 8 && hdr + ivLen <= frame.Length && crc.Valid()
    modifies frame, crc
    ensures crc.Valid()
    ensures match choice
            case NoGroupKey => res == -1 && frame[..] == old(frame[..])
            case NoStation => res == -2 && frame[..] == old(frame[..])
            case Key(tk) =>
              && (res == 0 || res == -3)
              && Opened(res == 0, frame[..])
                 == Open(TkipFrameKey(box, tk, ta, old(frame[..]), hdr), old(frame[..]), hdr + ivLen)
  {
    hide Open, TkipFrameKey;
    match choice
    case NoGroupKey => res := -1;
    case NoStation => res := -2;
    case Key(tk) =>
      var key := FrameKey(box, tk, ta, frame, hdr);
      var ok := OpenFrame(key, frame, hdr + ivLen, crc);
      res := if ok then 0 else -3;
  }
}
