/** The IV that a sender writes in front of a protected frame, against what the ciphers read from it. */
module LinkIv {
  import opened Bytes
  import opened TkipKey
  import opened LinkCipher

  const PN_END := 0x1_0000_0000_0000

  /** A 48-bit packet number. */
  type Pn = n: int | 0 <= n < PN_END

  /** A number without its `i` lowest bytes. */
  function Above(n: nat, i: nat): nat {
    if i == 0 then n else Above(n / 0x100, i - 1)
  }

  /** Byte `i` of a packet number, lowest first. */
  function Tsc(pn: Pn, i: nat): byte {
    Above(pn, i) % 0x100
  }

  /** The eight bytes in front of a TKIP payload. */
  function TkipIv(pn: Pn, keyId: nat): (iv: seq<byte>)
    ensures |iv| == 8
  {
    [Tsc(pn, 1), WeakKeyGuard(Tsc(pn, 1)), Tsc(pn, 0), 0x20 + keyId % 4 * 64,
     Tsc(pn, 2), Tsc(pn, 3), Tsc(pn, 4), Tsc(pn, 5)]
  }

  /** The four bytes in front of a WEP payload. */
  function WepIv(pn: Pn, keyId: nat): (iv: seq<byte>)
    ensures |iv| == 4
  {
    [Tsc(pn, 0), Tsc(pn, 1), Tsc(pn, 2), keyId % 4 * 64]
  }

  /** The counter goes back to zero behind its last value. */
  function NextPn(pn: Pn): Pn {
    if pn == PN_END - 1 then 0 else pn + 1
  }

  /** The receiver of a TKIP frame reads the number that was written. */
  lemma PnReadBack(pn: Pn, keyId: nat, frame: seq<byte>, hdr: nat)
    requires hdr + 8 <= |frame| && frame[hdr..hdr + 8] == TkipIv(pn, keyId)
    ensures LowPn(frame, hdr) == pn % 0x1_0000 && HighPn(frame, hdr) == pn / 0x1_0000
  {
    var iv := frame[hdr..hdr + 8];
    assert forall i :: 0 <= i < 8 ==> frame[hdr + i] == iv[i];
    TscParts(pn);
  }

  lemma TscParts(pn: Pn)
    ensures Tsc(pn, 1) * 0x100 + Tsc(pn, 0) == pn % 0x1_0000
    ensures (Tsc(pn, 5) * 0x100 + Tsc(pn, 4)) * 0x1_0000 + (Tsc(pn, 3) * 0x100 + Tsc(pn, 2)) == pn / 0x1_0000
  {
    var a := pn / 0x1_0000;
    var b := a / 0x1_0000;
    TwoBytes(pn);
    TwoBytes(a);
    TwoBytes(b);
    AboveTwo(pn);
    AboveFour(pn);
    assert b < 0x1_0000;
  }

  lemma TwoBytes(n: nat)
    ensures n / 0x100 / 0x100 == n / 0x1_0000 && n / 0x100 % 0x100 * 0x100 + n % 0x100 == n % 0x1_0000
  {
  }

  lemma AboveTwo(n: nat)
    ensures Above(n, 1) == n / 0x100 && Above(n, 2) == n / 0x1_0000 && Above(n, 3) == n / 0x1_0000 / 0x100
  {
    TwoBytes(n);
    assert Above(n / 0x100, 1) == n / 0x100 / 0x100;
    assert Above(n / 0x100, 2) == Above(n / 0x100 / 0x100, 1);
  }

  lemma AboveFour(n: nat)
    ensures Above(n, 4) == n / 0x1_0000 / 0x1_0000 && Above(n, 5) == n / 0x1_0000 / 0x1_0000 / 0x100
  {
    TwoBytes(n);
    var a := n / 0x1_0000;
    AboveTwo(a);
    assert Above(n, 4) == Above(n / 0x100, 3) == Above(n / 0x100 / 0x100, 2);
    assert Above(n, 5) == Above(n / 0x100, 4) == Above(n / 0x100 / 0x100, 3);
  }

  /** The first three key bytes are in the clear in front of the frame. */
  lemma ClearPart(box: Sbox, tk: TempKey, ta: Addr, pn: Pn, keyId: nat)
    ensures PacketKey(box, tk, ta, pn / 0x1_0000, pn % 0x1_0000)[..3] == TkipIv(pn, keyId)[..3]
  {
    hide Phase1, Mix, Sweep, Xor16, Tk16, WeakKeyGuard;
    TwoBytes(pn);
    AboveTwo(pn);
    assert Hi8(pn % 0x1_0000) == Tsc(pn, 1) && Lo8(pn % 0x1_0000) == Tsc(pn, 0);
  }

  /** A WEP frame is sealed under its number's lowest three bytes and the default key that was chosen. */
  lemma WepIvChooses(keys: WepKeys, pn: Pn, keyId: nat, frame: seq<byte>, hdr: nat)
    requires hdr + 4 <= |frame| && frame[hdr..hdr + 4] == WepIv(pn, keyId)
    ensures WepKey(keys, frame, hdr) == [Tsc(pn, 0), Tsc(pn, 1), Tsc(pn, 2)] + keys[keyId % 4]
  {
    hide Tsc;
    var iv := frame[hdr..hdr + 4];
    assert forall i :: 0 <= i < 4 ==> frame[hdr + i] == iv[i];
    assert frame[hdr..hdr + 3] == iv[..3];
  }

  // ----- a whole run of frames -----

  /** The number of the `n`th frame after one with number `pn`. */
  function PnAfter(pn: Pn, n: nat): Pn {
    if n == 0 then pn else NextPn(PnAfter(pn, n - 1))
  }

  lemma {:induction false} PnCounts(pn: Pn, n: nat)
    ensures PnAfter(pn, n) == (pn + n) % PN_END
  {
    if n > 0 {
      PnCounts(pn, n - 1);
      OneOn(pn + n - 1);
    }
  }

  lemma OneOn(x: nat)
    ensures (x + 1) % PN_END == if x % PN_END == PN_END - 1 then 0 else x % PN_END + 1
  {
  }

  lemma PnDistinct(pn: Pn, i: nat, j: nat)
    requires i < j < i + PN_END
    ensures PnAfter(pn, i) != PnAfter(pn, j)
  {
    PnCounts(pn, i);
    PnCounts(pn, j);
  }

  /** One sender's frames under one temporal key: the packet keys of any two that are fewer than 2^48
      frames apart differ, and 2^48 frames apart they are the same again. */
  lemma KeysRepeatOnlyOnWrap(box: Sbox, tk: TempKey, ta: Addr, pn: Pn, i: nat, j: nat)
    requires i < j <= i + PN_END
    ensures var a, b := PnAfter(pn, i), PnAfter(pn, j);
            PacketKey(box, tk, ta, a / 0x1_0000, a % 0x1_0000) == PacketKey(box, tk, ta, b / 0x1_0000, b % 0x1_0000)
            <==> j == i + PN_END
  {
    hide PacketKey, PnAfter;
    var a, b := PnAfter(pn, i), PnAfter(pn, j);
    if j < i + PN_END {
      PnDistinct(pn, i, j);
      Halves(a, b);
      PacketKeysDistinct(box, tk, ta, a / 0x1_0000, a % 0x1_0000, ta, b / 0x1_0000, b % 0x1_0000);
    } else {
      PnWraps(pn, i);
    }
  }

  lemma PnWraps(pn: Pn, i: nat)
    ensures PnAfter(pn, i + PN_END) == PnAfter(pn, i)
  {
    PnCounts(pn, i);
    PnCounts(pn, i + PN_END);
  }

  lemma Halves(a: Pn, b: Pn)
    requires a != b
    ensures a / 0x1_0000 != b / 0x1_0000 || a % 0x1_0000 != b % 0x1_0000
  {
  }
}
