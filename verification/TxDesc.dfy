/** The hardware transmit descriptor of the V200 chip: five words of packed fields and a checksum. */
module TxDesc {
  import opened Bytes
  import opened BitWord

  /** What the descriptor is filled from. `sec`, `sc` and `bw` are the mapped security type,
      sub-channel and bandwidth, `hwRate` the mapped fixed rate, and `behind` the byte that the table
      look-up reads for a rate table above 8, which lies behind the table. */
  datatype Frame = Frame(data: bool, wdnId: nat, raid: nat, behind: nat, qsel: nat, seqnum: nat, sec: nat, vcs: nat,
                         shortPreamble: bool, ht: bool, sc: nat, bw: nat, ampdu: bool,
                         etherType: nat, dhcp: bool, fixRate: bool, hwRate: nat, p2p: bool,
                         aggNum: nat, report: bool, txseq: nat, len: nat, bmcast: bool, qos: bool)

  const TYPE_DATA := 3
  const RTS_CTS := 1
  const CTS_TO_SELF := 2
  const DESC_RATE1M := 0
  const DESC_RATE6M := 4
  const RAID_TABLE := [0, 5, 0, 4, 0, 3, 2, 1, 0]

  /** The table look-up. */
  function RateId(f: Frame): nat {
    if f.raid <= 8 then RAID_TABLE[f.raid] else f.behind
  }

  /** Key, address and configuration traffic goes out at a basic rate, and so does everything under
      a fixed rate. */
  predicate BasicRate(f: Frame) {
    f.etherType == 0x888e || f.etherType == 0x0806 || f.etherType == 0x88B4 || f.dhcp || f.fixRate
  }

  type Desc = d: seq<Word32> | |d| == 5 witness seq(5, i => Bits(0))

  function When(c: bool, w: Word32, ofs: nat, len: nat, v: nat): Word32
    requires 1 <= len <= 32
  {
    if c then Put(w, ofs, len, v) else w
  }

  // ----- the words, each with its writes in order -----

  function Word0(w: Word32, f: Frame): Word32 {
    When(!f.qos, Put(Put(w, 0, 2, TYPE_DATA), 19, 12, f.seqnum), 18, 1, 1)
  }

  function Word1(w: Word32, f: Frame): Word32 {
    When(f.report, w, 16, 12, f.txseq)
  }

  function Protection(w: Word32, f: Frame): Word32 {
    var a := Put(w, 27, 2, 0);
    var b := When(f.vcs == CTS_TO_SELF, When(f.vcs == RTS_CTS, a, 27, 2, 1), 27, 2, 2);
    When(f.vcs != 0 && f.ht, When(f.vcs != 0 && f.shortPreamble, b, 29, 1, 1), 30, 2, f.sc)
  }

  function Rate(w: Word32, f: Frame): Word32 {
    if !BasicRate(f) then Put(w, 16, 1, 0)
    else
      var a := When(f.shortPreamble, Put(w, 16, 1, 1), 17, 1, 1);
      var b := Put(a, 16, 1, 1);
      if f.fixRate then Put(b, 18, 7, f.hwRate)
      else When(f.p2p, Put(b, 18, 7, DESC_RATE1M), 18, 7, DESC_RATE6M)
  }

  function Word2(w: Word32, f: Frame): Word32 {
    Put(Rate(Protection(w, f), f), 0, 16, f.len)
  }

  function Aggregation(w: Word32, f: Frame): Word32 {
    if !BasicRate(f) && f.ampdu then Put(w, 0, 1, 1) else Put(w, 19, 1, 1)
  }

  function Word3(w: Word32, f: Frame): Word32 {
    var a := Aggregation(Put(Put(w, 6, 5, f.qsel), 3, 3, f.sec), f);
    When(f.bmcast, When(f.report, Put(a, 24, 8, f.aggNum), 21, 1, 1), 14, 1, 1)
  }

  /** Fixed rate mode up to table 8, adaptive mode above it. */
  function RateMode(w: Word32, f: Frame): Word32 {
    if f.raid <= 8 then Put(Put(w, 5, 1, 0), 6, 3, RateId(f)) else Put(Put(w, 5, 1, 1), 9, 3, RateId(f))
  }

  function Word4(w: Word32, f: Frame): Word32 {
    var a := RateMode(Put(w, 0, 5, f.wdnId), f);
    var phy := !BasicRate(f) && f.ht;
    When(phy, When(phy, a, 12, 1, f.bw), 13, 2, f.sc)
  }

  function Filled(d: Desc, f: Frame): Desc
  {
    hide Word0, Word1, Word2, Word3, Word4;
    if f.data then [Word0(d[0], f), Word1(d[1], f), Word2(d[2], f), Word3(d[3], f), Word4(d[4], f)] else d
  }

  // ----- what the hardware reads -----

  function Written(c: bool, v: nat, otherwise: nat): nat {
    if c then v else otherwise
  }

  /** Every field of word 0 decodes to its input, and the bits between them are unchanged. */
  lemma Word0Decodes(w: Word32, f: Frame)
    ensures var r := Word0(w, f);
            && Field(r, 0, 2) == TYPE_DATA
            && Field(r, 19, 12) == f.seqnum % Pow2(12)
            && Field(r, 18, 1) == Written(!f.qos, 1, Field(w, 18, 1))
            && Field(r, 2, 16) == Field(w, 2, 16) && Field(r, 31, 1) == Field(w, 31, 1)
  {
    hide Field, Put;
    var a := Put(w, 0, 2, TYPE_DATA);
    var b := Put(a, 19, 12, f.seqnum);
    PutEffect(w, 0, 2, TYPE_DATA);
    PutEffect(a, 19, 12, f.seqnum);
    PutEffect(b, 18, 1, 1);
    assert Pow2(1) == 2 && Pow2(2) == 4;
  }

  lemma Word1Decodes(w: Word32, f: Frame)
    ensures var r := Word1(w, f);
            && Field(r, 16, 12) == Written(f.report, f.txseq % Pow2(12), Field(w, 16, 12))
            && Field(r, 0, 16) == Field(w, 0, 16) && Field(r, 28, 4) == Field(w, 28, 4)
  {
    hide Field, Put;
    PutEffect(w, 16, 12, f.txseq);
  }

  lemma ProtectionDecodes(w: Word32, f: Frame)
    ensures var r := Protection(w, f);
            && Field(r, 27, 2) == (if f.vcs == RTS_CTS then 1 else if f.vcs == CTS_TO_SELF then 2 else 0)
            && Field(r, 29, 1) == Written(f.vcs != 0 && f.shortPreamble, 1, Field(w, 29, 1))
            && Field(r, 30, 2) == Written(f.vcs != 0 && f.ht, f.sc % Pow2(2), Field(w, 30, 2))
            && forall o: nat, l: nat | 1 <= l && o + l <= 27 :: Field(r, o, l) == Field(w, o, l)
  {
    hide Field, Put;
    var a := Put(w, 27, 2, 0);
    var b := When(f.vcs == RTS_CTS, a, 27, 2, 1);
    var c := When(f.vcs == CTS_TO_SELF, b, 27, 2, 2);
    var d := When(f.vcs != 0 && f.shortPreamble, c, 29, 1, 1);
    PutEffect(w, 27, 2, 0);
    PutEffect(a, 27, 2, 1);
    PutEffect(b, 27, 2, 2);
    PutEffect(c, 29, 1, 1);
    PutEffect(d, 30, 2, f.sc);
    assert Pow2(1) == 2 && Pow2(2) == 4;
  }

  lemma RateDecodes(w: Word32, f: Frame)
    ensures var r := Rate(w, f);
            && Field(r, 16, 1) == (if BasicRate(f) then 1 else 0)
            && Field(r, 17, 1) == Written(BasicRate(f) && f.shortPreamble, 1, Field(w, 17, 1))
            && Field(r, 18, 7) == (if !BasicRate(f) then Field(w, 18, 7)
                                   else if f.fixRate then f.hwRate % Pow2(7)
                                   else if f.p2p then DESC_RATE6M else DESC_RATE1M)
            && forall o: nat, l: nat | 1 <= l && o + l <= 32 && (o + l <= 16 || o >= 25) ::
                 Field(r, o, l) == Field(w, o, l)
  {
    hide Field, Put, BasicRate;
    var a := Put(w, 16, 1, 1);
    var b := When(f.shortPreamble, a, 17, 1, 1);
    var c := Put(b, 16, 1, 1);
    var d := Put(c, 18, 7, DESC_RATE1M);
    PutEffect(w, 16, 1, 0);
    PutEffect(w, 16, 1, 1);
    PutEffect(a, 17, 1, 1);
    PutEffect(b, 16, 1, 1);
    PutEffect(c, 18, 7, f.hwRate);
    PutEffect(c, 18, 7, DESC_RATE1M);
    PutEffect(d, 18, 7, DESC_RATE6M);
    assert Pow2(1) == 2;
    assert Pow2(4) == 16 && Pow2(7) == 128;
  }

  lemma Word2Decodes(w: Word32, f: Frame)
    ensures var r := Word2(w, f);
            && Field(r, 0, 16) == f.len % Pow2(16)
            && Field(r, 16, 1) == (if BasicRate(f) then 1 else 0)
            && Field(r, 17, 1) == Written(BasicRate(f) && f.shortPreamble, 1, Field(w, 17, 1))
            && Field(r, 18, 7) == (if !BasicRate(f) then Field(w, 18, 7)
                                   else if f.fixRate then f.hwRate % Pow2(7)
                                   else if f.p2p then DESC_RATE6M else DESC_RATE1M)
            && Field(r, 25, 2) == Field(w, 25, 2)
            && Field(r, 27, 2) == (if f.vcs == RTS_CTS then 1 else if f.vcs == CTS_TO_SELF then 2 else 0)
            && Field(r, 29, 1) == Written(f.vcs != 0 && f.shortPreamble, 1, Field(w, 29, 1))
            && Field(r, 30, 2) == Written(f.vcs != 0 && f.ht, f.sc % Pow2(2), Field(w, 30, 2))
  {
    hide Field, Put, Protection, Rate, BasicRate;
    var p := Protection(w, f);
    ProtectionDecodes(w, f);
    RateDecodes(p, f);
    PutEffect(Rate(p, f), 0, 16, f.len);
  }

  lemma Word3Decodes(w: Word32, f: Frame)
    ensures var r := Word3(w, f);
            var agg := !BasicRate(f) && f.ampdu;
            && Field(r, 0, 1) == Written(agg, 1, Field(w, 0, 1))
            && Field(r, 3, 3) == f.sec % Pow2(3)
            && Field(r, 6, 5) == f.qsel % Pow2(5)
            && Field(r, 14, 1) == Written(f.bmcast, 1, Field(w, 14, 1))
            && Field(r, 19, 1) == Written(!agg, 1, Field(w, 19, 1))
            && Field(r, 21, 1) == Written(f.report, 1, Field(w, 21, 1))
            && Field(r, 24, 8) == f.aggNum % Pow2(8)
  {
    hide Field, Put, BasicRate;
    var a := Put(w, 6, 5, f.qsel);
    var b := Put(a, 3, 3, f.sec);
    var c := Aggregation(b, f);
    var d := Put(c, 24, 8, f.aggNum);
    var e := When(f.report, d, 21, 1, 1);
    PutEffect(w, 6, 5, f.qsel);
    PutEffect(a, 3, 3, f.sec);
    PutEffect(b, 0, 1, 1);
    PutEffect(b, 19, 1, 1);
    PutEffect(c, 24, 8, f.aggNum);
    PutEffect(d, 21, 1, 1);
    PutEffect(e, 14, 1, 1);
    assert Pow2(1) == 2;
  }

  lemma RateModeDecodes(w: Word32, f: Frame)
    ensures var r := RateMode(w, f);
            && Field(r, 5, 1) == (if f.raid <= 8 then 0 else 1)
            && Field(r, 6, 3) == Written(f.raid <= 8, RateId(f) % Pow2(3), Field(w, 6, 3))
            && Field(r, 9, 3) == Written(f.raid > 8, RateId(f) % Pow2(3), Field(w, 9, 3))
            && forall o: nat, l: nat | 1 <= l && o + l <= 32 && (o + l <= 5 || o >= 12) ::
                 Field(r, o, l) == Field(w, o, l)
  {
    hide Field, Put, RateId;
    PutEffect(w, 5, 1, 0);
    PutEffect(w, 5, 1, 1);
    PutEffect(Put(w, 5, 1, 0), 6, 3, RateId(f));
    PutEffect(Put(w, 5, 1, 1), 9, 3, RateId(f));
    assert Pow2(1) == 2;
  }

  lemma Word4Decodes(w: Word32, f: Frame)
    ensures var r := Word4(w, f);
            var phy := !BasicRate(f) && f.ht;
            && Field(r, 0, 5) == f.wdnId % Pow2(5)
            && Field(r, 5, 1) == (if f.raid <= 8 then 0 else 1)
            && Field(r, 6, 3) == Written(f.raid <= 8, RateId(f) % Pow2(3), Field(w, 6, 3))
            && Field(r, 9, 3) == Written(f.raid > 8, RateId(f) % Pow2(3), Field(w, 9, 3))
            && Field(r, 12, 1) == Written(phy, f.bw % Pow2(1), Field(w, 12, 1))
            && Field(r, 13, 2) == Written(phy, f.sc % Pow2(2), Field(w, 13, 2))
  {
    hide Field, Put, BasicRate, RateMode, RateId;
    var phy := !BasicRate(f) && f.ht;
    var a := Put(w, 0, 5, f.wdnId);
    var c := RateMode(a, f);
    var d := When(phy, c, 12, 1, f.bw);
    PutEffect(w, 0, 5, f.wdnId);
    RateModeDecodes(a, f);
    PutEffect(c, 12, 1, f.bw);
    PutEffect(d, 13, 2, f.sc);
  }

  /** The table's entries fit their field whole; above the table the byte behind it is taken. */
  lemma TableFits(f: Frame)
    ensures if f.raid <= 8 then RateId(f) % Pow2(3) == RAID_TABLE[f.raid] else RateId(f) == f.behind
  {
    assert Pow2(3) == 8;
  }

  // ----- the checksum -----

  type Half = h: seq<bool> | |h| == 16 witness seq(16, i => false)

  function Zero(): Half {
    seq(16, i => false)
  }

  function Xor(a: Half, b: Half): Half {
    seq(16, i requires 0 <= i < 16 => a[i] != b[i])
  }

  /** The half-words of the descriptor in memory order: low half first. */
  function HalfAt(d: Desc, j: nat): Half
    requires j < 10
  {
    if j % 2 == 0 then d[j / 2][..16] else d[j / 2][16..]
  }

  /** The exclusive or of the first `n` half-words. */
  function XorHalves(d: Desc, n: nat): Half
    requires n <= 10
  {
    if n == 0 then Zero() else Xor(XorHalves(d, n - 1), HalfAt(d, n - 1))
  }

  function Widen(h: Half): Word32 {
    h + Zero()
  }

  function Summed(d: Desc): Desc {
    d[4 := SetBits(d[4], 16, 16, Widen(XorHalves(d, 9)))]
  }

  /** Only the upper half of the last word changes: it becomes the checksum. */
  lemma SummedHalves(d: Desc)
    ensures var r := Summed(d);
            && r[..4] == d[..4] && r[4][..16] == d[4][..16] && r[4][16..] == XorHalves(d, 9)
  {
    hide SetBits, XorHalves;
    var c := XorHalves(d, 9);
    SetBitsMeaning(d[4], 16, 16, Widen(c));
    var w := SetBits(d[4], 16, 16, Widen(c));
    assert forall i :: 0 <= i < 16 ==> w[..16][i] == d[4][i];
    assert forall i :: 0 <= i < 16 ==> w[16..][i] == w[16 + i] == Widen(c)[i] == c[i];
  }

  lemma {:induction false} SameHalves(a: Desc, b: Desc, n: nat)
    requires n <= 9 && a[..4] == b[..4] && a[4][..16] == b[4][..16]
    ensures XorHalves(a, n) == XorHalves(b, n)
  {
    if n > 0 {
      SameHalves(a, b, n - 1);
      if n <= 8 {
        assert a[(n - 1) / 2] == a[..4][(n - 1) / 2] == b[..4][(n - 1) / 2] == b[(n - 1) / 2];
      }
    }
  }

  /** The ten half-words of a checksummed descriptor cancel out. */
  lemma SumCancels(d: Desc)
    ensures XorHalves(Summed(d), 10) == Zero()
  {
    var r := Summed(d);
    SummedHalves(d);
    SameHalves(r, d, 9);
    assert HalfAt(r, 9) == XorHalves(d, 9);
    assert forall i :: 0 <= i < 16 ==> !XorHalves(r, 10)[i];
  }

  /** They cancel only for the right checksum: any other upper half leaves a remainder. */
  lemma CancelsOnlyIfSummed(d: Desc)
    requires XorHalves(d, 10) == Zero()
    ensures Summed(d) == d
  {
    hide SetBits, Widen;
    var r := Summed(d);
    SummedHalves(d);
    assert HalfAt(d, 9) == XorHalves(d, 9) by {
      forall i | 0 <= i < 16 ensures HalfAt(d, 9)[i] == XorHalves(d, 9)[i] {
        assert XorHalves(d, 10)[i] == (XorHalves(d, 9)[i] != HalfAt(d, 9)[i]);
        assert !Zero()[i];
      }
    }
    assert r[4] == r[4][..16] + r[4][16..];
    assert d[4] == d[4][..16] + d[4][16..];
    assert d == d[..4] + [d[4]] && r == r[..4] + [r[4]];
  }

  /** A field of the last word below the checksum is not touched by it. */
  lemma SummedField(d: Desc, o: nat, l: nat)
    requires 1 <= l && o + l <= 16
    ensures Field(Summed(d)[4], o, l) == Field(d[4], o, l)
  {
    ReadOther(d[4], 16, 16, Widen(XorHalves(d, 9)), o, l);
  }

  // ----- the code -----

  /** The write macro on the buffer. */
  method SetField(d: array<Word32>, k: nat, ofs: nat, len: nat, v: nat)
    requires d.Length == 5 && k < 5 && 1 <= len <= 32
    modifies d
    ensures d[k] == Put(old(d[k]), ofs, len, v)
    ensures forall i :: 0 <= i < 5 && i != k ==> d[i] == old(d[i])
  {
    d[k] := SetBits(d[k], ofs, len, Bits(v));
  }

  method FillProtection(d: array<Word32>, f: Frame)
    requires d.Length == 5
    modifies d
    ensures d[2] == Protection(old(d[2]), f)
    ensures d[0] == old(d[0]) && d[1] == old(d[1]) && d[3] == old(d[3]) && d[4] == old(d[4])
  {
    hide Put;
    SetField(d, 2, 27, 2, 0);
    if f.vcs == RTS_CTS {
      SetField(d, 2, 27, 2, 1);
    } else if f.vcs == CTS_TO_SELF {
      SetField(d, 2, 27, 2, 2);
    }
    if f.vcs != 0 {
      if f.shortPreamble {
        SetField(d, 2, 29, 1, 1);
      }
      if f.ht {
        SetField(d, 2, 30, 2, f.sc);
      }
    }
  }

  /** Aggregation, channel and rate bits, which words 2, 3 and 4 share. */
  method FillRate(d: array<Word32>, f: Frame)
    requires d.Length == 5
    modifies d
    ensures d[0] == old(d[0]) && d[1] == old(d[1])
    ensures d[2] == Rate(old(d[2]), f) && d[3] == Aggregation(old(d[3]), f)
    ensures var phy := !BasicRate(f) && f.ht;
            d[4] == When(phy, When(phy, old(d[4]), 12, 1, f.bw), 13, 2, f.sc)
  {
    hide Put;
    if !BasicRate(f) {
      if f.ampdu {
        SetField(d, 3, 0, 1, 1);
      } else {
        SetField(d, 3, 19, 1, 1);
      }
      if f.ht {
        SetField(d, 4, 12, 1, f.bw);
        SetField(d, 4, 13, 2, f.sc);
      }
      SetField(d, 2, 16, 1, 0);
    } else {
      SetField(d, 3, 19, 1, 1);
      SetField(d, 2, 16, 1, 1);
      if f.shortPreamble {
        SetField(d, 2, 17, 1, 1);
      }
      SetField(d, 2, 16, 1, 1);
      if f.fixRate {
        SetField(d, 2, 18, 7, f.hwRate);
      } else {
        SetField(d, 2, 18, 7, DESC_RATE1M);
        if f.p2p {
          SetField(d, 2, 18, 7, DESC_RATE6M);
        }
      }
    }
  }

  /** The writes that every data frame needs. */
  method FillHead(d: array<Word32>, f: Frame)
    requires d.Length == 5
    modifies d
    ensures d[0] == Put(Put(old(d[0]), 0, 2, TYPE_DATA), 19, 12, f.seqnum)
    ensures d[1] == old(d[1]) && d[2] == old(d[2])
    ensures d[3] == Put(Put(old(d[3]), 6, 5, f.qsel), 3, 3, f.sec)
    ensures d[4] == RateMode(Put(old(d[4]), 0, 5, f.wdnId), f)
  {
    hide Put, RateId;
    SetField(d, 0, 0, 2, TYPE_DATA);
    SetField(d, 4, 0, 5, f.wdnId);
    if f.raid <= 8 {
      SetField(d, 4, 5, 1, 0);
      SetField(d, 4, 6, 3, RateId(f));
    } else {
      SetField(d, 4, 5, 1, 1);
      SetField(d, 4, 9, 3, RateId(f));
    }
    SetField(d, 3, 6, 5, f.qsel);
    SetField(d, 0, 19, 12, f.seqnum);
    SetField(d, 3, 3, 3, f.sec);
  }

  /** Count, report, length and the address and sequence flags. */
  method FillTail(d: array<Word32>, f: Frame)
    requires d.Length == 5
    modifies d
    ensures d[0] == When(!f.qos, old(d[0]), 18, 1, 1)
    ensures d[1] == Word1(old(d[1]), f)
    ensures d[2] == Put(old(d[2]), 0, 16, f.len)
    ensures d[3] == When(f.bmcast, When(f.report, Put(old(d[3]), 24, 8, f.aggNum), 21, 1, 1), 14, 1, 1)
    ensures d[4] == old(d[4])
  {
    hide Put;
    SetField(d, 3, 24, 8, f.aggNum);
    if f.report {
      SetField(d, 3, 21, 1, 1);
      SetField(d, 1, 16, 12, f.txseq);
    }
    SetField(d, 2, 0, 16, f.len);
    if f.bmcast {
      SetField(d, 3, 14, 1, 1);
    }
    if !f.qos {
      SetField(d, 0, 18, 1, 1);
    }
  }

  method Fill(d: array<Word32>, f: Frame)
    requires d.Length == 5
    modifies d
    ensures d[..] == Filled(old(d[..]), f)
  {
    hide Put, Rate, Protection, Aggregation, When, RateMode;
    if !f.data {
      return;
    }
    FillHead(d, f);
    FillProtection(d, f);
    FillRate(d, f);
    FillTail(d, f);
  }

  method Checksum(d: array<Word32>)
    requires d.Length == 5
    modifies d
    ensures d[..] == Summed(old(d[..]))
    ensures XorHalves(d[..], 10) == Zero()
  {
    var sum: Half := Zero();
    for j := 0 to 9
      invariant sum == XorHalves(d[..], j) && d[..] == old(d[..])
    {
      sum := Xor(sum, if j % 2 == 0 then d[j / 2][..16] else d[j / 2][16..]);
    }
    SumCancels(d[..]);
    d[4] := SetBits(d[4], 16, 16, Widen(sum));
  }

  /** The descriptor of a data frame: filled, then checksummed. */
  method Update(d: array<Word32>, f: Frame)
    requires d.Length == 5
    modifies d
    ensures d[..] == Summed(Filled(old(d[..]), f)) && XorHalves(d[..], 10) == Zero()
  {
    hide Filled, Summed, XorHalves;
    Fill(d, f);
    Checksum(d);
  }

  /** Every bit but those of the aggregation count and of the checksum is the same. */
  ghost predicate SameElsewhere(a: Desc, b: Desc) {
    && a[..3] == b[..3]
    && (forall i :: 0 <= i < 24 ==> a[3][i] == b[3][i])
    && a[4][..16] == b[4][..16]
  }

  /** Re-filling the aggregation count changes that field and the checksum, and nothing else. */
  method AggNumFill(d: array<Word32>, agg: nat)
    requires d.Length == 5
    modifies d
    ensures Field(d[3], 24, 8) == agg % Pow2(8)
    ensures SameElsewhere(d[..], old(d[..]))
    ensures XorHalves(d[..], 10) == Zero()
  {
    hide Field, SetBits, XorHalves, GetBits, Put;
    ghost var was := d[..];
    SetField(d, 3, 24, 8, agg);
    ghost var mid := d[..];
    FieldReadBack(was[3], 24, 8, agg);
    assert forall i :: 0 <= i < 24 ==> mid[3][i] == was[3][i] by { PutBelow(was[3], agg); }
    Checksum(d);
    SummedHalves(mid);
    assert d[3] == d[..][..4][3] == mid[3];
    assert d[..][..3] == mid[..4][..3];
  }

  lemma PutBelow(w: Word32, v: nat)
    ensures forall i :: 0 <= i < 24 ==> Put(w, 24, 8, v)[i] == w[i]
  {
    hide SetBits;
    SetBitsMeaning(w, 24, 8, Bits(v));
  }

  // ----- the whole descriptor -----

  /** The fields as the hardware reads them. */
  datatype Fields = Fields(kind: nat, hwSeq: nat, seqnum: nat, swDefine: nat,
                           len: nat, useRate: nat, short: nat, rate: nat, vcs: nat, rtsShort: nat, rtsSc: nat,
                           agg: nat, sec: nat, qsel: nat, bmc: nat, aggBreak: nat, report: nat, aggNum: nat,
                           macId: nat, rateMode: nat, rateId: nat, adaptiveId: nat, bw: nat, sc: nat)

  function Decode(d: Desc): Fields {
    Fields(Field(d[0], 0, 2), Field(d[0], 18, 1), Field(d[0], 19, 12), Field(d[1], 16, 12),
           Field(d[2], 0, 16), Field(d[2], 16, 1), Field(d[2], 17, 1), Field(d[2], 18, 7),
           Field(d[2], 27, 2), Field(d[2], 29, 1), Field(d[2], 30, 2),
           Field(d[3], 0, 1), Field(d[3], 3, 3), Field(d[3], 6, 5), Field(d[3], 14, 1), Field(d[3], 19, 1),
           Field(d[3], 21, 1), Field(d[3], 24, 8),
           Field(d[4], 0, 5), Field(d[4], 5, 1), Field(d[4], 6, 3), Field(d[4], 9, 3), Field(d[4], 12, 1),
           Field(d[4], 13, 2))
  }

  function Flag(c: bool): nat {
    if c then 1 else 0
  }

  /** What the frame asks for, each value cut to its field. */
  function Intended(f: Frame): Fields {
    var basic := BasicRate(f);
    Fields(TYPE_DATA, Flag(!f.qos), f.seqnum % Pow2(12), Written(f.report, f.txseq % Pow2(12), 0),
           f.len % Pow2(16), Flag(basic), Flag(basic && f.shortPreamble),
           if !basic then 0 else if f.fixRate then f.hwRate % Pow2(7)
           else if f.p2p then DESC_RATE6M else DESC_RATE1M,
           if f.vcs == RTS_CTS then 1 else if f.vcs == CTS_TO_SELF then 2 else 0,
           Flag(f.vcs != 0 && f.shortPreamble), Written(f.vcs != 0 && f.ht, f.sc % Pow2(2), 0),
           Flag(!basic && f.ampdu), f.sec % Pow2(3), f.qsel % Pow2(5), Flag(f.bmcast), Flag(basic || !f.ampdu),
           Flag(f.report), f.aggNum % Pow2(8),
           f.wdnId % Pow2(5), Flag(f.raid > 8), if f.raid <= 8 then RAID_TABLE[f.raid] else 0,
           Written(f.raid > 8, f.behind % Pow2(3), 0), Written(!basic && f.ht, f.bw % Pow2(1), 0),
           Written(!basic && f.ht, f.sc % Pow2(2), 0))
  }

  lemma ZeroField(o: nat, l: nat)
    requires 1 <= l && o + l <= 32
    ensures Field(Bits(0), o, l) == 0
  {
    ZeroDigits(32);
    GetBitsMeaning(Bits(0), o, l);
    NumberPadded(GetBits(Bits(0), o, l), 0);
  }

  lemma {:induction false} ZeroDigits(n: nat)
    ensures forall i :: 0 <= i < n ==> !Digits(0, n)[i]
  {
    if n > 0 {
      ZeroDigits(n - 1);
    }
  }

  /** The checksum leaves every field of the descriptor as it was. */
  lemma SummedDecodes(d: Desc)
    ensures Decode(Summed(d)) == Decode(d)
  {
    hide Field, Summed;
    SummedHalves(d);
    var r := Summed(d);
    assert r[0] == r[..4][0] && r[1] == r[..4][1] && r[2] == r[..4][2] && r[3] == r[..4][3];
    SummedField(d, 0, 5);
    SummedField(d, 5, 1);
    SummedField(d, 6, 3);
    SummedField(d, 9, 3);
    SummedField(d, 12, 1);
    SummedField(d, 13, 2);
  }

  /** A data frame's descriptor, filled into a cleared buffer and checksummed, decodes to what the
      frame asked for. */
  lemma DescriptorDecodes(f: Frame)
    requires f.data
    ensures Decode(Summed(Filled(seq(5, i => Bits(0)), f))) == Intended(f)
  {
    hide Field, Summed, Word0, Word1, Word2, Word3, Word4, BasicRate, RateId, Bits;
    var z: Desc := seq(5, i => Bits(0));
    var d := Filled(z, f);
    SummedDecodes(d);
    Word0Decodes(z[0], f);
    Word1Decodes(z[1], f);
    Word2Decodes(z[2], f);
    Word3Decodes(z[3], f);
    Word4Decodes(z[4], f);
    TableFits(f);
    ZeroField(18, 1);
    ZeroField(16, 12);
    ZeroField(17, 1);
    ZeroField(18, 7);
    ZeroField(29, 1);
    ZeroField(30, 2);
    ZeroField(0, 1);
    ZeroField(14, 1);
    ZeroField(19, 1);
    ZeroField(21, 1);
    ZeroField(6, 3);
    ZeroField(9, 3);
    ZeroField(12, 1);
    ZeroField(13, 2);
  }

  // ----- where the rate fields come from -----

  /** The rate table number of a network: the bands it speaks, and for all three whether its channel is
      wide. Anything else counts as the last. */
  function RaidOf(b: bool, g: bool, n: bool, wide: bool): nat {
    if n then if b && g then if wide then 1 else 3 else 5
    else if b && g then 6
    else if g then 7
    else if b then 8
    else 1
  }

  /** The chip numbers the tables by what the network can do: 802.11b, g, both, n, and all three on a
      narrow and on a wide channel. */
  lemma RateIdByNetwork(f: Frame, b: bool, g: bool, n: bool, wide: bool)
    requires f.raid == RaidOf(b, g, n, wide) && (b || g || n)
    ensures RateId(f) == if n then if b && g then if wide then 5 else 4 else 3
                         else if b && g then 2 else if g then 1 else 0
  {
  }

  /** Key frames, address resolution, WAPI and configuration frames, and everything under a fixed rate,
      choose their rate themselves; no other frame does. */
  lemma ChoosesRate(f: Frame)
    requires f.data
    ensures var d := Decode(Summed(Filled(seq(5, i => Bits(0)), f)));
            && (d.useRate == 1 <==> f.etherType in {0x888E, 0x0806, 0x88B4} || f.dhcp || f.fixRate)
            && (d.useRate == 1 && !f.fixRate ==> d.rate == if f.p2p then DESC_RATE6M else DESC_RATE1M)
  {
    hide Decode, Summed, Filled;
    DescriptorDecodes(f);
  }
}
