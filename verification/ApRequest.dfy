/** The association request: the walk over its elements in the message buffer, and what the access
    point accepts. */
module ApRequest {
  import opened Bytes
  import opened ApMessage
  import opened LinkCipher
  import opened SecurityIe
  import Elements

  // ----- configuration -----

  const OPEN := 0
  const SHARED := 1
  const DOT1X := 2
  const AUTO := 3

  /** What the code finds where it reads what no one wrote: unassigned outputs of the cipher parsers,
      and the bytes behind a WMM element that ends early. */
  datatype Stray = Stray(group: Ciphers, pairwise: Ciphers, wmm: bool)

  /** What it finds at each element of one walk, in order; nothing where no more is given. */
  type Strays = seq<Stray>

  function StrayAt(st: Strays, k: nat): Stray {
    if k < |st| then st[k] else Stray({}, {}, false)
  }

  /** The access point's security and network settings. `hookMarks` says that the operating system's
      disassociation hook overwrites the station's state, as the cfg80211 one does. `pointer` is the
      size of a pointer on the machine. */
  datatype Config = Config(
    authAlgo: nat, wepPrivacy: bool, keys: WepKeys, ssid: seq<byte>, rates: seq<byte>,
    rsnGroup: Ciphers, rsnPairwise: Ciphers, wpaMulticast: Ciphers, wpaUnicast: Ciphers,
    ht: bool, hookMarks: bool, pointer: nat)

  /** What association recorded. `spilt` says that a copy of an element has run past its field, into
      the fields behind it, the cipher flags among them. `granted` keeps the accepted request and
      `found` what was found unwritten in it. The code has no such fields and no step reads them. */
  datatype Choice = Choice(rates: seq<byte>, extRates: seq<byte>, rsn: bool, rsnPairwise: Ciphers,
                           wpa: bool, wpaUnicast: Ciphers, wmm: bool, ht: bool, spilt: bool,
                           granted: Msg, found: Strays)

  // ----- the walk over the buffer -----

  const ID_SSID := 0
  const ID_RATES := 1
  const ID_HT_CAPABILITY := 45
  const ID_RSN := 48
  const ID_EXT_RATES := 50
  const ID_HT_OPERATION := 61
  const ID_VENDOR := 221

  /** The element's data are looked at. */
  predicate Known(id: byte) {
    id in {ID_SSID, ID_RATES, ID_HT_CAPABILITY, ID_RSN, ID_EXT_RATES, ID_HT_OPERATION, ID_VENDOR}
  }

  /** The elements visited, where the walk stopped, and whether all it looked at lay in the buffer. */
  datatype Walked = Walked(es: seq<Elements.Ie>, stop: nat, inside: bool)

  /** Walk from `ofs` while it is below `end`. The walk knows the frame's length only from `end`; what
      it reads behind that is left over from earlier uses of the buffer. */
  function WalkFrom(b: seq<byte>, ofs: nat, end: nat): Walked
    decreases end - ofs
  {
    if ofs >= end then Walked([], ofs, true)
    else if ofs + 2 > |b| then Walked([], ofs, false)
    else
      var next := ofs + 2 + b[ofs + 1];
      if next > |b| && Known(b[ofs]) then Walked([], ofs, false)
      else
        var w := WalkFrom(b, next, end);
        w.(es := [ElementAt(b, ofs)] + w.es)
  }

  function ElementAt(b: seq<byte>, ofs: nat): Elements.Ie
    requires ofs + 2 <= |b|
  {
    var next := ofs + 2 + b[ofs + 1];
    Elements.Raw(b[ofs], b[ofs + 2..if next <= |b| then next else |b|])
  }

  /** Where the elements of an association or a reassociation request start. */
  function Start(b: seq<byte>): nat {
    if |b| > 0 && b[0] / 4 == 0 then 28 else 34
  }

  /** The length of the elements is computed in sixteen bits, so it wraps on a shorter frame. */
  function End(m: Msg): nat {
    Start(m.bytes) + (m.len - Start(m.bytes)) % 0x10000
  }

  function WalkOf(m: Msg): Walked {
    WalkFrom(m.bytes, Start(m.bytes), End(m))
  }

  /** The frame's own bytes from the first element on. */
  function Own(m: Msg): seq<byte>
    requires Start(m.bytes) <= m.len <= |m.bytes|
  {
    m.bytes[Start(m.bytes)..m.len]
  }

  lemma SliceOf(b: seq<byte>, ofs: nat, next: nat, end: nat)
    requires ofs + 2 <= next <= end <= |b|
    ensures |b[ofs..end]| == end - ofs && b[ofs..end][next - ofs..] == b[next..end]
    ensures b[ofs..end][0] == b[ofs] && b[ofs..end][1] == b[ofs + 1]
    ensures b[ofs..end][2..next - ofs] == b[ofs + 2..next]
  {
    var x, y := b[ofs..end][2..next - ofs], b[ofs + 2..next];
    assert forall i :: 0 <= i < |y| ==> x[i] == b[ofs..end][2 + i] == b[ofs + 2 + i] == y[i];
  }

  /** An element that starts at `at` is looked at outside the buffer. */
  predicate Outside(b: seq<byte>, at: nat) {
    at + 2 > |b| || (Known(b[at]) && at + 2 + b[at + 1] > |b|)
  }

  /** The walk visits the whole elements, and then the one that is cut off, if it can be looked at
      inside the buffer. */
  ghost predicate WalksWhole(b: seq<byte>, end: nat, w: Walked, c: Elements.Cut) {
    && |c.rest| <= end <= |b|
    && var at := end - |c.rest|;
    if |c.rest| == 0 then w == Walked(c.es, end, true)
    else if Outside(b, at) then w.es == c.es && !w.inside
    else at + 2 <= |b| && w.es == c.es + [ElementAt(b, at)] && w.inside && w.stop > end
  }

  lemma OneMore(b: seq<byte>, end: nat, w: Walked, c: Elements.Cut, e: Elements.Ie)
    requires WalksWhole(b, end, w, c)
    ensures WalksWhole(b, end, w.(es := [e] + w.es), Elements.Cut([e] + c.es, c.rest))
  {
    hide Outside, ElementAt;
    var at := end - |c.rest|;
    if |c.rest| > 0 && !Outside(b, at) {
      assert [e] + (c.es + [ElementAt(b, at)]) == [e] + c.es + [ElementAt(b, at)];
    }
  }

  lemma {:induction false} WalkIsWhole(b: seq<byte>, ofs: nat, end: nat)
    requires ofs <= end <= |b|
    ensures WalksWhole(b, end, WalkFrom(b, ofs, end), Elements.Whole(b[ofs..end]))
    decreases end - ofs
  {
    hide WalkFrom, ElementAt, WalksWhole;
    if ofs + 2 <= end && ofs + 2 + b[ofs + 1] <= end {
      var next := ofs + 2 + b[ofs + 1];
      WalkIsWhole(b, next, end);
      OneWalked(b, ofs, end);
      OneMore(b, end, WalkFrom(b, next, end), Elements.Whole(b[next..end]), ElementAt(b, ofs));
    } else {
      CutIsWalked(b, ofs, end);
    }
  }

  /** One whole element of the walk is one of the list. */
  lemma OneWalked(b: seq<byte>, ofs: nat, end: nat)
    requires ofs + 2 <= end <= |b| && ofs + 2 + b[ofs + 1] <= end
    ensures var next := ofs + 2 + b[ofs + 1];
            var w, c := WalkFrom(b, next, end), Elements.Whole(b[next..end]);
            && WalkFrom(b, ofs, end) == w.(es := [ElementAt(b, ofs)] + w.es)
            && Elements.Whole(b[ofs..end]) == Elements.Cut([ElementAt(b, ofs)] + c.es, c.rest)
  {
    hide ElementAt, WalkFrom;
    StepWalked(b, ofs, end);
    StepWhole(b, ofs, end);
  }

  lemma StepWalked(b: seq<byte>, ofs: nat, end: nat)
    requires ofs < end && ofs + 2 <= |b| && ofs + 2 + b[ofs + 1] <= |b|
    ensures var w := WalkFrom(b, ofs + 2 + b[ofs + 1], end);
            WalkFrom(b, ofs, end) == w.(es := [ElementAt(b, ofs)] + w.es)
  {
    hide ElementAt, Known;
  }

  lemma StepWhole(b: seq<byte>, ofs: nat, end: nat)
    requires ofs + 2 <= end <= |b| && ofs + 2 + b[ofs + 1] <= end
    ensures var c := Elements.Whole(b[ofs + 2 + b[ofs + 1]..end]);
            Elements.Whole(b[ofs..end]) == Elements.Cut([ElementAt(b, ofs)] + c.es, c.rest)
  {
    hide ElementAt, Elements.Whole, Elements.EncodeOne;
    var next := ofs + 2 + b[ofs + 1];
    var e, t := ElementAt(b, ofs), b[ofs..end];
    SliceOf(b, ofs, next, end);
    ElementOf(b, ofs);
    Elements.OneThenRest(t, next - ofs - 2);
    Elements.WholeOne(e, b[next..end]);
  }

  lemma ElementOf(b: seq<byte>, ofs: nat)
    requires ofs + 2 <= |b| && ofs + 2 + b[ofs + 1] <= |b|
    ensures ElementAt(b, ofs) == Elements.Raw(b[ofs], b[ofs + 2..ofs + 2 + b[ofs + 1]])
  {
  }

  lemma CutIsWalked(b: seq<byte>, ofs: nat, end: nat)
    requires ofs <= end <= |b| && (ofs + 2 <= end ==> ofs + 2 + b[ofs + 1] > end)
    ensures WalksWhole(b, end, WalkFrom(b, ofs, end), Elements.Whole(b[ofs..end]))
  {
    hide Known, ElementAt;
    var t := b[ofs..end];
    assert ofs + 2 <= end ==> t[1] == b[ofs + 1];
    assert Elements.Whole(t) == Elements.Cut([], t);
    if ofs < end && !Outside(b, ofs) {
      StopsBehind(b, ofs + 2 + b[ofs + 1], end);
      assert [] + [ElementAt(b, ofs)] == [ElementAt(b, ofs)];
    }
  }

  /** The elements, and perhaps one more that is not looked into. */
  ghost predicate VisitsWhole(es: seq<Elements.Ie>, whole: seq<Elements.Ie>) {
    es == whole || exists e: Elements.Ie :: !Known(e.id) && es == whole + [e]
  }

  lemma OneMoreVisited(e: Elements.Ie, es: seq<Elements.Ie>, whole: seq<Elements.Ie>)
    requires VisitsWhole(es, whole)
    ensures VisitsWhole([e] + es, [e] + whole)
  {
    hide Known;
    if es != whole {
      var x: Elements.Ie :| !Known(x.id) && es == whole + [x];
      assert [e] + (whole + [x]) == [e] + whole + [x];
    }
  }

  /** A walk without an end in reach visits the whole elements of the buffer, perhaps one more that it
      does not look into, and leaves it. */
  lemma {:induction false} WrappedLeaves(b: seq<byte>, ofs: nat, end: nat)
    requires ofs <= |b| && |b| + 255 < end
    ensures var w := WalkFrom(b, ofs, end);
            !w.inside && VisitsWhole(w.es, Elements.Whole(b[ofs..|b|]).es)
    decreases |b| - ofs
  {
    hide ElementAt, VisitsWhole;
    if ofs + 2 <= |b| && ofs + 2 + b[ofs + 1] <= |b| {
      hide WalkFrom;
      var next := ofs + 2 + b[ofs + 1];
      WrappedLeaves(b, next, end);
      OneWrapped(b, ofs, end);
      OneMoreVisited(ElementAt(b, ofs), WalkFrom(b, next, end).es, Elements.Whole(b[next..|b|]).es);
    } else {
      LastWrapped(b, ofs, end);
    }
  }

  lemma OneWrapped(b: seq<byte>, ofs: nat, end: nat)
    requires ofs + 2 <= |b| && ofs + 2 + b[ofs + 1] <= |b| < end
    ensures var next := ofs + 2 + b[ofs + 1];
            var w, c := WalkFrom(b, next, end), Elements.Whole(b[next..|b|]);
            && WalkFrom(b, ofs, end) == w.(es := [ElementAt(b, ofs)] + w.es)
            && Elements.Whole(b[ofs..|b|]) == Elements.Cut([ElementAt(b, ofs)] + c.es, c.rest)
  {
    hide ElementAt, WalkFrom;
    StepWalked(b, ofs, end);
    StepWhole(b, ofs, |b|);
  }

  lemma LastWrapped(b: seq<byte>, ofs: nat, end: nat)
    requires ofs <= |b| && |b| + 255 < end && (ofs + 2 <= |b| ==> ofs + 2 + b[ofs + 1] > |b|)
    ensures var w := WalkFrom(b, ofs, end);
            !w.inside && VisitsWhole(w.es, Elements.Whole(b[ofs..|b|]).es)
  {
    hide Known, ElementAt;
    var t := b[ofs..|b|];
    assert ofs + 2 <= |b| ==> t[1] == b[ofs + 1];
    assert Elements.Whole(t) == Elements.Cut([], t);
    if !Outside(b, ofs) {
      IdOf(b, ofs);
      assert [] + [ElementAt(b, ofs)] == [ElementAt(b, ofs)];
    }
  }

  lemma IdOf(b: seq<byte>, ofs: nat)
    requires ofs + 2 <= |b|
    ensures ElementAt(b, ofs).id == b[ofs]
  {
  }

  lemma StopsBehind(b: seq<byte>, ofs: nat, end: nat)
    requires ofs > end
    ensures WalkFrom(b, ofs, end) == Walked([], ofs, true)
  {
  }

  /** The request ends before its elements start, or its last element is cut off and runs past the
      buffer too, by the length byte that the buffer holds. */
  predicate Leaves(m: Msg)
    requires m.len <= |m.bytes|
  {
    || m.len < Start(m.bytes)
    || var rest := Elements.Whole(Own(m)).rest;
       |rest| > 0 && Outside(m.bytes, m.len - |rest|)
  }

  /** The whole elements in front of the place where a walk could leave the buffer. */
  function WholeOf(m: Msg): seq<Elements.Ie>
    requires m.len <= |m.bytes|
  {
    if m.len >= Start(m.bytes) then Elements.Whole(Own(m)).es
    else if Start(m.bytes) <= |m.bytes| then Elements.Whole(m.bytes[Start(m.bytes)..|m.bytes|]).es
    else []
  }

  /** The walk leaves the buffer exactly on such a request; it visits the frame's own elements exactly
      when they parse. */
  lemma WalkMeaning(m: Msg)
    requires InUse(m) && m.tag == AssocReq
    ensures WalkOf(m).inside <==> !Leaves(m)
    ensures m.len >= Start(m.bytes) ==>
              var p := Elements.Parse(Own(m));
              && (p.Elements? <==> WalkOf(m).inside && WalkOf(m).stop == m.len)
              && (p.Elements? ==> WalkOf(m).es == p.es)
    ensures Leaves(m) ==> VisitsWhole(WalkOf(m).es, WholeOf(m))
  {
    hide WalkFrom, Known, Outside, ElementAt;
    var start := Start(m.bytes);
    if m.len < start {
      WrappedLeaves(m.bytes, start, End(m));
    } else {
      OwnWalked(m);
    }
  }

  lemma OwnWalked(m: Msg)
    requires Start(m.bytes) <= m.len <= |m.bytes| && |m.bytes| < 0x10000
    ensures WalkOf(m).inside <==> !Leaves(m)
    ensures var p := Elements.Parse(Own(m));
            && (p.Elements? <==> WalkOf(m).inside && WalkOf(m).stop == m.len)
            && (p.Elements? ==> WalkOf(m).es == p.es)
    ensures Leaves(m) ==> WalkOf(m).es == WholeOf(m)
  {
    hide WalkFrom, Outside, ElementAt;
    assert End(m) == m.len;
    WalkIsWhole(m.bytes, Start(m.bytes), m.len);
    Elements.ParseIsWhole(Own(m));
  }

  /** A request that reaches its elements and has at most 540 bytes keeps the walk inside. */
  lemma ShortStays(m: Msg)
    requires InUse(m) && m.tag == AssocReq && Start(m.bytes) <= m.len <= 540
    ensures WalkOf(m).inside
  {
    hide Known;
    WalkMeaning(m);
    Elements.WholeSplits(Own(m));
  }

  // ----- what the elements say -----

  /** An element as the access point takes it. */
  datatype Element =
    | Ssid(name: seq<byte>)
    | Rates(data: seq<byte>)
    | ExtRates(data: seq<byte>)
    | Rsn(parsed: bool, group: Ciphers, pairwise: Ciphers)
    | Vendor(wpa: int, multicast: Ciphers, unicast: Ciphers, wmm: int, size: nat)
    | HtCapability(size: nat)
    | HtOperation(size: nat)
    | Other

  function Found(o: Output, stray: Ciphers): Ciphers {
    match o
    case Unassigned => stray
    case Assigned(ciphers) => ciphers
  }

  function Interpret(t: Stray, e: Elements.Ie): Element {
    if e.id == ID_SSID then Ssid(e.data)
    else if e.id == ID_RATES then Rates(e.data)
    else if e.id == ID_EXT_RATES then ExtRates(e.data)
    else if e.id == ID_RSN then
      var r := ParseRsn(e.data);
      Rsn(r.code == 0, Found(r.group, t.group), Found(r.pairwise, t.pairwise))
    else if e.id == ID_VENDOR then
      var r := ParseWpa(e.data);
      var wmm := if |e.data| >= 4 then ParseWmm(e.data, t.wmm) else -3;
      Vendor(r.code, Found(r.group, t.group), Found(r.pairwise, t.pairwise), wmm, |e.data|)
    else if e.id == ID_HT_CAPABILITY then HtCapability(|e.data|)
    else if e.id == ID_HT_OPERATION then HtOperation(|e.data|)
    else Other
  }

  /** Element `k` of the walk and those behind it. */
  function Interpreted(st: Strays, k: nat, es: seq<Elements.Ie>): (r: seq<Element>)
    ensures |r| == |es|
  {
    seq(|es|, i requires 0 <= i < |es| => Interpret(StrayAt(st, k + i), es[i]))
  }

  const MAX_RATES := 8
  const MAX_EXT_RATES := 4

  /** The rate is one of the access point's, up to the basic-rate bit; a zero ends its list. */
  predicate Offered(rates: seq<byte>, x: byte) {
    rates != [] && rates[0] != 0 && (rates[0] % 128 == x % 128 || Offered(rates[1..], x))
  }

  /** A further rates element clears the bytes recorded so far, but not their number. */
  function Cleared(have: seq<byte>): seq<byte> {
    seq(|have|, _ => 0)
  }

  datatype Taken = Taken(rates: seq<byte>, ok: bool)

  /** Record the offered ones of some rates; a full array refuses. */
  function Take(cfg: Config, limit: nat, have: seq<byte>, data: seq<byte>): Taken
    decreases |data|
  {
    if data == [] then Taken(have, true)
    else if !Offered(cfg.rates, data[0]) then Take(cfg, limit, have, data[1..])
    else if |have| < limit then Take(cfg, limit, have + [data[0]], data[1..])
    else Taken(have, false)
  }

  const HT_CAPABILITY_SIZE := 26
  const WMM_SIZE := 24

  /** The copy of the element into the record, if there is one, stays in its field. The WMM copy takes
      the header too, and the field of the HT operation element is a pointer. */
  predicate CopyFits(cfg: Config, e: Element) {
    match e
    case HtCapability(size) => size <= HT_CAPABILITY_SIZE
    case HtOperation(size) => size <= cfg.pointer
    case Vendor(_, _, _, wmm, size) => wmm == 0 ==> 2 + size <= WMM_SIZE
    case _ => true
  }

  /** Copy an accepted element into the record. */
  function Copied(cfg: Config, c: Choice, e: Element): Choice {
    c.(spilt := c.spilt || !CopyFits(cfg, e))
  }

  datatype Scanned = Scanned(choice: Choice, ok: bool)

  /** One element of the request; `ok` is false when it makes the access point refuse. */
  function ScanElement(cfg: Config, c: Choice, e: Element): Scanned {
    var r := Checked(cfg, c, e);
    if r.ok then Scanned(Copied(cfg, r.choice, e), true) else r
  }

  /** What is checked and recorded. */
  function Checked(cfg: Config, c: Choice, e: Element): Scanned {
    match e
    case Ssid(name) => Scanned(c, name == cfg.ssid)
    case Rates(data) =>
      var t := Take(cfg, MAX_RATES, Cleared(c.rates), data);
      Scanned(c.(rates := t.rates), |data| <= MAX_RATES && t.ok && t.rates != [])
    case ExtRates(data) =>
      var t := Take(cfg, MAX_EXT_RATES, Cleared(c.extRates), data);
      Scanned(c.(extRates := t.rates), |data| <= MAX_EXT_RATES && t.ok && t.rates != [])
    case Rsn(parsed, group, pairwise) =>
      if !parsed || group != cfg.rsnGroup then Scanned(c, false)
      else
        var common := pairwise * cfg.rsnPairwise;
        if common == {} then Scanned(c.(rsnPairwise := {}), false)
        else Scanned(c.(rsnPairwise := common, rsn := true), true)
    case Vendor(wpa, multicast, unicast, wmm, _) =>
      if -3 <= wpa < 0 then Scanned(c, false)
      else if wpa == 0 && multicast != cfg.wpaMulticast then Scanned(c, false)
      else if wpa == 0 && unicast * cfg.wpaUnicast == {} then Scanned(c.(wpaUnicast := {}), false)
      else
        var c1 := if wpa == 0 then c.(wpaUnicast := unicast * cfg.wpaUnicast, wpa := true) else c;
        if -2 <= wmm < 0 then Scanned(c1, false)
        else Scanned(if wmm == 0 then c1.(wmm := true) else c1, true)
    case HtCapability(_) => if cfg.ht then Scanned(c.(ht := true), true) else Scanned(c, false)
    case HtOperation(_) => Scanned(c, cfg.ht)
    case Other => Scanned(c, true)
  }

  /** The elements in order, up to the first that is refused. */
  function Scan(cfg: Config, c: Choice, es: seq<Element>): Scanned
    decreases |es|
  {
    if es == [] then Scanned(c, true)
    else
      var r := ScanElement(cfg, c, es[0]);
      if r.ok then Scan(cfg, r.choice, es[1..]) else r
  }

  function Reset(c: Choice): Choice {
    c.(rates := [], extRates := [], rsnPairwise := {}, wmm := false, wpa := false, rsn := false,
       spilt := false)
  }

  /** The scan of a request, from the reset choice on. A walk that leaves the buffer counts as refused. */
  function AssocScan(cfg: Config, st: Strays, c: Choice, m: Msg): Scanned {
    ScanWalk(cfg, st, 0, Reset(c), WalkOf(m))
  }

  function ScanWalk(cfg: Config, st: Strays, k: nat, c: Choice, w: Walked): Scanned {
    var r := Scan(cfg, c, Interpreted(st, k, w.es));
    Scanned(r.choice, r.ok && w.inside)
  }

  // ----- what is accepted -----

  /** A recorded cipher choice is a non-empty part of what the access point offers, unless a copy has
      run over the flags. */
  predicate CiphersOk(cfg: Config, c: Choice) {
    && (!c.spilt && c.rsn ==> c.rsnPairwise != {} && c.rsnPairwise <= cfg.rsnPairwise)
    && (!c.spilt && c.wpa ==> c.wpaUnicast != {} && c.wpaUnicast <= cfg.wpaUnicast)
    && (c.ht ==> cfg.ht)
    && BothRatesOk(cfg, c)
  }

  predicate BothRatesOk(cfg: Config, c: Choice) {
    RatesOk(cfg, c.rates, MAX_RATES) && RatesOk(cfg, c.extRates, MAX_EXT_RATES)
  }

  /** Recorded rates fit their array and are the access point's, or cleared. */
  predicate RatesOk(cfg: Config, rates: seq<byte>, limit: nat) {
    |rates| <= limit && forall i :: 0 <= i < |rates| ==> rates[i] == 0 || Offered(cfg.rates, rates[i])
  }

  /** How many of some rates the access point offers. */
  function Matched(cfg: Config, data: seq<byte>): nat {
    if data == [] then 0 else (if Offered(cfg.rates, data[0]) then 1 else 0) + Matched(cfg, data[1..])
  }

  /** The offered rates in all rates elements, and in all extended ones. */
  function RateCount(cfg: Config, es: seq<Element>): nat {
    if es == [] then 0
    else (if es[0].Rates? then Matched(cfg, es[0].data) else 0) + RateCount(cfg, es[1..])
  }

  function ExtRateCount(cfg: Config, es: seq<Element>): nat {
    if es == [] then 0
    else (if es[0].ExtRates? then Matched(cfg, es[0].data) else 0) + ExtRateCount(cfg, es[1..])
  }

  /** An element the access point accepts, after elements with `r` offered rates and `x` extended ones:
      its own name, rates that it offers some of and has room for, matching ciphers, no HT it lacks. */
  predicate Acceptable(cfg: Config, e: Element, r: nat, x: nat) {
    match e
    case Ssid(name) => name == cfg.ssid
    case Rates(data) => |data| <= MAX_RATES && 0 < r + Matched(cfg, data) <= MAX_RATES
    case ExtRates(data) => |data| <= MAX_EXT_RATES && 0 < x + Matched(cfg, data) <= MAX_EXT_RATES
    case Rsn(parsed, group, pairwise) => parsed && group == cfg.rsnGroup && pairwise * cfg.rsnPairwise != {}
    case Vendor(wpa, multicast, unicast, wmm, _) =>
      && !(-3 <= wpa < 0) && !(-2 <= wmm < 0)
      && (wpa == 0 ==> multicast == cfg.wpaMulticast && unicast * cfg.wpaUnicast != {})
    case HtCapability(_) => cfg.ht
    case HtOperation(_) => cfg.ht
    case Other => true
  }

  /** Every element is acceptable after the ones before it. */
  predicate AllAcceptable(cfg: Config, es: seq<Element>) {
    forall i :: 0 <= i < |es| ==>
      Acceptable(cfg, es[i], RateCount(cfg, es[..i]), ExtRateCount(cfg, es[..i]))
  }

  /** The request is acceptable as its buffer reads: the walk stays inside it and every element it
      visits is acceptable. */
  predicate Grants(cfg: Config, st: Strays, m: Msg) {
    WalkOf(m).inside && AllAcceptable(cfg, Interpreted(st, 0, WalkOf(m).es))
  }

  lemma {:induction false} TakeMeaning(cfg: Config, limit: nat, have: seq<byte>, data: seq<byte>)
    requires RatesOk(cfg, have, limit)
    ensures var t := Take(cfg, limit, have, data);
            && RatesOk(cfg, t.rates, limit)
            && (t.ok <==> |have| + Matched(cfg, data) <= limit)
            && (t.ok ==> t.rates == have + Kept(cfg, data) && |t.rates| == |have| + Matched(cfg, data))
    decreases |data|
  {
    hide Offered;
    KeptSize(cfg, data);
    if data == [] {
      assert have + [] == have;
    } else {
      if !Offered(cfg.rates, data[0]) {
        TakeMeaning(cfg, limit, have, data[1..]);
      } else if |have| < limit {
        TakeMeaning(cfg, limit, have + [data[0]], data[1..]);
        assert have + ([data[0]] + Kept(cfg, data[1..])) == have + [data[0]] + Kept(cfg, data[1..]);
      }
    }
  }

  /** The offered ones of some rates, in order. */
  function Kept(cfg: Config, data: seq<byte>): seq<byte> {
    if data == [] then [] else (if Offered(cfg.rates, data[0]) then [data[0]] else []) + Kept(cfg, data[1..])
  }

  lemma {:induction false} KeptSize(cfg: Config, data: seq<byte>)
    ensures |Kept(cfg, data)| == Matched(cfg, data)
  {
    hide Offered;
    if data != [] {
      KeptSize(cfg, data[1..]);
    }
  }

  /** One element: accepted exactly when acceptable, and then the counts of recorded rates grow by
      what it matched. */
  lemma ElementMeaning(cfg: Config, c: Choice, e: Element)
    requires BothRatesOk(cfg, c)
    ensures var r := ScanElement(cfg, c, e);
            && (r.ok <==> Acceptable(cfg, e, |c.rates|, |c.extRates|))
            && (r.ok ==> BothRatesOk(cfg, r.choice)
                         && (CiphersOk(cfg, c) ==> CiphersOk(cfg, r.choice))
                         && |r.choice.rates| == |c.rates| + RateCount(cfg, [e])
                         && |r.choice.extRates| == |c.extRates| + ExtRateCount(cfg, [e]))
  {
    hide Checked, CopyFits, Acceptable, RateCount, ExtRateCount, RatesOk;
    CheckedMeaning(cfg, c, e);
  }

  lemma CheckedMeaning(cfg: Config, c: Choice, e: Element)
    requires BothRatesOk(cfg, c)
    ensures var r := Checked(cfg, c, e);
            && (r.ok <==> Acceptable(cfg, e, |c.rates|, |c.extRates|))
            && (r.ok ==> BothRatesOk(cfg, r.choice)
                         && (CiphersOk(cfg, c) ==> CiphersOk(cfg, r.choice))
                         && |r.choice.rates| == |c.rates| + RateCount(cfg, [e])
                         && |r.choice.extRates| == |c.extRates| + ExtRateCount(cfg, [e]))
  {
    hide Take, Offered, Matched;
    assert [e][1..] == [];
    match e
    case Rates(data) => TakeMeaning(cfg, MAX_RATES, Cleared(c.rates), data);
    case ExtRates(data) => TakeMeaning(cfg, MAX_EXT_RATES, Cleared(c.extRates), data);
    case _ =>
  }

  lemma {:induction false} CountsAppend(cfg: Config, a: seq<Element>, b: seq<Element>)
    ensures RateCount(cfg, a + b) == RateCount(cfg, a) + RateCount(cfg, b)
    ensures ExtRateCount(cfg, a + b) == ExtRateCount(cfg, a) + ExtRateCount(cfg, b)
  {
    if a == [] {
      assert a + b == b;
    } else {
      CountsAppend(cfg, a[1..], b);
      assert (a + b)[1..] == a[1..] + b;
    }
  }

  /** Element `i`, counted on from `r` and `x` rates recorded before the list. */
  predicate AcceptableAt(cfg: Config, es: seq<Element>, i: nat, r: nat, x: nat)
    requires i < |es|
  {
    Acceptable(cfg, es[i], r + RateCount(cfg, es[..i]), x + ExtRateCount(cfg, es[..i]))
  }

  lemma AcceptableShift(cfg: Config, es: seq<Element>, i: nat, r: nat, x: nat)
    requires 1 <= i < |es|
    ensures AcceptableAt(cfg, es, i, r, x)
            <==> AcceptableAt(cfg, es[1..], i - 1, r + RateCount(cfg, [es[0]]), x + ExtRateCount(cfg, [es[0]]))
  {
    hide Acceptable;
    CountsAppend(cfg, [es[0]], es[1..][..i - 1]);
    assert es[..i] == [es[0]] + es[1..][..i - 1];
  }

  lemma {:induction false} ScanMeaning(cfg: Config, c: Choice, es: seq<Element>)
    requires BothRatesOk(cfg, c)
    ensures Scan(cfg, c, es).ok && CiphersOk(cfg, c) ==> CiphersOk(cfg, Scan(cfg, c, es).choice)
    ensures Scan(cfg, c, es).ok <==>
            forall i :: 0 <= i < |es| ==> AcceptableAt(cfg, es, i, |c.rates|, |c.extRates|)
    decreases |es|
  {
    hide CiphersOk, BothRatesOk, ScanElement, Acceptable;
    if es == [] {
      return;
    }
    ElementMeaning(cfg, c, es[0]);
    var d := ScanElement(cfg, c, es[0]);
    assert es[..0] == [];
    assert d.ok <==> AcceptableAt(cfg, es, 0, |c.rates|, |c.extRates|);
    if d.ok {
      ScanMeaning(cfg, d.choice, es[1..]);
      forall i | 1 <= i < |es|
        ensures AcceptableAt(cfg, es, i, |c.rates|, |c.extRates|)
                <==> AcceptableAt(cfg, es[1..], i - 1, |d.choice.rates|, |d.choice.extRates|)
      {
        AcceptableShift(cfg, es, i, |c.rates|, |c.extRates|);
      }
      ShiftAll(cfg, es, |c.rates|, |c.extRates|, |d.choice.rates|, |d.choice.extRates|);
    }
  }

  lemma ShiftAll(cfg: Config, es: seq<Element>, r: nat, x: nat, r1: nat, x1: nat)
    requires es != [] && AcceptableAt(cfg, es, 0, r, x)
    requires forall i :: 1 <= i < |es| ==>
               (AcceptableAt(cfg, es, i, r, x) <==> AcceptableAt(cfg, es[1..], i - 1, r1, x1))
    ensures (forall i :: 0 <= i < |es| ==> AcceptableAt(cfg, es, i, r, x))
            <==> (forall i :: 0 <= i < |es| - 1 ==> AcceptableAt(cfg, es[1..], i, r1, x1))
  {
    hide AcceptableAt;
    if forall i :: 0 <= i < |es| ==> AcceptableAt(cfg, es, i, r, x) {
      forall i | 0 <= i < |es| - 1 ensures AcceptableAt(cfg, es[1..], i, r1, x1) {
        assert AcceptableAt(cfg, es, i + 1, r, x);
      }
    }
  }

  /** The choice a scan starts from. */
  lemma ResetOk(cfg: Config, c: Choice)
    ensures CiphersOk(cfg, c) ==> CiphersOk(cfg, Reset(c))
    ensures BothRatesOk(cfg, Reset(c)) && |Reset(c).rates| == 0 && |Reset(c).extRates| == 0 && !Reset(c).spilt
  {
  }

  /** What an accepted request leaves recorded is the access point's. */
  lemma ScanKeeps(cfg: Config, st: Strays, c: Choice, m: Msg)
    requires CiphersOk(cfg, c)
    ensures AssocScan(cfg, st, c, m).ok ==> CiphersOk(cfg, AssocScan(cfg, st, c, m).choice)
  {
    hide Scan, CiphersOk, Interpreted, WalkOf, Reset;
    ResetOk(cfg, c);
    ScanMeaning(cfg, Reset(c), Interpreted(st, 0, WalkOf(m).es));
  }

  /** From the reset choice, a list is accepted exactly when all of it is acceptable. */
  lemma ScanExact(cfg: Config, c: Choice, es: seq<Element>)
    ensures Scan(cfg, Reset(c), es).ok <==> AllAcceptable(cfg, es)
  {
    hide Scan, Acceptable, Reset;
    ResetOk(cfg, c);
    ScanMeaning(cfg, Reset(c), es);
    assert forall i :: 0 <= i < |es| ==>
      (AcceptableAt(cfg, es, i, 0, 0) <==>
       Acceptable(cfg, es[i], RateCount(cfg, es[..i]), ExtRateCount(cfg, es[..i])));
  }

  /** A request is accepted exactly when the walk over it stays inside the buffer and every element is
      acceptable. */
  lemma ScanAccepts(cfg: Config, st: Strays, c: Choice, m: Msg)
    ensures AssocScan(cfg, st, c, m).ok <==> Grants(cfg, st, m)
  {
    hide Scan, AllAcceptable, WalkOf, Interpreted, Reset;
    ScanExact(cfg, c, Interpreted(st, 0, WalkOf(m).es));
  }

  // ----- what goes wrong on the way -----

  /** The walk leaves the buffer before an element is refused. */
  predicate WalksOut(cfg: Config, st: Strays, c: Choice, m: Msg) {
    Scan(cfg, Reset(c), Interpreted(st, 0, WalkOf(m).es)).ok && !WalkOf(m).inside
  }

  lemma InterpretedAppend(st: Strays, k: nat, es: seq<Elements.Ie>, e: Elements.Ie)
    ensures Interpreted(st, k, es + [e]) == Interpreted(st, k, es) + [Interpret(StrayAt(st, k + |es|), e)]
  {
  }

  lemma UnknownAcceptable(cfg: Config, es: seq<Element>)
    ensures AllAcceptable(cfg, es + [Other]) <==> AllAcceptable(cfg, es)
  {
    hide Acceptable, RateCount, ExtRateCount;
    var more := es + [Other];
    assert forall i :: 0 <= i < |es| ==> more[i] == es[i] && more[..i] == es[..i];
    assert forall r, x :: Acceptable(cfg, Other, r, x) by { OtherAcceptable(cfg); }
  }

  lemma OtherAcceptable(cfg: Config)
    ensures forall r, x :: Acceptable(cfg, Other, r, x)
  {
  }

  lemma UnknownIsOther(t: Stray, e: Elements.Ie)
    requires !Known(e.id)
    ensures Interpret(t, e) == Other
  {
  }

  /** That happens exactly when the request leaves the buffer and the whole elements in front are
      acceptable. */
  lemma StraysExactly(cfg: Config, st: Strays, c: Choice, m: Msg)
    requires InUse(m) && m.tag == AssocReq
    ensures WalksOut(cfg, st, c, m) <==> Leaves(m) && AllAcceptable(cfg, Interpreted(st, 0, WholeOf(m)))
  {
    hide WalkOf, Leaves, Scan, Interpreted, AllAcceptable, Reset, WholeOf, Interpret;
    WalkMeaning(m);
    var es, whole := WalkOf(m).es, WholeOf(m);
    ScanExact(cfg, c, Interpreted(st, 0, es));
    if Leaves(m) && es != whole {
      var e: Elements.Ie :| !Known(e.id) && es == whole + [e];
      InterpretedAppend(st, 0, whole, e);
      UnknownIsOther(StrayAt(st, 0 + |whole|), e);
      UnknownAcceptable(cfg, Interpreted(st, 0, whole));
    }
  }

  lemma ElementSpills(cfg: Config, c: Choice, e: Element)
    ensures var r := ScanElement(cfg, c, e);
            r.choice.spilt <==> c.spilt || (r.ok && !CopyFits(cfg, e))
  {
    hide Checked, CopyFits;
    CheckedKeeps(cfg, c, e);
  }

  lemma CheckedKeeps(cfg: Config, c: Choice, e: Element)
    ensures Checked(cfg, c, e).choice.spilt == c.spilt
  {
    hide Take, Offered, Cleared;
  }

  /** A copy has run past its field after a scan exactly when an element that is too long for its
      field was reached and accepted. */
  lemma {:induction false} ScanSpills(cfg: Config, c: Choice, es: seq<Element>)
    ensures Scan(cfg, c, es).choice.spilt <==>
            c.spilt || exists i :: 0 <= i < |es| && !CopyFits(cfg, es[i]) && Scan(cfg, c, es[..i + 1]).ok
    decreases |es|
  {
    hide ScanElement, CopyFits;
    if |es| == 0 {
      return;
    }
    var r := ScanElement(cfg, c, es[0]);
    ElementSpills(cfg, c, es[0]);
    forall i | 0 <= i < |es|
      ensures Scan(cfg, c, es[..i + 1]).ok <==> r.ok && Scan(cfg, r.choice, es[1..][..i]).ok
    {
      assert es[..i + 1][0] == es[0] && es[..i + 1][1..] == es[1..][..i];
    }
    assert Scan(cfg, r.choice, es[1..][..0]).ok;
    if r.ok {
      ScanSpills(cfg, r.choice, es[1..]);
      SpillsShift(cfg, c, r.choice, es);
    }
  }

  lemma SpillsShift(cfg: Config, c: Choice, d: Choice, es: seq<Element>)
    requires es != [] && Scan(cfg, d, es[1..][..0]).ok
    requires forall i :: 0 <= i < |es| ==> (Scan(cfg, c, es[..i + 1]).ok <==> Scan(cfg, d, es[1..][..i]).ok)
    ensures (exists i :: 0 <= i < |es| && !CopyFits(cfg, es[i]) && Scan(cfg, c, es[..i + 1]).ok)
            <==> || !CopyFits(cfg, es[0])
                 || exists i :: 0 <= i < |es[1..]| && !CopyFits(cfg, es[1..][i]) && Scan(cfg, d, es[1..][..i + 1]).ok
  {
    hide Scan, CopyFits;
    if i :| 0 <= i < |es| && !CopyFits(cfg, es[i]) && Scan(cfg, c, es[..i + 1]).ok {
      if i > 0 {
        assert es[1..][i - 1] == es[i] && Scan(cfg, d, es[1..][..i - 1 + 1]).ok;
      }
    }
    if i :| 0 <= i < |es[1..]| && !CopyFits(cfg, es[1..][i]) && Scan(cfg, d, es[1..][..i + 1]).ok {
      assert es[i + 1] == es[1..][i] && Scan(cfg, c, es[..i + 1 + 1]).ok;
    }
    if !CopyFits(cfg, es[0]) {
      assert Scan(cfg, c, es[..0 + 1]).ok;
    }
  }

  /** Some element is too long for its field. */
  predicate Oversized(cfg: Config, es: seq<Element>) {
    exists i :: 0 <= i < |es| && !CopyFits(cfg, es[i])
  }

  /** Element `i` and all in front of it are acceptable. */
  predicate Reached(cfg: Config, es: seq<Element>, i: nat)
    requires i < |es|
  {
    AllAcceptable(cfg, es[..i + 1])
  }

  /** Some element is too long for its field, and it and all in front of it are acceptable. */
  predicate ReachesOversized(cfg: Config, es: seq<Element>) {
    exists i :: 0 <= i < |es| && !CopyFits(cfg, es[i]) && Reached(cfg, es, i)
  }

  lemma SpillsExactly(cfg: Config, st: Strays, c: Choice, m: Msg)
    ensures AssocScan(cfg, st, c, m).choice.spilt <==> ReachesOversized(cfg, Interpreted(st, 0, WalkOf(m).es))
  {
    hide Scan, AllAcceptable, CopyFits, Interpreted, WalkOf;
    var es := Interpreted(st, 0, WalkOf(m).es);
    ScanSpills(cfg, Reset(c), es);
    forall i | 0 <= i < |es| ensures Scan(cfg, Reset(c), es[..i + 1]).ok <==> Reached(cfg, es, i) {
      ScanExact(cfg, c, es[..i + 1]);
    }
  }

  /** On an accepted request every element is reached. */
  lemma AcceptedReaches(cfg: Config, es: seq<Element>)
    requires AllAcceptable(cfg, es)
    ensures ReachesOversized(cfg, es) <==> Oversized(cfg, es)
  {
    hide CopyFits, Acceptable;
    forall i | 0 <= i < |es| ensures Reached(cfg, es, i) {
      assert forall j :: 0 <= j <= i ==> es[..i + 1][j] == es[j] && es[..i + 1][..j] == es[..j];
    }
  }

  /** What an accepted request leaves in the record: a copy has run past its field exactly when some
      element is too long for its field. */
  lemma GrantedSpills(cfg: Config, st: Strays, c: Choice, m: Msg)
    requires Grants(cfg, st, m)
    ensures AssocScan(cfg, st, c, m).choice.spilt <==> Oversized(cfg, Interpreted(st, 0, WalkOf(m).es))
  {
    hide AssocScan, AllAcceptable, Interpreted, WalkOf, Oversized, ReachesOversized;
    SpillsExactly(cfg, st, c, m);
    AcceptedReaches(cfg, Interpreted(st, 0, WalkOf(m).es));
  }

  /** The copies in bytes: an HT capability element fits up to 26 bytes of data, an HT operation element up
      to the size of a pointer, a WMM element up to 22; no other element is copied. */
  lemma FitsInBytes(cfg: Config, t: Stray, e: Elements.Ie)
    ensures CopyFits(cfg, Interpret(t, e)) <==>
            && (e.id == 45 ==> |e.data| <= 26)
            && (e.id == 61 ==> |e.data| <= cfg.pointer)
            && (e.id == 221 && |e.data| >= 4 && ParseWmm(e.data, t.wmm) == 0 ==> |e.data| <= 22)
  {
    hide ParseWmm, ParseWpa, ParseRsn;
  }

  // ----- what is recorded -----

  predicate Speaks(e: Element, wpa: bool) {
    if wpa then e.Vendor? && e.wpa == 0 else e.Rsn?
  }

  predicate SaysWmm(e: Element) {
    e.Vendor? && e.wmm == 0
  }

  /** The flags after one accepted element. */
  lemma OneRecorded(cfg: Config, c: Choice, e: Element)
    ensures var r := ScanElement(cfg, c, e);
            r.ok ==>
              && (r.choice.rsn <==> c.rsn || Speaks(e, false)) && (r.choice.wpa <==> c.wpa || Speaks(e, true))
              && (r.choice.wmm <==> c.wmm || SaysWmm(e)) && (r.choice.ht <==> c.ht || e.HtCapability?)
              && r.choice.rsnPairwise == (if e.Rsn? then e.pairwise * cfg.rsnPairwise else c.rsnPairwise)
              && r.choice.wpaUnicast == (if Speaks(e, true) then e.unicast * cfg.wpaUnicast else c.wpaUnicast)
  {
    hide Take, Cleared, CopyFits;
  }

  /** The ciphers that the last element of a list with any leaves, or those there were. */
  function LastRsn(cfg: Config, had: Ciphers, es: seq<Element>): Ciphers
    decreases |es|
  {
    if es == [] then had
    else LastRsn(cfg, if es[0].Rsn? then es[0].pairwise * cfg.rsnPairwise else had, es[1..])
  }

  function LastWpa(cfg: Config, had: Ciphers, es: seq<Element>): Ciphers
    decreases |es|
  {
    if es == [] then had
    else LastWpa(cfg, if Speaks(es[0], true) then es[0].unicast * cfg.wpaUnicast else had, es[1..])
  }

  /** An accepted list is recorded exactly: each flag if some element says so, and the ciphers common to
      the access point and the last element that names any. */
  lemma {:induction false} ListRecorded(cfg: Config, c: Choice, es: seq<Element>)
    requires Scan(cfg, c, es).ok
    ensures var r := Scan(cfg, c, es).choice;
            && (r.rsn <==> c.rsn || exists i :: 0 <= i < |es| && Speaks(es[i], false))
            && (r.wpa <==> c.wpa || exists i :: 0 <= i < |es| && Speaks(es[i], true))
            && (r.wmm <==> c.wmm || exists i :: 0 <= i < |es| && SaysWmm(es[i]))
            && (r.ht <==> c.ht || exists i :: 0 <= i < |es| && es[i].HtCapability?)
            && r.rsnPairwise == LastRsn(cfg, c.rsnPairwise, es)
            && r.wpaUnicast == LastWpa(cfg, c.wpaUnicast, es)
    decreases |es|
  {
    hide ScanElement, Speaks, SaysWmm;
    if |es| > 0 {
      OneRecorded(cfg, c, es[0]);
      var d, more := ScanElement(cfg, c, es[0]).choice, es[1..];
      ListRecorded(cfg, d, more);
      SomeOf(es, e => Speaks(e, false));
      SomeOf(es, e => Speaks(e, true));
      SomeOf(es, e => SaysWmm(e));
      SomeOf(es, (e: Element) => e.HtCapability?);
    }
  }

  lemma SomeOf(es: seq<Element>, p: Element -> bool)
    requires |es| > 0
    ensures (exists i :: 0 <= i < |es| && p(es[i])) <==> p(es[0]) || exists i :: 0 <= i < |es[1..]| && p(es[1..][i])
  {
    if i :| 0 <= i < |es| && p(es[i]) {
      if i > 0 {
        assert es[1..][i - 1] == es[i];
      }
    }
    if i :| 0 <= i < |es[1..]| && p(es[1..][i]) {
      assert es[i + 1] == es[1..][i];
    }
  }

  /** An accepted request is recorded by what its elements say, whatever the record held before; only the
      HT flag stays set. A copy that runs past its field may overwrite the flags afterwards. */
  lemma RequestRecorded(cfg: Config, st: Strays, c: Choice, m: Msg)
    requires AssocScan(cfg, st, c, m).ok
    ensures var r, es := AssocScan(cfg, st, c, m).choice, Interpreted(st, 0, WalkOf(m).es);
            && (r.rsn <==> exists i :: 0 <= i < |es| && Speaks(es[i], false))
            && (r.wpa <==> exists i :: 0 <= i < |es| && Speaks(es[i], true))
            && (r.wmm <==> exists i :: 0 <= i < |es| && SaysWmm(es[i]))
            && (r.ht <==> c.ht || exists i :: 0 <= i < |es| && es[i].HtCapability?)
            && r.rsnPairwise == LastRsn(cfg, {}, es) && (r.wpa ==> r.wpaUnicast == LastWpa(cfg, c.wpaUnicast, es))
  {
    hide Scan, Interpreted, WalkOf, Speaks, SaysWmm, LastRsn, LastWpa;
    ListRecorded(cfg, Reset(c), Interpreted(st, 0, WalkOf(m).es));
  }

  /** A WMM element of 40 bytes. */
  function LongWmm(): Elements.Ie {
    Elements.Raw(ID_VENDOR, [0x00, 0x50, 0xF2, 0x02, 0, 1] + seq(34, _ => 0))
  }

  /** It is accepted by every access point, and its copy runs past its field. */
  lemma WmmSpills(cfg: Config, t: Stray, r: nat, x: nat)
    ensures var e := Interpret(t, LongWmm()); Acceptable(cfg, e, r, x) && !CopyFits(cfg, e)
  {
    var data := LongWmm().data;
    assert Be32(data, 0) == WMM_TYPE;
    hide ParseSuites, Be32;
    assert ParseWpa(data).code == -4 && ParseWmm(data, t.wmm) == 0;
  }

  // ----- whose elements were accepted -----

  /** An accepted request has room for the fields in front of its elements, and its own bytes are what
      was accepted exactly when they parse. */
  lemma GrantedOwn(cfg: Config, st: Strays, m: Msg)
    requires InUse(m) && m.tag == AssocReq && Grants(cfg, st, m)
    ensures Start(m.bytes) <= m.len
    ensures WalkOf(m).stop == m.len <==> Elements.Parse(Own(m)).Elements?
    ensures Elements.Parse(Own(m)).Elements? ==>
              AllAcceptable(cfg, Interpreted(st, 0, Elements.Parse(Own(m)).es))
  {
    hide AllAcceptable, Interpreted;
    WalkMeaning(m);
  }

  /** A written RSN element is accepted exactly when it fits in 253 bytes, its group cipher is the access
      point's and one of its pairwise ciphers is among the access point's. */
  lemma RsnAccepted(cfg: Config, t: Stray, group: Cipher, cs: seq<Cipher>, rest: seq<byte>, r: nat, x: nat)
    requires 1 <= |cs| && 8 + 4 * |cs| + |rest| <= 255
    ensures var e := Elements.Raw(ID_RSN, SuiteBytes(RsnSuites, group, cs) + rest);
            Acceptable(cfg, Interpret(t, e), r, x)
            <==> && 8 + 4 * |cs| + |rest| <= LONGEST
                 && cfg.rsnGroup == {group} && exists c :: c in cs && c in cfg.rsnPairwise
  {
    hide ParseRsn, SuiteBytes;
    RsnReadBack(group, cs, rest);
    CommonCipher(cs, cfg.rsnPairwise);
  }

  /** A written WPA element too, with the WPA settings. */
  lemma WpaAccepted(cfg: Config, t: Stray, group: Cipher, cs: seq<Cipher>, rest: seq<byte>, r: nat, x: nat)
    requires 1 <= |cs| && 12 + 4 * |cs| + |rest| <= 255
    ensures var data := WPA_BYTES + (SuiteBytes(WpaSuites, group, cs) + rest);
            Acceptable(cfg, Interpret(t, Elements.Raw(ID_VENDOR, data)), r, x)
            <==> && 12 + 4 * |cs| + |rest| <= LONGEST
                 && cfg.wpaMulticast == {group} && exists c :: c in cs && c in cfg.wpaUnicast
  {
    hide ParseWpa, SuiteBytes, ParseWmm;
    WpaReadBack(group, cs, rest);
    CommonCipher(cs, cfg.wpaUnicast);
    var data := WPA_BYTES + (SuiteBytes(WpaSuites, group, cs) + rest);
    WmmNeverRefused(data, t.wmm);
  }

  lemma WmmNeverRefused(data: seq<byte>, behind: bool)
    requires |data| >= 4
    ensures !(-2 <= ParseWmm(data, behind) < 0)
  {
  }

  /** A 254-byte RSN element is refused by an access point whose ciphers it names. */
  lemma LongRsnRefused(cfg: Config, t: Stray, group: Cipher, c: Cipher, r: nat, x: nat)
    requires cfg.rsnGroup == {group} && c in cfg.rsnPairwise
    ensures var e := Elements.Raw(ID_RSN, SuiteBytes(RsnSuites, group, [c]) + seq(242, _ => 0));
            |e.data| == 254 && !Acceptable(cfg, Interpret(t, e), r, x)
  {
    hide Interpret, Acceptable, SuiteBytes;
    RsnAccepted(cfg, t, group, [c], seq(242, _ => 0), r, x);
  }

  lemma CommonCipher(cs: seq<Cipher>, own: Ciphers)
    ensures All(cs) * own != {} <==> exists c :: c in cs && c in own
  {
    if c :| c in cs && c in own {
      assert c in All(cs) * own;
    } else {
      assert All(cs) * own == {};
    }
  }

  /** A written association or reassociation request: header, capability and listen interval, for a
      reassociation the current access point's address, then the elements. */
  function Written(head: seq<byte>, fixed: seq<byte>, current: seq<byte>, es: seq<Elements.Ie>): seq<byte> {
    head + fixed + current + Elements.Encode(es)
  }

  /** The walk over a written request visits the elements that were written. */
  lemma WrittenWalked(head: seq<byte>, fixed: seq<byte>, current: seq<byte>, es: seq<Elements.Ie>, m: Msg)
    requires |head| == 24 && |fixed| == 4
    requires (head[0] == 0x00 && |current| == 0) || (head[0] == 0x20 && |current| == 6)
    requires InUse(m) && m.tag == AssocReq
    requires Written(head, fixed, current, es) <= m.bytes && m.len == |Written(head, fixed, current, es)|
    ensures WalkOf(m) == Walked(es, m.len, true)
  {
    var w := Written(head, fixed, current, es);
    var start := 28 + |current|;
    assert m.bytes[0] == w[0] == head[0];
    assert Own(m) == Elements.Encode(es) by {
      assert m.bytes[..m.len] == w;
      assert m.bytes[start..m.len] == m.bytes[..m.len][start..] == w[start..];
    }
    hide WalkOf, Leaves;
    Elements.ParseEncoded(es);
    WalkMeaning(m);
    WalkParts(m);
  }

  lemma WalkParts(m: Msg)
    requires InUse(m) && m.tag == AssocReq && m.len >= Start(m.bytes) && Elements.Parse(Own(m)).Elements?
    ensures WalkOf(m) == Walked(Elements.Parse(Own(m)).es, m.len, true)
  {
    hide WalkOf, Leaves;
    WalkMeaning(m);
  }

  /** A rate is offered exactly when it stands in the access point's list before the first zero, up to
      the bit that marks basic rates. */
  lemma {:induction false} OfferedMeaning(rates: seq<byte>, x: byte)
    ensures Offered(rates, x) <==>
            exists i :: 0 <= i < |rates| && rates[i] % 128 == x % 128 && NonZeroTo(rates, i)
  {
    if |rates| > 0 {
      OfferedMeaning(rates[1..], x);
      var more := rates[1..];
      if i :| 0 <= i < |more| && more[i] % 128 == x % 128 && NonZeroTo(more, i) {
        if rates[0] != 0 {
          assert rates[i + 1] == more[i] && NonZeroTo(rates, i + 1);
        }
      }
      if i :| 0 <= i < |rates| && rates[i] % 128 == x % 128 && NonZeroTo(rates, i) {
        if i > 0 {
          assert more[i - 1] == rates[i] && NonZeroTo(more, i - 1);
        }
      }
    }
  }

  predicate NonZeroTo(rates: seq<byte>, i: nat)
    requires i < |rates|
  {
    forall j :: 0 <= j <= i ==> rates[j] != 0
  }

  /** A request for the access point's name and nothing more, and the same cut off behind the header of
      the name. */
  function NameBytes(ssid: seq<byte>): (r: seq<byte>)
    requires |ssid| <= 32
    ensures |r| == 30 + |ssid| && r[0] == 0
  {
    seq(28, _ => 0) + [ID_SSID, |ssid|] + ssid
  }

  function CutBytes(ssid: seq<byte>): (r: seq<byte>)
    requires |ssid| <= 32
    ensures |r| == 30 && r[0] == 0
  {
    NameBytes(ssid)[..30]
  }

  /** What the walk finds in a buffer that starts with such a request. */
  lemma NameWalked(b: seq<byte>, ssid: seq<byte>, end: nat)
    requires 1 <= |ssid| <= 32 && NameBytes(ssid) <= b && (end == 30 || end == 30 + |ssid|)
    ensures |b| >= 30 && WalkFrom(b, 28, end) == Walked([Elements.Raw(ID_SSID, ssid)], 30 + |ssid|, true)
  {
    var n, r := |ssid|, NameBytes(ssid);
    assert b[28] == r[28] == ID_SSID && b[29] == r[29] == n;
    assert b[30..30 + n] == ssid by {
      assert forall i :: 0 <= i < n ==> b[30 + i] == r[30 + i] == ssid[i];
    }
    ElementOf(b, 28);
    assert WalkFrom(b, 30 + n, end) == Walked([], 30 + n, true);
  }

  /** The request and its cut-off form are both accepted on that buffer; the second does not carry the
      name it is accepted on. */
  lemma NameGranted(cfg: Config, st: Strays, m: Msg)
    requires 1 <= |cfg.ssid| <= 32 && NameBytes(cfg.ssid) <= m.bytes
    requires InUse(m) && m.tag == AssocReq && (m.len == 30 || m.len == 30 + |cfg.ssid|)
    ensures Grants(cfg, st, m)
    ensures m.len == 30 ==> Start(m.bytes) <= m.len && Elements.Parse(Own(m)).Malformed?
  {
    assert m.bytes[0] == NameBytes(cfg.ssid)[0];
    var e := Elements.Raw(ID_SSID, cfg.ssid);
    hide NameBytes, WalkFrom;
    NameWalked(m.bytes, cfg.ssid, m.len);
    assert End(m) == m.len;
    assert Interpreted(st, 0, [e]) == [Ssid(cfg.ssid)];
    assert AllAcceptable(cfg, [Ssid(cfg.ssid)]);
    WalkMeaning(m);
  }

  /** The element loop on the buffer. */
  method ScanLoop(cfg: Config, st: Strays, c: Choice, m: Msg) returns (choice: Choice, ok: bool)
    ensures Scanned(choice, ok) == AssocScan(cfg, st, c, m)
    ensures ok <==> Grants(cfg, st, m)
  {
    hide ScanElement, Grants, ElementAt, Interpret;
    ScanAccepts(cfg, st, c, m);
    choice, ok := Reset(c), true;
    var b, ofs, end, k := m.bytes, Start(m.bytes), End(m), 0;
    while ofs < end
      invariant ok
      invariant AssocScan(cfg, st, c, m) == ScanWalk(cfg, st, k, choice, WalkFrom(b, ofs, end))
      decreases end - ofs
    {
      if ofs + 2 > |b| || (ofs + 2 + b[ofs + 1] > |b| && Known(b[ofs])) {
        return choice, false;
      }
      var r := ScanElement(cfg, choice, Interpret(StrayAt(st, k), ElementAt(b, ofs)));
      WalkOne(cfg, st, k, choice, b, ofs, end, r);
      choice, ok := r.choice, r.ok;
      if !ok {
        return;
      }
      ofs, k := ofs + 2 + b[ofs + 1], k + 1;
    }
  }

  lemma WalkOne(cfg: Config, st: Strays, k: nat, c: Choice, b: seq<byte>, ofs: nat, end: nat, r: Scanned)
    requires ofs < end && ofs + 2 <= |b| && (Known(b[ofs]) ==> ofs + 2 + b[ofs + 1] <= |b|)
    requires r == ScanElement(cfg, c, Interpret(StrayAt(st, k), ElementAt(b, ofs)))
    ensures ScanWalk(cfg, st, k, c, WalkFrom(b, ofs, end))
            == if r.ok then ScanWalk(cfg, st, k + 1, r.choice, WalkFrom(b, ofs + 2 + b[ofs + 1], end)) else r
  {
    hide ScanElement, Interpret, ElementAt, Interpreted;
    var next := ofs + 2 + b[ofs + 1];
    var w, e := WalkFrom(b, next, end), ElementAt(b, ofs);
    InterpretedCons(st, k, e, w.es);
    var es := Interpreted(st, k + 1, w.es);
    assert ([Interpret(StrayAt(st, k), e)] + es)[1..] == es;
  }

  lemma InterpretedCons(st: Strays, k: nat, e: Elements.Ie, es: seq<Elements.Ie>)
    ensures Interpreted(st, k, [e] + es) == [Interpret(StrayAt(st, k), e)] + Interpreted(st, k + 1, es)
  {
    hide Interpret;
    var a, b := Interpreted(st, k, [e] + es), [Interpret(StrayAt(st, k), e)] + Interpreted(st, k + 1, es);
    assert forall i :: 1 <= i < |a| ==> a[i] == Interpret(StrayAt(st, k + i), es[i - 1]) == b[i];
  }

  lemma GrantOk(cfg: Config, c: Choice, m: Msg, st: Strays)
    requires CiphersOk(cfg, c)
    ensures CiphersOk(cfg, c.(granted := m, found := st))
  {
  }
}
