/** Runs in which an association request is accepted on elements it does not carry, takes the element
    walk out of its buffer, or overwrites the record. */
module ApElementRuns {
  import opened Bytes
  import opened ApMessage
  import opened SecurityIe
  import opened ApRequest
  import opened ApStation
  import opened AccessPoint
  import opened ApShortFrames
  import Elements

  // ----- a station that authenticates and sends one request -----

  function AskRun(f: Frame): (es: seq<Event>)
    ensures |es| == 4
  {
    [Receive(1, AuthFrame, Frame(AuthBytes(OPEN)), true), Poll(1, Idle()),
     Receive(1, AssocFrame, f, true), Poll(1, Idle())]
  }

  lemma AskGenuine(f: Frame)
    requires Matches(AssocFrame, f) && |f.bytes| >= 28
    ensures AllGenuine(AskRun(f))
  {
    hide AuthBytes;
  }

  /** Steps 0 and 1. */
  lemma Welcomed(cfg: Config, f: Frame) returns (w1: World, w2: World, s: Station)
    requires cfg.authAlgo == OPEN
    ensures PoolShape(w1.free) && w1 == Step(cfg, Initial(), AskRun(f)[0])
    ensures w2 == Step(cfg, w1, AskRun(f)[1]) && Quiet(w2, s) && s.point == OpenWait
  {
    hide Received, Polled, Conserved, AuthBytes, PoolShape, Le16, AssocRun, SharedAnswer, Maintaining, Rejoining;
    var g := Frame(AuthBytes(OPEN));
    var first := Joins(g);
    FirstFrame(first.bytes, OPEN);
    w1 := Received(Initial(), 1, AuthFrame, g, true);
    var s1 := Fresh(1).(queue := [first]);
    var o := Resume(cfg, s1, Idle());
    assert !o.gone && o.st.queue == [] && o.st.point == OpenWait;
    Resumes(cfg, w1, s1, Idle());
    w2, s := Polled(cfg, w1, 1, Idle()), o.st;
  }

  /** Step 2: the request waits in a buffer that starts with it. */
  lemma AskedFor(cfg: Config, f: Frame) returns (w1: World, w2: World, w3: World, s: Station, m: Msg)
    requires cfg.authAlgo == OPEN && Matches(AssocFrame, f) && |f.bytes| <= Capacity(AssocReq)
    ensures PoolShape(w1.free) && PoolShape(w2.free) && PoolShape(w3.free) && Conserved(w3)
    ensures w1 == Step(cfg, Initial(), AskRun(f)[0]) && w2 == Step(cfg, w1, AskRun(f)[1])
    ensures w3 == Step(cfg, w2, AskRun(f)[2]) && s.mac == 1 && s.point == OpenWait && s.queue == [m]
    ensures w3.stations == [Fresh(BROADCAST).(state := Unblocked), s]
    ensures InUse(m) && m.tag == AssocReq && m.len == |f.bytes| && f.bytes <= m.bytes
  {
    hide Received, Polled, Conserved, AuthBytes, PoolShape, Matches;
    var t;
    w1, w2, t := Welcomed(cfg, f);
    QuietShape(w2, t);
    m := Delivers(w2, t, AssocFrame, f);
    w3 := Received(w2, 1, AssocFrame, f, true);
    s := t.(queue := [m]);
    assert InUse(m) by {
      QueueOf(w3, 1);
      assert w3.stations[1].queue[0] == m;
    }
    ShapeOf(w3);
  }

  lemma AskFollows(cfg: Config, f: Frame, w1: World, w2: World, w3: World)
    requires PoolShape(w1.free) && PoolShape(w2.free) && PoolShape(w3.free)
    requires w1 == Step(cfg, Initial(), AskRun(f)[0]) && w2 == Step(cfg, w1, AskRun(f)[1])
    requires w3 == Step(cfg, w2, AskRun(f)[2])
    ensures Run(cfg, Initial(), AskRun(f)[..3]) == w3
    ensures Run(cfg, Initial(), AskRun(f)) == Step(cfg, w3, Poll(1, Idle()))
  {
    hide Step;
    var es := AskRun(f);
    RunFollows(cfg, [Initial(), w1, w2, w3], es, 3);
    assert es[..4] == es && es[..|es| - 1] == es[..3];
  }

  // ----- a walk that leaves the buffer -----

  const UNKNOWN: byte := 2

  function Filler(n: nat): Elements.Ie
    requires n <= 255
  {
    Elements.Raw(UNKNOWN, seq(n, _ => 0))
  }

  /** A request that fills the whole buffer with elements that are not looked into, but for the last two
      bytes: the header of a rates element of 255 bytes. */
  function LongElements(): seq<Elements.Ie> {
    [Filler(255), Filler(255), Filler(250)]
  }

  function LongBytes(): seq<byte> {
    seq(28, _ => 0) + (Elements.Encode(LongElements()) + [ID_RATES, 255])
  }

  lemma LongSize()
    ensures |Elements.Encode(LongElements())| == 766
    ensures |LongBytes()| == Capacity(AssocReq) && LongBytes()[0] == 0 && LongBytes()[794] == ID_RATES
    ensures LongBytes()[795] == 255 && LongBytes()[28..] == Elements.Encode(LongElements()) + [ID_RATES, 255]
  {
    var es := LongElements();
    assert es[1..] == [Filler(255), Filler(250)] && es[1..][1..] == [Filler(250)] && es[1..][1..][1..] == [];
  }

  lemma FillersAcceptable(cfg: Config)
    ensures AllAcceptable(cfg, Interpreted([], 0, LongElements()))
  {
    var es := Interpreted([], 0, LongElements());
    forall i | 0 <= i < 3 ensures es[i] == Other {
      UnknownIsOther(StrayAt([], 0 + i), LongElements()[i]);
    }
    hide Acceptable, RateCount, ExtRateCount;
    OtherAcceptable(cfg);
  }

  lemma LongLeaves(m: Msg)
    requires InUse(m) && m.tag == AssocReq && m.len == Capacity(AssocReq) && m.bytes == LongBytes()
    ensures Leaves(m) && WholeOf(m) == LongElements()
  {
    LongSize();
    hide LongBytes, LongElements;
    var b := m.bytes;
    var rest := [ID_RATES, 255];
    assert Own(m) == b[28..] by { assert b[28..|b|] == b[28..]; }
    Elements.WholeUnique(LongElements(), rest);
  }

  /** A genuine request of 796 bytes takes the walk out of its buffer, at every access point with open
      authentication. */
  lemma LongStrays(cfg: Config)
    requires cfg.authAlgo == OPEN
    ensures AllGenuine(AskRun(Frame(LongBytes()))) && Run(cfg, Initial(), AskRun(Frame(LongBytes()))).astray
  {
    LongSize();
    hide LongBytes, LongElements, Step, Leaves, WholeOf, AllAcceptable, Interpreted;
    var f := Frame(LongBytes());
    AskGenuine(f);
    var w1, w2, w3, s, m := AskedFor(cfg, f);
    assert m.bytes == f.bytes;
    LongLeaves(m);
    FillersAcceptable(cfg);
    AskFollows(cfg, f, w1, w2, w3);
    FindsAt(w3.stations, 1, 1);
    RequestStep(cfg, w3, Poll(1, Idle()));
  }

  // ----- a copy that leaves its field -----

  function WmmBytes(): seq<byte> {
    seq(28, _ => 0) + Elements.Encode([LongWmm()])
  }

  lemma WmmSize()
    ensures |WmmBytes()| == 70 && WmmBytes()[0] == 0 && WmmBytes()[28..] == Elements.Encode([LongWmm()])
  {
    assert [LongWmm()][1..] == [];
  }

  lemma WmmWalked(m: Msg)
    requires InUse(m) && m.tag == AssocReq && m.len == 70 && WmmBytes() <= m.bytes
    ensures WalkOf(m) == Walked([LongWmm()], 70, true)
  {
    WmmSize();
    hide WmmBytes, LongWmm;
    var b := m.bytes;
    assert b[0] == WmmBytes()[0];
    assert Own(m) == WmmBytes()[28..] by {
      assert b[28..70] == b[..70][28..] && b[..70] == WmmBytes();
    }
    Elements.ParseEncoded([LongWmm()]);
    WalkMeaning(m);
  }

  lemma WmmGranted(cfg: Config, m: Msg)
    requires InUse(m) && m.tag == AssocReq && m.len == 70 && WmmBytes() <= m.bytes
    ensures Grants(cfg, [], m) && Oversized(cfg, Interpreted([], 0, WalkOf(m).es))
  {
    WmmWalked(m);
    WmmSpills(cfg, StrayAt([], 0), 0, 0);
    hide Interpret, LongWmm, WmmBytes, Acceptable, CopyFits;
    var es := Interpreted([], 0, [LongWmm()]);
    assert es == [Interpret(StrayAt([], 0), LongWmm())];
    assert !CopyFits(cfg, es[0]) && es[..0] == [];
  }

  /** A genuine request with such an element is accepted, and its copy runs past its field. */
  lemma WmmOverwrites(cfg: Config)
    requires cfg.authAlgo == OPEN
    ensures AllGenuine(AskRun(Frame(WmmBytes())))
    ensures var w := Run(cfg, Initial(), AskRun(Frame(WmmBytes())));
            && |w.stations| == 2 && Above(w.stations[1].state) && w.spilt && w.stations[1].choice.spilt
  {
    WmmSize();
    hide WmmBytes, Grants, Oversized, Interpreted, WalkOf, Polled, Conserved, AssocScan, AuthRequest, SharedAnswer,
         Maintaining, Rejoining, ReachesOversized, AllAcceptable;
    var f := Frame(WmmBytes());
    AskGenuine(f);
    var w1, w2, w3, s, m := AskedFor(cfg, f);
    WmmGranted(cfg, m);
    ScanAccepts(cfg, [], s.choice, m);
    GrantedSpills(cfg, [], s.choice, m);
    AskFollows(cfg, f, w1, w2, w3);
    Polls(cfg, w3, s, Idle());
    FindsAt(w3.stations, 1, 1);
    SpillsExactly(cfg, [], s.choice, m);
    RequestStep(cfg, w3, Poll(1, Idle()));
  }

  // ----- a name that the request does not carry -----

  /** Station 1 asks for the access point's name; station 2 sends a request that is cut off in front of
      it and gets the same buffer. */
  function CutRun(ssid: seq<byte>): (es: seq<Event>)
    requires |ssid| <= 32
    ensures |es| == 8
  {
    AskRun(Frame(NameBytes(ssid))) +
    [Receive(2, AuthFrame, Frame(AuthBytes(OPEN)), true), Poll(2, Idle()),
     Receive(2, AssocFrame, Frame(CutBytes(ssid)), true), Poll(2, Idle())]
  }

  lemma CutGenuine(ssid: seq<byte>)
    requires |ssid| <= 32
    ensures AllGenuine(CutRun(ssid))
  {
    hide AuthBytes, NameBytes, CutBytes, AskRun;
    var f := Frame(NameBytes(ssid));
    AskGenuine(f);
    var es := CutRun(ssid);
    assert forall i :: 0 <= i < 4 ==> es[i] == AskRun(f)[i];
  }

  /** Step 3: the full request is accepted and its buffer is the next one to be used. */
  lemma NameTaken(cfg: Config, w: World, s: Station, m: Msg) returns (n: World, t: Station)
    requires PoolShape(w.free) && Conserved(w) && w.stations == [Fresh(BROADCAST).(state := Unblocked), s]
    requires s.mac == 1 && s.point == OpenWait && s.queue == [m] && m.tag == AssocReq && Grants(cfg, [], m)
    ensures n == Polled(cfg, w, 1, Idle()) && Quiet(n, t)
    ensures n.free[AssocReq] != [] && n.free[AssocReq][0] == m
  {
    hide Polled, Conserved, AuthRequest, SharedAnswer, Maintaining, Rejoining, AssocScan, Grants;
    ScanAccepts(cfg, [], s.choice, m);
    var o := Resume(cfg, s, Idle());
    assert !o.gone && o.st.queue == [] && o.freed == [m];
    Resumes(cfg, w, s, Idle());
    Polls(cfg, w, s, Idle());
    ReleaseOne(w.free, m);
    n, t := Polled(cfg, w, 1, Idle()), o.st;
  }

  /** Steps 4 and 5: station 2 authenticates, which leaves the request buffers alone. */
  lemma SecondWelcomed(cfg: Config, w: World, s: Station) returns (w1: World, w2: World, t: Station)
    requires Quiet(w, s) && cfg.authAlgo == OPEN
    ensures PoolShape(w1.free) && w1 == Received(w, 2, AuthFrame, Frame(AuthBytes(OPEN)), true)
    ensures PoolShape(w2.free) && w2 == Polled(cfg, w1, 2, Idle()) && Conserved(w2)
    ensures w2.stations == w.stations + [t] && t.mac == 2 && t.point == OpenWait && t.queue == []
    ensures w2.free[AssocReq] == w.free[AssocReq]
  {
    hide Received, Polled, Conserved, AuthBytes, Le16, AssocRun, SharedAnswer, Maintaining, Rejoining, Filled;
    var f := Frame(AuthBytes(OPEN));
    var m;
    w1, m := Calls(cfg, w, s, f);
    assert f.bytes <= m.bytes && m.tag == Auth by { FilledFront(w.free[Auth][0], Auth, f); }
    FirstFrame(m.bytes, OPEN);
    var s1 := Fresh(2).(queue := [m]);
    var o := Resume(cfg, s1, Idle());
    assert !o.gone && o.st.queue == [] && o.st.point == OpenWait && o.freed == [m];
    PollsLast(cfg, w1, w.stations, s1);
    ReleaseOne(w1.free, m);
    w2, t := Polled(cfg, w1, 2, Idle()), o.st;
  }

  /** The cut-off request laid over the full one is the full one again. */
  lemma CutOver(buf: Msg, ssid: seq<byte>)
    requires |ssid| <= 32 && NameBytes(ssid) <= buf.bytes
    ensures var m := Filled(buf, AssocReq, Frame(CutBytes(ssid)));
            m.bytes == buf.bytes && m.len == 30
  {
    var m := Filled(buf, AssocReq, Frame(CutBytes(ssid)));
    assert CutBytes(ssid) == buf.bytes[..30];
  }

  lemma BothMatch(ssid: seq<byte>)
    requires |ssid| <= 32
    ensures Matches(AssocFrame, Frame(NameBytes(ssid))) && Matches(AssocFrame, Frame(CutBytes(ssid)))
  {
    hide NameBytes, CutBytes;
  }

  /** Step 6: the request of station 2 reads like the one before. */
  lemma CutAsked(cfg: Config, w: World, ss: seq<Station>, s: Station, buf: Msg) returns (n: World, c: Msg)
    requires PoolShape(w.free) && Conserved(w) && w.stations == ss + [s] && s.mac == 2 && s.queue == []
    requires forall j :: 0 <= j < |ss| ==> ss[j].mac != 2 && ss[j].queue == []
    requires 1 <= |cfg.ssid| <= 32 && w.free[AssocReq] != [] && w.free[AssocReq][0] == buf
    requires NameBytes(cfg.ssid) <= buf.bytes
    ensures PoolShape(n.free) && n == Received(w, 2, AssocFrame, Frame(CutBytes(cfg.ssid)), true)
    ensures Conserved(n) && n.stations == ss + [s.(queue := [c])] && c.tag == AssocReq && Grants(cfg, [], c)
    ensures c.len == 30 <= |c.bytes| && Start(c.bytes) <= c.len && Elements.Parse(Own(c)).Malformed?
  {
    hide Received, Conserved, NameBytes, CutBytes, Grants, Filled, Matches;
    BothMatch(cfg.ssid);
    n, c := Asks(cfg, w, ss, s, Frame(CutBytes(cfg.ssid)));
    CutOver(buf, cfg.ssid);
    assert InUse(c) by {
      QueueOf(n, |ss|);
      assert n.stations[|ss|].queue[0] == c;
    }
    NameGranted(cfg, [], c);
  }

  /** For every name of 1 to 32 bytes: a station is let through on a request that does not carry it. */
  lemma CutAdmitted(cfg: Config)
    requires cfg.authAlgo == OPEN && 1 <= |cfg.ssid| <= 32
    ensures AllGenuine(CutRun(cfg.ssid))
    ensures var w := Run(cfg, Initial(), CutRun(cfg.ssid));
            && |w.stations| == 3 && w.stations[2].mac == 2 && Above(w.stations[2].state)
            && var m := w.stations[2].choice.granted;
               m.len == 30 <= |m.bytes| && Start(m.bytes) <= m.len && Elements.Parse(Own(m)).Malformed?
  {
    hide Received, Polled, Conserved, Above, NameBytes, CutBytes, AuthBytes, Grants, Filled, Step, PoolShape,
         InUse, Matches, AllGenuine;
    var f := Frame(NameBytes(cfg.ssid));
    CutGenuine(cfg.ssid);
    BothMatch(cfg.ssid);
    var w1, w2, w3, s3, m := AskedFor(cfg, f);
    NameGranted(cfg, [], m);
    var w4, s4 := NameTaken(cfg, w3, s3, m);
    QuietShape(w4, s4);
    var w5, w6, s6 := SecondWelcomed(cfg, w4, s4);
    var w7, c := CutAsked(cfg, w6, w4.stations, s6, m);
    var w8, s8 := Enters(cfg, w7, w4.stations, s6.(queue := [c]), c);
    CutFollows(cfg, [Initial(), w1, w2, w3, w4, w5, w6, w7, w8]);
  }

  /** The eight steps are the run. */
  lemma CutFollows(cfg: Config, ws: seq<World>)
    requires |cfg.ssid| <= 32 && |ws| == 9 && ws[0] == Initial() && forall k :: 0 <= k < 9 ==> PoolShape(ws[k].free)
    requires forall k :: 0 <= k < 3 ==> ws[k + 1] == Step(cfg, ws[k], AskRun(Frame(NameBytes(cfg.ssid)))[k])
    requires ws[4] == Polled(cfg, ws[3], 1, Idle())
    requires ws[5] == Received(ws[4], 2, AuthFrame, Frame(AuthBytes(OPEN)), true)
    requires ws[6] == Polled(cfg, ws[5], 2, Idle())
    requires ws[7] == Received(ws[6], 2, AssocFrame, Frame(CutBytes(cfg.ssid)), true)
    requires ws[8] == Polled(cfg, ws[7], 2, Idle())
    ensures Run(cfg, Initial(), CutRun(cfg.ssid)) == ws[8]
  {
    hide Received, Polled, AuthBytes, NameBytes, CutBytes;
    var es := CutRun(cfg.ssid);
    RunFollows(cfg, ws, es, 8);
    assert es[..8] == es;
  }
}
