/** Runs in which a frame shorter than the fields read from it is accepted on what its message buffer
    held before, and a run that decrypts past a buffer. */
module ApShortFrames {
  import opened Bytes
  import opened ApMessage
  import opened ApRequest
  import opened ApStation
  import opened AccessPoint

  function Idle(): Env {
    Env(false, false, [], [])
  }

  /** Resuming station 1, whatever is left in its queue. */
  lemma Polls(cfg: Config, w: World, s: Station, env: Env)
    requires PoolShape(w.free) && Conserved(w) && w.stations == [Fresh(BROADCAST).(state := Unblocked), s]
    requires s.mac == 1 && !Resume(cfg, s, env).gone
    ensures var n := Polled(cfg, w, 1, env);
            && PoolShape(n.free) && Conserved(n)
            && n.stations == [Fresh(BROADCAST).(state := Unblocked), Resume(cfg, s, env).st]
            && n.free == ReleaseAll(w.free, Resume(cfg, s, env).freed)
  {
    hide Resume, PoolInv, AllInUse, Notes, ReleaseAll, RunsPast, Noted;
    assert Find(w.stations, 1) == 1;
    StepConserves(cfg, w, Poll(1, env));
  }

  // ----- an answer on a buffer that another station filled -----

  /** Station 1 asks for shared key and is issued `text`; station 2 sends a frame that is refused; the
      next frame of station 1 gets station 2's buffer; then it asks to associate. */
  function StaleRun(text: seq<byte>, m: Msg): (es: seq<Event>)
    requires m.len <= |m.bytes|
    ensures |es| == 9
  {
    [Receive(1, AuthFrame, Frame(AuthBytes(SHARED)), true), Poll(1, Env(false, false, text, [])),
     Receive(2, AuthFrame, Frame(m.bytes), true), Poll(2, Idle()),
     Receive(1, AuthFrame, Frame(m.bytes[..m.len]), true), Poll(1, Idle()), Poll(1, Idle()),
     Receive(1, AssocFrame, Frame(AssocBytes()), true), Poll(1, Idle())]
  }

  /** Steps 0 and 1. */
  lemma Challenged(cfg: Config, text: seq<byte>, m: Msg) returns (w1: World, w2: World, s: Station)
    requires cfg.authAlgo == SHARED && m.len <= |m.bytes|
    ensures PoolShape(w1.free) && w1 == Step(cfg, Initial(), StaleRun(text, m)[0])
    ensures w2 == Step(cfg, w1, StaleRun(text, m)[1]) && Quiet(w2, s)
    ensures s.point == Shared3Wait && s.login.algo == SHARED && s.login.challenge == text
  {
    hide Received, Polled, Conserved, AuthBytes, PoolShape, Le16;
    var f, env := Frame(AuthBytes(SHARED)), Env(false, false, text, []);
    var first := Joins(f);
    FirstFrame(first.bytes, SHARED);
    w1 := Received(Initial(), 1, AuthFrame, f, true);
    var s1 := Fresh(1).(queue := [first]);
    Resumes(cfg, w1, s1, env);
    w2, s := Polled(cfg, w1, 1, env), Resume(cfg, s1, env).st;
  }

  lemma FindsAt(ss: seq<Station>, i: nat, mac: nat)
    requires i < |ss| && ss[i].mac == mac && forall j :: 0 <= j < i ==> ss[j].mac != mac
    ensures Find(ss, mac) == i
  {
  }

  lemma FindsNone(ss: seq<Station>, mac: nat)
    requires forall j :: 0 <= j < |ss| ==> ss[j].mac != mac
    ensures Find(ss, mac) == |ss|
  {
  }

  /** Step 2: a new station's frame is laid over the buffer that was freed last. */
  lemma Calls(cfg: Config, w: World, s: Station, f: Frame) returns (n: World, m: Msg)
    requires Quiet(w, s) && |f.bytes| <= Capacity(Auth) && Matches(AuthFrame, f)
    ensures PoolShape(n.free) && n == Received(w, 2, AuthFrame, f, true) && Conserved(n)
    ensures w.free[Auth] != [] && |w.free[Auth][0].bytes| == Capacity(Auth)
    ensures m == Filled(w.free[Auth][0], Auth, f) && m.home == Auth
    ensures n.stations == w.stations + [Fresh(2).(queue := [m])] && n.free[AssocReq] == w.free[AssocReq]
  {
    hide PoolInv, AllInUse, Find;
    FindsNone(w.stations, 2);
    EmptyQueues(w, s);
    var buf := w.free[Auth][0];
    assert |buf.bytes| == Capacity(Auth) && buf.home == Auth by { HomeOf(w); }
    m := Filled(buf, Auth, f);
    n := Received(w, 2, AuthFrame, f, true);
    StepConserves(cfg, w, Receive(2, AuthFrame, f, true));
    assert [] + [m] == [m];
  }

  lemma HomeOf(w: World)
    requires Conserved(w) && w.free[Auth] != []
    ensures w.free[Auth][0].home == Auth && |w.free[Auth][0].bytes| == Capacity(Auth)
  {
    assert AllHome(w.free[Auth], Auth);
  }

  /** Step 3: its transaction is not 1, so it is refused, and its buffer is the next one to be used. */
  lemma Refused(cfg: Config, w: World, s: Station, n: World, m: Msg) returns (r: World)
    requires Quiet(w, s) && PoolShape(n.free) && Conserved(n)
    requires n.stations == w.stations + [Fresh(2).(queue := [m])] && m.tag == Auth && Le16(m.bytes, 26) != 1
    ensures r == Polled(cfg, n, 2, Idle()) && Quiet(r, s)
    ensures r.free[Auth] != [] && r.free[Auth][0] == m
  {
    hide Le16, AssocRun, SharedAnswer, Maintaining, Rejoining, Conserved, Polled;
    var s2 := Fresh(2).(queue := [m]);
    var o := Resume(cfg, s2, Idle());
    assert [m] + [] == [m];
    assert o.gone && o.freed == [m];
    PollsGone(cfg, n, w.stations, s2);
    r := Polled(cfg, n, 2, Idle());
    ReleaseOne(n.free, m);
  }

  /** Resuming station 2, the last of three, when that ends its thread. */
  lemma PollsGone(cfg: Config, w: World, ss: seq<Station>, s: Station)
    requires PoolShape(w.free) && Conserved(w) && w.stations == ss + [s] && s.mac == 2
    requires (forall j :: 0 <= j < |ss| ==> ss[j].mac != 2) && Resume(cfg, s, Idle()).gone
    ensures var n := Polled(cfg, w, 2, Idle());
            && PoolShape(n.free) && Conserved(n) && n.stations == ss
            && n.free == ReleaseAll(w.free, Resume(cfg, s, Idle()).freed)
  {
    hide Resume, PoolInv, AllInUse, Notes, ReleaseAll, RunsPast, Find, Noted, Sound;
    FindsAt(w.stations, |ss|, 2);
    StepConserves(cfg, w, Poll(2, Idle()));
    assert w.stations[..|ss|] == ss && w.stations[|ss| + 1..] == [];
  }

  lemma EmptyQueues(w: World, s: Station)
    requires Quiet(w, s)
    ensures |w.free[Auth]| == Depth(Auth) && w.free[Auth] != []
  {
    QueuedAppend([w.stations[0]], [s], Auth);
    assert w.stations == [w.stations[0]] + [s];
    assert [w.stations[0]][1..] == [] && [s][1..] == [];
    assert |w.free[Auth]| + Queued(w.stations, Auth) == Depth(Auth);
  }

  /** Steps 4 to 6: the frame laid over that buffer is `m`, it is accepted, and then dropped. */
  lemma Answered(cfg: Config, w: World, s: Station, m: Msg) returns (w1: World, w2: World, w3: World, t: Station)
    requires Quiet(w, s) && s.point == Shared3Wait && s.login.algo == SHARED
    requires InUse(m) && m.tag == Auth && Answers(cfg, m, SHARED, s.login.challenge)
    requires m.len > 0 && FrameType(m.bytes) == 0xB0
    requires w.free[Auth] != [] && w.free[Auth][0].bytes == m.bytes && w.free[Auth][0].home == Auth
    ensures PoolShape(w1.free) && w1 == Received(w, 1, AuthFrame, Frame(m.bytes[..m.len]), true)
    ensures PoolShape(w2.free) && w2 == Polled(cfg, w1, 1, Idle())
    ensures w3 == Polled(cfg, w2, 1, Idle()) && Quiet(w3, t)
    ensures t.point == Shared4Wait && t.login == s.login.(answer := t.login.answer)
    ensures t.login.answer.bytes == m.bytes && t.login.answer.len == m.len
  {
    hide Answers, Decrypted, Received, Polled, Conserved, PoolShape, AssocRun, AuthRequest, Maintaining, Rejoining;
    var f := Frame(m.bytes[..m.len]);
    var got := Delivers(w, s, AuthFrame, f);
    assert got.bytes == m.bytes[..m.len] + m.bytes[m.len..] == m.bytes;
    assert Answers(cfg, got, SHARED, s.login.challenge) by { SameAnswer(cfg, m, got, s.login.challenge); }
    w1 := Received(w, 1, AuthFrame, f, true);
    var s1 := s.(queue := [got]);
    Polls(cfg, w1, s1, Idle());
    w2 := Polled(cfg, w1, 1, Idle());
    var s2 := Resume(cfg, s1, Idle()).st;
    assert s2.point == Shared4Wait && |s2.queue| == 1 && s2.queue[0].tag == Auth;
    Polls(cfg, w2, s2, Idle());
    w3, t := Polled(cfg, w2, 1, Idle()), Resume(cfg, s2, Idle()).st;
  }

  lemma SameAnswer(cfg: Config, m: Msg, n: Msg, challenge: seq<byte>)
    requires Answers(cfg, m, SHARED, challenge) && n.bytes == m.bytes && n.len == m.len
    ensures Answers(cfg, n, SHARED, challenge)
  {
  }

  /** Steps 7 and 8: a request without elements is acceptable. */
  lemma Associated(cfg: Config, w: World, s: Station) returns (w1: World, w2: World, t: Station)
    requires Quiet(w, s) && s.point == Shared4Wait
    ensures PoolShape(w1.free) && w1 == Received(w, 1, AssocFrame, Frame(AssocBytes()), true)
    ensures w2 == Polled(cfg, w1, 1, Idle()) && Quiet(w2, t)
    ensures Above(t.state) && t.login == s.login
  {
    hide Received, Polled, Conserved, PoolShape, AuthRequest, SharedAnswer, Maintaining, Rejoining,
         AssocBytes, AssocScan, Grants;
    var a := Delivers(w, s, AssocFrame, Frame(AssocBytes()));
    BareGrants(cfg, [], a);
    ScanAccepts(cfg, [], s.choice, a);
    w1 := Received(w, 1, AssocFrame, Frame(AssocBytes()), true);
    var s1 := s.(queue := [a]);
    assert Resume(cfg, s1, Idle()).st.queue == [];
    Resumes(cfg, w1, s1, Idle());
    w2, t := Polled(cfg, w1, 1, Idle()), Resume(cfg, s1, Idle()).st;
  }

  /** Any accepted answer, whatever its length, lets a station through that sent only the answer's own
      bytes: another station's refused frame supplied the rest of the buffer. */
  lemma StaleAdmits(cfg: Config, text: seq<byte>, m: Msg)
    requires cfg.authAlgo == SHARED && InUse(m) && m.tag == Auth && Le16(m.bytes, 26) != 1
    requires Answers(cfg, m, SHARED, text) && FrameType(m.bytes) == 0xB0
    ensures AllGenuine(StaleRun(text, m))
    ensures var w := Run(cfg, Initial(), StaleRun(text, m));
            && |w.stations| == 2 && w.stations[1].mac == 1 && Above(w.stations[1].state)
            && w.stations[1].login.challenge == text
            && w.stations[1].login.answer.bytes == m.bytes && w.stations[1].login.answer.len == m.len
  {
    hide Received, Polled, Conserved, Le16, Answers, Step, Above, PoolShape, FrameType, AllGenuine, Matches;
    AnswerLength(cfg, m, text);
    var es := StaleRun(text, m);
    StaleGenuine(text, m);
    var w1, w2, s2 := Challenged(cfg, text, m);
    var w3, g := Calls(cfg, w2, s2, Frame(m.bytes));
    assert g.bytes == m.bytes;
    var w4 := Refused(cfg, w2, s2, w3, g);
    var w5, w6, w7, s7 := Answered(cfg, w4, s2, m);
    var w8, w9, s9 := Associated(cfg, w7, s7);
    var ws := [Initial(), w1, w2, w3, w4, w5, w6, w7, w8, w9];
    QuietShape(w2, s2);
    QuietShape(w4, s2);
    QuietShape(w7, s7);
    QuietShape(w9, s9);
    assert w3 == Step(cfg, w2, es[2]) && w4 == Step(cfg, w3, es[3]) by { Stepped(cfg, w2, w3, w4, text, m); }
    assert w5 == Step(cfg, w4, es[4]) && w6 == Step(cfg, w5, es[5]) && w7 == Step(cfg, w6, es[6]) by {
      SteppedOn(cfg, w4, w5, w6, w7, text, m);
    }
    assert w8 == Step(cfg, w7, es[7]) && w9 == Step(cfg, w8, es[8]) by { SteppedLast(cfg, w7, w8, w9, text, m); }
    RunFollows(cfg, ws, es, 9);
    assert es[..9] == es;
  }

  lemma AnswerLength(cfg: Config, m: Msg, text: seq<byte>)
    requires Answers(cfg, m, SHARED, text)
    ensures 28 <= m.len <= |m.bytes| && (FrameType(m.bytes) == 0xB0 ==> Matches(AuthFrame, Frame(m.bytes)))
  {
  }

  lemma StaleGenuine(text: seq<byte>, m: Msg)
    requires 24 <= m.len <= |m.bytes| && FrameType(m.bytes) == 0xB0
    ensures AllGenuine(StaleRun(text, m))
  {
    hide AuthBytes, AssocBytes;
  }

  lemma Stepped(cfg: Config, a: World, b: World, c: World, text: seq<byte>, m: Msg)
    requires m.len <= |m.bytes| && PoolShape(a.free) && PoolShape(b.free)
    requires b == Received(a, 2, AuthFrame, Frame(m.bytes), true) && c == Polled(cfg, b, 2, Idle())
    ensures b == Step(cfg, a, StaleRun(text, m)[2]) && c == Step(cfg, b, StaleRun(text, m)[3])
  {
    hide Received, Polled;
  }

  lemma SteppedOn(cfg: Config, a: World, b: World, c: World, d: World, text: seq<byte>, m: Msg)
    requires m.len <= |m.bytes| && PoolShape(a.free) && PoolShape(b.free) && PoolShape(c.free)
    requires b == Received(a, 1, AuthFrame, Frame(m.bytes[..m.len]), true)
    requires c == Polled(cfg, b, 1, Idle()) && d == Polled(cfg, c, 1, Idle())
    ensures b == Step(cfg, a, StaleRun(text, m)[4]) && c == Step(cfg, b, StaleRun(text, m)[5])
    ensures d == Step(cfg, c, StaleRun(text, m)[6])
  {
    hide Received, Polled;
  }

  lemma SteppedLast(cfg: Config, a: World, b: World, c: World, text: seq<byte>, m: Msg)
    requires m.len <= |m.bytes| && PoolShape(a.free) && PoolShape(b.free)
    requires b == Received(a, 1, AssocFrame, Frame(AssocBytes()), true) && c == Polled(cfg, b, 1, Idle())
    ensures b == Step(cfg, a, StaleRun(text, m)[7]) && c == Step(cfg, b, StaleRun(text, m)[8])
  {
    hide Received, Polled;
  }

  /** For every challenge there is a run that lets a station through on a 28-byte answer, which needs no
      key and seals nothing. */
  lemma KeylessAdmitted(cfg: Config, text: seq<byte>) returns (es: seq<Event>)
    requires cfg.authAlgo == SHARED && |text| == CHALLENGE_LEN
    ensures AllGenuine(es)
    ensures var w := Run(cfg, Initial(), es);
            && |w.stations| == 2 && Above(w.stations[1].state) && w.stations[1].login.challenge == text
            && w.stations[1].login.answer.len == 28
            && !SealedWithKey(cfg, w.stations[1].login.answer)
            && !SealsChallenge(cfg, w.stations[1].login.answer, text)
  {
    hide Run, Answers, SealsChallenge, SealedWithKey, Above, StaleRun, Le16, FrameType, AllGenuine;
    var m := KeylessAnswer(cfg, text);
    HeaderReads(m.bytes);
    StaleAdmits(cfg, text, m);
    es := StaleRun(text, m);
    var answer := Run(cfg, Initial(), es).stations[1].login.answer;
    SameKeyed(cfg, m, answer);
    ShortSealsNothing(cfg, answer, text);
  }

  lemma SameKeyed(cfg: Config, m: Msg, n: Msg)
    requires n.bytes == m.bytes && n.len == m.len
    ensures SealedWithKey(cfg, n) <==> SealedWithKey(cfg, m)
  {
  }

  lemma HeaderReads(b: seq<byte>)
    requires |b| >= 28 && b[..28] == Header()
    ensures Le16(b, 26) == 0 && FrameType(b) == 0xB0
  {
    hide Header, Le16, FrameType;
    HeaderHolds();
    assert b[0] == Header()[0] && b[26] == Header()[26] && b[27] == Header()[27];
    ReadsZero(b, 26);
    TypeOf(b);
  }

  lemma ReadsZero(b: seq<byte>, at: nat)
    requires at + 1 < |b| && b[at] == 0 && b[at + 1] == 0
    ensures Le16(b, at) == 0
  {
  }

  lemma TypeOf(b: seq<byte>)
    requires |b| > 0 && b[0] == 0xB0
    ensures FrameType(b) == 0xB0
  {
  }

  lemma HeaderHolds()
    ensures |Header()| == 28 && Header()[0] == 0xB0 && Header()[26] == 0 && Header()[27] == 0
  {
  }

  /** And one on a 36-byte answer that was sealed with the key but holds no byte of the challenge. */
  lemma ShortAdmitted(cfg: Config, text: seq<byte>) returns (es: seq<Event>)
    requires cfg.authAlgo == SHARED && |text| == CHALLENGE_LEN
    ensures AllGenuine(es)
    ensures var w := Run(cfg, Initial(), es);
            && |w.stations| == 2 && Above(w.stations[1].state) && w.stations[1].login.challenge == text
            && w.stations[1].login.answer.len == 36
            && SealedWithKey(cfg, w.stations[1].login.answer)
            && !SealsChallenge(cfg, w.stations[1].login.answer, text)
  {
    hide Run, Answers, SealsChallenge, SealedWithKey, Above, StaleRun, Le16, FrameType, AllGenuine;
    var m := ShortAnswer(cfg, text);
    HeaderReads(m.bytes);
    StaleAdmits(cfg, text, m);
    es := StaleRun(text, m);
    var answer := Run(cfg, Initial(), es).stations[1].login.answer;
    SameKeyed(cfg, m, answer);
    ShortSealsNothing(cfg, answer, text);
  }

  // ----- a first message on a buffer that another station filled -----

  /** An authentication frame that ends behind its header. */
  function HeaderBytes(): (r: seq<byte>)
    ensures |r| == 24 && r[0] == 0xB0
  {
    [0xB0] + seq(23, _ => 0)
  }

  /** Station 1 authenticates; station 2 sends 24 bytes and nothing behind the header, then asks to
      associate. */
  function HeaderRun(): (es: seq<Event>)
    ensures |es| == 6
  {
    [Receive(1, AuthFrame, Frame(AuthBytes(OPEN)), true), Poll(1, Idle()),
     Receive(2, AuthFrame, Frame(HeaderBytes()), true), Poll(2, Idle()),
     Receive(2, AssocFrame, Frame(AssocBytes()), true), Poll(2, Idle())]
  }

  /** Steps 0 and 1: the request's buffer is the next one to be used. */
  lemma Opens(cfg: Config) returns (w1: World, w2: World, s: Station)
    requires cfg.authAlgo == OPEN
    ensures PoolShape(w1.free) && w1 == Step(cfg, Initial(), HeaderRun()[0])
    ensures w2 == Step(cfg, w1, HeaderRun()[1]) && Quiet(w2, s)
    ensures w2.free[Auth] != [] && AuthBytes(OPEN) <= w2.free[Auth][0].bytes
  {
    hide Received, Polled, Conserved, AuthBytes, PoolShape, Le16, AssocRun, SharedAnswer, Maintaining, Rejoining;
    var f := Frame(AuthBytes(OPEN));
    var first := Joins(f);
    FirstFrame(first.bytes, OPEN);
    w1 := Received(Initial(), 1, AuthFrame, f, true);
    var s1 := Fresh(1).(queue := [first]);
    var o := Resume(cfg, s1, Idle());
    assert !o.gone && o.st.queue == [] && o.freed == [first];
    Resumes(cfg, w1, s1, Idle());
    Polls(cfg, w1, s1, Idle());
    ReleaseOne(w1.free, first);
    w2, s := Polled(cfg, w1, 1, Idle()), o.st;
  }

  /** What the short frame is read as. */
  lemma OverRequest(buf: Msg)
    requires |buf.bytes| == Capacity(Auth) && AuthBytes(OPEN) <= buf.bytes
    ensures var m := Filled(buf, Auth, Frame(HeaderBytes()));
            Le16(m.bytes, 24) == OPEN && Le16(m.bytes, 26) == 1 && m.len == 24 && !SaysItself(m)
  {
    var m := Filled(buf, Auth, Frame(HeaderBytes()));
    assert forall i :: 24 <= i < 28 ==> m.bytes[i] == buf.bytes[i] == AuthBytes(OPEN)[i];
    RequestSaidItself(m);
  }

  /** Resuming station 2, the last of three. */
  lemma PollsLast(cfg: Config, w: World, ss: seq<Station>, s: Station)
    requires PoolShape(w.free) && Conserved(w) && w.stations == ss + [s] && s.mac == 2
    requires (forall j :: 0 <= j < |ss| ==> ss[j].mac != 2) && !Resume(cfg, s, Idle()).gone
    ensures var n := Polled(cfg, w, 2, Idle());
            && PoolShape(n.free) && Conserved(n) && n.stations == ss + [Resume(cfg, s, Idle()).st]
            && n.free == ReleaseAll(w.free, Resume(cfg, s, Idle()).freed)
  {
    hide Resume, PoolInv, AllInUse, Notes, ReleaseAll, RunsPast, Find, Noted;
    FindsAt(w.stations, |ss|, 2);
    StepConserves(cfg, w, Poll(2, Idle()));
  }

  /** Step 4: an association request of station 2 is laid over the buffer that was freed last. */
  lemma Asks(cfg: Config, w: World, ss: seq<Station>, s: Station, f: Frame) returns (w1: World, m: Msg)
    requires PoolShape(w.free) && Conserved(w) && w.stations == ss + [s] && s.mac == 2 && s.queue == []
    requires forall j :: 0 <= j < |ss| ==> ss[j].mac != 2 && ss[j].queue == []
    requires Matches(AssocFrame, f) && |f.bytes| <= Capacity(AssocReq)
    ensures PoolShape(w1.free) && w1 == Received(w, 2, AssocFrame, f, true)
    ensures Conserved(w1) && w1.stations == ss + [s.(queue := [m])]
    ensures w.free[AssocReq] != [] && m == Filled(w.free[AssocReq][0], AssocReq, f)
    ensures m.tag == AssocReq && m.len == |f.bytes| && f.bytes <= m.bytes
  {
    hide Find, PoolInv, AllInUse;
    FindsAt(w.stations, |ss|, 2);
    NoneQueued(w.stations, AssocReq);
    assert |w.free[AssocReq]| + Queued(w.stations, AssocReq) == Depth(AssocReq);
    m := Filled(w.free[AssocReq][0], AssocReq, f);
    w1 := Received(w, 2, AssocFrame, f, true);
    StepConserves(cfg, w, Receive(2, AssocFrame, f, true));
    assert [] + [m] == [m];
  }

  /** Step 5: an acceptable one is accepted. */
  lemma Enters(cfg: Config, w: World, ss: seq<Station>, s: Station, m: Msg) returns (n: World, t: Station)
    requires PoolShape(w.free) && Conserved(w) && w.stations == ss + [s] && s.mac == 2 && s.queue == [m]
    requires (forall j :: 0 <= j < |ss| ==> ss[j].mac != 2) && s.point == OpenWait
    requires m.tag == AssocReq && Grants(cfg, [], m)
    ensures PoolShape(n.free) && n == Polled(cfg, w, 2, Idle()) && n.stations == ss + [t]
    ensures Above(t.state) && t.login == s.login && t.mac == 2 && t.choice.granted == m
  {
    hide Polled, Conserved, AuthRequest, SharedAnswer, Maintaining, Rejoining, AssocScan, Grants;
    ScanAccepts(cfg, [], s.choice, m);
    PollsLast(cfg, w, ss, s);
    n, t := Polled(cfg, w, 2, Idle()), Resume(cfg, s, Idle()).st;
  }

  lemma {:induction false} NoneQueued(ss: seq<Station>, t: Tag)
    requires forall j :: 0 <= j < |ss| ==> ss[j].queue == []
    ensures Queued(ss, t) == 0
  {
    if ss != [] {
      NoneQueued(ss[1..], t);
    }
  }

  /** A 24-byte authentication frame, which carries neither algorithm nor transaction, lets a station
      through to association. */
  lemma HeaderAdmitted(cfg: Config)
    requires cfg.authAlgo == OPEN
    ensures AllGenuine(HeaderRun())
    ensures var w := Run(cfg, Initial(), HeaderRun());
            && |w.stations| == 3 && w.stations[2].mac == 2 && Above(w.stations[2].state)
            && w.stations[2].login.request.len == 24 && !SaysItself(w.stations[2].login.request)
  {
    hide Received, Polled, Conserved, Above, SaysItself, AuthBytes, AssocBytes, HeaderBytes, Grants, Resume;
    var w1, w2, s := Opens(cfg);
    assert PoolShape(w2.free) by { QuietShape(w2, s); }
    var w3, w4, s4 := HeaderTaken(cfg, w2, s);
    var w5, a := Asks(cfg, w4, w2.stations, s4, Frame(AssocBytes()));
    BareGrants(cfg, [], a);
    var w6, t := Enters(cfg, w5, w2.stations, s4.(queue := [a]), a);
    HeaderFollows(cfg, [Initial(), w1, w2, w3, w4, w5, w6]);
  }

  /** Steps 2 and 3. */
  lemma HeaderTaken(cfg: Config, w: World, s: Station) returns (w1: World, w2: World, t: Station)
    requires Quiet(w, s) && cfg.authAlgo == OPEN && w.free[Auth] != [] && AuthBytes(OPEN) <= w.free[Auth][0].bytes
    ensures PoolShape(w1.free) && w1 == Received(w, 2, AuthFrame, Frame(HeaderBytes()), true)
    ensures PoolShape(w2.free) && w2 == Polled(cfg, w1, 2, Idle()) && Conserved(w2)
    ensures w2.stations == w.stations + [t] && t.mac == 2 && t.queue == [] && t.point == OpenWait
    ensures t.login.request.len == 24 && !SaysItself(t.login.request)
  {
    hide Received, Polled, Conserved, Le16, SaysItself, AuthBytes, HeaderBytes, AssocRun, SharedAnswer,
         Maintaining, Rejoining;
    var m;
    w1, m := Calls(cfg, w, s, Frame(HeaderBytes()));
    OverRequest(w.free[Auth][0]);
    var s1 := Fresh(2).(queue := [m]);
    var o := Resume(cfg, s1, Idle());
    assert !o.gone && o.st.queue == [] && o.st.point == OpenWait && o.st.login.request == m;
    PollsLast(cfg, w1, w.stations, s1);
    w2, t := Polled(cfg, w1, 2, Idle()), o.st;
  }

  lemma HeaderFollows(cfg: Config, ws: seq<World>)
    requires |ws| == 7 && ws[0] == Initial() && forall k :: 0 <= k < 7 ==> PoolShape(ws[k].free)
    requires ws[1] == Step(cfg, ws[0], HeaderRun()[0]) && ws[2] == Step(cfg, ws[1], HeaderRun()[1])
    requires ws[3] == Received(ws[2], 2, AuthFrame, Frame(HeaderBytes()), true)
    requires ws[4] == Polled(cfg, ws[3], 2, Idle())
    requires ws[5] == Received(ws[4], 2, AssocFrame, Frame(AssocBytes()), true)
    requires ws[6] == Polled(cfg, ws[5], 2, Idle())
    ensures Run(cfg, Initial(), HeaderRun()) == ws[6]
  {
    hide Received, Polled, AuthBytes, AssocBytes, HeaderBytes;
    var es := HeaderRun();
    RunFollows(cfg, ws, es, 6);
    assert es[..6] == es;
  }

  // ----- decrypting past the buffer -----

  /** The header of a protected authentication frame and nothing behind it. */
  function ProtectedHeader(): (r: seq<byte>)
    ensures |r| == 24 && r[0] == 0xB0 && r[1] == 64
  {
    [0xB0, 64] + seq(22, _ => 0)
  }

  /** Station 1 asks for shared key and answers with a protected header. */
  function PastRun(text: seq<byte>): (es: seq<Event>)
    ensures |es| == 4
  {
    [Receive(1, AuthFrame, Frame(AuthBytes(SHARED)), true), Poll(1, Env(false, false, text, [])),
     Receive(1, AuthFrame, Frame(ProtectedHeader()), true), Poll(1, Idle())]
  }

  lemma HeaderRunsPast(cfg: Config, text: seq<byte>)
    requires cfg.authAlgo == SHARED
    ensures AllGenuine(PastRun(text)) && Run(cfg, Initial(), PastRun(text)).past
  {
    hide Received, Polled, Conserved, PoolShape, AuthBytes, ProtectedHeader, Resume;
    var es := PastRun(text);
    var w1, w2, s := Challenged(cfg, text, Blank(Beacon));
    assert PoolShape(w2.free) by { QuietShape(w2, s); }
    var f := Frame(ProtectedHeader());
    var got := Delivers(w2, s, AuthFrame, f);
    var w3 := Received(w2, 1, AuthFrame, f, true);
    assert Protected(got.bytes) by { assert got.bytes[1] == f.bytes[1]; }
    assert Find(w3.stations, 1) == 1 && AnswersShort(w3.stations[1]);
    RunFollows(cfg, [Initial(), w1, w2, w3], es, 3);
    RunsPastExactly(cfg, es);
  }
}
