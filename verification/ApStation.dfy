/** One station's access-point protothread: authentication, association, maintenance and clean-up,
    one resumption at a time. */
module ApStation {
  import opened Bytes
  import opened ApMessage
  import opened ApRequest
  import opened LinkCipher

  // ----- the station record -----

  datatype State = Authenticating | Associating | Blocked | Unblocked | Deauthenticated | Disassociated

  /** State above "associating". */
  predicate Above(s: State) {
    s != Authenticating && s != Associating
  }

  /** Not on the way out: the states that clean-up is entered with are left only with the record. */
  predicate Settled(s: State) {
    s != Deauthenticated && s != Disassociated
  }

  /** Where the protothread resumes. */
  datatype Point = AuthWait | OpenWait | Shared3Wait | Shared4Wait | Maintain | DisassocWait

  /** What authentication recorded. `request` and `answer` keep the accepted first message and the
      accepted third one as it arrived; the code has no such fields and no step reads them. */
  datatype Login = Login(algo: nat, challenge: seq<byte>, request: Msg, answer: Msg)

  datatype Station = Station(mac: nat, state: State, point: Point, queue: seq<Msg>, idle: nat,
                             login: Login, choice: Choice)

  /** A cleared record with the queue and the protothread set up. */
  function Fresh(mac: nat): Station {
    Station(mac, Authenticating, AuthWait, [], 0, Login(0, [], Blank(Beacon), Blank(Beacon)),
            Choice([], [], false, {}, false, {}, false, false, false, Blank(Beacon), []))
  }

  datatype Indication = Associate | Disassociate

  /** What one resumption does: the new record, the messages freed in order, the indications given,
      and whether the thread ended and the record was removed. */
  datatype Out = Out(st: Station, freed: seq<Msg>, inds: seq<Indication>, gone: bool)

  /** What the environment contributes: timer expiry, traffic since the last tick, random text, and what
      a walk over an association request finds unwritten. */
  datatype Env = Env(expired: bool, active: bool, text: seq<byte>, stray: Strays)

  predicate Protected(b: seq<byte>) {
    |b| >= 2 && b[1] / 64 % 2 == 1
  }

  /** The wait is over when a message is queued or the timer has run out. */
  predicate Ready(s: Station, env: Env) {
    s.queue != [] || env.expired
  }

  function Stay(s: Station): Out {
    Out(s, [], [], false)
  }

  /** Free the head message and go on at `p`. */
  function Pop(s: Station): Station
    requires s.queue != []
  {
    s.(queue := s.queue[1..])
  }

  /** Leave the thread: report the end of an association, free the queue, remove the record. */
  function Leave(s: Station, freed: seq<Msg>, inds: seq<Indication>): Out {
    Out(s.(queue := []), freed + s.queue, inds + if Above(s.state) then [Disassociate] else [], true)
  }

  // ----- authentication -----

  /** The algorithm the access point asks of a station whose first message names `wanted`. */
  function ChosenAlgo(cfg: Config, wanted: nat): nat {
    if cfg.authAlgo == AUTO && cfg.wepPrivacy then wanted
    else if cfg.authAlgo == DOT1X then OPEN
    else cfg.authAlgo
  }

  function AuthRequest(cfg: Config, s: Station, env: Env): Out {
    if s.queue == [] then Stay(s)
    else
      var m := s.queue[0];
      if m.tag != Auth then Leave(Pop(s), [m], [])
      else
        var wanted := Le16(m.bytes, 24);
        if Le16(m.bytes, 26) != 1 then Leave(Pop(s).(state := Authenticating), [m], [])
        else
          var algo := ChosenAlgo(cfg, wanted);
          var s1 := Pop(s).(state := Authenticating, login := s.login.(algo := algo));
          if wanted > SHARED || wanted != algo then Leave(s1, [m], [])
          else if algo == OPEN then
            Out(s1.(point := OpenWait, login := s1.login.(request := m)), [m], [], false)
          else
            Out(s1.(point := Shared3Wait, login := s1.login.(request := m, challenge := env.text)),
                [m], [], false)
  }

  function OpenReply(cfg: Config, s: Station, env: Env): Out {
    if !Ready(s, env) then Stay(s)
    else if s.queue == [] then Leave(s, [], [])
    else if s.queue[0].tag == Auth then Out(Pop(s), [s.queue[0]], [], false)
    else AssocRun(cfg, env.stray, s, [], [])
  }

  /** The third message decrypted where it lies, and whether its check value matched. */
  function Decrypted(cfg: Config, m: Msg): Opened {
    if 28 <= m.len <= |m.bytes| then
      var o := Open(WepKey(cfg.keys, m.bytes[..m.len], 24), m.bytes[..m.len], 28);
      Opened(o.ok, o.frame + m.bytes[m.len..])
    else
      Opened(false, m.bytes)
  }

  /** Arithmetic on 32-bit lengths. */
  function Wrap32(x: int): nat {
    x % 0x1_0000_0000
  }

  /** Where the decryption of the third message ends: the length of the payload without the check
      value is computed first, and then the check value's is added again. */
  function DecryptEnd(m: Msg): nat {
    var payload := Wrap32(m.len - 28 - ICV_LEN);
    28 + Wrap32(payload + ICV_LEN)
  }

  /** The station is about to decrypt past the end of a message's buffer. The model goes on as if the
      message were refused. */
  predicate RunsPast(s: Station) {
    && s.point == Shared3Wait && s.queue != [] && s.queue[0].tag == Auth
    && Protected(s.queue[0].bytes) && DecryptEnd(s.queue[0]) > |s.queue[0].bytes|
  }

  /** That happens exactly to messages that end before the payload starts; the length wraps there. */
  lemma PastIffShort(m: Msg)
    requires InUse(m) && m.tag == Auth
    ensures DecryptEnd(m) > |m.bytes| <==> m.len < 28
  {
  }

  const CHALLENGE_OFS := 36
  const CHALLENGE_LEN := 128

  /** The third message is protected, decrypts, carries transaction 3 and the agreed algorithm, and
      its buffer holds the challenge. */
  predicate Answers(cfg: Config, m: Msg, algo: nat, challenge: seq<byte>) {
    var o := Decrypted(cfg, m);
    && Protected(m.bytes)
    && o.ok
    && Le16(o.frame, 30) == 3
    && Le16(o.frame, 28) == algo
    && CHALLENGE_OFS + CHALLENGE_LEN <= |o.frame|
    && o.frame[CHALLENGE_OFS..CHALLENGE_OFS + CHALLENGE_LEN] == challenge
  }

  /** On success the decrypted message stays queued; the next wait takes it for a duplicate. */
  function SharedAnswer(cfg: Config, s: Station, env: Env): Out {
    if !Ready(s, env) then Stay(s)
    else if s.queue == [] then Leave(s, [], [])
    else
      var m := s.queue[0];
      if m.tag != Auth then Leave(Pop(s), [m], [])
      else
        var d := if Protected(m.bytes) then m.(bytes := Decrypted(cfg, m).frame) else m;
        if Answers(cfg, m, s.login.algo, s.login.challenge) then
          Stay(s.(point := Shared4Wait, queue := s.queue[0 := d], login := s.login.(answer := m)))
        else Leave(Pop(s), [d], [])
  }

  // ----- association -----

  /** The association sub-thread, which does not wait, and the start of the maintenance one. */
  function AssocRun(cfg: Config, st: Strays, s: Station, freed: seq<Msg>, inds: seq<Indication>): Out {
    if s.queue == [] then Leave(s, freed, inds)
    else
      var m := s.queue[0];
      if m.tag != AssocReq then Leave(Pop(s), freed + [m], inds)
      else
        var r := AssocScan(cfg, st, s.choice, m);
        var s1 := Pop(s).(state := Associating, choice := r.choice);
        if !r.ok then Leave(s1, freed + [m], inds)
        else
          Out(s1.(state := if cfg.authAlgo == DOT1X then Blocked else Unblocked, point := Maintain, idle := 0,
                  choice := r.choice.(granted := m, found := st)),
              freed + [m], inds + [Associate], false)
  }

  // ----- maintenance -----

  const IDLE_LIMIT := 20 * 60

  function Maintaining(cfg: Config, s: Station, env: Env): Out {
    if !Ready(s, env) then Stay(s)
    else if s.queue == [] then
      if env.active then Stay(s)
      else if s.idle >= IDLE_LIMIT then Leave(s.(idle := s.idle + 1), [], [])
      else Stay(s.(idle := s.idle + 1))
    else
      var m := s.queue[0];
      match m.tag
      case Auth => Leave(s, [], [])
      case Deauth => Leave(s.(state := Deauthenticated), [], [])
      case Disassoc => Out(Pop(s).(point := DisassocWait), [m], [], false)
      case _ => Out(Pop(s), [m], [], false)
  }

  /** After a disassociation, an association request goes back to the association sub-thread; its
      hook may have overwritten the state that the outer thread tests. */
  function Rejoining(cfg: Config, s: Station, env: Env): Out {
    if !Ready(s, env) then Stay(s)
    else if s.queue != [] && s.queue[0].tag == AssocReq then
      var s1 := s.(state := if cfg.hookMarks then Disassociated else Associating);
      if s1.state == Associating then AssocRun(cfg, env.stray, s1, [], [Disassociate])
      else Leave(s1, [], [Disassociate])
    else Leave(s, [], [])
  }

  function Resume(cfg: Config, s: Station, env: Env): Out {
    match s.point
    case AuthWait => AuthRequest(cfg, s, env)
    case OpenWait => OpenReply(cfg, s, env)
    case Shared3Wait => SharedAnswer(cfg, s, env)
    case Shared4Wait => OpenReply(cfg, s, env)
    case Maintain => Maintaining(cfg, s, env)
    case DisassocWait => Rejoining(cfg, s, env)
  }

  // ----- what every resumption keeps -----

  /** The connected points of the thread. */
  predicate Connected(s: Station) {
    s.point == Maintain || s.point == DisassocWait
  }

  /** The first message was accepted: transaction 1, an algorithm the access point asks for. */
  predicate Requested(cfg: Config, l: Login) {
    && Le16(l.request.bytes, 26) == 1
    && Le16(l.request.bytes, 24) == l.algo
    && l.algo <= SHARED
    && l.algo == ChosenAlgo(cfg, l.algo)
  }

  /** Authentication is complete: nothing more for open system, the answered challenge for shared key. */
  predicate Authenticated(cfg: Config, l: Login) {
    && Requested(cfg, l)
    && (l.algo == SHARED ==> Answers(cfg, l.answer, l.algo, l.challenge))
  }

  /** The recorded request was acceptable, and a copy has run past its field exactly when one of its
      elements is too long. */
  predicate Granted(cfg: Config, c: Choice) {
    && Grants(cfg, c.found, c.granted)
    && (c.spilt <==> Oversized(cfg, Interpreted(c.found, 0, WalkOf(c.granted).es)))
  }

  predicate StationInv(cfg: Config, s: Station) {
    && CiphersOk(cfg, s.choice)
    && (Connected(s) <==> Above(s.state)) && Settled(s.state)
    && (s.point == OpenWait ==> Requested(cfg, s.login) && s.login.algo == OPEN)
    && (s.point == Shared3Wait ==> Requested(cfg, s.login) && s.login.algo == SHARED)
    && (s.point == Shared4Wait || Connected(s) ==> Authenticated(cfg, s.login))
    && (Connected(s) ==> Granted(cfg, s.choice))
  }

  lemma FreshInv(cfg: Config, mac: nat)
    ensures StationInv(cfg, Fresh(mac)) && !Connected(Fresh(mac))
  {
  }

  /** From an authenticated station, the association sub-thread ends connected with one association
      indication, or leaves with none. */
  lemma AssocKeeps(cfg: Config, st: Strays, s: Station, freed: seq<Msg>, inds: seq<Indication>)
    requires CiphersOk(cfg, s.choice) && Authenticated(cfg, s.login) && !Above(s.state)
    ensures var o := AssocRun(cfg, st, s, freed, inds);
            && o.st.mac == s.mac
            && (!o.gone ==> StationInv(cfg, o.st) && Connected(o.st))
            && o.inds == inds + if o.gone then [] else [Associate]
  {
    hide Authenticated, AssocScan, Grants, CiphersOk, Oversized, Interpreted, WalkOf;
    if s.queue != [] && s.queue[0].tag == AssocReq {
      var m := s.queue[0];
      ScanKeeps(cfg, st, s.choice, m);
      ScanAccepts(cfg, st, s.choice, m);
      var r := AssocScan(cfg, st, s.choice, m);
      if r.ok {
        GrantOk(cfg, r.choice, m, st);
        GrantedSpills(cfg, st, s.choice, m);
      }
    }
  }

  /** What a resumption reports: the change from connected to not connected and back, each once. */
  function Expected(before: bool, after: bool, rejoins: bool): seq<Indication> {
    if rejoins then [Disassociate] + (if after then [Associate] else [])
    else if before && !after then [Disassociate]
    else if !before && after then [Associate]
    else []
  }

  /** The resumption is a re-association. */
  predicate Rejoins(s: Station) {
    s.point == DisassocWait && s.queue != [] && s.queue[0].tag == AssocReq
  }

  /** The station invariant is kept, and the change of connection is reported exactly, unless the
      hook's mark makes the outer thread miss a re-association. */
  ghost predicate Reports(cfg: Config, s: Station, o: Out) {
    && o.st.mac == s.mac
    && (!o.gone ==> StationInv(cfg, o.st))
    && o.inds == (if cfg.hookMarks && Rejoins(s) then [Disassociate, Disassociate]
                  else Expected(Connected(s), !o.gone && Connected(o.st), Rejoins(s)))
    && (cfg.hookMarks && Rejoins(s) ==> o.gone)
  }

  lemma AuthKeeps(cfg: Config, s: Station, env: Env)
    requires StationInv(cfg, s) && s.point == AuthWait
    ensures Reports(cfg, s, AuthRequest(cfg, s, env))
  {
    hide Authenticated, Granted, Le16, CiphersOk;
  }

  lemma ReplyKeeps(cfg: Config, s: Station, env: Env)
    requires StationInv(cfg, s) && (s.point == OpenWait || s.point == Shared4Wait)
    ensures Reports(cfg, s, OpenReply(cfg, s, env))
  {
    hide Answers, Le16, ChosenAlgo, AssocRun, Granted, CiphersOk;
    if s.queue != [] && s.queue[0].tag != Auth {
      AssocKeeps(cfg, env.stray, s, [], []);
    }
  }

  lemma SharedKeeps(cfg: Config, s: Station, env: Env)
    requires StationInv(cfg, s) && s.point == Shared3Wait
    ensures Reports(cfg, s, SharedAnswer(cfg, s, env))
  {
    hide Answers, Le16, ChosenAlgo, Decrypted, Granted, CiphersOk;
  }

  lemma MaintainKeeps(cfg: Config, s: Station, env: Env)
    requires StationInv(cfg, s) && s.point == Maintain
    ensures Reports(cfg, s, Maintaining(cfg, s, env))
  {
    hide Authenticated, Granted, CiphersOk;
  }

  lemma RejoinKeeps(cfg: Config, s: Station, env: Env)
    requires StationInv(cfg, s) && s.point == DisassocWait
    ensures Reports(cfg, s, Rejoining(cfg, s, env))
  {
    hide Authenticated, Granted, CiphersOk, AssocRun;
    if Rejoins(s) && !cfg.hookMarks {
      AssocKeeps(cfg, env.stray, s.(state := Associating), [], [Disassociate]);
    }
  }

  /** Every resumption reports, wherever the thread stood. */
  lemma ResumeKeeps(cfg: Config, s: Station, env: Env)
    requires StationInv(cfg, s)
    ensures Reports(cfg, s, Resume(cfg, s, env))
  {
    hide AuthRequest, OpenReply, SharedAnswer, Maintaining, Rejoining, StationInv, Reports;
    match s.point
    case AuthWait => AuthKeeps(cfg, s, env);
    case OpenWait => ReplyKeeps(cfg, s, env);
    case Shared3Wait => SharedKeeps(cfg, s, env);
    case Shared4Wait => ReplyKeeps(cfg, s, env);
    case Maintain => MaintainKeeps(cfg, s, env);
    case DisassocWait => RejoinKeeps(cfg, s, env);
  }

  // ----- messages -----

  /** The accepted request, as recorded, was in a buffer of its own tag. */
  ghost predicate Sound(s: Station) {
    && Settled(s.state)
    && (Connected(s) ==> InUse(s.choice.granted) && s.choice.granted.tag == AssocReq)
  }

  lemma AssocSound(cfg: Config, st: Strays, s: Station, inds: seq<Indication>)
    requires AllInUse(s.queue)
    ensures var o := AssocRun(cfg, st, s, [], inds); !o.gone ==> Sound(o.st)
  {
    hide AssocScan;
  }

  lemma AuthSound(cfg: Config, s: Station, env: Env)
    requires Sound(s) && !Connected(s)
    ensures var o := AuthRequest(cfg, s, env); !o.gone ==> Sound(o.st)
  {
    hide Le16, ChosenAlgo;
  }

  lemma MaintainSound(cfg: Config, s: Station, env: Env)
    requires Sound(s) && s.point == Maintain
    ensures var o := Maintaining(cfg, s, env); !o.gone ==> Sound(o.st)
  {
    hide InUse;
  }

  lemma ResumeSound(cfg: Config, s: Station, env: Env)
    requires AllInUse(s.queue) && Sound(s)
    ensures var o := Resume(cfg, s, env); !o.gone ==> Sound(o.st)
  {
    hide AssocRun, AuthRequest, Maintaining, Answers, Decrypted, AllInUse, InUse;
    match s.point
    case AuthWait => AuthSound(cfg, s, env);
    case OpenWait => AssocSound(cfg, env.stray, s, []);
    case Shared3Wait =>
    case Shared4Wait => AssocSound(cfg, env.stray, s, []);
    case Maintain => MaintainSound(cfg, s, env);
    case DisassocWait => AssocSound(cfg, env.stray, s.(state := Associating), [Disassociate]);
  }

  /** The freed messages and the remaining ones are the queued ones, tag by tag. */
  ghost predicate Conserves(before: seq<Msg>, o: Out) {
    && AllInUse(o.freed) && AllInUse(o.st.queue)
    && (o.gone ==> o.st.queue == [])
    && forall t: Tag :: CountTag(o.freed, t) + CountTag(o.st.queue, t) == CountTag(before, t)
  }

  /** Popping the head into `freed` moves one message. */
  lemma PopConserves(que: seq<Msg>, m: Msg)
    requires que != [] && AllInUse(que) && InUse(m) && m.tag == que[0].tag
    ensures AllInUse([m]) && AllInUse(que[1..])
    ensures forall t: Tag :: CountTag([m], t) + CountTag(que[1..], t) == CountTag(que, t)
    ensures forall t: Tag :: CountTag([m] + que[1..], t) == CountTag(que, t)
  {
    forall t: Tag ensures CountTag([m] + que[1..], t) == CountTag([m], t) + CountTag(que[1..], t) {
      CountAppend([m], que[1..], t);
    }
    forall t: Tag ensures CountTag([m], t) == if m.tag == t then 1 else 0 {
      assert [m][1..] == [];
    }
  }

  lemma AssocConserves(cfg: Config, st: Strays, s: Station, inds: seq<Indication>)
    requires AllInUse(s.queue)
    ensures Conserves(s.queue, AssocRun(cfg, st, s, [], inds))
  {
    if s.queue == [] {
      assert [] + s.queue == s.queue;
    } else {
      var m := s.queue[0];
      PopConserves(s.queue, m);
      assert [] + [m] == [m];
    }
  }

  lemma DecryptedInUse(cfg: Config, m: Msg)
    requires InUse(m)
    ensures InUse(m.(bytes := Decrypted(cfg, m).frame))
  {
  }

  lemma SharedConserves(cfg: Config, s: Station, env: Env)
    requires AllInUse(s.queue)
    ensures Conserves(s.queue, SharedAnswer(cfg, s, env))
  {
    hide Decrypted, Answers;
    if s.queue == [] {
      assert [] + s.queue == s.queue;
    } else {
      var m := s.queue[0];
      assert InUse(m);
      var d := if Protected(m.bytes) then m.(bytes := Decrypted(cfg, m).frame) else m;
      DecryptedInUse(cfg, m);
      PopConserves(s.queue, m);
      PopConserves(s.queue, d);
      assert s.queue[0 := d] == [d] + s.queue[1..];
    }
  }

  /** Leaving with the head freed, or with it still queued. */
  lemma LeaveFrom(s: Station, t: Station, inds: seq<Indication>)
    requires AllInUse(s.queue)
    ensures t.queue == s.queue ==> Conserves(s.queue, Leave(t, [], inds))
    ensures s.queue != [] && t.queue == s.queue[1..] ==> Conserves(s.queue, Leave(t, [s.queue[0]], inds))
  {
    assert [] + s.queue == s.queue;
    if s.queue != [] {
      PopConserves(s.queue, s.queue[0]);
    }
  }

  lemma AuthConserves(cfg: Config, s: Station, env: Env)
    requires AllInUse(s.queue)
    ensures Conserves(s.queue, AuthRequest(cfg, s, env))
  {
    hide ChosenAlgo, Le16, Conserves, Leave, AllInUse;
    KeepConserves(s);
    forall t: Station | s.queue != [] && t.queue == s.queue[1..]
      ensures Conserves(s.queue, Leave(t, [s.queue[0]], []))
      ensures Conserves(s.queue, Out(t, [s.queue[0]], [], false))
    {
      LeaveFrom(s, t, []);
      PoppedConserves(s, t);
    }
  }

  lemma KeepConserves(s: Station)
    requires AllInUse(s.queue)
    ensures Conserves(s.queue, Stay(s))
  {
  }

  lemma PoppedConserves(s: Station, t: Station)
    requires AllInUse(s.queue) && s.queue != [] && t.queue == s.queue[1..]
    ensures Conserves(s.queue, Out(t, [s.queue[0]], [], false))
  {
    PopConserves(s.queue, s.queue[0]);
  }

  lemma ReplyConserves(cfg: Config, s: Station, env: Env)
    requires AllInUse(s.queue)
    ensures Conserves(s.queue, OpenReply(cfg, s, env))
  {
    hide Conserves, Leave, AssocRun, AllInUse;
    KeepConserves(s);
    LeaveFrom(s, s, []);
    if s.queue != [] {
      PoppedConserves(s, Pop(s));
    }
    AssocConserves(cfg, env.stray, s, []);
  }

  lemma MaintainConserves(cfg: Config, s: Station, env: Env)
    requires AllInUse(s.queue)
    ensures Conserves(s.queue, Maintaining(cfg, s, env))
  {
    hide Conserves, Leave, AllInUse;
    KeepConserves(s);
    KeepConserves(s.(idle := s.idle + 1));
    LeaveFrom(s, s, []);
    LeaveFrom(s, s.(idle := s.idle + 1), []);
    LeaveFrom(s, s.(state := Deauthenticated), []);
    if s.queue != [] {
      PoppedConserves(s, Pop(s));
      PoppedConserves(s, Pop(s).(point := DisassocWait));
    }
  }

  lemma RejoinConserves(cfg: Config, s: Station, env: Env)
    requires AllInUse(s.queue)
    ensures Conserves(s.queue, Rejoining(cfg, s, env))
  {
    hide Conserves, Leave, AllInUse, AssocRun;
    KeepConserves(s);
    LeaveFrom(s, s, []);
    LeaveFrom(s, s.(state := Disassociated), [Disassociate]);
    AssocConserves(cfg, env.stray, s.(state := Associating), [Disassociate]);
  }

  /** No resumption loses, adds or retags a message. */
  lemma ResumeConserves(cfg: Config, s: Station, env: Env)
    requires AllInUse(s.queue)
    ensures Conserves(s.queue, Resume(cfg, s, env))
  {
    hide AuthRequest, OpenReply, SharedAnswer, Maintaining, Rejoining, Conserves, AllInUse;
    match s.point
    case AuthWait => AuthConserves(cfg, s, env);
    case OpenWait => ReplyConserves(cfg, s, env);
    case Shared3Wait => SharedConserves(cfg, s, env);
    case Shared4Wait => ReplyConserves(cfg, s, env);
    case Maintain => MaintainConserves(cfg, s, env);
    case DisassocWait => RejoinConserves(cfg, s, env);
  }

  // ----- what an accepted message itself says -----

  /** The payload of an authentication frame holds the challenge at its place. */
  predicate PayloadHolds(plain: seq<byte>, challenge: seq<byte>)
    requires |plain| >= 28 + ICV_LEN
  {
    var payload := plain[28..|plain| - ICV_LEN];
    8 + CHALLENGE_LEN <= |payload| && payload[8..8 + CHALLENGE_LEN] == challenge
  }

  /** The frame is the sealing, under the station's key, of a frame whose payload holds the challenge. */
  ghost predicate SealsChallenge(cfg: Config, m: Msg, challenge: seq<byte>) {
    && 28 <= m.len <= |m.bytes|
    && var frame := m.bytes[..m.len];
       var key := WepKey(cfg.keys, frame, 24);
       exists plain: seq<byte> :: |plain| == m.len && 28 + ICV_LEN <= |plain|
                               && Seal(key, plain, 28) == frame && PayloadHolds(plain, challenge)
  }

  const KEYED_ANSWER := 28 + ICV_LEN
  const FULL_ANSWER := CHALLENGE_OFS + CHALLENGE_LEN + ICV_LEN

  /** The part of the buffer that the challenge is read from is the part of the payload. */
  lemma ChallengePlace(clear: seq<byte>, behind: seq<byte>)
    requires |clear| >= FULL_ANSWER
    ensures (clear + behind)[CHALLENGE_OFS..CHALLENGE_OFS + CHALLENGE_LEN]
         == clear[28..|clear| - ICV_LEN][8..8 + CHALLENGE_LEN]
  {
    var a := (clear + behind)[CHALLENGE_OFS..CHALLENGE_OFS + CHALLENGE_LEN];
    var payload := clear[28..|clear| - ICV_LEN];
    var b := payload[8..8 + CHALLENGE_LEN];
    forall i | 0 <= i < CHALLENGE_LEN ensures a[i] == b[i] {
      assert a[i] == (clear + behind)[CHALLENGE_OFS + i] == clear[CHALLENGE_OFS + i];
      assert b[i] == payload[8 + i] == clear[28 + (8 + i)];
    }
  }

  lemma LongAnswerSealed(cfg: Config, m: Msg, challenge: seq<byte>)
    requires FULL_ANSWER <= m.len <= |m.bytes| && Decrypted(cfg, m).ok
    requires Decrypted(cfg, m).frame[CHALLENGE_OFS..CHALLENGE_OFS + CHALLENGE_LEN] == challenge
    ensures SealsChallenge(cfg, m, challenge)
  {
    hide Seal, Open, WepKey;
    var frame := m.bytes[..m.len];
    var key := WepKey(cfg.keys, frame, 24);
    var o := Open(key, frame, 28);
    SealOpened(key, frame, 28);
    ChallengePlace(o.frame, m.bytes[m.len..]);
    assert PayloadHolds(o.frame, challenge);
  }

  /** An accepted answer seals the challenge exactly when it is at least 168 bytes long; a shorter one
      was compared with what the buffer held before. */
  lemma AnswerWasSealed(cfg: Config, m: Msg, algo: nat, challenge: seq<byte>)
    requires Answers(cfg, m, algo, challenge)
    ensures SealsChallenge(cfg, m, challenge) <==> m.len >= FULL_ANSWER
  {
    if m.len >= FULL_ANSWER {
      assert m.len <= |m.bytes| && Decrypted(cfg, m).ok;
      LongAnswerSealed(cfg, m, challenge);
    } else {
      ShortSealsNothing(cfg, m, challenge);
    }
  }

  lemma ShortSealsNothing(cfg: Config, m: Msg, challenge: seq<byte>)
    requires m.len < FULL_ANSWER
    ensures !SealsChallenge(cfg, m, challenge)
  {
    hide Seal, WepKey;
  }

  /** The frame is the sealing of some frame under the station's key. */
  ghost predicate SealedWithKey(cfg: Config, m: Msg) {
    && 28 <= m.len <= |m.bytes|
    && IsSealing(WepKey(cfg.keys, m.bytes[..m.len], 24), m.bytes[..m.len], 28)
  }

  /** An accepted answer was sealed with the key, whatever it seals, exactly when it has room for a
      check value. */
  lemma AnswerUsedKey(cfg: Config, m: Msg, algo: nat, challenge: seq<byte>)
    requires Answers(cfg, m, algo, challenge)
    ensures SealedWithKey(cfg, m) <==> m.len >= KEYED_ANSWER
  {
    hide Seal, Open, WepKey, ZeroTail;
    assert 28 <= m.len <= |m.bytes| && Decrypted(cfg, m).ok;
    var frame := m.bytes[..m.len];
    SealOpened(WepKey(cfg.keys, frame, 24), frame, 28);
  }

  /** The frame itself carries the transaction and the algorithm that the code read from the buffer. */
  predicate SaysItself(m: Msg) {
    m.len <= |m.bytes|
    && Le16(m.bytes[..m.len], 24) == Le16(m.bytes, 24) && Le16(m.bytes[..m.len], 26) == Le16(m.bytes, 26)
  }

  /** An accepted first message asked for it itself exactly when it is at least 28 bytes long. */
  lemma RequestSaidItself(m: Msg)
    requires m.len <= |m.bytes| && Le16(m.bytes, 26) == 1
    ensures SaysItself(m) <==> m.len >= 28
  {
  }

  // ----- answers that the code accepts and that seal nothing -----

  /** The header of a protected authentication frame, with an all-zero IV. */
  function Header(): seq<byte> {
    [0xB0, 64] + seq(26, _ => 0)
  }

  /** Algorithm shared key, transaction 3. */
  const THIRD: seq<byte> := [1, 0, 3, 0]

  function Behind(frame: seq<byte>, challenge: seq<byte>): seq<byte> {
    frame + challenge + seq(16, _ => 0)
  }

  lemma BehindReads(frame: seq<byte>, challenge: seq<byte>)
    requires |frame| == 36 && |challenge| == CHALLENGE_LEN
    ensures |Behind(frame, challenge)| == Capacity(Auth)
    ensures Behind(frame, challenge)[CHALLENGE_OFS..CHALLENGE_OFS + CHALLENGE_LEN] == challenge
    ensures forall i :: 0 <= i < 36 ==> Behind(frame, challenge)[i] == frame[i]
  {
  }

  /** For every challenge: a 28-byte frame in a buffer that holds the rest from an earlier use. It
      decrypts without a key, because the code of the empty payload is zero like the IV. */
  lemma KeylessAnswer(cfg: Config, challenge: seq<byte>) returns (m: Msg)
    requires |challenge| == CHALLENGE_LEN
    ensures InUse(m) && m.tag == Auth && m.len == 28 && m.bytes[..28] == Header()
    ensures Answers(cfg, m, SHARED, challenge) && !SealedWithKey(cfg, m) && !SealsChallenge(cfg, m, challenge)
  {
    var front := Header() + THIRD + [0, 0, 0, 0];
    var bytes := Behind(front, challenge);
    BehindReads(front, challenge);
    m := Msg(Auth, Auth, 28, bytes);
    assert bytes[..28] == Header();
    assert Header()[24..] == [0, 0, 0, 0];
    ZeroIvOpens(WepKey(cfg.keys, bytes[..28], 24), bytes[..28], 28);
    assert Decrypted(cfg, m) == Opened(true, bytes) by {
      hide Open;
      assert bytes[..28] + bytes[28..] == bytes;
    }
    assert bytes[28] == 1 && bytes[29] == 0 && bytes[30] == 3 && bytes[31] == 0;
    AnswerUsedKey(cfg, m, SHARED, challenge);
    AnswerWasSealed(cfg, m, SHARED, challenge);
  }

  /** For every challenge: a 36-byte frame, sealed with the key, that holds no byte of the challenge. */
  lemma ShortAnswer(cfg: Config, challenge: seq<byte>) returns (m: Msg)
    requires |challenge| == CHALLENGE_LEN
    ensures InUse(m) && m.tag == Auth && m.len == 36 && m.bytes[..28] == Header()
    ensures Answers(cfg, m, SHARED, challenge) && SealedWithKey(cfg, m) && !SealsChallenge(cfg, m, challenge)
  {
    hide Decrypted, SealsChallenge, SealedWithKey, Header, Behind, Answers, Open, WepKey;
    var plain := Header() + THIRD + [0, 0, 0, 0];
    var frame := ShortSealed(cfg, plain);
    m := Msg(Auth, Auth, 36, Behind(frame, challenge));
    BehindReads(frame, challenge);
    var o := Open(WepKey(cfg.keys, frame, 24), frame, 28);
    assert m.bytes[..36] == frame;
    assert m.bytes[..28] == frame[..28];
    DecryptedFront(cfg, m, o);
    OpensTo(plain, o.frame);
    assert Answers(cfg, m, SHARED, challenge) by { AnswersFrom(cfg, m, challenge, Decrypted(cfg, m)); }
    AnswerUsedKey(cfg, m, SHARED, challenge);
    ShortSealsNothing(cfg, m, challenge);
  }

  lemma AnswersFrom(cfg: Config, m: Msg, challenge: seq<byte>, d: Opened)
    requires d == Decrypted(cfg, m) && d.ok && |d.frame| == Capacity(Auth) && |m.bytes| >= 2 && m.bytes[1] == 64
    requires d.frame[28] == 1 && d.frame[29] == 0 && d.frame[30] == 3 && d.frame[31] == 0
    requires d.frame[CHALLENGE_OFS..CHALLENGE_OFS + CHALLENGE_LEN] == challenge
    ensures Answers(cfg, m, SHARED, challenge)
  {
    hide Decrypted;
  }

  /** The sealing of that plain frame: it opens to it and is marked as protected. */
  lemma ShortSealed(cfg: Config, plain: seq<byte>) returns (frame: seq<byte>)
    requires plain == Header() + THIRD + [0, 0, 0, 0]
    ensures |frame| == 36 && frame[1] == 64 && frame[..28] == Header()
    ensures var o := Open(WepKey(cfg.keys, frame, 24), frame, 28); o.ok && o.frame[..32] == plain[..32]
  {
    hide Seal, Open, WepKey, Icv;
    var key := WepKey(cfg.keys, plain, 24);
    frame := Seal(key, plain, 28);
    OpenSealed(key, plain, 28);
    PlainFront(plain);
    SameKey(cfg, plain, frame);
    assert frame[1] == frame[..28][1];
  }

  lemma PlainFront(plain: seq<byte>)
    requires plain == Header() + THIRD + [0, 0, 0, 0]
    ensures |plain| == 36 && plain[..28] == Header() && Header()[1] == 64
  {
  }

  lemma SameKey(cfg: Config, a: seq<byte>, b: seq<byte>)
    requires |a| >= 28 && |b| >= 28 && a[..28] == b[..28]
    ensures WepKey(cfg.keys, a, 24) == WepKey(cfg.keys, b, 24)
  {
    assert a[24..27] == a[..28][24..27] && b[24..27] == b[..28][24..27];
    assert a[27] == a[..28][27] && b[27] == b[..28][27];
  }

  lemma OpensTo(plain: seq<byte>, clear: seq<byte>)
    requires plain == Header() + THIRD + [0, 0, 0, 0]
    requires |clear| == 36 && clear[..32] == plain[..32]
    ensures clear[28] == 1 && clear[29] == 0 && clear[30] == 3 && clear[31] == 0
  {
    assert forall i :: 28 <= i < 32 ==> clear[i] == clear[..32][i] == plain[..32][i] == plain[i];
  }

  lemma DecryptedFront(cfg: Config, m: Msg, o: Opened)
    requires m.len == 36 <= |m.bytes| && |o.frame| == 36
    requires o == Open(WepKey(cfg.keys, m.bytes[..36], 24), m.bytes[..36], 28)
    ensures Decrypted(cfg, m) == Opened(o.ok, o.frame + m.bytes[36..])
    ensures forall i :: 0 <= i < 36 ==> Decrypted(cfg, m).frame[i] == o.frame[i]
    ensures CHALLENGE_OFS + CHALLENGE_LEN <= |m.bytes| ==>
              Decrypted(cfg, m).frame[CHALLENGE_OFS..CHALLENGE_OFS + CHALLENGE_LEN]
              == m.bytes[CHALLENGE_OFS..CHALLENGE_OFS + CHALLENGE_LEN]
  {
    hide Open;
  }
}
