/** Which stations the access point admits, over every order of arrivals and resumptions of one
    station, and when it drops a silent one. */
module ApAdmission {
  import opened Bytes
  import opened ApMessage
  import opened ApRequest
  import opened ApStation
  import opened LinkCipher

  // ----- frames that arrive during a resumption -----

  /** A resumption looks at the head of the queue only: messages loaded behind a non-empty queue, before
      it or during it, change nothing but the queue, or are freed with it. */
  ghost predicate SameBehind(o: Out, p: Out, more: seq<Msg>) {
    && p.gone == o.gone && p.inds == o.inds
    && (if o.gone then p.st == o.st && p.freed == o.freed + more
        else p.st == o.st.(queue := o.st.queue + more) && p.freed == o.freed)
  }

  lemma LeaveBehind(s: Station, t: Station, freed: seq<Msg>, inds: seq<Indication>, more: seq<Msg>)
    requires t == s.(queue := s.queue + more)
    ensures SameBehind(Leave(s, freed, inds), Leave(t, freed, inds), more)
  {
    assert freed + (s.queue + more) == freed + s.queue + more;
  }

  lemma PopBehind(s: Station, more: seq<Msg>)
    requires s.queue != []
    ensures Pop(s.(queue := s.queue + more)) == Pop(s).(queue := Pop(s).queue + more)
    ensures (s.queue + more)[0] == s.queue[0]
  {
    assert (s.queue + more)[1..] == s.queue[1..] + more;
  }

  lemma AssocBehind(cfg: Config, st: Strays, s: Station, inds: seq<Indication>, more: seq<Msg>)
    requires s.queue != []
    ensures SameBehind(AssocRun(cfg, st, s, [], inds), AssocRun(cfg, st, s.(queue := s.queue + more), [], inds), more)
  {
    hide AssocScan, Leave, SameBehind;
    var t, m := s.(queue := s.queue + more), s.queue[0];
    PopBehind(s, more);
    LeaveBehind(Pop(s), Pop(t), [] + [m], inds, more);
    var r := AssocScan(cfg, st, s.choice, m);
    var s1 := Pop(s).(state := Associating, choice := r.choice);
    LeaveBehind(s1, s1.(queue := s1.queue + more), [] + [m], inds, more);
    assert SameBehind(AssocRun(cfg, st, s, [], inds), AssocRun(cfg, st, t, [], inds), more) by {
      if m.tag == AssocReq && r.ok {
        StayBehind(AssocRun(cfg, st, s, [], inds), AssocRun(cfg, st, t, [], inds), more);
      }
    }
  }

  lemma StayBehind(o: Out, p: Out, more: seq<Msg>)
    requires !o.gone && p == o.(st := o.st.(queue := o.st.queue + more))
    ensures SameBehind(o, p, more)
  {
  }

  lemma SharedBehind(cfg: Config, s: Station, env: Env, more: seq<Msg>)
    requires s.queue != []
    ensures SameBehind(SharedAnswer(cfg, s, env), SharedAnswer(cfg, s.(queue := s.queue + more), env), more)
  {
    hide Decrypted, Answers, Leave, SameBehind;
    var t, m := s.(queue := s.queue + more), s.queue[0];
    PopBehind(s, more);
    var d := if Protected(m.bytes) then m.(bytes := Decrypted(cfg, m).frame) else m;
    LeaveBehind(Pop(s), Pop(t), [m], [], more);
    LeaveBehind(Pop(s), Pop(t), [d], [], more);
    assert (s.queue + more)[0 := d] == s.queue[0 := d] + more;
    var o, p := SharedAnswer(cfg, s, env), SharedAnswer(cfg, t, env);
    if m.tag == Auth && Answers(cfg, m, s.login.algo, s.login.challenge) {
      StayBehind(o, p, more);
    }
  }

  lemma AuthBehind(cfg: Config, s: Station, env: Env, more: seq<Msg>)
    requires s.queue != []
    ensures SameBehind(AuthRequest(cfg, s, env), AuthRequest(cfg, s.(queue := s.queue + more), env), more)
  {
    hide Le16, ChosenAlgo, Leave, SameBehind;
    var t, m := s.(queue := s.queue + more), s.queue[0];
    PopBehind(s, more);
    forall u: Station | u.queue == Pop(s).queue
      ensures SameBehind(Leave(u, [m], []), Leave(u.(queue := u.queue + more), [m], []), more)
      ensures SameBehind(Out(u, [m], [], false), Out(u.(queue := u.queue + more), [m], [], false), more)
    {
      LeaveBehind(u, u.(queue := u.queue + more), [m], [], more);
      StayBehind(Out(u, [m], [], false), Out(u.(queue := u.queue + more), [m], [], false), more);
    }
  }

  lemma MaintainBehind(cfg: Config, s: Station, env: Env, more: seq<Msg>)
    requires s.queue != []
    ensures SameBehind(Maintaining(cfg, s, env), Maintaining(cfg, s.(queue := s.queue + more), env), more)
  {
    hide Leave, SameBehind;
    var t, m := s.(queue := s.queue + more), s.queue[0];
    PopBehind(s, more);
    LeaveBehind(s, t, [], [], more);
    LeaveBehind(s.(state := Deauthenticated), t.(state := Deauthenticated), [], [], more);
    var u := Pop(s).(point := DisassocWait);
    StayBehind(Out(Pop(s), [m], [], false), Out(Pop(t), [m], [], false), more);
    StayBehind(Out(u, [m], [], false), Out(u.(queue := u.queue + more), [m], [], false), more);
  }

  /** Loads commute with resumptions of a station that has a message to look at. */
  lemma LoadsCommute(cfg: Config, s: Station, env: Env, more: seq<Msg>)
    requires s.queue != []
    ensures SameBehind(Resume(cfg, s, env), Resume(cfg, s.(queue := s.queue + more), env), more)
  {
    hide SameBehind, Leave, AssocRun, AuthRequest, SharedAnswer, Maintaining;
    var t := s.(queue := s.queue + more);
    PopBehind(s, more);
    LeaveBehind(s, t, [], [], more);
    match s.point
    case AuthWait => AuthBehind(cfg, s, env, more);
    case OpenWait => ReplyBehind(cfg, s, env, more);
    case Shared3Wait => SharedBehind(cfg, s, env, more);
    case Shared4Wait => ReplyBehind(cfg, s, env, more);
    case Maintain => MaintainBehind(cfg, s, env, more);
    case DisassocWait =>
      var mark := if cfg.hookMarks then Disassociated else Associating;
      LeaveBehind(s.(state := mark), t.(state := mark), [], [Disassociate], more);
      AssocBehind(cfg, env.stray, s.(state := mark), [Disassociate], more);
  }

  lemma ReplyBehind(cfg: Config, s: Station, env: Env, more: seq<Msg>)
    requires s.queue != []
    ensures SameBehind(OpenReply(cfg, s, env), OpenReply(cfg, s.(queue := s.queue + more), env), more)
  {
    hide SameBehind, Leave, AssocRun;
    var t, m := s.(queue := s.queue + more), s.queue[0];
    PopBehind(s, more);
    AssocBehind(cfg, env.stray, s, [], more);
    StayBehind(Out(Pop(s), [m], [], false), Out(Pop(t), [m], [], false), more);
  }

  // ----- who is admitted -----

  /** A first authentication message that the access point accepts. */
  predicate GoodRequest(cfg: Config, m: Msg) {
    var wanted := Le16(m.bytes, 24);
    m.tag == Auth && Le16(m.bytes, 26) == 1 && wanted <= SHARED && wanted == ChosenAlgo(cfg, wanted)
  }

  /** Who is let into authentication: open system where the access point asks for it, runs 802.1X, or
      leaves the choice and uses WEP; shared key where it asks for it, or leaves the choice and uses WEP. */
  lemma LetIn(cfg: Config, m: Msg)
    ensures GoodRequest(cfg, m) <==>
            && m.tag == Auth && Le16(m.bytes, 26) == 1
            && (|| (Le16(m.bytes, 24) == 0 && cfg.authAlgo in {0, 2})
                || (Le16(m.bytes, 24) == 1 && cfg.authAlgo == 1)
                || (Le16(m.bytes, 24) <= 1 && cfg.authAlgo == 3 && cfg.wepPrivacy))
  {
    hide Le16;
  }

  /** An association request that the access point accepts. */
  predicate GoodAssoc(cfg: Config, env: Env, m: Msg) {
    m.tag == AssocReq && Grants(cfg, env.stray, m)
  }

  /** The outcome is a fresh connection, reported once, behind the controlled port when 802.1X runs. */
  predicate Admitted(cfg: Config, o: Out) {
    && !o.gone && o.st.point == Maintain && o.st.idle == 0 && o.inds == [Associate]
    && o.st.state == (if cfg.authAlgo == DOT1X then Blocked else Unblocked)
  }

  /** The thread goes on only with an accepted first message, and waits as its algorithm asks. */
  lemma RequestExact(cfg: Config, s: Station, env: Env)
    requires s.point == AuthWait && s.queue != []
    ensures var o, m := Resume(cfg, s, env), s.queue[0];
            && (!o.gone <==> GoodRequest(cfg, m))
            && (!o.gone ==> o.st.queue == s.queue[1..] && o.st.login.algo == Le16(m.bytes, 24)
                            && (o.st.login.algo == OPEN ==> o.st.point == OpenWait)
                            && (o.st.login.algo == SHARED ==> o.st.point == Shared3Wait
                                                              && o.st.login.challenge == env.text))
  {
    hide Le16, Leave;
    assert forall t: Station :: Leave(t, [s.queue[0]], []).gone by { LeaveGone(); }
  }

  lemma LeaveGone()
    ensures forall t: Station, f: seq<Msg>, i: seq<Indication> :: Leave(t, f, i).gone
  {
  }

  /** The third message is accepted exactly when it answers the challenge; it then stays queued. */
  lemma AnswerExact(cfg: Config, s: Station, env: Env)
    requires s.point == Shared3Wait && s.queue != []
    ensures var o, m := Resume(cfg, s, env), s.queue[0];
            && (!o.gone <==> m.tag == Auth && Answers(cfg, m, s.login.algo, s.login.challenge))
            && (!o.gone ==> o.st.point == Shared4Wait && o.st.queue != [] && o.st.queue[0].tag == Auth
                            && o.st.queue[1..] == s.queue[1..])
  {
    hide Answers, Decrypted;
  }

  /** From an authenticated station, the next frame that is no authentication frame connects exactly
      when it is an acceptable request; authentication frames in front of it are dropped. */
  lemma AssocExact(cfg: Config, s: Station, env: Env)
    requires (s.point == OpenWait || s.point == Shared4Wait) && s.queue != []
    ensures var o, m := Resume(cfg, s, env), s.queue[0];
            if m.tag == Auth then o == Out(s.(queue := s.queue[1..]), [m], [], false)
            else (Admitted(cfg, o) <==> GoodAssoc(cfg, env, m)) && (!o.gone <==> GoodAssoc(cfg, env, m))
  {
    hide AssocScan, Grants;
    ScanAccepts(cfg, env.stray, s.choice, s.queue[0]);
  }

  // ----- runs of one station -----

  /** Resumptions, each after some messages have been loaded behind the queue. */
  datatype Turn = Turn(loaded: seq<Msg>, env: Env)

  function Turns(cfg: Config, s: Station, ts: seq<Turn>): Out
    decreases |ts|
  {
    if ts == [] then Stay(s)
    else
      var o := Resume(cfg, s.(queue := s.queue + ts[0].loaded), ts[0].env);
      if o.gone || Connected(o.st) then o else Turns(cfg, o.st, ts[1..])
  }

  /** What a turn finds at the head of the queue. */
  datatype Look = Nothing | Sees(msg: Msg)

  /** The queue that a turn meets, and the one it leaves when it takes the head. */
  function Met(que: seq<Msg>, t: Turn): seq<Msg> {
    que + t.loaded
  }

  function Left(que: seq<Msg>, t: Turn): seq<Msg> {
    var q := Met(que, t);
    if |q| == 0 then q else q[1..]
  }

  /** What each turn looks at, when each takes what it looks at. */
  function Looks(que: seq<Msg>, ts: seq<Turn>): (r: seq<Look>)
    ensures |r| == |ts|
    decreases |ts|
  {
    if ts == [] then []
    else
      var q := Met(que, ts[0]);
      [if |q| == 0 then Nothing else Sees(q[0])] + Looks(Left(que, ts[0]), ts[1..])
  }

  /** The queue after the first `k` turns. */
  function LeftAfter(que: seq<Msg>, ts: seq<Turn>, k: nat): seq<Msg>
    requires k <= |ts|
    decreases k
  {
    if k == 0 then que else LeftAfter(Left(que, ts[0]), ts[1..], k - 1)
  }

  /** The turn leaves an authenticated station waiting: nothing to look at and time left, or one more
      authentication frame. */
  predicate Dull(l: Look, env: Env) {
    match l
    case Nothing => !env.expired
    case Sees(msg) => msg.tag == Auth
  }

  /** Turn `j` looks at an acceptable association request, and the turns before it leave the station
      waiting. */
  predicate AssociatesAt(cfg: Config, que: seq<Msg>, ts: seq<Turn>, j: nat)
    requires j < |ts|
  {
    var ls := Looks(que, ts);
    && ls[j].Sees? && GoodAssoc(cfg, ts[j].env, ls[j].msg)
    && forall i :: 0 <= i < j ==> Dull(ls[i], ts[i].env)
  }

  predicate Associates(cfg: Config, que: seq<Msg>, ts: seq<Turn>) {
    exists j :: 0 <= j < |ts| && AssociatesAt(cfg, que, ts, j)
  }

  /** A dull first turn can be dropped. */
  lemma DropDull(cfg: Config, que: seq<Msg>, ts: seq<Turn>)
    requires ts != [] && Dull(Looks(que, ts)[0], ts[0].env)
    ensures Associates(cfg, que, ts) <==> Associates(cfg, Left(que, ts[0]), ts[1..])
  {
    hide GoodAssoc, Left, Met;
    var more, next := ts[1..], Left(que, ts[0]);
    assert forall i :: 0 <= i < |more| ==> Looks(que, ts)[i + 1] == Looks(next, more)[i] && ts[i + 1] == more[i];
    assert !AssociatesAt(cfg, que, ts, 0) by { AuthNoRequest(cfg, Looks(que, ts)[0], ts[0].env); }
    forall j | 0 <= j < |more| ensures AssociatesAt(cfg, next, more, j) <==> AssociatesAt(cfg, que, ts, j + 1) {
      DullShift(cfg, que, ts, next, more, j);
    }
    if j :| 0 <= j < |ts| && AssociatesAt(cfg, que, ts, j) {
      assert AssociatesAt(cfg, next, more, j - 1);
    }
  }

  lemma AuthNoRequest(cfg: Config, l: Look, env: Env)
    requires Dull(l, env)
    ensures !(l.Sees? && GoodAssoc(cfg, env, l.msg))
  {
  }

  lemma DullShift(cfg: Config, que: seq<Msg>, ts: seq<Turn>, next: seq<Msg>, more: seq<Turn>, j: nat)
    requires |ts| == |more| + 1 && j < |more| && Dull(Looks(que, ts)[0], ts[0].env)
    requires forall i :: 0 <= i < |more| ==> Looks(que, ts)[i + 1] == Looks(next, more)[i] && ts[i + 1] == more[i]
    ensures AssociatesAt(cfg, next, more, j) <==> AssociatesAt(cfg, que, ts, j + 1)
  {
    hide GoodAssoc, Looks, Dull;
    var ls, ms := Looks(que, ts), Looks(next, more);
    if AssociatesAt(cfg, next, more, j) {
      forall i | 0 <= i < j + 1 ensures Dull(ls[i], ts[i].env) {
        if i > 0 {
          assert ls[i - 1 + 1] == ms[i - 1];
        }
      }
    }
    if AssociatesAt(cfg, que, ts, j + 1) {
      forall i | 0 <= i < j ensures Dull(ms[i], more[i].env) {
        assert ls[i + 1] == ms[i];
      }
    }
  }

  /** A turn that is not dull decides. */
  lemma FirstDecides(cfg: Config, que: seq<Msg>, ts: seq<Turn>)
    requires ts != [] && !Dull(Looks(que, ts)[0], ts[0].env)
    ensures Associates(cfg, que, ts) <==>
            var l := Looks(que, ts)[0]; l.Sees? && GoodAssoc(cfg, ts[0].env, l.msg)
  {
    hide GoodAssoc, Looks;
    var l := Looks(que, ts)[0];
    if l.Sees? && GoodAssoc(cfg, ts[0].env, l.msg) {
      assert AssociatesAt(cfg, que, ts, 0);
    }
  }

  /** A frame that is no authentication frame ends the wait, one way or the other. */
  lemma NotStill(cfg: Config, s: Station, env: Env)
    requires (s.point == OpenWait || s.point == Shared4Wait) && s.queue != [] && s.queue[0].tag != Auth
    ensures var o := Resume(cfg, s, env); o.gone || Connected(o.st)
  {
    hide AssocScan;
  }

  /** With nothing queued, an unfinished wait goes on until the time is up. */
  lemma EmptyWait(cfg: Config, s: Station, env: Env)
    requires s.point == OpenWait || s.point == Shared4Wait || s.point == Shared3Wait
    requires s.queue == []
    ensures Resume(cfg, s, env) == if env.expired then Leave(s, [], []) else Stay(s)
  {
  }

  lemma GoneNotAdmitted(cfg: Config, o: Out)
    requires o.gone || !Connected(o.st)
    ensures !Admitted(cfg, o)
  {
  }

  /** Over every sequence of arrivals, resumptions and timeouts, an authenticated station is admitted
      exactly when a turn looks at an acceptable association request after turns that left it waiting. */
  lemma {:induction false} WaitExact(cfg: Config, s: Station, ts: seq<Turn>)
    requires s.point == OpenWait || s.point == Shared4Wait
    ensures Admitted(cfg, Turns(cfg, s, ts)) <==> Associates(cfg, s.queue, ts)
    decreases |ts|
  {
    hide Admitted, Associates, GoodAssoc, Resume, Leave;
    if ts == [] {
      GoneNotAdmitted(cfg, Stay(s));
      NoTurns(cfg, s.queue, ts);
    } else {
      var env, q := ts[0].env, Met(s.queue, ts[0]);
      var s1 := s.(queue := q);
      var o := Resume(cfg, s1, env);
      if |q| == 0 {
        EmptyWait(cfg, s1, env);
        if env.expired {
          LeaveGone();
          GoneNotAdmitted(cfg, o);
          FirstDecides(cfg, s.queue, ts);
        } else {
          DropDull(cfg, s.queue, ts);
          WaitExact(cfg, o.st, ts[1..]);
        }
      } else {
        AssocExact(cfg, s1, env);
        if q[0].tag == Auth {
          DropDull(cfg, s.queue, ts);
          WaitExact(cfg, o.st, ts[1..]);
        } else {
          NotStill(cfg, s1, env);
          FirstDecides(cfg, s.queue, ts);
        }
      }
    }
  }

  lemma NoTurns(cfg: Config, que: seq<Msg>, ts: seq<Turn>)
    requires ts == []
    ensures !Associates(cfg, que, ts)
  {
  }

  // ----- the challenge -----

  /** Turn `b` looks at an answer to the challenge, the turns before it found nothing and had time left,
      and the station then associates; it looks at the answer once more first. */
  predicate AnswersAt(cfg: Config, que: seq<Msg>, ts: seq<Turn>, algo: nat, challenge: seq<byte>, b: nat)
    requires b < |ts|
  {
    var ls := Looks(que, ts);
    && ls[b].Sees? && ls[b].msg.tag == Auth && Answers(cfg, ls[b].msg, algo, challenge)
    && (forall i :: 0 <= i < b ==> ls[i].Nothing? && !ts[i].env.expired)
    && Associates(cfg, [ls[b].msg] + LeftAfter(que, ts, b + 1), ts[b + 1..])
  }

  predicate AnswersAndAssociates(cfg: Config, que: seq<Msg>, ts: seq<Turn>, algo: nat, challenge: seq<byte>) {
    exists b :: 0 <= b < |ts| && AnswersAt(cfg, que, ts, algo, challenge, b)
  }

  /** Which authentication frame stands in front makes no difference. */
  lemma FrontLook(m: Msg, que: seq<Msg>, ts: seq<Turn>)
    requires ts != []
    ensures Looks([m] + que, ts)[0] == Sees(m) && Left([m] + que, ts[0]) == que + ts[0].loaded
  {
    var q := Met([m] + que, ts[0]);
    assert q[0] == m && q[1..] == que + ts[0].loaded;
  }

  lemma SwapHead(cfg: Config, m: Msg, d: Msg, que: seq<Msg>, ts: seq<Turn>)
    requires m.tag == Auth && d.tag == Auth
    ensures Associates(cfg, [m] + que, ts) <==> Associates(cfg, [d] + que, ts)
  {
    hide Associates, Looks, Left;
    if ts == [] {
      NoTurns(cfg, [m] + que, ts);
      NoTurns(cfg, [d] + que, ts);
    } else {
      FrontLook(m, que, ts);
      FrontLook(d, que, ts);
      DropDull(cfg, [m] + que, ts);
      DropDull(cfg, [d] + que, ts);
    }
  }

  /** An idle first turn can be dropped. */
  lemma DropIdle(cfg: Config, que: seq<Msg>, ts: seq<Turn>, algo: nat, challenge: seq<byte>)
    requires ts != [] && |Met(que, ts[0])| == 0 && !ts[0].env.expired
    ensures AnswersAndAssociates(cfg, que, ts, algo, challenge)
            <==> AnswersAndAssociates(cfg, [], ts[1..], algo, challenge)
  {
    hide Associates, Answers;
    var more := ts[1..];
    assert Left(que, ts[0]) == [];
    forall b | 0 <= b < |more|
      ensures AnswersAt(cfg, [], more, algo, challenge, b) <==> AnswersAt(cfg, que, ts, algo, challenge, b + 1)
    {
      IdleShift(cfg, que, ts, algo, challenge, b);
    }
    if b :| 0 <= b < |ts| && AnswersAt(cfg, que, ts, algo, challenge, b) {
      assert AnswersAt(cfg, [], more, algo, challenge, b - 1);
    }
  }

  lemma IdleShift(cfg: Config, que: seq<Msg>, ts: seq<Turn>, algo: nat, challenge: seq<byte>, b: nat)
    requires ts != [] && |Met(que, ts[0])| == 0 && !ts[0].env.expired && b < |ts| - 1
    ensures AnswersAt(cfg, [], ts[1..], algo, challenge, b) <==> AnswersAt(cfg, que, ts, algo, challenge, b + 1)
  {
    hide Associates, Answers;
    var more := ts[1..];
    assert Left(que, ts[0]) == [];
    assert LeftAfter(que, ts, b + 2) == LeftAfter([], more, b + 1);
    assert ts[b + 2..] == more[b + 1..];
    var ls, ms := Looks(que, ts), Looks([], more);
    assert ls == [Nothing] + ms;
    if AnswersAt(cfg, [], more, algo, challenge, b) {
      forall i | 0 <= i < b + 1 ensures ls[i].Nothing? && !ts[i].env.expired {
        if i > 0 {
          assert ls[i] == ms[i - 1] && ts[i] == more[i - 1];
        }
      }
    }
    if AnswersAt(cfg, que, ts, algo, challenge, b + 1) {
      forall i | 0 <= i < b ensures ms[i].Nothing? && !more[i].env.expired {
        assert ls[i + 1] == ms[i] && ts[i + 1] == more[i];
      }
    }
  }

  /** A turn that is not idle decides about the answer. */
  lemma AnswerDecides(cfg: Config, que: seq<Msg>, ts: seq<Turn>, algo: nat, challenge: seq<byte>)
    requires ts != [] && (|Met(que, ts[0])| > 0 || ts[0].env.expired)
    ensures AnswersAndAssociates(cfg, que, ts, algo, challenge)
            <==> var q := Met(que, ts[0]);
                 && |q| > 0 && q[0].tag == Auth && Answers(cfg, q[0], algo, challenge)
                 && Associates(cfg, [q[0]] + q[1..], ts[1..])
  {
    hide Associates, Answers;
    var q := Met(que, ts[0]);
    assert LeftAfter(que, ts, 1) == Left(que, ts[0]);
    if |q| > 0 && q[0].tag == Auth && Answers(cfg, q[0], algo, challenge)
       && Associates(cfg, [q[0]] + q[1..], ts[1..]) {
      assert AnswersAt(cfg, que, ts, algo, challenge, 0);
    }
    if b :| 0 <= b < |ts| && AnswersAt(cfg, que, ts, algo, challenge, b) {
      assert b == 0;
    }
  }

  /** From the challenge on, over every sequence of arrivals, resumptions and timeouts. */
  lemma {:induction false} ChallengeExact(cfg: Config, s: Station, ts: seq<Turn>)
    requires s.point == Shared3Wait
    ensures Admitted(cfg, Turns(cfg, s, ts))
            <==> AnswersAndAssociates(cfg, s.queue, ts, s.login.algo, s.login.challenge)
    decreases |ts|
  {
    hide Admitted, Associates, AnswersAt, GoodAssoc, Resume, Answers, Leave, Looks;
    if ts == [] {
      GoneNotAdmitted(cfg, Stay(s));
    } else {
      var env, q := ts[0].env, Met(s.queue, ts[0]);
      var s1 := s.(queue := q);
      var o := Resume(cfg, s1, env);
      if |q| == 0 {
        EmptyWait(cfg, s1, env);
        if env.expired {
          LeaveGone();
          GoneNotAdmitted(cfg, o);
          AnswerDecides(cfg, s.queue, ts, s.login.algo, s.login.challenge);
        } else {
          DropIdle(cfg, s.queue, ts, s.login.algo, s.login.challenge);
          ChallengeExact(cfg, o.st, ts[1..]);
        }
      } else {
        hide AnswersAndAssociates;
        AnswerExact(cfg, s1, env);
        AnswerDecides(cfg, s.queue, ts, s.login.algo, s.login.challenge);
        if o.gone {
          GoneNotAdmitted(cfg, o);
        } else {
          var d := o.st.queue[0];
          assert o.st.queue == [d] + q[1..];
          SwapHead(cfg, q[0], d, q[1..], ts[1..]);
          WaitExact(cfg, o.st, ts[1..]);
        }
      }
    }
  }

  // ----- from the first frame on -----

  /** Turn `a` is the first to find a frame and accepts it as a first message; the station then
      associates, or, under shared key, answers the challenge issued at that turn and associates. */
  predicate RequestsAt(cfg: Config, que: seq<Msg>, ts: seq<Turn>, a: nat)
    requires a < |ts|
  {
    var ls := Looks(que, ts);
    && ls[a].Sees? && GoodRequest(cfg, ls[a].msg)
    && (forall i :: 0 <= i < a ==> ls[i].Nothing?)
    && FollowsUp(cfg, ls[a].msg, ts[a].env, LeftAfter(que, ts, a + 1), ts[a + 1..])
  }

  predicate FollowsUp(cfg: Config, m: Msg, env: Env, que: seq<Msg>, ts: seq<Turn>) {
    if Le16(m.bytes, 24) == OPEN then Associates(cfg, que, ts)
    else AnswersAndAssociates(cfg, que, ts, SHARED, env.text)
  }

  predicate Deserves(cfg: Config, que: seq<Msg>, ts: seq<Turn>) {
    exists a :: 0 <= a < |ts| && RequestsAt(cfg, que, ts, a)
  }

  lemma DropEmpty(cfg: Config, que: seq<Msg>, ts: seq<Turn>)
    requires ts != [] && |Met(que, ts[0])| == 0
    ensures Deserves(cfg, que, ts) <==> Deserves(cfg, [], ts[1..])
  {
    hide FollowsUp, GoodRequest;
    var more := ts[1..];
    assert Left(que, ts[0]) == [];
    forall a | 0 <= a < |more| ensures RequestsAt(cfg, [], more, a) <==> RequestsAt(cfg, que, ts, a + 1) {
      EmptyShift(cfg, que, ts, a);
    }
    if a :| 0 <= a < |ts| && RequestsAt(cfg, que, ts, a) {
      assert RequestsAt(cfg, [], more, a - 1);
    }
  }

  lemma EmptyShift(cfg: Config, que: seq<Msg>, ts: seq<Turn>, a: nat)
    requires ts != [] && |Met(que, ts[0])| == 0 && a < |ts| - 1
    ensures RequestsAt(cfg, [], ts[1..], a) <==> RequestsAt(cfg, que, ts, a + 1)
  {
    hide FollowsUp, GoodRequest;
    var more := ts[1..];
    assert Left(que, ts[0]) == [];
    assert LeftAfter(que, ts, a + 2) == LeftAfter([], more, a + 1);
    assert ts[a + 2..] == more[a + 1..];
    var ls, ms := Looks(que, ts), Looks([], more);
    assert ls == [Nothing] + ms;
    if RequestsAt(cfg, que, ts, a + 1) {
      forall i | 0 <= i < a ensures ms[i].Nothing? {
        assert ls[i + 1] == ms[i];
      }
    }
  }

  lemma RequestDecides(cfg: Config, que: seq<Msg>, ts: seq<Turn>)
    requires ts != [] && |Met(que, ts[0])| > 0
    ensures Deserves(cfg, que, ts)
            <==> var q := Met(que, ts[0]); GoodRequest(cfg, q[0]) && FollowsUp(cfg, q[0], ts[0].env, q[1..], ts[1..])
  {
    hide FollowsUp, GoodRequest;
    var q := Met(que, ts[0]);
    assert LeftAfter(que, ts, 1) == Left(que, ts[0]);
    if GoodRequest(cfg, q[0]) && FollowsUp(cfg, q[0], ts[0].env, q[1..], ts[1..]) {
      assert RequestsAt(cfg, que, ts, 0);
    }
    if a :| 0 <= a < |ts| && RequestsAt(cfg, que, ts, a) {
      assert a == 0;
    }
  }

  lemma {:induction false} RequestStage(cfg: Config, s: Station, ts: seq<Turn>)
    requires s.point == AuthWait
    ensures Admitted(cfg, Turns(cfg, s, ts)) <==> Deserves(cfg, s.queue, ts)
    decreases |ts|
  {
    hide Admitted, Associates, AnswersAndAssociates, RequestsAt, GoodRequest, Resume, Le16, Looks;
    if ts == [] {
      GoneNotAdmitted(cfg, Stay(s));
    } else {
      var env, q := ts[0].env, Met(s.queue, ts[0]);
      var s1 := s.(queue := q);
      var o := Resume(cfg, s1, env);
      if |q| == 0 {
        DropEmpty(cfg, s.queue, ts);
        EmptyRequest(cfg, s1, env);
        RequestStage(cfg, o.st, ts[1..]);
      } else {
        hide Deserves;
        RequestExact(cfg, s1, env);
        RequestDecides(cfg, s.queue, ts);
        if o.gone {
          GoneNotAdmitted(cfg, o);
        } else {
          OneOfTwo(cfg, q[0]);
          if Le16(q[0].bytes, 24) == OPEN {
            WaitExact(cfg, o.st, ts[1..]);
          } else {
            ChallengeExact(cfg, o.st, ts[1..]);
          }
        }
      }
    }
  }

  lemma EmptyRequest(cfg: Config, s: Station, env: Env)
    requires s.point == AuthWait && s.queue == []
    ensures Resume(cfg, s, env) == Stay(s)
  {
  }

  lemma OneOfTwo(cfg: Config, m: Msg)
    requires GoodRequest(cfg, m)
    ensures Le16(m.bytes, 24) == OPEN || Le16(m.bytes, 24) == SHARED
  {
    hide Le16;
  }

  /** A new station is admitted over a sequence of arrivals, resumptions and timeouts exactly when the
      first frame it is resumed with is an acceptable request, under shared key the next one comes in
      time and answers the challenge that was issued on the first, and then, before the time is up,
      the next frame that is no authentication frame is an acceptable association request. */
  lemma Admission(cfg: Config, mac: nat, ts: seq<Turn>)
    ensures Admitted(cfg, Turns(cfg, Fresh(mac), ts)) <==> Deserves(cfg, [], ts)
  {
    hide Admitted, Deserves, Turns;
    RequestStage(cfg, Fresh(mac), ts);
  }

  // ----- the idle limit -----

  /** One-second ticks without messages, each with or without traffic since the last. */
  function Ticks(cfg: Config, s: Station, active: seq<bool>): Out {
    if active == [] then Stay(s)
    else
      var o := Ticks(cfg, s, active[..|active| - 1]);
      if o.gone then o else Resume(cfg, o.st, Env(true, active[|active| - 1], [], []))
  }

  function QuietTicks(active: seq<bool>): nat {
    if active == [] then 0
    else QuietTicks(active[..|active| - 1]) + if active[|active| - 1] then 0 else 1
  }

  /** A connected station that sends no management frame is dropped exactly at the tick after its
      1200th quiet one, counted over the whole connection: traffic in between does not start the
      count again. */
  lemma {:induction false} IdleLimit(cfg: Config, s: Station, active: seq<bool>)
    requires s.point == Maintain && s.queue == [] && s.idle == 0 && Above(s.state)
    ensures var o := Ticks(cfg, s, active);
            && (o.gone <==> QuietTicks(active) > IDLE_LIMIT)
            && (o.gone ==> o.inds == [Disassociate])
            && (!o.gone ==> o.st == s.(idle := QuietTicks(active)))
    decreases |active|
  {
    if active != [] {
      IdleLimit(cfg, s, active[..|active| - 1]);
    }
  }
}
