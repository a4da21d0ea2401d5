/** When a connected station goes, over every sequence of arrivals, resumptions and timeouts, and what
    it leaves behind: the counterpart of admission. */
module ApDeparture {
  import opened ApMessage
  import opened ApRequest
  import opened ApStation
  import opened ApAdmission

  // ----- one resumption of a connected station -----

  /** The station after its head message has been freed, at a point. */
  function Onward(s: Station, p: Point): Station
    requires s.queue != []
  {
    Pop(s).(point := p)
  }

  /** A message of a connected station: authentication and deauthentication end the connection, a
      disassociation starts the wait for a new request, any other is freed. */
  lemma MessageExact(cfg: Config, s: Station, env: Env)
    requires s.point == Maintain && s.queue != [] && Above(s.state)
    ensures var o, m := Resume(cfg, s, env), s.queue[0];
            if m.tag == Auth || m.tag == Deauth then
              && o.gone && o.inds == [Disassociate] && o.freed == s.queue && o.st.queue == []
              && o.st.state == (if m.tag == Deauth then Deauthenticated else s.state)
            else
              && !o.gone && o.inds == [] && o.freed == [m]
              && o.st == Onward(s, if m.tag == Disassoc then DisassocWait else Maintain)
  {
    assert [] + s.queue == s.queue;
  }

  /** A tick of a connected station with nothing queued. */
  lemma TickExact(cfg: Config, s: Station, env: Env)
    requires s.point == Maintain && s.queue == [] && Above(s.state)
    ensures var o := Resume(cfg, s, env);
            if env.expired && !env.active && s.idle >= IDLE_LIMIT then
              o.gone && o.inds == [Disassociate] && o.freed == [] && o.st.queue == []
            else
              && !o.gone && o.inds == [] && o.freed == []
              && o.st == s.(idle := s.idle + if env.expired && !env.active then 1 else 0)
  {
    assert [] + s.queue == [];
  }

  /** A station that has disassociated: it may ask again before the time is up. */
  lemma PartedExact(cfg: Config, s: Station, env: Env)
    requires s.point == DisassocWait && Above(s.state)
    ensures var o := Resume(cfg, s, env);
            if s.queue == [] && !env.expired then o == Stay(s)
            else if s.queue != [] && s.queue[0].tag == AssocReq && !cfg.hookMarks
                    && Grants(cfg, env.stray, s.queue[0]) then
              && !o.gone && o.inds == [Disassociate, Associate] && o.freed == [s.queue[0]]
              && o.st.point == Maintain && o.st.idle == 0 && Above(o.st.state)
              && o.st.queue == s.queue[1..] && o.st.mac == s.mac
            else
              && o.gone && o.freed == s.queue && o.st.queue == []
              && o.st.state == (if !Rejoins(s) then s.state else if cfg.hookMarks then Disassociated else Associating)
              && o.inds == if cfg.hookMarks && Rejoins(s) then [Disassociate, Disassociate] else [Disassociate]
  {
    hide AssocScan, Grants;
    assert [] + s.queue == s.queue;
    if s.queue != [] {
      ScanAccepts(cfg, env.stray, s.choice, s.queue[0]);
      assert [] + [s.queue[0]] + s.queue[1..] == s.queue;
    }
  }

  // ----- the life of a connected station -----

  /** The last outcome of the first `n` turns; nothing happens to a station that is gone. */
  function Life(cfg: Config, s: Station, ts: seq<Turn>, n: nat): Out
    requires n <= |ts|
  {
    if n == 0 then Stay(s)
    else
      var o := Life(cfg, s, ts, n - 1);
      if o.gone then o
      else Resume(cfg, o.st.(queue := Met(o.st.queue, ts[n - 1])), ts[n - 1].env)
  }

  /** The queue before turn `n`, when every turn takes what it looks at. */
  function QueueAt(que: seq<Msg>, ts: seq<Turn>, n: nat): seq<Msg>
    requires n <= |ts|
  {
    if n == 0 then que else Left(QueueAt(que, ts, n - 1), ts[n - 1])
  }

  function MetAt(que: seq<Msg>, ts: seq<Turn>, n: nat): seq<Msg>
    requires n < |ts|
  {
    Met(QueueAt(que, ts, n), ts[n])
  }

  lemma {:induction false} QueueShift(que: seq<Msg>, ts: seq<Turn>, n: nat)
    requires ts != [] && n < |ts|
    ensures QueueAt(que, ts, n + 1) == QueueAt(Left(que, ts[0]), ts[1..], n)
  {
    hide Left;
    if n > 0 {
      QueueShift(que, ts, n - 1);
    }
  }

  /** What turn `n` looks at is the head of that queue. */
  lemma {:induction false} LooksAt(que: seq<Msg>, ts: seq<Turn>, n: nat)
    requires n < |ts|
    ensures Looks(que, ts)[n] == var q := MetAt(que, ts, n); if |q| == 0 then Nothing else Sees(q[0])
    decreases n
  {
    hide Left;
    if n > 0 {
      LooksAt(Left(que, ts[0]), ts[1..], n - 1);
      QueueShift(que, ts, n - 1);
    }
  }

  // ----- what ends it, on what the turns look at -----

  /** Before turn `n` the station has disassociated: the last message looked at says so. */
  predicate Parted(first: bool, ls: seq<Look>, n: nat)
    requires n <= |ls|
  {
    if n == 0 then first
    else
      match ls[n - 1]
      case Nothing => Parted(first, ls, n - 1)
      case Sees(m) => m.tag == Disassoc
  }

  /** The quiet ticks before turn `n` since the station last associated. */
  function Quiet(first: bool, idle: nat, ls: seq<Look>, ts: seq<Turn>, n: nat): nat
    requires |ls| == |ts| && n <= |ls|
  {
    if n == 0 then idle
    else
      var before := Quiet(first, idle, ls, ts, n - 1);
      match ls[n - 1]
      case Nothing =>
        before + if ts[n - 1].env.expired && !ts[n - 1].env.active && !Parted(first, ls, n - 1) then 1 else 0
      case Sees(m) => if m.tag == AssocReq && Parted(first, ls, n - 1) then 0 else before
  }

  /** Turn `n` ends the connection. */
  predicate EndsAt(cfg: Config, first: bool, idle: nat, ls: seq<Look>, ts: seq<Turn>, n: nat)
    requires |ls| == |ts| && n < |ls|
  {
    var env := ts[n].env;
    if Parted(first, ls, n) then
      match ls[n]
      case Nothing => env.expired
      case Sees(m) => m.tag != AssocReq || cfg.hookMarks || !Grants(cfg, env.stray, m)
    else
      match ls[n]
      case Nothing => env.expired && !env.active && Quiet(first, idle, ls, ts, n) >= IDLE_LIMIT
      case Sees(m) => m.tag == Auth || m.tag == Deauth
  }

  /** What the last turn reports. */
  function LastWords(cfg: Config, first: bool, ls: seq<Look>, n: nat): seq<Indication>
    requires n < |ls|
  {
    if cfg.hookMarks && Parted(first, ls, n) && ls[n].Sees? && ls[n].msg.tag == AssocReq
    then [Disassociate, Disassociate] else [Disassociate]
  }

  predicate EndsBefore(cfg: Config, s: Station, ts: seq<Turn>, n: nat)
    requires n <= |ts|
  {
    var first, ls := s.point == DisassocWait, Looks(s.queue, ts);
    exists j :: 0 <= j < n && EndsAt(cfg, first, s.idle, ls, ts, j)
  }

  /** What the record is before turn `n`, if nothing has ended it. */
  ghost predicate Describes(s: Station, ts: seq<Turn>, n: nat, t: Station)
    requires n <= |ts|
  {
    var first, ls := s.point == DisassocWait, Looks(s.queue, ts);
    && t.mac == s.mac && Above(t.state)
    && t.queue == QueueAt(s.queue, ts, n)
    && t.point == (if Parted(first, ls, n) then DisassocWait else Maintain)
    && t.idle == Quiet(first, s.idle, ls, ts, n)
  }

  lemma DescribesFirst(s: Station, ts: seq<Turn>)
    requires Connected(s) && Above(s.state)
    ensures Describes(s, ts, 0, s)
  {
  }

  /** One more turn. */
  lemma TurnExact(cfg: Config, s: Station, ts: seq<Turn>, n: nat, t: Station)
    requires n < |ts| && Describes(s, ts, n, t)
    ensures var o := Resume(cfg, t.(queue := Met(t.queue, ts[n])), ts[n].env);
            var first, ls := s.point == DisassocWait, Looks(s.queue, ts);
            if EndsAt(cfg, first, s.idle, ls, ts, n) then
              o.gone && o.freed == MetAt(s.queue, ts, n) && o.st.queue == [] && o.inds == LastWords(cfg, first, ls, n)
            else !o.gone && Describes(s, ts, n + 1, o.st)
  {
    hide Resume, Looks, Grants;
    LooksAt(s.queue, ts, n);
    var u := t.(queue := Met(t.queue, ts[n]));
    if u.point == DisassocWait {
      PartedExact(cfg, u, ts[n].env);
    } else if |u.queue| > 0 {
      MessageExact(cfg, u, ts[n].env);
    } else {
      TickExact(cfg, u, ts[n].env);
    }
  }

  /** A connected station is gone exactly when some turn has ended the connection: it looked at an
      authentication or deauthentication frame, or a disassociated station's time ran out or it sent
      something else than an acceptable request, or the quiet ticks reached the limit. The turn that
      ends it frees everything queued and reports the end once, or twice where the hook's mark hides a
      re-association; until then the record is described by what the turns looked at. */
  lemma {:induction false} Departure(cfg: Config, s: Station, ts: seq<Turn>, n: nat)
    requires Connected(s) && Above(s.state) && n <= |ts|
    ensures var o := Life(cfg, s, ts, n);
            && (o.gone <==> EndsBefore(cfg, s, ts, n))
            && (!o.gone ==> Describes(s, ts, n, o.st))
    decreases n
  {
    hide EndsAt, Describes, Resume, Looks;
    if n == 0 {
      DescribesFirst(s, ts);
    } else {
      Departure(cfg, s, ts, n - 1);
      var o := Life(cfg, s, ts, n - 1);
      if !o.gone {
        TurnExact(cfg, s, ts, n - 1, o.st);
      }
    }
  }

  /** The turn that ends it. */
  lemma {:induction false} LastTurn(cfg: Config, s: Station, ts: seq<Turn>, n: nat) returns (j: nat)
    requires Connected(s) && Above(s.state) && n <= |ts| && Life(cfg, s, ts, n).gone
    ensures j < n && !EndsBefore(cfg, s, ts, j)
    ensures var o, first, ls := Life(cfg, s, ts, n), s.point == DisassocWait, Looks(s.queue, ts);
            && EndsAt(cfg, first, s.idle, ls, ts, j)
            && o.freed == MetAt(s.queue, ts, j) && o.st.queue == [] && o.inds == LastWords(cfg, first, ls, j)
    decreases n
  {
    hide EndsAt, Describes, Resume, Looks, LastWords;
    var o := Life(cfg, s, ts, n - 1);
    if o.gone {
      j := LastTurn(cfg, s, ts, n - 1);
    } else {
      j := n - 1;
      Departure(cfg, s, ts, n - 1);
      TurnExact(cfg, s, ts, n - 1, o.st);
    }
  }
}
