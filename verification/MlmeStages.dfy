/** The stages of a connection over whole runs: an interface gets to a stage only through the success of
    the one before it, and a stage that fails or is aborted breaks the connection at that very step. */
module MlmeStages {
  import opened MlmeLock

  // ----- when a sub-thread is over, on its inputs -----

  /** The channel loop, or the exchange of frames, does not go round again. */
  predicate LoopEnds(inp: Input) {
    !inp.again || inp.fails || inp.sub == SubAbort
  }

  /** The scan leaves in this resumption; only the semaphore can still hold it. */
  predicate DrainEnds(inp: Input) {
    if inp.drained then LoopEnds(inp) else inp.expired || inp.sub == SubAbort
  }

  predicate ScanOver(lock: Lock, at: ScanPoint, inp: Input) {
    match at
    case Closing => inp.semaphore
    case Channels => LoopEnds(inp) && inp.semaphore
    case Draining => DrainEnds(inp) && inp.semaphore
    case _ =>
      && (at == ScanStarting || lock.Free?)
      && (inp.sub == SubNone || (inp.sub == SubStart && DrainEnds(inp) && inp.semaphore))
  }

  /** The scan ended well: it was started, and its outcome is success. */
  predicate ScanWon(lock: Lock, at: ScanPoint, inp: Input) {
    ScanOver(lock, at, inp) && inp.success && (at == ScanLocking || at == ScanStarting ==> inp.sub == SubStart)
  }

  /** The exchange of frames has begun: it is under way, or the start message is there. */
  predicate Exchanges(step: StepPoint, inp: Input) {
    step == Exchanging || inp.sub == SubStart
  }

  predicate StepOver(lock: Lock, step: StepPoint, inp: Input) {
    && (step == Locking ==> lock.Free?)
    && if Exchanges(step, inp) then LoopEnds(inp) else inp.sub == SubNone
  }

  predicate StepWon(lock: Lock, step: StepPoint, inp: Input) {
    StepOver(lock, step, inp) && Exchanges(step, inp) && inp.success
  }

  lemma ScanTurnOver(lock: Lock, me: nat, n: Nic, inp: Input)
    requires n.sub.Scan?
    ensures var t := ScanTurn(lock, me, n, inp);
            && (t.done <==> ScanOver(lock, n.sub.at, inp))
            && (t.done ==> (t.ok <==> ScanWon(lock, n.sub.at, inp)) && t.nic.sub == NoSub)
            && t.nic.phase == n.phase && (!t.done ==> t.nic.sub.Scan?)
  {
    hide ScanStart, ScanDrain, ScanChannels;
    ScanStartOver(TryLock(lock, me), n, inp);
    ScanStartOver(lock, n, inp);
    ScanDrainOver(lock, n, inp);
    ScanChannelsOver(lock, n, inp);
  }

  /** The turn ends exactly if `over`, well exactly if `won`, and is a scan's until then. */
  predicate EndsAs(n: Nic, t: Turn, over: bool, won: bool) {
    && (t.done <==> over)
    && (t.done ==> (t.ok <==> won) && t.nic.sub == NoSub)
    && t.nic.phase == n.phase && (!t.done ==> t.nic.sub.Scan?)
  }

  lemma ScanChannelsOver(lock: Lock, n: Nic, inp: Input)
    ensures EndsAs(n, ScanChannels(lock, n, inp), LoopEnds(inp) && inp.semaphore, inp.success)
  {
  }

  lemma ScanDrainOver(lock: Lock, n: Nic, inp: Input)
    ensures EndsAs(n, ScanDrain(lock, n, inp), DrainEnds(inp) && inp.semaphore, inp.success)
  {
    hide ScanChannels;
    ScanChannelsOver(lock, n.(scanning := true), inp);
  }

  lemma ScanStartOver(lock: Lock, n: Nic, inp: Input)
    ensures EndsAs(n, ScanStart(lock, n, inp),
                   inp.sub == SubNone || (inp.sub == SubStart && DrainEnds(inp) && inp.semaphore),
                   inp.sub == SubStart && inp.success)
  {
    hide ScanDrain;
    ScanDrainOver(lock, Stop(n), inp);
  }

  lemma StepTurnOver(lock: Lock, me: nat, n: Nic, inp: Input)
    requires n.sub.Auth? || n.sub.Assoc?
    ensures var t := StepTurn(lock, me, n, inp);
            && (t.done <==> StepOver(lock, n.sub.step, inp))
            && (t.done ==> (t.ok <==> StepWon(lock, n.sub.step, inp)) && t.nic.sub == NoSub)
            && t.nic.phase == n.phase
            && (!t.done ==> t.nic.sub.Auth? == n.sub.Auth? && t.nic.sub.Assoc? == n.sub.Assoc?)
  {
  }

  // ----- what one step makes of each stage -----

  /** The messages that abort an authentication or an association. */
  predicate Aborts(t: Tag) {
    t == ConnAbort || t == DeauthMsg
  }

  predicate Broken(n: Nic) {
    n.phase == Clearup && n.sub == NoSub && !n.node
  }

  /** Authentication: won and not aborted, the association starts; over in any other way, the connection
      is broken; otherwise it goes on and remembers an abort. */
  lemma AuthOutcome(lock: Lock, me: nat, n: Nic, inp: Input)
    requires n.phase.ConnAuth? && n.sub.Auth?
    ensures var r := Resume(lock, me, n, inp).nic;
            if !StepOver(lock, n.sub.step, inp) then
              r.phase == ConnAuth(n.phase.aborting || Aborts(inp.msg)) && r.sub.Auth?
            else if StepWon(lock, n.sub.step, inp) && !n.phase.aborting && !inp.fails then
              r.phase == ConnAssoc(false) && r.sub == Assoc(Locking)
            else Broken(r)
  {
    hide StepTurn, StepOver, StepWon;
    StepTurnOver(lock, me, n, inp);
  }

  lemma AssocOutcome(lock: Lock, me: nat, n: Nic, inp: Input)
    requires n.phase.ConnAssoc? && n.sub.Assoc?
    ensures var r := Resume(lock, me, n, inp).nic;
            if !StepOver(lock, n.sub.step, inp) then
              r.phase == ConnAssoc(n.phase.aborting || Aborts(inp.msg)) && r.sub.Assoc?
            else if StepWon(lock, n.sub.step, inp) && !n.phase.aborting then
              r.phase == ConnPreconnect && r.sub == Preconnect
            else Broken(r)
  {
    hide StepTurn, StepOver, StepWon;
    StepTurnOver(lock, me, n, inp);
  }

  lemma PreconnectOutcome(lock: Lock, me: nat, n: Nic, inp: Input)
    requires n.phase == ConnPreconnect && n.sub == Preconnect
    ensures var r := Resume(lock, me, n, inp).nic;
            if !lock.Free? then r.phase == ConnPreconnect && r.sub == Preconnect
            else if !inp.fails then r.phase == Maintain && r.sub == NoSub
            else Broken(r)
  {
  }

  /** The search: the target found, its record made and authentication started; or another try while it
      looks on; or the end. */
  lemma SearchOutcome(lock: Lock, me: nat, n: Nic, inp: Input)
    requires n.phase.ConnScan? && n.sub.Scan?
    ensures var r, tries := Resume(lock, me, n, inp).nic, n.phase.tries;
            if !ScanOver(lock, n.sub.at, inp) then
              && r.phase == ConnScan(tries, Heard(n.phase.search, inp)) && r.sub.Scan?
            else if n.phase.search == Found && inp.nodeMade && !inp.fails then
              r.phase == ConnAuth(false) && r.sub == Auth(Locking) && r.node
            else if n.phase.search == Looking && ScanWon(lock, n.sub.at, inp) && tries > 1 && !inp.fails then
              r.phase == ConnScan(tries - 1, Looking) && r.sub == Scan(ScanLocking)
            else Broken(r)
  {
    hide ScanTurn, ScanOver, ScanWon;
    ScanTurnOver(lock, me, n, inp);
  }

  /** What the search makes of a message: an abort gives up, a response is the target unless it cannot
      be used, and once decided it stays so. */
  function Heard(s: Search, inp: Input): Search {
    if s != Looking then s
    else if inp.msg == ConnAbort || inp.msg == ScanAbort then GivingUp
    else if inp.msg == ScanRsp then if inp.fails then GivingUp else Found
    else Looking
  }

  // ----- ranks -----

  /** How far a connection has got. */
  function Rank(p: Phase): nat {
    match p
    case Idle => 0
    case CoreScan(_) => 0
    case Clearup => 0
    case ConnScan(_, _) => 1
    case ConnAuth(_) => 2
    case ConnAssoc(_) => 3
    case ConnPreconnect => 4
    case _ => 5
  }

  /** The step takes interface `i` to a rank: a request to connect, the target found and its record made,
      authentication won, association won, the connection set up. */
  predicate Earns(w: World, e: Event, i: nat, r: nat)
    requires i < |w.nics|
  {
    var n, inp := w.nics[i], e.inp;
    e.who == i &&
    match r
    case 1 => n.phase == Idle && inp.msg == ConnReq && !inp.fails
    case 2 =>
      && n.phase.ConnScan? && n.phase.search == Found && n.sub.Scan?
      && ScanOver(w.lock, n.sub.at, inp) && inp.nodeMade && !inp.fails
    case 3 => n.phase == ConnAuth(false) && n.sub.Auth? && StepWon(w.lock, n.sub.step, inp) && !inp.fails
    case 4 => n.phase == ConnAssoc(false) && n.sub.Assoc? && StepWon(w.lock, n.sub.step, inp)
    case 5 => n.phase == ConnPreconnect && w.lock.Free? && !inp.fails
    case _ => false
  }

  lemma IdleRank(lock: Lock, me: nat, n: Nic, inp: Input)
    requires Rank(n.phase) == 0 && Runs(n.phase, n.sub)
    ensures var r := Resume(lock, me, n, inp).nic;
            Rank(r.phase) == if n.phase == Idle && inp.msg == ConnReq && !inp.fails then 1 else 0
  {
    hide ScanTurn;
    if n.sub.Scan? {
      ScanTurnOver(lock, me, n, inp);
    }
  }

  /** A connection that is up stays up until its deauthentication sub-thread has had the lock. */
  lemma MaintainRank(lock: Lock, me: nat, n: Nic, inp: Input)
    requires Rank(n.phase) == 5 && Runs(n.phase, n.sub)
    ensures var r := Resume(lock, me, n, inp).nic;
            if n.phase == MaintainDeauth && lock.Free? then Broken(r) else Rank(r.phase) == 5
  {
    hide ScanTurn;
    if n.sub.Scan? {
      ScanTurnOver(lock, me, n, inp);
    }
  }

  /** A step keeps the rank, earns the next one, or loses all. */
  lemma RankStep(w: World, e: Event, i: nat)
    requires i < |w.nics| && Runs(w.nics[i].phase, w.nics[i].sub)
    ensures |Step(w, e).nics| == |w.nics|
    ensures var r, s := Rank(w.nics[i].phase), Rank(Step(w, e).nics[i].phase);
            if Earns(w, e, i, r + 1) then s == r + 1 else s == r || s == 0
  {
    hide Resume, StepOver, StepWon, ScanOver, ScanWon;
    if e.who == i {
      var n := w.nics[i];
      match Rank(n.phase)
      case 0 => IdleRank(w.lock, i, n, e.inp);
      case 1 => SearchOutcome(w.lock, i, n, e.inp);
      case 2 =>
        AuthOutcome(w.lock, i, n, e.inp);
        WonIsOver(w.lock, n.sub.step, e.inp);
      case 3 =>
        AssocOutcome(w.lock, i, n, e.inp);
        WonIsOver(w.lock, n.sub.step, e.inp);
      case 4 => PreconnectOutcome(w.lock, i, n, e.inp);
      case _ => MaintainRank(w.lock, i, n, e.inp);
    }
  }

  lemma WonIsOver(lock: Lock, step: StepPoint, inp: Input)
    ensures StepWon(lock, step, inp) ==> StepOver(lock, step, inp)
  {
  }

  // ----- over every run -----

  /** The world after the first `m` events. */
  function At(base: seq<nat>, es: seq<Event>, m: nat): World
    requires m <= |es|
  {
    Run(Initial(base), es[..m])
  }

  lemma AtNext(base: seq<nat>, es: seq<Event>, m: nat)
    requires m < |es|
    ensures At(base, es, m + 1) == Step(At(base, es, m), es[m])
  {
    hide Step;
    assert es[..m + 1][..m] == es[..m];
  }

  lemma {:induction false} Sized(base: seq<nat>, es: seq<Event>, m: nat)
    requires m <= |es|
    ensures |At(base, es, m).nics| == |base|
  {
    hide Resume;
    if m > 0 {
      Sized(base, es, m - 1);
      AtNext(base, es, m - 1);
    }
  }

  function PhaseAt(base: seq<nat>, es: seq<Event>, i: nat, m: nat): Phase
    requires i < |base| && m <= |es|
  {
    Sized(base, es, m);
    At(base, es, m).nics[i].phase
  }

  /** From event `k` to time `m` the rank stays. */
  predicate Since(base: seq<nat>, es: seq<Event>, i: nat, k: nat, m: nat, r: nat)
    requires i < |base| && k <= m <= |es|
  {
    forall j :: k < j <= m ==> Rank(PhaseAt(base, es, i, j)) == r
  }

  predicate EarnedAt(base: seq<nat>, es: seq<Event>, i: nat, k: nat, r: nat)
    requires i < |base| && k < |es|
  {
    Sized(base, es, k);
    Earns(At(base, es, k), es[k], i, r)
  }

  /** At time `m` interface `i` has rank `r` and came to it by earning every rank from the request to
      connect on, one after the other. */
  predicate CameTo(base: seq<nat>, es: seq<Event>, i: nat, m: nat, r: nat)
    requires i < |base| && m <= |es|
    decreases r
  {
    && Rank(PhaseAt(base, es, i, m)) == r
    && (r > 0 ==> exists k :: 0 <= k < m && EarnedAt(base, es, i, k, r) && Since(base, es, i, k, m, r)
                            && CameTo(base, es, i, k, r - 1))
  }

  /** Over every run of any number of interfaces: whatever stage an interface is in, it has been through
      all stages before it, each won and none aborted, since it was last asked to connect. */
  lemma {:induction false} StagesEarned(base: seq<nat>, es: seq<Event>, i: nat, m: nat)
    requires forall k :: 0 <= k < |base| ==> base[k] + 1 < U16
    requires i < |base| && m <= |es|
    ensures CameTo(base, es, i, m, Rank(PhaseAt(base, es, i, m)))
    decreases m
  {
    hide Earns, Step, At, Rank;
    if m == 0 {
      FirstRank(base, es, i);
    } else {
      var p := m - 1;
      StagesEarned(base, es, i, p);
      Sized(base, es, p);
      AtNext(base, es, p);
      RunsAt(base, es, p, i);
      RankStep(At(base, es, p), es[p], i);
      var r, s := Rank(PhaseAt(base, es, i, p)), Rank(PhaseAt(base, es, i, m));
      if EarnedAt(base, es, i, p, r + 1) {
        assert Since(base, es, i, p, m, s);
      } else if s == r && r > 0 {
        var k :| 0 <= k < p && EarnedAt(base, es, i, k, r) && Since(base, es, i, k, p, r)
              && CameTo(base, es, i, k, r - 1);
        assert Since(base, es, i, k, m, r);
      }
    }
  }

  lemma FirstRank(base: seq<nat>, es: seq<Event>, i: nat)
    requires i < |base|
    ensures Rank(PhaseAt(base, es, i, 0)) == 0
  {
    assert es[..0] == [];
  }

  lemma RunsAt(base: seq<nat>, es: seq<Event>, m: nat, i: nat)
    requires forall k :: 0 <= k < |base| ==> base[k] + 1 < U16
    requires i < |base| && m <= |es|
    ensures var w := At(base, es, m); i < |w.nics| && Runs(w.nics[i].phase, w.nics[i].sub)
  {
    RunsKeep(base, es[..m]);
  }

  /** A connection that is up: when it was asked for, found, authenticated, associated and set up. */
  lemma UpOnlyThrough(base: seq<nat>, es: seq<Event>, i: nat) returns (a: nat, b: nat, c: nat, d: nat, e: nat)
    requires forall k :: 0 <= k < |base| ==> base[k] + 1 < U16
    requires i < |base| && Rank(PhaseAt(base, es, i, |es|)) == 5
    ensures a < b < c < d < e < |es|
    ensures EarnedAt(base, es, i, a, 1) && EarnedAt(base, es, i, b, 2) && EarnedAt(base, es, i, c, 3)
    ensures EarnedAt(base, es, i, d, 4) && EarnedAt(base, es, i, e, 5)
    ensures Since(base, es, i, a, b, 1) && Since(base, es, i, b, c, 2) && Since(base, es, i, c, d, 3)
    ensures Since(base, es, i, d, e, 4) && Since(base, es, i, e, |es|, 5)
  {
    hide EarnedAt, Since, PhaseAt;
    StagesEarned(base, es, i, |es|);
    e := Earned(base, es, i, |es|, 5);
    d := Earned(base, es, i, e, 4);
    c := Earned(base, es, i, d, 3);
    b := Earned(base, es, i, c, 2);
    a := Earned(base, es, i, b, 1);
  }

  lemma Earned(base: seq<nat>, es: seq<Event>, i: nat, m: nat, r: nat) returns (k: nat)
    requires i < |base| && m <= |es| && r > 0 && CameTo(base, es, i, m, r)
    ensures k < m && EarnedAt(base, es, i, k, r) && Since(base, es, i, k, m, r) && CameTo(base, es, i, k, r - 1)
  {
    k :| 0 <= k < m && EarnedAt(base, es, i, k, r) && Since(base, es, i, k, m, r) && CameTo(base, es, i, k, r - 1);
  }

  // ----- aborts -----

  predicate AbortedIn(es: seq<Event>, i: nat, k: nat, m: nat)
    requires k <= m <= |es|
  {
    exists j :: k < j < m && es[j].who == i && Aborts(es[j].inp.msg)
  }

  predicate Aborting(p: Phase) {
    p == ConnAuth(true) || p == ConnAssoc(true)
  }

  /** One step of an authentication or association that goes on remembers exactly an abort of its own. */
  lemma AbortStep(w: World, e: Event, i: nat)
    requires i < |w.nics| && Runs(w.nics[i].phase, w.nics[i].sub)
    requires w.nics[i].phase.ConnAuth? || w.nics[i].phase.ConnAssoc?
    ensures |Step(w, e).nics| == |w.nics|
    ensures var p, q := w.nics[i].phase, Step(w, e).nics[i].phase;
            Rank(q) == Rank(p) ==> (Aborting(q) <==> Aborting(p) || (e.who == i && Aborts(e.inp.msg)))
  {
    hide Resume, StepOver, StepWon;
    if e.who == i {
      if w.nics[i].phase.ConnAuth? {
        AuthOutcome(w.lock, i, w.nics[i], e.inp);
      } else {
        AssocOutcome(w.lock, i, w.nics[i], e.inp);
      }
    }
  }

  lemma StartsClean(w: World, e: Event, i: nat, r: nat)
    requires i < |w.nics| && Earns(w, e, i, r) && (r == 2 || r == 3)
    ensures i < |Step(w, e).nics| && !Aborting(Step(w, e).nics[i].phase)
  {
    hide Resume, StepOver, StepWon, ScanOver, ScanWon;
    var n := w.nics[i];
    if r == 2 {
      SearchOutcome(w.lock, i, n, e.inp);
    } else {
      AuthOutcome(w.lock, i, n, e.inp);
      WonIsOver(w.lock, n.sub.step, e.inp);
    }
  }

  /** Over every run, an authentication or association is aborting exactly when one of its own messages
      since it began was an abort. */
  lemma {:induction false} AbortsRemembered(base: seq<nat>, es: seq<Event>, i: nat, k: nat, m: nat, r: nat)
    requires forall j :: 0 <= j < |base| ==> base[j] + 1 < U16
    requires i < |base| && k < m <= |es| && (r == 2 || r == 3)
    requires EarnedAt(base, es, i, k, r) && Since(base, es, i, k, m, r)
    ensures Aborting(PhaseAt(base, es, i, m)) <==> AbortedIn(es, i, k, m)
    decreases m
  {
    hide Earns, Step, At, Aborting, Aborts;
    var p := m - 1;
    Sized(base, es, p);
    AtNext(base, es, p);
    if p == k {
      StartsClean(At(base, es, k), es[k], i, r);
    } else {
      AbortsRemembered(base, es, i, k, p, r);
      RunsAt(base, es, p, i);
      assert Rank(PhaseAt(base, es, i, p)) == r && Rank(PhaseAt(base, es, i, m)) == r;
      KindAt(PhaseAt(base, es, i, p), r);
      AbortStep(At(base, es, p), es[p], i);
    }
  }

  lemma KindAt(p: Phase, r: nat)
    requires Rank(p) == r && (r == 2 || r == 3)
    ensures p.ConnAuth? || p.ConnAssoc?
  {
  }

  // ----- the phases that one message causes -----

  /** The side task of a phase. */
  datatype Task = NoTask | Scanning | MaintScanning | Probing | Leaving | AskingBa | AnsweringBa

  function TaskOf(p: Phase): Task {
    match p
    case CoreScan(_) => Scanning
    case MaintainScan(_) => MaintScanning
    case MaintainProbe(_) => Probing
    case MaintainDeauth => Leaving
    case MaintainBaReq => AskingBa
    case MaintainBaRsp => AnsweringBa
    case _ => NoTask
  }

  /** The phase a task starts from and the messages that start it. */
  predicate Starts(p: Phase, inp: Input, t: Task) {
    match t
    case NoTask => false
    case Scanning => p == Idle && inp.msg == ScanReq && !inp.fails
    case MaintScanning => p == Maintain && inp.msg == ScanReq && !inp.fails
    case Probing => p == Maintain && inp.msg == KeepAlive && !inp.fails
    case Leaving => p == Maintain && inp.msg in {DeauthMsg, DeassocMsg, ConnAbort}
    case AskingBa => p == Maintain && inp.msg == AddBaReq
    case AnsweringBa => p == Maintain && inp.msg == AddBaRsp
  }

  /** The task has been told to stop. */
  predicate Stopping(p: Phase) {
    p == CoreScan(true) || p == MaintainScan(true) || p == MaintainProbe(true)
  }

  /** The task is over in this resumption. */
  predicate TaskOver(lock: Lock, n: Nic, inp: Input) {
    if n.sub.Scan? then ScanOver(lock, n.sub.at, inp) else lock.Free?
  }

  /** A task starts exactly on its message, goes on until it is over, and then returns to where it
      started, but for a deauthentication, which breaks the connection. */
  lemma TaskStep(lock: Lock, me: nat, n: Nic, inp: Input, t: Task)
    requires Runs(n.phase, n.sub) && (n.phase == Maintain ==> n.node) && t != NoTask
    ensures var q := Resume(lock, me, n, inp).nic.phase;
            && (TaskOf(n.phase) == NoTask ==> (TaskOf(q) == t <==> Starts(n.phase, inp, t)) && !Stopping(q))
            && (TaskOf(n.phase) == t ==>
                  if TaskOver(lock, n, inp) then
                    q == (if t == Scanning then Idle else if t == Leaving then Clearup else Maintain)
                  else TaskOf(q) == t)
  {
    hide Resume, TaskOf, Starts, TaskOver;
    if TaskOf(n.phase) == NoTask {
      TaskStarts(lock, me, n, inp, t);
    } else if TaskOf(n.phase) == t {
      TaskGoesOn(lock, me, n, inp);
    }
  }

  lemma TaskGoesOn(lock: Lock, me: nat, n: Nic, inp: Input)
    requires Runs(n.phase, n.sub) && TaskOf(n.phase) != NoTask
    ensures var q, t := Resume(lock, me, n, inp).nic.phase, TaskOf(n.phase);
            if TaskOver(lock, n, inp) then
              q == (if t == Scanning then Idle else if t == Leaving then Clearup else Maintain)
            else TaskOf(q) == t
  {
    hide ScanTurn, StepTurn, ScanOver;
    if n.sub.Scan? {
      ScanTurnOver(lock, me, n, inp);
    }
  }

  lemma TaskStarts(lock: Lock, me: nat, n: Nic, inp: Input, t: Task)
    requires Runs(n.phase, n.sub) && (n.phase == Maintain ==> n.node) && t != NoTask && TaskOf(n.phase) == NoTask
    ensures TaskOf(Resume(lock, me, n, inp).nic.phase) == t <==> Starts(n.phase, inp, t)
    ensures !Stopping(Resume(lock, me, n, inp).nic.phase)
  {
    hide Resume, Starts, ScanOver, ScanWon, StepOver, StepWon;
    match n.phase
    case Idle => IdleStarts(lock, me, n, inp, t);
    case Maintain => MaintainStarts(lock, me, n, inp, t);
    case _ =>
      NoStart(n.phase, inp, t);
      match n.phase
      case ConnScan(_, _) => SearchOutcome(lock, me, n, inp);
      case ConnAuth(_) => AuthOutcome(lock, me, n, inp);
      case ConnAssoc(_) => AssocOutcome(lock, me, n, inp);
      case ConnPreconnect => PreconnectOutcome(lock, me, n, inp);
      case _ => ClearupEnds(lock, me, n, inp);
  }

  lemma IdleStarts(lock: Lock, me: nat, n: Nic, inp: Input, t: Task)
    requires n.phase == Idle && t != NoTask
    ensures TaskOf(Resume(lock, me, n, inp).nic.phase) == t <==> Starts(n.phase, inp, t)
    ensures !Stopping(Resume(lock, me, n, inp).nic.phase)
  {
    hide SubTurn;
  }

  lemma MaintainStarts(lock: Lock, me: nat, n: Nic, inp: Input, t: Task)
    requires n.phase == Maintain && n.node && t != NoTask
    ensures TaskOf(Resume(lock, me, n, inp).nic.phase) == t <==> Starts(n.phase, inp, t)
    ensures !Stopping(Resume(lock, me, n, inp).nic.phase)
  {
    hide SubTurn;
  }

  lemma NoStart(p: Phase, inp: Input, t: Task)
    requires p != Idle && p != Maintain
    ensures !Starts(p, inp, t)
  {
  }

  predicate StartedAt(base: seq<nat>, es: seq<Event>, i: nat, k: nat, t: Task)
    requires i < |base| && k < |es|
  {
    es[k].who == i && Starts(PhaseAt(base, es, i, k), es[k].inp, t)
  }

  predicate TaskSince(base: seq<nat>, es: seq<Event>, i: nat, k: nat, m: nat, t: Task)
    requires i < |base| && k <= m <= |es|
  {
    forall j :: k < j <= m ==> TaskOf(PhaseAt(base, es, i, j)) == t
  }

  /** Over every run a task under way was started by its own message and has gone on since. */
  lemma {:induction false} TasksCaused(base: seq<nat>, es: seq<Event>, i: nat, m: nat)
    requires forall k :: 0 <= k < |base| ==> base[k] + 1 < U16
    requires i < |base| && m <= |es|
    ensures var t := TaskOf(PhaseAt(base, es, i, m));
            t != NoTask ==> exists k :: 0 <= k < m && StartedAt(base, es, i, k, t) && TaskSince(base, es, i, k, m, t)
    decreases m
  {
    hide At, Starts, TaskOf, Step;
    if m == 0 {
      FirstTask(base, es, i);
    } else {
      var p := m - 1;
      TasksCaused(base, es, i, p);
      Sized(base, es, p);
      AtNext(base, es, p);
      RunsAt(base, es, p, i);
      NodeAt(base, es, p, i);
      Sized(base, es, m);
      var s, t := TaskOf(PhaseAt(base, es, i, p)), TaskOf(PhaseAt(base, es, i, m));
      TaskMoves(At(base, es, p), es[p], i, s, t);
      if t != NoTask {
        if s == t {
          var k :| 0 <= k < p && StartedAt(base, es, i, k, t) && TaskSince(base, es, i, k, p, t);
          assert TaskSince(base, es, i, k, m, t);
        } else {
          assert StartedAt(base, es, i, p, t) && TaskSince(base, es, i, p, m, t);
        }
      }
    }
  }

  lemma TaskMoves(w: World, e: Event, i: nat, s: Task, t: Task)
    requires i < |w.nics| && Runs(w.nics[i].phase, w.nics[i].sub)
    requires (w.nics[i].phase == Maintain ==> w.nics[i].node) && i < |Step(w, e).nics|
    requires s == TaskOf(w.nics[i].phase) && t == TaskOf(Step(w, e).nics[i].phase)
    ensures t == s || t == NoTask || (e.who == i && Starts(w.nics[i].phase, e.inp, t))
  {
    hide Resume, TaskOver, Starts;
    if e.who == i && t != NoTask {
      TaskStep(w.lock, i, w.nics[i], e.inp, t);
      if s != NoTask {
        TaskStep(w.lock, i, w.nics[i], e.inp, s);
      }
    }
  }

  lemma FirstTask(base: seq<nat>, es: seq<Event>, i: nat)
    requires i < |base|
    ensures TaskOf(PhaseAt(base, es, i, 0)) == NoTask
  {
    assert es[..0] == [];
  }

  lemma NodeAt(base: seq<nat>, es: seq<Event>, m: nat, i: nat)
    requires forall k :: 0 <= k < |base| ==> base[k] + 1 < U16
    requires i < |base| && m <= |es|
    ensures var w := At(base, es, m); i < |w.nics| && (w.nics[i].phase == Maintain ==> w.nics[i].node)
  {
    RunsKeep(base, es[..m]);
  }

  /** The break is over exactly when the transmit path is empty or its time is up. */
  lemma ClearupEnds(lock: Lock, me: nat, n: Nic, inp: Input)
    requires n.phase == Clearup
    ensures Resume(lock, me, n, inp).nic.phase == if inp.drained || inp.expired then Idle else Clearup
  {
  }

  /** The messages that stop a scan under way. */
  function Stoppers(t: Task): set<Tag> {
    match t
    case Scanning => {ScanAbort}
    case MaintScanning => {ScanAbort, ConnAbort, DeauthMsg, DeassocMsg}
    case Probing => {ScanAbort, ConnAbort, DeauthMsg, DeassocMsg, ScanRsp}
    case _ => {}
  }

  /** A scan that goes on remembers exactly a message that stops it. */
  lemma StopRemembered(lock: Lock, me: nat, n: Nic, inp: Input)
    requires Runs(n.phase, n.sub) && TaskOf(n.phase) in {Scanning, MaintScanning, Probing}
    requires !ScanOver(lock, n.sub.at, inp)
    ensures Stopping(Resume(lock, me, n, inp).nic.phase)
            <==> Stopping(n.phase) || inp.msg in Stoppers(TaskOf(n.phase))
  {
    hide ScanTurn, ScanOver;
    ScanTurnOver(lock, me, n, inp);
  }
}
