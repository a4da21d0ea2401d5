/** Infrastructure-mode interfaces whose station threads share one hardware lock: scan,
    authentication, association, connection set-up and maintenance, one resumption at a time. */
module MlmeLock {

  datatype Lock = Free | Held(owner: nat)

  // ----- sub-threads -----

  /** Where a sub-thread that uses the hardware resumes. `Locking` waits for the lock; every later
      point holds it. A scan then waits for its start message, for the transmit path to drain, in
      its channel loop, and for the semaphore that guards its request. */
  datatype Sub =
    | NoSub
    | Scan(at: ScanPoint)
    | Auth(step: StepPoint)
    | Assoc(step: StepPoint)
    | Preconnect
    | Deauth
    | BaReq
    | BaRsp

  datatype ScanPoint = ScanLocking | ScanStarting | Draining | Channels | Closing
  datatype StepPoint = Locking | Starting | Exchanging

  // ----- the main thread -----

  const MAX_TRIES := 3

  /** What the connection scan will do when its scan ends. */
  datatype Search = Looking | GivingUp | Found

  datatype Phase =
    | Idle
    | CoreScan(aborting: bool)
    | ConnScan(tries: nat, search: Search)
    | ConnAuth(aborting: bool)
    | ConnAssoc(aborting: bool)
    | ConnPreconnect
    | Maintain
    | MaintainScan(aborting: bool)
    | MaintainProbe(aborting: bool)
    | MaintainDeauth
    | MaintainBaReq
    | MaintainBaRsp
    | Clearup

  /** One interface: `node` says that the access point's record exists, `stops` counts transmit
      stops and `scanning` says that the scan settings are in force. */
  datatype Nic = Nic(phase: Phase, sub: Sub, node: bool, stops: nat, scanning: bool)

  datatype World = World(lock: Lock, nics: seq<Nic>)

  datatype Tag = NoMsg | ScanReq | ConnReq | ScanAbort | ConnAbort | DeauthMsg | DeassocMsg
    | ScanRsp | KeepAlive | AddBaReq | AddBaRsp | OtherMsg

  datatype SubMsg = SubNone | SubStart | SubAbort | SubOther

  /** Everything a resumption learns from outside: the message at the head of the main queue and of
      the sub-thread's, timer expiry, an empty transmit path, a free semaphore, whether the next
      fallible call fails, whether a send-and-wait loop goes round again, and the outcome. */
  datatype Input = Input(msg: Tag, sub: SubMsg, expired: bool, drained: bool, semaphore: bool,
                         fails: bool, again: bool, success: bool, nodeMade: bool)

  // ----- the lock and the transmit stop counter -----

  /** `trylock` gives the lock only when nobody holds it. */
  function TryLock(lock: Lock, me: nat): Lock {
    if lock.Free? then Held(me) else lock
  }

  predicate Gets(lock: Lock) {
    lock.Free?
  }

  const U16 := 0x10000

  function Stop(n: Nic): Nic {
    n.(stops := (n.stops + 1) % U16)
  }

  function Start(n: Nic): Nic {
    if n.stops > 0 then n.(stops := n.stops - 1) else n
  }

  /** A sub-thread's resumption: the lock, the interface, and whether and how it finished. */
  datatype Turn = Turn(lock: Lock, nic: Nic, done: bool, ok: bool)

  function Waits(lock: Lock, n: Nic): Turn {
    Turn(lock, n, false, false)
  }

  function Finishes(lock: Lock, n: Nic, ok: bool): Turn {
    Turn(lock, n.(sub := NoSub), true, ok)
  }

  // ----- scan -----

  /** The common exit: put the settings back, start transmission, release the request, unlock. */
  function ScanExit(lock: Lock, n: Nic, inp: Input): Turn {
    ScanClose(lock, Start(n.(scanning := false, sub := Scan(Closing))), inp)
  }

  function ScanClose(lock: Lock, n: Nic, inp: Input): Turn {
    if inp.semaphore then Finishes(Free, n, inp.success) else Waits(lock, n)
  }

  /** The channel loop waits again or ends, by completion, failure or abort. */
  function ScanChannels(lock: Lock, n: Nic, inp: Input): Turn {
    if inp.again && !inp.fails && inp.sub != SubAbort then Waits(lock, n.(sub := Scan(Channels)))
    else ScanExit(lock, n, inp)
  }

  function ScanDrain(lock: Lock, n: Nic, inp: Input): Turn {
    if !inp.drained then
      if inp.sub == SubAbort || inp.expired then ScanExit(lock, n, inp)
      else Waits(lock, n.(sub := Scan(Draining)))
    else if inp.fails then ScanExit(lock, n, inp)
    else ScanChannels(lock, n.(scanning := true), inp)
  }

  function ScanStart(lock: Lock, n: Nic, inp: Input): Turn {
    match inp.sub
    case SubNone => Finishes(Free, n, false)
    case SubStart => ScanDrain(lock, Stop(n), inp)
    case _ => Waits(lock, n.(sub := Scan(ScanStarting)))
  }

  function ScanTurn(lock: Lock, me: nat, n: Nic, inp: Input): Turn
    requires n.sub.Scan?
  {
    match n.sub.at
    case ScanLocking => if Gets(lock) then ScanStart(TryLock(lock, me), n, inp) else Waits(lock, n)
    case ScanStarting => ScanStart(lock, n, inp)
    case Draining => ScanDrain(lock, n, inp)
    case Channels => ScanChannels(lock, n, inp)
    case Closing => ScanClose(lock, n, inp)
  }

  // ----- authentication and association -----

  function AtStep(n: Nic, p: StepPoint): Nic {
    n.(sub := if n.sub.Auth? then Auth(p) else Assoc(p))
  }

  function Exchange(lock: Lock, n: Nic, inp: Input): Turn {
    if inp.again && !inp.fails && inp.sub != SubAbort then Waits(lock, AtStep(n, Exchanging))
    else Finishes(Free, n, inp.success)
  }

  function StepStart(lock: Lock, n: Nic, inp: Input): Turn {
    match inp.sub
    case SubNone => Finishes(Free, n, false)
    case SubStart => Exchange(lock, n, inp)
    case _ => Waits(lock, AtStep(n, Starting))
  }

  function StepTurn(lock: Lock, me: nat, n: Nic, inp: Input): Turn
    requires n.sub.Auth? || n.sub.Assoc?
  {
    match n.sub.step
    case Locking => if Gets(lock) then StepStart(TryLock(lock, me), n, inp) else Waits(lock, n)
    case Starting => StepStart(lock, n, inp)
    case Exchanging => Exchange(lock, n, inp)
  }

  // ----- the sub-threads that take the lock for one segment -----

  function BriefTurn(lock: Lock, me: nat, n: Nic, inp: Input): Turn {
    if !Gets(lock) then Waits(lock, n)
    else if n.sub == Preconnect then Finishes(Free, n, !inp.fails)
    else Finishes(Free, n, true)
  }

  /** The block-ack sub-threads leave early, with the lock, when there is no record. */
  function BaTurn(lock: Lock, me: nat, n: Nic, inp: Input): Turn {
    if !Gets(lock) then Waits(lock, n)
    else if !n.node then Finishes(TryLock(lock, me), n, false)
    else Finishes(Free, n, true)
  }

  function SubTurn(lock: Lock, me: nat, n: Nic, inp: Input): Turn {
    match n.sub
    case NoSub => Turn(lock, n, true, false)
    case Scan(_) => ScanTurn(lock, me, n, inp)
    case Auth(_) => StepTurn(lock, me, n, inp)
    case Assoc(_) => StepTurn(lock, me, n, inp)
    case Preconnect => BriefTurn(lock, me, n, inp)
    case Deauth => BriefTurn(lock, me, n, inp)
    case BaReq => BaTurn(lock, me, n, inp)
    case BaRsp => BaTurn(lock, me, n, inp)
  }

  // ----- the main thread's reactions -----

  function Enter(n: Nic, p: Phase, s: Sub): Nic {
    n.(phase := p, sub := s)
  }

  /** Break the connection: forget the record and wait for the transmit path. */
  function Break(n: Nic): Nic {
    Enter(n.(node := false), Clearup, NoSub)
  }

  /** Start a sub-thread, or fall back when its start call fails. */
  function Launch(n: Nic, inp: Input, p: Phase, s: Sub, otherwise: Nic): Nic {
    if inp.fails then otherwise else Enter(n, p, s)
  }

  function OnIdle(n: Nic, inp: Input): Nic {
    match inp.msg
    case ScanReq => Launch(n, inp, CoreScan(false), Scan(ScanLocking), n)
    case ConnReq => Launch(n, inp, ConnScan(MAX_TRIES, Looking), Scan(ScanLocking), Break(n))
    case _ => n
  }

  /** The target was found and the scan has ended: make the record, then authenticate. */
  function OnFound(n: Nic, inp: Input): Nic {
    if !inp.nodeMade then Break(n)
    else Launch(n.(node := true), inp, ConnAuth(false), Auth(Locking), Break(n.(node := true)))
  }

  function OnMaintain(n: Nic, inp: Input): Nic {
    match inp.msg
    case ScanReq => Launch(n, inp, MaintainScan(false), Scan(ScanLocking), n)
    case KeepAlive => if n.node then Launch(n, inp, MaintainProbe(false), Scan(ScanLocking), n) else n
    case DeauthMsg => Enter(n, MaintainDeauth, Deauth)
    case DeassocMsg => Enter(n, MaintainDeauth, Deauth)
    case ConnAbort => Enter(n, MaintainDeauth, Deauth)
    case AddBaReq => Enter(n, MaintainBaReq, BaReq)
    case AddBaRsp => Enter(n, MaintainBaRsp, BaRsp)
    case _ => n
  }

  /** The sub-thread has finished. */
  function OnDone(n: Nic, ok: bool, inp: Input): Nic {
    match n.phase
    case Idle => n
    case CoreScan(_) => Enter(n, Idle, NoSub)
    case ConnScan(tries, search) =>
      if search == Found then OnFound(n, inp)
      else if search == Looking && ok && tries > 1 then
        Launch(n, inp, ConnScan(tries - 1, Looking), Scan(ScanLocking), Break(n))
      else Break(n)
    case ConnAuth(aborting) =>
      if aborting || !ok then Break(n) else Launch(n, inp, ConnAssoc(false), Assoc(Locking), Break(n))
    case ConnAssoc(aborting) => if aborting || !ok then Break(n) else Enter(n, ConnPreconnect, Preconnect)
    case ConnPreconnect => if ok then Enter(n, Maintain, NoSub) else Break(n)
    case Maintain => n
    case MaintainScan(_) => Enter(n, Maintain, NoSub)
    case MaintainProbe(_) => Enter(n, Maintain, NoSub)
    case MaintainDeauth => Break(n)
    case MaintainBaReq => Enter(n, Maintain, NoSub)
    case MaintainBaRsp => Enter(n, Maintain, NoSub)
    case Clearup => n
  }

  /** A message has arrived while the sub-thread is under way. */
  function OnMessage(n: Nic, inp: Input): Nic {
    match n.phase
    case CoreScan(false) => if inp.msg == ScanAbort then n.(phase := CoreScan(true)) else n
    case ConnScan(tries, Looking) =>
      if inp.msg == ConnAbort || inp.msg == ScanAbort then n.(phase := ConnScan(tries, GivingUp))
      else if inp.msg == ScanRsp then n.(phase := ConnScan(tries, if inp.fails then GivingUp else Found))
      else n
    case ConnAuth(false) =>
      if inp.msg == ConnAbort || inp.msg == DeauthMsg then n.(phase := ConnAuth(true)) else n
    case ConnAssoc(false) =>
      if inp.msg == ConnAbort || inp.msg == DeauthMsg then n.(phase := ConnAssoc(true)) else n
    case MaintainScan(false) => if StopsScan(inp.msg) then n.(phase := MaintainScan(true)) else n
    case MaintainProbe(false) =>
      if StopsScan(inp.msg) || inp.msg == ScanRsp then n.(phase := MaintainProbe(true)) else n
    case _ => n
  }

  predicate StopsScan(t: Tag) {
    t == ScanAbort || t == ConnAbort || t == DeauthMsg || t == DeassocMsg
  }

  /** One resumption of an interface's main thread. */
  function Resume(lock: Lock, me: nat, n: Nic, inp: Input): Turn {
    match n.phase
    case Idle => Waits(lock, OnIdle(n, inp))
    case Maintain => Waits(lock, OnMaintain(n, inp))
    case Clearup => Waits(lock, if inp.drained || inp.expired then Enter(n, Idle, NoSub) else n)
    case _ =>
      var t := SubTurn(lock, me, n, inp);
      t.(nic := if t.done then OnDone(t.nic, t.ok, inp) else OnMessage(t.nic, inp))
  }

  datatype Event = Event(who: nat, inp: Input)

  function Step(w: World, e: Event): World {
    if e.who >= |w.nics| then w
    else
      var t := Resume(w.lock, e.who, w.nics[e.who], e.inp);
      World(t.lock, w.nics[e.who := t.nic])
  }

  /** The states of a run, first to last. */
  function Run(w: World, es: seq<Event>): World
    decreases |es|
  {
    if es == [] then w else Step(Run(w, es[..|es| - 1]), es[|es| - 1])
  }

  /** All interfaces idle, with transmit stop counts of whoever else uses them. */
  function Initial(base: seq<nat>): World {
    World(Free, seq(|base|, i requires 0 <= i < |base| => Nic(Idle, NoSub, false, base[i], false)))
  }

  // ----- what every step keeps -----

  /** The sub-thread holds the lock between its resumptions. */
  predicate Holds(s: Sub) {
    match s
    case Scan(at) => at != ScanLocking
    case Auth(step) => step != Locking
    case Assoc(step) => step != Locking
    case _ => false
  }

  /** The sub-thread has stopped transmission. */
  predicate Stopped(s: Sub) {
    s == Scan(Draining) || s == Scan(Channels)
  }

  /** The sub-thread each phase runs. */
  predicate Runs(p: Phase, s: Sub) {
    match p
    case Idle => s == NoSub
    case CoreScan(_) => s.Scan?
    case ConnScan(_, _) => s.Scan?
    case ConnAuth(_) => s.Auth?
    case ConnAssoc(_) => s.Assoc?
    case ConnPreconnect => s == Preconnect
    case Maintain => s == NoSub
    case MaintainScan(_) => s.Scan?
    case MaintainProbe(_) => s.Scan?
    case MaintainDeauth => s == Deauth
    case MaintainBaReq => s == BaReq
    case MaintainBaRsp => s == BaRsp
    case Clearup => s == NoSub
  }

  /** The phases between the making of the record and the breaking of the connection. */
  predicate HasNode(p: Phase) {
    !(p.Idle? || p.CoreScan? || p.ConnScan? || p.Clearup?)
  }

  /** The record exists exactly in those phases, and a search has between one and three tries left. */
  predicate Attached(n: Nic) {
    && (n.node <==> HasNode(n.phase))
    && (n.phase.ConnScan? ==> 1 <= n.phase.tries <= MAX_TRIES)
  }

  predicate NicInv(n: Nic, base: nat) {
    && Runs(n.phase, n.sub)
    && Attached(n)
    && n.stops == base + (if Stopped(n.sub) then 1 else 0)
    && (n.scanning <==> n.sub == Scan(Channels))
  }

  /** The lock is held exactly by an interface whose sub-thread is past its lock wait. */
  ghost predicate LockInv(w: World) {
    && (w.lock.Held? ==> w.lock.owner < |w.nics|)
    && forall i :: 0 <= i < |w.nics| ==> (w.lock == Held(i) <==> Holds(w.nics[i].sub))
  }

  ghost predicate Inv(w: World, base: seq<nat>) {
    && |w.nics| == |base|
    && LockInv(w)
    && forall i :: 0 <= i < |base| ==> NicInv(w.nics[i], base[i])
  }

  /** What a sub-thread's resumption does to the lock, the counter and the settings. */
  ghost predicate TurnOk(lock: Lock, me: nat, base: nat, n: Nic, t: Turn) {
    && t.nic.phase == n.phase && t.nic.node == n.node
    && (t.done ==> t.nic.sub == NoSub && t.lock != Held(me) && !t.nic.scanning && t.nic.stops == base)
    && (!t.done ==> NicInv(t.nic, base) && (t.lock == Held(me) <==> Holds(t.nic.sub)))
    && (t.lock == lock || (lock.Free? && t.lock == Held(me)) || (lock == Held(me) && t.lock.Free?))
  }

  /** From any point that holds the lock with transmission stopped, the exit puts everything back. */
  lemma ScanExitOk(lock: Lock, me: nat, base: nat, n: Nic, inp: Input)
    requires Runs(n.phase, Scan(Closing)) && Attached(n) && n.stops == base + 1 && lock == Held(me)
    ensures TurnOk(lock, me, base, n, ScanExit(lock, n, inp))
  {
  }

  lemma ScanChannelsOk(lock: Lock, me: nat, base: nat, n: Nic, inp: Input)
    requires Runs(n.phase, Scan(Closing)) && Attached(n) && n.stops == base + 1 && lock == Held(me)
    requires n.scanning
    ensures TurnOk(lock, me, base, n, ScanChannels(lock, n, inp))
  {
    hide ScanExit;
    ScanExitOk(lock, me, base, n, inp);
  }

  lemma ScanDrainOk(lock: Lock, me: nat, base: nat, n: Nic, inp: Input)
    requires Runs(n.phase, Scan(Closing)) && Attached(n) && n.stops == base + 1 && lock == Held(me)
    requires !n.scanning
    ensures TurnOk(lock, me, base, n, ScanDrain(lock, n, inp))
  {
    hide ScanExit, ScanChannels;
    ScanExitOk(lock, me, base, n, inp);
    ScanChannelsOk(lock, me, base, n.(scanning := true), inp);
  }

  lemma ScanStartOk(lock: Lock, me: nat, base: nat, n: Nic, inp: Input)
    requires Runs(n.phase, Scan(Closing)) && Attached(n) && n.stops == base && lock == Held(me)
    requires !n.scanning && base + 1 < U16
    ensures var t := ScanStart(lock, n, inp); TurnOk(lock, me, base, n, t)
  {
    hide ScanDrain;
    assert (base + 1) % U16 == base + 1;
    ScanDrainOk(lock, me, base, Stop(n), inp);
  }

  lemma ScanTurnOk(lock: Lock, me: nat, base: nat, n: Nic, inp: Input)
    requires NicInv(n, base) && n.sub.Scan? && (lock == Held(me) <==> Holds(n.sub)) && base + 1 < U16
    ensures TurnOk(lock, me, base, n, ScanTurn(lock, me, n, inp))
  {
    hide ScanDrain, ScanStart, ScanChannels;
    match n.sub.at
    case ScanLocking =>
      if lock.Free? {
        ScanStartOk(Held(me), me, base, n, inp);
      }
    case ScanStarting => ScanStartOk(lock, me, base, n, inp);
    case Draining => ScanDrainOk(lock, me, base, n, inp);
    case Channels => ScanChannelsOk(lock, me, base, n, inp);
    case Closing =>
  }

  lemma StepTurnOk(lock: Lock, me: nat, base: nat, n: Nic, inp: Input)
    requires NicInv(n, base) && (n.sub.Auth? || n.sub.Assoc?) && (lock == Held(me) <==> Holds(n.sub))
    ensures TurnOk(lock, me, base, n, StepTurn(lock, me, n, inp))
  {
  }

  lemma SubTurnOk(lock: Lock, me: nat, base: nat, n: Nic, inp: Input)
    requires NicInv(n, base) && n.sub != NoSub && (lock == Held(me) <==> Holds(n.sub)) && base + 1 < U16
    ensures TurnOk(lock, me, base, n, SubTurn(lock, me, n, inp))
  {
    hide ScanTurn, StepTurn;
    if n.sub.Scan? {
      ScanTurnOk(lock, me, base, n, inp);
    } else if n.sub.Auth? || n.sub.Assoc? {
      StepTurnOk(lock, me, base, n, inp);
    }
  }

  lemma OnDoneInv(n: Nic, before: Sub, base: nat, ok: bool, inp: Input)
    requires n.sub == NoSub && before != NoSub && Runs(n.phase, before) && Attached(n)
    requires n.stops == base && !n.scanning
    ensures NicInv(OnDone(n, ok, inp), base) && !Holds(OnDone(n, ok, inp).sub)
  {
  }

  lemma OnMessageInv(n: Nic, base: nat, inp: Input)
    requires NicInv(n, base)
    ensures NicInv(OnMessage(n, inp), base) && OnMessage(n, inp).sub == n.sub
  {
  }

  /** A resumption keeps the interface's invariant and touches the lock only to take or release it. */
  lemma ResumeOk(lock: Lock, me: nat, base: nat, n: Nic, inp: Input)
    requires NicInv(n, base) && (lock == Held(me) <==> Holds(n.sub)) && base + 1 < U16
    ensures var t := Resume(lock, me, n, inp);
            && NicInv(t.nic, base) && (t.lock == Held(me) <==> Holds(t.nic.sub))
            && (t.lock == lock || (lock.Free? && t.lock == Held(me)) || (lock == Held(me) && t.lock.Free?))
  {
    if n.sub != NoSub {
      hide SubTurn, OnDone, OnMessage;
      SubTurnOk(lock, me, base, n, inp);
      var t := SubTurn(lock, me, n, inp);
      if t.done {
        OnDoneInv(t.nic, n.sub, base, t.ok, inp);
      } else {
        OnMessageInv(t.nic, base, inp);
      }
    }
  }

  lemma StepKeeps(w: World, e: Event, base: seq<nat>)
    requires Inv(w, base) && forall i :: 0 <= i < |base| ==> base[i] + 1 < U16
    ensures Inv(Step(w, e), base)
  {
    hide Resume, NicInv, Holds;
    if e.who < |w.nics| {
      ResumeOk(w.lock, e.who, base[e.who], w.nics[e.who], e.inp);
    }
  }

  lemma {:induction false} RunsKeep(base: seq<nat>, es: seq<Event>)
    requires forall i :: 0 <= i < |base| ==> base[i] + 1 < U16
    ensures Inv(Run(Initial(base), es), base)
    decreases |es|
  {
    if es != [] {
      RunsKeep(base, es[..|es| - 1]);
      StepKeeps(Run(Initial(base), es[..|es| - 1]), es[|es| - 1], base);
    }
  }

  /** The lock belongs to an interface that is not using it, as after such an exit. */
  ghost predicate Leaked(w: World, i: nat) {
    w.lock == Held(i) && forall j :: 0 <= j < |w.nics| ==> !Holds(w.nics[j].sub)
  }

  /** What the early exit would cost: from then on no interface, the leaking one included, ever gets
      past its lock wait, whatever happens. */
  lemma {:induction false} LeakIsForever(w: World, i: nat, es: seq<Event>)
    requires Leaked(w, i)
    ensures Leaked(Run(w, es), i)
    decreases |es|
  {
    if es != [] {
      LeakIsForever(w, i, es[..|es| - 1]);
      LeakStays(Run(w, es[..|es| - 1]), i, es[|es| - 1]);
    }
  }

  /** The early exit of a block-ack sub-thread: resumed with the lock free and nobody past a wait, it
      keeps the lock exactly when there is no station record, and then for good. */
  lemma BaExitLeaks(w: World, i: nat, inp: Input, es: seq<Event>)
    requires i < |w.nics| && w.lock.Free? && forall j :: 0 <= j < |w.nics| ==> !Holds(w.nics[j].sub)
    requires (w.nics[i].sub == BaReq || w.nics[i].sub == BaRsp) && Runs(w.nics[i].phase, w.nics[i].sub)
    ensures var n := Step(w, Event(i, inp));
            && (Leaked(n, i) <==> !w.nics[i].node)
            && (!w.nics[i].node ==> Leaked(Run(n, es), i))
  {
    hide Run, OnDone;
    var n := Step(w, Event(i, inp));
    DoneHoldsNot(w.nics[i].(sub := NoSub), false, inp);
    DoneHoldsNot(w.nics[i].(sub := NoSub), true, inp);
    if !w.nics[i].node {
      LeakIsForever(n, i, es);
    }
  }

  lemma LeakStays(w: World, i: nat, e: Event)
    requires Leaked(w, i)
    ensures Leaked(Step(w, e), i)
  {
    hide Resume, Holds;
    if e.who < |w.nics| {
      WaitsOn(w.lock, e.who, w.nics[e.who], e.inp);
    }
  }

  /** With the lock taken and not its own to use, a resumption leaves it and takes nothing. */
  lemma WaitsOn(lock: Lock, me: nat, n: Nic, inp: Input)
    requires !lock.Free? && !Holds(n.sub)
    ensures var t := Resume(lock, me, n, inp); t.lock == lock && !Holds(t.nic.sub)
  {
    hide OnDone, OnMessage;
    SubWaits(lock, me, n, inp);
    var t := SubTurn(lock, me, n, inp);
    DoneHoldsNot(t.nic, t.ok, inp);
    MessageKeepsSub(t.nic, inp);
  }

  lemma SubWaits(lock: Lock, me: nat, n: Nic, inp: Input)
    requires !lock.Free? && !Holds(n.sub)
    ensures var t := SubTurn(lock, me, n, inp); t.lock == lock && t.nic == n
  {
  }

  lemma DoneHoldsNot(n: Nic, ok: bool, inp: Input)
    requires !Holds(n.sub)
    ensures !Holds(OnDone(n, ok, inp).sub)
  {
  }

  lemma MessageKeepsSub(n: Nic, inp: Input)
    ensures OnMessage(n, inp).sub == n.sub
  {
  }

  /** The scans a connection attempt may still run, the current one included. */
  function ScansLeft(p: Phase): nat {
    if !p.ConnScan? then 0 else if p.search == Looking then p.tries else 1
  }

  /** A connection attempt runs at most three scans: while it lasts, a step that ends a scan lowers
      the number left, and no step raises it. */
  lemma AttemptsBounded(lock: Lock, me: nat, base: nat, n: Nic, inp: Input)
    requires NicInv(n, base) && n.phase.ConnScan? && (lock == Held(me) <==> Holds(n.sub)) && base + 1 < U16
    ensures var t := Resume(lock, me, n, inp);
            && 1 <= ScansLeft(n.phase) <= MAX_TRIES
            && ScansLeft(t.nic.phase) <= ScansLeft(n.phase)
            && (SubTurn(lock, me, n, inp).done ==> ScansLeft(t.nic.phase) < ScansLeft(n.phase))
  {
    hide SubTurn;
    SubTurnOk(lock, me, base, n, inp);
  }

  // ----- the main results, over every run of any number of interfaces -----

  /** At most one interface is past its lock wait. */
  lemma MutualExclusion(base: seq<nat>, es: seq<Event>, i: nat, j: nat)
    requires forall k :: 0 <= k < |base| ==> base[k] + 1 < U16
    requires i < |base| && j < |base|
    ensures var w := Run(Initial(base), es);
            |w.nics| == |base| && (Holds(w.nics[i].sub) && Holds(w.nics[j].sub) ==> i == j)
  {
    RunsKeep(base, es);
  }

  /** An interface with no sub-thread under way does not hold the lock, has its transmit stops matched
      by starts and its scan settings put back; so every sub-thread that finished released it. */
  lemma ReleasedOnFinish(base: seq<nat>, es: seq<Event>, i: nat)
    requires forall k :: 0 <= k < |base| ==> base[k] + 1 < U16
    requires i < |base|
    ensures var w := Run(Initial(base), es);
            |w.nics| == |base| &&
            (w.nics[i].sub == NoSub ==>
               w.lock != Held(i) && w.nics[i].stops == base[i] && !w.nics[i].scanning)
  {
    RunsKeep(base, es);
  }

  /** Whenever a block-ack sub-thread runs, its interface has a record, so the exit that would keep
      the lock is unreachable. */
  lemma BaExitUnreachable(base: seq<nat>, es: seq<Event>, i: nat, inp: Input)
    requires forall k :: 0 <= k < |base| ==> base[k] + 1 < U16
    requires i < |base|
    ensures var w := Run(Initial(base), es);
            && |w.nics| == |base|
            && (HasNode(w.nics[i].phase) ==> w.nics[i].node)
            && (w.nics[i].sub == BaReq || w.nics[i].sub == BaRsp ==>
                  BaTurn(w.lock, i, w.nics[i], inp).lock != Held(i))
  {
    RunsKeep(base, es);
  }

  /** While an interface waits for the lock, either the lock is free and its next resumption passes
      the wait, or another interface is past its own; nobody waits for a lock it holds or for one
      that a finished sub-thread kept. */
  lemma WaiterProceeds(base: seq<nat>, es: seq<Event>, i: nat, inp: Input)
    requires forall k :: 0 <= k < |base| ==> base[k] + 1 < U16
    requires i < |base|
    ensures var w := Run(Initial(base), es);
            |w.nics| == |base| && (w.nics[i].sub != NoSub && !Holds(w.nics[i].sub) ==>
              match w.lock
              case Free => var t := SubTurn(w.lock, i, w.nics[i], inp); t.done || Holds(t.nic.sub)
              case Held(j) => j < |w.nics| && j != i && Holds(w.nics[j].sub))
  {
    RunsKeep(base, es);
  }
}
