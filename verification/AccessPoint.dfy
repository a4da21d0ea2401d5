/** The access point as a whole: message pools, stations and indications, over every interleaving of
    received frames, removal requests and resumptions. */
module AccessPoint {
  import opened ApMessage
  import opened ApRequest
  import opened ApStation
  import Bytes
  import Elements

  const BROADCAST: nat := 0xFFFF_FFFF_FFFF

  /** An indication about one station. */
  datatype Note = Note(mac: nat, ind: Indication)

  /** `overrun` says that a copy has run past a message's buffer, `past` that a decryption has and
      `astray` that an element walk has; `spilt` says that the copy of an element has run past its
      field of a record. */
  datatype World = World(free: Pool, stations: seq<Station>, log: seq<Note>,
                         overrun: bool, past: bool, astray: bool, spilt: bool)

  datatype Kind = AuthFrame | DeauthFrame | AssocFrame | DisassocFrame | AddBaFrame

  /** `idFree` says whether the shared table of station numbers has a free entry. `Remove` asks a
      station's thread to end; `Delete` is the cfg80211 request to drop a record. */
  datatype Event =
    | Receive(mac: nat, kind: Kind, frame: Frame, idFree: bool)
    | Remove(mac: nat)
    | Delete(mac: nat)
    | Poll(mac: nat, env: Env)

  /** The pools are full and the only record is the broadcast one, already in the last state. */
  function Initial(): (w: World)
    ensures PoolShape(w.free)
  {
    World(InitialPool(), [Fresh(BROADCAST).(state := Unblocked)], [], false, false, false, false)
  }

  function Find(ss: seq<Station>, mac: nat): (i: nat)
    ensures i <= |ss|
    ensures i < |ss| ==> ss[i].mac == mac
    ensures forall j :: 0 <= j < i ==> ss[j].mac != mac
  {
    if ss == [] || ss[0].mac == mac then 0 else Find(ss[1..], mac) + 1
  }

  // ----- received frames -----

  function TagOf(k: Kind): Tag {
    match k
    case AuthFrame => Auth
    case DeauthFrame => Deauth
    case AssocFrame => AssocReq
    case DisassocFrame => Disassoc
    case AddBaFrame => BaReq
  }

  /** The type and subtype bits of a frame's first byte. */
  function FrameType(b: seq<Bytes.byte>): int {
    if |b| == 0 then -1 else b[0] / 4 * 4
  }

  /** The dispatcher takes the frame for one of this kind; an empty frame is of no kind. */
  predicate Matches(k: Kind, f: Frame) {
    var t := FrameType(f.bytes);
    match k
    case AuthFrame => t == 0xB0
    case DeauthFrame => t == 0xC0
    case AssocFrame => t == 0x00 || t == 0x20
    case DisassocFrame => t == 0xA0
    case AddBaFrame => t == 0xD0
  }

  /** A received frame agrees with its kind and has a whole header, and a request its fixed fields. */
  predicate Genuine(e: Event) {
    e.Receive? ==> Matches(e.kind, e.frame) && |e.frame.bytes| >= if e.kind == AssocFrame then 28 else 24
  }

  predicate AllGenuine(es: seq<Event>) {
    forall i :: 0 <= i < |es| ==> Genuine(es[i])
  }

  /** A block-ack request is queued without data. */
  function Payload(k: Kind, f: Frame): Frame {
    if k == AddBaFrame then Frame([]) else f
  }

  /** Queue a frame on station `i`. */
  function LoadAt(w: World, i: nat, tag: Tag, f: Frame): World
    requires PoolShape(w.free) && i < |w.stations|
  {
    var s := w.stations[i];
    var r := Load(w.free, s.queue, tag, f);
    w.(free := r.free, stations := w.stations[i := s.(queue := r.que)], overrun := w.overrun || !r.fits)
  }

  /** An over-long or mistyped frame is dropped, one from an unknown station too, except that an authentication
      frame creates the record if there is room. */
  function Received(w: World, mac: nat, k: Kind, f: Frame, idFree: bool): (r: World)
    requires PoolShape(w.free)
    ensures PoolShape(r.free)
  {
    var i := Find(w.stations, mac);
    if !Matches(k, f) || (k != AddBaFrame && |f.bytes| > Capacity(TagOf(k))) then w
    else if i < |w.stations| then LoadAt(w, i, TagOf(k), Payload(k, f))
    else if k != AuthFrame || |w.stations| >= WDN_NUM_MAX || !idFree then w
    else LoadAt(w.(stations := w.stations + [Fresh(mac)]), i, Auth, f)
  }

  function Removed(w: World, mac: nat): World
    requires PoolShape(w.free)
  {
    var i := Find(w.stations, mac);
    if mac == BROADCAST || i == |w.stations| then w
    else LoadAt(w, i, Deauth, Frame([]))
  }

  /** A record whose state says that it is on its way out gets a last message and is dropped with its
      queue. */
  function Deleted(w: World, mac: nat): World
    requires PoolShape(w.free)
  {
    var i := Find(w.stations, mac);
    if mac == BROADCAST || i == |w.stations| || Settled(w.stations[i].state) then w
    else
      var n := LoadAt(w, i, Deauth, Frame([]));
      n.(stations := n.stations[..i] + n.stations[i + 1..])
  }

  // ----- resumptions -----

  function Notes(mac: nat, inds: seq<Indication>): (r: seq<Note>)
    ensures |r| == |inds|
  {
    seq(|inds|, i requires 0 <= i < |inds| => Note(mac, inds[i]))
  }

  /** Apply what station `i`'s resumption did. */
  function Apply(w: World, i: nat, o: Out): World
    requires PoolShape(w.free) && i < |w.stations|
  {
    w.(free := ReleaseAll(w.free, o.freed),
       stations := if o.gone then w.stations[..i] + w.stations[i + 1..] else w.stations[i := o.st],
       log := w.log + Notes(o.st.mac, o.inds),
       past := w.past || RunsPast(w.stations[i]))
  }

  function Polled(cfg: Config, w: World, mac: nat, env: Env): (r: World)
    requires PoolShape(w.free)
    ensures PoolShape(r.free)
  {
    var i := Find(w.stations, mac);
    if i == |w.stations| then w
    else Noted(cfg, w.stations[i], env, Apply(w, i, Resume(cfg, w.stations[i], env)))
  }

  /** The next resumption scans an association request. */
  predicate Scans(cfg: Config, s: Station) {
    && s.queue != [] && s.queue[0].tag == AssocReq
    && (s.point == OpenWait || s.point == Shared4Wait || (s.point == DisassocWait && !cfg.hookMarks))
  }

  /** Note what the scan of station `s` ran past. */
  function Noted(cfg: Config, s: Station, env: Env, n: World): (r: World)
    ensures r == n.(astray := r.astray, spilt := r.spilt)
  {
    if !Scans(cfg, s) then n
    else
      n.(astray := n.astray || WalksOut(cfg, env.stray, s.choice, s.queue[0]),
         spilt := n.spilt || AssocScan(cfg, env.stray, s.choice, s.queue[0]).choice.spilt)
  }

  function Step(cfg: Config, w: World, e: Event): (r: World)
    requires PoolShape(w.free)
    ensures PoolShape(r.free)
  {
    match e
    case Receive(mac, k, f, idFree) => Received(w, mac, k, f, idFree)
    case Remove(mac) => Removed(w, mac)
    case Delete(mac) => Deleted(w, mac)
    case Poll(mac, env) => Polled(cfg, w, mac, env)
  }

  function Run(cfg: Config, w: World, es: seq<Event>): (r: World)
    requires PoolShape(w.free)
    ensures PoolShape(r.free)
    decreases |es|
  {
    if es == [] then w else Step(cfg, Run(cfg, w, es[..|es| - 1]), es[|es| - 1])
  }

  // ----- the message pools -----

  /** The messages of a tag queued on all stations. */
  function Queued(ss: seq<Station>, t: Tag): nat {
    if ss == [] then 0 else CountTag(ss[0].queue, t) + Queued(ss[1..], t)
  }

  lemma {:induction false} QueuedAppend(a: seq<Station>, b: seq<Station>, t: Tag)
    ensures Queued(a + b, t) == Queued(a, t) + Queued(b, t)
  {
    if a == [] {
      assert a + b == b;
    } else {
      QueuedAppend(a[1..], b, t);
      assert (a + b)[1..] == a[1..] + b;
    }
  }

  /** The count splits at any station. */
  lemma QueuedSplit(ss: seq<Station>, i: nat, t: Tag)
    requires i < |ss|
    ensures Queued(ss, t) == Queued(ss[..i], t) + CountTag(ss[i].queue, t) + Queued(ss[i + 1..], t)
  {
    assert ss == ss[..i] + ss[i..];
    QueuedAppend(ss[..i], ss[i..], t);
    assert ss[i..][1..] == ss[i + 1..];
  }

  lemma QueuedUpdate(ss: seq<Station>, i: nat, s: Station, t: Tag)
    requires i < |ss|
    ensures Queued(ss[i := s], t) + CountTag(ss[i].queue, t) == Queued(ss, t) + CountTag(s.queue, t)
  {
    var n := ss[i := s];
    QueuedSplit(ss, i, t);
    QueuedSplit(n, i, t);
    assert n[..i] == ss[..i] && n[i + 1..] == ss[i + 1..];
  }

  lemma QueuedRemove(ss: seq<Station>, i: nat, t: Tag)
    requires i < |ss|
    ensures Queued(ss[..i] + ss[i + 1..], t) + CountTag(ss[i].queue, t) == Queued(ss, t)
  {
    QueuedSplit(ss, i, t);
    QueuedAppend(ss[..i], ss[i + 1..], t);
  }

  /** Free and queued messages of every tag add up to the tag's depth, every buffer is of its own
      tag's size, and no copy ever ran past a buffer. */
  ghost predicate Conserved(w: World) {
    && PoolInv(w.free)
    && (forall i :: 0 <= i < |w.stations| ==> AllInUse(w.stations[i].queue) && Sound(w.stations[i]))
    && (forall t: Tag :: |w.free[t]| + Queued(w.stations, t) == Depth(t))
    && !w.overrun
  }

  lemma PoolShapeOf(free: Pool)
    requires PoolInv(free)
    ensures PoolShape(free)
  {
  }

  lemma LoadAtConserves(w: World, i: nat, tag: Tag, f: Frame)
    requires Conserved(w) && i < |w.stations| && |f.bytes| <= Capacity(tag)
    ensures Conserved(LoadAt(w, i, tag, f))
  {
    assert PoolShape(w.free);
    hide Load, PoolInv, AllInUse;
    var s := w.stations[i];
    var r := Load(w.free, s.queue, tag, f);
    LoadKeeps(w.free, s.queue, tag, f, tag);
    assert PoolShape(r.free) by { PoolShapeOf(r.free); }
    forall t: Tag
      ensures |r.free[t]| + Queued(w.stations[i := s.(queue := r.que)], t) == Depth(t)
    {
      LoadKeeps(w.free, s.queue, tag, f, t);
      QueuedUpdate(w.stations, i, s.(queue := r.que), t);
    }
  }

  lemma ApplyConserves(w: World, i: nat, o: Out)
    requires Conserved(w) && i < |w.stations| && Conserves(w.stations[i].queue, o) && (!o.gone ==> Sound(o.st))
    ensures Conserved(Apply(w, i, o))
  {
    assert PoolShape(w.free);
    hide PoolInv, AllInUse, Notes, ReleaseAll;
    var n := Apply(w, i, o);
    ReleaseAllCounts(w.free, o.freed, Auth);
    forall t: Tag ensures |n.free[t]| + Queued(n.stations, t) == Depth(t) {
      ReleaseAllCounts(w.free, o.freed, t);
      if o.gone {
        QueuedRemove(w.stations, i, t);
      } else {
        QueuedUpdate(w.stations, i, o.st, t);
      }
    }
  }

  lemma JoinConserves(w: World, mac: nat)
    requires Conserved(w)
    ensures Conserved(w.(stations := w.stations + [Fresh(mac)]))
  {
    hide PoolInv;
    forall t: Tag ensures Queued(w.stations + [Fresh(mac)], t) == Queued(w.stations, t) {
      QueuedAppend(w.stations, [Fresh(mac)], t);
      assert [Fresh(mac)][1..] == [];
    }
  }

  lemma StepConserves(cfg: Config, w: World, e: Event)
    requires Conserved(w)
    ensures Conserved(Step(cfg, w, e))
  {
    hide Conserved, LoadAt, Apply, Resume, Conserves, Sound, Deleted, Matches, Noted;
    assert PoolShape(w.free) by { ShapeOf(w); }
    match e
    case Receive(mac, k, f, idFree) =>
      var i := Find(w.stations, mac);
      if Matches(k, f) && (k == AddBaFrame || |f.bytes| <= Capacity(TagOf(k))) {
        if i < |w.stations| {
          LoadAtConserves(w, i, TagOf(k), Payload(k, f));
        } else if k == AuthFrame {
          JoinConserves(w, mac);
          LoadAtConserves(w.(stations := w.stations + [Fresh(mac)]), i, Auth, f);
        }
      }
    case Remove(mac) =>
      var i := Find(w.stations, mac);
      if i < |w.stations| {
        LoadAtConserves(w, i, Deauth, Frame([]));
      }
    case Delete(mac) =>
      AllSettled(w);
      DeletesNothing(w, mac);
    case Poll(mac, env) =>
      var i := Find(w.stations, mac);
      if i < |w.stations| {
        QueueOf(w, i);
        ResumeConserves(cfg, w.stations[i], env);
        ResumeSound(cfg, w.stations[i], env);
        ApplyConserves(w, i, Resume(cfg, w.stations[i], env));
        NotedConserves(cfg, w.stations[i], env, Apply(w, i, Resume(cfg, w.stations[i], env)));
      }
  }

  lemma NotedConserves(cfg: Config, s: Station, env: Env, n: World)
    requires Conserved(n)
    ensures Conserved(Noted(cfg, s, env, n))
  {
    hide Noted, PoolInv, AllInUse, Sound;
  }

  lemma ShapeOf(w: World)
    requires Conserved(w)
    ensures PoolShape(w.free)
  {
  }

  lemma QueueOf(w: World, i: nat)
    requires Conserved(w) && i < |w.stations|
    ensures AllInUse(w.stations[i].queue) && Sound(w.stations[i])
  {
  }

  lemma AllSettled(w: World)
    requires Conserved(w)
    ensures forall i :: 0 <= i < |w.stations| ==> Settled(w.stations[i].state)
  {
  }

  /** Between resumptions no record is on its way out, so the request to drop one finds nothing to do. */
  lemma DeletesNothing(w: World, mac: nat)
    requires PoolShape(w.free)
    requires forall i :: 0 <= i < |w.stations| && w.stations[i].mac != BROADCAST ==> Settled(w.stations[i].state)
    ensures Deleted(w, mac) == w
  {
  }

  lemma InitialConserved()
    ensures Conserved(Initial())
  {
    forall t: Tag ensures |Initial().free[t]| + Queued(Initial().stations, t) == Depth(t) {
      InitialPoolInv(t);
      assert Initial().stations[1..] == [];
    }
    InitialPoolInv(Auth);
  }

  /** Over every run, for each tag, the free messages and the messages queued on all stations stay
      as many as the pool started with, each in a buffer of its own tag's size. */
  lemma {:induction false} RunsConserve(cfg: Config, es: seq<Event>)
    ensures Conserved(Run(cfg, Initial(), es))
    decreases |es|
  {
    InitialConserved();
    if es != [] {
      RunsConserve(cfg, es[..|es| - 1]);
      StepConserves(cfg, Run(cfg, Initial(), es[..|es| - 1]), es[|es| - 1]);
    }
  }

  // ----- what a received frame and a request to remove do -----

  /** The subtypes of management frames that the access point takes for a kind. */
  function Subtypes(k: Kind): set<int> {
    match k
    case AuthFrame => {11}
    case DeauthFrame => {12}
    case AssocFrame => {0, 2}
    case DisassocFrame => {10}
    case AddBaFrame => {13}
  }

  /** A frame is of a kind exactly if its first byte holds type 0 and one of the kind's subtypes. */
  lemma KindsByType(k: Kind, f: Frame)
    ensures Matches(k, f) <==> |f.bytes| > 0 && f.bytes[0] / 4 % 4 == 0 && f.bytes[0] / 16 in Subtypes(k)
  {
  }

  /** The list with one more message at the end of the queue of record `i`. */
  ghost predicate Queues(w: World, n: World, i: nat, tag: Tag, f: Frame)
    requires PoolShape(w.free) && i < |w.stations|
  {
    var s := w.stations[i];
    if w.free[tag] == [] then n == w
    else
      var m := Filled(w.free[tag][0], tag, f);
      && n.stations == w.stations[i := s.(queue := s.queue + [m])]
      && n.free == w.free[tag := w.free[tag][1..]] && n.log == w.log
      && (n.overrun <==> w.overrun || |f.bytes| > |w.free[tag][0].bytes|)
      && n.past == w.past && n.astray == w.astray && n.spilt == w.spilt
  }

  lemma LoadAtQueues(w: World, i: nat, tag: Tag, f: Frame)
    requires PoolShape(w.free) && i < |w.stations|
    ensures Queues(w, LoadAt(w, i, tag, f), i, tag, f)
  {
    hide Filled;
    assert w.stations[i := w.stations[i].(queue := w.stations[i].queue)] == w.stations;
  }

  /** The frame is taken: it is of its kind and short enough, or a block-ack request, of which nothing is
      kept. */
  predicate Takes(k: Kind, f: Frame) {
    Matches(k, f) && (k == AddBaFrame || |f.bytes| <= Capacity(TagOf(k)))
  }

  /** A taken frame of a known station waits at the end of its queue, if its pool has a message left. A
      taken authentication frame of an unknown one makes a record, if there is room, and waits there; any
      other frame changes nothing. */
  lemma ReceivedExact(w: World, mac: nat, k: Kind, f: Frame, idFree: bool)
    requires PoolShape(w.free)
    ensures var n, i := Received(w, mac, k, f, idFree), Find(w.stations, mac);
            if Takes(k, f) && i < |w.stations| then
              Queues(w, n, i, TagOf(k), if k == AddBaFrame then Frame([]) else f)
            else if Takes(k, f) && k == AuthFrame && |w.stations| < 5 && idFree then
              Queues(w.(stations := w.stations + [Fresh(mac)]), n, i, Auth, f)
            else n == w
  {
    hide LoadAt, Matches, Filled, Capacity;
    var i := Find(w.stations, mac);
    if i < |w.stations| {
      LoadAtQueues(w, i, TagOf(k), Payload(k, f));
    } else {
      LoadAtQueues(w.(stations := w.stations + [Fresh(mac)]), i, Auth, f);
    }
  }

  /** A request to remove leaves a deauthentication message for every station but broadcast. */
  lemma RemovedExact(w: World, mac: nat)
    requires PoolShape(w.free)
    ensures var n, i := Removed(w, mac), Find(w.stations, mac);
            if mac != 0xFFFF_FFFF_FFFF && i < |w.stations| then Queues(w, n, i, Deauth, Frame([])) else n == w
  {
    hide LoadAt, Filled;
    var i := Find(w.stations, mac);
    if i < |w.stations| {
      LoadAtQueues(w, i, Deauth, Frame([]));
    }
  }

  /** A connected station with nothing queued that is asked to go is gone after its next resumption, its
      message freed and its association reported closed. */
  lemma RemovalDisconnects(cfg: Config, w: World, mac: nat, env: Env)
    requires PoolShape(w.free) && w.free[Deauth] != [] && mac != BROADCAST
    requires var i := Find(w.stations, mac);
             i < |w.stations| && w.stations[i].point == Maintain && Above(w.stations[i].state)
             && w.stations[i].queue == []
    ensures var i, n := Find(w.stations, mac), Step(cfg, Step(cfg, w, Remove(mac)), Poll(mac, env));
            && n.stations == w.stations[..i] + w.stations[i + 1..]
            && n.log == w.log + [Note(mac, Disassociate)]
            && |n.free[Deauth]| == |w.free[Deauth]|
  {
    hide LoadAt, Filled, Noted, RunsPast, Find, Resume;
    var i := Find(w.stations, mac);
    RemovedExact(w, mac);
    var r := Removed(w, mac);
    var m := Filled(w.free[Deauth][0], Deauth, Frame([]));
    FilledFront(w.free[Deauth][0], Deauth, Frame([]));
    var s := w.stations[i].(queue := [m]);
    assert w.stations[i].queue + [m] == [m];
    assert r.stations == w.stations[i := s];
    FindUpdated(w.stations, i, s, mac);
    GoesOnDeauth(cfg, s, env);
    assert r.stations[..i] == w.stations[..i] && r.stations[i + 1..] == w.stations[i + 1..];
    ReleaseOne(r.free, m);
    assert Notes(mac, [Disassociate]) == [Note(mac, Disassociate)];
  }

  lemma GoesOnDeauth(cfg: Config, s: Station, env: Env)
    requires s.point == Maintain && Above(s.state) && |s.queue| == 1 && s.queue[0].tag == Deauth
    ensures var o := Resume(cfg, s, env);
            o.gone && o.freed == s.queue && o.inds == [Disassociate] && o.st.mac == s.mac
  {
    assert [] + s.queue == s.queue;
  }

  // ----- stations -----

  /** Records have distinct addresses, and every record but the broadcast one keeps its invariant. */
  ghost predicate StationsInv(cfg: Config, ss: seq<Station>) {
    && (forall i, j :: 0 <= i < j < |ss| ==> ss[i].mac != ss[j].mac)
    && (forall i :: 0 <= i < |ss| && ss[i].mac != BROADCAST ==> StationInv(cfg, ss[i]))
  }

  lemma RequeueKeeps(cfg: Config, s: Station, que: seq<Msg>)
    requires StationInv(cfg, s)
    ensures StationInv(cfg, s.(queue := que))
  {
  }

  lemma ResumeMac(cfg: Config, s: Station, env: Env)
    ensures Resume(cfg, s, env).st.mac == s.mac
  {
  }

  lemma StationsStep(cfg: Config, w: World, e: Event)
    requires PoolShape(w.free) && StationsInv(cfg, w.stations)
    ensures StationsInv(cfg, Step(cfg, w, e).stations)
  {
    hide Received, Removed, Polled;
    if e.Delete? {
      DeletesNothing(w, e.mac);
    } else {
      StationsMove(cfg, w, e);
    }
  }

  lemma StationsMove(cfg: Config, w: World, e: Event)
    requires PoolShape(w.free) && StationsInv(cfg, w.stations) && !e.Delete?
    ensures StationsInv(cfg, Step(cfg, w, e).stations)
  {
    hide StationsInv, Received, Removed, Deleted, Polled, Requeued, Joined;
    if e.Poll? {
      StationsPolled(cfg, w, e.mac, e.env);
    } else {
      LoadsOnly(cfg, w, e);
      var n, i := Step(cfg, w, e), Find(w.stations, e.mac);
      if i < |w.stations| {
        forall que ensures StationsInv(cfg, Requeued(w.stations, i, que)) {
          StationsRequeued(cfg, w.stations, i, que);
        }
      } else {
        forall que ensures StationsInv(cfg, Joined(w.stations, e.mac, que)) {
          StationsJoined(cfg, w.stations, e.mac, que);
        }
      }
    }
  }

  /** The list with another queue at record `i`, and with a new record. */
  function Requeued(ss: seq<Station>, i: nat, que: seq<Msg>): seq<Station>
    requires i < |ss|
  {
    ss[i := ss[i].(queue := que)]
  }

  function Joined(ss: seq<Station>, mac: nat, que: seq<Msg>): seq<Station> {
    ss + [Fresh(mac).(queue := que)]
  }

  /** A received frame or a removal request changes one queue, or adds a record, and reports nothing. */
  lemma LoadsOnly(cfg: Config, w: World, e: Event)
    requires PoolShape(w.free) && !e.Poll? && !e.Delete?
    ensures var n, i := Step(cfg, w, e), Find(w.stations, e.mac);
            && n.log == w.log
            && (|| n.stations == w.stations
                || (i < |w.stations| && exists que :: n.stations == Requeued(w.stations, i, que))
                || (i == |w.stations| && exists que :: n.stations == Joined(w.stations, e.mac, que)))
  {
    hide Load, Matches;
    var n, i := Step(cfg, w, e), Find(w.stations, e.mac);
    if n.stations != w.stations {
      var que := n.stations[i].queue;
      if i < |w.stations| {
        assert n.stations == Requeued(w.stations, i, que);
      } else {
        assert n.stations == Joined(w.stations, e.mac, que);
      }
    }
  }

  lemma StationsPolled(cfg: Config, w: World, mac: nat, env: Env)
    requires PoolShape(w.free) && StationsInv(cfg, w.stations)
    ensures StationsInv(cfg, Polled(cfg, w, mac, env).stations)
  {
    hide StationsInv, StationInv, Resume, ReleaseAll, Notes, Noted, RunsPast;
    var i := Find(w.stations, mac);
    if i < |w.stations| {
      var o := Resume(cfg, w.stations[i], env);
      ResumeMac(cfg, w.stations[i], env);
      if o.gone {
        StationsShrunk(cfg, w.stations, i);
      } else {
        StationsUpdated(cfg, w.stations, i, env);
      }
    }
  }

  lemma StationsShrunk(cfg: Config, ss: seq<Station>, i: nat)
    requires StationsInv(cfg, ss) && i < |ss|
    ensures StationsInv(cfg, ss[..i] + ss[i + 1..])
  {
    hide StationInv;
    var n := ss[..i] + ss[i + 1..];
    assert forall j :: 0 <= j < |n| ==> n[j] == ss[if j < i then j else j + 1];
  }

  lemma StationsUpdated(cfg: Config, ss: seq<Station>, i: nat, env: Env)
    requires StationsInv(cfg, ss) && i < |ss|
    ensures var o := Resume(cfg, ss[i], env); !o.gone ==> StationsInv(cfg, ss[i := o.st])
  {
    hide StationInv, Resume;
    ResumeMac(cfg, ss[i], env);
    if ss[i].mac != BROADCAST {
      ResumeKeeps(cfg, ss[i], env);
    }
  }

  lemma StationsRequeued(cfg: Config, ss: seq<Station>, i: nat, que: seq<Msg>)
    requires StationsInv(cfg, ss) && i < |ss|
    ensures StationsInv(cfg, Requeued(ss, i, que))
  {
    hide StationInv;
    if ss[i].mac != BROADCAST {
      RequeueKeeps(cfg, ss[i], que);
    }
  }

  lemma StationsJoined(cfg: Config, ss: seq<Station>, mac: nat, que: seq<Msg>)
    requires StationsInv(cfg, ss) && Find(ss, mac) == |ss|
    ensures StationsInv(cfg, Joined(ss, mac, que))
  {
    hide StationInv;
    FreshInv(cfg, mac);
    RequeueKeeps(cfg, Fresh(mac), que);
  }

  lemma {:induction false} RunsKeepStations(cfg: Config, es: seq<Event>)
    ensures StationsInv(cfg, Run(cfg, Initial(), es).stations)
    decreases |es|
  {
    InitialConserved();
    if es != [] {
      RunsKeepStations(cfg, es[..|es| - 1]);
      StationsStep(cfg, Run(cfg, Initial(), es[..|es| - 1]), es[|es| - 1]);
    }
  }

  // ----- where the recorded messages came from -----

  /** The message is a frame of this kind that arrived from this address. */
  predicate Got(es: seq<Event>, mac: nat, k: Kind, m: Msg) {
    exists i :: 0 <= i < |es| && es[i].Receive? && es[i].mac == mac && es[i].kind == k && Carries(m, es[i].frame)
  }

  predicate Carries(m: Msg, f: Frame) {
    m.len == |f.bytes| && f.bytes <= m.bytes
  }

  /** The text was drawn when the thread of this address was resumed. */
  predicate Issued(es: seq<Event>, mac: nat, text: seq<Bytes.byte>) {
    exists i :: 0 <= i < |es| && es[i].Poll? && es[i].mac == mac && es[i].env.text == text
  }

  /** A queued frame arrived from the station's address. An accepted answer, which the code decrypts
      where it lies, is not looked at again. */
  predicate Arrived(es: seq<Event>, mac: nat, p: Point, m: Msg) {
    && (m.tag == AssocReq ==> Got(es, mac, AssocFrame, m))
    && (m.tag == Auth && (p == AuthWait || p == Shared3Wait) ==> Got(es, mac, AuthFrame, m))
  }

  /** Everything the record holds of the station comes from its own frames and its own challenge. */
  ghost predicate Tied(es: seq<Event>, s: Station) {
    && (forall i :: 0 <= i < |s.queue| ==> Arrived(es, s.mac, s.point, s.queue[i]))
    && (s.point == OpenWait ==> s.login.algo == OPEN)
    && (s.point != AuthWait ==> Got(es, s.mac, AuthFrame, s.login.request))
    && (s.point != AuthWait && s.login.algo == SHARED ==> Issued(es, s.mac, s.login.challenge))
    && ((s.point == Shared4Wait || Connected(s)) && s.login.algo == SHARED ==>
          Got(es, s.mac, AuthFrame, s.login.answer))
    && (Connected(s) ==> Got(es, s.mac, AssocFrame, s.choice.granted))
  }

  lemma GotMore(es: seq<Event>, e: Event, mac: nat, k: Kind, m: Msg)
    ensures Got(es, mac, k, m) ==> Got(es + [e], mac, k, m)
  {
    if Got(es, mac, k, m) {
      var i :| 0 <= i < |es| && es[i].Receive? && es[i].mac == mac && es[i].kind == k && Carries(m, es[i].frame);
      assert (es + [e])[i] == es[i];
    }
  }

  lemma IssuedMore(es: seq<Event>, e: Event, mac: nat, text: seq<Bytes.byte>)
    ensures Issued(es, mac, text) ==> Issued(es + [e], mac, text)
  {
    if Issued(es, mac, text) {
      var i :| 0 <= i < |es| && es[i].Poll? && es[i].mac == mac && es[i].env.text == text;
      assert (es + [e])[i] == es[i];
    }
  }

  lemma TiedMore(es: seq<Event>, e: Event, s: Station)
    requires Tied(es, s)
    ensures Tied(es + [e], s)
  {
    hide Got, Issued;
    forall i | 0 <= i < |s.queue| ensures Arrived(es + [e], s.mac, s.point, s.queue[i]) {
      GotMore(es, e, s.mac, AssocFrame, s.queue[i]);
      GotMore(es, e, s.mac, AuthFrame, s.queue[i]);
    }
    GotMore(es, e, s.mac, AuthFrame, s.login.request);
    GotMore(es, e, s.mac, AuthFrame, s.login.answer);
    IssuedMore(es, e, s.mac, s.login.challenge);
    GotMore(es, e, s.mac, AssocFrame, s.choice.granted);
  }

  /** The association sub-thread records a frame that was queued. */
  lemma AssocTied(es: seq<Event>, cfg: Config, st: Strays, s: Station, inds: seq<Indication>)
    requires Tied(es, s) && s.point != AuthWait && s.point != Shared3Wait
    requires s.point == OpenWait || s.point == Shared4Wait || Connected(s)
    ensures var o := AssocRun(cfg, st, s, [], inds); !o.gone ==> Tied(es, o.st)
  {
    hide Got, Issued, AssocScan;
    if s.queue != [] && s.queue[0].tag == AssocReq {
      var m := s.queue[0];
      assert Arrived(es, s.mac, s.point, m);
      assert forall i :: 0 <= i < |s.queue[1..]| ==> s.queue[1..][i] == s.queue[i + 1];
    }
  }

  /** The wait for an answer goes on with the request that was queued and the text just drawn. */
  lemma AuthTied(es: seq<Event>, cfg: Config, s: Station, env: Env)
    requires Tied(es, s) && s.point == AuthWait && Issued(es, s.mac, env.text)
    ensures var o := AuthRequest(cfg, s, env); !o.gone ==> Tied(es, o.st)
  {
    hide Got, Issued, Bytes.Le16, ChosenAlgo;
    if s.queue != [] {
      assert Arrived(es, s.mac, s.point, s.queue[0]);
      assert forall i :: 0 <= i < |s.queue[1..]| ==> s.queue[1..][i] == s.queue[i + 1];
    }
  }

  lemma SharedTied(es: seq<Event>, cfg: Config, s: Station, env: Env)
    requires Tied(es, s) && s.point == Shared3Wait
    ensures var o := SharedAnswer(cfg, s, env); !o.gone ==> Tied(es, o.st)
  {
    hide Got, Issued, Decrypted, Answers;
    if s.queue != [] {
      assert Arrived(es, s.mac, s.point, s.queue[0]);
    }
  }

  lemma PopTied(es: seq<Event>, s: Station, p: Point)
    requires Tied(es, s) && s.queue != [] && (p == s.point || (s.point == Maintain && p == DisassocWait))
    ensures Tied(es, Pop(s).(point := p))
  {
    hide Got, Issued;
    forall i | 0 <= i < |s.queue[1..]| ensures Arrived(es, s.mac, p, s.queue[1..][i]) {
      assert Arrived(es, s.mac, s.point, s.queue[i + 1]);
    }
  }

  lemma ResumeTied(es: seq<Event>, cfg: Config, s: Station, env: Env)
    requires Tied(es, s) && Issued(es, s.mac, env.text)
    ensures var o := Resume(cfg, s, env); !o.gone ==> Tied(es, o.st)
  {
    hide Got, Issued, AssocRun, AuthRequest, SharedAnswer, Arrived;
    if s.queue != [] {
      PopTied(es, s, s.point);
      if s.point == Maintain {
        PopTied(es, s, DisassocWait);
      }
    }
    match s.point
    case AuthWait => AuthTied(es, cfg, s, env);
    case OpenWait => AssocTied(es, cfg, env.stray, s, []);
    case Shared3Wait => SharedTied(es, cfg, s, env);
    case Shared4Wait => AssocTied(es, cfg, env.stray, s, []);
    case Maintain =>
    case DisassocWait => AssocTied(es, cfg, env.stray, s.(state := Associating), [Disassociate]);
  }

  /** A loaded frame has arrived. */
  lemma LoadTied(es: seq<Event>, e: Event, s: Station, buf: Msg)
    requires e.Receive? && e.mac == s.mac && Tied(es + [e], s)
    ensures Tied(es + [e], s.(queue := s.queue + [Filled(buf, TagOf(e.kind), Payload(e.kind, e.frame))]))
  {
    hide Issued;
    var m := Filled(buf, TagOf(e.kind), Payload(e.kind, e.frame));
    if e.kind != AddBaFrame {
      assert (es + [e])[|es|] == e && Carries(m, e.frame);
      assert Got(es + [e], s.mac, e.kind, m);
    }
  }

  ghost predicate AllTied(es: seq<Event>, ss: seq<Station>) {
    forall i :: 0 <= i < |ss| ==> Tied(es, ss[i])
  }

  lemma PolledTied(es: seq<Event>, cfg: Config, w: World, mac: nat, env: Env)
    requires PoolShape(w.free) && AllTied(es, w.stations) && Issued(es, mac, env.text)
    ensures AllTied(es, Polled(cfg, w, mac, env).stations)
  {
    hide Tied, Issued, Resume, ReleaseAll, Notes, RunsPast, Noted;
    var i := Find(w.stations, mac);
    if i < |w.stations| {
      ResumeTied(es, cfg, w.stations[i], env);
    }
  }

  lemma ReceivedTied(es: seq<Event>, e: Event, w: World)
    requires e.Receive? && PoolShape(w.free) && AllTied(es + [e], w.stations)
    ensures AllTied(es + [e], Received(w, e.mac, e.kind, e.frame, e.idFree).stations)
  {
    hide Tied, Filled;
    var i, t := Find(w.stations, e.mac), TagOf(e.kind);
    FreshTied(es + [e], e.mac);
    if w.free[t] != [] {
      var buf := w.free[t][0];
      if i < |w.stations| {
        LoadTied(es, e, w.stations[i], buf);
      } else {
        LoadTied(es, e, Fresh(e.mac), buf);
      }
    }
  }

  lemma FreshTied(es: seq<Event>, mac: nat)
    ensures Tied(es, Fresh(mac))
  {
  }

  lemma RemovedTied(es: seq<Event>, w: World, mac: nat)
    requires PoolShape(w.free) && AllTied(es, w.stations)
    ensures AllTied(es, Removed(w, mac).stations)
  {
    hide Got, Issued;
    var i := Find(w.stations, mac);
    if i < |w.stations| {
      assert Tied(es, w.stations[i]);
    }
  }

  lemma DeletedTied(es: seq<Event>, w: World, mac: nat)
    requires PoolShape(w.free) && AllTied(es, w.stations)
    ensures AllTied(es, Deleted(w, mac).stations)
  {
    hide Tied, Load;
    var i, n := Find(w.stations, mac), Deleted(w, mac).stations;
    if |n| != |w.stations| {
      assert forall j :: 0 <= j < |n| ==> n[j] == w.stations[if j < i then j else j + 1];
    }
  }

  lemma StepTied(es: seq<Event>, cfg: Config, w: World, e: Event)
    requires PoolShape(w.free) && AllTied(es, w.stations)
    ensures AllTied(es + [e], Step(cfg, w, e).stations)
  {
    hide Tied, Received, Removed, Deleted, Polled;
    forall i | 0 <= i < |w.stations| ensures Tied(es + [e], w.stations[i]) {
      TiedMore(es, e, w.stations[i]);
    }
    match e
    case Receive(_, _, _, _) => ReceivedTied(es, e, w);
    case Remove(mac) => RemovedTied(es + [e], w, mac);
    case Delete(mac) => DeletedTied(es + [e], w, mac);
    case Poll(mac, env) =>
      assert (es + [e])[|es|] == e;
      PolledTied(es + [e], cfg, w, mac, env);
  }

  lemma {:induction false} RunsTie(cfg: Config, es: seq<Event>)
    ensures AllTied(es, Run(cfg, Initial(), es).stations)
    decreases |es|
  {
    hide Step, Tied;
    if es == [] {
      InitialTied();
    } else {
      var k := |es| - 1;
      RunsTie(cfg, es[..k]);
      StepTied(es[..k], cfg, Run(cfg, Initial(), es[..k]), es[k]);
      assert es[..k] + [es[k]] == es;
    }
  }

  lemma InitialTied()
    ensures AllTied([], Initial().stations)
  {
  }

  /** Over every run, a station other than broadcast is above "associating" only if
      - its first message, which arrived from it, was accepted with an algorithm the access point asks
        for, and said so itself exactly when it was at least 28 bytes long;
      - under shared key, its third message, which arrived from it, was found to answer a challenge
        issued to it, and sealed that challenge exactly when it was at least 168 bytes long;
      - every element found in the buffer of its association request, which arrived from it, was
        acceptable, the request reached the place of its elements, the elements were all its own
        exactly when its bytes parse, and the ciphers and rates recorded are the access point's. */
  lemma AboveOnlyIfAdmitted(cfg: Config, es: seq<Event>, i: nat)
    requires i < |Run(cfg, Initial(), es).stations|
    requires var s := Run(cfg, Initial(), es).stations[i]; s.mac != BROADCAST && Above(s.state)
    ensures var s := Run(cfg, Initial(), es).stations[i];
            var l := s.login;
            && Connected(s)
            && Requested(cfg, l) && Got(es, s.mac, AuthFrame, l.request)
            && (SaysItself(l.request) <==> l.request.len >= 28)
            && (cfg.authAlgo == SHARED ==> l.algo == SHARED)
            && (cfg.authAlgo == AUTO ==> cfg.wepPrivacy)
            && (l.algo == SHARED ==>
                  && Issued(es, s.mac, l.challenge) && Got(es, s.mac, AuthFrame, l.answer)
                  && Answers(cfg, l.answer, SHARED, l.challenge)
                  && (SealedWithKey(cfg, l.answer) <==> l.answer.len >= KEYED_ANSWER)
                  && (SealsChallenge(cfg, l.answer, l.challenge) <==> l.answer.len >= FULL_ANSWER))
            && CiphersOk(cfg, s.choice)
            && Got(es, s.mac, AssocFrame, s.choice.granted) && GrantedOnOwn(cfg, s.choice)
  {
    hide Run, Answers, SealsChallenge, SealedWithKey, Got, Issued, Bytes.Le16, CiphersOk, Granted, GrantedOnOwn;
    RunsKeepStations(cfg, es);
    RunsTie(cfg, es);
    var s := Run(cfg, Initial(), es).stations[i];
    assert StationInv(cfg, s) && Tied(es, s);
    RequestLong(cfg, es, s);
    if s.login.algo == SHARED {
      AnswerWasSealed(cfg, s.login.answer, SHARED, s.login.challenge);
      AnswerUsedKey(cfg, s.login.answer, SHARED, s.login.challenge);
    }
    RunsConserve(cfg, es);
    QueueOf(Run(cfg, Initial(), es), i);
    GrantedSound(cfg, s);
  }

  /** The request was acceptable as its buffer reads and reached the place of its elements; the walk
      stopped at its end exactly when its own bytes parse, and then those were acceptable. A copy has
      run past its field exactly when one of the elements is too long for it. */
  ghost predicate GrantedOnOwn(cfg: Config, c: Choice) {
    var m := c.granted;
    && Granted(cfg, c)
    && Start(m.bytes) <= m.len <= |m.bytes|
    && var p := Elements.Parse(Own(m));
       (WalkOf(m).stop == m.len <==> p.Elements?)
       && (p.Elements? ==> AllAcceptable(cfg, Interpreted(c.found, 0, p.es)))
  }

  lemma GrantedSound(cfg: Config, s: Station)
    requires Connected(s) && Sound(s) && Granted(cfg, s.choice)
    ensures GrantedOnOwn(cfg, s.choice)
  {
    hide Grants, WalkOf, Interpreted, AllAcceptable, Oversized;
    GrantedOwn(cfg, s.choice.found, s.choice.granted);
  }

  lemma RequestLong(cfg: Config, es: seq<Event>, s: Station)
    requires StationInv(cfg, s) && Connected(s) && Tied(es, s)
    ensures SaysItself(s.login.request) <==> s.login.request.len >= 28
  {
    RequestSaidItself(s.login.request);
  }

  // ----- decryption past the buffer -----

  /** The station waits for the answer and has a protected frame under 28 bytes to look at. */
  predicate AnswersShort(s: Station) {
    && s.point == Shared3Wait && s.queue != [] && s.queue[0].tag == Auth
    && Protected(s.queue[0].bytes) && s.queue[0].len < 28
  }

  /** The step resumes such a station. */
  predicate MeetsShort(w: World, e: Event) {
    && e.Poll?
    && var i := Find(w.stations, e.mac);
    i < |w.stations| && AnswersShort(w.stations[i])
  }

  /** Some step of the run does. */
  predicate EverMeetsShort(cfg: Config, es: seq<Event>)
    decreases |es|
  {
    es != [] &&
    var k := |es| - 1;
    EverMeetsShort(cfg, es[..k]) || MeetsShort(Run(cfg, Initial(), es[..k]), es[k])
  }

  /** A run writes past a message's buffer exactly when a station that waits for the answer is resumed
      with a protected authentication frame under 28 bytes; loading never does. */
  lemma {:induction false} RunsPastExactly(cfg: Config, es: seq<Event>)
    ensures var w := Run(cfg, Initial(), es); !w.overrun && (w.past <==> EverMeetsShort(cfg, es))
    decreases |es|
  {
    hide Step, MeetsShort;
    RunsConserve(cfg, es);
    if es != [] {
      var k := |es| - 1;
      RunsPastExactly(cfg, es[..k]);
      RunsConserve(cfg, es[..k]);
      PastStep(cfg, Run(cfg, Initial(), es[..k]), es[k]);
    }
  }

  /** In a world whose messages are in buffers of their own size, one step decrypts past a buffer
      exactly when it meets a short answer. */
  lemma PastStep(cfg: Config, w: World, e: Event)
    requires Conserved(w)
    ensures PoolShape(w.free) && (Step(cfg, w, e).past <==> w.past || MeetsShort(w, e))
  {
    hide RunsPast, AnswersShort, Resume, Load, ReleaseAll, Notes, Conserved, Noted, Matches;
    ShapeOf(w);
    var i := Find(w.stations, e.mac);
    if i < |w.stations| {
      QueueOf(w, i);
      PastShort(w.stations[i]);
    }
  }

  lemma PastShort(s: Station)
    requires AllInUse(s.queue)
    ensures RunsPast(s) <==> AnswersShort(s)
  {
    hide DecryptEnd;
    if s.queue != [] && s.queue[0].tag == Auth {
      PastIffShort(s.queue[0]);
    }
  }

  // ----- association requests that leave their buffer or their fields -----

  /** The step scans a request that leaves its buffer behind acceptable whole elements. */
  predicate MeetsLeaving(cfg: Config, w: World, e: Event) {
    && e.Poll?
    && var i := Find(w.stations, e.mac);
    && i < |w.stations| && Scans(cfg, w.stations[i])
    && var m := w.stations[i].queue[0];
       m.len <= |m.bytes| && Leaves(m) && AllAcceptable(cfg, Interpreted(e.env.stray, 0, WholeOf(m)))
  }

  /** The step scans a request and reaches an element that is too long for its field. */
  predicate MeetsOversized(cfg: Config, w: World, e: Event) {
    && e.Poll?
    && var i := Find(w.stations, e.mac);
    && i < |w.stations| && Scans(cfg, w.stations[i])
    && ReachesOversized(cfg, Interpreted(e.env.stray, 0, WalkOf(w.stations[i].queue[0]).es))
  }

  predicate EverLeaving(cfg: Config, es: seq<Event>)
    decreases |es|
  {
    es != [] &&
    var k := |es| - 1;
    EverLeaving(cfg, es[..k]) || MeetsLeaving(cfg, Run(cfg, Initial(), es[..k]), es[k])
  }

  predicate EverOversized(cfg: Config, es: seq<Event>)
    decreases |es|
  {
    es != [] &&
    var k := |es| - 1;
    EverOversized(cfg, es[..k]) || MeetsOversized(cfg, Run(cfg, Initial(), es[..k]), es[k])
  }

  lemma RequestStep(cfg: Config, w: World, e: Event)
    requires Conserved(w)
    ensures PoolShape(w.free)
    ensures Step(cfg, w, e).astray <==> w.astray || MeetsLeaving(cfg, w, e)
    ensures Step(cfg, w, e).spilt <==> w.spilt || MeetsOversized(cfg, w, e)
  {
    hide Resume, Load, ReleaseAll, Notes, Conserved, RunsPast, WalksOut, AssocScan, Leaves, AllAcceptable,
         Interpreted, WholeOf, ReachesOversized, WalkOf, Matches;
    ShapeOf(w);
    var i := Find(w.stations, e.mac);
    if e.Poll? && i < |w.stations| && Scans(cfg, w.stations[i]) {
      QueueOf(w, i);
      var s := w.stations[i];
      assert InUse(s.queue[0]);
      StraysExactly(cfg, e.env.stray, s.choice, s.queue[0]);
      SpillsExactly(cfg, e.env.stray, s.choice, s.queue[0]);
    }
  }

  /** On a run an element walk leaves its buffer exactly when it meets such a request, and the copy of an
      element its field exactly when one that is too long is reached. */
  lemma {:induction false} RunsLeaveExactly(cfg: Config, es: seq<Event>)
    ensures var w := Run(cfg, Initial(), es);
            (w.astray <==> EverLeaving(cfg, es)) && (w.spilt <==> EverOversized(cfg, es))
    decreases |es|
  {
    hide Step, MeetsLeaving, MeetsOversized;
    if es != [] {
      var k := |es| - 1;
      RunsLeaveExactly(cfg, es[..k]);
      RunsConserve(cfg, es[..k]);
      RequestStep(cfg, Run(cfg, Initial(), es[..k]), es[k]);
    }
  }

  // ----- indications -----

  /** The indications about one station, in order. */
  function About(log: seq<Note>, mac: nat): seq<Indication> {
    if log == [] then []
    else
      var n := log[|log| - 1];
      About(log[..|log| - 1], mac) + if n.mac == mac then [n.ind] else []
  }

  /** Association first, then each the opposite of the one before. */
  predicate Alternates(inds: seq<Indication>) {
    forall i :: 0 <= i < |inds| ==> inds[i] == if i % 2 == 0 then Associate else Disassociate
  }

  /** The last association has not been closed. */
  predicate Unclosed(inds: seq<Indication>) {
    |inds| % 2 == 1
  }

  lemma {:induction false} AboutAppend(a: seq<Note>, b: seq<Note>, mac: nat)
    ensures About(a + b, mac) == About(a, mac) + About(b, mac)
    decreases |b|
  {
    if b == [] {
      assert a + b == a;
    } else {
      var m := |b| - 1;
      AboutAppend(a, b[..m], mac);
      assert (a + b)[..|a| + m] == a + b[..m];
    }
  }

  lemma {:induction false} AboutNotes(who: nat, inds: seq<Indication>, mac: nat)
    ensures About(Notes(who, inds), mac) == if who == mac then inds else []
    decreases |inds|
  {
    if inds != [] {
      var n := |inds| - 1;
      AboutNotes(who, inds[..n], mac);
      assert Notes(who, inds)[..n] == Notes(who, inds[..n]);
      assert inds == inds[..n] + [inds[n]];
    }
  }

  ghost predicate IsConnected(ss: seq<Station>, mac: nat) {
    var i := Find(ss, mac);
    i < |ss| && Connected(ss[i])
  }

  /** For every station but broadcast, the indications alternate, and an association is open exactly
      while the station's thread is connected. */
  ghost predicate LogInv(w: World) {
    forall mac: nat | mac != BROADCAST ::
      Alternates(About(w.log, mac)) && (Unclosed(About(w.log, mac)) <==> IsConnected(w.stations, mac))
  }

  /** The step is a re-association that the hook's mark hides from the outer thread. */
  predicate Marked(cfg: Config, w: World, e: Event) {
    && cfg.hookMarks && e.Poll? && e.mac != BROADCAST
    && var i := Find(w.stations, e.mac);
    i < |w.stations| && Rejoins(w.stations[i])
  }

  /** Adding the expected report to an alternating log keeps it alternating. */
  lemma ExpectedAlternates(inds: seq<Indication>, before: bool, after: bool, rejoins: bool)
    requires Alternates(inds) && (Unclosed(inds) <==> before) && (rejoins ==> before)
    ensures var n := inds + Expected(before, after, rejoins);
            Alternates(n) && (Unclosed(n) <==> after)
  {
  }

  lemma FindUpdated(ss: seq<Station>, i: nat, s: Station, mac: nat)
    requires i < |ss| && s.mac == ss[i].mac
    ensures Find(ss[i := s], mac) == Find(ss, mac)
  {
    var a, b := Find(ss, mac), Find(ss[i := s], mac);
    assert forall j :: 0 <= j < |ss| ==> ss[i := s][j].mac == ss[j].mac;
    assert a < |ss| ==> ss[i := s][a].mac == mac;
    assert b < |ss| ==> ss[b].mac == mac;
  }

  /** Updating one station's record leaves every other station's connection as it was. */
  lemma UpdateConnected(ss: seq<Station>, i: nat, s: Station, mac: nat)
    requires i < |ss| && s.mac == ss[i].mac && Find(ss, s.mac) == i
    ensures IsConnected(ss[i := s], mac) <==>
            if mac == s.mac then Connected(s) else IsConnected(ss, mac)
  {
    FindUpdated(ss, i, s, mac);
  }

  lemma RemoveConnected(cfg: Config, ss: seq<Station>, i: nat, mac: nat)
    requires i < |ss| && StationsInv(cfg, ss)
    ensures IsConnected(ss[..i] + ss[i + 1..], mac) <==> mac != ss[i].mac && IsConnected(ss, mac)
  {
    hide StationInv, Find;
    var n := ss[..i] + ss[i + 1..];
    var a, b := Find(ss, mac), Find(n, mac);
    if b < |n| {
      var c := if b < i then b else b + 1;
      assert n[b] == ss[c];
      assert a == c;
    } else {
      assert forall j :: 0 <= j < |ss| && j != i ==> ss[j] == n[if j < i then j else j - 1];
    }
  }

  lemma JoinConnected(ss: seq<Station>, s: Station, mac: nat)
    requires Find(ss, s.mac) == |ss| && !Connected(s)
    ensures IsConnected(ss + [s], mac) <==> IsConnected(ss, mac)
  {
    hide Find;
    var a, b := Find(ss, mac), Find(ss + [s], mac);
    if a < |ss| {
      assert (ss + [s])[a] == ss[a];
    }
  }

  /** Queueing a frame changes no connection. */
  lemma QuietLog(cfg: Config, w: World, e: Event)
    requires PoolShape(w.free) && LogInv(w) && !e.Poll?
    requires forall i :: 0 <= i < |w.stations| && w.stations[i].mac != BROADCAST ==> Settled(w.stations[i].state)
    ensures LogInv(Step(cfg, w, e))
  {
    hide Alternates, Unclosed, About, IsConnected, Step, Find, Requeued;
    var n, i := Step(cfg, w, e), Find(w.stations, e.mac);
    if e.Delete? {
      DeletesNothing(w, e.mac);
      DeleteStep(cfg, w, e);
    } else {
      LoadsOnly(cfg, w, e);
      forall mac: nat | mac != BROADCAST ensures IsConnected(n.stations, mac) <==> IsConnected(w.stations, mac) {
        if n.stations != w.stations {
          if i < |w.stations| {
            var que :| n.stations == Requeued(w.stations, i, que);
            RequeuedConnected(w.stations, i, que, mac);
          } else {
            var que :| n.stations == Joined(w.stations, e.mac, que);
            JoinConnected(w.stations, Fresh(e.mac).(queue := que), mac);
          }
        }
      }
    }
  }

  lemma RequeuedConnected(ss: seq<Station>, i: nat, que: seq<Msg>, mac: nat)
    requires i < |ss| && Find(ss, ss[i].mac) == i
    ensures IsConnected(Requeued(ss, i, que), mac) <==> IsConnected(ss, mac)
  {
    UpdateConnected(ss, i, ss[i].(queue := que), mac);
  }

  lemma DeleteStep(cfg: Config, w: World, e: Event)
    requires PoolShape(w.free) && e.Delete?
    ensures Step(cfg, w, e) == Deleted(w, e.mac)
  {
  }

  /** A resumption's report extends the log of its own station and of no other. */
  lemma PolledLog(cfg: Config, w: World, mac: nat, env: Env)
    requires PoolShape(w.free) && StationsInv(cfg, w.stations) && LogInv(w)
    requires !Marked(cfg, w, Poll(mac, env))
    ensures LogInv(Polled(cfg, w, mac, env))
  {
    hide Alternates, Unclosed, About, IsConnected, Resume, StationsInv, ReleaseAll, Notes, Find, Noted;
    var i := Find(w.stations, mac);
    if i < |w.stations| {
      var s := w.stations[i];
      var o := Resume(cfg, s, env);
      ResumeMac(cfg, s, env);
      var n := Apply(w, i, o);
      forall m: nat | m != BROADCAST
        ensures Alternates(About(n.log, m)) && (Unclosed(About(n.log, m)) <==> IsConnected(n.stations, m))
      {
        AboutAppend(w.log, Notes(mac, o.inds), m);
        AboutNotes(mac, o.inds, m);
        AppliedConnected(cfg, w, i, o, m);
        if m == mac {
          OwnLog(cfg, w, i, env);
        } else {
          assert About(w.log, m) + [] == About(w.log, m);
        }
      }
    }
  }

  lemma AppliedConnected(cfg: Config, w: World, i: nat, o: Out, mac: nat)
    requires PoolShape(w.free) && StationsInv(cfg, w.stations)
    requires i < |w.stations| && o.st.mac == w.stations[i].mac && Find(w.stations, o.st.mac) == i
    ensures IsConnected(Apply(w, i, o).stations, mac) <==>
            if mac == o.st.mac then !o.gone && Connected(o.st) else IsConnected(w.stations, mac)
  {
    hide IsConnected, StationsInv, Find, ReleaseAll, Notes;
    if o.gone {
      RemoveConnected(cfg, w.stations, i, mac);
    } else {
      UpdateConnected(w.stations, i, o.st, mac);
    }
  }

  lemma OwnLog(cfg: Config, w: World, i: nat, env: Env)
    requires StationsInv(cfg, w.stations) && LogInv(w)
    requires i < |w.stations| && w.stations[i].mac != BROADCAST && Find(w.stations, w.stations[i].mac) == i
    requires !(cfg.hookMarks && Rejoins(w.stations[i]))
    ensures var o := Resume(cfg, w.stations[i], env);
            var n := About(w.log, w.stations[i].mac) + o.inds;
            Alternates(n) && (Unclosed(n) <==> !o.gone && Connected(o.st))
  {
    hide Alternates, Unclosed, About, Resume, StationInv, Expected, Find;
    var s := w.stations[i];
    var o := Resume(cfg, s, env);
    ResumeKeeps(cfg, s, env);
    ExpectedAlternates(About(w.log, s.mac), Connected(s), !o.gone && Connected(o.st), Rejoins(s));
  }

  lemma InvSettled(cfg: Config, ss: seq<Station>)
    requires StationsInv(cfg, ss)
    ensures forall i :: 0 <= i < |ss| && ss[i].mac != BROADCAST ==> Settled(ss[i].state)
  {
  }

  lemma StepLog(cfg: Config, w: World, e: Event)
    requires PoolShape(w.free) && StationsInv(cfg, w.stations) && LogInv(w)
    requires !Marked(cfg, w, e)
    ensures LogInv(Step(cfg, w, e))
  {
    hide LogInv, Received, Removed, Deleted, Polled, StationsInv, Marked;
    if e.Poll? {
      PolledLog(cfg, w, e.mac, e.env);
    } else {
      InvSettled(cfg, w.stations);
      QuietLog(cfg, w, e);
    }
  }

  /** A marked re-association closes the association twice. */
  lemma MarkedBreaks(cfg: Config, w: World, e: Event)
    requires PoolShape(w.free) && StationsInv(cfg, w.stations) && LogInv(w)
    requires Marked(cfg, w, e)
    ensures !Alternates(About(Step(cfg, w, e).log, e.mac))
  {
    hide About, Resume, StationInv, Find, ReleaseAll, Notes, Noted;
    var i := Find(w.stations, e.mac);
    var s := w.stations[i];
    var o := Resume(cfg, s, e.env);
    ResumeKeeps(cfg, s, e.env);
    AboutAppend(w.log, Notes(e.mac, o.inds), e.mac);
    AboutNotes(e.mac, o.inds, e.mac);
    var was := About(w.log, e.mac);
    var n := was + [Disassociate, Disassociate];
    assert n[|was|] == n[|was| + 1];
  }

  /** Some step of the run is a marked re-association. */
  predicate EverMarked(cfg: Config, es: seq<Event>)
    decreases |es|
  {
    es != [] &&
    var k := |es| - 1;
    EverMarked(cfg, es[..k]) || Marked(cfg, Run(cfg, Initial(), es[..k]), es[k])
  }

  ghost predicate AllAlternate(w: World) {
    forall mac: nat | mac != BROADCAST :: Alternates(About(w.log, mac))
  }

  /** The log only grows, so a broken alternation stays broken. */
  lemma BrokenStays(cfg: Config, w: World, e: Event)
    requires PoolShape(w.free) && AllAlternate(Step(cfg, w, e))
    ensures AllAlternate(w)
  {
    hide About, Resume, Load, Find, ReleaseAll, Notes, Noted, Matches;
    var n := Step(cfg, w, e);
    assert exists tail :: n.log == w.log + tail by {
      if n.log == w.log {
        assert n.log == w.log + [];
      }
    }
    var tail :| n.log == w.log + tail;
    forall mac: nat | mac != BROADCAST ensures Alternates(About(w.log, mac)) {
      AboutAppend(w.log, tail, mac);
      assert forall i :: 0 <= i < |About(w.log, mac)| ==> About(w.log, mac)[i] == About(n.log, mac)[i];
    }
  }

  lemma InitialLog()
    ensures LogInv(Initial())
  {
    forall mac: nat | mac != BROADCAST ensures !IsConnected(Initial().stations, mac) {
    }
  }

  lemma {:induction false} RunsLog(cfg: Config, es: seq<Event>)
    ensures if EverMarked(cfg, es) then !AllAlternate(Run(cfg, Initial(), es))
            else LogInv(Run(cfg, Initial(), es))
    decreases |es|
  {
    hide LogInv, AllAlternate, Step, StationsInv, Marked;
    if es == [] {
      InitialLog();
    } else {
      var k := |es| - 1;
      var w := Run(cfg, Initial(), es[..k]);
      RunsLog(cfg, es[..k]);
      RunsKeepStations(cfg, es[..k]);
      if EverMarked(cfg, es[..k]) {
        if AllAlternate(Step(cfg, w, es[k])) {
          BrokenStays(cfg, w, es[k]);
        }
      } else if Marked(cfg, w, es[k]) {
        MarkedBreaks(cfg, w, es[k]);
        assert es[k].mac != BROADCAST by { MarkedMac(cfg, w, es[k]); }
        NotAll(Step(cfg, w, es[k]), es[k].mac);
      } else {
        StepLog(cfg, w, es[k]);
      }
    }
  }

  lemma MarkedMac(cfg: Config, w: World, e: Event)
    requires Marked(cfg, w, e)
    ensures e.mac != BROADCAST
  {
  }

  lemma NotAll(n: World, mac: nat)
    requires mac != BROADCAST && !Alternates(About(n.log, mac))
    ensures !AllAlternate(n)
  {
  }

  /** Along every run the association and disassociation indications of every station but broadcast
      alternate, exactly when no re-association met a hook that overwrites the station's state. */
  lemma IndicationsAlternate(cfg: Config, es: seq<Event>)
    ensures AllAlternate(Run(cfg, Initial(), es)) <==> !EverMarked(cfg, es)
  {
    hide Run, EverMarked, Alternates, About;
    RunsLog(cfg, es);
  }

  /** On every run without such a re-association, whenever a station has no record its last
      association has been closed. */
  lemma ClosedWhenRemoved(cfg: Config, es: seq<Event>, mac: nat)
    requires !EverMarked(cfg, es) && mac != BROADCAST
    ensures var w := Run(cfg, Initial(), es);
            && AllAlternate(w)
            && (Find(w.stations, mac) == |w.stations| ==> !Unclosed(About(w.log, mac)))
  {
    hide Run, Alternates, About, Find, EverMarked;
    RunsLog(cfg, es);
  }

  /** No run has one when the hook leaves the state alone. */
  lemma {:induction false} NeverMarked(cfg: Config, es: seq<Event>)
    requires !cfg.hookMarks
    ensures !EverMarked(cfg, es)
    decreases |es|
  {
    if es != [] {
      NeverMarked(cfg, es[..|es| - 1]);
    }
  }

  /** So under such a hook the indications alternate on every run. */
  lemma UnmarkedAlternates(cfg: Config, es: seq<Event>)
    requires !cfg.hookMarks
    ensures AllAlternate(Run(cfg, Initial(), es))
  {
    NeverMarked(cfg, es);
    IndicationsAlternate(cfg, es);
  }

  // ----- a run that closes one association twice -----

  /** The run's state between frames: the broadcast record and station 1, nothing queued. */
  ghost predicate Quiet(w: World, s: Station) {
    && PoolShape(w.free) && Conserved(w) && s.mac == 1 && s.queue == []
    && |w.stations| == 2 && w.stations[0] == Fresh(BROADCAST).(state := Unblocked) && w.stations[1] == s
  }

  /** A frame for station 1 reaches its empty queue. */
  lemma Delivers(w: World, s: Station, k: Kind, f: Frame) returns (m: Msg)
    requires Quiet(w, s) && k != AddBaFrame && Matches(k, f) && |f.bytes| <= Capacity(TagOf(k))
    ensures m.tag == TagOf(k) && m.len == |f.bytes| && f.bytes <= m.bytes
    ensures w.free[TagOf(k)] != [] && m == Filled(w.free[TagOf(k)][0], TagOf(k), f)
    ensures Received(w, 1, k, f, true).stations == [w.stations[0], s.(queue := [m])]
    ensures Conserved(Received(w, 1, k, f, true))
  {
    hide PoolInv, AllInUse, Sound, Matches, Filled;
    var t := TagOf(k);
    assert Find(w.stations, 1) == 1;
    QuietPool(w, s, t);
    m := Filled(w.free[t][0], t, f);
    FilledFront(w.free[t][0], t, f);
    LoadAtConserves(w, 1, t, f);
    assert [] + [m] == [m];
  }

  lemma QuietPool(w: World, s: Station, t: Tag)
    requires Quiet(w, s) && Depth(t) > 0
    ensures w.free[t] != []
  {
    hide PoolInv, AllInUse, Sound;
    QueuedAppend([w.stations[0]], [s], t);
    assert w.stations == [w.stations[0]] + [s];
    assert [w.stations[0]][1..] == [] && [s][1..] == [];
    assert |w.free[t]| + Queued(w.stations, t) == Depth(t);
  }

  lemma FilledFront(buf: Msg, tag: Tag, f: Frame)
    ensures var m := Filled(buf, tag, f); m.tag == tag && m.len == |f.bytes| && f.bytes <= m.bytes
  {
  }

  lemma Resumes(cfg: Config, w: World, s: Station, env: Env)
    requires PoolShape(w.free) && Conserved(w) && w.stations == [Fresh(BROADCAST).(state := Unblocked), s]
    requires s.mac == 1 && !Resume(cfg, s, env).gone && Resume(cfg, s, env).st.queue == []
    ensures Quiet(Polled(cfg, w, 1, env), Resume(cfg, s, env).st)
  {
    hide Resume, PoolInv, AllInUse, Notes, ReleaseAll, Noted, RunsPast;
    assert Find(w.stations, 1) == 1;
    ResumeMac(cfg, s, env);
    StepConserves(cfg, w, Poll(1, env));
  }

  /** An authentication frame that asks for an algorithm: transaction 1. */
  function AuthBytes(algo: Bytes.byte): (r: seq<Bytes.byte>)
    ensures |r| == 28 && r[0] == 0xB0
  {
    [0xB0, 0] + seq(22, _ => 0) + [algo, 0, 1, 0]
  }

  /** An association request without elements. */
  function AssocBytes(): (r: seq<Bytes.byte>)
    ensures |r| == 28 && r[0] == 0
  {
    seq(28, _ => 0)
  }

  function DisassocBytes(): (r: seq<Bytes.byte>)
    ensures |r| == 26 && r[0] == 0xA0
  {
    [0xA0] + seq(25, _ => 0)
  }

  /** Authenticate, associate, disassociate and ask to associate again. */
  function Rejoin(): (es: seq<Event>)
    ensures |es| == 8
  {
    var idle := Env(false, false, [], []);
    [Receive(1, AuthFrame, Frame(AuthBytes(OPEN)), true), Poll(1, idle),
     Receive(1, AssocFrame, Frame(AssocBytes()), true), Poll(1, idle),
     Receive(1, DisassocFrame, Frame(DisassocBytes()), true), Poll(1, idle),
     Receive(1, AssocFrame, Frame(AssocBytes()), true), Poll(1, idle)]
  }

  lemma FirstFrame(b: seq<Bytes.byte>, algo: Bytes.byte)
    requires AuthBytes(algo) <= b
    ensures Bytes.Le16(b, 24) == algo && Bytes.Le16(b, 26) == 1
  {
    assert forall i :: 0 <= i < 28 ==> b[i] == AuthBytes(algo)[i];
  }

  /** A request without elements is acceptable. */
  lemma BareGrants(cfg: Config, st: Strays, m: Msg)
    requires AssocBytes() <= m.bytes && m.len == 28
    ensures Grants(cfg, st, m)
  {
    assert m.bytes[0] == AssocBytes()[0];
  }

  /** The first frame creates station 1. */
  lemma Joins(f: Frame) returns (m: Msg)
    requires |f.bytes| <= Capacity(Auth) && Matches(AuthFrame, f)
    ensures m.tag == Auth && f.bytes <= m.bytes
    ensures var w := Received(Initial(), 1, AuthFrame, f, true);
            Conserved(w) && w.stations == [Initial().stations[0], Fresh(1).(queue := [m])]
  {
    InitialConserved();
    var w := Initial();
    assert Find(w.stations, 1) == 1;
    JoinConserves(w, 1);
    var w1 := w.(stations := w.stations + [Fresh(1)]);
    m := Delivers(w1, Fresh(1), AuthFrame, f);
    assert Find(w1.stations, 1) == 1;
  }

  /** The first half of the run, under open authentication: station 1 is admitted. */
  lemma Admits(cfg: Config) returns (w1: World, w2: World, w3: World, w4: World, s4: Station)
    requires cfg.authAlgo == OPEN
    ensures var es := Rejoin();
            && PoolShape(w1.free) && PoolShape(w2.free) && PoolShape(w3.free)
            && w1 == Step(cfg, Initial(), es[0]) && w2 == Step(cfg, w1, es[1])
            && w3 == Step(cfg, w2, es[2]) && w4 == Step(cfg, w3, es[3])
    ensures Quiet(w4, s4) && s4.point == Maintain
  {
    hide Received, Polled, Conserved, AuthBytes, AssocBytes, DisassocBytes, PoolShape, Grants, AssocScan;
    var idle := Env(false, false, [], []);
    var m := Joins(Frame(AuthBytes(OPEN)));
    FirstFrame(m.bytes, OPEN);
    w1 := Received(Initial(), 1, AuthFrame, Frame(AuthBytes(OPEN)), true);
    var s1 := Fresh(1).(queue := [m]);
    Resumes(cfg, w1, s1, idle);
    w2 := Polled(cfg, w1, 1, idle);
    var s2 := Resume(cfg, s1, idle).st;
    assert s2.point == OpenWait;
    var a := Delivers(w2, s2, AssocFrame, Frame(AssocBytes()));
    w3 := Received(w2, 1, AssocFrame, Frame(AssocBytes()), true);
    var s3 := s2.(queue := [a]);
    BareGrants(cfg, idle.stray, a);
    ScanAccepts(cfg, idle.stray, s3.choice, a);
    Resumes(cfg, w3, s3, idle);
    w4, s4 := Polled(cfg, w3, 1, idle), Resume(cfg, s3, idle).st;
  }

  /** The second half: it disassociates and asks to associate again. */
  lemma Returns(cfg: Config, w4: World, s4: Station) returns (w5: World, w6: World, w7: World)
    requires Quiet(w4, s4) && s4.point == Maintain
    ensures var es := Rejoin();
            && PoolShape(w5.free) && PoolShape(w6.free) && PoolShape(w7.free)
            && w5 == Step(cfg, w4, es[4]) && w6 == Step(cfg, w5, es[5]) && w7 == Step(cfg, w6, es[6])
    ensures |w7.stations| == 2 && Find(w7.stations, 1) == 1 && Rejoins(w7.stations[1])
  {
    hide Received, Polled, Conserved, AuthBytes, AssocBytes, DisassocBytes, PoolShape, Grants, AssocScan;
    var idle := Env(false, false, [], []);
    var d := Delivers(w4, s4, DisassocFrame, Frame(DisassocBytes()));
    w5 := Received(w4, 1, DisassocFrame, Frame(DisassocBytes()), true);
    var s5 := s4.(queue := [d]);
    Resumes(cfg, w5, s5, idle);
    w6 := Polled(cfg, w5, 1, idle);
    var s6 := Resume(cfg, s5, idle).st;
    assert s6.point == DisassocWait;
    var b := Delivers(w6, s6, AssocFrame, Frame(AssocBytes()));
    w7 := Received(w6, 1, AssocFrame, Frame(AssocBytes()), true);
  }

  lemma RejoinSteps(cfg: Config) returns (ws: seq<World>)
    requires cfg.authAlgo == OPEN
    ensures |ws| == 8 && ws[0] == Initial() && forall k :: 0 <= k < 8 ==> PoolShape(ws[k].free)
    ensures forall k :: 0 <= k < 7 ==> ws[k + 1] == Step(cfg, ws[k], Rejoin()[k])
    ensures |ws[7].stations| == 2 && Find(ws[7].stations, 1) == 1 && Rejoins(ws[7].stations[1])
  {
    hide Step, Rejoin, Rejoins, Find, PoolShape, Initial;
    var w1, w2, w3, w4, s4 := Admits(cfg);
    assert PoolShape(w4.free) by { QuietShape(w4, s4); }
    var w5, w6, w7 := Returns(cfg, w4, s4);
    ws := [Initial(), w1, w2, w3, w4, w5, w6, w7];
  }

  lemma QuietShape(w: World, s: Station)
    requires Quiet(w, s)
    ensures PoolShape(w.free)
  {
  }

  lemma {:induction false} RunFollows(cfg: Config, ws: seq<World>, es: seq<Event>, k: nat)
    requires k < |ws| && k <= |es| && ws[0] == Initial()
    requires forall j :: 0 <= j < |ws| ==> PoolShape(ws[j].free)
    requires forall j :: 0 <= j < k ==> ws[j + 1] == Step(cfg, ws[j], es[j])
    ensures Run(cfg, Initial(), es[..k]) == ws[k]
  {
    if k > 0 {
      RunFollows(cfg, ws, es, k - 1);
      assert es[..k][..k - 1] == es[..k - 1];
    }
  }

  /** With open authentication and a hook that overwrites the state, that run is marked, so one
      association is reported closed twice. */
  lemma DoubleClose(cfg: Config)
    requires cfg.authAlgo == OPEN && cfg.hookMarks
    ensures AllGenuine(Rejoin()) && EverMarked(cfg, Rejoin()) && !AllAlternate(Run(cfg, Initial(), Rejoin()))
  {
    hide Step, Find, Rejoins, AllAlternate;
    var ws := RejoinSteps(cfg);
    var es := Rejoin();
    RunFollows(cfg, ws, es, 7);
    assert Marked(cfg, ws[7], es[7]);
    assert EverMarked(cfg, es);
    RunsLog(cfg, es);
  }
}
