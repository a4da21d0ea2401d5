/** The clean-up of one station in the small steps in which the code does it, with loads from the
    receive side, the cfg80211 request to drop a record and its next use between any two of them. */
module ApTeardown {
  import opened ApMessage
  import opened ApRequest
  import opened ApStation

  /** What the thread does next: report, free the queue message by message, take the record off its
      list; then it is done. */
  datatype Phase = Reporting | Clearing | Unlisting | Done

  /** The record under clean-up. Off its list it can be taken for another station, which sets its queue
      up anew; `lost` are the messages that were on the queue then. */
  datatype Closing = Closing(free: Pool, queue: seq<Msg>, lost: seq<Msg>, state: State, listed: bool, phase: Phase)

  datatype Act = Thread | Arrive(tag: Tag, frame: Frame) | Drop | Retake

  function Entered(free: Pool, s: Station): Closing {
    Closing(free, s.queue, [], s.state, true, Reporting)
  }

  function WithLoad(c: Closing, tag: Tag, f: Frame): (r: Closing)
    requires PoolShape(c.free)
    ensures PoolShape(r.free)
  {
    var r := Load(c.free, c.queue, tag, f);
    c.(free := r.free, queue := r.que)
  }

  /** One step of the thread. */
  function Turn(cfg: Config, c: Closing): (r: Closing)
    requires PoolShape(c.free)
    ensures PoolShape(r.free)
  {
    match c.phase
    case Reporting =>
      c.(phase := Clearing, state := if Above(c.state) && cfg.hookMarks then Disassociated else c.state)
    case Clearing =>
      if c.queue == [] then c.(phase := Unlisting)
      else c.(free := Release(c.free, c.queue[0]), queue := c.queue[1..])
    case Unlisting => c.(phase := Done, listed := false)
    case Done => c
  }

  /** A frame reaches the queue while the record is listed. The request to drop the record adds a last
      message and takes the record off its list, if its state says that it is on its way out. While
      the thread still works on it, the record can then be taken for another station. */
  function Do(cfg: Config, c: Closing, a: Act): (r: Closing)
    requires PoolShape(c.free)
    ensures PoolShape(r.free)
  {
    match a
    case Thread => Turn(cfg, c)
    case Arrive(tag, f) => if c.listed && |f.bytes| <= Capacity(tag) then WithLoad(c, tag, f) else c
    case Drop =>
      if c.listed && !Settled(c.state) then WithLoad(c, Deauth, Frame([])).(listed := false) else c
    case Retake =>
      if c.listed || c.phase == Done then c
      else c.(queue := [], lost := c.lost + c.queue, listed := true, state := Authenticating)
  }

  function DoAll(cfg: Config, c: Closing, acts: seq<Act>): (r: Closing)
    requires PoolShape(c.free)
    ensures PoolShape(r.free)
    decreases |acts|
  {
    if acts == [] then c else Do(cfg, DoAll(cfg, c, acts[..|acts| - 1]), acts[|acts| - 1])
  }

  // ----- alone, it is the clean-up in one piece -----

  function Turns(n: nat): seq<Act> {
    seq(n, _ => Thread)
  }

  /** With nothing in between, the clean-up frees the whole queue in order and removes the record, as
      the resumption in one piece does. */
  lemma Uninterrupted(cfg: Config, free: Pool, s: Station)
    requires PoolShape(free)
    ensures var c := DoAll(cfg, Entered(free, s), Turns(|s.queue| + 3));
            && c.phase == Done && !c.listed && c.queue == [] && c.lost == []
            && c.free == ReleaseAll(free, Leave(s, [], []).freed)
  {
    hide DoAll, ReleaseAll;
    var c, n := Entered(free, s), |s.queue|;
    ClearsAll(cfg, c, n);
    assert s.queue[n..] == [] && s.queue[..n] == s.queue && [] + s.queue == s.queue;
    OneMore(cfg, c, n + 1);
    OneMore(cfg, c, n + 2);
  }

  lemma OneMore(cfg: Config, c: Closing, n: nat)
    requires PoolShape(c.free)
    ensures DoAll(cfg, c, Turns(n + 1)) == Turn(cfg, DoAll(cfg, c, Turns(n)))
  {
    assert Turns(n + 1)[..n] == Turns(n);
  }

  /** After the report and `k` more turns, the first `k` messages are freed. */
  lemma {:induction false} ClearsAll(cfg: Config, c: Closing, k: nat)
    requires PoolShape(c.free) && c.phase == Reporting && k <= |c.queue|
    ensures var d := DoAll(cfg, c, Turns(1 + k));
            && d.phase == Clearing && d.queue == c.queue[k..] && d.listed == c.listed && d.lost == c.lost
            && d.free == ReleaseAll(c.free, c.queue[..k])
  {
    OneMore(cfg, c, k);
    if k == 0 {
      assert Turns(0) == [];
    } else {
      ClearsAll(cfg, c, k - 1);
      ClearsNext(cfg, c, DoAll(cfg, c, Turns(k)), k);
    }
  }

  lemma ClearsNext(cfg: Config, c: Closing, d: Closing, k: nat)
    requires PoolShape(c.free) && PoolShape(d.free) && 1 <= k <= |c.queue| && d.phase == Clearing
    requires d.queue == c.queue[k - 1..] && d.free == ReleaseAll(c.free, c.queue[..k - 1])
    ensures var e := Turn(cfg, d);
            && e.phase == Clearing && e.queue == c.queue[k..] && e.listed == d.listed && e.lost == d.lost
            && e.free == ReleaseAll(c.free, c.queue[..k])
  {
    hide ReleaseAll, Release;
    ReleaseLast(c.free, c.queue[..k - 1], c.queue[k - 1]);
    assert c.queue[..k - 1] + [c.queue[k - 1]] == c.queue[..k];
    assert |d.queue| > 0 && d.queue[0] == c.queue[k - 1] && d.queue[1..] == c.queue[k..];
  }

  lemma {:induction false} ReleaseLast(free: Pool, ms: seq<Msg>, m: Msg)
    requires PoolShape(free)
    ensures ReleaseAll(free, ms + [m]) == Release(ReleaseAll(free, ms), m)
    decreases |ms|
  {
    if ms == [] {
      assert [] + [m] == [m] && [m][1..] == [];
    } else {
      ReleaseLast(Release(free, ms[0]), ms[1..], m);
      assert (ms + [m])[1..] == ms[1..] + [m];
    }
  }

  // ----- interleaved -----

  /** The act puts a message on the queue after the thread has seen it empty and before the record is
      off its list. */
  predicate Late(c: Closing, a: Act)
    requires PoolShape(c.free)
  {
    && c.phase == Unlisting && c.listed
    && match a
       case Arrive(tag, f) => |f.bytes| <= Capacity(tag) && c.free[tag] != []
       case Drop => !Settled(c.state) && c.free[Deauth] != []
       case _ => false
  }

  /** How many messages the act puts out of reach: a late one, or those still on the queue when the
      record is taken again before the thread has cleared it. */
  function Costs(c: Closing, a: Act): nat
    requires PoolShape(c.free)
  {
    if Late(c, a) then 1
    else if a == Retake && !c.listed && (c.phase == Reporting || c.phase == Clearing) then |c.queue|
    else 0
  }

  function Cost(cfg: Config, c: Closing, acts: seq<Act>): nat
    requires PoolShape(c.free)
    decreases |acts|
  {
    if acts == [] then 0
    else
      var k := |acts| - 1;
      Cost(cfg, c, acts[..k]) + Costs(DoAll(cfg, c, acts[..k]), acts[k])
  }

  ghost predicate Sized(c: Closing) {
    PoolInv(c.free) && AllInUse(c.queue)
  }

  /** The messages out of reach: those lost, and behind the clearing loop those on the queue. */
  predicate Holds(c: Closing, cost: nat) {
    && (c.phase == Reporting || c.phase == Clearing ==> |c.lost| == cost)
    && (c.phase == Unlisting || c.phase == Done ==> |c.queue| + |c.lost| == cost)
  }

  lemma DoHolds(cfg: Config, c: Closing, a: Act, cost: nat)
    requires PoolShape(c.free) && Holds(c, cost) && (c.phase == Done ==> !c.listed)
    ensures Holds(Do(cfg, c, a), cost + Costs(c, a))
    ensures Do(cfg, c, a).phase == Done ==> !Do(cfg, c, a).listed
  {
    hide Filled;
  }

  /** The messages of a tag: free, on the queue and lost. */
  function Total(c: Closing, t: Tag): nat
    requires PoolShape(c.free)
  {
    |c.free[t]| + CountTag(c.queue, t) + CountTag(c.lost, t)
  }

  lemma DoKeeps(cfg: Config, c: Closing, a: Act, t: Tag)
    requires Sized(c)
    ensures Sized(Do(cfg, c, a)) && Total(Do(cfg, c, a), t) == Total(c, t)
  {
    hide Load, Release;
    match a
    case Thread =>
      if c.phase == Clearing && c.queue != [] {
        FreesHead(c, t);
      }
    case Arrive(tag, f) =>
      if |f.bytes| <= Capacity(tag) {
        LoadKeeps(c.free, c.queue, tag, f, t);
      }
    case Drop => LoadKeeps(c.free, c.queue, Deauth, Frame([]), t);
    case Retake => CountAppend(c.lost, c.queue, t);
  }

  lemma FreesHead(c: Closing, t: Tag)
    requires Sized(c) && c.queue != []
    ensures PoolInv(Release(c.free, c.queue[0])) && AllInUse(c.queue[1..])
    ensures |Release(c.free, c.queue[0])[t]| + CountTag(c.queue[1..], t) == |c.free[t]| + CountTag(c.queue, t)
  {
    var m := c.queue[0];
    assert InUse(m);
    ReleaseAllCounts(c.free, [m], t);
    assert [m][1..] == [];
  }

  lemma {:induction false} DoAllKeeps(cfg: Config, c: Closing, acts: seq<Act>, t: Tag)
    requires Sized(c) && c.phase == Reporting && c.lost == []
    ensures var d := DoAll(cfg, c, acts);
            && Sized(d) && Holds(d, Cost(cfg, c, acts)) && (d.phase == Done ==> !d.listed)
            && Total(d, t) == Total(c, t)
    decreases |acts|
  {
    hide Do, Holds, Costs, Total;
    assert PoolShape(c.free);
    if acts == [] {
      HoldsFirst(c);
    } else {
      var k := |acts| - 1;
      DoAllKeeps(cfg, c, acts[..k], t);
      var d := DoAll(cfg, c, acts[..k]);
      DoHolds(cfg, d, acts[k], Cost(cfg, c, acts[..k]));
      DoKeeps(cfg, d, acts[k], t);
    }
  }

  lemma HoldsFirst(c: Closing)
    requires c.phase == Reporting && c.lost == []
    ensures Holds(c, 0)
  {
  }

  lemma NoneCounted(t: Tag)
    ensures CountTag([], t) == 0
  {
  }

  lemma HeadCounts(ms: seq<Msg>)
    requires ms != []
    ensures CountTag(ms, ms[0].tag) > 0
  {
  }

  /** A finished clean-up has put exactly that many messages out of reach: they are lost, or on the queue
      of a record that no one looks at again. */
  lemma LostExactly(cfg: Config, free: Pool, s: Station, acts: seq<Act>)
    requires PoolInv(free) && AllInUse(s.queue)
    requires DoAll(cfg, Entered(free, s), acts).phase == Done
    ensures var c := DoAll(cfg, Entered(free, s), acts);
            |c.queue| + |c.lost| == Cost(cfg, Entered(free, s), acts)
  {
    hide DoAll, Cost;
    DoAllKeeps(cfg, Entered(free, s), acts, Auth);
  }

  /** Over every interleaving, a finished clean-up has put every message back into its pool exactly
      when none came late and none was on the queue of a record taken again too early. */
  lemma ClosingConserves(cfg: Config, free: Pool, s: Station, acts: seq<Act>)
    requires PoolInv(free) && AllInUse(s.queue)
    requires DoAll(cfg, Entered(free, s), acts).phase == Done
    ensures (forall t: Tag :: |DoAll(cfg, Entered(free, s), acts).free[t]| == |free[t]| + CountTag(s.queue, t))
            <==> Cost(cfg, Entered(free, s), acts) == 0
  {
    hide DoAll, Cost, CountTag;
    var c := Entered(free, s);
    var d := DoAll(cfg, c, acts);
    forall t: Tag ensures Total(d, t) == |free[t]| + CountTag(s.queue, t) {
      DoAllKeeps(cfg, c, acts, t);
      NoneCounted(t);
    }
    LostExactly(cfg, free, s, acts);
    forall t: Tag ensures CountTag([], t) == 0 {
      NoneCounted(t);
    }
    if |d.queue| > 0 {
      HeadCounts(d.queue);
      var t := d.queue[0].tag;
      assert |d.free[t]| != |free[t]| + CountTag(s.queue, t);
    } else if |d.lost| > 0 {
      HeadCounts(d.lost);
      var t := d.lost[0].tag;
      assert |d.free[t]| != |free[t]| + CountTag(s.queue, t);
    } else {
      assert d.queue == [] && d.lost == [];
    }
  }

  /** Once the end has been reported, the request to drop the record acts exactly when the station was on
      its way out already, or was connected and the hook marks it. */
  lemma DropActs(cfg: Config, free: Pool, s: Station)
    requires PoolShape(free)
    ensures var c := Do(cfg, Do(cfg, Entered(free, s), Thread), Drop);
            !c.listed <==> !Settled(s.state) || (Above(s.state) && cfg.hookMarks)
  {
    hide Load;
  }

  /** A request to drop the record that comes between the clearing loop and the removal loses a message:
      a connected station with nothing queued, under a hook that overwrites the state. */
  lemma DropLoses(cfg: Config, free: Pool, s: Station)
    requires PoolInv(free) && free[Deauth] != [] && cfg.hookMarks && Above(s.state) && s.queue == []
    ensures var c := DoAll(cfg, Entered(free, s), [Thread, Thread, Drop, Thread]);
            c.phase == Done && |c.queue| == 1
  {
    hide Filled;
    var c := Entered(free, s);
    var acts := [Thread, Thread, Drop, Thread];
    assert acts[..1][..0] == [] && acts[..2][..1] == acts[..1];
    assert acts[..3][..2] == acts[..2];
    assert DoAll(cfg, c, acts[..1][..0]) == c;
    var c1 := DoAll(cfg, c, acts[..1]);
    assert c1 == Do(cfg, c, Thread);
    assert c1 == c.(phase := Clearing, state := Disassociated);
    var c2 := DoAll(cfg, c, acts[..2]);
    assert c2 == c1.(phase := Unlisting);
    var c3 := DoAll(cfg, c, acts[..3]);
    assert |c3.queue| == 1 && c3.phase == Unlisting;
  }

  /** A record that is taken again before the thread has cleared it loses its queue: here the message of
      the request to drop it. */
  lemma RetakeLoses(cfg: Config, free: Pool, s: Station)
    requires PoolInv(free) && free[Deauth] != [] && !Settled(s.state) && s.queue == []
    ensures |DoAll(cfg, Entered(free, s), [Drop, Retake]).lost| == 1
  {
    hide Filled;
    var c := Entered(free, s);
    var acts := [Drop, Retake];
    assert acts[..1][..0] == [];
    assert DoAll(cfg, c, acts[..1][..0]) == c;
    var c1 := DoAll(cfg, c, acts[..1]);
    assert c1 == Do(cfg, c, Drop);
    assert |c1.queue| == 1 && !c1.listed;
  }
}
