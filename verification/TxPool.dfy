/** The transmit frame pool: free and pending lists, their counters and the transmit stop counter. */
module TxPool {

  const NR_XMITFRAME := 256
  const U16 := 0x10000
  const NO_PKT := 0

  /** `held` are the frames in the hands of callers, on neither list. `pkt` is each frame's packet
      and `released` the packets given back to the operating system, in order. */
  datatype Tx = Tx(free: seq<nat>, pending: seq<nat>, held: multiset<nat>, freeCnt: int, pendingCnt: int,
                   stops: nat, pkt: map<nat, int>, released: seq<int>)

  function Ids(n: nat): (s: seq<nat>)
    ensures |s| == n
  {
    seq(n, i => i)
  }

  function NoPackets(n: nat): (m: map<nat, int>)
    ensures forall i :: i in m <==> 0 <= i < n
  {
    if n == 0 then map[] else NoPackets(n - 1)[n - 1 := NO_PKT]
  }

  function Initial(): Tx {
    Tx(Ids(NR_XMITFRAME), [], multiset{}, NR_XMITFRAME, 0, 0,
       NoPackets(NR_XMITFRAME), [])
  }

  /** Free, pending and held frames are the frames of the pool, each exactly once, and both counters
      are the lengths of their lists. */
  ghost predicate Inv(s: Tx) {
    && multiset(s.free) + multiset(s.pending) + s.held == multiset(Ids(NR_XMITFRAME))
    && s.freeCnt == |s.free|
    && s.pendingCnt == |s.pending|
    && s.stops < U16
    && forall i :: 0 <= i < NR_XMITFRAME ==> i in s.pkt
  }

  // ----- the operations -----

  datatype Got = Null | Got(frame: nat)

  function NewFrame(s: Tx): Got {
    if s.free == [] then Null else Got(s.free[0])
  }

  /** Take the head of the free list. */
  function New(s: Tx): Tx {
    if s.free == [] then s
    else
      var f := s.free[0];
      s.(free := s.free[1..], freeCnt := s.freeCnt - 1, held := s.held + multiset{f}, pkt := s.pkt[f := NO_PKT])
  }

  /** Put a held frame at the end of the free list. */
  function GiveBack(s: Tx, f: nat): Tx {
    s.(free := s.free + [f], freeCnt := s.freeCnt + 1, held := s.held - multiset{f})
  }

  function QueueTail(s: Tx, f: nat): Tx {
    s.(pending := s.pending + [f], pendingCnt := s.pendingCnt + 1, held := s.held - multiset{f})
  }

  function QueueHead(s: Tx, f: nat): Tx {
    s.(pending := [f] + s.pending, pendingCnt := s.pendingCnt + 1, held := s.held - multiset{f})
  }

  function Dequeue(s: Tx): Tx {
    if s.pending == [] then s
    else
      s.(pending := s.pending[1..], pendingCnt := s.pendingCnt - 1, held := s.held + multiset{s.pending[0]})
  }

  /** Unlink the first occurrence. */
  function Without(s: seq<nat>, f: nat): seq<nat> {
    if s == [] then []
    else if s[0] == f then s[1..]
    else [s[0]] + Without(s[1..], f)
  }

  lemma {:induction false} WithoutMeaning(s: seq<nat>, f: nat)
    ensures f in s ==> multiset(Without(s, f)) == multiset(s) - multiset{f} && |Without(s, f)| == |s| - 1
    ensures f !in s ==> Without(s, f) == s
  {
    if s != [] {
      assert s == [s[0]] + s[1..];
      if s[0] != f {
        WithoutMeaning(s[1..], f);
      }
    }
  }

  /** Unlink a frame from whichever list it is on, count it off the pending list and free it. A held
      frame is linked to itself, so unlinking it changes no list. */
  function Delete(s: Tx, f: nat): Tx {
    s.(free := Without(s.free, f) + [f], freeCnt := s.freeCnt + 1,
       pending := Without(s.pending, f), pendingCnt := s.pendingCnt - 1, held := s.held - multiset{f})
  }

  /** Queue a packet for transmission; `ok` says whether the frame could be set up. */
  function Msdu(s: Tx, ok: bool, pkt: int): Tx {
    if s.free == [] then s
    else
      var f := s.free[0];
      if ok then QueueTail(New(s).(pkt := s.pkt[f := pkt]), f) else GiveBack(New(s), f)
  }

  function Stop(s: Tx): Tx {
    s.(stops := (s.stops + 1) % U16)
  }

  function Start(s: Tx): Tx {
    if s.stops > 0 then s.(stops := s.stops - 1) else s
  }

  // ----- what every operation keeps -----

  /** A frame is on at most one list, and a held one on neither. */
  lemma OnlyOnce(s: Tx, f: nat)
    requires Inv(s)
    ensures f < NR_XMITFRAME <==> f in s.free || f in s.pending || f in s.held
    ensures f in s.pending ==> f !in s.free && f !in s.held
    ensures f in s.held ==> f !in s.free && f !in s.pending
  {
    var all := multiset(Ids(NR_XMITFRAME));
    CountIds(NR_XMITFRAME, f);
    assert all[f] == multiset(s.free)[f] + multiset(s.pending)[f] + s.held[f];
  }

  lemma {:induction false} CountIds(n: nat, f: nat)
    ensures multiset(Ids(n))[f] == if f < n then 1 else 0
  {
    if n > 0 {
      CountIds(n - 1, f);
      assert Ids(n) == Ids(n - 1) + [n - 1];
    }
  }

  lemma NewKeeps(s: Tx)
    requires Inv(s)
    ensures Inv(New(s)) && (NewFrame(s).Got? ==> NewFrame(s).frame in New(s).held)
  {
    if s.free != [] {
      assert s.free == [s.free[0]] + s.free[1..];
    }
  }

  lemma GiveBackKeeps(s: Tx, f: nat)
    requires Inv(s) && f in s.held
    ensures Inv(GiveBack(s, f))
  {
  }

  lemma QueueKeeps(s: Tx, f: nat)
    requires Inv(s) && f in s.held
    ensures Inv(QueueTail(s, f)) && Inv(QueueHead(s, f))
  {
  }

  lemma DequeueKeeps(s: Tx)
    requires Inv(s)
    ensures Inv(Dequeue(s))
  {
    if s.pending != [] {
      assert s.pending == [s.pending[0]] + s.pending[1..];
    }
  }

  lemma MsduKeeps(s: Tx, ok: bool, pkt: int)
    requires Inv(s)
    ensures Inv(Msdu(s, ok, pkt))
  {
    if s.free != [] {
      NewKeeps(s);
      if ok {
        QueueKeeps(New(s).(pkt := s.pkt[s.free[0] := pkt]), s.free[0]);
      } else {
        GiveBackKeeps(New(s), s.free[0]);
      }
    }
  }

  /** Deleting a frame of the pool keeps the invariant exactly when the frame is pending; deleting a
      held one counts a frame off the pending list that is not on it. */
  lemma DeleteKeepsIffPending(s: Tx, f: nat)
    requires Inv(s) && f < NR_XMITFRAME
    ensures Inv(Delete(s, f)) <==> f in s.pending
  {
    hide Without;
    OnlyOnce(s, f);
    WithoutMeaning(s.free, f);
    WithoutMeaning(s.pending, f);
    if f in s.pending {
      assert multiset(Delete(s, f).free) == multiset(s.free) + multiset{f};
    }
  }

  /** Taking a frame and deleting it while it is held, as the command-frame path does when it gets no
      buffer, leaves the pending counter one below the length of its list. */
  lemma HeldDeleteBreaks(s: Tx)
    requires Inv(s) && s.free != []
    ensures var f := s.free[0];
            var r := Delete(New(s), f);
            r.pending == s.pending && r.pendingCnt == |r.pending| - 1 && !Inv(r)
  {
    hide Without;
    NewKeeps(s);
    OnlyOnce(New(s), s.free[0]);
    WithoutMeaning(s.pending, s.free[0]);
  }

  /** The head pending frame moves to the end of the free list. */
  lemma DeleteHead(s: Tx)
    requires Inv(s) && s.pending != []
    ensures var f := s.pending[0];
            Delete(s, f) == s.(free := s.free + [f], freeCnt := s.freeCnt + 1,
                               pending := s.pending[1..], pendingCnt := s.pendingCnt - 1)
  {
    var f := s.pending[0];
    OnlyOnce(s, f);
    WithoutMeaning(s.free, f);
    assert s.held - multiset{f} == s.held;
  }

  // ----- clearing the pending list -----

  /** The packets of some frames, without the frames that have none. */
  function Packets(fs: seq<nat>, pkt: map<nat, int>): seq<int>
    requires forall i :: 0 <= i < |fs| ==> fs[i] in pkt
  {
    if fs == [] then []
    else (if pkt[fs[0]] == NO_PKT then [] else [pkt[fs[0]]]) + Packets(fs[1..], pkt)
  }

  /** Delete the head and give its packet back. */
  function ClearHead(s: Tx): Tx
    requires s.pending != [] && s.pending[0] in s.pkt
  {
    var f := s.pending[0];
    var d := Delete(s, f);
    if s.pkt[f] == NO_PKT then d
    else d.(released := s.released + [s.pkt[f]], pkt := s.pkt[f := NO_PKT])
  }

  function ClearAll(s: Tx): Tx
    requires Inv(s)
    decreases |s.pending|
  {
    if s.pending == [] then s
    else
      ClearHeadKeeps(s);
      ClearAll(ClearHead(s))
  }

  lemma PendingInPool(s: Tx, i: nat)
    requires Inv(s) && i < |s.pending|
    ensures s.pending[i] in s.pkt
  {
    assert s.pending[i] in s.pending;
    OnlyOnce(s, s.pending[i]);
  }

  lemma ClearHeadKeeps(s: Tx)
    requires Inv(s) && s.pending != []
    ensures s.pending[0] in s.pkt
    ensures Inv(ClearHead(s)) && |ClearHead(s).pending| < |s.pending|
  {
    PendingInPool(s, 0);
    OnlyOnce(s, s.pending[0]);
    DeleteKeepsIffPending(s, s.pending[0]);
  }

  lemma {:induction false} PacketsSame(fs: seq<nat>, a: map<nat, int>, b: map<nat, int>)
    requires forall i :: 0 <= i < |fs| ==> fs[i] in a && fs[i] in b && a[fs[i]] == b[fs[i]]
    ensures Packets(fs, a) == Packets(fs, b)
  {
    if fs != [] {
      PacketsSame(fs[1..], a, b);
    }
  }

  lemma DistinctTail(s: Tx)
    requires Inv(s) && s.pending != []
    ensures forall i :: 1 <= i < |s.pending| ==> s.pending[i] != s.pending[0]
  {
    var f := s.pending[0];
    CountIds(NR_XMITFRAME, f);
    assert s.pending == [f] + s.pending[1..];
    assert multiset(s.pending)[f] == 1 + multiset(s.pending[1..])[f];
    assert multiset(s.pending)[f] <= multiset(Ids(NR_XMITFRAME))[f];
  }

  lemma ClearHeadMeaning(s: Tx)
    requires Inv(s) && s.pending != []
    ensures s.pending[0] in s.pkt
    ensures var f, t := s.pending[0], ClearHead(s);
            && t.free == s.free + [f] && t.pending == s.pending[1..] && t.held == s.held && t.stops == s.stops
            && t.released == s.released + (if s.pkt[f] == NO_PKT then [] else [s.pkt[f]])
            && t.pkt == s.pkt[f := NO_PKT]
  {
    hide Without;
    PendingInPool(s, 0);
    DeleteHead(s);
    assert s.released + [] == s.released;
    assert s.pkt[s.pending[0]] == NO_PKT ==> s.pkt[s.pending[0] := NO_PKT] == s.pkt;
  }

  ghost predicate Cleared(s: Tx, r: Tx)
    requires forall i :: 0 <= i < |s.pending| ==> s.pending[i] in s.pkt
  {
    && r.pending == [] && r.free == s.free + s.pending && r.held == s.held && r.stops == s.stops
    && r.released == s.released + Packets(s.pending, s.pkt)
  }

  lemma PacketsOfTail(s: Tx, t: Tx)
    requires Inv(s) && s.pending != [] && forall i :: 0 <= i < |s.pending| ==> s.pending[i] in s.pkt
    requires t.pending == s.pending[1..] && t.pkt == s.pkt[s.pending[0] := NO_PKT]
    ensures Packets(t.pending, t.pkt) == Packets(s.pending[1..], s.pkt)
  {
    DistinctTail(s);
    PacketsSame(t.pending, t.pkt, s.pkt);
  }

  lemma ClearedStep(s: Tx, t: Tx, r: Tx)
    requires Inv(s) && s.pending != [] && forall i :: 0 <= i < |s.pending| ==> s.pending[i] in s.pkt
    requires var f := s.pending[0];
             && t.free == s.free + [f] && t.pending == s.pending[1..] && t.held == s.held && t.stops == s.stops
             && t.released == s.released + (if s.pkt[f] == NO_PKT then [] else [s.pkt[f]])
             && t.pkt == s.pkt[f := NO_PKT]
    requires Cleared(t, r)
    ensures Cleared(s, r)
  {
    hide Inv;
    var f := s.pending[0];
    PacketsOfTail(s, t);
    assert r.free == s.free + s.pending by { assert s.pending == [f] + s.pending[1..]; }
    assert t.released + Packets(s.pending[1..], s.pkt) == s.released + Packets(s.pending, s.pkt);
  }

  /** Clearing empties the pending list, appends its frames to the free list in order, gives back
      exactly their packets in order, and touches nothing else. */
  lemma {:induction false} ClearAllMeaning(s: Tx)
    requires Inv(s)
    ensures forall i :: 0 <= i < |s.pending| ==> s.pending[i] in s.pkt
    ensures Inv(ClearAll(s)) && Cleared(s, ClearAll(s))
    decreases |s.pending|
  {
    hide Inv, ClearHead, Cleared;
    forall i | 0 <= i < |s.pending| ensures s.pending[i] in s.pkt {
      PendingInPool(s, i);
    }
    if s.pending != [] {
      ClearHeadKeeps(s);
      ClearHeadMeaning(s);
      var t := ClearHead(s);
      ClearAllMeaning(t);
      ClearedStep(s, t, ClearAll(t));
    } else {
      ClearedNone(s);
    }
  }

  lemma ClearedNone(s: Tx)
    requires s.pending == []
    ensures Cleared(s, s)
  {
    assert s.released + [] == s.released;
  }

  /** Stop, clear, start. */
  function PendingClear(s: Tx): Tx
    requires Inv(s)
  {
    Start(ClearAll(Stop(s)))
  }

  /** The whole call: pending empty, its frames free, the stop counter as before, unless the counter
      was at its largest value, where stopping wraps to zero and nothing is taken back. */
  lemma PendingClearMeaning(s: Tx)
    requires Inv(s)
    ensures forall i :: 0 <= i < |s.pending| ==> s.pending[i] in s.pkt
    ensures var r := PendingClear(s);
            && Inv(r) && r.pending == [] && r.free == s.free + s.pending && r.held == s.held
            && r.released == s.released + Packets(s.pending, s.pkt)
            && (r.stops == s.stops <==> s.stops < U16 - 1)
  {
    hide Inv, ClearAll;
    CounterKeeps(s);
    ClearAllMeaning(Stop(s));
    assert Stop(s).stops < U16;
    CounterKeeps(ClearAll(Stop(s)));
  }

  lemma AppendTail(a: seq<nat>, b: seq<nat>, pkt: map<nat, int>)
    requires a != []
    requires forall i :: 0 <= i < |a| ==> a[i] in pkt
    requires forall i :: 0 <= i < |b| ==> b[i] in pkt
    ensures (a + b)[0] == a[0] && (a + b)[1..] == a[1..] + b
    ensures forall i :: 0 <= i < |a + b| ==> (a + b)[i] in pkt
    ensures Packets(a + b, pkt) == (if pkt[a[0]] == NO_PKT then [] else [pkt[a[0]]]) + Packets(a[1..] + b, pkt)
  {
    assert (a + b)[1..] == a[1..] + b;
  }

  lemma {:induction false} PacketsAppend(a: seq<nat>, b: seq<nat>, pkt: map<nat, int>)
    requires forall i :: 0 <= i < |a| ==> a[i] in pkt
    requires forall i :: 0 <= i < |b| ==> b[i] in pkt
    ensures Packets(a + b, pkt) == Packets(a, pkt) + Packets(b, pkt)
  {
    if a == [] {
      assert a + b == b;
    } else {
      PacketsAppend(a[1..], b, pkt);
      AppendTail(a, b, pkt);
    }
  }

  lemma HeadNotPending(s: Tx)
    requires Inv(s) && s.free != []
    ensures forall i :: 0 <= i < |s.pending| ==> s.pending[i] in s.pkt && s.pending[i] != s.free[0]
  {
    forall i | 0 <= i < |s.pending| ensures s.pending[i] in s.pkt && s.pending[i] != s.free[0] {
      PendingInPool(s, i);
      OnlyOnce(s, s.pending[i]);
    }
  }

  lemma PacketsGrow(fs: seq<nat>, pkts: map<nat, int>, f: nat, pkt: int)
    requires pkt != NO_PKT && forall i :: 0 <= i < |fs| ==> fs[i] in pkts && fs[i] != f
    ensures Packets(fs + [f], pkts[f := pkt]) == Packets(fs, pkts) + [pkt]
  {
    PacketsSame(fs, pkts, pkts[f := pkt]);
    PacketsAppend(fs, [f], pkts[f := pkt]);
    assert [f][1..] == [];
  }

  /** A packet accepted for transmission waits behind all that were accepted before it, and leaves
      every waiting packet in place; a packet refused changes none. */
  lemma SendQueuesLast(s: Tx, ok: bool, pkt: int)
    requires Inv(s) && pkt != NO_PKT
    ensures Inv(Msdu(s, ok, pkt))
    ensures Waiting(Msdu(s, ok, pkt)) == Waiting(s) + (if ok && s.free != [] then [pkt] else [])
  {
    hide Inv, Packets;
    MsduKeeps(s, ok, pkt);
    if s.free == [] {
      assert Waiting(s) + [] == Waiting(s);
    } else {
      var f := s.free[0];
      assert forall i :: 0 <= i < |s.pending| ==> s.pending[i] in s.pkt && s.pending[i] != f by {
        HeadNotPending(s);
      }
      if ok {
        PacketsGrow(s.pending, s.pkt, f, pkt);
      } else {
        PacketsSame(s.pending, s.pkt, s.pkt[f := NO_PKT]);
      }
    }
  }

  /** The packets waiting for transmission, in order. */
  function Waiting(s: Tx): seq<int>
    requires Inv(s)
  {
    assert forall i :: 0 <= i < |s.pending| ==> s.pending[i] in s.pkt by {
      forall i | 0 <= i < |s.pending| ensures s.pending[i] in s.pkt {
        PendingInPool(s, i);
      }
    }
    Packets(s.pending, s.pkt)
  }

  // ----- runs -----

  /** Callers pass back only frames they hold, and delete only pending ones. */
  datatype Event =
    | Send(ok: bool, pkt: int)
    | Take
    | Return(frame: nat)
    | Requeue(frame: nat, atHead: bool)
    | Drop(frame: nat)
    | Clear
    | StopTx
    | StartTx

  function Step(s: Tx, e: Event): Tx
    requires Inv(s)
  {
    match e
    case Send(ok, pkt) => Msdu(s, ok, pkt)
    case Take => Dequeue(s)
    case Return(f) => if f in s.held then GiveBack(s, f) else s
    case Requeue(f, atHead) =>
      if f !in s.held then s else if atHead then QueueHead(s, f) else QueueTail(s, f)
    case Drop(f) => if f in s.pending then Delete(s, f) else s
    case Clear => PendingClear(s)
    case StopTx => Stop(s)
    case StartTx => Start(s)
  }

  /** A frame taken and put back at the head leaves everything as it was; put back at the tail it waits
      behind all others. */
  lemma PutBack(s: Tx)
    requires Inv(s) && s.pending != []
    ensures Inv(Step(s, Take))
    ensures var f, t := s.pending[0], Step(s, Take);
            && f in t.held && Step(t, Requeue(f, true)) == s
            && Step(t, Requeue(f, false)) == s.(pending := s.pending[1..] + [f])
  {
    hide Inv;
    StepKeeps(s, Take);
    var f := s.pending[0];
    assert [f] + s.pending[1..] == s.pending;
    assert s.held + multiset{f} - multiset{f} == s.held;
  }

  lemma StepKeeps(s: Tx, e: Event)
    requires Inv(s)
    ensures Inv(Step(s, e))
  {
    hide Inv, Msdu, Dequeue, GiveBack, QueueHead, QueueTail, Delete, PendingClear, Stop, Start;
    match e
    case Send(ok, pkt) => MsduKeeps(s, ok, pkt);
    case Take => DequeueKeeps(s);
    case Return(f) => if f in s.held { GiveBackKeeps(s, f); }
    case Requeue(f, atHead) => if f in s.held { QueueKeeps(s, f); }
    case Drop(f) =>
      if f in s.pending {
        OnlyOnce(s, f);
        DeleteKeepsIffPending(s, f);
      }
    case Clear => PendingClearMeaning(s);
    case StopTx => CounterKeeps(s);
    case StartTx => CounterKeeps(s);
  }

  lemma CounterKeeps(s: Tx)
    requires Inv(s)
    ensures Inv(Stop(s)) && Inv(Start(s))
  {
  }

  lemma InitialInv()
    ensures Inv(Initial())
  {
    var s := Initial();
    assert multiset(s.free) + multiset(s.pending) + s.held == multiset(Ids(NR_XMITFRAME));
  }

  function Run(es: seq<Event>): (s: Tx)
    ensures Inv(s)
    decreases |es|
  {
    if es == [] then
      InitialInv();
      Initial()
    else
      var s := Run(es[..|es| - 1]);
      StepKeeps(s, es[|es| - 1]);
      Step(s, es[|es| - 1])
  }

  /** Over every run no frame is lost or duplicated: the lists and the callers together always have
      the pool's 256 frames, and a frame on one list is not on another. */
  lemma FramesConserved(es: seq<Event>, f: nat)
    ensures var s := Run(es);
            && s.freeCnt + s.pendingCnt + |s.held| == NR_XMITFRAME
            && multiset(s.free)[f] + multiset(s.pending)[f] + s.held[f] == if f < NR_XMITFRAME then 1 else 0
  {
    var s := Run(es);
    CountIds(NR_XMITFRAME, f);
    var all := multiset(Ids(NR_XMITFRAME));
    assert |all| == |multiset(s.free) + multiset(s.pending) + s.held|;
    assert all[f] == (multiset(s.free) + multiset(s.pending) + s.held)[f];
  }

  // ----- the code -----

  class Pool {
    var free: seq<nat>
    var pending: seq<nat>
    ghost var held: multiset<nat>
    var freeCnt: int
    var pendingCnt: int
    var stops: nat
    var pkt: map<nat, int>
    var released: seq<int>

    ghost function Value(): Tx
      reads this
    {
      Tx(free, pending, held, freeCnt, pendingCnt, stops, pkt, released)
    }

    constructor ()
      ensures Value() == Initial()
    {
      var fs, ps: map<nat, int> := [], map[];
      for i := 0 to NR_XMITFRAME
        invariant fs == Ids(i)
        invariant ps == NoPackets(i)
      {
        assert Ids(i + 1) == Ids(i) + [i];
        fs, ps := fs + [i], ps[i := NO_PKT];
      }
      free, pending, held := fs, [], multiset{};
      freeCnt, pendingCnt, stops, pkt, released := NR_XMITFRAME, 0, 0, ps, [];
    }

    method FrameNew() returns (f: Got)
      modifies this
      ensures Value() == New(old(Value())) && f == NewFrame(old(Value()))
    {
      if free == [] {
        return Null;
      }
      f := Got(free[0]);
      free, freeCnt := free[1..], freeCnt - 1;
      held := held + multiset{f.frame};
      pkt := pkt[f.frame := NO_PKT];
    }

    method FrameEnqueue(f: Got) returns (ok: bool)
      modifies this
      ensures ok == f.Got?
      ensures f.Got? ==> Value() == GiveBack(old(Value()), f.frame)
      ensures f.Null? ==> Value() == old(Value())
    {
      if f.Null? {
        return false;
      }
      free, freeCnt := free + [f.frame], freeCnt + 1;
      held := held - multiset{f.frame};
      return true;
    }

    method DataEnqueueTail(f: nat)
      modifies this
      ensures Value() == QueueTail(old(Value()), f)
    {
      pending, pendingCnt := pending + [f], pendingCnt + 1;
      held := held - multiset{f};
    }

    method DataEnqueueHead(f: nat)
      modifies this
      ensures Value() == QueueHead(old(Value()), f)
    {
      pending, pendingCnt := [f] + pending, pendingCnt + 1;
      held := held - multiset{f};
    }

    method DataDequeue() returns (f: Got)
      modifies this
      ensures Value() == Dequeue(old(Value()))
      ensures f == if old(pending) == [] then Null else Got(old(pending)[0])
    {
      if pending == [] {
        return Null;
      }
      f := Got(pending[0]);
      pending, pendingCnt := pending[1..], pendingCnt - 1;
      held := held + multiset{f.frame};
    }

    method FrameDelete(f: Got) returns (ok: bool)
      modifies this
      ensures ok == f.Got?
      ensures f.Got? ==> Value() == Delete(old(Value()), f.frame)
      ensures f.Null? ==> Value() == old(Value())
    {
      hide Without;
      if f.Null? {
        return false;
      }
      ghost var s := Value();
      pending, pendingCnt := Without(pending, f.frame), pendingCnt - 1;
      free := Without(free, f.frame);
      free, freeCnt := free + [f.frame], freeCnt + 1;
      held := held - multiset{f.frame};
      assert Value() == Delete(s, f.frame);
      return true;
    }

    /** `ok` is the outcome of setting the frame up. */
    method TxMsdu(ok: bool, p: int) returns (ret: int)
      modifies this
      ensures Value() == Msdu(old(Value()), ok, p)
      ensures ret == if old(free) != [] && ok then 0 else -1
    {
      var f := FrameNew();
      if f.Null? {
        return -1;
      }
      if !ok {
        var _ := FrameEnqueue(f);
        return -1;
      }
      pkt := pkt[f.frame := p];
      DataEnqueueTail(f.frame);
      return 0;
    }

    method XmitStop()
      modifies this
      ensures Value() == Stop(old(Value()))
    {
      stops := (stops + 1) % U16;
    }

    method XmitStart()
      modifies this
      ensures Value() == Start(old(Value()))
    {
      if stops > 0 {
        stops := stops - 1;
      }
    }

    /** The loop ends because every round takes one frame off the pending list. */
    method PendingQueueClear()
      requires Inv(Value())
      modifies this
      ensures Value() == PendingClear(old(Value()))
    {
      hide Inv, ClearHead;
      CounterKeeps(Value());
      XmitStop();
      ghost var from := Value();
      while pending != []
        invariant Inv(Value()) && ClearAll(Value()) == ClearAll(from)
        decreases |pending|
      {
        ghost var s := Value();
        ClearHeadKeeps(s);
        var f := pending[0];
        var _ := FrameDelete(Got(f));
        assert Value() == Delete(s, f);
        if pkt[f] != NO_PKT {
          released := released + [pkt[f]];
          pkt := pkt[f := NO_PKT];
        }
        assert Value() == ClearHead(s) by { ClearHeadIs(s, Value()); }
      }
      XmitStart();
    }
  }

  lemma ClearHeadIs(s: Tx, t: Tx)
    requires s.pending != [] && s.pending[0] in s.pkt
    requires var f := s.pending[0];
             t == if s.pkt[f] == NO_PKT then Delete(s, f)
                  else Delete(s, f).(released := s.released + [s.pkt[f]], pkt := s.pkt[f := NO_PKT])
    ensures t == ClearHead(s)
  {
  }
}
