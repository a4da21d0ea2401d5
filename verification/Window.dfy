/** The receive reordering buffer of section 9.21.7.6 of IEEE 802.11-2012, on unwrapped
    sequence numbers and with the buffer as a map from number to packet. */
module Window {
  import opened SeqNum

  type Packet = nat

  datatype Item = Item(num: int, pkt: Packet)

  datatype Window = Idle | Active(start: int, buf: map<int, Packet>)

  datatype Outcome = Outcome(win: Window, released: seq<Item>, discarded: bool)

  /** The first number at or after `s` that has not been received. */
  function NextMissing(s: int, buf: map<int, Packet>): (r: int)
    ensures s <= r && r !in buf
    ensures forall x :: s <= x < r ==> x in buf
    decreases |buf|
  {
    if s in buf then
      var rest := buf - {s};
      assert |rest| < |buf| by { assert rest.Keys == buf.Keys - {s}; }
      var r := NextMissing(s + 1, rest);
      assert forall x :: s < x < r ==> x in buf by {
        forall x | s < x < r ensures x in buf { assert x in rest; }
      }
      r
    else s
  }

  /** The first number in `lo..hi` that has been received, or `hi`. */
  function FirstPresent(lo: int, hi: int, buf: map<int, Packet>): (r: int)
    requires lo <= hi
    ensures lo <= r <= hi && (r < hi ==> r in buf)
    ensures forall x :: lo <= x < r ==> x !in buf
    decreases hi - lo
  {
    if lo == hi || lo in buf then lo else FirstPresent(lo + 1, hi, buf)
  }

  /** The buffered packets numbered `lo..hi`, in ascending order. */
  function ListRange(lo: int, hi: int, buf: map<int, Packet>): seq<Item>
    decreases hi - lo
  {
    if lo >= hi then []
    else ListRange(lo, hi - 1, buf) + if hi - 1 in buf then [Item(hi - 1, buf[hi - 1])] else []
  }

  function Above(buf: map<int, Packet>, s: int): map<int, Packet> {
    map k | k in buf && k > s :: buf[k]
  }

  /** Move the window start to `base`, then past the contiguous run there; release everything passed. */
  function Settle(start: int, base: int, buf: map<int, Packet>): Outcome {
    var next := NextMissing(base, buf);
    Outcome(Active(next, Above(buf, next)), ListRange(start, next, buf), false)
  }

  function Opened(w: Window, sn: int): (o: Window)
    ensures o.Active?
  {
    if w.Idle? then Active(sn, map[]) else w
  }

  /** Section 9.21.7.6.2: a packet behind the window or already buffered is discarded, one inside is
      stored, one beyond drags the window forward until it is the window's last number. */
  function Receive(start: int, buf: map<int, Packet>, wsize: int, u: int, pkt: Packet): Outcome {
    if u < start || u in buf then
      Outcome(Active(start, buf), [], true)
    else
      Settle(start, WindowBase(start, wsize, u), buf[u := pkt])
  }

  /** The first number of the window once packet `u` has arrived. */
  function WindowBase(start: int, wsize: int, u: int): int {
    if u >= start + wsize then u - wsize + 1 else start
  }

  /** The first packet opens the window; every packet's number is the one nearest the window start. */
  function Arrive(w: Window, wsize: int, sn: int, pkt: Packet): Outcome {
    var o := Opened(w, sn);
    Receive(o.start, o.buf, wsize, Unwrap(o.start, sn), pkt)
  }

  /** The gap timer gives up on the missing numbers before the first buffered one. */
  function Fire(w: Window, wsize: int): Outcome
    requires wsize >= 1
  {
    if w.Idle? || w.buf == map[] then Outcome(w, [], false)
    else Settle(w.start, FirstPresent(w.start, w.start + wsize, w.buf), w.buf)
  }

  datatype Event = Arrival(sn: int, pkt: Packet) | Timer

  function Step(w: Window, wsize: int, e: Event): Outcome
    requires wsize >= 1
  {
    match e
    case Arrival(sn, pkt) => Arrive(w, wsize, sn, pkt)
    case Timer => Fire(w, wsize)
  }

  datatype History = History(win: Window, released: seq<Item>)

  function Extend(h: History, wsize: int, e: Event): History
    requires wsize >= 1
  {
    var o := Step(h.win, wsize, e);
    History(o.win, h.released + o.released)
  }

  /** The state after a whole run of events from an idle window, and everything released on the way. */
  function Run(wsize: int, events: seq<Event>): History
    requires wsize >= 1
  {
    if events == [] then History(Idle, [])
    else Extend(Run(wsize, events[..|events| - 1]), wsize, events[|events| - 1])
  }

  ghost predicate WindowInv(w: Window, wsize: int) {
    w.Active? ==> forall k :: k in w.buf ==> w.start < k < w.start + wsize
  }

  /** Released in ascending order of number, all of them from `lo..hi`. */
  ghost predicate InOrder(items: seq<Item>, lo: int, hi: int) {
    && (forall i :: 0 <= i < |items| ==> lo <= items[i].num < hi)
    && (forall i, j :: 0 <= i < j < |items| ==> items[i].num < items[j].num)
  }

  lemma {:induction false} ListRangeInOrder(lo: int, hi: int, buf: map<int, Packet>)
    ensures InOrder(ListRange(lo, hi, buf), lo, hi)
    decreases hi - lo
  {
    if lo < hi {
      ListRangeInOrder(lo, hi - 1, buf);
    }
  }

  /** The next missing number is the only one with its three properties. */
  lemma NextMissingUnique(s: int, buf: map<int, Packet>, r: int)
    requires s <= r && r !in buf && forall x :: s <= x < r ==> x in buf
    ensures NextMissing(s, buf) == r
  {
    var m := NextMissing(s, buf);
    assert m < r ==> m in buf;
    assert r < m ==> r in buf;
  }

  function StartOf(w: Window, e: Event): int {
    match w
    case Active(s, _) => s
    case Idle => if e.Arrival? then e.sn else 0
  }

  lemma SettleAdvances(start: int, base: int, buf: map<int, Packet>, wsize: int)
    requires start <= base
    requires forall k :: k in buf ==> start <= k < base + wsize
    ensures var o := Settle(start, base, buf);
            WindowInv(o.win, wsize) && start <= o.win.start && InOrder(o.released, start, o.win.start)
  {
    ListRangeInOrder(start, NextMissing(base, buf), buf);
  }

  /** Every step keeps the window invariant, never moves the start back, and releases numbers that
      ascend and lie between the old start and the new one. */
  lemma StepAdvances(w: Window, wsize: int, e: Event)
    requires wsize >= 1 && WindowInv(w, wsize)
    requires e.Arrival? ==> IsSeq(e.sn)
    ensures var o := Step(w, wsize, e);
            && WindowInv(o.win, wsize)
            && (o.win.Idle? ==> w.Idle? && o.released == [])
            && (o.win.Active? ==> StartOf(w, e) <= o.win.start
                                  && InOrder(o.released, StartOf(w, e), o.win.start))
  {
    match e
    case Arrival(sn, pkt) =>
      var o := Opened(w, sn);
      var u := Unwrap(o.start, sn);
      if !(u < o.start || u in o.buf) {
        SettleAdvances(o.start, WindowBase(o.start, wsize, u), o.buf[u := pkt], wsize);
      }
    case Timer =>
      if w.Active? && w.buf != map[] {
        SettleAdvances(w.start, FirstPresent(w.start, w.start + wsize, w.buf), w.buf, wsize);
      }
  }

  ghost predicate ValidEvents(events: seq<Event>) {
    forall i :: 0 <= i < |events| && events[i].Arrival? ==> IsSeq(events[i].sn)
  }

  /** Over every interleaving of arrivals and timer firings the released numbers strictly ascend,
      and all of them stay behind the window start. */
  lemma {:induction false} RunReleasesInOrder(wsize: int, events: seq<Event>)
    requires wsize >= 1 && ValidEvents(events)
    ensures var h := Run(wsize, events);
            && WindowInv(h.win, wsize)
            && (h.win.Idle? ==> h.released == [])
            && (forall i, j :: 0 <= i < j < |h.released| ==> h.released[i].num < h.released[j].num)
            && (h.win.Active? ==> forall i :: 0 <= i < |h.released| ==> h.released[i].num < h.win.start)
  {
    if events != [] {
      var n := |events| - 1;
      RunReleasesInOrder(wsize, events[..n]);
      StepAdvances(Run(wsize, events[..n]).win, wsize, events[n]);
    }
  }

  // ----- the senders' own numbers -----

  /** Each arrival's true number has the arrival's residue and lies within half a circle of the window
      start it meets. The first packet's number is the origin. */
  ghost predicate Near(wsize: int, events: seq<Event>, trues: seq<int>)
    requires wsize >= 1
    decreases |events|
  {
    && |trues| == |events|
    && (events != [] ==>
          var n := |events| - 1;
          && Near(wsize, events[..n], trues[..n])
          && (events[n].Arrival? ==>
                && events[n].sn == trues[n] % SN_MOD
                && -2048 <= trues[n] - StartOf(Run(wsize, events[..n]).win, events[n]) < 2048))
  }

  /** Some arrival brought this packet under this true number. */
  ghost predicate Sent(events: seq<Event>, trues: seq<int>, num: int, pkt: Packet)
    requires |trues| == |events|
  {
    exists i :: 0 <= i < |events| && events[i].Arrival? && events[i].pkt == pkt && trues[i] == num
  }

  ghost predicate AllSent(events: seq<Event>, trues: seq<int>, h: History)
    requires |trues| == |events|
  {
    && (h.win.Active? ==> forall k :: k in h.win.buf ==> Sent(events, trues, k, h.win.buf[k]))
    && forall j :: 0 <= j < |h.released| ==> Sent(events, trues, h.released[j].num, h.released[j].pkt)
  }

  lemma {:induction false} ListRangeFrom(lo: int, hi: int, buf: map<int, Packet>)
    ensures forall j :: 0 <= j < |ListRange(lo, hi, buf)| ==>
              ListRange(lo, hi, buf)[j].num in buf
              && ListRange(lo, hi, buf)[j].pkt == buf[ListRange(lo, hi, buf)[j].num]
    decreases hi - lo
  {
    if lo < hi {
      ListRangeFrom(lo, hi - 1, buf);
    }
  }

  /** Whatever settling keeps or releases was in the buffer. */
  lemma SettleFrom(start: int, base: int, buf: map<int, Packet>)
    ensures var o := Settle(start, base, buf);
            && (forall k :: k in o.win.buf ==> k in buf && o.win.buf[k] == buf[k])
            && (forall j :: 0 <= j < |o.released| ==>
                  o.released[j].num in buf && o.released[j].pkt == buf[o.released[j].num])
  {
    ListRangeFrom(start, NextMissing(base, buf), buf);
  }

  /** A step keeps and releases only what was buffered and the packet that came, under its unwrapped
      number. */
  lemma StepFrom(w: Window, wsize: int, e: Event, x: int, p: Packet)
    requires wsize >= 1
    ensures var o := Step(w, wsize, e);
            (o.win.Active? && x in o.win.buf && o.win.buf[x] == p)
            || (exists j :: 0 <= j < |o.released| && o.released[j] == Item(x, p))
            ==> (w.Active? && x in w.buf && w.buf[x] == p)
                || (e.Arrival? && e.pkt == p && x == Unwrap(StartOf(w, e), e.sn))
  {
    hide NextMissing, FirstPresent;
    match e
    case Arrival(sn, pkt) =>
      var o := Opened(w, sn);
      var u := Unwrap(o.start, sn);
      if !(u < o.start || u in o.buf) {
        SettleFrom(o.start, WindowBase(o.start, wsize, u), o.buf[u := pkt]);
      }
    case Timer =>
      if w.Active? && w.buf != map[] {
        SettleFrom(w.start, FirstPresent(w.start, w.start + wsize, w.buf), w.buf);
      }
  }

  lemma SentMore(events: seq<Event>, trues: seq<int>, n: nat, num: int, pkt: Packet)
    requires |trues| == |events| && n <= |events| && Sent(events[..n], trues[..n], num, pkt)
    ensures Sent(events, trues, num, pkt)
  {
    var i :| 0 <= i < n && events[..n][i].Arrival? && events[..n][i].pkt == pkt && trues[..n][i] == num;
    assert events[i] == events[..n][i] && trues[i] == trues[..n][i];
  }

  /** Over every run whose numbers are near, each packet held or released was sent under the very
      number it is held or released under. */
  lemma {:induction false} RunReleasesTrue(wsize: int, events: seq<Event>, trues: seq<int>)
    requires wsize >= 1 && Near(wsize, events, trues)
    ensures AllSent(events, trues, Run(wsize, events))
    decreases |events|
  {
    hide Step, Sent;
    if events != [] {
      var n := |events| - 1;
      var h, e := Run(wsize, events[..n]), events[n];
      RunReleasesTrue(wsize, events[..n], trues[..n]);
      var o := Step(h.win, wsize, e);
      forall x, p | (o.win.Active? && x in o.win.buf && o.win.buf[x] == p)
                    || (exists j :: 0 <= j < |o.released| && o.released[j] == Item(x, p))
        ensures Sent(events, trues, x, p)
      {
        StepFrom(h.win, wsize, e, x, p);
        if e.Arrival? && e.pkt == p && x == Unwrap(StartOf(h.win, e), e.sn) {
          UnwrapRecovers(StartOf(h.win, e), trues[n]);
          LastSent(events, trues);
        } else {
          SentMore(events, trues, n, x, p);
        }
      }
      forall j | 0 <= j < |h.released| + |o.released|
        ensures var i := (h.released + o.released)[j]; Sent(events, trues, i.num, i.pkt)
      {
        if j < |h.released| {
          SentMore(events, trues, n, h.released[j].num, h.released[j].pkt);
        } else {
          var x := o.released[j - |h.released|];
          assert x == Item(x.num, x.pkt);
        }
      }
    }
  }

  lemma LastSent(events: seq<Event>, trues: seq<int>)
    requires |trues| == |events| && events != [] && events[|events| - 1].Arrival?
    ensures Sent(events, trues, trues[|events| - 1], events[|events| - 1].pkt)
  {
  }
}
