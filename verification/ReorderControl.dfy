/** The reorder control record as the driver updates it, each method proved against the
    function of the same step. */
module ReorderControl {
  import opened SeqNum
  import opened Window
  import opened Reorder

  datatype Option<T> = None | Some(value: T)

  class BaControl {
    var indicate: int
    var wend: int
    var wsize: int
    var drops: nat
    var pending: seq<Entry>
    var cnt: int
    var free: seq<nat>

    // calls made to the upload, free and timer hooks
    var uploaded: seq<Entry>
    var freed: seq<Packet>
    var timerSets: nat

    ghost function View(): Ba
      reads this
    {
      Ba(indicate, wend, wsize, drops, pending, cnt, free)
    }

    /** Pool set-up: one node after another goes to the tail of the free list. */
    constructor ()
      ensures View() == Init() && Inv(View())
      ensures uploaded == [] && freed == [] && timerSets == 0
    {
      indicate, wend, wsize, drops := UNSET, UNSET, 64, 0;
      pending, cnt := [], 0;
      uploaded, freed, timerSets := [], [], 0;
      var nodes: seq<nat> := [];
      for i := 0 to POOL
        invariant nodes == seq(i, j => j)
      {
        nodes := nodes + [i];
      }
      free := nodes;
    }

    method FreeDequeue() returns (node: Option<nat>)
      modifies this`free
      ensures node == (if old(free) == [] then None else Some(old(free)[0]))
      ensures free == (if old(free) == [] then [] else old(free)[1..])
    {
      if free == [] {
        return None;
      }
      node := Some(free[0]);
      free := free[1..];
    }

    /** The node goes in front of the first free one. */
    method FreeEnqueue(node: nat)
      modifies this`free
      ensures free == [node] + old(free)
    {
      free := [node] + free;
    }

    method CheckExpected(sn: int) returns (keep: bool)
      modifies this`indicate, this`wend, this`drops
      ensures (View(), keep) == Check(old(View()), sn)
    {
      if indicate == UNSET {
        indicate := sn;
      }
      wend := (indicate + wsize - 1) % SN_MOD;
      if sn == indicate {
        indicate := (indicate + 1) % SN_MOD;
      } else if SnLess(sn, indicate) {
        drops := drops + 1;
        return false;
      } else if SnLess(wend, sn) {
        if sn >= wsize - 1 {
          indicate := sn + 1 - wsize;
        } else {
          indicate := 0xFFF - (wsize - (sn + 1)) + 1;
        }
      }
      return true;
    }

    /** Search backward for the place, take a node and link it in. A node is free whenever
        `NodeAvailable` applies, so the first attempt to take one succeeds. */
    method PendingEnqueue(sn: int, pkt: Packet) returns (ok: bool)
      requires free != []
      modifies this`drops, this`pending, this`cnt, this`free
      ensures Enqueue(old(View()), sn, pkt) == if ok then Queued(View()) else Refused(View())
    {
      var i: nat, found := |pending|, false;
      while i > 0 && !found
        invariant i <= |pending| && (found ==> i > 0)
        invariant FindSlot(pending, sn, |pending|) == if found then At(i) else FindSlot(pending, sn, i)
        invariant drops == old(drops)
        decreases i, !found
      {
        if pending[i - 1].sn == sn {
          drops := drops + 1;
          return false;
        } else if SnLess(sn, pending[i - 1].sn) {
          i := i - 1;
        } else {
          found := true;
        }
      }
      var node := FreeDequeue();
      cnt := cnt + 1;
      pending := Insert(pending, i, Entry(node.value, sn, pkt));
      return true;
    }

    method PendingDequeue() returns (e: Option<Entry>)
      modifies this`pending, this`cnt
      ensures e == (if old(pending) == [] then None else Some(old(pending)[0]))
      ensures pending == (if old(pending) == [] then [] else old(pending)[1..])
      ensures cnt == (if old(pending) == [] then old(cnt) else old(cnt) - 1)
    {
      if pending == [] {
        return None;
      }
      e := Some(pending[0]);
      cnt := cnt - 1;
      pending := pending[1..];
    }

    method UploadReady() returns (left: int)
      modifies this`indicate, this`pending, this`cnt, this`free, this`uploaded
      ensures View() == Upload(old(View())).b
      ensures uploaded == old(uploaded) + Upload(old(View())).up
      ensures left == if pending == [] then 0 else cnt
    {
      ghost var was, before := View(), uploaded;
      left := 0;
      while pending != []
        invariant Upload(View()).b == Upload(was).b && left == 0
        invariant uploaded + Upload(View()).up == before + Upload(was).up
        invariant wend == was.wend && wsize == was.wsize && drops == was.drops
        decreases |pending|
      {
        if SnLess(indicate, pending[0].sn) {
          left := cnt;
          break;
        }
        ghost var b, sent := View(), uploaded;
        var head := PendingDequeue();
        var e := head.value;
        if indicate == e.sn {
          indicate := (indicate + 1) % SN_MOD;
        }
        uploaded := uploaded + [e];
        FreeEnqueue(e.node);
        assert View() == PopHead(b);
        assert sent + Upload(b).up == sent + [e] + Upload(View()).up;
      }
    }

    /** Upload, and arm the gap timer if packets stay pending. */
    method DeliverPending()
      modifies this`indicate, this`pending, this`cnt, this`free, this`uploaded, this`timerSets
      ensures var r := Deliver(old(View()));
              && View() == r.b && uploaded == old(uploaded) + r.up
              && timerSets == old(timerSets) + if r.timer then 1 else 0
    {
      var left := UploadReady();
      if left % 256 != 0 {
        timerSets := timerSets + 1;
      }
    }

    method TimeoutHandle()
      requires Inv(View())
      modifies this
      ensures var r := Timeout(old(View()));
              && r.Reaction? && View() == r.b && Inv(View())
              && uploaded == old(uploaded) + r.up && freed == old(freed)
              && timerSets == old(timerSets) + if r.timer then 1 else 0
    {
      hide Inv, Upload;
      ghost var was := View();
      if pending != [] {
        indicate := pending[0].sn;
        DeliverPending();
      }
      InvStep(was, Timer);
    }

    method ReorderCore(sn: int, pkt: Packet)
      requires Inv(View()) && IsSeq(sn)
      modifies this
      ensures var r := Core(old(View()), sn, pkt);
              && r.Reaction? && View() == r.b && Inv(View())
              && uploaded == old(uploaded) + r.up && freed == old(freed) + r.freed
              && timerSets == old(timerSets) + if r.timer then 1 else 0
    {
      hide Inv, Upload, Check, Enqueue;
      ghost var was := View();
      NodeAvailable(was);
      CheckKeepsLists(was, sn);
      var keep := CheckExpected(sn);
      if keep {
        keep := PendingEnqueue(sn, pkt);
      }
      if keep {
        DeliverPending();
      } else {
        freed := freed + [pkt];
      }
      InvStep(was, Arrival(sn, pkt));
    }
  }
}
