/** The block-ack reorder control record of one traffic class, its operations as functions on values,
    and what every run of packet arrivals and gap-timer firings keeps. */
module Reorder {
  import opened SeqNum
  import opened Window

  const UNSET := 0xFFFF
  const POOL := 64

  datatype Entry = Entry(node: nat, sn: int, pkt: Packet)

  datatype Ba = Ba(
    indicate: int, wend: int, wsize: int, drops: nat,
    pending: seq<Entry>, cnt: int, free: seq<nat>)

  function AllNodes(): seq<nat> {
    seq(POOL, i => i)
  }

  function Init(): Ba {
    Ba(UNSET, UNSET, 64, 0, [], 0, AllNodes())
  }

  // ----- the operations -----

  datatype Slot = Dup | At(k: nat)

  /** The backward search for the place of `sn` among the first `n` pending entries. */
  function FindSlot(p: seq<Entry>, sn: int, n: nat): (r: Slot)
    requires n <= |p|
    ensures r.At? ==> r.k <= n
  {
    if n == 0 then At(0)
    else if p[n - 1].sn == sn then Dup
    else if SnLess(sn, p[n - 1].sn) then FindSlot(p, sn, n - 1)
    else At(n)
  }

  function Insert<T>(s: seq<T>, k: nat, x: T): (r: seq<T>)
    requires k <= |s|
    ensures |r| == |s| + 1
  {
    s[..k] + [x] + s[k..]
  }

  /** Place the window for `sn`: the new record and whether the packet is to be queued. */
  function Check(b: Ba, sn: int): (Ba, bool) {
    var b1 := if b.indicate == UNSET then b.(indicate := sn) else b;
    var b2 := b1.(wend := (b1.indicate + b1.wsize - 1) % SN_MOD);
    if sn == b2.indicate then (b2.(indicate := (b2.indicate + 1) % SN_MOD), true)
    else if SnLess(sn, b2.indicate) then (b2.(drops := b2.drops + 1), false)
    else if SnLess(b2.wend, sn) then
      (b2.(indicate := if sn >= b2.wsize - 1 then sn + 1 - b2.wsize
                       else 0xFFF - (b2.wsize - (sn + 1)) + 1), true)
    else (b2, true)
  }

  /** `NoNode` stands for the busy-wait on an empty free list. */
  datatype Enqueued = Refused(b: Ba) | Queued(b: Ba) | NoNode

  function Enqueue(b: Ba, sn: int, pkt: Packet): Enqueued {
    match FindSlot(b.pending, sn, |b.pending|)
    case Dup => Refused(b.(drops := b.drops + 1))
    case At(k) =>
      if b.free == [] then NoNode
      else Queued(b.(free := b.free[1..], cnt := b.cnt + 1,
                     pending := Insert(b.pending, k, Entry(b.free[0], sn, pkt))))
  }

  datatype Uploaded = Uploaded(b: Ba, up: seq<Entry>)

  /** Take the head off the pending list, hand it up and give its node back. */
  function PopHead(b: Ba): Ba
    requires b.pending != []
  {
    var e := b.pending[0];
    b.(pending := b.pending[1..], cnt := b.cnt - 1, free := [e.node] + b.free,
       indicate := if b.indicate == e.sn then (b.indicate + 1) % SN_MOD else b.indicate)
  }

  function Upload(b: Ba): Uploaded
    decreases |b.pending|
  {
    if b.pending == [] || SnLess(b.indicate, b.pending[0].sn) then Uploaded(b, [])
    else
      var r := Upload(PopHead(b));
      Uploaded(r.b, [b.pending[0]] + r.up)
  }

  /** The upload's return value cut to the caller's eight-bit variable. */
  function StillQueued(b: Ba): int {
    if b.pending == [] then 0 else b.cnt % 256
  }

  datatype Reaction = Reaction(b: Ba, up: seq<Entry>, freed: seq<Packet>, timer: bool) | Spins

  function Deliver(b: Ba): Reaction {
    var r := Upload(b);
    Reaction(r.b, r.up, [], StillQueued(r.b) != 0)
  }

  /** What follows the check: free the packet, or queue it and upload. */
  function Admit(b: Ba, keep: bool, sn: int, pkt: Packet): Reaction {
    if !keep then Reaction(b, [], [pkt], false)
    else
      match Enqueue(b, sn, pkt)
      case Refused(b1) => Reaction(b1, [], [pkt], false)
      case Queued(b1) => Deliver(b1)
      case NoNode => Spins
  }

  function Core(b: Ba, sn: int, pkt: Packet): Reaction {
    var (b1, keep) := Check(b, sn);
    Admit(b1, keep, sn, pkt)
  }

  function Timeout(b: Ba): Reaction {
    if b.pending == [] then Reaction(b, [], [], false)
    else Deliver(b.(indicate := b.pending[0].sn))
  }

  function React(b: Ba, e: Event): Reaction {
    match e
    case Arrival(sn, pkt) => Core(b, sn, pkt)
    case Timer => Timeout(b)
  }

  // ----- the invariant between steps -----

  ghost function NodesOf(p: seq<Entry>): (r: multiset<nat>)
    ensures |r| == |p|
  {
    if p == [] then multiset{} else multiset{p[0].node} + NodesOf(p[1..])
  }

  ghost function PktsOf(p: seq<Entry>): multiset<Packet> {
    if p == [] then multiset{} else multiset{p[0].pkt} + PktsOf(p[1..])
  }

  ghost function NodeBag(b: Ba): multiset<nat> {
    NodesOf(b.pending) + multiset(b.free)
  }

  /** Free and pending nodes together are exactly the pool. */
  ghost predicate PoolInv(b: Ba) {
    NodeBag(b) == multiset(AllNodes())
  }

  /** The unwrapped numbers of the pending entries, seen from an unwrapped window start. */
  function Nums(b: Ba, start: int): (r: seq<int>)
    ensures |r| == |b.pending|
  {
    seq(|b.pending|, i requires 0 <= i < |b.pending| => start + Ahead(b.indicate, b.pending[i].sn))
  }

  ghost predicate Sorted(b: Ba) {
    && Increasing(Nums(b, 0))
    && (forall i :: 0 <= i < |b.pending| ==>
          IsSeq(b.pending[i].sn) && 1 <= Ahead(b.indicate, b.pending[i].sn) < b.wsize)
  }

  ghost predicate Inv(b: Ba) {
    && 1 <= b.wsize <= POOL
    && b.cnt == |b.pending|
    && PoolInv(b)
    && (if b.indicate == UNSET then b.pending == [] else IsSeq(b.indicate) && Sorted(b))
  }

  /** At most `wsize - 1` entries are pending, so a node is always free. */
  lemma NodeAvailable(b: Ba)
    requires Inv(b)
    ensures |b.pending| < b.wsize && |b.pending| + |b.free| == POOL && b.free != []
  {
    if b.indicate != UNSET {
      IncreasingFits(Nums(b, 0), 0, b.wsize);
    }
    assert |NodeBag(b)| == |b.pending| + |b.free|;
    assert |multiset(AllNodes())| == POOL;
  }

  // ----- the single operations on unwrapped numbers -----

  ghost predicate Numbered(p: seq<Entry>, nums: seq<int>) {
    |p| == |nums| && forall i :: 0 <= i < |p| ==> p[i].sn == nums[i] % SN_MOD
  }

  /** The backward search finds a duplicate, or the one place that keeps the list ascending. */
  lemma {:induction false} FindSlotMeaning(p: seq<Entry>, nums: seq<int>, u: int, n: nat)
    requires n <= |p| && Numbered(p, nums) && Increasing(nums)
    requires forall i :: 0 <= i < n ==> -2048 < u - nums[i] < 2048
    ensures match FindSlot(p, u % SN_MOD, n)
            case Dup => u in nums[..n]
            case At(k) => && (forall i :: 0 <= i < k ==> nums[i] < u)
                          && (forall i :: k <= i < n ==> u < nums[i])
  {
    if n > 0 {
      SnLessUnwrapped(u, nums[n - 1]);
      if u < nums[n - 1] {
        FindSlotMeaning(p, nums, u, n - 1);
      }
    }
  }

  /** `r` has taken off the entries behind the cursor `c` and then the contiguous run at it,
      which ends before `c'`. */
  ghost predicate TakesRun(b: Ba, nums: seq<int>, c: int, r: Uploaded, c': int)
    requires |b.pending| == |nums|
  {
    var m := |r.up|;
    && m <= |nums| && r.up == b.pending[..m]
    && r.b == b.(indicate := c' % SN_MOD, pending := b.pending[m..], cnt := b.cnt - m, free := r.b.free)
    && c <= c'
    && (forall i :: 0 <= i < m ==> nums[i] < c')
    && (forall i :: m <= i < |nums| ==> c' < nums[i])
    && (forall x :: c <= x < c' ==> x in nums)
  }

  lemma NextResidue(x: int)
    ensures (x % SN_MOD + 1) % SN_MOD == (x + 1) % SN_MOD
  {
  }

  lemma TakesOneMore(b: Ba, nums: seq<int>, c: int, r: Uploaded, c1: int, c': int)
    requires |b.pending| == |nums| && nums != [] && Increasing(nums)
    requires nums[0] <= c && c1 == (if c == nums[0] then c + 1 else c)
    requires b.indicate == c % SN_MOD && b.pending[0].sn == nums[0] % SN_MOD
    requires TakesRun(PopHead(b), nums[1..], c1, r, c')
    ensures TakesRun(b, nums, c, Uploaded(r.b, [b.pending[0]] + r.up), c')
  {
    var m := |r.up|;
    assert b.pending[..m + 1] == [b.pending[0]] + b.pending[1..][..m];
    assert b.pending[m + 1..] == b.pending[1..][m..];
    forall x | c <= x < c' ensures x in nums {
      if x >= c1 { assert x in nums[1..]; } else { assert x == nums[0]; }
    }
    forall i | 1 <= i < |nums| ensures nums[i] == nums[1..][i - 1] { }
  }

  lemma {:induction false} UploadMeaning(b: Ba, nums: seq<int>, c: int) returns (c': int)
    requires Numbered(b.pending, nums) && Increasing(nums)
    requires b.indicate == c % SN_MOD
    requires forall i :: 0 <= i < |nums| ==> -2048 <= c - nums[i] < 2048
    ensures TakesRun(b, nums, c, Upload(b), c')
    decreases |b.pending|
  {
    c' := c;
    if b.pending != [] {
      SnLessUnwrapped(c, nums[0]);
      if c >= nums[0] {
        NextResidue(c);
        var c1 := if c == nums[0] then c + 1 else c;
        c' := UploadMeaning(PopHead(b), nums[1..], c1);
        TakesOneMore(b, nums, c, Upload(PopHead(b)), c1, c');
      }
    }
  }

  // ----- refinement of the standard's window -----

  /** `buf` holds exactly the packets of `p`, under the numbers `nums`. */
  ghost predicate Holds(buf: map<int, Packet>, nums: seq<int>, p: seq<Entry>) {
    && |nums| == |p|
    && (forall i :: 0 <= i < |nums| ==> nums[i] in buf && buf[nums[i]] == p[i].pkt)
    && (forall k :: k in buf ==> k in nums)
  }

  ghost predicate Abstracts(b: Ba, w: Window) {
    match w
    case Idle => b.indicate == UNSET
    case Active(start, buf) =>
      IsSeq(b.indicate) && b.indicate == start % SN_MOD && Holds(buf, Nums(b, start), b.pending)
  }

  /** The entries handed up are the released items, number by number and packet by packet. */
  ghost predicate Same(up: seq<Entry>, items: seq<Item>) {
    && |up| == |items|
    && forall i :: 0 <= i < |up| ==> up[i].sn == items[i].num % SN_MOD && up[i].pkt == items[i].pkt
  }

  /** Listing a range of the buffer gives the prefix of the ascending list that lies below its end. */
  lemma {:induction false} ListRangeIsPrefix(lo: int, hi: int, buf: map<int, Packet>,
                                             nums: seq<int>, p: seq<Entry>, m: nat)
    requires Holds(buf, nums, p) && Increasing(nums) && m <= |nums|
    requires forall i :: 0 <= i < m ==> lo <= nums[i] < hi
    requires forall i :: m <= i < |nums| ==> hi <= nums[i]
    ensures var items := ListRange(lo, hi, buf);
            |items| == m && forall i :: 0 <= i < m ==> items[i] == Item(nums[i], p[i].pkt)
    decreases hi - lo
  {
    if lo >= hi {
    } else if hi - 1 in buf {
      assert m > 0 && nums[m - 1] == hi - 1 by {
        var j :| 0 <= j < |nums| && nums[j] == hi - 1;
        assert j < m;
      }
      ListRangeIsPrefix(lo, hi - 1, buf, nums, p, m - 1);
    } else {
      ListRangeIsPrefix(lo, hi - 1, buf, nums, p, m);
    }
  }

  lemma NumbersOf(b: Ba, start: int)
    requires Inv(b) && IsSeq(b.indicate) && b.indicate == start % SN_MOD
    ensures Numbered(b.pending, Nums(b, start)) && Increasing(Nums(b, start))
    ensures forall i :: 0 <= i < |b.pending| ==> start < Nums(b, start)[i] < start + b.wsize
  {
    var z, nums := Nums(b, 0), Nums(b, start);
    forall i, j | 0 <= i < j < |nums| ensures nums[i] < nums[j] {
      assert z[i] < z[j];
    }
    forall i | 0 <= i < |nums| ensures b.pending[i].sn == nums[i] % SN_MOD {
      ResidueOfAhead(start, b.pending[i].sn);
    }
  }

  /** Numbers that lie within one window of the start are read back from the record. */
  lemma NumsAgree(b: Ba, start: int, nums: seq<int>)
    requires Numbered(b.pending, nums) && b.indicate == start % SN_MOD
    requires 1 <= b.wsize <= POOL
    requires forall i :: 0 <= i < |nums| ==> start < nums[i] < start + b.wsize
    requires Increasing(nums)
    ensures Nums(b, start) == nums && Sorted(b)
  {
    forall i | 0 <= i < |nums| ensures Ahead(b.indicate, b.pending[i].sn) == nums[i] - start {
      AheadOfResidue(start, nums[i]);
    }
    var z := Nums(b, 0);
    assert forall i :: 0 <= i < |nums| ==> z[i] == nums[i] - start;
  }

  /** Both wrap branches of the window shift compute the start of the window that ends at `u`. */
  lemma ShiftMeaning(u: int, sn: int, wsize: int)
    requires sn == u % SN_MOD && 1 <= wsize <= POOL
    ensures (if sn >= wsize - 1 then sn + 1 - wsize else 0xFFF - (wsize - (sn + 1)) + 1)
            == (u - wsize + 1) % SN_MOD
  {
    assert (u - wsize + 1) % SN_MOD == (sn - wsize + 1) % SN_MOD;
  }

  /** Where the window starts once packet `u` has been checked. */
  function Cursor(start: int, wsize: int, u: int): int {
    if u == start then start + 1
    else if u >= start + wsize then u - wsize + 1
    else start
  }

  /** The check's three comparisons on residues, read on the unwrapped number. */
  lemma CheckTests(start: int, wsize: int, sn: int, u: int)
    requires 1 <= wsize <= POOL && IsSeq(sn) && u == Unwrap(start, sn)
    ensures sn == start % SN_MOD <==> u == start
    ensures SnLess(sn, start % SN_MOD) <==> u < start
    ensures u > start ==> (SnLess((start % SN_MOD + wsize - 1) % SN_MOD, sn) <==> u >= start + wsize)
  {
    hide SnLess, Unwrap;
    UnwrapResidue(start, sn);
    NearResidue(u, start);
    SnLessUnwrapped(u, start);
    if u > start {
      EndResidue(start, wsize);
      SnLessUnwrapped(start + wsize - 1, u);
    }
  }

  /** Within half a circle, equal residues are equal numbers. */
  lemma NearResidue(a: int, b: int)
    requires -SN_MOD < a - b < SN_MOD
    ensures a % SN_MOD == b % SN_MOD <==> a == b
  {
  }

  lemma EndResidue(start: int, wsize: int)
    ensures (start % SN_MOD + wsize - 1) % SN_MOD == (start + wsize - 1) % SN_MOD
  {
  }

  /** Checking a packet discards exactly what lies behind the window, and otherwise places the
      window start: one further for the packet it waits for, or so that the window ends at `sn`. */
  lemma CheckMeaning(b: Ba, start: int, sn: int)
    requires 1 <= b.wsize <= POOL && IsSeq(sn)
    requires if b.indicate == UNSET then start == sn else b.indicate == start % SN_MOD
    ensures var (b1, keep) := Check(b, sn);
            var u := Unwrap(start, sn);
            && keep == (u >= start)
            && b1.indicate == (if keep then Cursor(start, b.wsize, u) else start) % SN_MOD
            && b1 == b.(indicate := b1.indicate, wend := b1.wend, drops := b1.drops)
  {
    var u := Unwrap(start, sn);
    CheckTests(start, b.wsize, sn, u);
    UnwrapResidue(start, sn);
    NextResidue(start);
    ShiftMeaning(u, sn, b.wsize);
  }

  ghost predicate Refines(r: Reaction, o: Outcome, wsize: int) {
    && r.Reaction?
    && Abstracts(r.b, o.win) && Same(r.up, o.released)
    && r.b.wsize == wsize && r.b.cnt == |r.b.pending|
    && (o.win.Active? ==> IsSeq(r.b.indicate) && Sorted(r.b))
  }

  /** Dropping the part of the list below `c` is keeping the part of the map above it. */
  lemma HoldsAbove(buf: map<int, Packet>, nums: seq<int>, p: seq<Entry>, m: nat, c: int)
    requires Holds(buf, nums, p) && m <= |nums|
    requires forall i :: 0 <= i < m ==> nums[i] < c
    requires forall i :: m <= i < |nums| ==> c < nums[i]
    ensures Holds(Above(buf, c), nums[m..], p[m..])
  {
    var rest := nums[m..];
    forall k | k in Above(buf, c) ensures k in rest {
      var j :| 0 <= j < |nums| && nums[j] == k;
      assert rest[j - m] == k;
    }
  }

  /** The cursor the upload ends at is the first number not received. */
  lemma CursorIsNextMissing(buf: map<int, Packet>, nums: seq<int>, p: seq<Entry>, m: nat,
                            base: int, c: int, c': int)
    requires Holds(buf, nums, p) && m <= |nums| && c <= c'
    requires c == base || (c == base + 1 && base in buf)
    requires forall i :: 0 <= i < m ==> nums[i] < c'
    requires forall i :: m <= i < |nums| ==> c' < nums[i]
    requires forall x :: c <= x < c' ==> x in nums
    ensures NextMissing(base, buf) == c'
  {
    assert c' !in nums;
    forall x | base <= x < c' ensures x in buf {
      if x >= c { assert x in nums; }
    }
    NextMissingUnique(base, buf, c');
  }

  /** What is handed up is the range of the buffer below the cursor. */
  lemma TakenSame(b: Ba, nums: seq<int>, start: int, c: int, buf: map<int, Packet>, r: Uploaded, c': int)
    requires Numbered(b.pending, nums) && Increasing(nums) && Holds(buf, nums, b.pending)
    requires forall i :: 0 <= i < |nums| ==> start <= nums[i]
    requires TakesRun(b, nums, c, r, c')
    ensures Same(r.up, ListRange(start, c', buf))
  {
    hide Holds, ListRange;
    ListRangeIsPrefix(start, c', buf, nums, b.pending, |r.up|);
  }

  /** What stays pending is the buffer above the cursor. */
  lemma RestAbstracts(b: Ba, nums: seq<int>, base: int, c: int, buf: map<int, Packet>, r: Uploaded, c': int)
    requires Numbered(b.pending, nums) && Increasing(nums) && Holds(buf, nums, b.pending)
    requires 1 <= b.wsize <= POOL && base <= c
    requires forall i :: 0 <= i < |nums| ==> nums[i] < base + b.wsize
    requires TakesRun(b, nums, c, r, c')
    ensures Abstracts(r.b, Active(c', Above(buf, c'))) && IsSeq(r.b.indicate) && Sorted(r.b)
  {
    var m := |r.up|;
    HoldsAbove(buf, nums, b.pending, m, c');
    hide Holds, Sorted;
    var rest := nums[m..];
    assert forall i :: 0 <= i < |rest| ==> rest[i] == nums[m + i];
    NumsAgree(r.b, c', rest);
  }

  /** Taking the run off the list is settling the window. */
  lemma RunRefines(b: Ba, nums: seq<int>, start: int, base: int, c: int, buf: map<int, Packet>,
                   r: Uploaded, c': int)
    requires Numbered(b.pending, nums) && Increasing(nums) && Holds(buf, nums, b.pending)
    requires 1 <= b.wsize <= POOL && b.cnt == |b.pending|
    requires c == base || (c == base + 1 && base in buf)
    requires forall i :: 0 <= i < |nums| ==> start <= nums[i] < base + b.wsize
    requires TakesRun(b, nums, c, r, c')
    ensures Refines(Reaction(r.b, r.up, [], StillQueued(r.b) != 0), Settle(start, base, buf), b.wsize)
  {
    hide Holds, Same, Sorted, Abstracts, ListRange, Increasing, NextMissing, Above;
    CursorIsNextMissing(buf, nums, b.pending, |r.up|, base, c, c');
    TakenSame(b, nums, start, c, buf, r, c');
    RestAbstracts(b, nums, base, c, buf, r, c');
  }

  /** Uploading from cursor `c` refines settling the window at `base`. */
  lemma UploadRefines(b: Ba, nums: seq<int>, start: int, base: int, c: int, buf: map<int, Packet>)
    requires Numbered(b.pending, nums) && Increasing(nums) && Holds(buf, nums, b.pending)
    requires b.indicate == c % SN_MOD && 1 <= b.wsize <= POOL && b.cnt == |b.pending|
    requires start <= base && (c == base || (c == base + 1 && base in buf))
    requires forall i :: 0 <= i < |nums| ==> start <= nums[i] < base + b.wsize && c - nums[i] < 2048
    ensures Refines(Deliver(b), Settle(start, base, buf), b.wsize)
  {
    var c' := UploadMeaning(b, nums, c);
    RunRefines(b, nums, start, base, c, buf, Upload(b), c');
  }

  /** Inserting at the place the search found keeps the list ascending. */
  lemma InsertSorted(nums: seq<int>, p: seq<Entry>, k: nat, u: int, e: Entry)
    requires Numbered(p, nums) && Increasing(nums) && k <= |nums| && e.sn == u % SN_MOD
    requires (forall i :: 0 <= i < k ==> nums[i] < u) && (forall i :: k <= i < |nums| ==> u < nums[i])
    ensures Numbered(Insert(p, k, e), Insert(nums, k, u)) && Increasing(Insert(nums, k, u))
  {
  }

  /** Inserting in the list is adding to the map. */
  lemma InsertHolds(buf: map<int, Packet>, nums: seq<int>, p: seq<Entry>, k: nat, u: int, e: Entry)
    requires Holds(buf, nums, p) && k <= |nums| && u !in nums
    ensures Holds(buf[u := e.pkt], Insert(nums, k, u), Insert(p, k, e))
  {
    var nums' := Insert(nums, k, u);
    assert nums'[k] == u;
    forall x | x in buf[u := e.pkt] ensures x in nums' {
      if x != u {
        var j :| 0 <= j < |nums| && nums[j] == x;
        assert nums'[if j < k then j else j + 1] == x;
      }
    }
  }

  lemma InsertBounds(nums: seq<int>, k: nat, u: int, start: int, wsize: int)
    requires k <= |nums| && 1 <= wsize <= POOL && start <= u < start + 2048
    requires forall i :: 0 <= i < |nums| ==> start < nums[i] < start + wsize
    ensures var nums' := Insert(nums, k, u);
            forall i :: 0 <= i < |nums'| ==> start <= nums'[i] < WindowBase(start, wsize, u) + wsize
                                             && Cursor(start, wsize, u) - nums'[i] < 2048
  {
  }

  /** Queueing a new packet and uploading refines storing it and settling the window. */
  lemma StoreRefines(b: Ba, nums: seq<int>, start: int, buf: map<int, Packet>, u: int, k: nat, e: Entry)
    requires 1 <= b.wsize <= POOL && b.cnt == |b.pending|
    requires Numbered(b.pending, nums) && Increasing(nums) && Holds(buf, nums, b.pending)
    requires forall i :: 0 <= i < |nums| ==> start < nums[i] < start + b.wsize
    requires start <= u < start + 2048 && u !in nums && k <= |nums| && b.free != [] && e.sn == u % SN_MOD
    requires (forall i :: 0 <= i < k ==> nums[i] < u) && (forall i :: k <= i < |nums| ==> u < nums[i])
    requires b.indicate == Cursor(start, b.wsize, u) % SN_MOD
    ensures Refines(Deliver(b.(pending := Insert(b.pending, k, e), cnt := b.cnt + 1, free := b.free[1..])),
                    Settle(start, WindowBase(start, b.wsize, u), buf[u := e.pkt]), b.wsize)
  {
    InsertHolds(buf, nums, b.pending, k, u, e);
    InsertSorted(nums, b.pending, k, u, e);
    InsertBounds(nums, k, u, start, b.wsize);
    UploadRefines(b.(pending := Insert(b.pending, k, e), cnt := b.cnt + 1, free := b.free[1..]),
                  Insert(nums, k, u), start, WindowBase(start, b.wsize, u),
                  Cursor(start, b.wsize, u), buf[u := e.pkt]);
  }

  /** Queueing refuses exactly the packets already pending; the others are stored and the window settles. */
  lemma EnqueueRefines(b: Ba, nums: seq<int>, start: int, buf: map<int, Packet>, u: int, pkt: Packet)
    requires 1 <= b.wsize <= POOL && b.cnt == |b.pending| && b.free != []
    requires Numbered(b.pending, nums) && Increasing(nums) && Holds(buf, nums, b.pending)
    requires forall i :: 0 <= i < |nums| ==> start < nums[i] < start + b.wsize
    requires start <= u < start + 2048
    requires b.indicate == Cursor(start, b.wsize, u) % SN_MOD
    ensures var q := Enqueue(b, u % SN_MOD, pkt);
            if u in buf then q == Refused(b.(drops := b.drops + 1))
            else
              && q.Queued?
              && Refines(Deliver(q.b), Settle(start, WindowBase(start, b.wsize, u), buf[u := pkt]), b.wsize)
  {
    FindSlotMeaning(b.pending, nums, u, |nums|);
    assert nums[..|nums|] == nums;
    assert u in buf <==> u in nums;
    match FindSlot(b.pending, u % SN_MOD, |nums|)
    case Dup =>
    case At(k) =>
      StoreRefines(b, nums, start, buf, u, k, Entry(b.free[0], u % SN_MOD, pkt));
  }

  /** A record that kept its window and its list still stands for the same window. */
  lemma DiscardRefines(b: Ba, nums: seq<int>, start: int, buf: map<int, Packet>, freed: seq<Packet>)
    requires 1 <= b.wsize <= POOL && b.cnt == |b.pending| && b.indicate == start % SN_MOD
    requires Numbered(b.pending, nums) && Increasing(nums) && Holds(buf, nums, b.pending)
    requires forall i :: 0 <= i < |nums| ==> start < nums[i] < start + b.wsize
    ensures Refines(Reaction(b, [], freed, false), Outcome(Active(start, buf), [], true), b.wsize)
  {
    NumsAgree(b, start, nums);
  }

  lemma AdmitRefines(b: Ba, nums: seq<int>, start: int, buf: map<int, Packet>, u: int, pkt: Packet)
    requires 1 <= b.wsize <= POOL && b.cnt == |b.pending| && b.free != []
    requires Numbered(b.pending, nums) && Increasing(nums) && Holds(buf, nums, b.pending)
    requires forall i :: 0 <= i < |nums| ==> start < nums[i] < start + b.wsize
    requires u < start + 2048
    requires b.indicate == (if u >= start then Cursor(start, b.wsize, u) else start) % SN_MOD
    ensures var r, o := Admit(b, u >= start, u % SN_MOD, pkt), Receive(start, buf, b.wsize, u, pkt);
            Refines(r, o, b.wsize) && r.freed == (if o.discarded then [pkt] else [])
  {
    if u < start {
      DiscardRefines(b, nums, start, buf, [pkt]);
    } else {
      EnqueueRefines(b, nums, start, buf, u, pkt);
      if u in buf {
        assert u != start;
        DiscardRefines(b.(drops := b.drops + 1), nums, start, buf, [pkt]);
      }
    }
  }

  /** The list-based step on a packet refines the standard's window. */
  lemma CoreRefines(b: Ba, w: Window, sn: int, pkt: Packet)
    requires Inv(b) && Abstracts(b, w) && IsSeq(sn)
    ensures var r, o := Core(b, sn, pkt), Arrive(w, b.wsize, sn, pkt);
            Refines(r, o, b.wsize) && r.freed == (if o.discarded then [pkt] else [])
  {
    var start := Opened(w, sn).start;
    var nums := if w.Idle? then [] else Nums(b, start);
    if w.Active? { NumbersOf(b, start); }
    UnwrapResidue(start, sn);
    NodeAvailable(b);
    CheckMeaning(b, start, sn);
    AdmitRefines(Check(b, sn).0, nums, start, Opened(w, sn).buf, Unwrap(start, sn), pkt);
  }

  lemma FirstPresentIsHead(buf: map<int, Packet>, nums: seq<int>, p: seq<Entry>, lo: int, hi: int)
    requires Holds(buf, nums, p) && Increasing(nums) && nums != [] && lo <= nums[0] < hi
    ensures FirstPresent(lo, hi, buf) == nums[0]
  {
    var f := FirstPresent(lo, hi, buf);
    assert f <= nums[0] by { assert nums[0] in buf; }
    assert f in nums;
  }

  lemma SkipRefines(b: Ba, nums: seq<int>, start: int, buf: map<int, Packet>)
    requires 1 <= b.wsize <= POOL && b.cnt == |b.pending| && nums != []
    requires Numbered(b.pending, nums) && Increasing(nums) && Holds(buf, nums, b.pending)
    requires forall i :: 0 <= i < |nums| ==> start < nums[i] < start + b.wsize
    ensures var base := FirstPresent(start, start + b.wsize, buf);
            Refines(Deliver(b.(indicate := b.pending[0].sn)), Settle(start, base, buf), b.wsize)
  {
    FirstPresentIsHead(buf, nums, b.pending, start, start + b.wsize);
    UploadRefines(b.(indicate := b.pending[0].sn), nums, start, nums[0], nums[0], buf);
  }

  /** The list-based gap-timer handler refines the standard's window. */
  lemma TimeoutRefines(b: Ba, w: Window)
    requires Inv(b) && Abstracts(b, w)
    ensures var r, o := Timeout(b), Fire(w, b.wsize);
            Refines(r, o, b.wsize) && r.freed == []
  {
    if w.Active? {
      if b.pending != [] {
        var nums := Nums(b, w.start);
        NumbersOf(b, w.start);
        assert nums[0] in w.buf;
        SkipRefines(b, nums, w.start, w.buf);
      } else {
        NothingToSkip(b, w);
      }
    }
  }

  lemma NothingToSkip(b: Ba, w: Window)
    requires Inv(b) && Abstracts(b, w) && w.Active? && b.pending == []
    ensures Refines(Timeout(b), Fire(w, b.wsize), b.wsize)
  {
    var nums := Nums(b, w.start);
    assert forall k :: k in w.buf ==> k in nums;
    assert w.buf == map[];
  }

  // ----- nodes and packets are conserved -----

  lemma {:induction false} UploadConserves(b: Ba)
    ensures var r := Upload(b);
            NodeBag(r.b) == NodeBag(b) && PktsOf(r.up) + PktsOf(r.b.pending) == PktsOf(b.pending)
    decreases |b.pending|
  {
    if !(b.pending == [] || SnLess(b.indicate, b.pending[0].sn)) {
      assert multiset([b.pending[0].node] + b.free) == multiset{b.pending[0].node} + multiset(b.free);
      UploadConserves(PopHead(b));
      var up := Upload(PopHead(b)).up;
      assert ([b.pending[0]] + up)[1..] == up;
    }
  }

  lemma {:induction false} InsertAddsNode(p: seq<Entry>, k: nat, e: Entry)
    requires k <= |p|
    ensures NodesOf(Insert(p, k, e)) == NodesOf(p) + multiset{e.node}
  {
    InsertShape(p, k, e);
    hide Insert;
    if k > 0 {
      InsertAddsNode(p[1..], k - 1, e);
    }
  }

  lemma {:induction false} InsertAddsPacket(p: seq<Entry>, k: nat, e: Entry)
    requires k <= |p|
    ensures PktsOf(Insert(p, k, e)) == PktsOf(p) + multiset{e.pkt}
  {
    InsertShape(p, k, e);
    hide Insert;
    if k > 0 {
      InsertAddsPacket(p[1..], k - 1, e);
    }
  }

  lemma InsertShape(p: seq<Entry>, k: nat, e: Entry)
    requires k <= |p|
    ensures k == 0 ==> Insert(p, k, e)[0] == e && Insert(p, k, e)[1..] == p
    ensures k > 0 ==> Insert(p, k, e)[0] == p[0] && Insert(p, k, e)[1..] == Insert(p[1..], k - 1, e)
  {
  }

  lemma {:induction false} PktsOfJoin(a: seq<Entry>, b: seq<Entry>)
    ensures PktsOf(a + b) == PktsOf(a) + PktsOf(b)
  {
    if a == [] {
      assert a + b == b;
    } else {
      assert (a + b)[1..] == a[1..] + b;
      PktsOfJoin(a[1..], b);
    }
  }

  lemma EnqueueConserves(b: Ba, sn: int, pkt: Packet)
    ensures match Enqueue(b, sn, pkt)
            case Queued(b') =>
              NodeBag(b') == NodeBag(b) && PktsOf(b'.pending) == PktsOf(b.pending) + multiset{pkt}
            case Refused(b') => b'.pending == b.pending && b'.free == b.free
            case NoNode => true
  {
    var slot := FindSlot(b.pending, sn, |b.pending|);
    if slot.At? && b.free != [] {
      InsertAddsNode(b.pending, slot.k, Entry(b.free[0], sn, pkt));
      InsertAddsPacket(b.pending, slot.k, Entry(b.free[0], sn, pkt));
      assert b.free == [b.free[0]] + b.free[1..];
    }
  }

  function ArrivedPkt(e: Event): multiset<Packet> {
    match e
    case Arrival(_, pkt) => multiset{pkt}
    case Timer => multiset{}
  }

  lemma CheckKeepsLists(b: Ba, sn: int)
    ensures Check(b, sn).0.pending == b.pending && Check(b, sn).0.free == b.free
  {
  }

  lemma AdmitConserves(b: Ba, keep: bool, sn: int, pkt: Packet)
    ensures var r := Admit(b, keep, sn, pkt);
            r.Reaction? ==>
              && NodeBag(r.b) == NodeBag(b)
              && PktsOf(r.up) + multiset(r.freed) + PktsOf(r.b.pending) == PktsOf(b.pending) + multiset{pkt}
  {
    EnqueueConserves(b, sn, pkt);
    if keep && Enqueue(b, sn, pkt).Queued? {
      UploadConserves(Enqueue(b, sn, pkt).b);
    }
  }

  lemma TimeoutConserves(b: Ba)
    ensures var r := Timeout(b);
            && r.Reaction? && r.freed == []
            && NodeBag(r.b) == NodeBag(b)
            && PktsOf(r.up) + PktsOf(r.b.pending) == PktsOf(b.pending)
  {
    if b.pending != [] {
      UploadConserves(b.(indicate := b.pending[0].sn));
    }
  }

  /** Every step leaves the nodes a partition of the pool and puts the packet that came in, and
      every packet that was pending, in exactly one of handed up, freed and pending. */
  lemma ReactConserves(b: Ba, e: Event)
    ensures var r := React(b, e);
            r.Reaction? ==>
              && NodeBag(r.b) == NodeBag(b)
              && PktsOf(r.up) + multiset(r.freed) + PktsOf(r.b.pending) == PktsOf(b.pending) + ArrivedPkt(e)
  {
    match e
    case Arrival(sn, pkt) =>
      CheckKeepsLists(b, sn);
      AdmitConserves(Check(b, sn).0, Check(b, sn).1, sn, pkt);
    case Timer =>
      TimeoutConserves(b);
  }

  // ----- whole runs -----

  datatype Log = Log(b: Ba, up: seq<Entry>, freed: seq<Packet>) | Stuck

  function Then(l: Log, e: Event): Log {
    match l
    case Stuck => Stuck
    case Log(b, up, freed) =>
      match React(b, e)
      case Spins => Stuck
      case Reaction(b', up', freed', _) => Log(b', up + up', freed + freed')
  }

  function Runs(events: seq<Event>): Log {
    if events == [] then Log(Init(), [], [])
    else Then(Runs(events[..|events| - 1]), events[|events| - 1])
  }

  ghost function Arrived(events: seq<Event>): multiset<Packet> {
    if events == [] then multiset{}
    else Arrived(events[..|events| - 1]) + ArrivedPkt(events[|events| - 1])
  }

  lemma ReactRefines(b: Ba, w: Window, e: Event)
    requires Inv(b) && Abstracts(b, w) && (e.Arrival? ==> IsSeq(e.sn))
    ensures Refines(React(b, e), Step(w, b.wsize, e), b.wsize) && Inv(React(b, e).b)
  {
    ReactConserves(b, e);
    match e
    case Arrival(sn, pkt) => CoreRefines(b, w, sn, pkt);
    case Timer => TimeoutRefines(b, w);
  }

  /** The log never waits for a node, keeps the invariant, agrees with the standard's window and
      accounts for every packet of `arrived` once. */
  ghost predicate Tracks(l: Log, h: History, arrived: multiset<Packet>) {
    && l.Log? && l.b.wsize == 64 && Inv(l.b)
    && Abstracts(l.b, h.win) && Same(l.up, h.released)
    && PktsOf(l.up) + multiset(l.freed) + PktsOf(l.b.pending) == arrived
  }

  lemma JoinTracks(l: Log, h: History, arrived: multiset<Packet>, r: Reaction, o: Outcome, more: multiset<Packet>)
    requires Tracks(l, h, arrived) && Refines(r, o, 64) && Inv(r.b)
    requires PktsOf(r.up) + multiset(r.freed) + PktsOf(r.b.pending) == PktsOf(l.b.pending) + more
    ensures Tracks(Log(r.b, l.up + r.up, l.freed + r.freed), History(o.win, h.released + o.released), arrived + more)
  {
    PktsOfJoin(l.up, r.up);
    BagsJoin(PktsOf(l.up), multiset(l.freed), PktsOf(l.b.pending),
             PktsOf(r.up), multiset(r.freed), PktsOf(r.b.pending), more);
  }

  lemma BagsJoin(a: multiset<Packet>, b: multiset<Packet>, c: multiset<Packet>,
                 a': multiset<Packet>, b': multiset<Packet>, c': multiset<Packet>, more: multiset<Packet>)
    requires a' + b' + c' == c + more
    ensures (a + a') + (b + b') + c' == a + b + c + more
  {
    assert (a + a') + (b + b') + c' == a + b + (a' + b' + c');
  }

  lemma ThenTracks(l: Log, h: History, arrived: multiset<Packet>, e: Event)
    requires Tracks(l, h, arrived) && (e.Arrival? ==> IsSeq(e.sn))
    ensures Tracks(Then(l, e), Extend(h, 64, e), arrived + ArrivedPkt(e))
  {
    ReactRefines(l.b, h.win, e);
    ReactConserves(l.b, e);
    JoinTracks(l, h, arrived, React(l.b, e), Step(h.win, 64, e), ArrivedPkt(e));
  }

  /** Every run from set-up, over any interleaving of arrivals and firings, is tracked. */
  lemma {:induction false} RunsRefine(events: seq<Event>)
    requires ValidEvents(events)
    ensures Tracks(Runs(events), Run(64, events), Arrived(events))
  {
    if events != [] {
      var n := |events| - 1;
      RunsRefine(events[..n]);
      ThenTracks(Runs(events[..n]), Run(64, events[..n]), Arrived(events[..n]), events[n]);
    }
  }

  /** The numbers handed up over any run, each as it was on arrival, strictly ascend. */
  lemma RunsDeliverInOrder(events: seq<Event>) returns (nums: seq<int>)
    requires ValidEvents(events)
    ensures Runs(events).Log? && Numbered(Runs(events).up, nums) && Increasing(nums)
    ensures |nums| == |Run(64, events).released|
    ensures forall i :: 0 <= i < |nums| ==> nums[i] == Run(64, events).released[i].num
  {
    RunsRefine(events);
    RunReleasesInOrder(64, events);
    var items := Run(64, events).released;
    nums := seq(|items|, i requires 0 <= i < |items| => items[i].num);
  }

  /** If every packet's true number lies within half a circle of the window start it meets, the driver
      hands up, in strictly ascending order of true number, packets under the true numbers they were
      sent with: nothing twice, nothing out of order, across any number of wraps. */
  lemma RunsDeliverTrue(events: seq<Event>, trues: seq<int>) returns (nums: seq<int>)
    requires ValidEvents(events) && Near(64, events, trues)
    ensures Runs(events).Log? && Numbered(Runs(events).up, nums) && Increasing(nums)
    ensures forall j :: 0 <= j < |nums| ==> Sent(events, trues, nums[j], Runs(events).up[j].pkt)
  {
    hide Runs, Run, Sent;
    nums := RunsDeliverInOrder(events);
    RunsRefine(events);
    RunReleasesTrue(64, events, trues);
  }

  /** A packet is freed exactly when it lies behind the window or repeats a pending one. */
  lemma FreedExactly(b: Ba, sn: int, pkt: Packet)
    requires Inv(b) && IsSeq(sn)
    ensures var r := Core(b, sn, pkt);
            && r.Reaction?
            && (r.freed == [pkt] || r.freed == [])
            && (r.freed == [pkt] <==>
                  b.indicate != UNSET
                  && (SnLess(sn, b.indicate)
                      || exists i :: 0 <= i < |b.pending| && b.pending[i].sn == sn))
  {
    if b.indicate == UNSET {
      CoreRefines(b, Idle, sn, pkt);
    } else {
      var start, buf, u := b.indicate, WindowMap(b), Unwrap(b.indicate, sn);
      WindowMapHolds(b);
      CoreRefines(b, Active(start, buf), sn, pkt);
      var nums := Nums(b, start);
      NumbersOf(b, start);
      UnwrapResidue(start, sn);
      if u in buf {
        var i :| 0 <= i < |nums| && nums[i] == u;
        assert b.pending[i].sn == sn;
      }
      forall i | 0 <= i < |nums| && b.pending[i].sn == sn ensures u in buf {
        SnLessUnwrapped(u, nums[i]);
        assert nums[i] in buf;
      }
    }
  }

  // ----- the gap timer -----

  lemma TimerReads(b: Ba, e: Event)
    ensures var r := React(b, e);
            r.Reaction? ==>
              if r.freed == [] && (e.Arrival? || b.pending != []) then r.timer == (StillQueued(r.b) != 0)
              else !r.timer && r.b.pending == b.pending
  {
    if e.Arrival? { CheckKeepsLists(b, e.sn); }
  }

  lemma InvStep(b: Ba, e: Event)
    requires Inv(b) && (e.Arrival? ==> IsSeq(e.sn))
    ensures React(b, e).Reaction? && Inv(React(b, e).b)
  {
    var w := if b.indicate == UNSET then Idle else Active(b.indicate, WindowMap(b));
    if w.Active? { WindowMapHolds(b); }
    ReactRefines(b, w, e);
  }

  lemma {:induction false} UploadShrinks(b: Ba)
    ensures |Upload(b).b.pending| <= |b.pending|
    decreases |b.pending|
  {
    if b.pending != [] {
      UploadShrinks(PopHead(b));
    }
  }

  lemma FiringShrinks(b: Ba)
    requires b.pending != []
    ensures |Timeout(b).b.pending| < |b.pending|
  {
    var b1 := b.(indicate := b.pending[0].sn);
    assert Upload(b1).b == Upload(PopHead(b1)).b;
    UploadShrinks(PopHead(b1));
  }

  /** A step that uploads sets the timer exactly when packets stay pending, and a firing on a
      non-empty list hands up at least one packet. */
  lemma TimerMeaning(b: Ba, e: Event)
    requires Inv(b) && (e.Arrival? ==> IsSeq(e.sn))
    ensures var r := React(b, e);
            && r.Reaction?
            && (r.freed == [] ==> (r.timer <==> r.b.pending != []))
            && (r.freed != [] ==> !r.timer && r.b.pending == b.pending)
            && (e.Timer? && b.pending != [] ==> |r.b.pending| < |b.pending|)
  {
    hide Core, Timeout, Sorted, PoolInv;
    InvStep(b, e);
    NodeAvailable(React(b, e).b);
    TimerReads(b, e);
    if e.Timer? && b.pending != [] { FiringShrinks(b); }
  }

  /** Whether the gap timer is armed after a run: a step that sets it arms it, a firing disarms it. */
  function Armed(events: seq<Event>): bool {
    if events == [] then false
    else
      var n := |events| - 1;
      match Runs(events[..n])
      case Stuck => false
      case Log(b, _, _) =>
        match React(b, events[n])
        case Spins => false
        case Reaction(_, _, _, timer) => timer || (events[n].Arrival? && Armed(events[..n]))
  }

  /** Over every run, whenever packets are pending the timer is armed, so no packet waits for ever for a
      gap that is never filled. */
  lemma {:induction false} PendingIsArmed(events: seq<Event>)
    requires ValidEvents(events)
    ensures Runs(events).Log? && (Runs(events).b.pending != [] ==> Armed(events))
  {
    RunsRefine(events);
    if events != [] {
      hide Run, Inv;
      var n := |events| - 1;
      RunsRefine(events[..n]);
      PendingIsArmed(events[..n]);
      TimerMeaning(Runs(events[..n]).b, events[n]);
    }
  }

  ghost function WindowMap(b: Ba): map<int, Packet> {
    var nums := Nums(b, b.indicate);
    map k | k in nums :: var i :| 0 <= i < |nums| && nums[i] == k; b.pending[i].pkt
  }

  lemma WindowMapHolds(b: Ba)
    requires Inv(b) && IsSeq(b.indicate)
    ensures Abstracts(b, Active(b.indicate, WindowMap(b)))
  {
    NumbersOf(b, b.indicate);
  }

  function Fired(b: Ba, n: nat): Ba {
    if n == 0 then b
    else
      match Timeout(Fired(b, n - 1))
      case Reaction(b', _, _, _) => b'
      case Spins => Fired(b, n - 1)
  }

  /** With no more arrivals, as many firings as there are pending packets empty the list. */
  lemma {:induction false} FiringsEmpty(b: Ba, n: nat)
    requires Inv(b)
    ensures Inv(Fired(b, n)) && |Fired(b, n).pending| <= if n <= |b.pending| then |b.pending| - n else 0
  {
    if n > 0 {
      FiringsEmpty(b, n - 1);
      InvStep(Fired(b, n - 1), Timer);
      TimerMeaning(Fired(b, n - 1), Timer);
    }
  }
}
