/** The access point's management messages: one pool of fixed buffers per tag. */
module ApMessage {
  import opened Bytes

  datatype Tag = Auth | Deauth | AssocReq | Disassoc | BaReq | Beacon

  const WDN_NUM_MAX := 5
  const TID_NUM := 16

  /** How many messages the pool of a tag starts with. */
  function Depth(tag: Tag): nat {
    match tag
    case Auth => WDN_NUM_MAX * 3
    case Deauth => WDN_NUM_MAX
    case AssocReq => WDN_NUM_MAX
    case Disassoc => WDN_NUM_MAX
    case BaReq => TID_NUM
    case Beacon => 0
  }

  /** The frame bytes for which a message of a tag has room. */
  function Capacity(tag: Tag): nat {
    match tag
    case Auth => 24 + 144 + 12
    case Deauth => 24 + 2
    case AssocReq => 28 + 768
    case Disassoc => 24 + 2
    case BaReq => 0
    case Beacon => 0
  }

  /** A received frame. */
  datatype Frame = Frame(bytes: seq<byte>)

  /** A pooled message. `home` is the tag its buffer was allocated for; `bytes` is the whole buffer,
      so whatever lies behind `len` is left over from earlier uses. */
  datatype Msg = Msg(home: Tag, tag: Tag, len: nat, bytes: seq<byte>)

  type Pool = map<Tag, seq<Msg>>

  ghost predicate PoolShape(free: Pool) {
    forall t: Tag :: t in free
  }

  function Blank(tag: Tag): Msg {
    Msg(tag, Auth, 0, seq(Capacity(tag), i => 0))
  }

  const TAGS := {Auth, Deauth, AssocReq, Disassoc, BaReq, Beacon}

  lemma EveryTag(t: Tag)
    ensures t in TAGS
  {
    match t
    case Auth =>
    case Deauth =>
    case AssocReq =>
    case Disassoc =>
    case BaReq =>
    case Beacon =>
  }

  function Row(tag: Tag, n: nat): seq<Msg> {
    seq(n, i => Blank(tag))
  }

  function InitialPool(): (free: Pool)
    ensures PoolShape(free)
  {
    assert forall t: Tag :: t in TAGS by {
      forall t: Tag ensures t in TAGS { EveryTag(t); }
    }
    map t: Tag | t in TAGS :: Row(t, Depth(t))
  }

  lemma BeaconRow()
    ensures Row(Beacon, Depth(Beacon)) == []
  {
  }

  // ----- loading, getting and freeing -----

  datatype Loaded = Loaded(ok: bool, free: Pool, que: seq<Msg>, fits: bool)

  /** Copy a frame over the front of a buffer. */
  function Filled(m: Msg, tag: Tag, f: Frame): Msg {
    var n := |f.bytes|;
    m.(tag := tag, len := n, bytes := f.bytes + if n <= |m.bytes| then m.bytes[n..] else [])
  }

  /** Move the head of a tag's free queue to the tail of a station's queue, with a frame copied in. */
  function Load(free: Pool, que: seq<Msg>, tag: Tag, f: Frame): Loaded
    requires PoolShape(free)
  {
    if free[tag] == [] then Loaded(false, free, que, true)
    else
      var m := free[tag][0];
      Loaded(true, free[tag := free[tag][1..]], que + [Filled(m, tag, f)], |f.bytes| <= |m.bytes|)
  }

  /** Put a message back at the head of the queue its tag names. */
  function Release(free: Pool, m: Msg): Pool
    requires PoolShape(free)
  {
    free[m.tag := [m] + free[m.tag]]
  }

  function ReleaseAll(free: Pool, ms: seq<Msg>): (r: Pool)
    requires PoolShape(free)
    ensures PoolShape(r)
  {
    if ms == [] then free else ReleaseAll(Release(free, ms[0]), ms[1..])
  }

  lemma ReleaseOne(free: Pool, m: Msg)
    requires PoolShape(free)
    ensures ReleaseAll(free, [m]) == Release(free, m)
  {
    assert [m][1..] == [];
  }

  // ----- conservation and buffer sizes -----

  function CountTag(ms: seq<Msg>, t: Tag): nat {
    if ms == [] then 0 else (if ms[0].tag == t then 1 else 0) + CountTag(ms[1..], t)
  }

  lemma {:induction false} CountAppend(a: seq<Msg>, b: seq<Msg>, t: Tag)
    ensures CountTag(a + b, t) == CountTag(a, t) + CountTag(b, t)
  {
    if a == [] {
      assert a + b == b;
    } else {
      CountAppend(a[1..], b, t);
      assert (a + b)[1..] == a[1..] + b;
    }
  }

  /** A message in use sits in a buffer allocated for its own tag. */
  ghost predicate InUse(m: Msg) {
    m.tag == m.home && |m.bytes| == Capacity(m.home) && m.len <= Capacity(m.home)
  }

  ghost predicate AllInUse(ms: seq<Msg>) {
    forall i :: 0 <= i < |ms| ==> InUse(ms[i])
  }

  ghost predicate AllHome(ms: seq<Msg>, t: Tag) {
    forall i :: 0 <= i < |ms| ==> ms[i].home == t && |ms[i].bytes| == Capacity(t)
  }

  ghost predicate PoolInv(free: Pool) {
    PoolShape(free) && forall t: Tag :: AllHome(free[t], t)
  }

  /** Freeing returns each message to the pool its buffer came from, and adds nothing else. */
  lemma {:induction false} ReleaseAllCounts(free: Pool, ms: seq<Msg>, t: Tag)
    requires PoolInv(free) && AllInUse(ms)
    ensures PoolInv(ReleaseAll(free, ms))
    ensures |ReleaseAll(free, ms)[t]| == |free[t]| + CountTag(ms, t)
    decreases |ms|
  {
    if ms != [] {
      var m := ms[0];
      assert InUse(m);
      var next := Release(free, m);
      assert AllHome([m] + free[m.tag], m.tag);
      assert PoolInv(next);
      ReleaseAllCounts(next, ms[1..], t);
    }
  }

  /** A frame no longer than its tag's capacity fits, and a loaded message is in use. */
  lemma LoadKeeps(free: Pool, que: seq<Msg>, tag: Tag, f: Frame, t: Tag)
    requires PoolInv(free) && AllInUse(que) && |f.bytes| <= Capacity(tag)
    ensures var r := Load(free, que, tag, f);
            && PoolInv(r.free) && AllInUse(r.que) && r.fits
            && |r.free[t]| + CountTag(r.que, t) == |free[t]| + CountTag(que, t)
            && (r.ok <==> free[tag] != [])
  {
    if free[tag] != [] {
      var m := free[tag][0];
      assert AllHome(free[tag], tag);
      var msg := Filled(m, tag, f);
      CountAppend(que, [msg], t);
      assert AllHome(free[tag][1..], tag);
    }
  }

  /** Loading keeps every queued message in a buffer of its own tag's size exactly when the pool is
      empty or the frame is within the tag's capacity; beyond it the copy runs past the buffer. */
  lemma LoadFits(free: Pool, que: seq<Msg>, tag: Tag, f: Frame)
    requires PoolInv(free) && AllInUse(que)
    ensures var r := Load(free, que, tag, f);
            && (AllInUse(r.que) <==> free[tag] == [] || |f.bytes| <= Capacity(tag))
            && (r.fits <==> AllInUse(r.que))
  {
    assert AllHome(free[tag], tag);
    if free[tag] != [] {
      var r := Load(free, que, tag, f);
      assert r.que[|que|] == Filled(free[tag][0], tag, f);
    }
  }

  /** The pools as they are set up: how many messages of each kind, of which size, all blank. */
  lemma InitialSizes()
    ensures var p := InitialPool();
            && |p[Auth]| == 15 && |p[Deauth]| == 5 && |p[AssocReq]| == 5 && |p[Disassoc]| == 5
            && |p[BaReq]| == 16 && |p[Beacon]| == 0
            && (forall m :: m in p[Auth] ==> |m.bytes| == 180)
            && (forall m :: m in p[AssocReq] ==> |m.bytes| == 796)
            && (forall m :: m in p[Deauth] + p[Disassoc] ==> |m.bytes| == 26)
            && (forall m :: m in p[BaReq] ==> |m.bytes| == 0)
            && forall t: Tag, m :: m in p[t] ==> m.len == 0 && forall i :: 0 <= i < |m.bytes| ==> m.bytes[i] == 0
  {
    forall t: Tag, m | m in InitialPool()[t] ensures m == Blank(t) {
    }
  }

  lemma InitialPoolInv(t: Tag)
    ensures PoolInv(InitialPool()) && |InitialPool()[t]| == Depth(t)
  {
  }

  // ----- the code -----

  /** The pool object: `ap_msg_free` of the current network. */
  class MsgPool {
    var free: Pool

    ghost predicate Valid()
      reads this
    {
      PoolShape(free)
    }

    /** Fill each tag's queue with blank messages, one allocation at a time. */
    constructor ()
      ensures Valid() && free == InitialPool()
    {
      free := map[Auth := [], Deauth := [], AssocReq := [], Disassoc := [], BaReq := [], Beacon := []];
      new;
      hide Depth;
      forall t: Tag ensures t in free {
        EveryTag(t);
      }
      Fill(Auth);
      Fill(Deauth);
      Fill(AssocReq);
      Fill(Disassoc);
      Fill(BaReq);
      BeaconRow();
      forall t: Tag ensures t in free && free[t] == Row(t, Depth(t)) {
        EveryTag(t);
      }
    }

    method Fill(tag: Tag)
      requires Valid() && free[tag] == []
      modifies this
      ensures Valid() && free == old(free)[tag := Row(tag, Depth(tag))]
    {
      var i := 0;
      assert free[tag] == Row(tag, 0) && free == free[tag := free[tag]];
      while i < Depth(tag)
        invariant 0 <= i <= Depth(tag)
        invariant free == old(free)[tag := Row(tag, i)]
      {
        assert [Blank(tag)] + Row(tag, i) == Row(tag, i + 1);
        free := free[tag := [Blank(tag)] + free[tag]];
        i := i + 1;
      }
    }

    method LoadMsg(que: seq<Msg>, tag: Tag, f: Frame) returns (ret: int, q: seq<Msg>)
      requires Valid()
      modifies this
      ensures Valid() && (ret == 0 || ret == -1)
      ensures var r := Load(old(free), que, tag, f); free == r.free && q == r.que && (ret == 0) == r.ok
    {
      if free[tag] == [] {
        return -1, que;
      }
      var m := free[tag][0];
      free := free[tag := free[tag][1..]];
      q := que + [Filled(m, tag, f)];
      ret := 0;
    }

    /** Take the head of a station's queue and put it back. */
    method FreeHead(que: seq<Msg>) returns (ret: int, q: seq<Msg>)
      requires Valid()
      modifies this
      ensures Valid()
      ensures if que == [] then ret == -1 && q == [] && free == old(free)
              else ret == 0 && q == que[1..] && free == Release(old(free), que[0])
    {
      if que == [] {
        return -1, [];
      }
      var m := que[0];
      free := free[m.tag := [m] + free[m.tag]];
      return 0, que[1..];
    }

    /** Free the head until the queue is empty. */
    method Clearup(que: seq<Msg>)
      requires Valid()
      modifies this
      ensures Valid() && free == ReleaseAll(old(free), que)
    {
      var q := que;
      while q != []
        invariant Valid() && ReleaseAll(free, q) == ReleaseAll(old(free), que)
        decreases |q|
      {
        var _, rest := FreeHead(q);
        q := rest;
      }
    }
  }
}
