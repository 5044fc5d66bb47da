/** What a receive with GRO delivers, and the two-slot read of the batching connection. */
module Delivery {
  import opened Bytes
  import opened Control
  import opened Memory
  import opened Grouping
  import opened Segmentation
  import opened Send
  import opened Split
  import opened Window
  import opened RoundTrip
  import opened Receive

  /** A message as the kernel delivers it: empty, or its control data intact and its segment size no
      larger than its payload. */
  predicate WellFormed(a: Arrival) {
    |a.data| == 0 || (|a.control| <= CONTROL_CAPACITY && GsoSize(a.control).Size? && GsoSize(a.control).bytes <= |a.data|)
  }

  /** The datagrams a caller is to see; it ignores entries of size zero. */
  function DatagramsIn(a: Arrival): seq<Datagram>
    requires WellFormed(a)
  {
    if |a.data| == 0 then [] else Tagged(Segments(a.data, GsoSize(a.control).bytes), a.addr)
  }

  /** A message whose size the kernel tells is cut into datagrams of that size. */
  lemma DatagramsTold(a: Arrival, size: nat)
    requires |a.data| > 0 && |a.control| <= CONTROL_CAPACITY && Tells(a.control, size) && size <= |a.data|
    ensures WellFormed(a) && DatagramsIn(a) == Tagged(Segments(a.data, size), a.addr)
  {
    hide GsoSize, Tells, Segments;
    ToldSize(a.control, size);
  }

  lemma SomeDatagram(a: Arrival)
    requires WellFormed(a)
    ensures |DatagramsIn(a)| > 0 <==> |a.data| > 0
  {
  }

  predicate AllFormed(arrivals: seq<Arrival>) { forall k :: 0 <= k < |arrivals| ==> WellFormed(arrivals[k]) }

  function AllIn(arrivals: seq<Arrival>): seq<Datagram>
    requires AllFormed(arrivals)
  {
    if |arrivals| == 0 then []
    else AllIn(arrivals[..|arrivals| - 1]) + DatagramsIn(arrivals[|arrivals| - 1])
  }

  /** The arrivals are well formed, no more than the slots read into, and fit their buffers. */
  ghost predicate LandedIn(rs: seq<Received>, bufs: seq<Slice>, lo: nat, arrivals: seq<Arrival>) {
    && FreshSlots(rs, bufs, lo, arrivals) && AllReadable(rs) && lo + |arrivals| <= |rs|
    && AllFormed(arrivals)
    && (forall k :: 0 <= k < |arrivals| ==> |arrivals[k].data| <= bufs[lo + k].len)
  }

  lemma SlotDatagrams(rs: seq<Received>, bufs: seq<Slice>, lo: nat, arrivals: seq<Arrival>, k: nat)
    requires LandedIn(rs, bufs, lo, arrivals) && k < |arrivals| && |arrivals[k].data| > 0
    ensures Splittable(rs[lo + k]) && WellFormed(arrivals[k])
    ensures DatagramsOf(rs[lo + k], GsoSize(rs[lo + k].control).bytes) == DatagramsIn(arrivals[k])
  {
    hide GsoSize, AllReadable, RawSegments, Segments;
    var r, a := rs[lo + k], arrivals[k];
    assert WellFormed(a);
    assert arrivals[(lo + k) - lo] == a;
    assert |a.data| <= bufs[lo + k].len;
    assert a.control[..|a.control|] == a.control && a.data[..|a.data|] == a.data;
    assert r.control == a.control && r.n == |a.data| && r.store[..r.n] == a.data;
    RawSegmentsExact(r.store, r.n, GsoSize(a.control).bytes);
    assert r.Valid() by { assert r in rs; InReadable(rs, r); }
  }

  lemma InReadable(rs: seq<Received>, r: Received)
    requires AllReadable(rs) && r in rs
    ensures r.Valid()
  {
  }

  /** Where the first empty arrival is; the splitter stops there. */
  function FirstEmpty(arrivals: seq<Arrival>): (z: nat)
    ensures z <= |arrivals| && (z < |arrivals| ==> |arrivals[z].data| == 0)
    ensures forall k :: 0 <= k < z ==> |arrivals[k].data| > 0
  {
    if |arrivals| == 0 || |arrivals[0].data| == 0 then 0 else 1 + FirstEmpty(arrivals[1..])
  }

  lemma ReceivedLimit(rs: seq<Received>, bufs: seq<Slice>, lo: nat, arrivals: seq<Arrival>)
    requires LandedIn(rs, bufs, lo, arrivals)
    ensures AllReadable(rs) && lo + |arrivals| <= |rs| && Limit(rs, lo) == lo + FirstEmpty(arrivals)
    ensures !Run(rs, lo, []).Malformed?
  {
    hide GsoSize, DatagramsOf, Run;
    var z := FirstEmpty(arrivals);
    forall k | lo <= k < lo + z ensures Splittable(rs[k]) {
      SlotDatagrams(rs, bufs, lo, arrivals, k - lo);
    }
    if z < |arrivals| { assert arrivals[(lo + z) - lo] == arrivals[z]; }
    LimitIs(rs, lo, lo + z);
    NotMalformed(rs, lo);
  }

  lemma {:induction false} ReceivedSoFar(rs: seq<Received>, bufs: seq<Slice>, lo: nat, arrivals: seq<Arrival>, k: nat)
    requires LandedIn(rs, bufs, lo, arrivals) && k <= FirstEmpty(arrivals) && Limit(rs, lo) == lo + FirstEmpty(arrivals)
    ensures AllFormed(arrivals[..k]) && AllDatagrams(rs, lo, lo + k) == AllIn(arrivals[..k])
  {
    hide *;
    ReceivedLimit(rs, bufs, lo, arrivals);
    PrefixFormed(rs, bufs, lo, arrivals, k);
    if k > 0 {
      ReceivedSoFar(rs, bufs, lo, arrivals, k - 1);
      SlotDatagrams(rs, bufs, lo, arrivals, k - 1);
      AllDatagramsStep(rs, lo, lo + (k - 1));
      AllInLast(arrivals, k);
      assert lo + k == lo + (k - 1) + 1;
    } else {
      NothingYet(rs, lo, arrivals);
    }
  }

  lemma PrefixFormed(rs: seq<Received>, bufs: seq<Slice>, lo: nat, arrivals: seq<Arrival>, k: nat)
    requires LandedIn(rs, bufs, lo, arrivals) && k <= |arrivals|
    ensures AllFormed(arrivals[..k]) && AllFormed(arrivals)
  {
    hide WellFormed;
  }

  lemma AllInLast(arrivals: seq<Arrival>, k: nat)
    requires 0 < k <= |arrivals| && AllFormed(arrivals[..k - 1]) && AllFormed(arrivals[..k]) && WellFormed(arrivals[k - 1])
    ensures AllIn(arrivals[..k]) == AllIn(arrivals[..k - 1]) + DatagramsIn(arrivals[k - 1])
  {
    hide WellFormed, DatagramsIn, AllFormed;
    assert arrivals[..k][..k - 1] == arrivals[..k - 1];
  }

  lemma NothingYet(rs: seq<Received>, lo: nat, arrivals: seq<Arrival>)
    requires AllReadable(rs) && lo <= |rs|
    ensures AllFormed(arrivals[..0]) && AllDatagrams(rs, lo, lo) == [] && AllIn(arrivals[..0]) == []
  {
  }

  /** No empty arrival comes before one that is not empty. */
  predicate EmptiesLast(arrivals: seq<Arrival>) {
    forall i, j :: 0 <= i < j < |arrivals| && |arrivals[i].data| == 0 ==> |arrivals[j].data| == 0
  }

  lemma TakeFormed(arrivals: seq<Arrival>, k: nat)
    requires k <= |arrivals| && AllFormed(arrivals)
    ensures AllFormed(arrivals[..k]) && (k < |arrivals| ==> WellFormed(arrivals[k]))
  {
    hide WellFormed;
  }

  // Later arrivals add datagrams, and an arrival that is not empty adds at least one.
  lemma {:induction false} LaterAdds(arrivals: seq<Arrival>, z: nat, k: nat)
    requires z <= k <= |arrivals| && AllFormed(arrivals)
    ensures AllFormed(arrivals[..z]) && AllFormed(arrivals[..k])
    ensures |AllIn(arrivals[..z])| <= |AllIn(arrivals[..k])|
    ensures k > z && |arrivals[k - 1].data| > 0 ==> |AllIn(arrivals[..z])| < |AllIn(arrivals[..k])|
    decreases k
  {
    hide *;
    TakeFormed(arrivals, z);
    TakeFormed(arrivals, k);
    if z < k {
      TakeFormed(arrivals, k - 1);
      LaterAdds(arrivals, z, k - 1);
      AllInLast(arrivals, k);
      SomeDatagram(arrivals[k - 1]);
    }
  }

  lemma {:induction false} EmptyAddsNothing(arrivals: seq<Arrival>, z: nat, k: nat)
    requires z <= k <= |arrivals| && AllFormed(arrivals) && forall i :: z <= i < k ==> |arrivals[i].data| == 0
    ensures AllFormed(arrivals[..z]) && AllFormed(arrivals[..k])
    ensures AllIn(arrivals[..z]) == AllIn(arrivals[..k])
    decreases k
  {
    hide *;
    TakeFormed(arrivals, z);
    TakeFormed(arrivals, k);
    if z < k {
      TakeFormed(arrivals, k - 1);
      EmptyAddsNothing(arrivals, z, k - 1);
      AllInLast(arrivals, k);
      SomeDatagram(arrivals[k - 1]);
    }
  }

  lemma AllUpToEmpty(arrivals: seq<Arrival>)
    requires AllFormed(arrivals)
    ensures AllFormed(arrivals[..FirstEmpty(arrivals)])
    ensures AllIn(arrivals[..FirstEmpty(arrivals)]) == AllIn(arrivals) <==> EmptiesLast(arrivals)
  {
    hide WellFormed, AllIn, DatagramsIn, AllFormed, FirstEmpty;
    var z := FirstEmpty(arrivals);
    TakeFormed(arrivals, z);
    assert arrivals[..|arrivals|] == arrivals;
    if j :| z <= j < |arrivals| && |arrivals[j].data| > 0 {
      LaterAdds(arrivals, z, j + 1);
      LaterAdds(arrivals, j + 1, |arrivals|);
      assert !EmptiesLast(arrivals);
    } else {
      EmptyAddsNothing(arrivals, z, |arrivals|);
      assert EmptiesLast(arrivals);
    }
  }

  /** A receive with GRO returns all datagrams that arrived if and only if no message bursts and no
      empty datagram comes before one that is not empty. It overflows exactly when one bursts, and
      otherwise returns the datagrams before the first empty one. */
  lemma GroDelivers(rs: seq<Received>, bufs: seq<Slice>, lo: nat, arrivals: seq<Arrival>)
    requires LandedIn(rs, bufs, lo, arrivals)
    ensures AllReadable(rs) && lo <= |rs| && AllFormed(arrivals[..FirstEmpty(arrivals)])
    ensures (exists k :: Bursts(rs, lo, k)) <==> Run(rs, lo, []).Overflow?
    ensures !(exists k :: Bursts(rs, lo, k)) ==> Run(rs, lo, []) == Done(AllIn(arrivals[..FirstEmpty(arrivals)]))
    ensures Run(rs, lo, []) == Done(AllIn(arrivals)) <==> !(exists k :: Bursts(rs, lo, k)) && EmptiesLast(arrivals)
  {
    hide *;
    PrefixFormed(rs, bufs, lo, arrivals, FirstEmpty(arrivals));
    ReceivedLimit(rs, bufs, lo, arrivals);
    OverflowExactly(rs, lo);
    SplitDelivers(rs, lo);
    ReceivedSoFar(rs, bufs, lo, arrivals, FirstEmpty(arrivals));
    AllUpToEmpty(arrivals);
  }

  /** An empty datagram and then another message in one read: nothing is returned. */
  lemma EmptyHidesNext(rs: seq<Received>, bufs: seq<Slice>, lo: nat, empty: Arrival, next: Arrival)
    requires LandedIn(rs, bufs, lo, [empty, next]) && |empty.data| == 0 && |next.data| > 0
    ensures AllReadable(rs) && Run(rs, lo, []) == Done([]) && |AllIn([empty, next])| > 0
  {
    var arrivals := [empty, next];
    GroDelivers(rs, bufs, lo, arrivals);
    assert rs[lo].n == 0;
    AllUpToEmpty(arrivals);
    assert FirstEmpty(arrivals) == 0 && arrivals[..0] == [];
    assert !EmptiesLast(arrivals) by { assert |arrivals[0].data| == 0 && |arrivals[1].data| > 0; }
  }

  lemma AtMost64Each(rs: seq<Received>, bufs: seq<Slice>, lo: nat, arrivals: seq<Arrival>)
    requires LandedIn(rs, bufs, lo, arrivals)
    requires forall k :: 0 <= k < |arrivals| ==> |DatagramsIn(arrivals[k])| <= MAX_SEGMENTS
    ensures KernelReads(rs, lo)
  {
    hide GsoSize, DatagramsOf, DatagramsIn;
    forall k | lo <= k < |rs| && Splittable(rs[k]) ensures SegmentsIn(rs[k]) <= MAX_SEGMENTS {
      if k < lo + |arrivals| {
        SlotDatagrams(rs, bufs, lo, arrivals, k - lo);
      }
    }
  }

  /** With a batch size that is a multiple of 64, and a kernel that coalesces at most 64 datagrams into
      a message, a receive returns all datagrams exactly when no empty one comes before another. */
  lemma {:induction false} DefaultBatchDelivers(rs: seq<Received>, bufs: seq<Slice>, arrivals: seq<Arrival>)
    requires |rs| > 0 && |rs| % MAX_SEGMENTS == 0
    requires LandedIn(rs, bufs, |rs| - GroReadBatchSize(|rs|), arrivals)
    requires forall k :: 0 <= k < |arrivals| ==> |DatagramsIn(arrivals[k])| <= MAX_SEGMENTS
    ensures AllReadable(rs)
    ensures !Run(rs, |rs| - GroReadBatchSize(|rs|), []).Overflow?
    ensures Run(rs, |rs| - GroReadBatchSize(|rs|), []) == Done(AllIn(arrivals)) <==> EmptiesLast(arrivals)
  {
    hide *;
    var lo := |rs| - GroReadBatchSize(|rs|);
    GroDelivers(rs, bufs, lo, arrivals);
    SafeWindow(|rs|);
    AtMost64Each(rs, bufs, lo, arrivals);
    NeverHere(rs, GroReadBatchSize(|rs|));
  }

  // ---------------------------------------------------------------- the batching connection

  /** The messages with the whole control buffer offered to the kernel, from `lo` on. */
  function WithControl(was: seq<Message>, lo: nat): (msgs: seq<Message>)
    ensures |msgs| == |was|
  {
    seq(|was|, k requires 0 <= k < |was| => if k < lo then was[k] else was[k].(oob := was[k].oob.(len := |was[k].oob.mem|)))
  }

  method OpenControl(msgs: array<Message>, lo: nat)
    requires lo <= msgs.Length
    modifies msgs
    ensures msgs[..] == WithControl(old(msgs[..]), lo)
  {
    ghost var was := msgs[..];
    for i := lo to msgs.Length
      invariant forall k :: 0 <= k < msgs.Length ==> msgs[k] == if k < i then WithControl(was, lo)[k] else was[k]
    {
      msgs[i] := msgs[i].(oob := msgs[i].oob.(len := |msgs[i].oob.mem|));
    }
  }

  // The length of a control slice plays no part in what a slot holds.
  lemma OpenControlKeeps(mem: seq<byte>, was: seq<Message>, lo: nat, arrivals: seq<Arrival>)
    requires Layout(was, |mem|) && lo <= |was|
    ensures Layout(WithControl(was, lo), |mem|) && Opened(WithControl(was, lo), lo)
    ensures Slots(mem, WithControl(was, lo), lo, arrivals) == Slots(mem, was, lo, arrivals)
  {
    var msgs := WithControl(was, lo);
    forall k | 0 <= k < |was| ensures Slots(mem, msgs, lo, arrivals)[k] == Slots(mem, was, lo, arrivals)[k] {
      assert msgs[k].buffers == was[k].buffers && msgs[k].oob.mem == was[k].oob.mem;
      assert ReadIn(mem, msgs[k]) == ReadIn(mem, was[k]);
    }
  }

  predicate SameBuffers(m: Message, was: Message) { m.buffers == was.buffers && |m.oob.mem| == |was.oob.mem| }

  lemma SameRoomBuffers(msgs: seq<Message>, was: seq<Message>, lo: nat)
    requires |msgs| == |was| && lo <= |was| && forall k :: 0 <= k < |was| ==> SameRoom(msgs[k], WithControl(was, lo)[k])
    ensures forall k :: 0 <= k < |was| ==> SameBuffers(msgs[k], was[k])
  {
  }

  /** linuxBatchingConn.ReadBatch. With GRO it reads into the last two slots and splits whatever
      those slots then hold, also when only one message was read. */
  method ReadBatch(mem: array<byte>, msgs: array<Message>, rxOffload: bool, arrivals: seq<Arrival>, failed: bool)
    returns (n: nat, err: bool, ghost split: Option<SplitCall>)
    requires Layout(msgs[..], mem.Length)
    requires rxOffload && msgs.Length >= 2 ==> AllReadable(Slots(mem[..], msgs[..], msgs.Length - 2, arrivals))
    modifies mem, msgs
    ensures msgs.Length == 0 ==> n == 0 && !err
    ensures msgs.Length > 0 && failed ==> n == 0 && err && mem[..] == old(mem[..])
    ensures msgs.Length > 0 && !failed && (!rxOffload || msgs.Length < 2) ==>
              && !err && n == Min(|arrivals|, msgs.Length)
              && Layout(WithControl(old(msgs[..]), 0), mem.Length)
              && Filled(old(mem[..]), WithControl(old(msgs[..]), 0), mem[..], msgs[..], 0, arrivals, n)
    ensures msgs.Length >= 2 && !failed && rxOffload && |arrivals| == 0 ==> n == 0 && !err && mem[..] == old(mem[..])
    ensures msgs.Length >= 2 && !failed && rxOffload && |arrivals| > 0 ==>
              && split.Some? && split.value.Valid() && split.value.first == msgs.Length - 2 && |split.value.was| == msgs.Length
              && (forall k :: 0 <= k < msgs.Length ==>
                    SameBuffers(split.value.was[k], old(msgs[k])) && HoldsControl(split.value.was[k], split.value.rs[k]))
              && split.value.rs == old(Slots(mem[..], msgs[..], msgs.Length - 2, arrivals))
              && exists e :: Refines(split.value, mem[..], msgs[..], n, e) && (err <==> e != NoError)
  {
    hide *;
    split := None;
    if msgs.Length == 0 {
      return 0, false, split;
    }
    ghost var was := msgs[..];
    if !rxOffload || msgs.Length < 2 {
      OpenControl(msgs, 0);
      OpenControlKeeps(mem[..], was, 0, arrivals);
      if failed {
        return 0, true, split;
      }
      n := FillSlots(mem, msgs, 0, arrivals);
      return n, false, split;
    }
    var readAt := msgs.Length - 2;
    OpenControl(msgs, readAt);
    OpenControlKeeps(mem[..], was, readAt, arrivals);
    if failed || |arrivals| == 0 {
      return 0, failed, split;
    }
    var count, m, e;
    ghost var job;
    count, m, e, job := ReadAndSplit(mem, msgs, readAt, arrivals);
    n, err, split := m, e != NoError, Some(job);
    SameRoomBuffers(job.was, was, readAt);
  }

  /** A single message that fits the first of the two slots read into, and whose datagrams fit the
      slots up to that one. */
  ghost predicate ReadAlone(mem: seq<byte>, was: seq<Message>, a: Arrival) {
    && |was| >= 2 && Layout(was, |mem|) && AllReadable(Slots(mem, was, |was| - 2, [a]))
    && WellFormed(a) && |a.data| > 0 && |DatagramsIn(a)| <= |was| - 1
    && |a.data| <= was[|was| - 2].buffers[0].len && |a.control| <= |was[|was| - 2].oob.mem|
  }

  lemma AloneSlots(mem: seq<byte>, was: seq<Message>, a: Arrival)
    requires ReadAlone(mem, was, a)
    ensures var rs := Slots(mem, was, |was| - 2, [a]);
            && AllReadable(rs) && Splittable(rs[|was| - 2]) && rs[|was| - 1] == ReadIn(mem, was[|was| - 1])
            && DatagramsOf(rs[|was| - 2], GsoSize(rs[|was| - 2].control).bytes) == DatagramsIn(a)
  {
    hide GsoSize, RawSegments, Segments, Layout;
    var rs, at := Slots(mem, was, |was| - 2, [a]), |was| - 2;
    var r := rs[at];
    assert [a][at - at] == a;
    assert r in rs;
    assert a.control[..|a.control|] == a.control && a.data[..|a.data|] == a.data;
    assert r.control == a.control && r.n == |a.data| && r.store[..r.n] == a.data;
    RawSegmentsExact(r.store, r.n, GsoSize(a.control).bytes);
  }

  /** How the split after such a read ends. */
  ghost function SingleRead(mem: seq<byte>, was: seq<Message>, a: Arrival): Outcome
    requires ReadAlone(mem, was, a)
  {
    Run(Slots(mem, was, |was| - 2, [a]), |was| - 2, [])
  }

  lemma RunStep(rs: seq<Received>, i: nat, items: seq<Datagram>)
    requires AllReadable(rs) && |items| <= i < |rs| && rs[i].Valid() && Splittable(rs[i])
    requires |items| + |DatagramsOf(rs[i], GsoSize(rs[i].control).bytes)| <= i + 1
    ensures Run(rs, i, items) == Run(rs, i + 1, items + DatagramsOf(rs[i], GsoSize(rs[i].control).bytes))
  {
    hide GsoSize, DatagramsOf;
  }

  /** A read of one message: the batching connection returns that message's datagrams and no others if
      and only if the caller's last slot was marked empty before. */
  lemma {:induction false} StaleTail(mem: seq<byte>, was: seq<Message>, a: Arrival)
    requires ReadAlone(mem, was, a)
    ensures WellFormed(a) && |was| >= 2
    ensures SingleRead(mem, was, a) == Done(DatagramsIn(a)) <==> was[|was| - 1].n == 0
  {
    hide *;
    SingleReadIs(mem, was, a);
    AloneSlots(mem, was, a);
    TailKeepsSize(mem, was, a);
    var rs, items := Slots(mem, was, |was| - 2, [a]), DatagramsIn(a);
    InReadable(rs, rs[|was| - 2]);
    RunStep(rs, |was| - 2, []);
    assert [] + items == items;
    TailTaken(rs, items);
  }

  lemma SingleReadIs(mem: seq<byte>, was: seq<Message>, a: Arrival)
    requires ReadAlone(mem, was, a)
    ensures |was| >= 2 && Layout(was, |mem|) && WellFormed(a) && |DatagramsIn(a)| < |was|
    ensures AllReadable(Slots(mem, was, |was| - 2, [a]))
    ensures SingleRead(mem, was, a) == Run(Slots(mem, was, |was| - 2, [a]), |was| - 2, [])
  {
  }

  lemma TailKeepsSize(mem: seq<byte>, was: seq<Message>, a: Arrival)
    requires |was| >= 2 && Layout(was, |mem|)
    ensures Slots(mem, was, |was| - 2, [a])[|was| - 1].n == was[|was| - 1].n
  {
  }

  lemma TailTaken(rs: seq<Received>, items: seq<Datagram>)
    requires |rs| >= 2 && AllReadable(rs) && |items| < |rs|
    ensures Run(rs, |rs| - 1, items) == Done(items) <==> rs[|rs| - 1].n == 0
  {
    hide GsoSize;
    var r := rs[|rs| - 1];
    if r.n > 0 && GsoSize(r.control).Size? {
      var more := DatagramsOf(r, GsoSize(r.control).bytes);
      CursorStart(r, GsoSize(r.control).bytes);
      SomePiece(r, GsoSize(r.control).bytes);
      assert |more| > 0;
      if |items| + |more| <= |rs| {
        assert Run(rs, |rs|, items + more) == Done(items + more);
        assert |items + more| > |items|;
      }
    }
  }

  // The datagram a split delivers to its last slot, if it fills all.
  ghost function LastItem(call: SplitCall): Option<Datagram>
    requires call.Valid()
  {
    var items := Run(call.rs, call.first, []).items;
    if 0 < |items| == |call.was| then Some(items[|items| - 1]) else None
  }

  function Room(m: Message): nat { if |m.buffers| > 0 then m.buffers[0].len else 0 }

  /** The connection itself sets this up: after a read whose datagrams fill all slots, the last of
      them not empty, no read of a single message returns that message alone. */
  lemma {:induction false} FullReadGoesStale(call: SplitCall, mem: seq<byte>, msgs: seq<Message>, a: Arrival)
    requires call.Valid() && Refines(call, mem, msgs, |call.was|, NoError) && ReadAlone(mem, msgs, a)
    requires LastItem(call).Some? && |LastItem(call).value.data| > 0 && |msgs| >= 2 && Room(msgs[|msgs| - 1]) > 0
    ensures WellFormed(a) && SingleRead(mem, msgs, a) != Done(DatagramsIn(a))
  {
    hide *;
    StaleTail(mem, msgs, a);
    LastSlotFull(call, mem, msgs);
  }

  lemma {:induction false} LastSlotFull(call: SplitCall, mem: seq<byte>, msgs: seq<Message>)
    requires call.Valid() && Refines(call, mem, msgs, |call.was|, NoError) && |msgs| > 0
    requires LastItem(call).Some? && |LastItem(call).value.data| > 0 && Room(msgs[|msgs| - 1]) > 0
    ensures msgs[|msgs| - 1].n > 0
  {
    LayoutKept(call, msgs);
    SlotInLayout(msgs, |mem|, |msgs| - 1);
    hide Run, Layout, View;
    var items := Run(call.rs, call.first, []).items;
    assert Holds(mem, msgs[|items| - 1], items[|items| - 1]);
  }

  /** An arrival without control data that fits every slot. */
  predicate Small(a: Arrival, msgs: seq<Message>) {
    |a.data| > 0 && a.control == [] && forall k :: 0 <= k < |msgs| ==> |a.data| <= Room(msgs[k])
  }

  predicate Alone(r: Received, a: Arrival) {
    r.control == [] && 0 < r.n == |a.data| <= |r.store| && r.store[..r.n] == a.data && r.addr == Some(a.addr)
  }

  function Whole(a: Arrival): Datagram { Datagram(a.data, Some(a.addr)) }

  lemma {:induction false} AlonePiece(r: Received, a: Arrival)
    requires Alone(r, a)
    ensures r.Valid() && Splittable(r) && DatagramsOf(r, GsoSize(r.control).bytes) == [Whole(a)]
  {
    NoGroSize();
  }

  lemma {:induction false} AloneReads(rs: seq<Received>, x: Arrival, y: Arrival)
    requires |rs| == 2 && Alone(rs[0], x) && Alone(rs[1], y)
    ensures AllReadable(rs) && Run(rs, 0, []) == Done([Whole(x), Whole(y)])
  {
    AlonePiece(rs[0], x);
    AlonePiece(rs[1], y);
    hide Received.Valid, Splittable, DatagramsOf, GsoSize, Alone, Whole;
    RunStep(rs, 0, []);
    assert [] + [Whole(x)] == [Whole(x)];
    RunStep(rs, 1, [Whole(x)]);
    assert [Whole(x)] + [Whole(y)] == [Whole(x), Whole(y)];
  }

  lemma SmallLands(mem: seq<byte>, was: seq<Message>, arrivals: seq<Arrival>, k: nat)
    requires Layout(was, |mem|) && k < |was| && k < |arrivals| && Small(arrivals[k], was)
    ensures Alone(Slots(mem, was, 0, arrivals)[k], arrivals[k])
  {
    var a, r := arrivals[k], Slots(mem, was, 0, arrivals)[k];
    assert |a.data| <= Room(was[k]);
    assert arrivals[k - 0] == a && a.data[..|a.data|] == a.data;
    assert r == Land(a, View(mem, Storage(was[k])), was[k].buffers[0].len, |was[k].oob.mem|);
  }

  // What the first read leaves in a slot is found there by the next.
  lemma LeftInSlot(mem: seq<byte>, m: Message, was: Message, r: Received, a: Arrival)
    requires |m.buffers| > 0 && m.buffers[0].Valid(|mem|) && Holds(mem, m, Whole(a)) && 0 < |a.data| <= Room(m)
    requires HoldsControl(was, r) && r.control == [] && m.nn == was.nn && m.oob == was.oob
    ensures m.nn <= |m.oob.mem| && Alone(ReadIn(mem, m), a)
  {
    assert a.data[..|a.data|] == a.data;
    assert View(mem, Storage(m))[..m.n] == View(mem, m.buffers[0].(len := m.n));
  }

  lemma LayoutKept(call: SplitCall, msgs: seq<Message>)
    requires call.Valid() && call.SameSlots(msgs)
    ensures Layout(msgs, call.size)
  {
  }

  /** Two reads with the same two messages, first of two datagrams and then of one: the second read
      returns the second datagram once more. */
  method ReadTwice(mem: array<byte>, msgs: array<Message>, first: Arrival, second: Arrival, third: Arrival)
    returns (n: nat, err: bool)
    requires msgs.Length == 2 && Layout(msgs[..], mem.Length)
    requires Small(first, msgs[..]) && Small(second, msgs[..]) && Small(third, msgs[..])
    modifies mem, msgs
    ensures n == 2 && !err && Layout(msgs[..], mem.Length)
    ensures Holds(mem[..], msgs[0], Whole(third)) && Holds(mem[..], msgs[1], Whole(second))
  {
    hide *;
    ghost var was := msgs[..];
    BothLand(mem[..], was, first, second);
    ghost var split;
    n, err, split := ReadBatch(mem, msgs, true, [first, second], false);
    ghost var call := split.value;
    IsSplit2(call, mem[..], msgs[..], first, second);
    ReadBoth(call, mem[..], msgs[..], was, first, second, third);
    n, err, split := ReadBatch(mem, msgs, true, [third], false);
    IsSplit2(split.value, mem[..], msgs[..], third, second);
    ReadAgain(split.value, mem[..], msgs[..], n, err, third, second);
  }

  lemma BothLand(mem: seq<byte>, was: seq<Message>, x: Arrival, y: Arrival)
    requires |was| == 2 && Layout(was, |mem|) && Small(x, was) && Small(y, was)
    ensures var rs := Slots(mem, was, 0, [x, y]); AllReadable(rs) && Alone(rs[0], x) && Alone(rs[1], y)
  {
    SmallLands(mem, was, [x, y], 0);
    SmallLands(mem, was, [x, y], 1);
    AloneReads(Slots(mem, was, 0, [x, y]), x, y);
  }

  ghost predicate Split2(call: SplitCall, mem: seq<byte>, msgs: seq<Message>, x: Arrival, y: Arrival) {
    && call.Valid() && call.first == 0 && |call.was| == |call.rs| == 2 && Alone(call.rs[0], x) && Alone(call.rs[1], y)
    && (exists n, e :: Refines(call, mem, msgs, n, e))
  }

  lemma IsSplit2(call: SplitCall, mem: seq<byte>, msgs: seq<Message>, x: Arrival, y: Arrival)
    requires call.Valid() && call.first == 0 && |call.was| == |call.rs| == 2 && Alone(call.rs[0], x) && Alone(call.rs[1], y)
    requires exists n, e :: Refines(call, mem, msgs, n, e)
    ensures Split2(call, mem, msgs, x, y)
  {
  }

  lemma Split2Gives(call: SplitCall, mem: seq<byte>, msgs: seq<Message>, n: nat, e: SplitError, x: Arrival, y: Arrival)
    requires call.Valid() && call.first == 0 && |call.was| == |call.rs| == 2 && Alone(call.rs[0], x) && Alone(call.rs[1], y)
    requires Refines(call, mem, msgs, n, e)
    ensures n == 2 && e == NoError && |mem| == call.size && |msgs| == 2 && Layout(msgs, |mem|) && call.SameSlots(msgs)
    ensures Holds(mem, msgs[0], Whole(x)) && Holds(mem, msgs[1], Whole(y))
  {
    AloneReads(call.rs, x, y);
    hide Run, Alone;
    LayoutKept(call, msgs);
  }

  lemma ReadBoth(call: SplitCall, mem: seq<byte>, msgs: seq<Message>, was: seq<Message>, x: Arrival, y: Arrival, z: Arrival)
    requires Split2(call, mem, msgs, x, y) && |was| == 2 && Small(y, was) && Small(z, was)
    requires forall k :: 0 <= k < 2 ==> SameBuffers(call.was[k], was[k]) && HoldsControl(call.was[k], call.rs[k])
    ensures |msgs| == 2 && Layout(msgs, |mem|)
    ensures var rs := Slots(mem, msgs, 0, [z]); AllReadable(rs) && Alone(rs[0], z) && Alone(rs[1], y)
  {
    var n, e :| Refines(call, mem, msgs, n, e);
    Split2Gives(call, mem, msgs, n, e, x, y);
    hide Refines, Holds, Layout;
    assert Room(msgs[1]) == Room(was[1]) && Room(msgs[0]) == Room(was[0]);
    assert Small(z, msgs);
    SmallLands(mem, msgs, [z], 0);
    SlotInLayout(msgs, |mem|, 1);
    LeftInSlot(mem, msgs[1], call.was[1], call.rs[1], y);
    var rs := Slots(mem, msgs, 0, [z]);
    assert rs[1] == ReadIn(mem, msgs[1]);
    AloneReads(rs, z, y);
  }

  lemma SlotInLayout(msgs: seq<Message>, size: nat, k: nat)
    requires Layout(msgs, size) && k < |msgs|
    ensures |msgs[k].buffers| > 0 && msgs[k].buffers[0].Valid(size)
  {
  }

  lemma ReadAgain(call: SplitCall, mem: seq<byte>, msgs: seq<Message>, n: nat, err: bool, x: Arrival, y: Arrival)
    requires Split2(call, mem, msgs, x, y)
    requires exists e :: Refines(call, mem, msgs, n, e) && (err <==> e != NoError)
    ensures n == 2 && !err && |mem| == call.size && |msgs| == 2 && Layout(msgs, |mem|)
    ensures Holds(mem, msgs[0], Whole(x)) && Holds(mem, msgs[1], Whole(y))
  {
    var e :| Refines(call, mem, msgs, n, e) && (err <==> e != NoError);
    Split2Gives(call, mem, msgs, n, e, x, y);
  }

  lemma SomePiece(r: Received, size: nat)
    requires r.Valid() && r.n > 0 && size <= |r.store|
    ensures |RawSegments(r.store, r.n, size)| > 0
  {
  }
}
