/** splitCoalescedMessages: the in-place splitter, proved against a functional one. */
module Split {
  import opened Bytes
  import opened Control
  import opened Memory
  import opened Segmentation

  /** What a read left in one slot: the storage of its buffer, the number of bytes read, the control
      data and the sender. */
  datatype Received = Received(store: seq<byte>, n: nat, control: seq<byte>, addr: Option<Addr>) {
    // The kernel fills no more than the buffer; slicing it for the first segment must not panic.
    predicate Valid() {
      && n <= |store|
      && (GsoSize(control).Size? ==> GsoSize(control).bytes <= |store|)
    }
  }

  datatype Datagram = Datagram(data: seq<byte>, addr: Option<Addr>)

  /** The pieces the splitter cuts: the first one is `size` bytes long even when fewer were read. */
  function RawSegments(store: seq<byte>, n: nat, size: nat): seq<seq<byte>>
    requires 0 < n <= |store| && size <= |store|
  {
    if size > n then [store[..size]] else Segments(store[..n], size)
  }

  /** The splitter cuts the datagrams that were sent exactly when the segment size is at most the
      number of bytes read. */
  lemma RawSegmentsExact(store: seq<byte>, n: nat, size: nat)
    requires 0 < n <= |store| && size <= |store|
    ensures RawSegments(store, n, size) == Segments(store[..n], size) <==> size <= n
  {
    if size > n {
      assert |RawSegments(store, n, size)[0]| == size && |Segments(store[..n], size)[0]| == n;
    }
  }

  function DatagramsOf(r: Received, size: nat): (items: seq<Datagram>)
    requires r.Valid() && r.n > 0 && size <= |r.store|
    ensures |items| == |RawSegments(r.store, r.n, size)|
  {
    var segs := RawSegments(r.store, r.n, size);
    seq(|segs|, j requires 0 <= j < |segs| => Datagram(segs[j], r.addr))
  }

  predicate AllReadable(rs: seq<Received>) { forall r :: r in rs ==> r.Valid() }

  /** How a split ends, with the datagrams it delivered. */
  datatype Outcome = Done(items: seq<Datagram>) | Overflow(items: seq<Datagram>) | Malformed(items: seq<Datagram>)

  /** The functional splitter: read messages from slot `i` on, up to the first empty one. Message
      `i` may fill the slots up to and including its own. */
  function Run(rs: seq<Received>, i: nat, items: seq<Datagram>): (o: Outcome)
    requires AllReadable(rs)
    requires |items| <= i
    ensures i <= |rs| ==> |o.items| <= |rs|
    ensures items <= o.items
    decreases |rs| - i
  {
    if i >= |rs| || rs[i].n == 0 then Done(items)
    else match GsoSize(rs[i].control)
      case ParseError => Malformed(items)
      case Size(size) =>
        var more := DatagramsOf(rs[i], size);
        if |items| + |more| > i + 1 then Overflow(items + more[..i + 1 - |items|])
        else Run(rs, i + 1, items + more)
  }

  predicate NonEmpty(items: seq<Datagram>) { forall d :: d in items ==> |d.data| > 0 }

  lemma DatagramsNonEmpty(r: Received, size: nat)
    requires r.Valid() && r.n > 0 && size <= |r.store|
    ensures NonEmpty(DatagramsOf(r, size))
  {
    if size > 0 { ChunksNonEmpty(r.store[..r.n], size); }
    var segs := RawSegments(r.store, r.n, size);
    assert forall j :: 0 <= j < |segs| ==> segs[j] in segs;
    assert forall s :: s in segs ==> |s| > 0;
  }

  /** However the split ends, no datagram it delivers is empty. */
  lemma {:induction false} RunNonEmpty(rs: seq<Received>, i: nat, items: seq<Datagram>)
    requires AllReadable(rs) && |items| <= i && NonEmpty(items)
    ensures NonEmpty(Run(rs, i, items).items)
    decreases |rs| - i
  {
    hide GsoSize, DatagramsOf;
    if i < |rs| && rs[i].n > 0 && GsoSize(rs[i].control).Size? {
      assert rs[i] in rs && rs[i].Valid();
      var more := DatagramsOf(rs[i], GsoSize(rs[i].control).bytes);
      DatagramsNonEmpty(rs[i], GsoSize(rs[i].control).bytes);
      if |items| + |more| <= i + 1 { RunNonEmpty(rs, i + 1, items + more); }
    }
  }

  // ---------------------------------------------------------------- the slots in memory

  function Storage(m: Message): Slice
    requires |m.buffers| > 0
  {
    m.buffers[0].(len := m.buffers[0].cap)
  }

  ghost predicate Layout(msgs: seq<Message>, size: nat) {
    && (forall k :: 0 <= k < |msgs| ==>
          |msgs[k].buffers| > 0 && msgs[k].buffers[0].Valid(size) && msgs[k].nn <= |msgs[k].oob.mem|)
    && (forall j, k :: 0 <= j < k < |msgs| ==> Disjoint(msgs[j].buffers[0], msgs[k].buffers[0]))
  }

  ghost function ReadIn(mem: seq<byte>, m: Message): Received
    requires |m.buffers| > 0 && m.buffers[0].Valid(|mem|) && m.nn <= |m.oob.mem|
  {
    Received(View(mem, Storage(m)), m.n, m.oob.mem[..m.nn], m.addr)
  }

  ghost function AllRead(mem: seq<byte>, msgs: seq<Message>): (rs: seq<Received>)
    requires Layout(msgs, |mem|)
    ensures |rs| == |msgs| && forall k :: 0 <= k < |rs| ==> rs[k] == ReadIn(mem, msgs[k])
  {
    seq(|msgs|, k requires 0 <= k < |msgs| => ReadIn(mem, msgs[k]))
  }

  /** The datagram as far as it fits the slot's buffer. */
  function Fit(data: seq<byte>, room: nat): (fit: seq<byte>)
    ensures fit <= data && |fit| <= room && (|fit| == |data| || |fit| == room)
  {
    data[..Min(|data|, room)]
  }

  ghost predicate Holds(mem: seq<byte>, m: Message, it: Datagram)
    requires |m.buffers| > 0 && m.buffers[0].Valid(|mem|)
  {
    var data := Fit(it.data, m.buffers[0].len);
    && m.n == |data| && m.addr == it.addr
    && View(mem, m.buffers[0].(len := |data|)) == data
  }

  /** A call of the splitter: the slots as they were, what they held and where reading began. */
  datatype SplitCall = SplitCall(was: seq<Message>, rs: seq<Received>, first: nat, size: nat) {
    ghost predicate Valid() {
      && Layout(was, size) && |rs| == |was| && first <= |was|
      && (forall r :: r in rs ==> r.Valid())
    }

    /** The buffers of the slots. */
    ghost function Room(): (room: seq<Slice>)
      requires Valid()
      ensures |room| == |was| && forall k :: 0 <= k < |was| ==> |was[k].buffers| > 0 && room[k] == was[k].buffers[0]
    {
      seq(|was|, k requires 0 <= k < |was| => was[k].buffers[0])
    }

    /** Only the lengths and senders of slots change. */
    ghost predicate SameSlots(msgs: seq<Message>) {
      && |msgs| == |was|
      && forall k :: 0 <= k < |was| ==> msgs[k] == was[k].(n := msgs[k].n, addr := msgs[k].addr)
    }

    /** Slots up to `|items|` are delivered, those up to `i` are used up, those from `i` on unread. */
    ghost predicate Progress(mem: seq<byte>, msgs: seq<Message>, items: seq<Datagram>, i: nat)
      requires Valid()
    {
      && first <= i <= |was| && |items| <= i && |mem| == size && SameSlots(msgs)
      && Delivered(mem, msgs, items)
      && (forall k :: |items| <= k < i ==> msgs[k] == if k < first then was[k] else was[k].(n := 0, addr := msgs[k].addr))
      && (forall k :: i <= k < |was| ==> Unread(mem, msgs, k))
    }

    ghost predicate Delivered(mem: seq<byte>, msgs: seq<Message>, items: seq<Datagram>)
      requires Valid() && |items| <= |was| && |mem| == size && SameSlots(msgs)
    {
      forall k :: 0 <= k < |items| ==> Holds(mem, msgs[k], items[k])
    }

    ghost predicate Unread(mem: seq<byte>, msgs: seq<Message>, k: nat)
      requires Valid() && |mem| == size && SameSlots(msgs) && k < |was|
    {
      msgs[k] == was[k] && ReadIn(mem, msgs[k]) == rs[k]
    }

    /** Within message `i`: its storage is intact as long as slot `i` has not been filled. */
    ghost predicate Inner(mem: seq<byte>, msgs: seq<Message>, items: seq<Datagram>, i: nat)
      requires Valid()
    {
      && first <= i < |was| && |items| <= i + 1 && |mem| == size && SameSlots(msgs)
      && Delivered(mem, msgs, items)
      && (forall k :: |items| <= k < i ==> msgs[k] == if k < first then was[k] else was[k].(n := 0, addr := msgs[k].addr))
      && (|items| <= i ==> Unread(mem, msgs, i))
      && (forall k :: i < k < |was| ==> Unread(mem, msgs, k))
    }
  }

  lemma StartInner(job: SplitCall, mem: seq<byte>, msgs: seq<Message>, items: seq<Datagram>, i: nat)
    requires job.Valid() && job.Progress(mem, msgs, items, i) && i < |job.was|
    ensures job.Inner(mem, msgs, items, i)
  {
  }

  /** Slot `n` after copying `it` into its buffer. */
  ghost predicate Copied(job: SplitCall, mem: seq<byte>, msgs: seq<Message>, mem': seq<byte>, msgs': seq<Message>, n: nat, it: Datagram)
    requires job.Valid() && n < |job.was| && |mem| == |mem'| == job.size && job.SameSlots(msgs)
  {
    var slot := job.was[n].buffers[0];
    && msgs' == msgs[n := msgs[n].(n := |Fit(it.data, slot.len)|, addr := it.addr)]
    && SameOutside(mem, mem', slot.off, slot.off + |Fit(it.data, slot.len)|)
    && View(mem', slot.(len := |Fit(it.data, slot.len)|)) == Fit(it.data, slot.len)
  }

  lemma HoldsElsewhere(job: SplitCall, mem: seq<byte>, msgs: seq<Message>, mem': seq<byte>, msgs': seq<Message>, n: nat, it: Datagram, k: nat, other: Datagram)
    requires job.Valid() && n < |job.was| && k < |job.was| && k != n
    requires |mem| == |mem'| == job.size && job.SameSlots(msgs) && Copied(job, mem, msgs, mem', msgs', n, it)
    requires Holds(mem, msgs[k], other)
    ensures msgs'[k] == msgs[k] && Holds(mem', msgs'[k], other)
  {
    var slot := job.was[n].buffers[0];
    assert Disjoint(job.was[k].buffers[0], slot);
    ViewStable(mem, mem', slot.off, slot.off + |Fit(it.data, slot.len)|, job.was[k].buffers[0].(len := msgs[k].n));
  }

  lemma UnreadElsewhere(job: SplitCall, mem: seq<byte>, msgs: seq<Message>, mem': seq<byte>, msgs': seq<Message>, n: nat, it: Datagram, k: nat)
    requires job.Valid() && n < |job.was| && k < |job.was| && k != n
    requires |mem| == |mem'| == job.size && job.SameSlots(msgs) && Copied(job, mem, msgs, mem', msgs', n, it)
    requires job.Unread(mem, msgs, k)
    ensures job.SameSlots(msgs') && job.Unread(mem', msgs', k)
  {
    var slot := job.was[n].buffers[0];
    assert Disjoint(job.was[k].buffers[0], slot);
    ViewStable(mem, mem', slot.off, slot.off + |Fit(it.data, slot.len)|, Storage(job.was[k]));
  }

  /** Delivering one more datagram of message `i` keeps every byte that is still to be read. */
  lemma CopyStep(job: SplitCall, mem: seq<byte>, msgs: seq<Message>, mem': seq<byte>, msgs': seq<Message>, items: seq<Datagram>, i: nat, it: Datagram)
    requires job.Valid() && job.Inner(mem, msgs, items, i) && |items| <= i
    requires |mem'| == job.size && Copied(job, mem, msgs, mem', msgs', |items|, it)
    ensures job.Inner(mem', msgs', items + [it], i)
  {
    hide Holds, View, ReadIn, SameOutside, Fit, Disjoint, SplitCall.Unread;
    var n := |items|;
    var items' := items + [it];
    SlotsKept(job, mem, msgs, mem', msgs', n, it);
    forall k | 0 <= k < |items'| ensures Holds(mem', msgs'[k], items'[k]) {
      if k < n {
        HoldsElsewhere(job, mem, msgs, mem', msgs', n, it, k, items[k]);
      }
    }
    if n + 1 <= i { UnreadElsewhere(job, mem, msgs, mem', msgs', n, it, i); }
    forall k | i < k < |job.was| ensures job.Unread(mem', msgs', k) {
      UnreadElsewhere(job, mem, msgs, mem', msgs', n, it, k);
    }
  }

  lemma SlotsKept(job: SplitCall, mem: seq<byte>, msgs: seq<Message>, mem': seq<byte>, msgs': seq<Message>, n: nat, it: Datagram)
    requires job.Valid() && n < |job.was| && |mem| == |mem'| == job.size && job.SameSlots(msgs)
    requires Copied(job, mem, msgs, mem', msgs', n, it)
    ensures job.SameSlots(msgs') && msgs'[n].buffers == job.was[n].buffers
    ensures |msgs'[n].buffers| > 0 && msgs'[n].buffers[0].Valid(|mem'|) && Holds(mem', msgs'[n], it)
    ensures forall k :: 0 <= k < |msgs| && k != n ==> msgs'[k] == msgs[k]
  {
  }

  /** After its last datagram a message that was not itself the last destination is marked empty. */
  lemma FinishInner(job: SplitCall, mem: seq<byte>, msgs: seq<Message>, items: seq<Datagram>, i: nat)
    requires job.Valid() && job.Inner(mem, msgs, items, i)
    ensures job.Progress(mem, if i != |items| - 1 then msgs[i := msgs[i].(n := 0)] else msgs, items, i + 1)
  {
    hide Holds, ReadIn;
    var msgs' := if i != |items| - 1 then msgs[i := msgs[i].(n := 0)] else msgs;
    assert job.SameSlots(msgs');
    forall k | i < k < |job.was| ensures job.Unread(mem, msgs', k) {
      assert job.Unread(mem, msgs, k);
    }
  }

  // ---------------------------------------------------------------- the in-place loop

  lemma PieceAt(store: seq<byte>, n: nat, size: nat, start: nat)
    requires 0 < size && start < n <= |store|
    ensures var pieces := Chunks(store[start..n], size);
            && |pieces| > 0 && pieces[0] == store[start..Min(start + size, n)]
            && (start + size < n ==> pieces[1..] == Chunks(store[start + size..n], size))
            && (start + size >= n ==> |pieces| == 1)
  {
    if start + size < n {
      SliceOfSlice(store, start, n, 0, size);
      SliceOfSlice(store, start, n, size, n - start);
    }
  }

  /** Where the inner loop stands in message `r`: the next piece is `store[start..end]`. */
  ghost predicate Cursor(r: Received, size: nat, j: nat, start: nat, end: nat)
    requires r.Valid() && r.n > 0 && size <= |r.store|
  {
    var segs := RawSegments(r.store, r.n, size);
    && j <= |segs|
    && (j < |segs| ==> start <= end <= |r.store| && segs[j] == r.store[start..end])
    && (0 < j < |segs| || (0 == j && 0 < size <= r.n) ==>
          && 0 < size && start < r.n && end == Min(start + size, r.n)
          && Chunks(r.store[start..r.n], size) == segs[j..])
  }

  function SegmentCount(n: nat, size: nat): nat
    requires size > 0
  {
    (n + size - 1) / size
  }

  lemma CursorStart(r: Received, size: nat)
    requires r.Valid() && r.n > 0 && size <= |r.store|
    ensures Cursor(r, size, 0, 0, if size > 0 then size else r.n)
    ensures |RawSegments(r.store, r.n, size)| == if size > 0 then SegmentCount(r.n, size) else 1
  {
    assert r.store[0..r.n] == r.store[..r.n];
    if 0 < size <= r.n {
      PieceAt(r.store, r.n, size, 0);
      ChunkCount(r.store[..r.n], size);
    } else if size > r.n {
      DivUnique(r.n + size - 1, size, 1, r.n - 1);
    }
  }

  lemma CursorStep(r: Received, size: nat, j: nat, start: nat, end: nat)
    requires r.Valid() && r.n > 0 && size <= |r.store| && Cursor(r, size, j, start, end)
    requires j < |RawSegments(r.store, r.n, size)|
    ensures Cursor(r, size, j + 1, end, if end + size > r.n then r.n else end + size)
  {
    var segs := RawSegments(r.store, r.n, size);
    if 0 < size <= r.n {
      PieceAt(r.store, r.n, size, start);
      if j + 1 < |segs| {
        assert segs[j..][1..] == segs[j + 1..];
        PieceAt(r.store, r.n, size, end);
      }
    }
  }

  datatype SplitError = NoError | OverflowError | ParseFailed

  method CopySegment(mem: array<byte>, msgs: array<Message>, n: nat, i: nat, start: nat, end: nat,
                     ghost job: SplitCall, ghost items: seq<Datagram>, ghost first: seq<byte>)
    requires job.Valid() && job.Inner(mem[..], msgs[..], items, i) && n == |items| <= i < msgs.Length
    requires i < |job.rs| && start <= end <= |job.rs[i].store| && SameBeyond(first, mem[..], job.Room())
    modifies mem, msgs
    ensures SameBeyond(first, mem[..], job.Room())
    ensures job.Inner(mem[..], msgs[..], items + [Datagram(job.rs[i].store[start..end], job.rs[i].addr)], i)
  {
    hide *;
    ghost var mem0, msgs0 := mem[..], msgs[..];
    ghost var it := Datagram(job.rs[i].store[start..end], job.rs[i].addr);
    SourceFacts(job, mem0, msgs0, items, i);
    var dst, src := msgs[n].buffers[0], msgs[i].buffers[0];
    var copied := Min(dst.len, end - start);
    Copy(mem, dst.off, src.off + start, copied);
    SameAfter(first, mem0, mem[..], dst.off, dst.off + copied, job.Room(), n);
    msgs[n] := msgs[n].(n := copied);
    msgs[n] := msgs[n].(addr := msgs[i].addr);
    CopiedHere(job, mem0, msgs0, mem[..], items, i, start, end);
    assert msgs[..] == msgs0[n := msgs0[n].(n := copied, addr := it.addr)];
    CopyStep(job, mem0, msgs0, mem[..], msgs[..], items, i, it);
  }

  lemma SourceFacts(job: SplitCall, mem: seq<byte>, msgs: seq<Message>, items: seq<Datagram>, i: nat)
    requires job.Valid() && job.Inner(mem, msgs, items, i) && |items| <= i
    ensures |mem| == job.size && |msgs| == |job.was| == |job.rs| && job.SameSlots(msgs)
    ensures i < |msgs| && |msgs[i].buffers| > 0 && |msgs[|items|].buffers| > 0
    ensures var src, dst := msgs[i].buffers[0], msgs[|items|].buffers[0];
            && src.off + src.cap <= |mem| && dst.len <= dst.cap && dst.off + dst.cap <= |mem|
            && msgs[i].addr == job.rs[i].addr && |job.rs[i].store| == src.cap
            && job.rs[i].store == mem[src.off..src.off + src.cap]
            && dst == job.was[|items|].buffers[0]
  {
    assert job.Unread(mem, msgs, i);
  }

  lemma CopiedHere(job: SplitCall, mem: seq<byte>, msgs: seq<Message>, mem': seq<byte>, items: seq<Datagram>, i: nat, start: nat, end: nat)
    requires job.Valid() && job.Inner(mem, msgs, items, i) && |items| <= i && |msgs| == |job.was| == |job.rs|
    requires i < |job.rs| && start <= end <= |job.rs[i].store| && |mem'| == job.size
    requires |msgs[i].buffers| > 0 && |msgs[|items|].buffers| > 0
    requires var src, dst := msgs[i].buffers[0], msgs[|items|].buffers[0];
             var k := Min(dst.len, end - start);
             && src.off + start + k <= |mem| && dst.off + k <= |mem'|
             && SameOutside(mem, mem', dst.off, dst.off + k)
             && mem'[dst.off..dst.off + k] == mem[src.off + start..src.off + start + k]
    ensures var n := |items|;
            var it := Datagram(job.rs[i].store[start..end], job.rs[i].addr);
            |mem| == job.size && job.SameSlots(msgs) &&
            Copied(job, mem, msgs, mem', msgs[n := msgs[n].(n := Min(msgs[n].buffers[0].len, end - start), addr := it.addr)], n, it)
  {
    hide SplitCall.Inner, SplitCall.Valid, SplitCall.SameSlots, Layout, ReadIn;
    SourceFacts(job, mem, msgs, items, i);
    var src, dst := msgs[i].buffers[0], msgs[|items|].buffers[0];
    var k := Min(dst.len, end - start);
    SliceOfSlice(mem, src.off, src.off + src.cap, start, start + k);
    assert job.rs[i].store[start..end][..k] == job.rs[i].store[start..start + k];
  }

  /** Splits message `i` into the slots from `n` on. */
  method SplitMessage(mem: array<byte>, msgs: array<Message>, i: nat, n: nat, gsoSize: nat,
                      ghost job: SplitCall, ghost items: seq<Datagram>, ghost first: seq<byte>)
    returns (next: nat, overflow: bool)
    requires job.Valid() && job.Inner(mem[..], msgs[..], items, i) && n == |items| <= i < msgs.Length == |job.was|
    requires msgs[i].n == job.rs[i].n > 0 && gsoSize <= |job.rs[i].store| && SameBeyond(first, mem[..], job.Room())
    modifies mem, msgs
    ensures SameBeyond(first, mem[..], job.Room())
    ensures var more := DatagramsOf(job.rs[i], gsoSize);
            && overflow == (n + |more| > i + 1)
            && (overflow ==> next == i + 1 && job.Inner(mem[..], msgs[..], items + more[..i + 1 - n], i))
            && (!overflow ==> next == n + |more| && job.Inner(mem[..], msgs[..], items + more, i))
  {
    hide *;
    next := n;
    JobFacts(job, i);
    ghost var r := job.rs[i];
    ghost var more := DatagramsOf(r, gsoSize);
    var start: nat, end: nat, numToSplit := 0, msgs[i].n, 1;
    var size := msgs[i].n;
    if gsoSize > 0 {
      numToSplit := SegmentCount(size, gsoSize);
      end := gsoSize;
    }
    CursorStart(r, gsoSize);
    assert items + more[..0] == items;
    for j := 0 to numToSplit
      invariant numToSplit == |more| && next == n + j <= i + 1
      invariant job.Inner(mem[..], msgs[..], items + more[..j], i) && SameBeyond(first, mem[..], job.Room())
      invariant Cursor(r, gsoSize, j, start, end)
    {
      if next > i {
        return next, true;
      }
      CursorFacts(r, gsoSize, j, start, end);
      CopySegment(mem, msgs, next, i, start, end, job, items + more[..j], first);
      assert items + more[..j + 1] == items + more[..j] + [more[j]];
      CursorStep(r, gsoSize, j, start, end);
      start := end;
      end := end + gsoSize;
      if end > size {
        end := size;
      }
      next := next + 1;
    }
    assert more[..|more|] == more;
    overflow := false;
  }

  lemma JobFacts(job: SplitCall, i: nat)
    requires job.Valid() && i < |job.was|
    ensures i < |job.rs| && job.rs[i].Valid()
  {
  }

  lemma CursorFacts(r: Received, size: nat, j: nat, start: nat, end: nat)
    requires r.Valid() && r.n > 0 && size <= |r.store| && Cursor(r, size, j, start, end)
    requires j < |RawSegments(r.store, r.n, size)|
    ensures start <= end <= |r.store| && DatagramsOf(r, size)[j] == Datagram(r.store[start..end], r.addr)
  {
  }

  /** The first slot from `i` on that holds nothing, where reading stops. */
  function Stop(rs: seq<Received>, i: nat): (z: nat)
    requires i <= |rs|
    ensures i <= z <= |rs| && (z < |rs| ==> rs[z].n == 0) && forall k :: i <= k < z ==> rs[k].n > 0
    decreases |rs| - i
  {
    if i == |rs| || rs[i].n == 0 then i else Stop(rs, i + 1)
  }

  ghost predicate Readable(mem: seq<byte>, msgs: seq<Message>, first: nat) {
    && Layout(msgs, |mem|) && first <= |msgs|
    && forall r :: r in AllRead(mem, msgs) ==> r.Valid()
  }

  ghost function CallOf(mem: seq<byte>, msgs: seq<Message>, first: nat): (job: SplitCall)
    requires Readable(mem, msgs, first)
    ensures job.Valid()
  {
    SplitCall(msgs, AllRead(mem, msgs), first, |mem|)
  }

  function ErrorOf(o: Outcome): SplitError {
    match o case Done(_) => NoError case Overflow(_) => OverflowError case Malformed(_) => ParseFailed
  }

  /** The slots deliver what the functional splitter does, and on success the slots that were read
      and are not themselves delivered are empty and all others are as they were. */
  ghost predicate Refines(job: SplitCall, mem: seq<byte>, msgs: seq<Message>, n: nat, err: SplitError)
    requires job.Valid()
  {
    var o := Run(job.rs, job.first, []);
    && |mem| == job.size && job.SameSlots(msgs)
    && n == |o.items| && err == ErrorOf(o)
    && job.Delivered(mem, msgs, o.items)
    && (err == NoError ==> job.Progress(mem, msgs, o.items, Stop(job.rs, job.first)))
  }

  /** The in-place splitter refines the functional one. */
  method SplitCoalescedMessages(mem: array<byte>, msgs: array<Message>, firstMsgAt: nat)
    returns (n: nat, err: SplitError)
    requires Readable(mem[..], msgs[..], firstMsgAt)
    modifies mem, msgs
    ensures Refines(CallOf(old(mem[..]), old(msgs[..]), firstMsgAt), mem[..], msgs[..], n, err)
    ensures SameBeyond(old(mem[..]), mem[..], CallOf(old(mem[..]), old(msgs[..]), firstMsgAt).Room())
  {
    hide *;
    ghost var job := CallOf(mem[..], msgs[..], firstMsgAt);
    JobStart(mem[..], msgs[..], firstMsgAt);
    SameItself(mem[..], job.Room());
    ghost var items: seq<Datagram> := [];
    n := 0;
    for i := firstMsgAt to msgs.Length
      invariant n == |items|
      invariant job.Progress(mem[..], msgs[..], items, i) && SameBeyond(old(mem[..]), mem[..], job.Room())
      invariant Ahead(job, items, i)
    {
      UnreadFacts(job, mem[..], msgs[..], items, i);
      if msgs[i].n == 0 {
        StopHere(job, mem[..], msgs[..], items, i);
        return n, NoError;
      }
      var size := GetGSOSize(msgs[i].oob.mem[..msgs[i].nn]);
      if size.ParseError? {
        MalformedHere(job, mem[..], msgs[..], items, i);
        return n, ParseFailed;
      }
      StartInner(job, mem[..], msgs[..], items, i);
      var next, overflow := SplitMessage(mem, msgs, i, n, size.bytes, job, items, old(mem[..]));
      ghost var more := DatagramsOf(job.rs[i], size.bytes);
      if overflow {
        OverflowHere(job, mem[..], msgs[..], items, i);
        return next, OverflowError;
      }
      GoOn(job, items, i);
      items := items + more;
      n := next;
      FinishInner(job, mem[..], msgs[..], items, i);
      if i != n - 1 {
        ghost var msgs0 := msgs[..];
        msgs[i] := msgs[i].(n := 0);
        assert msgs[..] == msgs0[i := msgs0[i].(n := 0)];
      }
    }
    StopHere(job, mem[..], msgs[..], items, msgs.Length);
    err := NoError;
  }

  /** What is still to be done from message `i` on completes the whole run. */
  ghost predicate Ahead(job: SplitCall, items: seq<Datagram>, i: nat)
    requires job.Valid()
  {
    && |items| <= i <= |job.rs|
    && Run(job.rs, job.first, []) == Run(job.rs, i, items)
    && Stop(job.rs, job.first) == Stop(job.rs, i)
  }

  lemma StopHere(job: SplitCall, mem: seq<byte>, msgs: seq<Message>, items: seq<Datagram>, i: nat)
    requires job.Valid() && job.Progress(mem, msgs, items, i) && Ahead(job, items, i)
    requires i == |job.was| || job.rs[i].n == 0
    ensures Refines(job, mem, msgs, |items|, NoError)
  {
  }

  lemma MalformedHere(job: SplitCall, mem: seq<byte>, msgs: seq<Message>, items: seq<Datagram>, i: nat)
    requires job.Valid() && job.Progress(mem, msgs, items, i) && Ahead(job, items, i)
    requires i < |job.was| && job.rs[i].n > 0 && GsoSize(job.rs[i].control).ParseError?
    ensures Refines(job, mem, msgs, |items|, ParseFailed)
  {
    hide GsoSize;
  }

  lemma OverflowHere(job: SplitCall, mem: seq<byte>, msgs: seq<Message>, items: seq<Datagram>, i: nat)
    requires job.Valid() && Ahead(job, items, i) && |items| <= i < |job.was|
    requires job.rs[i].n > 0 && GsoSize(job.rs[i].control).Size?
    requires var more := DatagramsOf(job.rs[i], GsoSize(job.rs[i].control).bytes);
             |items| + |more| > i + 1 && job.Inner(mem, msgs, items + more[..i + 1 - |items|], i)
    ensures Refines(job, mem, msgs, i + 1, OverflowError)
  {
    hide GsoSize, Holds, RawSegments;
  }

  lemma GoOn(job: SplitCall, items: seq<Datagram>, i: nat)
    requires job.Valid() && Ahead(job, items, i) && |items| <= i < |job.was|
    requires job.rs[i].n > 0 && GsoSize(job.rs[i].control).Size?
    requires |items| + |DatagramsOf(job.rs[i], GsoSize(job.rs[i].control).bytes)| <= i + 1
    ensures Ahead(job, items + DatagramsOf(job.rs[i], GsoSize(job.rs[i].control).bytes), i + 1)
  {
    hide GsoSize, RawSegments;
  }

  lemma JobStart(mem: seq<byte>, msgs: seq<Message>, first: nat)
    requires Readable(mem, msgs, first)
    ensures var job := CallOf(mem, msgs, first);
            && first <= |msgs| && |job.was| == |job.rs| == |msgs|
            && job.Progress(mem, msgs, [], first) && Ahead(job, [], first)
  {
  }

  lemma UnreadFacts(job: SplitCall, mem: seq<byte>, msgs: seq<Message>, items: seq<Datagram>, i: nat)
    requires job.Valid() && job.Progress(mem, msgs, items, i) && i < |job.was|
    ensures |job.rs| == |job.was| == |msgs| && |items| <= i && job.rs[i].Valid() && msgs[i].nn <= |msgs[i].oob.mem|
    ensures |mem| == job.size && job.SameSlots(msgs) && job.Delivered(mem, msgs, items)
    ensures msgs[i].n == job.rs[i].n && msgs[i].oob.mem[..msgs[i].nn] == job.rs[i].control
    ensures GsoSize(job.rs[i].control).Size? ==> GsoSize(job.rs[i].control).bytes <= |job.rs[i].store|
  {
    assert job.Unread(mem, msgs, i);
  }
}
