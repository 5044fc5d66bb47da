/** StdNetBind.receiveIP: reading into pooled messages, splitting, and handing out the datagrams. */
module Receive {
  import opened Bytes
  import opened Control
  import opened Memory
  import opened Address
  import opened Send
  import opened Split
  import opened Window

  /** A message waiting in the kernel. */
  datatype Arrival = Arrival(data: seq<byte>, control: seq<byte>, addr: Addr)

  /** What a slot holds after a message was read into it: as much as its buffers take. */
  function Land(a: Arrival, store: seq<byte>, room: nat, controlRoom: nat): (r: Received)
    requires room <= |store|
    ensures r.n == Min(|a.data|, room)
  {
    Received(Fit(a.data, room) + store[Min(|a.data|, room)..], Min(|a.data|, room), Fit(a.control, controlRoom), Some(a.addr))
  }

  function LandIn(m: Message, a: Arrival): Message
    requires |m.buffers| > 0
  {
    var c := Min(|a.control|, |m.oob.mem|);
    m.(n := Min(|a.data|, m.buffers[0].len), nn := c, addr := Some(a.addr),
       oob := m.oob.(mem := a.control[..c] + m.oob.mem[c..]))
  }

  /** The slots `[lo, lo + count)` received the first arrivals, the others are as they were. */
  ghost predicate Filled(mem0: seq<byte>, was: seq<Message>, mem: seq<byte>, msgs: seq<Message>, lo: nat, arrivals: seq<Arrival>, count: nat)
    requires Layout(was, |mem0|) && count <= |arrivals| && lo + count <= |was|
  {
    && |mem| == |mem0| && |msgs| == |was|
    && (forall k :: 0 <= k < |was| ==> SlotFilled(mem0, was, mem, msgs, lo, arrivals, count, k))
  }

  ghost predicate SlotFilled(mem0: seq<byte>, was: seq<Message>, mem: seq<byte>, msgs: seq<Message>, lo: nat, arrivals: seq<Arrival>, count: nat, k: nat)
    requires Layout(was, |mem0|) && count <= |arrivals| && |mem| == |mem0| && k < |was| == |msgs|
  {
    var store := View(mem0, Storage(was[k]));
    if lo <= k < lo + count then
      var a := arrivals[k - lo];
      && msgs[k] == LandIn(was[k], a)
      && View(mem, Storage(was[k])) == Land(a, store, was[k].buffers[0].len, |was[k].oob.mem|).store
    else msgs[k] == was[k] && View(mem, Storage(was[k])) == store
  }

  method WriteBytes(mem: array<byte>, at: nat, data: seq<byte>)
    requires at + |data| <= mem.Length
    modifies mem
    ensures SameOutside(old(mem[..]), mem[..], at, at + |data|)
    ensures mem[..][at..at + |data|] == data
  {
    forall k | 0 <= k < |data| { mem[at + k] := data[k]; }
  }

  lemma FillStep(mem0: seq<byte>, was: seq<Message>, mem: seq<byte>, msgs: seq<Message>, mem': seq<byte>, lo: nat, arrivals: seq<Arrival>, i: nat)
    requires Layout(was, |mem0|) && i < |arrivals| && lo + i < |was|
    requires Filled(mem0, was, mem, msgs, lo, arrivals, i)
    requires var slot := was[lo + i].buffers[0];
             var data := Fit(arrivals[i].data, slot.len);
             SameOutside(mem, mem', slot.off, slot.off + |data|) && mem'[slot.off..slot.off + |data|] == data
    ensures Filled(mem0, was, mem', msgs[lo + i := LandIn(was[lo + i], arrivals[i])], lo, arrivals, i + 1)
  {
    var t := lo + i;
    var slot := was[t].buffers[0];
    var data := Fit(arrivals[i].data, slot.len);
    var msgs', next := msgs[t := LandIn(was[t], arrivals[i])], i + 1;
    forall k | 0 <= k < |was| ensures SlotFilled(mem0, was, mem', msgs', lo, arrivals, next, k) {
      assert SlotFilled(mem0, was, mem, msgs, lo, arrivals, i, k);
      if k == t {
        FilledStore(mem, mem', slot, data);
      } else {
        assert Disjoint(was[k].buffers[0], slot);
        ViewStable(mem, mem', slot.off, slot.off + |data|, Storage(was[k]));
      }
    }
  }

  lemma FilledStore(mem: seq<byte>, mem': seq<byte>, slot: Slice, data: seq<byte>)
    requires slot.Valid(|mem|) && |data| <= slot.cap
    requires SameOutside(mem, mem', slot.off, slot.off + |data|) && mem'[slot.off..slot.off + |data|] == data
    ensures View(mem', slot.(len := slot.cap)) == data + View(mem, slot.(len := slot.cap))[|data|..]
  {
    var all := slot.(len := slot.cap);
    var v := View(mem', all);
    assert v[..|data|] == mem'[slot.off..slot.off + |data|];
    assert v[|data|..] == View(mem, all)[|data|..];
    assert v == v[..|data|] + v[|data|..];
  }

  /** The buffers read into. */
  ghost function FirstBuffers(msgs: seq<Message>): (room: seq<Slice>)
    requires forall k :: 0 <= k < |msgs| ==> |msgs[k].buffers| > 0
    ensures |room| == |msgs| && forall k :: 0 <= k < |msgs| ==> room[k] == msgs[k].buffers[0]
  {
    seq(|msgs|, k requires 0 <= k < |msgs| => msgs[k].buffers[0])
  }

  /** The control slices from `lo` on reach to the end of their arrays, so that the kernel may fill those. */
  predicate Opened(msgs: seq<Message>, lo: nat) { forall k :: lo <= k < |msgs| ==> msgs[k].oob.len == |msgs[k].oob.mem| }

  /** The kernel fills slots from `lo` on with what has arrived. */
  method FillSlots(mem: array<byte>, msgs: array<Message>, lo: nat, arrivals: seq<Arrival>) returns (count: nat)
    requires Layout(msgs[..], mem.Length) && lo <= msgs.Length && Opened(msgs[..], lo)
    modifies mem, msgs
    ensures count == Min(|arrivals|, msgs.Length - lo) && SameBeyond(old(mem[..]), mem[..], FirstBuffers(old(msgs[..])))
    ensures Filled(old(mem[..]), old(msgs[..]), mem[..], msgs[..], lo, arrivals, count)
  {
    hide SlotFilled, SameOutside, SameBeyond, FirstBuffers;
    count := Min(|arrivals|, msgs.Length - lo);
    ghost var mem0, was := mem[..], msgs[..];
    ghost var room := FirstBuffers(was);
    NothingFilled(mem0, was, lo, arrivals);
    SameItself(mem0, room);
    for i := 0 to count
      invariant Filled(mem0, was, mem[..], msgs[..], lo, arrivals, i) && SameBeyond(mem0, mem[..], room)
    {
      ghost var mem1, msgs1 := mem[..], msgs[..];
      NotYetFilled(mem0, was, mem1, msgs1, lo, arrivals, i);
      var a, m := arrivals[i], msgs[lo + i];
      WriteBytes(mem, m.buffers[0].off, Fit(a.data, m.buffers[0].len));
      SameAfter(mem0, mem1, mem[..], m.buffers[0].off, m.buffers[0].off + |Fit(a.data, m.buffers[0].len)|, room, lo + i);
      msgs[lo + i] := LandIn(m, a);
      FillStep(mem0, was, mem1, msgs1, mem[..], lo, arrivals, i);
      assert msgs[..] == msgs1[lo + i := LandIn(was[lo + i], a)];
    }
  }

  lemma NothingFilled(mem: seq<byte>, msgs: seq<Message>, lo: nat, arrivals: seq<Arrival>)
    requires Layout(msgs, |mem|) && lo <= |msgs|
    ensures Filled(mem, msgs, mem, msgs, lo, arrivals, 0)
  {
  }

  lemma NotYetFilled(mem0: seq<byte>, was: seq<Message>, mem: seq<byte>, msgs: seq<Message>, lo: nat, arrivals: seq<Arrival>, i: nat)
    requires Layout(was, |mem0|) && i < |arrivals| && lo + i < |was| && Filled(mem0, was, mem, msgs, lo, arrivals, i)
    ensures msgs[lo + i] == was[lo + i]
    ensures |msgs[lo + i].buffers| > 0 && msgs[lo + i].buffers[0].Valid(|mem|)
  {
    assert SlotFilled(mem0, was, mem, msgs, lo, arrivals, i, lo + i);
  }

  /** What the splitter finds after such a read. */
  lemma FilledRead(mem0: seq<byte>, was: seq<Message>, mem: seq<byte>, msgs: seq<Message>, lo: nat, arrivals: seq<Arrival>, count: nat, k: nat)
    requires Layout(was, |mem0|) && count <= |arrivals| && lo + count <= |was| && k < |was|
    requires Filled(mem0, was, mem, msgs, lo, arrivals, count)
    ensures |msgs[k].buffers| > 0 && msgs[k].buffers == was[k].buffers && msgs[k].buffers[0].Valid(|mem|) && msgs[k].nn <= |msgs[k].oob.mem|
    ensures |msgs[k].oob.mem| == |was[k].oob.mem|
    ensures ReadIn(mem, msgs[k]) ==
            if lo <= k < lo + count then Land(arrivals[k - lo], View(mem0, Storage(was[k])), was[k].buffers[0].len, |was[k].oob.mem|)
            else ReadIn(mem0, was[k])
  {
    assert SlotFilled(mem0, was, mem, msgs, lo, arrivals, count, k);
    if lo <= k < lo + count {
      var a := arrivals[k - lo];
      var c := Min(|a.control|, |was[k].oob.mem|);
      assert msgs[k].oob.mem[..c] == Fit(a.control, |was[k].oob.mem|);
    }
  }

  /** The slots after the kernel filled those from `lo` on. */
  ghost function Slots(mem0: seq<byte>, was: seq<Message>, lo: nat, arrivals: seq<Arrival>): (rs: seq<Received>)
    requires Layout(was, |mem0|) && lo <= |was|
    ensures |rs| == |was|
  {
    seq(|was|, k requires 0 <= k < |was| =>
      if lo <= k < lo + |arrivals| then Land(arrivals[k - lo], View(mem0, Storage(was[k])), was[k].buffers[0].len, |was[k].oob.mem|)
      else ReadIn(mem0, was[k]))
  }

  lemma FilledSlots(mem0: seq<byte>, was: seq<Message>, mem: seq<byte>, msgs: seq<Message>, lo: nat, arrivals: seq<Arrival>)
    requires Layout(was, |mem0|) && lo <= |was|
    requires Filled(mem0, was, mem, msgs, lo, arrivals, Min(|arrivals|, |was| - lo))
    ensures |mem| == |mem0| && Layout(msgs, |mem|) && AllRead(mem, msgs) == Slots(mem0, was, lo, arrivals)
    ensures forall k :: 0 <= k < |was| ==> SameRoom(msgs[k], was[k])
  {
    var count := Min(|arrivals|, |was| - lo);
    forall k | 0 <= k < |was|
      ensures |msgs[k].buffers| > 0 && msgs[k].buffers[0].Valid(|mem|) && msgs[k].nn <= |msgs[k].oob.mem|
      ensures SameRoom(msgs[k], was[k])
      ensures ReadIn(mem, msgs[k]) == Slots(mem0, was, lo, arrivals)[k]
    {
      FilledRead(mem0, was, mem, msgs, lo, arrivals, count, k);
      assert SlotFilled(mem0, was, mem, msgs, lo, arrivals, count, k);
    }
  }

  // ---------------------------------------------------------------- reading with GRO

  predicate SameRoom(m: Message, was: Message) {
    m.buffers == was.buffers && |m.oob.mem| == |was.oob.mem| && m.oob.len == was.oob.len
  }

  /** Reads into the slots from `readAt` on and splits what arrived over all slots. */
  method ReadAndSplit(mem: array<byte>, msgs: array<Message>, readAt: nat, arrivals: seq<Arrival>)
    returns (count: nat, n: nat, err: SplitError, ghost split: SplitCall)
    requires Layout(msgs[..], mem.Length) && readAt <= msgs.Length && Opened(msgs[..], readAt)
    requires AllReadable(Slots(mem[..], msgs[..], readAt, arrivals))
    modifies mem, msgs
    ensures count == Min(|arrivals|, msgs.Length - readAt)
    ensures split.Valid() && split.rs == old(Slots(mem[..], msgs[..], readAt, arrivals)) && split.first == readAt && split.size == mem.Length
    ensures |split.was| == msgs.Length
    ensures forall k :: 0 <= k < msgs.Length ==> SameRoom(split.was[k], old(msgs[k])) && HoldsControl(split.was[k], split.rs[k])
    ensures Refines(split, mem[..], msgs[..], n, err) && SameBeyond(old(mem[..]), mem[..], FirstBuffers(old(msgs[..])))
  {
    hide *;
    ghost var mem0, was := mem[..], msgs[..];
    LayoutFirst(was, mem.Length);
    count := FillSlots(mem, msgs, readAt, arrivals);
    ghost var mem1 := mem[..];
    FilledSlots(mem0, was, mem[..], msgs[..], readAt, arrivals);
    BecomesReadable(mem[..], msgs[..], readAt);
    split := CallOf(mem[..], msgs[..], readAt);
    CallIs(mem[..], msgs[..], readAt);
    ControlsHeld(split, mem[..]);
    SameRoomSlots(split, was);
    n, err := SplitCoalescedMessages(mem, msgs, readAt);
    SameTransitive(mem0, mem1, mem[..], FirstBuffers(was));
  }

  lemma LayoutFirst(msgs: seq<Message>, size: nat)
    requires Layout(msgs, size)
    ensures forall k :: 0 <= k < |msgs| ==> |msgs[k].buffers| > 0
  {
  }

  lemma SameRoomSlots(split: SplitCall, was: seq<Message>)
    requires split.Valid() && |split.was| == |was| && forall k :: 0 <= k < |was| ==> |was[k].buffers| > 0 && SameRoom(split.was[k], was[k])
    ensures split.Room() == FirstBuffers(was)
  {
  }

  predicate HoldsControl(m: Message, r: Received) { m.nn <= |m.oob.mem| && r.control == m.oob.mem[..m.nn] }

  lemma ControlsHeld(split: SplitCall, mem: seq<byte>)
    requires Layout(split.was, |mem|) && split.rs == AllRead(mem, split.was)
    ensures forall k :: 0 <= k < |split.was| ==> HoldsControl(split.was[k], split.rs[k])
  {
  }

  lemma BecomesReadable(mem: seq<byte>, msgs: seq<Message>, first: nat)
    requires Layout(msgs, |mem|) && first <= |msgs| && AllReadable(AllRead(mem, msgs))
    ensures Readable(mem, msgs, first)
  {
  }

  lemma CallIs(mem: seq<byte>, msgs: seq<Message>, first: nat)
    requires Readable(mem, msgs, first) && Layout(msgs, |mem|)
    ensures CallOf(mem, msgs, first) == SplitCall(msgs, AllRead(mem, msgs), first, |mem|)
  {
  }

  // ---------------------------------------------------------------- handing out

  datatype Endpoint = Endpoint(addr: Addr, src: Buffer)

  function Unmap(a: Addr): Addr { if IsIPv4Mapped(a.ip) then a.(ip := a.ip[12..]) else a }

  /** The endpoint of a message: its sender, and the source found in the slot's own control data. */
  function EndpointOf(m: Message): Endpoint
    requires m.addr.Some? && m.nn <= |m.oob.mem|
  {
    Endpoint(Unmap(m.addr.value), SrcAfter(Buffer([], 0), m.oob.mem[..m.nn]))
  }

  /** An endpoint's address is that of the sender: the same port, and the same bytes but for an IPv4 address
      in its IPv6 form (ten zeros and two bytes of 255 in front), of which it has the last four. */
  predicate SameSender(sender: Addr, addr: Addr) {
    && addr.port == sender.port
    && (if |sender.ip| == 16 && (forall i :: 0 <= i < 10 ==> sender.ip[i] == 0) && sender.ip[10] == 255 && sender.ip[11] == 255
        then addr.ip == sender.ip[12..] else addr.ip == sender.ip)
  }

  lemma UnmapKeeps(a: Addr)
    ensures SameSender(a, Unmap(a))
  {
    if |a.ip| == 16 { MappedIs(a.ip); }
  }

  /** Entry `i` of the caller's lists describes message `m`: its size, its sender and the source its control
      data names; an empty message leaves its endpoint. */
  ghost predicate Described(m: Message, size: nat, ep: Option<Endpoint>, before: Option<Endpoint>)
    requires (m.n > 0 ==> m.addr.Some?) && m.nn <= |m.oob.mem|
  {
    && size == m.n
    && if m.n > 0 then ep.Some? && SameSender(m.addr.value, ep.value.addr) && ep.value.src == SrcAfter(Buffer([], 0), m.oob.mem[..m.nn])
       else ep == before
  }

  method HandOut(msgs: array<Message>, n: nat, sizes: array<nat>, eps: array<Option<Endpoint>>)
    requires n <= msgs.Length && n <= sizes.Length && n <= eps.Length
    requires forall i :: 0 <= i < n ==> (msgs[i].n > 0 ==> msgs[i].addr.Some?) && msgs[i].nn <= |msgs[i].oob.mem|
    modifies sizes, eps
    ensures forall i :: 0 <= i < n ==> Described(msgs[i], sizes[i], eps[i], old(eps[i]))
    ensures forall i :: n <= i < sizes.Length ==> sizes[i] == old(sizes[i])
    ensures forall i :: n <= i < eps.Length ==> eps[i] == old(eps[i])
  {
    for i := 0 to n
      invariant forall j :: 0 <= j < i ==> Described(msgs[j], sizes[j], eps[j], old(eps[j]))
      invariant forall j :: i <= j < sizes.Length ==> sizes[j] == old(sizes[j])
      invariant forall j :: i <= j < eps.Length ==> eps[j] == old(eps[j])
    {
      sizes[i] := msgs[i].n;
      if sizes[i] == 0 {
        continue;
      }
      eps[i] := Some(EndpointOf(msgs[i]));
      UnmapKeeps(msgs[i].addr.value);
    }
  }

  // ---------------------------------------------------------------- receiveIP

  /** Pooled messages with the caller's buffers, ready to be read into. */
  ghost predicate Prepared(was: seq<Message>, msgs: seq<Message>, bufs: seq<Slice>, n: nat)
    requires n <= |was| <= |bufs|
  {
    && |msgs| == |was|
    && (forall k :: 0 <= k < n ==> msgs[k] == was[k].(buffers := [bufs[k]], oob := was[k].oob.(len := |was[k].oob.mem|)))
    && (forall k :: n <= k < |was| ==> msgs[k] == was[k])
  }

  method Prepare(msgs: array<Message>, bufs: seq<Slice>)
    requires msgs.Length <= |bufs| && InUse(msgs[..])
    modifies msgs
    ensures Prepared(old(msgs[..]), msgs[..], bufs, msgs.Length)
  {
    ghost var was := msgs[..];
    for i := 0 to msgs.Length
      invariant Prepared(was, msgs[..], bufs, i)
    {
      msgs[i] := msgs[i].(buffers := msgs[i].buffers[0 := bufs[i]]);
      assert msgs[i].buffers == [bufs[i]];
      msgs[i] := msgs[i].(oob := msgs[i].oob.(len := |msgs[i].oob.mem|));
    }
  }

  /** Slots ready for a read: empty, over the caller's buffers, their control slices opened. */
  ghost predicate Ready(msgs: seq<Message>, bufs: seq<Slice>) {
    && |msgs| <= |bufs| && InUse(msgs) && Opened(msgs, 0)
    && forall k :: 0 <= k < |msgs| ==> msgs[k].buffers == [bufs[k]] && msgs[k].n == 0 && msgs[k].nn == 0
  }

  lemma PreparedReady(was: seq<Message>, msgs: seq<Message>, bufs: seq<Slice>, size: nat)
    requires Clean(was) && |was| <= |bufs| && Prepared(was, msgs, bufs, |was|) && AllValid(bufs, size) && AllDisjoint(bufs)
    ensures Ready(msgs, bufs) && Layout(msgs, size)
  {
    forall j, k | 0 <= j < k < |msgs| ensures Disjoint(msgs[j].buffers[0], msgs[k].buffers[0]) {
      assert Disjoint(bufs[j], bufs[k]);
    }
  }

  /** The slots over empty pooled messages: only what was read is there. */
  ghost predicate FreshSlots(rs: seq<Received>, bufs: seq<Slice>, lo: nat, arrivals: seq<Arrival>) {
    && |rs| <= |bufs| && lo <= |rs|
    && (forall k :: 0 <= k < |rs| && !(lo <= k < lo + |arrivals|) ==> rs[k].n == 0)
    && (forall k :: lo <= k < |rs| && k < lo + |arrivals| ==>
          var a := arrivals[k - lo];
          && rs[k].n == Min(|a.data|, bufs[k].len) <= |rs[k].store| == bufs[k].cap && rs[k].store[..rs[k].n] == Fit(a.data, bufs[k].len)
          && rs[k].control == Fit(a.control, CONTROL_CAPACITY) && rs[k].addr == Some(a.addr))
  }

  lemma ReadySlots(mem: seq<byte>, msgs: seq<Message>, bufs: seq<Slice>, lo: nat, arrivals: seq<Arrival>)
    requires Ready(msgs, bufs) && Layout(msgs, |mem|) && lo <= |msgs|
    ensures FreshSlots(Slots(mem, msgs, lo, arrivals), bufs, lo, arrivals)
  {
  }

  // No segment size reaches beyond the buffer its message lands in.
  ghost predicate SizesFit(bufs: seq<Slice>, lo: nat, batchSize: nat, arrivals: seq<Arrival>) {
    forall k :: 0 <= k < |arrivals| && lo + k < batchSize <= |bufs| ==>
      var c := GsoSize(Fit(arrivals[k].control, CONTROL_CAPACITY)); c.Size? ==> c.bytes <= bufs[lo + k].cap
  }

  lemma SlotsReadable(rs: seq<Received>, mem: seq<byte>, msgs: seq<Message>, bufs: seq<Slice>, lo: nat, arrivals: seq<Arrival>)
    requires Ready(msgs, bufs) && Layout(msgs, |mem|) && lo <= |msgs| && SizesFit(bufs, lo, |msgs|, arrivals)
    requires rs == Slots(mem, msgs, lo, arrivals)
    ensures AllReadable(rs)
  {
    hide GsoSize;
    ReadySlots(mem, msgs, bufs, lo, arrivals);
    NoGroSize();
    forall k | 0 <= k < |rs| ensures rs[k].Valid() {
      if lo <= k < lo + |arrivals| {
        assert lo + (k - lo) == k;
      } else {
        assert rs[k] == ReadIn(mem, msgs[k]);
        assert rs[k].control == [];
      }
    }
  }

  lemma NoGroSize()
    ensures GsoSize([]) == Size(0)
  {
  }

  lemma StaysInUse(was: seq<Message>, msgs: seq<Message>, bufs: seq<Slice>)
    requires Ready(was, bufs) && |msgs| == |was| && forall k :: 0 <= k < |was| ==> SameRoom(msgs[k], was[k])
    ensures InUse(msgs)
  {
  }

  lemma SplitStaysInUse(split: SplitCall, mem: seq<byte>, msgs: seq<Message>, n: nat, err: SplitError)
    requires split.Valid() && InUse(split.was) && Refines(split, mem, msgs, n, err)
    ensures InUse(msgs) && n <= |msgs| == |split.was| && |mem| == split.size
    ensures forall k :: 0 <= k < |msgs| ==> msgs[k].nn <= |msgs[k].oob.mem| && msgs[k].buffers == split.was[k].buffers
  {
    hide Holds, Run;
  }

  /** The caller's entry for one datagram: its bytes as far as they fit, its length, its sender. */
  ghost predicate Given(mem: seq<byte>, buf: Slice, size: nat, ep: Option<Endpoint>, d: Datagram)
    requires buf.Valid(|mem|)
  {
    var data := Fit(d.data, buf.len);
    && size == |data| && View(mem, buf.(len := size)) == data
    && (size > 0 ==> d.addr.Some? && ep.Some? && SameSender(d.addr.value, ep.value.addr))
  }

  ghost predicate AllGiven(mem: seq<byte>, bufs: seq<Slice>, sizes: seq<nat>, eps: seq<Option<Endpoint>>, out: seq<Datagram>)
    requires AllValid(bufs, |mem|)
  {
    && |out| <= |bufs| && |out| <= |sizes| && |out| <= |eps|
    && forall i :: 0 <= i < |out| ==> Given(mem, bufs[i], sizes[i], eps[i], out[i])
  }

  predicate Addressed(rs: seq<Received>) { forall r :: r in rs && r.n > 0 ==> r.addr.Some? }

  lemma {:induction false} RunAddressed(rs: seq<Received>, i: nat, items: seq<Datagram>)
    requires AllReadable(rs) && Addressed(rs) && |items| <= i && forall d :: d in items ==> d.addr.Some?
    ensures forall d :: d in Run(rs, i, items).items ==> d.addr.Some?
    decreases |rs| - i
  {
    hide GsoSize, RawSegments;
    if i < |rs| && rs[i].n > 0 && GsoSize(rs[i].control).Size? {
      var more := DatagramsOf(rs[i], GsoSize(rs[i].control).bytes);
      if |items| + |more| <= i + 1 { RunAddressed(rs, i + 1, items + more); }
    }
  }

  lemma SlotsAddressed(rs: seq<Received>, bufs: seq<Slice>, lo: nat, arrivals: seq<Arrival>)
    requires FreshSlots(rs, bufs, lo, arrivals)
    ensures Addressed(rs)
  {
  }

  // What the splitter delivered is what the caller is given.
  lemma DeliveredGiven(mem: seq<byte>, msgs: seq<Message>, bufs: seq<Slice>, sizes: seq<nat>, eps: seq<Option<Endpoint>>, before: seq<Option<Endpoint>>, out: seq<Datagram>)
    requires AllValid(bufs, |mem|) && |out| <= |msgs| <= |bufs| && |out| <= |sizes| && |out| <= |eps| == |before|
    requires forall i :: 0 <= i < |msgs| ==> msgs[i].buffers == [bufs[i]] && msgs[i].nn <= |msgs[i].oob.mem|
    requires forall i :: 0 <= i < |out| ==> Holds(mem, msgs[i], out[i]) && (msgs[i].n > 0 ==> msgs[i].addr.Some?)
    requires forall i :: 0 <= i < |out| ==> Described(msgs[i], sizes[i], eps[i], before[i])
    ensures AllGiven(mem, bufs, sizes, eps, out)
  {
    forall i | 0 <= i < |out| ensures Given(mem, bufs[i], sizes[i], eps[i], out[i]) {
      assert Holds(mem, msgs[i], out[i]) && Described(msgs[i], sizes[i], eps[i], before[i]);
    }
  }

  /** What a receive that hands out `n` entries leaves alone: the memory beyond the caller's buffers, the
      entries from `n` on, and the endpoints of entries of size 0. */
  ghost predicate Beside(bufs: seq<Slice>, n: nat, mem0: seq<byte>, sizes0: seq<nat>, eps0: seq<Option<Endpoint>>,
                         mem: seq<byte>, sizes: seq<nat>, eps: seq<Option<Endpoint>>)
  {
    && SameBeyond(mem0, mem, bufs) && |sizes| == |sizes0| && |eps| == |eps0|
    && (forall i :: n <= i < |sizes| ==> sizes[i] == sizes0[i])
    && (forall i :: 0 <= i < |eps| && (i >= n || i >= |sizes| || sizes[i] == 0) ==> eps[i] == eps0[i])
  }

  lemma NothingBeside(bufs: seq<Slice>, mem: seq<byte>, sizes: seq<nat>, eps: seq<Option<Endpoint>>, mem0: seq<byte>)
    requires SameBeyond(mem0, mem, bufs)
    ensures Beside(bufs, 0, mem0, sizes, eps, mem, sizes, eps)
  {
  }

  lemma DescribedBeside(msgs: seq<Message>, bufs: seq<Slice>, n: nat, mem0: seq<byte>, sizes0: seq<nat>, eps0: seq<Option<Endpoint>>,
                        mem: seq<byte>, sizes: seq<nat>, eps: seq<Option<Endpoint>>)
    requires n <= |msgs| <= |bufs| && n <= |sizes| == |sizes0| && n <= |eps| == |eps0| && SameBeyond(mem0, mem, bufs[..|msgs|])
    requires forall i :: 0 <= i < n ==> (msgs[i].n > 0 ==> msgs[i].addr.Some?) && msgs[i].nn <= |msgs[i].oob.mem|
    requires forall i :: 0 <= i < n ==> Described(msgs[i], sizes[i], eps[i], eps0[i])
    requires forall i :: n <= i < |sizes| ==> sizes[i] == sizes0[i]
    requires forall i :: n <= i < |eps| ==> eps[i] == eps0[i]
    ensures Beside(bufs, n, mem0, sizes0, eps0, mem, sizes, eps)
  {
    MoreRoom(mem0, mem, bufs, |msgs|);
    hide EndpointOf, SameBeyond;
  }

  lemma MoreRoom(a: seq<byte>, b: seq<byte>, bufs: seq<Slice>, n: nat)
    requires n <= |bufs| && SameBeyond(a, b, bufs[..n])
    ensures SameBeyond(a, b, bufs)
  {
    forall k | 0 <= k < |a| && !Stored(bufs, k) ensures !Stored(bufs[..n], k) {
    }
  }

  lemma ReadyRoom(msgs: seq<Message>, bufs: seq<Slice>)
    requires Ready(msgs, bufs)
    ensures (forall k :: 0 <= k < |msgs| ==> |msgs[k].buffers| > 0) && |msgs| <= |bufs| && FirstBuffers(msgs) == bufs[..|msgs|]
    ensures forall lo: nat :: Opened(msgs, lo)
  {
  }

  datatype ReceiveResult = Delivered | TooShort | ReadFailed | SplitFailed(err: SplitError)

  /** The part of receiveIP that reads with GRO, given prepared messages. */
  method ReceiveGro(mem: array<byte>, msgs: array<Message>, bufs: seq<Slice>, sizes: array<nat>, eps: array<Option<Endpoint>>,
                    arrivals: seq<Arrival>)
    returns (n: nat, r: ReceiveResult, ghost rs: seq<Received>)
    requires Ready(msgs[..], bufs) && Layout(msgs[..], mem.Length) && AllValid(bufs, mem.Length)
    requires 1 < msgs.Length <= sizes.Length && msgs.Length <= eps.Length
    requires SizesFit(bufs, msgs.Length - GroReadBatchSize(msgs.Length), msgs.Length, arrivals)
    modifies mem, msgs, sizes, eps
    ensures InUse(msgs[..])
    ensures var readAt := msgs.Length - GroReadBatchSize(msgs.Length);
            && |rs| == msgs.Length && FreshSlots(rs, bufs, readAt, arrivals) && AllReadable(rs)
            && (match Run(rs, readAt, [])
                case Done(out) => r == Delivered && n == |out| && AllGiven(mem[..], bufs, sizes[..], eps[..], out) && NonEmpty(out)
                case Overflow(_) => r == SplitFailed(OverflowError) && n == 0
                case Malformed(_) => r == SplitFailed(ParseFailed) && n == 0)
    ensures Beside(bufs, n, old(mem[..]), old(sizes[..]), old(eps[..]), mem[..], sizes[..], eps[..])
  {
    hide *;
    var readAt := msgs.Length - GroReadBatchSize(msgs.Length);
    ghost var mem0, was, sizes0, before := mem[..], msgs[..], sizes[..], eps[..];
    ReadyRoom(was, bufs);
    rs := Slots(mem0, was, readAt, arrivals);
    ReadySlots(mem0, was, bufs, readAt, arrivals);
    SlotsReadable(rs, mem0, was, bufs, readAt, arrivals);
    var count, num, err;
    ghost var split;
    count, num, err, split := ReadAndSplit(mem, msgs, readAt, arrivals);
    StaysInUse(was, split.was, bufs);
    SplitStaysInUse(split, mem[..], msgs[..], num, err);
    SplitOutcome(split, mem[..], msgs[..], num, err, was, bufs, arrivals);
    StartsNonEmpty(rs, readAt);
    if err != NoError {
      MoreRoom(mem0, mem[..], bufs, |was|);
      NothingBeside(bufs, mem[..], sizes0, before, mem0);
      return 0, SplitFailed(err), rs;
    }
    n, r := num, Delivered;
    HandOut(msgs, num, sizes, eps);
    DeliveredGiven(mem[..], msgs[..], bufs, sizes[..], eps[..], before, Run(rs, readAt, []).items);
    DescribedBeside(msgs[..], bufs, num, mem0, sizes0, before, mem[..], sizes[..], eps[..]);
  }

  lemma StartsNonEmpty(rs: seq<Received>, i: nat)
    requires AllReadable(rs)
    ensures NonEmpty(Run(rs, i, []).items)
  {
    RunNonEmpty(rs, i, []);
  }

  lemma SplitOutcome(split: SplitCall, mem: seq<byte>, msgs: seq<Message>, n: nat, err: SplitError, was: seq<Message>, bufs: seq<Slice>, arrivals: seq<Arrival>)
    requires split.Valid() && InUse(split.was) && Refines(split, mem, msgs, n, err)
    requires Ready(was, bufs) && |split.was| == |was| && (forall k :: 0 <= k < |was| ==> SameRoom(split.was[k], was[k]))
    requires AllReadable(split.rs) && FreshSlots(split.rs, bufs, split.first, arrivals)
    ensures |msgs| == |was| == |split.rs| <= |bufs|
    ensures forall k :: 0 <= k < |msgs| ==> msgs[k].buffers == [bufs[k]]
    ensures AllValid(bufs[..|msgs|], |mem|)
    ensures var out := Run(split.rs, split.first, []).items;
            && n == |out| <= |msgs|
            && err == ErrorOf(Run(split.rs, split.first, []))
            && (err == NoError <==> Run(split.rs, split.first, []).Done?)
            && (err == OverflowError <==> Run(split.rs, split.first, []).Overflow?)
            && (forall i :: 0 <= i < n ==> Holds(mem, msgs[i], out[i]) && (msgs[i].n > 0 ==> msgs[i].addr.Some?))
  {
    SlotsAddressed(split.rs, bufs, split.first, arrivals);
    RunAddressed(split.rs, split.first, []);
    hide GsoSize, Received.Valid, FreshSlots;
  }

  /** Messages read without GRO are handed out as they came. */
  function AsRead(arrivals: seq<Arrival>): (out: seq<Datagram>)
    ensures |out| == |arrivals| && forall k :: 0 <= k < |out| ==> out[k] == Datagram(arrivals[k].data, Some(arrivals[k].addr))
  {
    seq(|arrivals|, k requires 0 <= k < |arrivals| => Datagram(arrivals[k].data, Some(arrivals[k].addr)))
  }

  lemma PlainHolds(mem0: seq<byte>, was: seq<Message>, mem: seq<byte>, msgs: seq<Message>, arrivals: seq<Arrival>, count: nat, k: nat)
    requires Layout(was, |mem0|) && count <= |arrivals| && count <= |was| && k < count
    requires Filled(mem0, was, mem, msgs, 0, arrivals, count)
    ensures |msgs[k].buffers| > 0 && msgs[k].buffers[0].Valid(|mem|) && msgs[k].addr.Some?
    ensures Holds(mem, msgs[k], Datagram(arrivals[k].data, Some(arrivals[k].addr)))
  {
    assert SlotFilled(mem0, was, mem, msgs, 0, arrivals, count, k);
    var slot := was[k].buffers[0];
    var data := Fit(arrivals[k].data, slot.len);
    var all := View(mem, Storage(was[k]));
    assert all[..|data|] == data;
    assert View(mem, slot.(len := |data|)) == all[..|data|];
  }

  /** The parts of receiveIP that read without GRO, given prepared messages. */
  method ReceivePlain(mem: array<byte>, msgs: array<Message>, bufs: seq<Slice>, sizes: array<nat>, eps: array<Option<Endpoint>>,
                      arrivals: seq<Arrival>)
    returns (n: nat)
    requires Ready(msgs[..], bufs) && Layout(msgs[..], mem.Length) && AllValid(bufs, mem.Length)
    requires msgs.Length <= sizes.Length && msgs.Length <= eps.Length
    modifies mem, msgs, sizes, eps
    ensures InUse(msgs[..]) && n == Min(|arrivals|, msgs.Length)
    ensures AllGiven(mem[..], bufs, sizes[..], eps[..], AsRead(arrivals[..n])) && SourcesGiven(sizes[..], eps[..], arrivals[..n])
    ensures Beside(bufs, n, old(mem[..]), old(sizes[..]), old(eps[..]), mem[..], sizes[..], eps[..])
  {
    hide *;
    ghost var mem0, was, sizes0, before := mem[..], msgs[..], sizes[..], eps[..];
    ReadyRoom(was, bufs);
    n := FillSlots(mem, msgs, 0, arrivals);
    FilledSlots(mem0, was, mem[..], msgs[..], 0, arrivals);
    StaysInUse(was, msgs[..], bufs);
    PlainRead(mem0, was, mem[..], msgs[..], bufs, arrivals, n);
    HandOut(msgs, n, sizes, eps);
    DeliveredGiven(mem[..], msgs[..], bufs, sizes[..], eps[..], before, AsRead(arrivals[..n]));
    SourcesRead(mem0, was, mem[..], msgs[..], bufs, arrivals, n, sizes[..], eps[..], before);
    DescribedBeside(msgs[..], bufs, n, mem0, sizes0, before, mem[..], sizes[..], eps[..]);
  }

  /** Every datagram's endpoint carries the source its own control data names. */
  ghost predicate SourcesGiven(sizes: seq<nat>, eps: seq<Option<Endpoint>>, arrivals: seq<Arrival>) {
    && |arrivals| <= |sizes| && |arrivals| <= |eps|
    && forall i :: 0 <= i < |arrivals| && sizes[i] > 0 ==>
         eps[i].Some? && eps[i].value.src == SrcAfter(Buffer([], 0), Fit(arrivals[i].control, CONTROL_CAPACITY))
  }

  lemma SourcesRead(mem0: seq<byte>, was: seq<Message>, mem: seq<byte>, msgs: seq<Message>, bufs: seq<Slice>, arrivals: seq<Arrival>, n: nat,
                    sizes: seq<nat>, eps: seq<Option<Endpoint>>, before: seq<Option<Endpoint>>)
    requires Ready(was, bufs) && Layout(was, |mem0|) && n <= |arrivals| && n <= |was| == |msgs|
    requires Filled(mem0, was, mem, msgs, 0, arrivals, n) && n <= |sizes| && n <= |eps| == |before|
    requires forall i :: 0 <= i < n ==> (msgs[i].n > 0 ==> msgs[i].addr.Some?) && msgs[i].nn <= |msgs[i].oob.mem|
    requires forall i :: 0 <= i < n ==> Described(msgs[i], sizes[i], eps[i], before[i])
    ensures SourcesGiven(sizes, eps, arrivals[..n])
  {
    hide SrcAfter, SlotFilled, Layout;
    forall i | 0 <= i < n && sizes[i] > 0
      ensures eps[i].Some? && eps[i].value.src == SrcAfter(Buffer([], 0), Fit(arrivals[i].control, CONTROL_CAPACITY))
    {
      FilledRead(mem0, was, mem, msgs, 0, arrivals, n, i);
      assert Described(msgs[i], sizes[i], eps[i], before[i]);
      ReadControl(mem, msgs[i]);
      LandControl(arrivals[i], View(mem0, Storage(was[i])), was[i].buffers[0].len, |was[i].oob.mem|);
    }
  }

  lemma ReadControl(mem: seq<byte>, m: Message)
    requires |m.buffers| > 0 && m.buffers[0].Valid(|mem|) && m.nn <= |m.oob.mem|
    ensures ReadIn(mem, m).control == m.oob.mem[..m.nn]
  {
  }

  lemma LandControl(a: Arrival, store: seq<byte>, room: nat, controlRoom: nat)
    requires room <= |store|
    ensures Land(a, store, room, controlRoom).control == Fit(a.control, controlRoom)
  {
  }

  lemma PlainRead(mem0: seq<byte>, was: seq<Message>, mem: seq<byte>, msgs: seq<Message>, bufs: seq<Slice>, arrivals: seq<Arrival>, n: nat)
    requires Ready(was, bufs) && Layout(was, |mem0|) && n <= |arrivals| && n <= |was|
    requires Filled(mem0, was, mem, msgs, 0, arrivals, n)
    ensures |msgs| == |was| <= |bufs|
    ensures forall k :: 0 <= k < |msgs| ==> msgs[k].buffers == [bufs[k]] && msgs[k].nn <= |msgs[k].oob.mem|
    ensures forall k :: 0 <= k < n ==>
              && |msgs[k].buffers| > 0 && msgs[k].buffers[0].Valid(|mem|) && msgs[k].addr.Some?
              && Holds(mem, msgs[k], AsRead(arrivals[..n])[k])
  {
    hide Holds, SlotFilled;
    forall k | 0 <= k < |msgs| ensures msgs[k].buffers == [bufs[k]] && msgs[k].nn <= |msgs[k].oob.mem| {
      FilledRead(mem0, was, mem, msgs, 0, arrivals, n, k);
    }
    forall k | 0 <= k < n
      ensures |msgs[k].buffers| > 0 && msgs[k].buffers[0].Valid(|mem|) && msgs[k].addr.Some?
      ensures Holds(mem, msgs[k], AsRead(arrivals[..n])[k])
    {
      PlainHolds(mem0, was, mem, msgs, arrivals, n, k);
    }
  }

  // How a socket is read: batched with GRO, batched without, or one datagram at a time.
  datatype Path = Gro | Batched | OneByOne

  predicate UsesGro(path: Path, batchSize: nat) { path.Gro? && batchSize > 1 }

  /** What the kernel lets a call see: all that arrived, or a single datagram. */
  function SeenBy(path: Path, arrivals: seq<Arrival>): seq<Arrival> {
    if path.OneByOne? && |arrivals| > 1 then arrivals[..1] else arrivals
  }

  /** What a call hands out. Without GRO: the messages as they came, with their sources. With GRO: what
      the functional splitter makes of them, or its error and nothing. */
  ghost predicate HandedOut(bufs: seq<Slice>, batchSize: nat, path: Path, arrivals: seq<Arrival>, mem: seq<byte>,
                            sizes: seq<nat>, eps: seq<Option<Endpoint>>, n: nat, r: ReceiveResult, rs: seq<Received>)
    requires AllValid(bufs, |mem|)
  {
    if path.Gro? && batchSize > 1 then
      var readAt := batchSize - GroReadBatchSize(batchSize);
      && |rs| == batchSize && FreshSlots(rs, bufs, readAt, arrivals) && AllReadable(rs)
      && (match Run(rs, readAt, [])
          case Done(out) => r == Delivered && n == |out| && AllGiven(mem, bufs, sizes, eps, out) && NonEmpty(out)
          case Overflow(_) => r == SplitFailed(OverflowError) && n == 0
          case Malformed(_) => r == SplitFailed(ParseFailed) && n == 0)
    else
      && r == Delivered && n == Min(if path.OneByOne? then Min(|arrivals|, 1) else |arrivals|, batchSize)
      && AllGiven(mem, bufs, sizes, eps, AsRead(arrivals[..n]))
      && SourcesGiven(sizes, eps, arrivals[..n])
  }

  /** With GRO no entry that is returned is empty, unless the caller's buffer for it is. */
  lemma NothingEmptyReturned(bufs: seq<Slice>, batchSize: nat, arrivals: seq<Arrival>, mem: seq<byte>, sizes: seq<nat>,
                             eps: seq<Option<Endpoint>>, n: nat, r: ReceiveResult, rs: seq<Received>, i: nat)
    requires AllValid(bufs, |mem|) && batchSize > 1 && HandedOut(bufs, batchSize, Path.Gro, arrivals, mem, sizes, eps, n, r, rs) && i < n
    ensures n <= |bufs| && n <= |sizes| && (sizes[i] > 0 <==> bufs[i].len > 0)
  {
    hide FreshSlots, Run, GroReadBatchSize;
    var out := Run(rs, batchSize - GroReadBatchSize(batchSize), []).items;
    assert out[i] in out && Given(mem, bufs[i], sizes[i], eps[i], out[i]);
  }

  /** receiveIP. Its result is decided by this call's arrivals alone: the pooled messages bring
      nothing along, whatever they were used for before, and go back clean. */
  method ReceiveIP(pool: MessagePool, mem: array<byte>, bufs: seq<Slice>, sizes: array<nat>, eps: array<Option<Endpoint>>,
                   path: Path, arrivals: seq<Arrival>, failed: bool)
    returns (n: nat, r: ReceiveResult, ghost rs: seq<Received>)
    requires pool.Valid() && AllValid(bufs, mem.Length) && AllDisjoint(bufs)
    requires var b := pool.batchSize; UsesGro(path, b) ==> SizesFit(bufs, b - GroReadBatchSize(b), b, arrivals)
    modifies pool, pool.free, mem, sizes, eps
    ensures pool.Valid() && fresh(pool.free - old(pool.free))
    ensures r.TooShort? <==> |bufs| < pool.batchSize || sizes.Length < pool.batchSize || eps.Length < pool.batchSize
    ensures r.ReadFailed? <==> !r.TooShort? && failed
    ensures r.TooShort? || r.ReadFailed? ==> n == 0 && mem[..] == old(mem[..]) && sizes[..] == old(sizes[..]) && eps[..] == old(eps[..])
    ensures Beside(bufs, n, old(mem[..]), old(sizes[..]), old(eps[..]), mem[..], sizes[..], eps[..])
    ensures !r.TooShort? && !r.ReadFailed? ==>
              HandedOut(bufs, pool.batchSize, path, arrivals, mem[..], sizes[..], eps[..], n, r, rs)
  {
    hide Clean, InUse, SizesFit, AllDisjoint, AllValid, AllGiven, FreshSlots, AllReadable, Run, Ready, Layout, Prepared, GroReadBatchSize, SourcesGiven, Beside, SameBeyond, NonEmpty;
    rs := [];
    SameItself(mem[..], bufs);
    NothingBeside(bufs, mem[..], sizes[..], eps[..], mem[..]);
    if |bufs| < pool.batchSize || sizes.Length < pool.batchSize || eps.Length < pool.batchSize {
      return 0, TooShort, rs;
    }
    var msgs := pool.Get();
    ghost var was := msgs[..];
    CleanInUse(was);
    Prepare(msgs, bufs);
    PreparedReady(was, msgs[..], bufs, mem.Length);
    ReadyInUse(msgs[..], bufs);
    if failed {
      pool.Put(msgs);
      return 0, ReadFailed, rs;
    }
    if path.Gro? && msgs.Length > 1 {
      n, r, rs := ReceiveGro(mem, msgs, bufs, sizes, eps, arrivals);
    } else {
      n := ReceivePlain(mem, msgs, bufs, sizes, eps, SeenBy(path, arrivals));
      assert SeenBy(path, arrivals)[..n] == arrivals[..n];
      r := Delivered;
    }
    pool.Put(msgs);
  }

  lemma ReadyInUse(msgs: seq<Message>, bufs: seq<Slice>)
    requires Ready(msgs, bufs)
    ensures InUse(msgs)
  {
  }
}
