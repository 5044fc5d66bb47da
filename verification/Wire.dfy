/** What messages become on the wire. */
module Wire {
  import opened Bytes
  import opened Control
  import opened Memory
  import opened Grouping
  import opened Segmentation
  import opened Coalesce

  /** One datagram on the wire: its bytes, destination and requested source, and whether the kernel
      cut it from a segmented message. */
  datatype Packet = Packet(data: seq<byte>, dst: Option<Addr>, src: Option<Cmsg>, segmented: bool)

  ghost predicate Sendable(mem: seq<byte>, m: Message) { AllValid(m.buffers, |mem|) && m.oob.Valid() }

  ghost predicate AllSendable(mem: seq<byte>, msgs: seq<Message>) {
    forall k :: 0 <= k < |msgs| ==> Sendable(mem, msgs[k])
  }

  ghost function Payload(mem: seq<byte>, m: Message): seq<byte>
    requires Sendable(mem, m)
  {
    Flatten(Views(mem, m.buffers))
  }

  /** A message as it is handed to the socket: its payload, the segment size asked for, the destination. */
  datatype Outgoing = Outgoing(payload: seq<byte>, size: nat, dst: Option<Addr>)

  ghost function OutgoingOf(mem: seq<byte>, m: Message): Outgoing
    requires Sendable(mem, m)
  {
    Outgoing(Payload(mem, m), SegmentSize(m.oob.Bytes()), m.addr)
  }

  ghost function Outs(mem: seq<byte>, msgs: seq<Message>): (outs: seq<Outgoing>)
    requires AllSendable(mem, msgs)
    ensures |outs| == |msgs| && forall k :: 0 <= k < |msgs| ==> outs[k] == OutgoingOf(mem, msgs[k])
  {
    seq(|msgs|, k requires 0 <= k < |msgs| => OutgoingOf(mem, msgs[k]))
  }

  /** The kernel: the payload is cut into segments when the control data asks for it. */
  ghost function PacketsOf(mem: seq<byte>, m: Message): (ps: seq<Packet>)
    requires Sendable(mem, m)
  {
    var size := SegmentSize(m.oob.Bytes());
    var segs := Segments(Payload(mem, m), size);
    seq(|segs|, i requires 0 <= i < |segs| => Packet(segs[i], m.addr, SourceInfo(m.oob.Bytes()), size > 0))
  }

  ghost function WireOf(mem: seq<byte>, msgs: seq<Message>): seq<Packet>
    requires AllSendable(mem, msgs)
  {
    if |msgs| == 0 then [] else WireOf(mem, msgs[..|msgs| - 1]) + PacketsOf(mem, msgs[|msgs| - 1])
  }

  lemma {:induction false} WireOfConcat(mem: seq<byte>, a: seq<Message>, b: seq<Message>)
    requires AllSendable(mem, a) && AllSendable(mem, b)
    ensures AllSendable(mem, a + b) && WireOf(mem, a + b) == WireOf(mem, a) + WireOf(mem, b)
  {
    hide *;
    SendableConcat(mem, a, b);
    if |b| == 0 {
      NoWire(mem, b);
      assert a + b == a;
    } else {
      var n := |b| - 1;
      SendablePart(mem, b, n);
      WireOfConcat(mem, a, b[..n]);
      assert (a + b)[..|a + b| - 1] == a + b[..n];
      WireAndLast(mem, b);
      WireAndLast(mem, a + b);
      Reassociate(WireOf(mem, a), WireOf(mem, b[..n]), PacketsOf(mem, b[n]));
    }
  }

  lemma SendableConcat(mem: seq<byte>, a: seq<Message>, b: seq<Message>)
    requires AllSendable(mem, a) && AllSendable(mem, b)
    ensures AllSendable(mem, a + b)
  {
    hide Sendable;
  }

  lemma SendablePart(mem: seq<byte>, b: seq<Message>, n: nat)
    requires AllSendable(mem, b) && n <= |b|
    ensures AllSendable(mem, b[..n])
  {
    hide Sendable;
  }

  lemma NoWire(mem: seq<byte>, b: seq<Message>)
    requires AllSendable(mem, b) && |b| == 0
    ensures WireOf(mem, b) == []
  {
  }

  lemma {:induction false} WireAndLast(mem: seq<byte>, b: seq<Message>)
    requires AllSendable(mem, b) && |b| > 0
    ensures AllSendable(mem, b[..|b| - 1]) && Sendable(mem, b[|b| - 1])
    ensures WireOf(mem, b) == WireOf(mem, b[..|b| - 1]) + PacketsOf(mem, b[|b| - 1])
  {
    hide Sendable, PacketsOf;
  }

  /** The packets carry exactly these datagrams, in order, to `dst` and with source `src`. */
  ghost predicate Carry(ps: seq<Packet>, datas: seq<seq<byte>>, dst: Addr, src: Option<Cmsg>) {
    && |ps| == |datas|
    && forall i :: 0 <= i < |ps| ==> ps[i].data == datas[i] && ps[i].dst == Some(dst) && ps[i].src == src
  }

  ghost predicate Unsegmented(ps: seq<Packet>) { forall i :: 0 <= i < |ps| ==> !ps[i].segmented }

  lemma CarryConcat(p: seq<Packet>, q: seq<Packet>, x: seq<seq<byte>>, y: seq<seq<byte>>, dst: Addr, src: Option<Cmsg>)
    requires Carry(p, x, dst, src) && Carry(q, y, dst, src)
    ensures Carry(p + q, x + y, dst, src)
  {
  }

  lemma NothingCarried(mem: seq<byte>, msgs: seq<Message>, sends: seq<seq<byte>>, addr: Addr, src: Option<Cmsg>)
    ensures AllSendable(mem, msgs[..0])
    ensures Carry(WireOf(mem, msgs[..0]), sends[..0], addr, src) && Unsegmented(WireOf(mem, msgs[..0]))
  {
  }

  lemma CarryOneMore(ps: seq<Packet>, sends: seq<seq<byte>>, k: nat, addr: Addr, src: Option<Cmsg>)
    requires k < |sends| && Carry(ps, sends[..k], addr, src) && Unsegmented(ps)
    ensures var more := ps + [Packet(sends[k], Some(addr), src, false)]; Carry(more, sends[..k + 1], addr, src) && Unsegmented(more)
  {
  }

  // ---------------------------------------------------------------- coalesced messages

  /** Every message has the control capacity for the sticky source and a segment size, and one
      buffer slot. */
  ghost predicate Roomy(job: Job) {
    && ValidSrc(job.src)
    && forall k :: 0 <= k < |job.was| ==> |job.was[k].oob.mem| >= |job.src| + GSO_SPACE && |job.was[k].buffers| == 1
  }

  lemma {:induction false} JoinedPayload(job: Job, mem: seq<byte>, k: nat, s: nat, e: nat)
    requires job.Valid() && Roomy(job) && k < |job.was| && s < e <= |job.bufs|
    requires AllValid(job.bufs, |mem|) && Views(mem, job.bufs) == job.data && job.Holds(mem, s, e)
    ensures var m := job.MessageFor(k, s, e, true);
            Sendable(mem, m) && Payload(mem, m) == Flatten(job.data[s..e])
  {
    var m := job.MessageFor(k, s, e, true);
    if job.gather {
      assert Views(mem, m.buffers) == job.data[s..e];
    } else {
      assert m.buffers == [job.Base(s, e)];
      assert Views(mem, m.buffers) == [View(mem, job.Base(s, e))];
      assert Flatten([View(mem, job.Base(s, e))]) == View(mem, job.Base(s, e)) + Flatten([]);
    }
  }

  lemma {:induction false} JoinedControl(job: Job, k: nat, s: nat, e: nat)
    requires job.Valid() && Roomy(job) && k < |job.was| && s < e <= |job.bufs| && Legal(job.Batch(), s, e)
    ensures var m := job.MessageFor(k, s, e, true);
            && m.oob.Valid() && |m.oob.mem| == |job.was[k].oob.mem|
            && SegmentSize(m.oob.Bytes()) == GroupSize(job.data, s, e)
            && SourceInfo(m.oob.Bytes()) == SourceInfo(job.src)
  {
    hide SegmentSize, SourceInfo, Legal;
    if e - s >= 2 {
      SizeFits(job, s, e);
      KernelReadsBack(job.was[k].oob, job.src, job.bufs[s].len);
    } else {
      KernelReadsBack(job.was[k].oob, job.src, 0);
    }
  }

  /** Each coalesced message asks for segmentation exactly when it joins two or more datagrams,
      with the size of the first, and the kernel makes its group of it. */
  lemma GroupOnWire(job: Job, mem: seq<byte>, msgs: seq<Message>, n: nat, k: nat)
    requires job.Valid() && Roomy(job) && Coalesced(job, mem, msgs, n) && k < n
    ensures var cuts := GreedyCuts(job.Batch());
            && cuts[k] < cuts[k + 1] <= |job.data|
            && Sendable(mem, msgs[k])
            && SegmentSize(msgs[k].oob.Bytes()) == GroupSize(job.data, cuts[k], cuts[k + 1])
            && Carry(PacketsOf(mem, msgs[k]), GroupDatagrams(job.data, cuts[k], cuts[k + 1]), job.addr, SourceInfo(job.src))
  {
    hide SegmentSize, SourceInfo, Segments, Flatten, Legal, SetGSO, SetSrc, Job.Holds, Views;
    var cuts := GreedyCuts(job.Batch());
    assert GroupSent(job, mem, msgs, cuts, k);
    assert Legal(job.Batch(), cuts[k], cuts[k + 1]);
    JoinedPayload(job, mem, k, cuts[k], cuts[k + 1]);
    JoinedControl(job, k, cuts[k], cuts[k + 1]);
  }

  /** The first `k` coalesced messages put on the wire what their groups become. */
  lemma {:induction false} CoalescedOnWire(job: Job, mem: seq<byte>, msgs: seq<Message>, n: nat, k: nat)
    requires job.Valid() && Roomy(job) && Coalesced(job, mem, msgs, n) && k <= n
    ensures AllSendable(mem, msgs[..k])
    ensures Carry(WireOf(mem, msgs[..k]), Segmentation.Wire(job.data, GreedyCuts(job.Batch()), k), job.addr, SourceInfo(job.src))
  {
    hide *;
    NonNegative(job, mem, msgs, n);
    if k > 0 {
      var cuts := GreedyCuts(job.Batch());
      CoalescedOnWire(job, mem, msgs, n, k - 1);
      GroupOnWire(job, mem, msgs, n, k - 1);
      WireOfLast(mem, msgs, k);
      WireLast(job.data, cuts, k);
      CarryConcat(WireOf(mem, msgs[..k - 1]), PacketsOf(mem, msgs[k - 1]),
                  Segmentation.Wire(job.data, cuts, k - 1), GroupDatagrams(job.data, cuts[k - 1], cuts[k]),
                  job.addr, SourceInfo(job.src));
    } else {
      CarryNothing(mem, job.data, GreedyCuts(job.Batch()), job.addr, SourceInfo(job.src));
      assert msgs[..0] == [];
    }
  }

  lemma {:induction false} WireOfLast(mem: seq<byte>, msgs: seq<Message>, k: nat)
    requires 0 < k <= |msgs| && AllSendable(mem, msgs[..k - 1]) && Sendable(mem, msgs[k - 1])
    ensures AllSendable(mem, msgs[..k]) && WireOf(mem, msgs[..k]) == WireOf(mem, msgs[..k - 1]) + PacketsOf(mem, msgs[k - 1])
  {
    hide Sendable, PacketsOf;
    assert msgs[..k][..k - 1] == msgs[..k - 1];
    forall i | 0 <= i < k ensures Sendable(mem, msgs[..k][i]) {
      if i < k - 1 { assert msgs[..k][i] == msgs[..k - 1][i]; }
    }
  }

  lemma WireLast(data: seq<seq<byte>>, cuts: seq<nat>, k: nat)
    requires Increasing(cuts, |data|) && 0 < k < |cuts| && cuts[k - 1] < cuts[k] <= |data|
    ensures Segmentation.Wire(data, cuts, k) == Segmentation.Wire(data, cuts, k - 1) + GroupDatagrams(data, cuts[k - 1], cuts[k])
  {
  }

  lemma CarryNothing(mem: seq<byte>, data: seq<seq<byte>>, cuts: seq<nat>, dst: Addr, src: Option<Cmsg>)
    requires Increasing(cuts, |data|)
    ensures AllSendable(mem, []) && Carry(WireOf(mem, []), Segmentation.Wire(data, cuts, 0), dst, src)
  {
  }

  lemma NonNegative(job: Job, mem: seq<byte>, msgs: seq<Message>, n: nat)
    requires job.Valid() && Coalesced(job, mem, msgs, n)
    ensures n == |GreedyCuts(job.Batch())| - 1 && n <= |job.bufs| <= |msgs| == |job.was|
    ensures Increasing(GreedyCuts(job.Batch()), |job.data|)
  {
  }

  /** The payload of a coalesced message is its group. */
  lemma {:induction false} GroupPayload(job: Job, mem: seq<byte>, msgs: seq<Message>, n: nat, k: nat)
    requires job.Valid() && Roomy(job) && Coalesced(job, mem, msgs, n) && k < n
    ensures var cuts := GreedyCuts(job.Batch());
            && cuts[k] < cuts[k + 1] <= |job.data| && Legal(job.Batch(), cuts[k], cuts[k + 1])
            && job.Batch().lens == Lens(job.data)
            && Sendable(mem, msgs[k]) && Payload(mem, msgs[k]) == Flatten(job.data[cuts[k]..cuts[k + 1]])
  {
    hide SegmentSize, Job.Holds, SetGSO, SetSrc, Flatten, Legal, SumRange;
    var cuts := GreedyCuts(job.Batch());
    assert GroupSent(job, mem, msgs, cuts, k);
    assert Legal(job.Batch(), cuts[k], cuts[k + 1]);
    JoinedPayload(job, mem, k, cuts[k], cuts[k + 1]);
    assert job.Batch().lens == Lens(job.data);
  }

  /** What each greedy group is handed over as: its bytes, and the first one's length as the segment size
      exactly when it joins two or more. */
  function GroupOuts(data: seq<seq<byte>>, cuts: seq<nat>, dst: Addr): (outs: seq<Outgoing>)
    requires Increasing(cuts, |data|)
    ensures |outs| == |cuts| - 1 && forall k :: 0 <= k < |outs| ==> outs[k] == GroupOut(data, cuts, k, dst)
  {
    seq(|cuts| - 1, k requires 0 <= k < |cuts| - 1 => GroupOut(data, cuts, k, dst))
  }

  function GroupOut(data: seq<seq<byte>>, cuts: seq<nat>, k: nat, dst: Addr): (o: Outgoing)
    requires Increasing(cuts, |data|) && k + 1 < |cuts|
    ensures cuts[k] < cuts[k + 1] <= |data|
  {
    CutBounds(cuts, |data|, k + 1);
    var s, e := cuts[k], cuts[k + 1];
    Outgoing(Flatten(data[s..e]), if e - s >= 2 then |data[s]| else 0, Some(dst))
  }

  lemma GroupOutgoing(job: Job, mem: seq<byte>, msgs: seq<Message>, n: nat, k: nat)
    requires job.Valid() && Roomy(job) && Coalesced(job, mem, msgs, n) && k < n
    ensures var cuts := GreedyCuts(job.Batch());
            && Increasing(cuts, |job.data|) && k + 1 < |cuts| && Sendable(mem, msgs[k])
            && OutgoingOf(mem, msgs[k]) == GroupOut(job.data, cuts, k, job.addr)
  {
    hide SegmentSize, SourceInfo, Payload, Flatten, Legal, SetGSO, SetSrc, Job.Holds, Views, PacketsOf, Carry, Roomy;
    GroupOnWire(job, mem, msgs, n, k);
    GroupPayload(job, mem, msgs, n, k);
    NonNegative(job, mem, msgs, n);
    assert GroupSent(job, mem, msgs, GreedyCuts(job.Batch()), k);
  }

  /** The messages of a coalescing are handed over group by group. */
  lemma CoalescedOuts(job: Job, mem: seq<byte>, msgs: seq<Message>, n: nat)
    requires job.Valid() && Roomy(job) && Coalesced(job, mem, msgs, n)
    ensures n <= |msgs| && AllSendable(mem, msgs[..n]) && Increasing(GreedyCuts(job.Batch()), |job.data|)
    ensures Outs(mem, msgs[..n]) == GroupOuts(job.data, GreedyCuts(job.Batch()), job.addr)
  {
    hide *;
    NonNegative(job, mem, msgs, n);
    CoalescedOnWire(job, mem, msgs, n, n);
    forall k | 0 <= k < n ensures Outs(mem, msgs[..n])[k] == GroupOuts(job.data, GreedyCuts(job.Batch()), job.addr)[k] {
      GroupOutgoing(job, mem, msgs, n, k);
      assert msgs[..n][k] == msgs[k];
    }
  }

  /** The control data of a coalesced message is the sticky source, if any, and one UDP_SEGMENT message
      exactly when it joins two or more datagrams; the size in it is the first one's whole length. */
  lemma {:induction false} SegmentSizeOnce(job: Job, mem: seq<byte>, msgs: seq<Message>, n: nat, k: nat)
    requires job.Valid() && Roomy(job) && Coalesced(job, mem, msgs, n) && k < n
    ensures msgs[k].oob.Valid()
    ensures var s, e := GreedyCuts(job.Batch())[k], GreedyCuts(job.Batch())[k + 1];
            && s < e <= |job.bufs| && (e - s >= 2 ==> job.bufs[s].len < 0x1_0000)
            && Parse(msgs[k].oob.Bytes()).ok
            && Parse(msgs[k].oob.Bytes()).msgs == Parse(job.src).msgs
                 + if e - s >= 2 then [Cmsg(SOL_UDP, UDP_SEGMENT, LE(job.bufs[s].len, GSO_DATA))] else []
  {
    hide Parse, LE, Job.Holds, Legal, Views;
    var cuts := GreedyCuts(job.Batch());
    assert GroupSent(job, mem, msgs, cuts, k);
    assert Legal(job.Batch(), cuts[k], cuts[k + 1]);
    if cuts[k + 1] - cuts[k] >= 2 {
      SizeFits(job, cuts[k], cuts[k + 1]);
    }
    ControlRoundTrip(job.was[k].oob, job.src, job.bufs[cuts[k]].len);
    SrcParses(job.src);
  }

  lemma SrcParses(src: seq<byte>)
    requires ValidSrc(src)
    ensures Parse(src).ok
  {
  }

  /** A message that joins datagrams has at most 64 of them and at most 65507 bytes for an IPv4
      destination, 65527 for an IPv6 one. */
  lemma MessageLimits(job: Job, mem: seq<byte>, msgs: seq<Message>, n: nat, k: nat)
    requires job.Valid() && Roomy(job) && Coalesced(job, mem, msgs, n) && k < n
    ensures Sendable(mem, msgs[k])
    ensures SegmentSize(msgs[k].oob.Bytes()) > 0 ==>
              && |Payload(mem, msgs[k])| <= (if job.is6 then 65527 else 65507)
              && 2 <= GreedyCuts(job.Batch())[k + 1] - GreedyCuts(job.Batch())[k] <= 64
  {
    hide SegmentSize, Coalesced, Roomy, Flatten, PacketsOf, Carry;
    var cuts := GreedyCuts(job.Batch());
    NonNegative(job, mem, msgs, n);
    GroupOnWire(job, mem, msgs, n, k);
    GroupPayload(job, mem, msgs, n, k);
    FlattenLength(job.data, cuts[k], cuts[k + 1]);
  }

  /** The copying and the scatter-gather coalescer make the same messages of the same buffers when
      every base buffer has room for its group: as many, with the same payloads and segment sizes. */
  lemma CoalescersAgree(c: Job, cmem: seq<byte>, cmsgs: seq<Message>, cn: nat,
                        g: Job, gmem: seq<byte>, gmsgs: seq<Message>, gn: nat)
    requires c.Valid() && Roomy(c) && Coalesced(c, cmem, cmsgs, cn) && !c.gather
    requires g.Valid() && Roomy(g) && Coalesced(g, gmem, gmsgs, gn) && g.gather
    requires c.data == g.data && c.is6 == g.is6 && RoomForGroups(c.Batch())
    ensures cn == gn <= |cmsgs| && gn <= |gmsgs|
    ensures forall k :: 0 <= k < cn ==>
              && Sendable(cmem, cmsgs[k]) && Sendable(gmem, gmsgs[k])
              && Payload(cmem, cmsgs[k]) == Payload(gmem, gmsgs[k])
              && SegmentSize(cmsgs[k].oob.Bytes()) == SegmentSize(gmsgs[k].oob.Bytes())
  {
    SameBatch(c, g);
    GroupingsAgree(c.Batch());
    hide *;
    NonNegative(c, cmem, cmsgs, cn);
    NonNegative(g, gmem, gmsgs, gn);
    forall k | 0 <= k < cn
      ensures Sendable(cmem, cmsgs[k]) && Sendable(gmem, gmsgs[k])
      ensures Payload(cmem, cmsgs[k]) == Payload(gmem, gmsgs[k])
      ensures SegmentSize(cmsgs[k].oob.Bytes()) == SegmentSize(gmsgs[k].oob.Bytes())
    {
      SameMessage(c, cmem, cmsgs, cn, g, gmem, gmsgs, gn, k);
    }
  }

  lemma SameBatch(c: Job, g: Job)
    requires c.Valid() && g.Valid() && !c.gather && g.gather && c.data == g.data && c.is6 == g.is6
    ensures g.Batch() == Unbounded(c.Batch())
  {
    assert Lengths(c.bufs) == Lengths(g.bufs);
    assert g.Batch().caps == Unbounded(c.Batch()).caps;
  }

  lemma SameMessage(c: Job, cmem: seq<byte>, cmsgs: seq<Message>, cn: nat,
                    g: Job, gmem: seq<byte>, gmsgs: seq<Message>, gn: nat, k: nat)
    requires c.Valid() && Roomy(c) && Coalesced(c, cmem, cmsgs, cn)
    requires g.Valid() && Roomy(g) && Coalesced(g, gmem, gmsgs, gn)
    requires c.data == g.data && GreedyCuts(c.Batch()) == GreedyCuts(g.Batch()) && k < cn && k < gn
    ensures k < |cmsgs| && k < |gmsgs| && Sendable(cmem, cmsgs[k]) && Sendable(gmem, gmsgs[k])
    ensures cmsgs[k].oob.Valid() && gmsgs[k].oob.Valid()
    ensures Payload(cmem, cmsgs[k]) == Payload(gmem, gmsgs[k])
    ensures SegmentSize(cmsgs[k].oob.Bytes()) == SegmentSize(gmsgs[k].oob.Bytes())
  {
    hide SegmentSize, Coalesced, Roomy, Flatten, PacketsOf, Carry, Legal, Payload;
    NonNegative(c, cmem, cmsgs, cn);
    NonNegative(g, gmem, gmsgs, gn);
    GroupOnWire(c, cmem, cmsgs, cn, k);
    GroupOnWire(g, gmem, gmsgs, gn, k);
    GroupPayload(c, cmem, cmsgs, cn, k);
    GroupPayload(g, gmem, gmsgs, gn, k);
  }
}
