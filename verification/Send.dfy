/** StdNetBind.Send: pooled messages, partial writes, and the retry without segmentation. */
module Send {
  import opened Bytes
  import opened Control
  import opened Memory
  import opened Grouping
  import opened Segmentation
  import opened Coalesce
  import opened Wire
  import opened Writes
  import opened Address

  // ---------------------------------------------------------------- the message pool

  const CONTROL_CAPACITY: nat := PKTINFO6_SPACE + GSO_SPACE

  /** A message while it is in use: its control capacity and its one buffer slot never change. */
  predicate InUse(msgs: seq<Message>) {
    forall k :: 0 <= k < |msgs| ==>
      msgs[k].oob.Valid() && |msgs[k].oob.mem| == CONTROL_CAPACITY && |msgs[k].buffers| == 1
  }

  /** A message as the pool hands it out. */
  predicate Clean(msgs: seq<Message>) {
    && InUse(msgs)
    && forall k :: 0 <= k < |msgs| ==>
         msgs[k].n == 0 && msgs[k].nn == 0 && msgs[k].oob.len == 0 && msgs[k].addr == None
  }

  class MessagePool {
    const batchSize: nat
    var free: set<array<Message>>

    ghost predicate Valid()
      reads this, free
    {
      forall a :: a in free ==> a.Length == batchSize && Clean(a[..])
    }

    constructor (batchSize: nat)
      ensures Valid() && this.batchSize == batchSize && free == {}
    {
      this.batchSize := batchSize;
      free := {};
    }

    /** A new slice of messages, or any that was put back before. */
    method Get() returns (msgs: array<Message>)
      requires Valid()
      modifies this
      ensures Valid() && msgs.Length == batchSize && Clean(msgs[..])
      ensures free == old(free) - {msgs} && (fresh(msgs) || msgs in old(free))
    {
      var reuse: bool := *;
      if reuse && free != {} {
        msgs :| msgs in free;
        free := free - {msgs};
      } else {
        msgs := new Message[batchSize](_ =>
          Message([Slice(0, 0, 0)], Buffer(Zeros(CONTROL_CAPACITY), 0), None, 0, 0));
      }
    }

    method Put(msgs: array<Message>)
      requires Valid() && msgs.Length == batchSize && InUse(msgs[..]) && msgs !in free
      modifies this, msgs
      ensures Valid() && free == old(free) + {msgs}
    {
      for i := 0 to msgs.Length
        invariant InUse(msgs[..]) && Clean(msgs[..i])
        invariant free == old(free) && forall a :: a in free ==> a.Length == batchSize && Clean(a[..])
      {
        msgs[i] := msgs[i].(oob := msgs[i].oob.(len := 0));
        msgs[i] := Message(msgs[i].buffers, msgs[i].oob, None, 0, 0);
      }
      assert msgs[..msgs.Length] == msgs[..];
      free := free + {msgs};
    }
  }

  class AddrPool {
    var free: set<UDPAddr>
    ghost var seen: set<seq<byte>>   // the destinations of all sends so far

    /** Every object in the pool is what a history of earlier sends made of it. */
    ghost predicate Valid()
      reads this, free
    {
      forall a :: a in free ==> a.Valid() && forall d :: d in a.history ==> d in seen
    }

    constructor ()
      ensures Valid() && free == {} && seen == {}
    {
      free := {};
      seen := {};
    }

    method Get() returns (ua: UDPAddr)
      requires Valid()
      modifies this`free
      ensures Valid() && ua.Valid() && (forall d :: d in ua.history ==> d in seen)
      ensures free == old(free) - {ua} && (fresh(ua) || ua in old(free))
    {
      var reuse: bool := *;
      if reuse && free != {} {
        ua :| ua in free;
        free := free - {ua};
      } else {
        ua := new UDPAddr();
      }
    }

    /** Takes back an object after a send to `dst`. */
    method Put(ua: UDPAddr, ghost dst: seq<byte>)
      requires Valid() && ua.Valid() && ua !in free && (forall d :: d in ua.history ==> d in seen || d == dst)
      modifies this
      ensures Valid() && free == old(free) + {ua} && seen == old(seen) + {dst}
    {
      free := free + {ua};
      seen := seen + {dst};
    }
  }

  // ---------------------------------------------------------------- the socket

  lemma NothingSent(mem: seq<byte>, all: seq<Message>)
    ensures AllSendable(mem, all[..0]) && WireOf(mem, all[..0]) == []
  {
  }

  lemma SendableRest(mem: seq<byte>, all: seq<Message>, start: nat)
    requires AllSendable(mem, all) && start <= |all|
    ensures AllSendable(mem, all[start..])
  {
    hide Sendable;
  }

  // What a further write adds to the messages sent so far.
  lemma {:induction false} MoreSent(mem: seq<byte>, all: seq<Message>, start: nat, done: nat, before: seq<Packet>)
    requires AllSendable(mem, all) && start + done <= |all| && AllSendable(mem, all[..start]) && AllSendable(mem, all[start..][..done])
    ensures AllSendable(mem, all[..start + done])
    ensures before + WireOf(mem, all[..start]) + WireOf(mem, all[start..][..done]) == before + WireOf(mem, all[..start + done])
  {
    hide *;
    assert all[..start + done] == all[..start] + all[start..][..done];
    WireOfConcat(mem, all[..start], all[start..][..done]);
    Reassociate(before, WireOf(mem, all[..start]), WireOf(mem, all[start..][..done]));
  }

  lemma AllHanded(mem: seq<byte>, all: seq<Message>, start: nat)
    requires AllSendable(mem, all) && start <= |all| && AllSendable(mem, all[start..])
    ensures HandsOn(Outs(mem, all[start..]), Outs(mem, all)[start..]) && |Outs(mem, all)| == |all|
  {
    hide OutgoingOf, Sendable;
    assert Outs(mem, all[start..]) == Outs(mem, all)[start..];
  }

  lemma OneHanded(mem: seq<byte>, all: seq<Message>, i: nat)
    requires AllSendable(mem, all) && i < |all|
    ensures HandsOn([OutgoingOf(mem, all[i])], Outs(mem, all)[i..])
  {
    hide OutgoingOf, Sendable;
  }

  class Socket {
    ghost var wire: seq<Packet>
    ghost var calls: seq<Call>      // the write calls so far

    constructor ()
      ensures wire == [] && calls == []
    {
      wire, calls := [], [];
    }

    /** The environment: a write either reports how many messages it sent, at least one when there
        are any, or fails after some of them. */
    method WriteBatch(mem: array<byte>, msgs: array<Message>, lo: nat, hi: nat)
      returns (n: nat, err: Option<WriteError>, ghost sent: nat)
      requires lo <= hi <= msgs.Length && AllSendable(mem[..], msgs[lo..hi])
      modifies this
      ensures sent <= hi - lo && wire == old(wire) + WireOf(mem[..], msgs[lo..hi][..sent])
      ensures err.None? ==> n == sent && (lo < hi ==> n > 0)
      ensures calls == old(calls) + [Call(Outs(mem[..], msgs[lo..hi]), sent, err)]
    {
      err := *;
      n := *;
      if err.None? {
        if lo < hi { n :| 0 < n <= hi - lo; } else { n := 0; }
        sent := n;
      } else {
        sent :| 0 <= sent <= hi - lo;
      }
      wire := wire + WireOf(mem[..], msgs[lo..hi][..sent]);
      calls := calls + [Call(Outs(mem[..], msgs[lo..hi]), sent, err)];
    }

    /** A write of a single message, sent or not. */
    method WriteMsg(mem: array<byte>, m: Message) returns (err: Option<WriteError>, ghost sent: bool)
      requires Sendable(mem[..], m) && |m.buffers| == 1
      modifies this
      ensures err.None? ==> sent
      ensures wire == old(wire) + if sent then PacketsOf(mem[..], m) else []
      ensures calls == old(calls) + [Call([OutgoingOf(mem[..], m)], if sent then 1 else 0, err)]
    {
      err := *;
      sent := *;
      if err.None? { sent := true; }
      if sent { wire := wire + PacketsOf(mem[..], m); }
      calls := calls + [Call([OutgoingOf(mem[..], m)], if sent then 1 else 0, err)];
    }

    /** Repeats partial writes until all is sent or one fails. Whatever happens, a whole number of
        messages has been sent, from the first on; the error is that of the write that failed, and there
        is one only then. */
    method WriteAll(mem: array<byte>, msgs: array<Message>, count: nat)
      returns (err: Option<WriteError>, ghost sent: nat, ghost made: seq<Call>)
      requires count <= msgs.Length && AllSendable(mem[..], msgs[..count])
      modifies this
      ensures sent <= count && (err.None? ==> sent == count)
      ensures wire == old(wire) + WireOf(mem[..], msgs[..count][..sent])
      ensures calls == old(calls) + made && Pass(made, Outs(mem[..], msgs[..count]), sent, err)
    {
      hide *;
      var start := 0;
      ghost var before := wire;
      ghost var all := msgs[..count];
      ghost var outs := Outs(mem[..], all);
      NothingSent(mem[..], all);
      Nothing(outs);
      made := [];
      while true
        invariant start <= count && all == msgs[..count]
        invariant AllSendable(mem[..], all[..start]) && wire == before + WireOf(mem[..], all[..start])
        invariant calls == old(calls) + made && Going(made, outs, start)
        decreases count - start
      {
        assert msgs[start..count] == all[start..];
        SendableRest(mem[..], all, start);
        var n;
        ghost var done;
        n, err, done := WriteBatch(mem, msgs, start, count);
        sent := start + done;
        SendablePart(mem[..], all[start..], done);
        MoreSent(mem[..], all, start, done, before);
        ghost var call := Call(Outs(mem[..], all[start..]), done, err);
        AllHanded(mem[..], all, start);
        NextCall(made, outs, start, call);
        Reassociate(old(calls), made, [call]);
        made := made + [call];
        if err.Some? || n == count - start {
          return;
        }
        start := start + n;
      }
    }

    /** The same without batch I/O: one write per message. */
    method WriteEach(mem: array<byte>, msgs: array<Message>, count: nat)
      returns (err: Option<WriteError>, ghost sent: nat, ghost made: seq<Call>)
      requires count <= msgs.Length && AllSendable(mem[..], msgs[..count])
      requires forall k :: 0 <= k < count ==> |msgs[k].buffers| == 1
      modifies this
      ensures sent <= count && (err.None? ==> sent == count)
      ensures wire == old(wire) + WireOf(mem[..], msgs[..count][..sent])
      ensures calls == old(calls) + made && Pass(made, Outs(mem[..], msgs[..count]), sent, err)
    {
      hide Sendable, PacketsOf, OutgoingOf, Going, Pass, HandsOn;
      ghost var before := wire;
      ghost var all := msgs[..count];
      ghost var outs := Outs(mem[..], all);
      Nothing(outs);
      sent, made := 0, [];
      err := None;
      for i := 0 to count
        invariant sent == i && err == None && all == msgs[..count]
        invariant wire == before + WireOf(mem[..], all[..i])
        invariant calls == old(calls) + made && Going(made, outs, i) && (i == count ==> Pass(made, outs, i, None))
      {
        ghost var ok;
        assert Sendable(mem[..], all[i]);
        err, ok := WriteMsg(mem, msgs[i]);
        assert all[..i + 1][..i] == all[..i];
        ghost var call := Call([OutgoingOf(mem[..], all[i])], if ok then 1 else 0, err);
        OneHanded(mem[..], all, i);
        NextCall(made, outs, i, call);
        Reassociate(old(calls), made, [call]);
        made := made + [call];
        if ok { sent := i + 1; }
        if err.Some? {
          return;
        }
      }
    }

    /** StdNetBind.send. */
    method SendMessages(mem: array<byte>, msgs: array<Message>, count: nat, batch: bool)
      returns (err: Option<WriteError>, ghost sent: nat, ghost made: seq<Call>)
      requires count <= msgs.Length && AllSendable(mem[..], msgs[..count])
      requires forall k :: 0 <= k < count ==> |msgs[k].buffers| == 1
      modifies this
      ensures sent <= count && (err.None? ==> sent == count)
      ensures wire == old(wire) + WireOf(mem[..], msgs[..count][..sent])
      ensures calls == old(calls) + made && Pass(made, Outs(mem[..], msgs[..count]), sent, err)
    {
      if batch {
        err, sent, made := WriteAll(mem, msgs, count);
      } else {
        err, sent, made := WriteEach(mem, msgs, count);
      }
    }
  }

  // ---------------------------------------------------------------- one attempt and its retry

  /** The messages of a send without segmentation: one per buffer. */
  ghost predicate Plain(was: seq<Message>, msgs: seq<Message>, bufs: seq<Slice>, addr: Addr, src: seq<byte>, n: nat)
    requires InUse(was) && n <= |bufs| <= |was|
  {
    && |msgs| == |was|
    && (forall k :: 0 <= k < n ==>
          msgs[k] == was[k].(addr := Some(addr), buffers := [bufs[k]], oob := SetSrc(was[k].oob, src)))
    && (forall k :: n <= k < |was| ==> msgs[k] == was[k])
  }

  method PlainMessages(bufs: seq<Slice>, addr: Addr, src: seq<byte>, msgs: array<Message>)
    requires |bufs| <= msgs.Length && InUse(msgs[..])
    modifies msgs
    ensures Plain(old(msgs[..]), msgs[..], bufs, addr, src, |bufs|)
  {
    ghost var was := msgs[..];
    for i := 0 to |bufs|
      invariant Plain(was, msgs[..], bufs, addr, src, i)
    {
      msgs[i] := msgs[i].(addr := Some(addr));
      msgs[i] := msgs[i].(buffers := msgs[i].buffers[0 := bufs[i]]);
      msgs[i] := msgs[i].(oob := SetSrc(msgs[i].oob, src));
      assert msgs[i].buffers == [bufs[i]];
    }
  }

  lemma {:induction false} PlainPacket(mem: seq<byte>, was: seq<Message>, msgs: seq<Message>, bufs: seq<Slice>, addr: Addr, src: seq<byte>, k: nat)
    requires InUse(was) && |bufs| <= |was| && Plain(was, msgs, bufs, addr, src, |bufs|) && ValidSrc(src)
    requires AllValid(bufs, |mem|) && k < |bufs|
    ensures Sendable(mem, msgs[k])
    ensures PacketsOf(mem, msgs[k]) == [Packet(View(mem, bufs[k]), Some(addr), SourceInfo(src), false)]
    ensures OutgoingOf(mem, msgs[k]) == Outgoing(View(mem, bufs[k]), 0, Some(addr))
  {
    hide SourceInfo, SegmentSize, ValidSrc;
    SrcLength(src);
    KernelReadsBack(was[k].oob, src, 0);
    var m := msgs[k];
    assert Views(mem, m.buffers) == [View(mem, bufs[k])];
    assert Flatten([View(mem, bufs[k])]) == View(mem, bufs[k]) + Flatten([]);
    assert Payload(mem, m) == View(mem, bufs[k]);
  }

  lemma {:induction false} PlainOuts(mem: seq<byte>, was: seq<Message>, msgs: seq<Message>, bufs: seq<Slice>, addr: Addr, src: seq<byte>)
    requires InUse(was) && |bufs| <= |was| && Plain(was, msgs, bufs, addr, src, |bufs|) && ValidSrc(src) && AllValid(bufs, |mem|)
    ensures |bufs| <= |msgs| && AllSendable(mem, msgs[..|bufs|]) && Outs(mem, msgs[..|bufs|]) == Singles(Views(mem, bufs), addr)
  {
    hide *;
    PlainLength(was, msgs, bufs, addr, src);
    PlainOnWire(mem, was, msgs, bufs, addr, src, |bufs|);
    forall k | 0 <= k < |bufs| ensures Outs(mem, msgs[..|bufs|])[k] == Singles(Views(mem, bufs), addr)[k] {
      PlainPacket(mem, was, msgs, bufs, addr, src, k);
      assert msgs[..|bufs|][k] == msgs[k];
    }
  }

  /** Plain messages carry the buffers one by one, and none of them is segmented. */
  lemma {:induction false} PlainOnWire(mem: seq<byte>, was: seq<Message>, msgs: seq<Message>, bufs: seq<Slice>, addr: Addr, src: seq<byte>, k: nat)
    requires InUse(was) && |bufs| <= |was| && Plain(was, msgs, bufs, addr, src, |bufs|) && ValidSrc(src)
    requires AllValid(bufs, |mem|) && k <= |bufs|
    ensures AllSendable(mem, msgs[..k])
    ensures Carry(WireOf(mem, msgs[..k]), Views(mem, bufs)[..k], addr, SourceInfo(src))
    ensures Unsegmented(WireOf(mem, msgs[..k]))
  {
    hide *;
    PlainLength(was, msgs, bufs, addr, src);
    if k == 0 {
      NothingCarried(mem, msgs, Views(mem, bufs), addr, SourceInfo(src));
    } else {
      PlainOnWire(mem, was, msgs, bufs, addr, src, k - 1);
      PlainPacket(mem, was, msgs, bufs, addr, src, k - 1);
      WireOfLast(mem, msgs, k);
      CarryOneMore(WireOf(mem, msgs[..k - 1]), Views(mem, bufs), k - 1, addr, SourceInfo(src));
    }
  }

  lemma PlainLength(was: seq<Message>, msgs: seq<Message>, bufs: seq<Slice>, addr: Addr, src: seq<byte>)
    requires InUse(was) && |bufs| <= |was| && Plain(was, msgs, bufs, addr, src, |bufs|)
    ensures |msgs| == |was| && InUse(msgs)
  {
  }

  datatype SendResult =
    | Sent
    | Failed(err: WriteError)
    | GsoDisabled(retryErr: Option<WriteError>)
    | Blackholed
    | Unsupported

  /** What a call was asked to do. */
  datatype Request = Request(data: seq<seq<byte>>, cuts: seq<nat>, dst: Addr, src: Option<Cmsg>, offload: bool) {
    ghost predicate Valid() { Increasing(cuts, |data|) }
  }

  ghost predicate GroupsSent(q: Request, ps: seq<Packet>, k: nat)
    requires q.Valid()
  {
    k < |q.cuts| && Carry(ps, Segmentation.Wire(q.data, q.cuts, k), q.dst, q.src)
  }

  ghost predicate BuffersSent(q: Request, ps: seq<Packet>, k: nat) {
    k <= |q.data| && Carry(ps, q.data[..k], q.dst, q.src)
  }

  ghost predicate SentAlone(q: Request, ps: seq<Packet>, k: nat) { BuffersSent(q, ps, k) && Unsegmented(ps) }

  /** After `j` packets of the first pass, the second pass starts over without segmentation. */
  ghost predicate Retried(q: Request, ps: seq<Packet>, k: nat, j: nat, i: nat)
    requires q.Valid()
  {
    j <= |ps| && GroupsSent(q, ps[..j], k) && SentAlone(q, ps[j..], i)
  }

  /** The packets of one call, for each of its results. */
  ghost predicate Report(q: Request, r: SendResult, ps: seq<Packet>)
    requires q.Valid()
  {
    match r
    case Sent => if q.offload then GroupsSent(q, ps, |q.cuts| - 1) else SentAlone(q, ps, |q.data|)
    case Failed(e) =>
      if q.offload then e != EIO && exists k :: GroupsSent(q, ps, k) else exists k :: SentAlone(q, ps, k)
    case GsoDisabled(None) => q.offload && exists k, j :: Retried(q, ps, k, j, |q.data|)
    case GsoDisabled(Some(_)) => q.offload && exists k, j, i :: Retried(q, ps, k, j, i)
    case _ => ps == []
  }

  /** What the passes of a call hand over: the groups, or the buffers one by one without segmentation. */
  ghost function Groups(q: Request): (outs: seq<Outgoing>)
    requires q.Valid()
    ensures |outs| == |q.cuts| - 1
  {
    GroupOuts(q.data, q.cuts, q.dst)
  }

  function Singles(data: seq<seq<byte>>, dst: Addr): (outs: seq<Outgoing>)
    ensures |outs| == |data| && forall i :: 0 <= i < |data| ==> outs[i] == Outgoing(data[i], 0, Some(dst))
  {
    seq(|data|, i requires 0 <= i < |data| => Outgoing(data[i], 0, Some(dst)))
  }

  /** What the first pass hands over. */
  ghost function FirstOuts(q: Request): (outs: seq<Outgoing>)
    requires q.Valid()
    ensures q.offload ==> outs == Groups(q)
    ensures !q.offload ==> outs == Singles(q.data, q.dst)
  {
    if q.offload then Groups(q) else Singles(q.data, q.dst)
  }

  /** The write calls of one call, for each of its results: it succeeds if no write failed, starts over if a
      segmented one failed with EIO, and else returns the error of the write that failed. */
  ghost predicate Made(q: Request, r: SendResult, calls: seq<Call>)
    requires q.Valid()
  {
    match r
    case Sent => Pass(calls, FirstOuts(q), |FirstOuts(q)|, None)
    case Failed(e) => !(q.offload && e == EIO) && exists k :: Pass(calls, FirstOuts(q), k, Some(e))
    case GsoDisabled(e) => q.offload && exists m, k, i :: MadeTwice(calls, Groups(q), Singles(q.data, q.dst), m, k, i, e)
    case _ => calls == []
  }

  /** A pass that failed with EIO and then another. */
  ghost predicate MadeTwice(calls: seq<Call>, first: seq<Outgoing>, second: seq<Outgoing>, m: nat, k: nat, i: nat, e: Option<WriteError>) {
    m <= |calls| && Pass(calls[..m], first, k, Some(EIO)) && Pass(calls[m..], second, i, e)
  }

  /** So the answers of the kernel decide the result: success exactly if no write failed; the retry exactly
      if the first failure was EIO with segmentation on, with the error of the retry's own last write; and
      else the first failure. */
  lemma ResultExactly(q: Request, r: SendResult, calls: seq<Call>)
    requires q.Valid() && Made(q, r, calls) && !r.Blackholed? && !r.Unsupported?
    ensures r == Sent <==> forall i :: 0 <= i < |calls| ==> calls[i].err == None
    ensures r.GsoDisabled? <==> q.offload && exists i: nat :: FailsFirst(calls, i) && calls[i].err == Some(EIO)
    ensures r.Failed? <==> exists i: nat :: FailsFirst(calls, i) && !(q.offload && calls[i].err == Some(EIO))
    ensures r.Failed? ==> forall i: nat :: FailsFirst(calls, i) ==> calls[i].err == Some(r.err)
    ensures r.GsoDisabled? ==> forall i: nat :: FailsFirst(calls, i) ==> r.retryErr == if i + 1 < |calls| then calls[|calls| - 1].err else None
  {
    hide Groups, Singles, FirstOuts, Pass, FailsFirst;
    var outs := FirstOuts(q);
    match r
    case Sent =>
      PassFails(calls, outs, |outs|, None);
      NoneFails(calls);
    case Failed(e) =>
      var k: nat :| Pass(calls, outs, k, Some(e));
      PassFails(calls, outs, k, Some(e));
      FirstFails(calls, |calls| - 1);
    case GsoDisabled(e) =>
      var m: nat, k: nat, i: nat :| MadeTwice(calls, Groups(q), Singles(q.data, q.dst), m, k, i, e);
      TwoPasses(calls, Groups(q), Singles(q.data, q.dst), m, k, i, e);
      FirstFails(calls, m - 1);
  }

  lemma NoneFails(calls: seq<Call>)
    requires forall i :: 0 <= i < |calls| ==> calls[i].err == None
    ensures forall i: nat :: !FailsFirst(calls, i)
  {
  }

  lemma FirstFails(calls: seq<Call>, i: nat)
    requires FailsFirst(calls, i)
    ensures i < |calls| && calls[i].err != None && forall j: nat :: FailsFirst(calls, j) ==> j == i
  {
    forall j: nat | FailsFirst(calls, j) ensures j == i { OneFirst(calls, i, j); }
  }

  lemma TwoPasses(calls: seq<Call>, first: seq<Outgoing>, second: seq<Outgoing>, m: nat, k: nat, i: nat, e: Option<WriteError>)
    requires MadeTwice(calls, first, second, m, k, i, e)
    ensures m > 0 && FailsFirst(calls, m - 1) && calls[m - 1].err == Some(EIO)
    ensures e == if m < |calls| then calls[|calls| - 1].err else None
    ensures forall j: nat :: FailsFirst(calls, j) ==> j == m - 1
  {
    hide Follows;
    PassFails(calls[..m], first, k, Some(EIO));
    assert calls[..m][m - 1] == calls[m - 1];
    assert forall j :: 0 <= j < m ==> calls[..m][j] == calls[j];
  }

  /** What a call puts on the wire and which writes it makes for it. */
  ghost predicate Account(q: Request, r: SendResult, ps: seq<Packet>, calls: seq<Call>)
    requires q.Valid()
  {
    Report(q, r, ps) && Made(q, r, calls)
  }

  /** The first `j` packets carry the buffers up to a message boundary, the others all of them. */
  ghost predicate Resent(q: Request, ps: seq<Packet>, k: nat, j: nat) {
    && k < |q.cuts| && q.cuts[k] <= |q.data| && j <= |ps|
    && Carry(ps[..j], q.data[..q.cuts[k]], q.dst, q.src)
    && Carry(ps[j..], q.data, q.dst, q.src) && Unsegmented(ps[j..])
  }

  /** The same with a second pass that stopped after `i` buffers. */
  ghost predicate PartlyResent(q: Request, ps: seq<Packet>, k: nat, j: nat, i: nat) {
    && k < |q.cuts| && q.cuts[k] <= |q.data| && j <= |ps|
    && Carry(ps[..j], q.data[..q.cuts[k]], q.dst, q.src) && SentAlone(q, ps[j..], i)
  }

  /** Whole runs of Send with buffers that are not empty: a plain success put exactly the buffers on
      the wire; a success of the retry put a prefix of them, ending at a message boundary, and then
      all of them again, the second time without segmentation; a retry that failed put a prefix and
      then a prefix; any other failure put a prefix. */
  lemma WholeRun(b: Batch, q: Request, r: SendResult, ps: seq<Packet>)
    requires b.Valid() && b.lens == Lens(q.data) && q.cuts == GreedyCuts(b) && q.Valid() && Report(q, r, ps)
    requires forall i :: 0 <= i < |q.data| ==> |q.data[i]| > 0
    ensures r.Sent? ==> Carry(ps, q.data, q.dst, q.src)
    ensures r == GsoDisabled(None) ==> exists k, j :: Resent(q, ps, k, j)
    ensures r.GsoDisabled? && r.retryErr.Some? ==> exists k, j, i :: PartlyResent(q, ps, k, j, i)
    ensures r.Failed? ==> exists k :: BuffersSent(q, ps, k)
  {
    hide Carry, Legal, Unsegmented;
    assert q.data[..|q.data|] == q.data;
    match r
    case Sent =>
      if q.offload { GroupsArePrefix(b, q, ps, |q.cuts| - 1); }
    case Failed(e) =>
      if q.offload {
        var k: nat :| GroupsSent(q, ps, k);
        GroupsArePrefix(b, q, ps, k);
        assert BuffersSent(q, ps, q.cuts[k]);
      } else {
        var k: nat :| SentAlone(q, ps, k);
        assert BuffersSent(q, ps, k);
      }
    case GsoDisabled(None) =>
      var k: nat, j: nat :| Retried(q, ps, k, j, |q.data|);
      GroupsArePrefix(b, q, ps[..j], k);
      assert Resent(q, ps, k, j);
    case GsoDisabled(Some(_)) =>
      var k: nat, j: nat, i: nat :| Retried(q, ps, k, j, i);
      GroupsArePrefix(b, q, ps[..j], k);
      assert PartlyResent(q, ps, k, j, i);
    case _ =>
  }

  lemma GroupsArePrefix(b: Batch, q: Request, ps: seq<Packet>, k: nat)
    requires b.Valid() && b.lens == Lens(q.data) && q.cuts == GreedyCuts(b) && q.Valid() && GroupsSent(q, ps, k)
    requires forall i :: 0 <= i < |q.data| ==> |q.data[i]| > 0
    ensures q.cuts[k] <= |q.data| && Carry(ps, q.data[..q.cuts[k]], q.dst, q.src)
  {
    hide Carry, Legal;
    WireExact(b, q.data, q.cuts);
    WirePrefix(b, q.data, q.cuts, k);
  }

  // ---------------------------------------------------------------- what may be joined

  /** Group `k` of a division keeps to these bounds if it joins anything, and the buffer after it would not
      have kept to them: no more bytes than the limit or than the first buffer holds, at most 64 buffers,
      none longer than the first, and none after a shorter one. */
  ghost predicate JoinedExactly(data: seq<seq<byte>>, caps: seq<nat>, cuts: seq<nat>, k: nat, limit: nat)
    requires Increasing(cuts, |data|) && k + 1 < |cuts| && |caps| == |data|
  {
    CutBounds(cuts, |data|, k + 1);
    var s, e := cuts[k], cuts[k + 1];
    var bytes := |Flatten(data[s..e])|;
    && (e - s >= 2 ==> bytes <= limit && bytes <= caps[s] && e - s <= 64)
    && (forall i :: s <= i < e ==> |data[i]| <= |data[s]| && (i + 1 < e ==> |data[i]| == |data[s]|))
    && (e < |data| ==>
          !(&& bytes + |data[e]| <= limit && bytes + |data[e]| <= caps[s] && e - s < 64
            && |data[e]| <= |data[s]| && |data[e - 1]| == |data[s]|))
  }

  lemma CutsExactly(b: Batch, data: seq<seq<byte>>, k: nat)
    requires b.Valid() && b.lens == Lens(data) && k + 1 < |GreedyCuts(b)|
    ensures Increasing(GreedyCuts(b), |data|) && |b.caps| == |data| && JoinedExactly(data, b.caps, GreedyCuts(b), k, b.limit)
  {
    hide Legal, GreedyCuts, Flatten, SumRange;
    var cuts := GreedyCuts(b);
    CutBounds(cuts, |data|, k + 1);
    var s, e := cuts[k], cuts[k + 1];
    assert Legal(b, s, e) && !Legal(b, s, e + 1);
    FlattenLength(data, s, e);
    LegalIs(b, s, e);
    if e < |data| { JoinTest(b, s, e); }
  }

  lemma LegalIs(b: Batch, s: nat, e: nat)
    requires b.Valid() && Legal(b, s, e)
    ensures s < e <= |b.lens| && e - s <= 64
    ensures e - s >= 2 ==> SumRange(b.lens, s, e) <= b.limit && SumRange(b.lens, s, e) <= b.caps[s]
    ensures forall i :: s <= i < e ==> b.lens[i] <= b.lens[s] && (i + 1 < e ==> b.lens[i] == b.lens[s])
  {
    hide SumRange;
  }

  /** For a send of the bind, by its destination: 65507 bytes for an IPv4 one, 65527 for an IPv6 one. */
  lemma BindJoins(bufs: seq<Slice>, data: seq<seq<byte>>, dst: seq<byte>, addr: Addr, src: seq<byte>, offload: bool, k: nat)
    requires Lens(data) == Lengths(bufs) && |data| == |bufs| && IsIP(dst)
    requires k + 1 < |RequestOf(bufs, data, |dst| == 16, addr, src, offload).cuts|
    ensures JoinedExactly(data, Capacities(bufs), RequestOf(bufs, data, |dst| == 16, addr, src, offload).cuts, k, if |dst| == 4 then 65507 else 65527)
  {
    CutsExactly(Batch(Lengths(bufs), Capacities(bufs), PayloadLimit(|dst| == 16)), data, k);
    hide GreedyCuts, JoinedExactly, SourceInfo;
  }

  /** Whatever a call hands to the socket with a segment size is one of its groups. */
  lemma HandedGroup(q: Request, r: SendResult, calls: seq<Call>, i: nat, o: Outgoing) returns (k: nat)
    requires q.Valid() && Made(q, r, calls) && i < |calls| && o in calls[i].batch && o.size > 0
    ensures k + 1 < |q.cuts| && o == GroupOut(q.data, q.cuts, k, q.dst)
  {
    hide Pass, GroupOut;
    if r.GsoDisabled? {
      var m: nat, k': nat, i': nat :| MadeTwice(calls, Groups(q), Singles(q.data, q.dst), m, k', i', r.retryErr);
      HandedTwice(calls, Groups(q), Singles(q.data, q.dst), m, k', i', r.retryErr, i, o);
    } else if r.Sent? {
      Handed(calls, FirstOuts(q), |FirstOuts(q)|, None, i, o);
    } else {
      var k': nat :| Pass(calls, FirstOuts(q), k', Some(r.err));
      Handed(calls, FirstOuts(q), k', Some(r.err), i, o);
    }
    k :| 0 <= k < |Groups(q)| && Groups(q)[k] == o;
  }

  /** So no message that asks for segmentation is larger than its destination allows. */
  lemma BindHandsWithin(bufs: seq<Slice>, data: seq<seq<byte>>, dst: seq<byte>, addr: Addr, src: seq<byte>, offload: bool,
                        r: SendResult, calls: seq<Call>, i: nat, o: Outgoing)
    requires Lens(data) == Lengths(bufs) && |data| == |bufs| && IsIP(dst)
    requires Made(RequestOf(bufs, data, |dst| == 16, addr, src, offload), r, calls) && i < |calls| && o in calls[i].batch
    ensures o.size > 0 ==> |o.payload| <= if |dst| == 4 then 65507 else 65527
  {
    hide RequestOf, Made, Flatten;
    var q := RequestOf(bufs, data, |dst| == 16, addr, src, offload);
    RequestFacts(bufs, data, |dst| == 16, addr, src, offload);
    if o.size > 0 {
      var k := HandedGroup(q, r, calls, i, o);
      BindJoins(bufs, data, dst, addr, src, offload, k);
    }
  }

  lemma HandedTwice(calls: seq<Call>, first: seq<Outgoing>, second: seq<Outgoing>, m: nat, k: nat, i: nat, e: Option<WriteError>, j: nat, o: Outgoing)
    requires MadeTwice(calls, first, second, m, k, i, e) && j < |calls| && o in calls[j].batch
    ensures o in first || o in second
  {
    hide Pass;
    if j < m {
      assert calls[..m][j] == calls[j];
      Handed(calls[..m], first, k, Some(EIO), j, o);
    } else {
      assert calls[m..][j - m] == calls[j];
      Handed(calls[m..], second, i, e, j - m, o);
    }
  }

  // ---------------------------------------------------------------- Send

  ghost function RequestOf(bufs: seq<Slice>, data: seq<seq<byte>>, is6: bool, dst: Addr, src: seq<byte>, offload: bool): (q: Request)
    requires |data| == |bufs|
    ensures q.Valid()
  {
    Request(data, GreedyCuts(Batch(Lengths(bufs), Capacities(bufs), PayloadLimit(is6))), dst, SourceInfo(src), offload)
  }

  lemma CoalescedInUse(job: Job, mem: seq<byte>, msgs: seq<Message>, n: nat)
    requires job.Valid() && !job.gather && InUse(job.was) && Coalesced(job, mem, msgs, n)
    ensures n <= |job.bufs| <= |msgs| == |job.was| && InUse(msgs)
    ensures AllValid(job.bufs, |mem|) && Views(mem, job.bufs) == job.data
  {
    hide Legal, Job.Holds, SetGSO, SetSrc, Job.Batch;
    forall k | 0 <= k < |msgs| ensures msgs[k].oob.Valid() && |msgs[k].oob.mem| == CONTROL_CAPACITY && |msgs[k].buffers| == 1 {
      if k < n {
        assert GroupSent(job, mem, msgs, GreedyCuts(job.Batch()), k);
      }
    }
  }

  lemma InUseIsRoomy(job: Job)
    requires InUse(job.was) && ValidSrc(job.src)
    ensures Roomy(job)
  {
    SrcLength(job.src);
  }

  /** What is on the wire after `sent` coalesced messages. */
  lemma CoalescedStep(job: Job, mem: seq<byte>, msgs: seq<Message>, n: nat, sent: nat)
    requires job.Valid() && !job.gather && InUse(job.was) && ValidSrc(job.src) && Coalesced(job, mem, msgs, n)
    requires n <= |msgs| && sent <= n
    ensures AllSendable(mem, msgs[..n]) && AllSendable(mem, msgs[..n][..sent])
    ensures var q := RequestOf(job.bufs, job.data, job.is6, job.addr, job.src, true);
            n == |q.cuts| - 1 && GroupsSent(q, WireOf(mem, msgs[..n][..sent]), sent)
  {
    hide SegmentSize, SourceInfo, Legal, Carry, Sendable, ValidSrc, Coalesced, WireOf, Roomy;
    InUseIsRoomy(job);
    NonNegative(job, mem, msgs, n);
    CoalescedOnWire(job, mem, msgs, n, n);
    CoalescedOnWire(job, mem, msgs, n, sent);
    assert msgs[..n][..sent] == msgs[..sent];
  }

  lemma CoalescedGroups(job: Job, mem: seq<byte>, msgs: seq<Message>, n: nat)
    requires job.Valid() && !job.gather && InUse(job.was) && ValidSrc(job.src) && Coalesced(job, mem, msgs, n)
    ensures n <= |msgs| && AllSendable(mem, msgs[..n])
    ensures Outs(mem, msgs[..n]) == Groups(RequestOf(job.bufs, job.data, job.is6, job.addr, job.src, true))
  {
    hide SegmentSize, SourceInfo, Legal, Sendable, ValidSrc, Coalesced, Roomy, OutgoingOf, GroupOut;
    InUseIsRoomy(job);
    CoalescedOuts(job, mem, msgs, n);
  }

  method SendCoalesced(sock: Socket, mem: array<byte>, bufs: seq<Slice>, dst: Addr, is6: bool, src: seq<byte>,
                       msgs: array<Message>, batch: bool)
    returns (err: Option<WriteError>, ghost sent: nat, ghost ps: seq<Packet>, ghost made: seq<Call>)
    requires AllValid(bufs, mem.Length) && AllDisjoint(bufs) && |bufs| <= msgs.Length
    requires InUse(msgs[..]) && ValidSrc(src)
    modifies sock, mem, msgs
    ensures InUse(msgs[..]) && Views(mem[..], bufs) == old(Views(mem[..], bufs)) && SameBeyond(old(mem[..]), mem[..], bufs)
    ensures sock.wire == old(sock.wire) + ps && sock.calls == old(sock.calls) + made
    ensures var q := RequestOf(bufs, old(Views(mem[..], bufs)), is6, dst, src, true);
            GroupsSent(q, ps, sent) && (err.None? ==> sent == |q.cuts| - 1) && Pass(made, Groups(q), sent, err)
  {
    hide *;
    ghost var job := Job(false, bufs, Views(mem[..], bufs), is6, dst, src, msgs[..]);
    InUseFacts(msgs[..]);
    ProgressStart(job, mem[..]);
    var n := CoalesceMessages(mem, dst, is6, src, bufs, msgs);
    CoalescedInUse(job, mem[..], msgs[..], n);
    CoalescedStep(job, mem[..], msgs[..], n, 0);
    InUseFacts(msgs[..]);
    err, sent, made := sock.SendMessages(mem, msgs, n, batch);
    CoalescedStep(job, mem[..], msgs[..], n, sent);
    CoalescedGroups(job, mem[..], msgs[..], n);
    ps := WireOf(mem[..], msgs[..n][..sent]);
  }

  lemma InUseFacts(msgs: seq<Message>)
    requires InUse(msgs)
    ensures forall k :: 0 <= k < |msgs| ==> msgs[k].oob.Valid() && |msgs[k].buffers| == 1
  {
  }

  method SendPlain(sock: Socket, mem: array<byte>, bufs: seq<Slice>, dst: Addr, is6: bool, src: seq<byte>,
                   msgs: array<Message>, batch: bool)
    returns (err: Option<WriteError>, ghost sent: nat, ghost ps: seq<Packet>, ghost made: seq<Call>)
    requires AllValid(bufs, mem.Length) && |bufs| <= msgs.Length
    requires InUse(msgs[..]) && ValidSrc(src)
    modifies sock, msgs
    ensures InUse(msgs[..]) && sock.wire == old(sock.wire) + ps && sock.calls == old(sock.calls) + made
    ensures var q := RequestOf(bufs, Views(mem[..], bufs), is6, dst, src, true);
            SentAlone(q, ps, sent) && (err.None? ==> sent == |bufs|) && Pass(made, Singles(Views(mem[..], bufs), dst), sent, err)
  {
    hide *;
    ghost var was := msgs[..];
    PlainMessages(bufs, dst, src, msgs);
    PlainLength(was, msgs[..], bufs, dst, src);
    PlainOnWire(mem[..], was, msgs[..], bufs, dst, src, |bufs|);
    InUseFacts(msgs[..]);
    err, sent, made := sock.SendMessages(mem, msgs, |bufs|, batch);
    PlainOnWire(mem[..], was, msgs[..], bufs, dst, src, sent);
    PlainOuts(mem[..], was, msgs[..], bufs, dst, src);
    assert msgs[..|bufs|][..sent] == msgs[..sent];
    ps := WireOf(mem[..], msgs[..|bufs|][..sent]);
    PlainSent(bufs, Views(mem[..], bufs), is6, dst, src, ps, sent);
  }

  lemma PlainSent(bufs: seq<Slice>, data: seq<seq<byte>>, is6: bool, dst: Addr, src: seq<byte>, ps: seq<Packet>, k: nat)
    requires |data| == |bufs| && k <= |bufs| && Carry(ps, data[..k], dst, SourceInfo(src)) && Unsegmented(ps)
    ensures SentAlone(RequestOf(bufs, data, is6, dst, src, true), ps, k)
  {
  }

  /** The body of Send between taking and returning the pooled objects. */
  method Transmit(sock: Socket, mem: array<byte>, bufs: seq<Slice>, dst: Addr, is6: bool, src: seq<byte>,
                  msgs: array<Message>, offload: bool, batch: bool)
    returns (r: SendResult, ghost ps: seq<Packet>, ghost made: seq<Call>)
    requires AllValid(bufs, mem.Length) && AllDisjoint(bufs) && |bufs| <= msgs.Length
    requires InUse(msgs[..]) && ValidSrc(src)
    modifies sock, mem, msgs
    ensures InUse(msgs[..]) && Views(mem[..], bufs) == old(Views(mem[..], bufs)) && SameBeyond(old(mem[..]), mem[..], bufs)
    ensures sock.wire == old(sock.wire) + ps && sock.calls == old(sock.calls) + made && !r.Blackholed? && !r.Unsupported?
    ensures Account(RequestOf(bufs, old(Views(mem[..], bufs)), is6, dst, src, offload), r, ps, made)
  {
    hide *;
    ghost var before, calls, data := sock.wire, sock.calls, Views(mem[..], bufs);
    RequestFacts(bufs, data, is6, dst, src, true);
    SameItself(mem[..], bufs);
    if offload {
      var err;
      ghost var sent;
      err, sent, ps, made := SendCoalesced(sock, mem, bufs, dst, is6, src, msgs, batch);
      if err == Some(EIO) {
        var err';
        ghost var sent', ps', made';
        err', sent', ps', made' := SendPlain(sock, mem, bufs, dst, is6, src, msgs, batch);
        Reassociate(before, ps, ps');
        Reassociate(calls, made, made');
        AccountRetry(RequestOf(bufs, data, is6, dst, src, true), ps, ps', made, made', sent, sent', err');
        return GsoDisabled(err'), ps + ps', made + made';
      }
      AccountCoalesced(RequestOf(bufs, data, is6, dst, src, true), ps, made, sent, err);
      r := if err.Some? then Failed(err.value) else Sent;
    } else {
      var err;
      ghost var sent;
      err, sent, ps, made := SendPlain(sock, mem, bufs, dst, is6, src, msgs, batch);
      AccountPlain(bufs, data, is6, dst, src, ps, made, sent, err);
      r := if err.Some? then Failed(err.value) else Sent;
    }
  }

  lemma RequestFacts(bufs: seq<Slice>, data: seq<seq<byte>>, is6: bool, dst: Addr, src: seq<byte>, offload: bool)
    requires |data| == |bufs|
    ensures var q := RequestOf(bufs, data, is6, dst, src, offload); q.data == data && q.offload == offload && q.dst == dst
  {
  }

  lemma ReportCoalesced(q: Request, ps: seq<Packet>, sent: nat, err: Option<WriteError>)
    requires q.Valid() && q.offload && GroupsSent(q, ps, sent) && err != Some(EIO)
    requires err.None? ==> sent == |q.cuts| - 1
    ensures Report(q, if err.Some? then Failed(err.value) else Sent, ps)
  {
  }

  lemma ReportRetry(q: Request, ps: seq<Packet>, ps': seq<Packet>, sent: nat, sent': nat, err: Option<WriteError>)
    requires q.Valid() && q.offload && GroupsSent(q, ps, sent) && SentAlone(q, ps', sent')
    requires err.None? ==> sent' == |q.data|
    ensures Report(q, GsoDisabled(err), ps + ps')
  {
    hide Carry, Segmentation.Wire;
    var all := ps + ps';
    assert all[..|ps|] == ps && all[|ps|..] == ps';
    assert Retried(q, all, sent, |ps|, sent');
  }

  lemma ReportPlain(bufs: seq<Slice>, data: seq<seq<byte>>, is6: bool, dst: Addr, src: seq<byte>, ps: seq<Packet>,
                    sent: nat, err: Option<WriteError>)
    requires |data| == |bufs| && SentAlone(RequestOf(bufs, data, is6, dst, src, true), ps, sent)
    requires err.None? ==> sent == |bufs|
    ensures Report(RequestOf(bufs, data, is6, dst, src, false), if err.Some? then Failed(err.value) else Sent, ps)
  {
    hide Carry;
    assert SentAlone(RequestOf(bufs, data, is6, dst, src, false), ps, sent);
  }

  // The same with the calls that were made.
  lemma AccountCoalesced(q: Request, ps: seq<Packet>, made: seq<Call>, sent: nat, err: Option<WriteError>)
    requires q.Valid() && q.offload && GroupsSent(q, ps, sent) && err != Some(EIO) && Pass(made, Groups(q), sent, err)
    requires err.None? ==> sent == |q.cuts| - 1
    ensures Account(q, if err.Some? then Failed(err.value) else Sent, ps, made)
  {
    hide Report, Pass, GroupsSent, Groups, FirstOuts;
    ReportCoalesced(q, ps, sent, err);
    if err.Some? { assert Pass(made, FirstOuts(q), sent, Some(err.value)); }
  }

  lemma AccountRetry(q: Request, ps: seq<Packet>, ps': seq<Packet>, made: seq<Call>, made': seq<Call>, sent: nat, sent': nat, err: Option<WriteError>)
    requires q.Valid() && q.offload && GroupsSent(q, ps, sent) && SentAlone(q, ps', sent')
    requires Pass(made, Groups(q), sent, Some(EIO)) && Pass(made', Singles(q.data, q.dst), sent', err)
    requires err.None? ==> sent' == |q.data|
    ensures Account(q, GsoDisabled(err), ps + ps', made + made')
  {
    hide Report, Pass, GroupsSent, SentAlone, Groups, Singles;
    ReportRetry(q, ps, ps', sent, sent', err);
    var all := made + made';
    assert all[..|made|] == made && all[|made|..] == made';
    assert MadeTwice(all, Groups(q), Singles(q.data, q.dst), |made|, sent, sent', err);
  }

  lemma AccountPlain(bufs: seq<Slice>, data: seq<seq<byte>>, is6: bool, dst: Addr, src: seq<byte>, ps: seq<Packet>, made: seq<Call>,
                     sent: nat, err: Option<WriteError>)
    requires |data| == |bufs| && SentAlone(RequestOf(bufs, data, is6, dst, src, true), ps, sent)
    requires (err.None? ==> sent == |bufs|) && Pass(made, Singles(data, dst), sent, err)
    ensures Account(RequestOf(bufs, data, is6, dst, src, false), if err.Some? then Failed(err.value) else Sent, ps, made)
  {
    hide Report, Pass, SentAlone, Groups, Singles, RequestOf, FirstOuts;
    ReportPlain(bufs, data, is6, dst, src, ps, sent, err);
    RequestFacts(bufs, data, is6, dst, src, false);
    if err.Some? { assert Pass(made, FirstOuts(RequestOf(bufs, data, is6, dst, src, false)), sent, Some(err.value)); }
  }

  class StdNetBind {
    var ipv4: Socket?
    var ipv6: Socket?
    var ipv4TxOffload: bool
    var ipv6TxOffload: bool
    var blackhole4: bool
    var blackhole6: bool
    const batch: bool               // whether native batch I/O is available
    const msgsPool: MessagePool
    const udpAddrPool: AddrPool

    ghost predicate Valid()
      reads this, msgsPool, msgsPool.free, udpAddrPool, udpAddrPool.free
    {
      msgsPool.Valid() && udpAddrPool.Valid()
    }

    constructor (batchSize: nat, batch: bool)
      ensures Valid() && msgsPool.batchSize == batchSize && ipv4 == null && ipv6 == null
      ensures fresh(msgsPool) && fresh(udpAddrPool) && msgsPool.free == {} && udpAddrPool.free == {} && udpAddrPool.seen == {}
    {
      ipv4, ipv6 := null, null;
      ipv4TxOffload, ipv6TxOffload, blackhole4, blackhole6 := false, false, false, false;
      this.batch := batch;
      msgsPool := new MessagePool(batchSize);
      udpAddrPool := new AddrPool();
    }

    /** The socket a destination is sent through, and that family's flags. */
    function SocketFor(dst: seq<byte>): Socket?
      reads this
    {
      if |dst| == 16 then ipv6 else ipv4
    }

    predicate OffloadFor(dst: seq<byte>)
      reads this
    {
      if |dst| == 16 then ipv6TxOffload else ipv4TxOffload
    }

    predicate BlackholeFor(dst: seq<byte>)
      reads this
    {
      if |dst| == 16 then blackhole6 else blackhole4
    }

    /** Sends through a socket with a pooled address object and pooled messages. The object carries the
        destinations of earlier sends, and those only. */
    method SendVia(sock: Socket, mem: array<byte>, bufs: seq<Slice>, dst: seq<byte>, port: nat, src: seq<byte>, offload: bool)
      returns (r: SendResult, ghost history: seq<seq<byte>>, ghost ps: seq<Packet>, ghost made: seq<Call>)
      requires Valid() && IsIP(dst) && ValidSrc(src)
      requires AllValid(bufs, mem.Length) && AllDisjoint(bufs) && |bufs| <= msgsPool.batchSize
      modifies mem, sock, msgsPool, msgsPool.free, udpAddrPool, udpAddrPool.free
      ensures Valid() && fresh(msgsPool.free - old(msgsPool.free)) && fresh(udpAddrPool.free - old(udpAddrPool.free))
      ensures Views(mem[..], bufs) == old(Views(mem[..], bufs)) && SameBeyond(old(mem[..]), mem[..], bufs)
      ensures sock.wire == old(sock.wire) + ps && sock.calls == old(sock.calls) + made && !r.Blackholed? && !r.Unsupported?
      ensures AllIP(history) && (forall d :: d in history ==> d in old(udpAddrPool.seen)) && udpAddrPool.seen == old(udpAddrPool.seen) + {dst}
      ensures Account(RequestOf(bufs, old(Views(mem[..], bufs)), |dst| == 16, Destination(history, dst, port), src, offload), r, ps, made)
    {
      hide *;
      Pools();
      var msgs := msgsPool.Get();
      var ua := udpAddrPool.Get();
      history := ua.history;
      ua.SetDestination(dst, port);
      CleanInUse(msgs[..]);
      r, ps, made := Transmit(sock, mem, bufs, ua.Value(), |dst| == 16, src, msgs, offload, batch);
      udpAddrPool.Put(ua, dst);
      msgsPool.Put(msgs);
      Pools();
    }

    lemma Pools()
      ensures Valid() <==> msgsPool.Valid() && udpAddrPool.Valid()
    {
    }

    /** Every call reports what it put on the wire and keeps the caller's buffers and both pools.
        Only a rejected segmentation changes the offload flag, and only to false. */
    method Send(mem: array<byte>, bufs: seq<Slice>, dst: seq<byte>, port: nat, src: seq<byte>)
      returns (r: SendResult, ghost history: seq<seq<byte>>, ghost ps: seq<Packet>, ghost made: seq<Call>)
      requires Valid() && IsIP(dst) && ValidSrc(src)
      requires AllValid(bufs, mem.Length) && AllDisjoint(bufs) && |bufs| <= msgsPool.batchSize
      modifies this, mem, ipv4, ipv6, msgsPool, msgsPool.free, udpAddrPool, udpAddrPool.free
      ensures Valid() && fresh(msgsPool.free - old(msgsPool.free)) && fresh(udpAddrPool.free - old(udpAddrPool.free))
      ensures Views(mem[..], bufs) == old(Views(mem[..], bufs)) && SameBeyond(old(mem[..]), mem[..], bufs)
      ensures ipv4 == old(ipv4) && ipv6 == old(ipv6) && blackhole4 == old(blackhole4) && blackhole6 == old(blackhole6)
      ensures r.Blackholed? <==> BlackholeFor(dst)
      ensures r.Unsupported? <==> !BlackholeFor(dst) && SocketFor(dst) == null
      ensures ipv4TxOffload == (old(ipv4TxOffload) && !(r.GsoDisabled? && |dst| == 4))
      ensures ipv6TxOffload == (old(ipv6TxOffload) && !(r.GsoDisabled? && |dst| == 16))
      ensures ipv4 != null ==> ipv4.wire == old(ipv4.wire) + if SocketFor(dst) == ipv4 then ps else []
      ensures ipv6 != null ==> ipv6.wire == old(ipv6.wire) + if SocketFor(dst) == ipv6 then ps else []
      ensures AllIP(history) && (forall d :: d in history ==> d in old(udpAddrPool.seen))
      ensures udpAddrPool.seen == old(udpAddrPool.seen) + if r.Blackholed? || r.Unsupported? then {} else {dst}
      ensures ipv4 != null ==> ipv4.calls == old(ipv4.calls) + if SocketFor(dst) == ipv4 then made else []
      ensures ipv6 != null ==> ipv6.calls == old(ipv6.calls) + if SocketFor(dst) == ipv6 then made else []
      ensures Account(RequestOf(bufs, old(Views(mem[..], bufs)), |dst| == 16, Destination(history, dst, port), src,
                                old(OffloadFor(dst))), r, ps, made)
    {
      hide *;
      Family(dst);
      SameItself(mem[..], bufs);
      var blackhole, conn, offload, is6 := blackhole4, ipv4, ipv4TxOffload, false;
      if |dst| == 16 {
        blackhole, conn, is6, offload := blackhole6, ipv6, true, ipv6TxOffload;
      }
      if blackhole || conn == null {
        r, history, ps, made := if blackhole then Blackholed else Unsupported, [], [], [];
        ReportNothing(RequestOf(bufs, Views(mem[..], bufs), |dst| == 16, Destination(history, dst, port), src, offload), r);
        return;
      }
      r, history, ps, made := SendVia(conn, mem, bufs, dst, port, src, offload);
      Family(dst);
      if r.GsoDisabled? {
        LowerOffload(is6);
      }
      Family(dst);
    }

    lemma Family(dst: seq<byte>)
      ensures SocketFor(dst) == (if |dst| == 16 then ipv6 else ipv4) && (IsIP(dst) ==> |dst| == 4 || |dst| == 16)
      ensures OffloadFor(dst) == (if |dst| == 16 then ipv6TxOffload else ipv4TxOffload)
      ensures BlackholeFor(dst) == (if |dst| == 16 then blackhole6 else blackhole4)
      ensures AllIP([])
    {
    }

    method LowerOffload(is6: bool)
      requires Valid()
      modifies this`ipv4TxOffload, this`ipv6TxOffload
      ensures Valid()
      ensures ipv4TxOffload == (old(ipv4TxOffload) && is6) && ipv6TxOffload == (old(ipv6TxOffload) && !is6)
    {
      if is6 { ipv6TxOffload := false; } else { ipv4TxOffload := false; }
    }
  }

  lemma ReportNothing(q: Request, r: SendResult)
    requires q.Valid() && (r.Blackholed? || r.Unsupported?)
    ensures Account(q, r, [], [])
  {
  }

  lemma CleanInUse(msgs: seq<Message>)
    requires Clean(msgs)
    ensures InUse(msgs)
  {
  }
}
