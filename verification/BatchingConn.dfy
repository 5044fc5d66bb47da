/** linuxBatchingConn.WriteBatchTo: scatter-gather sends and their retry.

    The retry replaces only the first chunk of each message, so it does not undo the first pass. */
module BatchingConn {
  import opened Bytes
  import opened Control
  import opened Memory
  import opened Grouping
  import opened Segmentation
  import opened Coalesce
  import opened Wire
  import opened Writes
  import opened Address
  import opened Send

  /** The payload limit goes by whether the address has a 4-byte form. */
  predicate UsesIPv6Limit(ip: seq<byte>) { |ip| != 4 && !IsIPv4Mapped(ip) }

  // ---------------------------------------------------------------- what the retry sends

  /** The payload of message `i` of the retry: its buffer and the chunks the first pass left there. */
  function RetryData(data: seq<seq<byte>>, cuts: seq<nat>, i: nat): seq<byte>
    requires Increasing(cuts, |data|) && i < |data|
  {
    if i + 1 < |cuts| then
      CutBounds(cuts, |data|, i + 1);
      data[i] + Flatten(data[cuts[i] + 1..cuts[i + 1]])
    else data[i]
  }

  function RetryAll(data: seq<seq<byte>>, cuts: seq<nat>): (r: seq<seq<byte>>)
    requires Increasing(cuts, |data|)
    ensures |r| == |data|
  {
    seq(|data|, i requires 0 <= i < |data| => RetryData(data, cuts, i))
  }

  lemma {:induction false} CutsSpread(cuts: seq<nat>, n: nat, i: nat)
    requires Increasing(cuts, n) && i < |cuts|
    ensures i <= cuts[i] && cuts[i] + (|cuts| - 1 - i) <= n
    decreases |cuts| - i
  {
    if i + 1 < |cuts| { CutsSpread(cuts, n, i + 1); }
    CutsAtLeast(cuts, n, i);
  }

  lemma {:induction false} CutsAtLeast(cuts: seq<nat>, n: nat, i: nat)
    requires Increasing(cuts, n) && i < |cuts|
    ensures i <= cuts[i]
  {
    if i > 0 { CutsAtLeast(cuts, n, i - 1); }
  }

  // With fewer messages than buffers some message joined two.
  lemma {:induction false} SomeJoined(cuts: seq<nat>, n: nat, i: nat) returns (k: nat)
    requires Increasing(cuts, n) && i < |cuts| && cuts[i] > i
    ensures k + 1 < |cuts| && cuts[k + 1] - cuts[k] >= 2
  {
    if cuts[i - 1] > i - 1 { k := SomeJoined(cuts, n, i - 1); } else { CutsAtLeast(cuts, n, i - 1); k := i - 1; }
  }

  /** A retry sends each buffer alone exactly when the first pass joined no buffers. */
  lemma RetryExact(data: seq<seq<byte>>, cuts: seq<nat>)
    requires Increasing(cuts, |data|)
    requires forall i :: 0 <= i < |data| ==> |data[i]| > 0
    ensures RetryAll(data, cuts) == data <==> |cuts| - 1 == |data|
  {
    CutsSpread(cuts, |data|, 0);
    if |cuts| - 1 == |data| {
      forall i | 0 <= i < |data| ensures RetryData(data, cuts, i) == data[i] {
        CutsSpread(cuts, |data|, i);
        CutsSpread(cuts, |data|, i + 1);
        assert data[cuts[i] + 1..cuts[i + 1]] == [];
      }
    } else {
      var k := SomeJoined(cuts, |data|, |cuts| - 1);
      CutBounds(cuts, |data|, k + 1);
      var rest := data[cuts[k] + 1..cuts[k + 1]];
      assert |rest[0]| > 0 && Flatten(rest) == rest[0] + Flatten(rest[1..]);
      assert RetryAll(data, cuts)[k] == data[k] + Flatten(rest);
      assert |RetryAll(data, cuts)[k]| > |data[k]|;
    }
  }

  /** Two one-byte buffers: the retry sends them glued together, and then the second again. */
  lemma RetryGluesBuffers(limit: nat)
    requires limit >= 2
    ensures var data: seq<seq<byte>> := [[1], [2]];
            GreedyCuts(Unbounded(Batch([1, 1], [0, 0], limit))) == [0, 2] && RetryAll(data, [0, 2]) == [[1, 2], [2]]
  {
    var b := Unbounded(Batch([1, 1], [0, 0], limit));
    assert SumRange(b.lens, 0, 0) == 0 && SumRange(b.lens, 0, 1) == 1 && SumRange(b.lens, 0, 2) == 2;
    assert Legal(b, 0, 2);
    GreedyUnique(b, [0, 2]);
    var data: seq<seq<byte>> := [[1], [2]];
    assert data[1..2] == [[2]] && Flatten([[2]]) == [2] + Flatten([]);
    assert RetryData(data, [0, 2], 0) == [1] + [2] == [1, 2];
  }

  // ---------------------------------------------------------------- messages of the send pool

  predicate PoolReady(msgs: seq<Message>) {
    forall k :: 0 <= k < |msgs| ==>
      && |msgs[k].buffers| == 1 && msgs[k].oob.Valid() && |msgs[k].oob.mem| == GSO_SPACE
      && msgs[k].n == 0 && msgs[k].nn == 0 && msgs[k].oob.len == 0
  }

  // Between taking and returning: at least one chunk, at most as many as the pooled list holds.
  predicate BatchInUse(msgs: seq<Message>) {
    forall k :: 0 <= k < |msgs| ==>
      0 < |msgs[k].buffers| <= MAX_SEGMENTS && msgs[k].oob.Valid() && |msgs[k].oob.mem| == GSO_SPACE
  }

  /** The chunk lists of a gathered batch stay within the pooled capacity of 64. */
  lemma GatheredInUse(job: Job, mem: seq<byte>, msgs: seq<Message>, n: nat)
    requires job.Valid() && job.gather && BatchInUse(job.was) && Coalesced(job, mem, msgs, n)
    ensures n <= |job.bufs| <= |msgs| == |job.was| && BatchInUse(msgs)
  {
    hide Job.Holds, SetGSO, SetSrc, Job.Batch, SumRange;
    var cuts := GreedyCuts(job.Batch());
    forall k | 0 <= k < |msgs|
      ensures 0 < |msgs[k].buffers| <= MAX_SEGMENTS && msgs[k].oob.Valid() && |msgs[k].oob.mem| == GSO_SPACE
    {
      if k < n {
        assert GroupSent(job, mem, msgs, cuts, k);
        assert Legal(job.Batch(), cuts[k], cuts[k + 1]);
      }
    }
  }

  /** The messages of a plain pass: only the first chunk is replaced. */
  ghost predicate Replaced(was: seq<Message>, msgs: seq<Message>, bufs: seq<Slice>, addr: Addr, n: nat)
    requires BatchInUse(was) && n <= |bufs| <= |was|
  {
    && |msgs| == |was|
    && (forall k :: 0 <= k < n ==>
          msgs[k] == was[k].(addr := Some(addr), buffers := [bufs[k]] + was[k].buffers[1..], oob := was[k].oob.(len := 0)))
    && (forall k :: n <= k < |was| ==> msgs[k] == was[k])
  }

  method ReplaceFirstChunks(bufs: seq<Slice>, addr: Addr, msgs: array<Message>)
    requires |bufs| <= msgs.Length && BatchInUse(msgs[..])
    modifies msgs
    ensures Replaced(old(msgs[..]), msgs[..], bufs, addr, |bufs|)
  {
    ghost var was := msgs[..];
    for i := 0 to |bufs|
      invariant Replaced(was, msgs[..], bufs, addr, i)
    {
      msgs[i] := msgs[i].(buffers := msgs[i].buffers[0 := bufs[i]]);
      msgs[i] := msgs[i].(addr := Some(addr));
      msgs[i] := msgs[i].(oob := msgs[i].oob.(len := 0));
      assert msgs[i].buffers == [bufs[i]] + was[i].buffers[1..];
    }
  }

  /** What a plain pass over messages with these left-over chunks sends. */
  ghost predicate LeftWith(was: seq<Message>, mem: seq<byte>, bufs: seq<Slice>, sends: seq<seq<byte>>)
    requires AllValid(bufs, |mem|) && BatchInUse(was) && |bufs| <= |was|
  {
    && |sends| == |bufs|
    && forall k :: 0 <= k < |bufs| ==>
         AllValid(was[k].buffers[1..], |mem|) && sends[k] == View(mem, bufs[k]) + Flatten(Views(mem, was[k].buffers[1..]))
  }

  lemma {:induction false} ReplacedPacket(mem: seq<byte>, was: seq<Message>, msgs: seq<Message>, bufs: seq<Slice>, addr: Addr, sends: seq<seq<byte>>, k: nat)
    requires AllValid(bufs, |mem|) && BatchInUse(was) && |bufs| <= |was| && k < |bufs|
    requires Replaced(was, msgs, bufs, addr, |bufs|) && LeftWith(was, mem, bufs, sends)
    ensures Sendable(mem, msgs[k])
    ensures PacketsOf(mem, msgs[k]) == [Packet(sends[k], Some(addr), SourceInfo([]), false)]
    ensures OutgoingOf(mem, msgs[k]) == Outgoing(sends[k], 0, Some(addr))
  {
    var m, rest := msgs[k], was[k].buffers[1..];
    assert m.oob.Bytes() == [];
    forall i | 0 <= i < |m.buffers| ensures m.buffers[i].Valid(|mem|) {
      assert i > 0 ==> m.buffers[i] == rest[i - 1];
    }
    assert Views(mem, m.buffers) == [View(mem, bufs[k])] + Views(mem, rest);
    assert Views(mem, m.buffers)[1..] == Views(mem, rest);
    assert Payload(mem, m) == View(mem, bufs[k]) + Flatten(Views(mem, rest));
    assert SegmentSize([]) == 0;
  }

  lemma {:induction false} ReplacedOnWire(mem: seq<byte>, was: seq<Message>, msgs: seq<Message>, bufs: seq<Slice>, addr: Addr, sends: seq<seq<byte>>, k: nat)
    requires AllValid(bufs, |mem|) && BatchInUse(was) && |bufs| <= |was| && k <= |bufs|
    requires Replaced(was, msgs, bufs, addr, |bufs|) && LeftWith(was, mem, bufs, sends)
    ensures |msgs| == |was| && BatchInUse(msgs) && |sends| == |bufs|
    ensures AllSendable(mem, msgs[..k])
    ensures Carry(WireOf(mem, msgs[..k]), sends[..k], addr, SourceInfo([])) && Unsegmented(WireOf(mem, msgs[..k]))
  {
    hide *;
    ReplacedFacts(mem, was, msgs, bufs, addr, sends);
    if k == 0 {
      NothingCarried(mem, msgs, sends, addr, SourceInfo([]));
    } else {
      ReplacedOnWire(mem, was, msgs, bufs, addr, sends, k - 1);
      ReplacedPacket(mem, was, msgs, bufs, addr, sends, k - 1);
      WireOfLast(mem, msgs, k);
      CarryOneMore(WireOf(mem, msgs[..k - 1]), sends, k - 1, addr, SourceInfo([]));
    }
  }

  lemma {:induction false} ReplacedOuts(mem: seq<byte>, was: seq<Message>, msgs: seq<Message>, bufs: seq<Slice>, addr: Addr, sends: seq<seq<byte>>)
    requires AllValid(bufs, |mem|) && BatchInUse(was) && |bufs| <= |was|
    requires Replaced(was, msgs, bufs, addr, |bufs|) && LeftWith(was, mem, bufs, sends)
    ensures |bufs| <= |msgs| && AllSendable(mem, msgs[..|bufs|]) && Outs(mem, msgs[..|bufs|]) == Singles(sends, addr)
  {
    hide *;
    ReplacedOnWire(mem, was, msgs, bufs, addr, sends, |bufs|);
    forall k | 0 <= k < |bufs| ensures Outs(mem, msgs[..|bufs|])[k] == Singles(sends, addr)[k] {
      ReplacedPacket(mem, was, msgs, bufs, addr, sends, k);
      assert msgs[..|bufs|][k] == msgs[k];
    }
  }

  lemma ReplacedFacts(mem: seq<byte>, was: seq<Message>, msgs: seq<Message>, bufs: seq<Slice>, addr: Addr, sends: seq<seq<byte>>)
    requires AllValid(bufs, |mem|) && BatchInUse(was) && |bufs| <= |was|
    requires Replaced(was, msgs, bufs, addr, |bufs|) && LeftWith(was, mem, bufs, sends)
    ensures |msgs| == |was| && BatchInUse(msgs) && |sends| == |bufs|
  {
  }

  lemma PoolLeavesNothing(mem: seq<byte>, was: seq<Message>, bufs: seq<Slice>)
    requires AllValid(bufs, |mem|) && BatchInUse(was) && |bufs| <= |was|
    requires forall k :: 0 <= k < |was| ==> |was[k].buffers| == 1
    ensures LeftWith(was, mem, bufs, Views(mem, bufs))
  {
    forall k | 0 <= k < |bufs|
      ensures AllValid(was[k].buffers[1..], |mem|) && Views(mem, bufs)[k] == View(mem, bufs[k]) + Flatten(Views(mem, was[k].buffers[1..]))
    {
      assert was[k].buffers[1..] == [];
      assert Flatten(Views(mem, was[k].buffers[1..])) == [];
    }
  }

  lemma GatherLeaves(job: Job, mem: seq<byte>, msgs: seq<Message>, n: nat)
    requires job.Valid() && job.gather && BatchInUse(job.was) && Coalesced(job, mem, msgs, n)
    requires BatchInUse(msgs) && Increasing(GreedyCuts(job.Batch()), |job.data|)
    ensures AllValid(job.bufs, |mem|) && |job.bufs| <= |msgs|
    ensures LeftWith(msgs, mem, job.bufs, RetryAll(job.data, GreedyCuts(job.Batch())))
  {
    hide SetGSO, SetSrc, Job.Batch, SumRange, Legal, Job.Holds, Increasing;
    var cuts := GreedyCuts(job.Batch());
    forall k | 0 <= k < |job.bufs|
      ensures AllValid(msgs[k].buffers[1..], |mem|)
      ensures RetryData(job.data, cuts, k) == View(mem, job.bufs[k]) + Flatten(Views(mem, msgs[k].buffers[1..]))
    {
      if k < n {
        assert GroupSent(job, mem, msgs, cuts, k);
        var rest := msgs[k].buffers[1..];
        assert rest == job.bufs[cuts[k] + 1..cuts[k + 1]];
        assert Views(mem, rest) == job.data[cuts[k] + 1..cuts[k + 1]];
      } else {
        assert msgs[k].buffers[1..] == [];
        assert Flatten(Views(mem, msgs[k].buffers[1..])) == [];
      }
    }
  }

  // ---------------------------------------------------------------- WriteBatchTo

  ghost function GatherRequest(bufs: seq<Slice>, data: seq<seq<byte>>, dst: Addr, offload: bool): (q: Request)
    requires |data| == |bufs|
    ensures q.Valid() && q.data == data && q.offload == offload && q.dst == dst
  {
    Request(data, GreedyCuts(Unbounded(Batch(Lengths(bufs), Capacities(bufs), PayloadLimit(UsesIPv6Limit(dst.ip))))),
            dst, SourceInfo([]), offload)
  }

  ghost predicate SendsSent(q: Request, sends: seq<seq<byte>>, ps: seq<Packet>, k: nat) {
    k <= |sends| && Carry(ps, sends[..k], q.dst, q.src) && Unsegmented(ps)
  }

  ghost predicate Regathered(q: Request, ps: seq<Packet>, k: nat, j: nat, i: nat)
    requires q.Valid()
  {
    j <= |ps| && GroupsSent(q, ps[..j], k) && SendsSent(q, RetryAll(q.data, q.cuts), ps[j..], i)
  }

  /** The packets of one call that finds the flag as `q.offload` says when it starts. */
  ghost predicate BatchReport(q: Request, r: SendResult, ps: seq<Packet>)
    requires q.Valid()
  {
    match r
    case Sent => if q.offload then GroupsSent(q, ps, |q.cuts| - 1) else SendsSent(q, q.data, ps, |q.data|)
    case Failed(_) => if q.offload then exists k :: GroupsSent(q, ps, k) else exists k :: SendsSent(q, q.data, ps, k)
    case GsoDisabled(None) => q.offload && exists k, j :: Regathered(q, ps, k, j, |q.data|)
    case GsoDisabled(Some(_)) => q.offload && exists k, j, i :: Regathered(q, ps, k, j, i)
    case _ => false
  }

  /** What the retry hands over. */
  ghost function Leftovers(q: Request): (outs: seq<Outgoing>)
    requires q.Valid()
    ensures |outs| == |q.data|
  {
    Singles(RetryAll(q.data, q.cuts), q.dst)
  }

  /** The write calls of one call: it starts over if a segmented write failed with EIO and the flag was
      `still` up then, and else returns the error of the write that failed, if any. */
  ghost predicate BatchMade(q: Request, still: bool, r: SendResult, calls: seq<Call>)
    requires q.Valid()
  {
    match r
    case Sent => Pass(calls, FirstOuts(q), |FirstOuts(q)|, None)
    case Failed(e) => !(q.offload && still && e == EIO) && exists k :: Pass(calls, FirstOuts(q), k, Some(e))
    case GsoDisabled(e) => q.offload && still && exists m, k, i :: MadeTwice(calls, Groups(q), Leftovers(q), m, k, i, e)
    case _ => false
  }

  /** So the answers of the kernel and of the flag decide the result. */
  lemma BatchResultExactly(q: Request, still: bool, r: SendResult, calls: seq<Call>)
    requires q.Valid() && BatchMade(q, still, r, calls)
    ensures r == Sent <==> forall i :: 0 <= i < |calls| ==> calls[i].err == None
    ensures r.GsoDisabled? <==> q.offload && still && exists i: nat :: FailsFirst(calls, i) && calls[i].err == Some(EIO)
    ensures r.Failed? <==> exists i: nat :: FailsFirst(calls, i) && !(q.offload && still && calls[i].err == Some(EIO))
    ensures r.Failed? ==> forall i: nat :: FailsFirst(calls, i) ==> calls[i].err == Some(r.err)
    ensures r.GsoDisabled? ==> forall i: nat :: FailsFirst(calls, i) ==> r.retryErr == if i + 1 < |calls| then calls[|calls| - 1].err else None
  {
    hide Groups, Leftovers, FirstOuts, Pass, FailsFirst;
    var outs := FirstOuts(q);
    match r
    case Sent =>
      PassFails(calls, outs, |outs|, None);
      NoneFails(calls);
    case Failed(e) =>
      var k: nat :| Pass(calls, outs, k, Some(e));
      PassFails(calls, outs, k, Some(e));
      FirstFails(calls, |calls| - 1);
    case GsoDisabled(e) =>
      var m: nat, k: nat, i: nat :| MadeTwice(calls, Groups(q), Leftovers(q), m, k, i, e);
      TwoPasses(calls, Groups(q), Leftovers(q), m, k, i, e);
      FirstFails(calls, m - 1);
  }

  /** What a call puts on the wire and which writes it makes for it. */
  ghost predicate BatchAccount(q: Request, still: bool, r: SendResult, ps: seq<Packet>, calls: seq<Call>)
    requires q.Valid()
  {
    BatchReport(q, r, ps) && BatchMade(q, still, r, calls)
  }

  /** Wherever the second pass of a successful retry starts, it carries the buffers glued to the chunks
      the first pass left, unsegmented; and so the buffers alone exactly when nothing was joined. */
  lemma RetryDelivers(q: Request, ps: seq<Packet>)
    requires q.Valid() && BatchReport(q, GsoDisabled(None), ps)
    requires forall i :: 0 <= i < |q.data| ==> |q.data[i]| > 0
    ensures exists k, j :: Regathered(q, ps, k, j, |q.data|)
    ensures forall k: nat, j: nat :: Regathered(q, ps, k, j, |q.data|) ==>
              && Carry(ps[j..], RetryAll(q.data, q.cuts), q.dst, q.src) && Unsegmented(ps[j..])
              && (Carry(ps[j..], q.data, q.dst, q.src) <==> |q.cuts| - 1 == |q.data|)
  {
    var sends := RetryAll(q.data, q.cuts);
    RetryExact(q.data, q.cuts);
    assert sends[..|q.data|] == sends;
    hide RetryAll;
    forall k: nat, j: nat | Regathered(q, ps, k, j, |q.data|)
      ensures Carry(ps[j..], sends, q.dst, q.src) && Unsegmented(ps[j..])
      ensures Carry(ps[j..], q.data, q.dst, q.src) <==> |q.cuts| - 1 == |q.data|
    {
      CarryOnce(ps[j..], sends, q.data, q.dst, q.src);
    }
  }

  // Packets carry one list of datagrams.
  lemma CarryOnce(ps: seq<Packet>, a: seq<seq<byte>>, b: seq<seq<byte>>, dst: Addr, src: Option<Cmsg>)
    requires Carry(ps, a, dst, src)
    ensures Carry(ps, b, dst, src) <==> a == b
  {
    if Carry(ps, b, dst, src) {
      forall i | 0 <= i < |a| ensures a[i] == b[i] { assert ps[i].data == a[i]; }
    }
  }

  /** What the batching connection joins, by the bytes of the destination: up to 65507 bytes for an IPv4
      address in either form, 65527 for any other, whatever the buffers' capacities. */
  lemma GatherJoins(bufs: seq<Slice>, data: seq<seq<byte>>, dst: Addr, offload: bool, k: nat)
    requires Lens(data) == Lengths(bufs) && |data| == |bufs| && IsIP(dst.ip)
    requires k + 1 < |GatherRequest(bufs, data, dst, offload).cuts|
    ensures var mapped := |dst.ip| == 16 && (forall i :: 0 <= i < 10 ==> dst.ip[i] == 0) && dst.ip[10] == 255 && dst.ip[11] == 255;
            var limit := if |dst.ip| == 4 || mapped then 65507 else 65527;
            JoinedExactly(data, Unlimited(|data|, limit), GatherRequest(bufs, data, dst, offload).cuts, k, limit)
  {
    if |dst.ip| == 16 { MappedIs(dst.ip); }
    var b := Unbounded(Batch(Lengths(bufs), Capacities(bufs), PayloadLimit(UsesIPv6Limit(dst.ip))));
    CutsExactly(b, data, k);
    assert b.caps == Unlimited(|data|, b.limit);
    hide GreedyCuts, JoinedExactly, SourceInfo;
  }

  function Unlimited(n: nat, limit: nat): (caps: seq<nat>)
    ensures |caps| == n && forall i :: 0 <= i < n ==> caps[i] == limit
  {
    seq(n, _ => limit)
  }

  /** Whatever a call hands to the socket with a segment size is one of its groups. */
  lemma GatherHanded(q: Request, still: bool, r: SendResult, calls: seq<Call>, i: nat, o: Outgoing) returns (k: nat)
    requires q.Valid() && BatchMade(q, still, r, calls) && i < |calls| && o in calls[i].batch && o.size > 0
    ensures k + 1 < |q.cuts| && o == GroupOut(q.data, q.cuts, k, q.dst)
  {
    hide Pass, GroupOut;
    if r.GsoDisabled? {
      var m: nat, k': nat, i': nat :| MadeTwice(calls, Groups(q), Leftovers(q), m, k', i', r.retryErr);
      HandedTwice(calls, Groups(q), Leftovers(q), m, k', i', r.retryErr, i, o);
    } else if r.Sent? {
      Handed(calls, FirstOuts(q), |FirstOuts(q)|, None, i, o);
    } else {
      var k': nat :| Pass(calls, FirstOuts(q), k', Some(r.err));
      Handed(calls, FirstOuts(q), k', Some(r.err), i, o);
    }
    k :| 0 <= k < |Groups(q)| && Groups(q)[k] == o;
  }

  /** So no message that asks for segmentation is larger than its destination allows. */
  lemma GatherHandsWithin(bufs: seq<Slice>, data: seq<seq<byte>>, dst: Addr, offload: bool, still: bool, r: SendResult,
                          calls: seq<Call>, i: nat, o: Outgoing)
    requires Lens(data) == Lengths(bufs) && |data| == |bufs| && IsIP(dst.ip)
    requires BatchMade(GatherRequest(bufs, data, dst, offload), still, r, calls) && i < |calls| && o in calls[i].batch
    ensures var mapped := |dst.ip| == 16 && (forall i :: 0 <= i < 10 ==> dst.ip[i] == 0) && dst.ip[10] == 255 && dst.ip[11] == 255;
            o.size > 0 ==> |o.payload| <= if |dst.ip| == 4 || mapped then 65507 else 65527
  {
    hide GatherRequest, BatchMade, Flatten;
    if o.size > 0 {
      var k := GatherHanded(GatherRequest(bufs, data, dst, offload), still, r, calls, i, o);
      GatherJoins(bufs, data, dst, offload, k);
    }
  }

  lemma GatherStep(job: Job, mem: seq<byte>, msgs: seq<Message>, n: nat, sent: nat)
    requires job.Valid() && job.gather && job.src == [] && job.is6 == UsesIPv6Limit(job.addr.ip)
    requires BatchInUse(job.was) && Coalesced(job, mem, msgs, n)
    requires n <= |msgs| && sent <= n
    ensures AllSendable(mem, msgs[..n]) && AllSendable(mem, msgs[..n][..sent])
    ensures var q := GatherRequest(job.bufs, job.data, job.addr, true);
            n == |q.cuts| - 1 && q.cuts == GreedyCuts(job.Batch()) && GroupsSent(q, WireOf(mem, msgs[..n][..sent]), sent)
  {
    hide SegmentSize, SourceInfo, Legal, Carry, Sendable, Coalesced, WireOf, Roomy, Unbounded;
    GatherIsRoomy(job);
    NonNegative(job, mem, msgs, n);
    CoalescedOnWire(job, mem, msgs, n, n);
    CoalescedOnWire(job, mem, msgs, n, sent);
    assert msgs[..n][..sent] == msgs[..sent];
  }

  lemma GatherIsRoomy(job: Job)
    requires job.Valid() && job.gather && job.src == [] && BatchInUse(job.was)
    ensures Roomy(job)
  {
  }

  lemma GatherGroups(job: Job, mem: seq<byte>, msgs: seq<Message>, n: nat)
    requires job.Valid() && job.gather && job.src == [] && job.is6 == UsesIPv6Limit(job.addr.ip)
    requires BatchInUse(job.was) && Coalesced(job, mem, msgs, n)
    ensures n <= |msgs| && AllSendable(mem, msgs[..n])
    ensures Outs(mem, msgs[..n]) == Groups(GatherRequest(job.bufs, job.data, job.addr, true))
  {
    hide SegmentSize, SourceInfo, Legal, Sendable, Coalesced, Roomy, Unbounded, OutgoingOf, GroupOut;
    GatherIsRoomy(job);
    CoalescedOuts(job, mem, msgs, n);
  }

  method GatherAndSend(sock: Socket, mem: array<byte>, bufs: seq<Slice>, dst: Addr, msgs: array<Message>)
    returns (err: Option<WriteError>, ghost sent: nat, ghost ps: seq<Packet>, ghost made: seq<Call>)
    requires AllValid(bufs, mem.Length) && |bufs| <= msgs.Length && BatchInUse(msgs[..])
    requires forall k :: 0 <= k < msgs.Length ==> |msgs[k].buffers| == 1
    modifies sock, msgs
    ensures BatchInUse(msgs[..]) && sock.wire == old(sock.wire) + ps && sock.calls == old(sock.calls) + made
    ensures var q := GatherRequest(bufs, Views(mem[..], bufs), dst, true);
            && GroupsSent(q, ps, sent) && (err.None? ==> sent == |q.cuts| - 1) && Pass(made, Groups(q), sent, err)
            && LeftWith(msgs[..], mem[..], bufs, RetryAll(q.data, q.cuts))
  {
    hide *;
    ghost var job := Job(true, bufs, Views(mem[..], bufs), UsesIPv6Limit(dst.ip), dst, [], msgs[..]);
    BatchFacts(msgs[..]);
    ProgressStart(job, mem[..]);
    var n := GatherMessages(dst, UsesIPv6Limit(dst.ip), bufs, msgs, mem[..]);
    GatheredInUse(job, mem[..], msgs[..], n);
    GatherStep(job, mem[..], msgs[..], n, 0);
    err, sent, made := sock.WriteAll(mem, msgs, n);
    GatherStep(job, mem[..], msgs[..], n, sent);
    GatherGroups(job, mem[..], msgs[..], n);
    NonNegative(job, mem[..], msgs[..], n);
    GatherLeaves(job, mem[..], msgs[..], n);
    ps := WireOf(mem[..], msgs[..n][..sent]);
  }

  lemma BatchFacts(msgs: seq<Message>)
    requires BatchInUse(msgs)
    ensures forall k :: 0 <= k < |msgs| ==> msgs[k].oob.Valid() && |msgs[k].buffers| > 0
  {
  }

  method ReplaceAndSend(sock: Socket, mem: array<byte>, bufs: seq<Slice>, dst: Addr, msgs: array<Message>, ghost q: Request, ghost sends: seq<seq<byte>>)
    returns (err: Option<WriteError>, ghost sent: nat, ghost ps: seq<Packet>, ghost made: seq<Call>)
    requires AllValid(bufs, mem.Length) && |bufs| <= msgs.Length && BatchInUse(msgs[..])
    requires LeftWith(msgs[..], mem[..], bufs, sends) && q.dst == dst && q.src == SourceInfo([])
    modifies sock, msgs
    ensures BatchInUse(msgs[..]) && sock.wire == old(sock.wire) + ps && sock.calls == old(sock.calls) + made
    ensures SendsSent(q, sends, ps, sent) && |sends| == |bufs| && (err.None? ==> sent == |bufs|) && Pass(made, Singles(sends, dst), sent, err)
  {
    hide *;
    ghost var was := msgs[..];
    ReplaceFirstChunks(bufs, dst, msgs);
    ReplacedOnWire(mem[..], was, msgs[..], bufs, dst, sends, |bufs|);
    err, sent, made := sock.WriteAll(mem, msgs, |bufs|);
    ReplacedOnWire(mem[..], was, msgs[..], bufs, dst, sends, sent);
    ReplacedOuts(mem[..], was, msgs[..], bufs, dst, sends);
    assert msgs[..|bufs|][..sent] == msgs[..sent];
    ps := WireOf(mem[..], msgs[..|bufs|][..sent]);
    SendsFacts(q, sends, ps, sent);
  }

  lemma SendsFacts(q: Request, sends: seq<seq<byte>>, ps: seq<Packet>, k: nat)
    requires k <= |sends| && Carry(ps, sends[..k], q.dst, q.src) && Unsegmented(ps)
    ensures SendsSent(q, sends, ps, k)
  {
  }

  class SendBatch {
    const msgs: array<Message>
    const ua: UDPAddr

    constructor (batchSize: nat)
      ensures msgs.Length == batchSize && Ready() && ua.history == [] && fresh(msgs) && fresh(ua)
    {
      ua := new UDPAddr();
      msgs := new Message[batchSize](_ => Message([Slice(0, 0, 0)], Buffer(Zeros(GSO_SPACE), 0), None, 0, 0));
    }

    ghost predicate Ready()
      reads this, msgs, ua
    {
      PoolReady(msgs[..]) && ua.Valid()
    }
  }

  class LinuxBatchingConn {
    const sock: Socket
    const batchSize: nat
    var txOffload: bool
    var free: set<SendBatch>
    ghost var seen: set<seq<byte>>   // the destinations of all calls so far

    ghost var repr: set<object>      // the messages and address objects of the pooled batches

    ghost predicate Valid()
      reads this, free, repr
    {
      && (forall b :: b in free ==> b.msgs in repr && b.ua in repr)
      && (forall b :: b in free ==> b.msgs.Length == batchSize && b.Ready() && forall d :: d in b.ua.history ==> d in seen)
      && (forall a, b :: a in free && b in free && a != b ==> a.msgs != b.msgs && a.ua != b.ua)
    }

    constructor (sock: Socket, batchSize: nat, txOffload: bool)
      ensures Valid() && this.sock == sock && this.batchSize == batchSize && this.txOffload == txOffload && free == {} && seen == {} && repr == {}
    {
      this.sock, this.batchSize, this.txOffload := sock, batchSize, txOffload;
      free, seen, repr := {}, {}, {};
    }

    /** An atomic load, before which other senders may have lowered the flag. */
    method LoadFlag() returns (on: bool)
      modifies this`txOffload
      ensures on == txOffload && (txOffload ==> old(txOffload))
    {
      var lowered: bool := *;
      if lowered { txOffload := false; }
      on := txOffload;
    }

    /** The retry loop. The first load of the flag decides whether it segments; its second round always finds
        the flag down, so there is at most one retry; an EIO is passed on without a retry when another
        sender lowered the flag first. `on` and `still` are what the first two loads gave. */
    method Attempts(mem: array<byte>, bufs: seq<Slice>, dst: Addr, msgs: array<Message>)
      returns (r: SendResult, ghost on: bool, ghost still: bool, ghost ps: seq<Packet>, ghost made: seq<Call>)
      requires AllValid(bufs, mem.Length) && |bufs| <= msgs.Length && BatchInUse(msgs[..])
      requires forall k :: 0 <= k < msgs.Length ==> |msgs[k].buffers| == 1
      modifies this`txOffload, sock, msgs
      ensures BatchInUse(msgs[..]) && sock.wire == old(sock.wire) + ps && sock.calls == old(sock.calls) + made
      ensures (txOffload ==> old(txOffload)) && (on ==> old(txOffload)) && (!on || !still ==> !txOffload)
      ensures r.GsoDisabled? ==> !txOffload
      ensures BatchAccount(GatherRequest(bufs, Views(mem[..], bufs), dst, on), still, r, ps, made)
    {
      hide *;
      ghost var q := GatherRequest(bufs, Views(mem[..], bufs), dst, true);
      ghost var before, calls, sent, sends := sock.wire, sock.calls, 0, q.data;
      PoolLeavesNothing(mem[..], msgs[..], bufs);
      GatherFacts(bufs, Views(mem[..], bufs), dst, true);
      GatherFacts(bufs, Views(mem[..], bufs), dst, false);
      var retried := false;
      ps, made, on, still := [], [], true, true;
      while true
        invariant BatchInUse(msgs[..]) && LeftWith(msgs[..], mem[..], bufs, sends)
        invariant sock.wire == before + ps && sock.calls == calls + made && (txOffload ==> old(txOffload)) && on && still
        invariant !retried ==> ps == [] && made == [] && sends == q.data && forall k :: 0 <= k < msgs.Length ==> |msgs[k].buffers| == 1
        invariant retried ==>
                    && !txOffload && old(txOffload) && sends == RetryAll(q.data, q.cuts)
                    && GroupsSent(q, ps, sent) && Pass(made, Groups(q), sent, Some(EIO))
        decreases if retried then 0 else 1
      {
        var segments := LoadFlag();
        var err;
        if segments {
          err, sent, ps, made := GatherAndSend(sock, mem, bufs, dst, msgs);
          if err.Some? {
            var up := LoadFlag();
            still := up;
            if up && err == Some(EIO) {
              txOffload := false;
              retried := true;
              sends := RetryAll(q.data, q.cuts);
              continue;
            }
          }
          BatchGathered(q, still, ps, made, sent, err);
          r := if err.Some? then Failed(err.value) else Sent;
          return;
        }
        ghost var sent', ps', made';
        err, sent', ps', made' := ReplaceAndSend(sock, mem, bufs, dst, msgs, q, sends);
        if retried {
          Reassociate(before, ps, ps');
          Reassociate(calls, made, made');
          BatchRetried(q, ps, ps', made, made', sent, sent', err);
          return GsoDisabled(err), on, still, ps + ps', made + made';
        }
        on := false;
        SendsAlike(q, q.(offload := false), sends, ps', sent');
        BatchPlain(q.(offload := false), still, ps', made', sent', err);
        assert ps + ps' == ps' && made + made' == made';
        r := if err.Some? then Failed(err.value) else Sent;
        return r, on, still, ps', made';
      }
    }

    method Get() returns (batch: SendBatch)
      requires Valid()
      modifies this`free
      ensures Valid() && batch.msgs.Length == batchSize && batch.Ready() && (forall d :: d in batch.ua.history ==> d in seen)
      ensures free == old(free) - {batch} && (batch in old(free) || (fresh(batch) && fresh(batch.msgs) && fresh(batch.ua)))
      ensures forall b :: b in free ==> b.msgs != batch.msgs && b.ua != batch.ua
    {
      var reuse: bool := *;
      if reuse && free != {} {
        batch :| batch in free;
        free := free - {batch};
      } else {
        batch := new SendBatch(batchSize);
      }
    }

    /** putSendBatch: cuts every chunk list back to one entry and empties the control data. */
    method Put(batch: SendBatch, ghost dst: seq<byte>)
      requires Valid() && batch.msgs.Length == batchSize && BatchInUse(batch.msgs[..]) && batch.ua.Valid()
      requires forall d :: d in batch.ua.history ==> d in seen || d == dst
      requires forall b :: b in free ==> b.msgs != batch.msgs && b.ua != batch.ua
      modifies this`free, this`seen, this`repr, batch.msgs
      ensures Valid() && free == old(free) + {batch} && seen == old(seen) + {dst} && repr == old(repr) + {batch.msgs, batch.ua}
    {
      var msgs := batch.msgs;
      for i := 0 to msgs.Length
        invariant BatchInUse(msgs[..]) && PoolReady(msgs[..i]) && free == old(free) && seen == old(seen) && repr == old(repr)
      {
        msgs[i] := Message(msgs[i].buffers[..1], msgs[i].oob.(len := 0), None, 0, 0);
      }
      assert msgs[..msgs.Length] == msgs[..];
      free, seen, repr := free + {batch}, seen + {dst}, repr + {batch.msgs, batch.ua};
    }

    method WriteBatchTo(mem: array<byte>, bufs: seq<Slice>, ip: seq<byte>, port: nat)
      returns (tooLarge: bool, r: SendResult, ghost history: seq<seq<byte>>, ghost on: bool, ghost still: bool, ghost ps: seq<Packet>,
               ghost made: seq<Call>)
      requires Valid() && IsIP(ip) && AllValid(bufs, mem.Length)
      modifies this, sock, free, repr
      ensures Valid() && (txOffload ==> old(txOffload)) && sock.wire == old(sock.wire) + ps && sock.calls == old(sock.calls) + made
      ensures fresh(free - old(free)) && fresh(repr - old(repr))
      ensures tooLarge <==> |bufs| > batchSize
      ensures tooLarge ==> ps == [] && made == [] && txOffload == old(txOffload)
      ensures AllIP(history) && (forall d :: d in history ==> d in old(seen)) && old(seen) <= seen <= old(seen) + {ip}
      ensures !tooLarge ==>
                BatchAccount(GatherRequest(bufs, Views(mem[..], bufs), Destination(history, ip, port), on), still, r, ps, made)
      ensures (on ==> old(txOffload)) && (!on || !still ==> !txOffload)
      ensures r.GsoDisabled? ==> !txOffload
    {
      hide *;
      tooLarge, r, history, ps, made, on, still := |bufs| > batchSize, Sent, [], [], [], txOffload, true;
      NoHistory();
      if tooLarge {
        return;
      }
      if |bufs| == 0 {
        NothingToSend(GatherRequest(bufs, Views(mem[..], bufs), Destination(history, ip, port), txOffload));
        return;
      }
      r, history, on, still, ps, made := WriteVia(mem, bufs, ip, port);
    }

    /** Sends with a pooled batch, which carries the destinations of earlier calls and those only. */
    method WriteVia(mem: array<byte>, bufs: seq<Slice>, ip: seq<byte>, port: nat)
      returns (r: SendResult, ghost history: seq<seq<byte>>, ghost on: bool, ghost still: bool, ghost ps: seq<Packet>, ghost made: seq<Call>)
      requires Valid() && IsIP(ip) && AllValid(bufs, mem.Length) && |bufs| <= batchSize
      modifies this, sock, free, repr
      ensures Valid() && (txOffload ==> old(txOffload)) && sock.wire == old(sock.wire) + ps && sock.calls == old(sock.calls) + made
      ensures fresh(free - old(free)) && fresh(repr - old(repr))
      ensures AllIP(history) && (forall d :: d in history ==> d in old(seen)) && seen == old(seen) + {ip}
      ensures BatchAccount(GatherRequest(bufs, Views(mem[..], bufs), Destination(history, ip, port), on), still, r, ps, made)
      ensures (on ==> old(txOffload)) && (!on || !still ==> !txOffload)
      ensures r.GsoDisabled? ==> !txOffload
    {
      hide BatchAccount, GatherRequest, Destination, AllIP, AllValid, IsIP, UDPAddr.Valid, Views, PoolReady, BatchInUse;
      var batch := Get();
      history := batch.ua.history;
      HistoryIP(batch.ua);
      batch.ua.SetDestination(ip, port);
      ReadyInUse(batch.msgs[..]);
      r, on, still, ps, made := Attempts(mem, bufs, batch.ua.Value(), batch.msgs);
      Put(batch, ip);
    }
  }

  lemma HistoryIP(ua: UDPAddr)
    requires ua.Valid()
    ensures AllIP(ua.history)
  {
  }

  lemma NoHistory()
    ensures AllIP([])
  {
  }

  lemma ReadyInUse(msgs: seq<Message>)
    requires PoolReady(msgs)
    ensures BatchInUse(msgs) && forall k :: 0 <= k < |msgs| ==> |msgs[k].buffers| == 1
  {
  }

  lemma NothingToSend(q: Request)
    requires q.Valid() && q.data == []
    ensures BatchAccount(q, true, Sent, [], [])
  {
    if |q.cuts| > 1 { CutsSpread(q.cuts, 0, 1); }
    assert SendsSent(q, q.data, [], 0) && GroupsSent(q, [], 0);
    Nothing(FirstOuts(q));
  }

  lemma GatherFacts(bufs: seq<Slice>, data: seq<seq<byte>>, dst: Addr, offload: bool)
    requires |data| == |bufs|
    ensures GatherRequest(bufs, data, dst, offload).src == SourceInfo([])
    ensures Increasing(GatherRequest(bufs, data, dst, offload).cuts, |data|)
    ensures GatherRequest(bufs, data, dst, offload) == GatherRequest(bufs, data, dst, true).(offload := offload)
  {
  }

  lemma SendsAlike(q: Request, p: Request, sends: seq<seq<byte>>, ps: seq<Packet>, k: nat)
    requires p.dst == q.dst && p.src == q.src
    ensures SendsSent(q, sends, ps, k) <==> SendsSent(p, sends, ps, k)
  {
  }

  lemma BatchGathered(q: Request, still: bool, ps: seq<Packet>, made: seq<Call>, sent: nat, err: Option<WriteError>)
    requires q.Valid() && q.offload && GroupsSent(q, ps, sent) && (err.None? ==> sent == |q.cuts| - 1)
    requires Pass(made, Groups(q), sent, err) && !(still && err == Some(EIO))
    ensures BatchAccount(q, still, if err.Some? then Failed(err.value) else Sent, ps, made)
  {
    hide Pass, Groups, FirstOuts, GroupsSent;
    if err.Some? { assert Pass(made, FirstOuts(q), sent, Some(err.value)); }
  }

  lemma BatchPlain(q: Request, still: bool, ps: seq<Packet>, made: seq<Call>, sent: nat, err: Option<WriteError>)
    requires q.Valid() && !q.offload && SendsSent(q, q.data, ps, sent) && (err.None? ==> sent == |q.data|)
    requires Pass(made, Singles(q.data, q.dst), sent, err)
    ensures BatchAccount(q, still, if err.Some? then Failed(err.value) else Sent, ps, made)
  {
    hide Pass, FirstOuts, SendsSent;
    if err.Some? { assert Pass(made, FirstOuts(q), sent, Some(err.value)); }
  }

  lemma BatchRetried(q: Request, ps: seq<Packet>, ps': seq<Packet>, made: seq<Call>, made': seq<Call>, sent: nat, sent': nat, err: Option<WriteError>)
    requires q.Valid() && q.offload && GroupsSent(q, ps, sent) && SendsSent(q, RetryAll(q.data, q.cuts), ps', sent')
    requires Pass(made, Groups(q), sent, Some(EIO)) && Pass(made', Singles(RetryAll(q.data, q.cuts), q.dst), sent', err)
    requires err.None? ==> sent' == |q.data|
    ensures BatchAccount(q, true, GsoDisabled(err), ps + ps', made + made')
  {
    hide Carry, Segmentation.Wire, RetryAll, Pass, Groups, Singles;
    var all := ps + ps';
    assert all[..|ps|] == ps && all[|ps|..] == ps';
    assert Regathered(q, all, sent, |ps|, sent');
    var calls := made + made';
    assert calls[..|made|] == made && calls[|made|..] == made';
    assert MadeTwice(calls, Groups(q), Leftovers(q), |made|, sent, sent', err);
  }
}
