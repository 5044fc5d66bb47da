/** From the buffers of a send to the slots of a receive. */
module RoundTrip {
  import opened Bytes
  import opened Control
  import opened Memory
  import opened Grouping
  import opened Segmentation
  import Coalesce
  import opened Wire
  import opened Split
  import opened Window

  /** Slot `first + k` received message `k` whole, and the kernel tells its segment size. */
  ghost predicate Arrived(mem: seq<byte>, m: Message, r: Received, sender: Addr)
    requires Sendable(mem, m)
  {
    && r.Valid() && r.n == |Payload(mem, m)| && r.store[..r.n] == Payload(mem, m)
    && Tells(r.control, SegmentSize(m.oob.Bytes())) && r.addr == Some(sender)
  }

  /** The first `n` messages arrived in the slots from `first` on, and nothing else did. */
  ghost predicate AllArrived(mem: seq<byte>, msgs: seq<Message>, n: nat, rs: seq<Received>, first: nat, sender: Addr) {
    && AllReadable(rs) && n <= |msgs| && AllSendable(mem, msgs[..n]) && first + n <= |rs|
    && (forall k :: 0 <= k < n ==> Arrived(mem, msgs[..n][k], rs[first + k], sender))
    && (first + n < |rs| ==> rs[first + n].n == 0)
  }

  ghost predicate NoneEmpty(data: seq<seq<byte>>) { forall i :: 0 <= i < |data| ==> |data[i]| > 0 }

  function Tagged(data: seq<seq<byte>>, sender: Addr): (items: seq<Datagram>)
    ensures |items| == |data| && forall i :: 0 <= i < |data| ==> items[i] == Datagram(data[i], Some(sender))
  {
    seq(|data|, i requires 0 <= i < |data| => Datagram(data[i], Some(sender)))
  }

  /** A coalescing whose messages all arrived. */
  ghost predicate Setup(job: Coalesce.Job, mem: seq<byte>, msgs: seq<Message>, n: nat, rs: seq<Received>, first: nat, sender: Addr) {
    && job.Valid() && Roomy(job) && Coalesce.Coalesced(job, mem, msgs, n) && NoneEmpty(job.data)
    && AllArrived(mem, msgs, n, rs, first, sender)
  }

  // A legal group of non-empty buffers splits back into its buffers.
  lemma {:induction false} GroupReturns(job: Coalesce.Job, mem: seq<byte>, msgs: seq<Message>, n: nat, rs: seq<Received>, first: nat, sender: Addr, k: nat)
    requires Setup(job, mem, msgs, n, rs, first, sender) && k < n
    ensures var cuts := GreedyCuts(job.Batch());
            && cuts[k] < cuts[k + 1] <= |job.data| && first + k < |rs| && Splittable(rs[first + k])
            && DatagramsOf(rs[first + k], GsoSize(rs[first + k].control).bytes) == Tagged(job.data[cuts[k]..cuts[k + 1]], sender)
  {
    hide SegmentSize, GsoSize, Tells, PacketsOf, Coalesce.Job.Holds, Roomy, Views, Flatten, Received.Valid, Segments, RawSegments;
    var cuts := GreedyCuts(job.Batch());
    var s, e := cuts[k], cuts[k + 1];
    GroupOnWire(job, mem, msgs, n, k);
    GroupPayload(job, mem, msgs, n, k);
    assert msgs[..n][k] == msgs[k];
    var r := rs[first + k];
    assert Arrived(mem, msgs[..n][k], r, sender);
    var size := GroupSize(job.data, s, e);
    ToldSize(r.control, size);
    GroupNotEmpty(job, s, e);
    ReadableStore(r);
    RawSegmentsExact(r.store, r.n, size);
    GroupSurvives(job.Batch(), job.data, s, e);
  }

  lemma ReadableStore(r: Received)
    requires r.Valid() && GsoSize(r.control).Size?
    ensures r.n <= |r.store| && GsoSize(r.control).bytes <= |r.store|
  {
  }

  lemma GroupNotEmpty(job: Coalesce.Job, s: nat, e: nat)
    requires s < e <= |job.data| && NoneEmpty(job.data)
    ensures |Flatten(job.data[s..e])| >= |job.data[s]| > 0
  {
    var group := job.data[s..e];
    assert Flatten(group) == group[0] + Flatten(group[1..]);
  }

  // The first `k` messages that arrived hold the first buffers.
  ghost predicate SoFar(data: seq<seq<byte>>, cuts: seq<nat>, rs: seq<Received>, first: nat, sender: Addr, k: nat)
    requires AllReadable(rs) && first <= |rs| && first + k <= Limit(rs, first)
  {
    && k < |cuts| && cuts[k] <= |data|
    && Total(rs, first, first + k) == cuts[k]
    && AllDatagrams(rs, first, first + k) == Tagged(data[..cuts[k]], sender)
  }

  lemma TaggedPrefix(data: seq<seq<byte>>, sender: Addr, i: nat, j: nat)
    requires i <= j <= |data|
    ensures Tagged(data[..j], sender) == Tagged(data[..i], sender) + Tagged(data[i..j], sender)
  {
  }

  lemma AllDatagramsStep(rs: seq<Received>, a: nat, b: nat)
    requires AllReadable(rs) && a <= |rs| && a <= b < Limit(rs, a)
    ensures AllDatagrams(rs, a, b + 1) == AllDatagrams(rs, a, b) + DatagramsOf(rs[b], GsoSize(rs[b].control).bytes)
    ensures Total(rs, a, b + 1) == Total(rs, a, b) + |DatagramsOf(rs[b], GsoSize(rs[b].control).bytes)|
  {
  }

  lemma SoFarStep(data: seq<seq<byte>>, cuts: seq<nat>, rs: seq<Received>, first: nat, sender: Addr, k: nat)
    requires AllReadable(rs) && first <= |rs| && first + k < Limit(rs, first)
    requires SoFar(data, cuts, rs, first, sender, k) && k + 1 < |cuts| && cuts[k] < cuts[k + 1] <= |data|
    requires DatagramsOf(rs[first + k], GsoSize(rs[first + k].control).bytes) == Tagged(data[cuts[k]..cuts[k + 1]], sender)
    ensures SoFar(data, cuts, rs, first, sender, k + 1)
  {
    hide GsoSize, DatagramsOf, AllReadable, Limit, Tagged, Total, AllDatagrams;
    AllDatagramsStep(rs, first, first + k);
    TaggedPrefix(data, sender, cuts[k], cuts[k + 1]);
    assert first + (k + 1) == (first + k) + 1;
  }

  lemma {:induction false} ArrivedSoFar(job: Coalesce.Job, mem: seq<byte>, msgs: seq<Message>, n: nat, rs: seq<Received>, first: nat, sender: Addr, k: nat)
    requires Setup(job, mem, msgs, n, rs, first, sender) && job.Valid() && AllReadable(rs) && first <= |rs|
    requires k <= n && Limit(rs, first) == first + n
    ensures SoFar(job.data, GreedyCuts(job.Batch()), rs, first, sender, k)
  {
    hide *;
    SetupJob(job, mem, msgs, n, rs, first, sender);
    if k > 0 {
      ArrivedSoFar(job, mem, msgs, n, rs, first, sender, k - 1);
      GroupReturns(job, mem, msgs, n, rs, first, sender, k - 1);
      SoFarStep(job.data, GreedyCuts(job.Batch()), rs, first, sender, k - 1);
    } else {
      SoFarStart(job.data, GreedyCuts(job.Batch()), rs, first, sender);
    }
  }

  lemma SoFarStart(data: seq<seq<byte>>, cuts: seq<nat>, rs: seq<Received>, first: nat, sender: Addr)
    requires AllReadable(rs) && first <= |rs| && Increasing(cuts, |data|)
    ensures SoFar(data, cuts, rs, first, sender, 0)
  {
  }

  lemma LimitIs(rs: seq<Received>, first: nat, z: nat)
    requires first <= z <= |rs| && (forall k :: first <= k < z ==> Splittable(rs[k])) && (z < |rs| ==> !Splittable(rs[z]))
    ensures Limit(rs, first) == z
  {
  }

  /** The slots suffice: no message outgrows the slots up to its own. */
  ghost predicate EnoughSlots(cuts: seq<nat>, first: nat) {
    forall k :: 1 <= k < |cuts| ==> cuts[k] <= first + k
  }

  lemma AllSplittable(job: Coalesce.Job, mem: seq<byte>, msgs: seq<Message>, n: nat, rs: seq<Received>, first: nat, sender: Addr)
    requires Setup(job, mem, msgs, n, rs, first, sender)
    ensures AllReadable(rs) && first + n <= |rs| && Limit(rs, first) == first + n
    ensures !Run(rs, first, []).Malformed?
  {
    hide GsoSize, DatagramsOf, Coalesce.Coalesced, Roomy, Run, AllSendable, Arrived;
    forall k | first <= k < first + n ensures Splittable(rs[k]) {
      GroupReturns(job, mem, msgs, n, rs, first, sender, k - first);
    }
    LimitIs(rs, first, first + n);
    NotMalformed(rs, first);
  }

  lemma BurstsAt(job: Coalesce.Job, mem: seq<byte>, msgs: seq<Message>, n: nat, rs: seq<Received>, first: nat, sender: Addr, k: nat)
    requires Setup(job, mem, msgs, n, rs, first, sender) && AllReadable(rs) && first + n <= |rs|
    ensures n == |GreedyCuts(job.Batch())| - 1
    ensures Bursts(rs, first, k) <==> first <= k < first + n && GreedyCuts(job.Batch())[k - first + 1] > k + 1
  {
    hide *;
    SetupJob(job, mem, msgs, n, rs, first, sender);
    AllSplittable(job, mem, msgs, n, rs, first, sender);
    BurstsMeans(rs, first, k);
    if first <= k < first + n {
      ArrivedSoFar(job, mem, msgs, n, rs, first, sender, k - first + 1);
      SoFarTotal(job.data, GreedyCuts(job.Batch()), rs, first, sender, k - first + 1);
    }
  }

  lemma BurstsMeans(rs: seq<Received>, first: nat, k: nat)
    requires AllReadable(rs) && first <= |rs|
    ensures Bursts(rs, first, k) <==> first <= k < Limit(rs, first) && Total(rs, first, k + 1) > k + 1
  {
  }

  lemma SoFarTotal(data: seq<seq<byte>>, cuts: seq<nat>, rs: seq<Received>, first: nat, sender: Addr, k: nat)
    requires AllReadable(rs) && first <= |rs| && first + k <= Limit(rs, first) && SoFar(data, cuts, rs, first, sender, k)
    ensures k < |cuts| && Total(rs, first, first + k) == cuts[k]
  {
  }

  lemma SetupJob(job: Coalesce.Job, mem: seq<byte>, msgs: seq<Message>, n: nat, rs: seq<Received>, first: nat, sender: Addr)
    requires Setup(job, mem, msgs, n, rs, first, sender)
    ensures job.Valid() && n == |GreedyCuts(job.Batch())| - 1 && Increasing(GreedyCuts(job.Batch()), |job.data|)
  {
    hide Roomy, AllArrived, Coalesce.Coalesced;
    NonNegative(job, mem, msgs, n);
  }

  lemma EnoughIff(job: Coalesce.Job, mem: seq<byte>, msgs: seq<Message>, n: nat, rs: seq<Received>, first: nat, sender: Addr)
    requires Setup(job, mem, msgs, n, rs, first, sender) && AllReadable(rs) && first + n <= |rs| && job.Valid()
    ensures EnoughSlots(GreedyCuts(job.Batch()), first) <==> !exists k: nat :: Bursts(rs, first, k)
  {
    hide AllReadable, Setup, Bursts, Legal, Coalesce.Job.Valid;
    var cuts := GreedyCuts(job.Batch());
    forall k | 1 <= k < |cuts| && cuts[k] > first + k ensures Bursts(rs, first, first + k - 1) {
      BurstsAt(job, mem, msgs, n, rs, first, sender, first + k - 1);
    }
    forall k: nat | Bursts(rs, first, k) ensures !EnoughSlots(cuts, first) {
      BurstsAt(job, mem, msgs, n, rs, first, sender, k);
    }
  }

  /** Coalescing non-empty buffers, delivering each message with its segment size to the slots from
      `first` on and splitting them returns exactly the buffers, in order and with the sender's
      address, if and only if no message outgrows the slots up to its own. */
  lemma EndToEnd(job: Coalesce.Job, mem: seq<byte>, msgs: seq<Message>, n: nat, rs: seq<Received>, first: nat, sender: Addr)
    requires Setup(job, mem, msgs, n, rs, first, sender)
    ensures job.Valid() && AllReadable(rs) && first <= |rs|
    ensures Run(rs, first, []) == Done(Tagged(job.data, sender)) <==> EnoughSlots(GreedyCuts(job.Batch()), first)
  {
    hide *;
    AllSplittable(job, mem, msgs, n, rs, first, sender);
    SetupJob(job, mem, msgs, n, rs, first, sender);
    OverflowExactly(rs, first);
    EnoughIff(job, mem, msgs, n, rs, first, sender);
    if !Run(rs, first, []).Overflow? {
      SplitDelivers(rs, first);
      ArrivedSoFar(job, mem, msgs, n, rs, first, sender, n);
      AllSoFar(job.data, GreedyCuts(job.Batch()), rs, first, sender, n);
    }
  }

  lemma AllSoFar(data: seq<seq<byte>>, cuts: seq<nat>, rs: seq<Received>, first: nat, sender: Addr, n: nat)
    requires AllReadable(rs) && first <= |rs| && Limit(rs, first) == first + n && Increasing(cuts, |data|) && n == |cuts| - 1
    requires SoFar(data, cuts, rs, first, sender, n)
    ensures AllDatagrams(rs, first, first + n) == Tagged(data, sender)
  {
    assert data[..|data|] == data;
  }

  lemma {:induction false} NotMalformedFrom(rs: seq<Received>, i: nat, items: seq<Datagram>)
    requires AllReadable(rs) && |items| <= i <= |rs| && (Limit(rs, i) == |rs| || rs[Limit(rs, i)].n == 0)
    ensures !Run(rs, i, items).Malformed?
    decreases |rs| - i
  {
    hide GsoSize, DatagramsOf;
    if i < |rs| && Splittable(rs[i]) {
      var more := DatagramsOf(rs[i], GsoSize(rs[i].control).bytes);
      if |items| + |more| <= i + 1 { NotMalformedFrom(rs, i + 1, items + more); }
    }
  }

  lemma NotMalformed(rs: seq<Received>, first: nat)
    requires AllReadable(rs) && first <= |rs|
    ensures Limit(rs, first) == |rs| || rs[Limit(rs, first)].n == 0 ==> !Run(rs, first, []).Malformed?
  {
    if Limit(rs, first) == |rs| || rs[Limit(rs, first)].n == 0 { NotMalformedFrom(rs, first, []); }
  }

  /** The same down to the bytes: after the in-place split the first slots hold the buffers that were
      sent, each as far as it fits the slot's buffer. */
  lemma EndToEndInPlace(job: Coalesce.Job, mem: seq<byte>, msgs: seq<Message>, n: nat, sender: Addr,
                        split: SplitCall, mem': seq<byte>, msgs': seq<Message>, m: nat, err: SplitError)
    requires Setup(job, mem, msgs, n, split.rs, split.first, sender)
    requires split.Valid() && Refines(split, mem', msgs', m, err)
    requires EnoughSlots(GreedyCuts(job.Batch()), split.first)
    ensures err == NoError && m == |job.data| <= |msgs'| == |split.was| && |mem'| == split.size && split.SameSlots(msgs')
    ensures forall i :: 0 <= i < m ==> Holds(mem', msgs'[i], Datagram(job.data[i], Some(sender)))
  {
    hide Coalesce.Coalesced, Roomy, AllArrived, Holds, GsoSize;
    EndToEnd(job, mem, msgs, n, split.rs, split.first, sender);
  }
}
