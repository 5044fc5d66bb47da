/** The two coalescers, proved against the greedy grouping. */
module Coalesce {
  import opened Bytes
  import opened Control
  import opened Memory
  import opened Grouping
  import opened Segmentation

  function PayloadLimit(is6: bool): nat { if is6 then MAX_IPV6_PAYLOAD else MAX_IPV4_PAYLOAD }

  function Lengths(bufs: seq<Slice>): (lens: seq<nat>)
    ensures |lens| == |bufs| && forall i :: 0 <= i < |bufs| ==> lens[i] == bufs[i].len
  {
    seq(|bufs|, i requires 0 <= i < |bufs| => bufs[i].len)
  }

  /** One call of a coalescer: the buffers and their bytes, the destination, the sticky source and
      the messages as they were. `gather` tells the scatter-gather form from the copying one. */
  datatype Job = Job(gather: bool, bufs: seq<Slice>, data: seq<seq<byte>>, is6: bool,
                     addr: Addr, src: seq<byte>, was: seq<Message>)
  {
    ghost predicate Valid() {
      && |bufs| == |data| <= |was|
      && (forall i :: 0 <= i < |bufs| ==> bufs[i].len == |data[i]| && bufs[i].len <= bufs[i].cap)
      && (forall k :: 0 <= k < |was| ==> was[k].oob.Valid() && |was[k].buffers| > 0)
      && (gather ==> forall k :: 0 <= k < |was| ==> |was[k].buffers| == 1)
      && (!gather ==> AllDisjoint(bufs))
    }

    function Batch(): (b: Batch)
      ensures b.Valid() && |b.lens| == |bufs| && b.limit == PayloadLimit(is6)
    {
      var b := Grouping.Batch(Lengths(bufs), Capacities(bufs), PayloadLimit(is6));
      if gather then Unbounded(b) else b
    }

    /** The storage of the first buffer, grown to hold the group `[s, e)`. */
    function Base(s: nat, e: nat): Slice
      requires s < e <= |bufs|
    {
      bufs[s].(len := SumRange(Lengths(bufs), s, e))
    }

    /** Message `k` for the group `[s, e)`: it carries a segment size exactly when the group is
        complete and has two or more datagrams. */
    function MessageFor(k: nat, s: nat, e: nat, complete: bool): Message
      requires Valid() && k < |was| && s < e <= |bufs|
    {
      var oob := SetSrc(was[k].oob, src);
      was[k].(addr := Some(addr),
              oob := if complete && e - s >= 2 then SetGSO(oob, bufs[s].len) else oob,
              buffers := if gather then bufs[s..e] else was[k].buffers[0 := Base(s, e)])
    }

    /** The first buffer of the copied group holds the bytes of all of them. */
    ghost predicate Holds(mem: seq<byte>, s: nat, e: nat)
      requires s < e <= |bufs| && |bufs| == |data|
    {
      gather || (Base(s, e).Valid(|mem|) && View(mem, Base(s, e)) == Flatten(data[s..e]))
    }

    /** Where the loop stands after `i` buffers. */
    ghost predicate Progress(mem: seq<byte>, msgs: seq<Message>, starts: seq<nat>, i: nat)
      requires Valid()
    {
      && i <= |bufs| && |starts| <= i && (i > 0 ==> GreedyPrefix(Batch(), starts, i))
      && AllValid(bufs, |mem|) && Views(mem, bufs) == data
      && |msgs| == |was|
      && (forall k :: 0 <= k < |starts| ==> GroupDone(mem, msgs, starts, i, k))
      && (forall k :: |starts| <= k < |was| ==> msgs[k] == was[k])
    }

    ghost predicate GroupDone(mem: seq<byte>, msgs: seq<Message>, starts: seq<nat>, i: nat, k: nat)
      requires Valid() && i <= |bufs| && k < |starts| <= |msgs| == |was|
    {
      var s, e := starts[k], EndOf(starts, i, k);
      s < e <= |bufs| && msgs[k] == MessageFor(k, s, e, k + 1 < |starts| || i == |bufs|) && Holds(mem, s, e)
    }
  }

  function EndOf(starts: seq<nat>, i: nat, k: nat): nat {
    if k + 1 < |starts| then starts[k + 1] else i
  }

  // Appending to the storage of one group leaves another group's bytes alone.
  lemma HoldsStable(job: Job, a: seq<byte>, b: seq<byte>, s: nat, e: nat, t: nat, lo: nat, hi: nat)
    requires job.Valid() && !job.gather && s < e <= |job.bufs| && t < |job.bufs| && s != t
    requires job.Holds(a, s, e) && SameOutside(a, b, lo, hi)
    requires Legal(job.Batch(), s, e)
    requires job.bufs[t].off <= lo <= hi <= job.bufs[t].off + job.bufs[t].cap
    ensures job.Holds(b, s, e)
  {
    assert Disjoint(job.bufs[s], job.bufs[t]);
    assert SumRange(job.Batch().lens, s, s + 1) == SumRange(job.Batch().lens, s, s) + job.bufs[s].len;
    ViewStable(a, b, lo, hi, job.Base(s, e));
  }

  // Appending to the storage of a group leaves the callers' buffers alone.
  lemma BuffersStable(job: Job, a: seq<byte>, b: seq<byte>, t: nat, lo: nat, hi: nat)
    requires job.Valid() && !job.gather && AllValid(job.bufs, |a|) && t < |job.bufs|
    requires SameOutside(a, b, lo, hi)
    requires job.bufs[t].off + job.bufs[t].len <= lo <= hi <= job.bufs[t].off + job.bufs[t].cap
    ensures AllValid(job.bufs, |b|) && Views(b, job.bufs) == Views(a, job.bufs)
  {
    forall i | 0 <= i < |job.bufs| ensures View(b, job.bufs[i]) == View(a, job.bufs[i]) {
      assert i == t || Disjoint(job.bufs[i], job.bufs[t]);
      ViewStable(a, b, lo, hi, job.bufs[i]);
    }
  }

  /** Memory `b` is `a` with buffer `i` appended to the storage of the group `[s, i)`. */
  ghost predicate Appended(job: Job, a: seq<byte>, b: seq<byte>, s: nat, i: nat)
    requires job.Valid() && s < i < |job.bufs|
  {
    if job.gather then a == b
    else
      && job.Base(s, i).Valid(|a|) && job.Base(s, i + 1).Valid(|b|)
      && SameOutside(a, b, job.Base(s, i).off + job.Base(s, i).len, job.Base(s, i).off + job.Base(s, i + 1).len)
      && View(b, job.Base(s, i + 1)) == View(a, job.Base(s, i)) + job.data[i]
  }

  lemma BaseBounds(job: Job, s: nat, i: nat)
    requires s < i < |job.bufs|
    ensures job.bufs[s].len <= job.Base(s, i).len <= job.Base(s, i + 1).len
  {
    var lens := Lengths(job.bufs);
    SumRangeShrinks(lens, s, i, s, s + 1);
    SumRangeShrinks(lens, s, i + 1, s, i);
    assert SumRange(lens, s, s + 1) == SumRange(lens, s, s) + lens[s];
  }

  // What joining buffer `i` does to the memory.
  lemma JoinMemory(job: Job, a: seq<byte>, b: seq<byte>, s: nat, i: nat)
    requires job.Valid() && s < i < |job.bufs| && Appended(job, a, b, s, i) && job.Holds(a, s, i)
    requires AllValid(job.bufs, |a|) && Views(a, job.bufs) == job.data
    requires Legal(job.Batch(), s, i + 1)
    ensures AllValid(job.bufs, |b|) && Views(b, job.bufs) == job.data
    ensures job.Holds(b, s, i + 1)
  {
    if !job.gather {
      hide Legal, Job.Valid, Views, SumRange, Lengths;
      BaseBounds(job, s, i);
      BuffersStable(job, a, b, s, job.Base(s, i).off + job.Base(s, i).len, job.Base(s, i).off + job.Base(s, i + 1).len);
      GroupGrows(job.data, s, i);
    }
  }

  lemma GroupGrows(data: seq<seq<byte>>, s: nat, i: nat)
    requires s <= i < |data|
    ensures Flatten(data[s..i + 1]) == Flatten(data[s..i]) + data[i]
  {
    assert data[s..i + 1] == data[s..i] + [data[i]];
    FlattenSnoc(data[s..i], data[i]);
  }

  lemma JoinKeepsGroup(job: Job, a: seq<byte>, b: seq<byte>, s: nat, i: nat, s': nat, e': nat)
    requires job.Valid() && s < i < |job.bufs| && Appended(job, a, b, s, i)
    requires AllValid(job.bufs, |a|)
    requires Legal(job.Batch(), s, i + 1)
    requires s' != s && s' < e' <= |job.bufs| && Legal(job.Batch(), s', e') && job.Holds(a, s', e')
    ensures job.Holds(b, s', e')
  {
    if !job.gather {
      BaseBounds(job, s, i);
      HoldsStable(job, a, b, s', e', s, job.Base(s, i).off + job.Base(s, i).len, job.Base(s, i).off + job.Base(s, i + 1).len);
    }
  }

  lemma BaseGrows(job: Job, s: nat, i: nat)
    requires s < i < |job.bufs|
    ensures job.Base(s, i + 1) == job.Base(s, i).(len := job.Base(s, i).len + job.bufs[i].len)
  {
  }

  // The conversion of the segment size to 16 bits changes nothing.
  lemma SizeFits(job: Job, s: nat, e: nat)
    requires Legal(job.Batch(), s, e) && e - s >= 2
    ensures job.bufs[s].len % 0x1_0000 == job.bufs[s].len
  {
    SegmentSizeFits(job.Batch(), s, e);
  }

  lemma BaseOne(job: Job, i: nat)
    requires i < |job.bufs|
    ensures job.Base(i, i + 1) == job.bufs[i]
  {
    var lens := Lengths(job.bufs);
    assert SumRange(lens, i, i + 1) == SumRange(lens, i, i) + lens[i];
  }

  /** Joining buffer `i` to the open group. */
  lemma JoinStep(job: Job, a: seq<byte>, b: seq<byte>, msgs: seq<Message>, starts: seq<nat>, i: nat)
    requires job.Valid() && job.Progress(a, msgs, starts, i) && 0 < i < |job.bufs|
    requires Legal(job.Batch(), starts[|starts| - 1], i + 1)
    requires Appended(job, a, b, starts[|starts| - 1], i)
    ensures var base := |starts| - 1;
            job.Progress(b, msgs[base := job.MessageFor(base, starts[base], i + 1, i + 1 == |job.bufs|)], starts, i + 1)
  {
    hide Job.MessageFor, Job.Holds, Appended, SumRange, Legal, Job.Batch;
    var base, next := |starts| - 1, i + 1;
    var s := starts[base];
    assert job.GroupDone(a, msgs, starts, i, base);
    var msgs' := msgs[base := job.MessageFor(base, s, next, next == |job.bufs|)];
    JoinMemory(job, a, b, s, i);
    forall k | 0 <= k < |starts| ensures job.GroupDone(b, msgs', starts, next, k) {
      assert job.GroupDone(a, msgs, starts, i, k);
      if k < base {
        StartsAscend(job.Batch(), starts, i, k, base);
        JoinKeepsGroup(job, a, b, s, i, starts[k], starts[k + 1]);
      }
    }
  }

  /** Closing the open group, if any, and starting a new one at buffer `i`. */
  lemma OpenStep(job: Job, mem: seq<byte>, msgs: seq<Message>, starts: seq<nat>, i: nat, msgs': seq<Message>)
    requires job.Valid() && job.Progress(mem, msgs, starts, i) && i < |job.bufs|
    requires i > 0 ==> !Legal(job.Batch(), starts[|starts| - 1], i + 1)
    requires |msgs'| == |msgs|
    requires i > 0 ==> msgs'[|starts| - 1] == job.MessageFor(|starts| - 1, starts[|starts| - 1], i, true)
    requires msgs'[|starts|] == job.MessageFor(|starts|, i, i + 1, i + 1 == |job.bufs|)
    requires forall k :: 0 <= k < |msgs| && k != |starts| && k != |starts| - 1 ==> msgs'[k] == msgs[k]
    ensures job.Progress(mem, msgs', starts + [i], i + 1)
  {
    hide Job.MessageFor, SumRange, Legal, Job.Batch;
    var starts', next := starts + [i], i + 1;
    if i > 0 { StartNext(job.Batch(), starts, i); } else { FirstGroup(job.Batch()); }
    BaseOne(job, i);
    assert job.data[i..i + 1] == [job.data[i]] && Flatten([job.data[i]]) == job.data[i] + Flatten([]);
    assert job.Holds(mem, i, i + 1);
    forall k | 0 <= k < |starts'| ensures job.GroupDone(mem, msgs', starts', next, k) {
      if k < |starts| {
        assert job.GroupDone(mem, msgs, starts, i, k);
      }
    }
  }

  /** What a coalescer leaves behind: one message for each greedy group, and nothing else changed. */
  ghost predicate Coalesced(job: Job, mem: seq<byte>, msgs: seq<Message>, n: nat)
    requires job.Valid()
  {
    var cuts := GreedyCuts(job.Batch());
    && n == |cuts| - 1 <= |job.bufs|
    && |msgs| == |job.was|
    && AllValid(job.bufs, |mem|) && Views(mem, job.bufs) == job.data
    && (forall k :: 0 <= k < n ==> GroupSent(job, mem, msgs, cuts, k))
    && (forall k :: n <= k < |msgs| ==> msgs[k] == job.was[k])
  }

  ghost predicate GroupSent(job: Job, mem: seq<byte>, msgs: seq<Message>, cuts: seq<nat>, k: nat)
    requires job.Valid() && k + 1 < |cuts| && k < |msgs| == |job.was|
  {
    var s, e := cuts[k], cuts[k + 1];
    s < e <= |job.bufs| && msgs[k] == job.MessageFor(k, s, e, true) && job.Holds(mem, s, e)
  }

  lemma ProgressDone(job: Job, mem: seq<byte>, msgs: seq<Message>, starts: seq<nat>)
    requires job.Valid() && job.Progress(mem, msgs, starts, |job.bufs|)
    ensures Coalesced(job, mem, msgs, |starts|)
  {
    var n := |job.bufs|;
    if n > 0 {
      GreedyDone(job.Batch(), starts);
    } else {
      GreedyUnique(job.Batch(), [0]);
    }
    var cuts := GreedyCuts(job.Batch());
    forall k | 0 <= k < |starts| ensures GroupSent(job, mem, msgs, cuts, k) {
      assert job.GroupDone(mem, msgs, starts, n, k);
      assert EndOf(starts, n, k) == cuts[k + 1];
    }
  }

  lemma ProgressStart(job: Job, mem: seq<byte>)
    requires AllValid(job.bufs, |mem|) && Views(mem, job.bufs) == job.data && |job.bufs| <= |job.was|
    requires job.gather || AllDisjoint(job.bufs)
    requires forall k :: 0 <= k < |job.was| ==>
               job.was[k].oob.Valid() && |job.was[k].buffers| > 0 && (job.gather ==> |job.was[k].buffers| == 1)
    ensures job.Valid() && job.Progress(mem, job.was, [], 0)
  {
  }

  /** What the loop may rely on: the next message is untouched and the buffers hold their data. */
  lemma NextMessage(job: Job, mem: seq<byte>, msgs: seq<Message>, starts: seq<nat>, i: nat)
    requires job.Valid() && job.Progress(mem, msgs, starts, i) && i < |job.bufs|
    ensures |starts| <= i && |starts| < |msgs| == |job.was| && msgs[|starts|] == job.was[|starts|]
    ensures job.bufs[i].Valid(|mem|) && View(mem, job.bufs[i]) == job.data[i]
    ensures i > 0 ==> |starts| > 0
  {
  }

  /** The message being filled, and what the join test decides. */
  lemma OpenMessage(job: Job, mem: seq<byte>, msgs: seq<Message>, starts: seq<nat>, i: nat)
    requires job.Valid() && job.Progress(mem, msgs, starts, i) && 0 < i < |job.bufs|
    ensures 0 < |starts| < |msgs| == |job.was| && |starts| <= i
    ensures var base := |starts| - 1;
            var s := starts[base];
            && s < i && msgs[base] == job.MessageFor(base, s, i, false)
            && Legal(job.Batch(), s, i)
            && (Legal(job.Batch(), s, i + 1) <==>
                  && job.bufs[i].len + job.Base(s, i).len <= PayloadLimit(job.is6)
                  && job.bufs[i].len <= job.bufs[s].len
                  && (job.gather || job.bufs[i].len <= job.bufs[s].cap - job.Base(s, i).len)
                  && i - s < MAX_SEGMENTS
                  && !(job.bufs[i - 1].len < job.bufs[s].len))
            && (!job.gather ==> job.Base(s, i).Valid(|mem|))
            && (!job.gather ==> |msgs[base].buffers| > 0 && msgs[base].buffers[0] == job.Base(s, i))
            && (!job.gather ==> job.Base(s, i).cap == job.bufs[s].cap)
            && (job.gather ==> msgs[base].buffers == job.bufs[s..i])
  {
    assert job.GroupDone(mem, msgs, starts, i, |starts| - 1);
    JoinTest(job.Batch(), starts[|starts| - 1], i);
  }

  /** The copying coalescer: it appends each joined buffer to the first buffer of its group. */
  method CoalesceMessages(mem: array<byte>, addr: Addr, is6: bool, src: seq<byte>, bufs: seq<Slice>, msgs: array<Message>)
    returns (n: nat)
    requires |bufs| <= msgs.Length
    requires AllValid(bufs, mem.Length) && AllDisjoint(bufs)
    requires forall i :: 0 <= i < msgs.Length ==> msgs[i].oob.Valid() && |msgs[i].buffers| > 0
    modifies mem, msgs
    ensures Coalesced(Job(false, bufs, old(Views(mem[..], bufs)), is6, addr, src, old(msgs[..])), mem[..], msgs[..], n)
    ensures SameBeyond(old(mem[..]), mem[..], bufs)
  {
    hide *;
    var base, gsoSize, dgramCnt, endBatch := -1, 0, 0, false;
    var maxPayloadLen := PayloadLimit(is6);
    ghost var job := Job(false, bufs, Views(mem[..], bufs), is6, addr, src, msgs[..]);
    ghost var starts: seq<nat> := [];
    ProgressStart(job, mem[..]);
    SameItself(mem[..], bufs);
    for i := 0 to |bufs|
      invariant |starts| == base + 1
      invariant job.Progress(mem[..], msgs[..], starts, i) && SameBeyond(old(mem[..]), mem[..], bufs)
      invariant i == 0 ==> base == -1 && dgramCnt == 0
      invariant i > 0 ==> 0 <= base < i && starts[base] < i
      invariant i > 0 ==> gsoSize == bufs[starts[base]].len && dgramCnt == i - starts[base]
      invariant i > 0 ==> endBatch == (bufs[i - 1].len < gsoSize)
    {
      var buf := bufs[i];
      if i > 0 {
        OpenMessage(job, mem[..], msgs[..], starts, i);
        var msgLen := buf.len;
        var baseLenBefore := msgs[base].buffers[0].len;
        var freeBaseCap := msgs[base].buffers[0].cap - baseLenBefore;
        if msgLen + baseLenBefore <= maxPayloadLen &&
           msgLen <= gsoSize &&
           msgLen <= freeBaseCap &&
           dgramCnt < MAX_SEGMENTS &&
           !endBatch
        {
          CopyIn(mem, msgs, base, buf, i == |bufs| - 1, gsoSize, job, starts, i, old(mem[..]));
          dgramCnt := dgramCnt + 1;
          if msgLen < gsoSize {
            endBatch := true;
          }
          continue;
        }
      }
      StartMessage(msgs, base, buf, dgramCnt, gsoSize, addr, src, job, mem[..], starts, i);
      endBatch := false;
      base := base + 1;
      gsoSize := buf.len;
      dgramCnt := 1;
      starts := starts + [i];
    }
    ProgressDone(job, mem[..], msgs[..], starts);
    n := base + 1;
  }

  method CopyIn(mem: array<byte>, msgs: array<Message>, base: nat, buf: Slice, last: bool, gsoSize: nat,
                ghost job: Job, ghost starts: seq<nat>, ghost i: nat, ghost first: seq<byte>)
    requires job.Valid() && !job.gather && job.Progress(mem[..], msgs[..], starts, i) && 0 < i < |job.bufs|
    requires SameBeyond(first, mem[..], job.bufs)
    requires base == |starts| - 1 < msgs.Length && starts[base] < i && gsoSize == job.bufs[starts[base]].len
    requires Legal(job.Batch(), starts[base], i + 1)
    requires buf == job.bufs[i] && last == (i == |job.bufs| - 1)
    modifies mem, msgs
    ensures job.Progress(mem[..], msgs[..], starts, i + 1) && SameBeyond(first, mem[..], job.bufs)
  {
    hide Job.Progress, Job.Batch, Legal, SumRange, SetGSO, SetSrc, SameBeyond;
    ghost var mem0, msgs0, s := mem[..], msgs[..], starts[base];
    NextMessage(job, mem0, msgs0, starts, i);
    OpenMessage(job, mem0, msgs0, starts, i);
    SizeFits(job, s, i + 1);
    BaseGrows(job, s, i);
    var joined := Append(mem, msgs[base].buffers[0], buf);
    SameAfter(first, mem0, mem[..], job.Base(s, i).off + job.Base(s, i).len, job.Base(s, i).off + job.Base(s, i + 1).len, job.bufs, s);
    msgs[base] := msgs[base].(buffers := msgs[base].buffers[0 := joined]);
    if last {
      msgs[base] := msgs[base].(oob := SetGSO(msgs[base].oob, gsoSize % 0x1_0000));
    }
    assert Appended(job, mem0, mem[..], s, i);
    JoinStep(job, mem0, mem[..], msgs0, starts, i);
    assert msgs0[base].buffers[0 := joined] == job.was[base].buffers[0 := joined];
    assert msgs[..] == msgs0[base := job.MessageFor(base, s, i + 1, i + 1 == |job.bufs|)];
  }

  method StartMessage(msgs: array<Message>, base: int, buf: Slice, dgramCnt: nat, gsoSize: nat, addr: Addr, src: seq<byte>,
                      ghost job: Job, ghost mem: seq<byte>, ghost starts: seq<nat>, ghost i: nat)
    requires job.Valid() && job.Progress(mem, msgs[..], starts, i) && i < |job.bufs|
    requires base == |starts| - 1 && |starts| < msgs.Length && addr == job.addr && src == job.src && buf == job.bufs[i]
    requires i == 0 ==> base == -1 && dgramCnt == 0
    requires i > 0 ==> base >= 0 && starts[base] < i && dgramCnt == i - starts[base] && gsoSize == job.bufs[starts[base]].len
    requires i > 0 ==> !Legal(job.Batch(), starts[base], i + 1)
    modifies msgs
    ensures job.Progress(mem, msgs[..], starts + [i], i + 1)
  {
    hide Job.Progress, Job.Batch, Legal, SumRange, SetGSO, SetSrc;
    ghost var msgs0 := msgs[..];
    NextMessage(job, mem, msgs0, starts, i);
    if i > 0 { OpenMessage(job, mem, msgs0, starts, i); }
    if dgramCnt > 1 {
      SizeFits(job, starts[base], i);
      msgs[base] := msgs[base].(oob := SetGSO(msgs[base].oob, gsoSize % 0x1_0000));
    }
    var next := base + 1;
    msgs[next] := msgs[next].(oob := SetSrc(msgs[next].oob, src));
    msgs[next] := msgs[next].(buffers := msgs[next].buffers[0 := buf]);
    msgs[next] := msgs[next].(addr := Some(addr));
    BaseOne(job, i);
    OpenStep(job, mem, msgs0, starts, i, msgs[..]);
  }

  /** The scatter-gather coalescer: it collects the buffers of a group without copying. */
  method GatherMessages(addr: Addr, is6: bool, bufs: seq<Slice>, msgs: array<Message>, ghost mem: seq<byte>)
    returns (n: nat)
    requires |bufs| <= msgs.Length && AllValid(bufs, |mem|)
    requires forall i :: 0 <= i < msgs.Length ==> msgs[i].oob.Valid() && |msgs[i].buffers| == 1
    modifies msgs
    ensures Coalesced(Job(true, bufs, Views(mem, bufs), is6, addr, [], old(msgs[..])), mem, msgs[..], n)
  {
    hide *;
    var base, gsoSize, dgramCnt, endBatch := -1, 0, 0, false;
    var maxPayloadLen := PayloadLimit(is6);
    ghost var job := Job(true, bufs, Views(mem, bufs), is6, addr, [], msgs[..]);
    ghost var starts: seq<nat> := [];
    ProgressStart(job, mem);
    for i := 0 to |bufs|
      invariant |starts| == base + 1
      invariant job.Progress(mem, msgs[..], starts, i)
      invariant i == 0 ==> base == -1 && dgramCnt == 0
      invariant i > 0 ==> 0 <= base < i && starts[base] < i
      invariant i > 0 ==> gsoSize == bufs[starts[base]].len && dgramCnt == i - starts[base]
      invariant i > 0 ==> endBatch == (bufs[i - 1].len < gsoSize)
    {
      var buf := bufs[i];
      NextMessage(job, mem, msgs[..], starts, i);
      if i > 0 {
        OpenMessage(job, mem, msgs[..], starts, i);
        var msgLen := buf.len;
        GatheredLength(job, starts[base], i);
        var baseLenBefore := TotalLength(msgs[base].buffers);
        if msgLen + baseLenBefore <= maxPayloadLen &&
           msgLen <= gsoSize &&
           dgramCnt < MAX_SEGMENTS &&
           !endBatch
        {
          AddChunk(msgs, base, buf, i == |bufs| - 1, gsoSize, job, mem, starts, i);
          dgramCnt := dgramCnt + 1;
          if msgLen < gsoSize {
            endBatch := true;
          }
          continue;
        }
      }
      StartMessage(msgs, base, buf, dgramCnt, gsoSize, addr, [], job, mem, starts, i);
      endBatch := false;
      base := base + 1;
      gsoSize := buf.len;
      dgramCnt := 1;
      starts := starts + [i];
    }
    ProgressDone(job, mem, msgs[..], starts);
    n := base + 1;
  }

  method AddChunk(msgs: array<Message>, base: nat, buf: Slice, last: bool, gsoSize: nat,
                  ghost job: Job, ghost mem: seq<byte>, ghost starts: seq<nat>, ghost i: nat)
    requires job.Valid() && job.gather && job.Progress(mem, msgs[..], starts, i) && 0 < i < |job.bufs|
    requires base == |starts| - 1 < msgs.Length && starts[base] < i && gsoSize == job.bufs[starts[base]].len
    requires Legal(job.Batch(), starts[base], i + 1)
    requires buf == job.bufs[i] && last == (i == |job.bufs| - 1)
    modifies msgs
    ensures job.Progress(mem, msgs[..], starts, i + 1)
  {
    hide Job.Progress, Job.Batch, Legal, SumRange, SetGSO, SetSrc;
    ghost var msgs0, s := msgs[..], starts[base];
    OpenMessage(job, mem, msgs0, starts, i);
    SizeFits(job, s, i + 1);
    msgs[base] := msgs[base].(buffers := msgs[base].buffers + [buf]);
    if last {
      msgs[base] := msgs[base].(oob := SetGSO(msgs[base].oob, gsoSize % 0x1_0000));
    }
    JoinStep(job, mem, mem, msgs0, starts, i);
    assert job.bufs[s..i] + [buf] == job.bufs[s..i + 1];
    assert msgs[..] == msgs0[base := job.MessageFor(base, s, i + 1, i + 1 == |job.bufs|)];
  }

  function TotalLength(chunks: seq<Slice>): nat {
    if |chunks| == 0 then 0 else TotalLength(chunks[..|chunks| - 1]) + chunks[|chunks| - 1].len
  }

  lemma {:induction false} GatheredLength(job: Job, s: nat, e: nat)
    requires s < e <= |job.bufs|
    ensures TotalLength(job.bufs[s..e]) == job.Base(s, e).len
  {
    var chunks := job.bufs[s..e];
    assert chunks[..|chunks| - 1] == job.bufs[s..e - 1];
    if s + 1 < e {
      GatheredLength(job, s, e - 1);
    } else {
      BaseOne(job, s);
    }
  }
}
