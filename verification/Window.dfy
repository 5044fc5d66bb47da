/** When the splitter overflows, and the read windows that rule it out. */
module Window {
  import opened Bytes
  import opened Control
  import opened Grouping
  import opened Segmentation
  import opened Split

  /** The number of datagrams in one read message. */
  function SegmentsIn(r: Received): nat
    requires r.Valid() && r.n > 0 && GsoSize(r.control).Size?
  {
    |DatagramsOf(r, GsoSize(r.control).bytes)|
  }

  predicate Splittable(r: Received) { r.n > 0 && GsoSize(r.control).Size? }

  /** The messages the splitter gets to see: up to the first one that is empty or malformed. */
  function Limit(rs: seq<Received>, i: nat): (z: nat)
    requires i <= |rs|
    ensures i <= z <= |rs| && (z < |rs| ==> !Splittable(rs[z])) && forall k :: i <= k < z ==> Splittable(rs[k])
    decreases |rs| - i
  {
    if i == |rs| || !Splittable(rs[i]) then i else Limit(rs, i + 1)
  }

  function Total(rs: seq<Received>, a: nat, b: nat): nat
    requires AllReadable(rs) && a <= |rs| && a <= b <= Limit(rs, a)
    decreases b
  {
    if a == b then 0 else Total(rs, a, b - 1) + SegmentsIn(rs[b - 1])
  }

  /** Message `k` is the one with which the datagrams read so far outgrow the slots up to its own. */
  ghost predicate Bursts(rs: seq<Received>, first: nat, k: nat)
    requires AllReadable(rs) && first <= |rs|
  {
    first <= k < Limit(rs, first) && Total(rs, first, k + 1) > k + 1
  }

  lemma {:induction false} OverflowFrom(rs: seq<Received>, first: nat, i: nat, items: seq<Datagram>)
    requires AllReadable(rs) && first <= |rs| && first <= i <= Limit(rs, first) && |items| <= i
    requires |items| == Total(rs, first, i)
    ensures Run(rs, i, items).Overflow? <==> exists k :: i <= k && Bursts(rs, first, k)
    decreases |rs| - i
  {
    hide GsoSize, DatagramsOf;
    if i < Limit(rs, first) {
      var more := DatagramsOf(rs[i], GsoSize(rs[i].control).bytes);
      assert Total(rs, first, i + 1) == |items| + |more|;
      if |items| + |more| > i + 1 {
        assert Bursts(rs, first, i);
      } else {
        OverflowFrom(rs, first, i + 1, items + more);
        assert !Bursts(rs, first, i);
      }
    }
  }

  /** The splitter reports an overflow exactly when, for some message it reads, the datagrams up to
      and including that message outnumber the slots up to and including its own. */
  lemma OverflowExactly(rs: seq<Received>, first: nat)
    requires AllReadable(rs) && first <= |rs|
    ensures Run(rs, first, []).Overflow? <==> exists k :: Bursts(rs, first, k)
  {
    OverflowFrom(rs, first, first, []);
  }

  // ---------------------------------------------------------------- windows

  /** groReadBatchSize: how many of the slots a receive with GRO reads into. */
  function GroReadBatchSize(batchSize: int): (w: int)
    ensures batchSize > 0 ==> 0 < w <= batchSize && 64 * (w - 1) < batchSize <= 64 * w
  {
    var n := GoDiv(batchSize + MAX_SEGMENTS - 1, MAX_SEGMENTS);
    if n < 1 then 1 else if n > batchSize then batchSize else n
  }

  // Division that truncates toward zero.
  function GoDiv(a: int, d: nat): int
    requires d > 0
  {
    if a >= 0 then a / d else -(-a / d)
  }

  /** Every read message carries at most as many datagrams as the kernel coalesces. */
  ghost predicate KernelReads(rs: seq<Received>, first: nat) {
    && AllReadable(rs) && first <= |rs|
    && forall k :: first <= k < |rs| && Splittable(rs[k]) ==> SegmentsIn(rs[k]) <= MAX_SEGMENTS
  }

  lemma {:induction false} TotalBound(rs: seq<Received>, first: nat, b: nat)
    requires KernelReads(rs, first) && first <= b <= Limit(rs, first)
    ensures Total(rs, first, b) <= MAX_SEGMENTS * (b - first)
    decreases b
  {
    if first < b { TotalBound(rs, first, b - 1); }
  }

  /** No read of `window` messages into the tail of `size` slots can overflow. */
  ghost predicate NeverOverflows(size: nat, window: nat)
    requires window <= size
  {
    forall rs: seq<Received> ::
      |rs| == size && KernelReads(rs, size - window) ==> !Run(rs, size - window, []).Overflow?
  }

  lemma NeverHere(rs: seq<Received>, window: nat)
    requires window <= |rs| && NeverOverflows(|rs|, window) && KernelReads(rs, |rs| - window)
    ensures AllReadable(rs) && !Run(rs, |rs| - window, []).Overflow?
  {
    hide Run;
  }

  lemma ReadsReadable(rs: seq<Received>, first: nat)
    requires KernelReads(rs, first)
    ensures AllReadable(rs) && first <= |rs|
  {
  }

  lemma NoBurst(rs: seq<Received>, window: nat, k: nat)
    requires window <= |rs| && KernelReads(rs, |rs| - window) && MAX_SEGMENTS * window <= |rs|
    ensures !Bursts(rs, |rs| - window, k)
  {
    hide KernelReads, Total, AllReadable;
    var first := |rs| - window;
    ReadsReadable(rs, first);
    if first <= k < Limit(rs, first) {
      TotalBound(rs, first, k + 1);
      assert MAX_SEGMENTS * (k + 1 - first) <= k + 1;
    }
  }

  lemma WideEnough(size: nat, window: nat)
    requires MAX_SEGMENTS * window <= size
    ensures NeverOverflows(size, window)
  {
    hide Bursts, SegmentsIn, Splittable, Run;
    var first := size - window;
    forall rs: seq<Received> | |rs| == size && KernelReads(rs, first) ensures !Run(rs, size - window, []).Overflow? {
      OverflowExactly(rs, first);
      forall k: nat ensures !Bursts(rs, first, k) {
        NoBurst(rs, window, k);
      }
    }
  }

  // A read message of 64 one-byte datagrams.
  ghost function FullMessage(): Received {
    Received(Zeros(64), 64, Control.Item(Cmsg(SOL_UDP, UDP_GRO, LE(1, GSO_DATA)), Zeros(6)).Encode(), None)
  }

  lemma {:induction false} FullMessageSplits()
    ensures FullMessage().Valid() && Splittable(FullMessage()) && SegmentsIn(FullMessage()) == MAX_SEGMENTS
  {
    var gro := Cmsg(SOL_UDP, UDP_GRO, LE(1, GSO_DATA));
    var item := Control.Item(gro, Zeros(6));
    assert Pow256(4) == 0x1_0000_0000 && Pow256(8) > 18 by { assert Pow256(2) == 65536; assert Pow256(6) > 18; }
    ParseLast(item);
    FirstIsEarliest([gro], Gro, 0);
    assert Pow256(2) == 0x1_0000;
    FromLEInverse(1, GSO_DATA);
    assert gro.data[..GSO_DATA] == gro.data;
    assert GsoSize(item.Encode()) == Size(1);
    CursorStart(FullMessage(), 1);
    DivUnique(64, 1, 64, 0);
  }

  lemma {:induction false} FullTotal(rs: seq<Received>, first: nat, b: nat)
    requires AllReadable(rs) && first <= b <= |rs| && Limit(rs, first) == |rs|
    requires forall k :: first <= k < |rs| ==> SegmentsIn(rs[k]) == MAX_SEGMENTS
    ensures Total(rs, first, b) == MAX_SEGMENTS * (b - first)
    decreases b
  {
    hide GsoSize, DatagramsOf, Received.Valid;
    if first < b { FullTotal(rs, first, b - 1); }
  }

  lemma TooNarrow(size: nat, window: nat)
    requires 0 < window <= size < MAX_SEGMENTS * window
    ensures !NeverOverflows(size, window)
  {
    hide FullMessage, GsoSize, DatagramsOf, SegmentsIn, Splittable, Run, Received.Valid;
    FullMessageSplits();
    var rs := seq(size, _ => FullMessage());
    var first := size - window;
    assert Limit(rs, first) == size;
    FullTotal(rs, first, size);
    assert Bursts(rs, first, size - 1);
    OverflowExactly(rs, first);
    assert KernelReads(rs, first);
  }

  /** A window is safe exactly when every slot of it has 64 slots of the batch to itself. */
  lemma WindowExact(size: nat, window: nat)
    requires 0 < window <= size
    ensures NeverOverflows(size, window) <==> MAX_SEGMENTS * window <= size
  {
    if MAX_SEGMENTS * window <= size { WideEnough(size, window); } else { TooNarrow(size, window); }
  }

  lemma WindowArithmetic(batchSize: nat)
    requires batchSize > 0
    ensures MAX_SEGMENTS * GroReadBatchSize(batchSize) <= batchSize <==> batchSize % MAX_SEGMENTS == 0
  {
  }

  /** No read of StdNetBind overflows: it splits what it read only for batch sizes above 1. */
  ghost predicate ReadsSafely(batchSize: nat)
    requires batchSize > 0
  {
    batchSize > 1 ==> NeverOverflows(batchSize, GroReadBatchSize(batchSize))
  }

  /** StdNetBind never overflows exactly for batch sizes that are 1 or a multiple of 64. */
  lemma StdNetBindWindow(batchSize: nat)
    requires batchSize > 0
    ensures 0 < GroReadBatchSize(batchSize) <= batchSize
    ensures ReadsSafely(batchSize) <==> batchSize == 1 || batchSize % MAX_SEGMENTS == 0
  {
    WindowArithmetic(batchSize);
    hide NeverOverflows, GroReadBatchSize;
    WindowExact(batchSize, GroReadBatchSize(batchSize));
  }

  lemma SafeWindow(batchSize: nat)
    requires batchSize > 0 && batchSize % MAX_SEGMENTS == 0
    ensures NeverOverflows(batchSize, GroReadBatchSize(batchSize))
  {
    hide NeverOverflows, GroReadBatchSize;
    StdNetBindWindow(batchSize);
  }

  /** The batching connection reads into two slots, which is safe exactly from 128 slots on. */
  lemma BatchingConnWindow(size: nat)
    requires size >= 2
    ensures NeverOverflows(size, 2) <==> size >= 128
  {
    WindowExact(size, 2);
  }

  // ---------------------------------------------------------------- what a run delivers

  /** The datagrams of the messages `[a, b)`, in order. */
  ghost function AllDatagrams(rs: seq<Received>, a: nat, b: nat): seq<Datagram>
    requires AllReadable(rs) && a <= |rs| && a <= b <= Limit(rs, a)
    decreases b
  {
    if a == b then [] else AllDatagrams(rs, a, b - 1) + DatagramsOf(rs[b - 1], GsoSize(rs[b - 1].control).bytes)
  }

  lemma {:induction false} RunDelivers(rs: seq<Received>, first: nat, i: nat)
    requires AllReadable(rs) && first <= |rs| && first <= i <= Limit(rs, first)
    requires |AllDatagrams(rs, first, i)| <= i
    ensures Run(rs, i, AllDatagrams(rs, first, i)).Done? ==>
              && Limit(rs, first) == Stop(rs, first)
              && Run(rs, i, AllDatagrams(rs, first, i)) == Done(AllDatagrams(rs, first, Limit(rs, first)))
    decreases |rs| - i
  {
    hide GsoSize, DatagramsOf;
    if i < Limit(rs, first) {
      var more := DatagramsOf(rs[i], GsoSize(rs[i].control).bytes);
      assert AllDatagrams(rs, first, i + 1) == AllDatagrams(rs, first, i) + more;
      if |AllDatagrams(rs, first, i)| + |more| <= i + 1 {
        RunDelivers(rs, first, i + 1);
      }
    } else {
      StopIsLimit(rs, first);
    }
  }

  lemma {:induction false} StopIsLimit(rs: seq<Received>, i: nat)
    requires i <= |rs|
    ensures var z := Limit(rs, i); z == |rs| || rs[z].n == 0 ==> Stop(rs, i) == z
    decreases |rs| - i
  {
    if i < |rs| && Splittable(rs[i]) { StopIsLimit(rs, i + 1); }
  }

  // ---------------------------------------------------------------- what was sent

  /** The datagrams the sender put into one message, by the bytes and the segment size read. */
  function SentIn(r: Received, size: nat): (items: seq<Datagram>)
    requires r.Valid()
    ensures |items| == |Segments(r.store[..r.n], size)|
  {
    var segs := Segments(r.store[..r.n], size);
    seq(|segs|, j requires 0 <= j < |segs| => Datagram(segs[j], r.addr))
  }

  lemma {:induction false} SentExact(r: Received, size: nat)
    requires r.Valid() && r.n > 0 && size <= |r.store|
    ensures |SentIn(r, size)| == |DatagramsOf(r, size)| > 0
    ensures SentIn(r, size) == DatagramsOf(r, size) <==> size <= r.n
  {
    RawSegmentsExact(r.store, r.n, size);
    if size > r.n {
      assert DatagramsOf(r, size)[0].data == r.store[..size] && SentIn(r, size)[0].data == r.store[..r.n];
    }
  }

  ghost function AllSent(rs: seq<Received>, a: nat, b: nat): seq<Datagram>
    requires AllReadable(rs) && a <= |rs| && a <= b <= Limit(rs, a)
    decreases b
  {
    if a == b then [] else AllSent(rs, a, b - 1) + SentIn(rs[b - 1], GsoSize(rs[b - 1].control).bytes)
  }

  predicate SizesWithin(rs: seq<Received>, a: nat, b: nat)
    requires a <= b <= |rs|
  {
    forall k :: a <= k < b && GsoSize(rs[k].control).Size? ==> GsoSize(rs[k].control).bytes <= rs[k].n
  }

  lemma {:induction false} SentSoFar(rs: seq<Received>, a: nat, b: nat)
    requires AllReadable(rs) && a <= |rs| && a <= b <= Limit(rs, a)
    ensures |AllSent(rs, a, b)| == |AllDatagrams(rs, a, b)|
    ensures AllSent(rs, a, b) == AllDatagrams(rs, a, b) <==> SizesWithin(rs, a, b)
    decreases b
  {
    hide *;
    if a == b {
      SentNothing(rs, a);
    } else {
      SplittableAt(rs, a, b - 1);
      var r := rs[b - 1];
      SentSoFar(rs, a, b - 1);
      SentUnfolds(rs, a, b);
      WithinUnfolds(rs, a, b);
      SentExact(r, GsoSize(r.control).bytes);
      SameParts(AllSent(rs, a, b - 1), SentIn(r, GsoSize(r.control).bytes), AllDatagrams(rs, a, b - 1), DatagramsOf(r, GsoSize(r.control).bytes));
    }
  }

  lemma {:induction false} SentNothing(rs: seq<Received>, a: nat)
    requires AllReadable(rs) && a <= |rs|
    ensures AllSent(rs, a, a) == AllDatagrams(rs, a, a) == [] && SizesWithin(rs, a, a)
  {
  }

  lemma {:induction false} SplittableAt(rs: seq<Received>, a: nat, k: nat)
    requires AllReadable(rs) && a <= |rs| && a <= k < Limit(rs, a)
    ensures k < |rs| && rs[k].Valid() && rs[k].n > 0 && GsoSize(rs[k].control).Size? && GsoSize(rs[k].control).bytes <= |rs[k].store|
  {
    hide GsoSize;
    assert rs[k] in rs && Splittable(rs[k]);
  }

  lemma {:induction false} SentUnfolds(rs: seq<Received>, a: nat, b: nat)
    requires AllReadable(rs) && a <= |rs| && a < b <= Limit(rs, a) && rs[b - 1].Valid()
    requires rs[b - 1].n > 0 && GsoSize(rs[b - 1].control).Size? && GsoSize(rs[b - 1].control).bytes <= |rs[b - 1].store|
    ensures AllSent(rs, a, b) == AllSent(rs, a, b - 1) + SentIn(rs[b - 1], GsoSize(rs[b - 1].control).bytes)
    ensures AllDatagrams(rs, a, b) == AllDatagrams(rs, a, b - 1) + DatagramsOf(rs[b - 1], GsoSize(rs[b - 1].control).bytes)
  {
    hide GsoSize, SentIn, DatagramsOf, Received.Valid, Limit, AllReadable;
  }

  lemma {:induction false} WithinUnfolds(rs: seq<Received>, a: nat, b: nat)
    requires a < b <= |rs| && GsoSize(rs[b - 1].control).Size?
    ensures SizesWithin(rs, a, b) <==> SizesWithin(rs, a, b - 1) && GsoSize(rs[b - 1].control).bytes <= rs[b - 1].n
  {
    hide GsoSize;
  }

  lemma SameParts<T>(x: seq<T>, d: seq<T>, y: seq<T>, e: seq<T>)
    requires |x| == |y| && |d| == |e|
    ensures x + d == y + e <==> x == y && d == e
  {
    if x + d == y + e {
      assert (x + d)[..|x|] == x && (y + e)[..|x|] == y;
      assert (x + d)[|x|..] == d && (y + e)[|x|..] == e;
    }
  }

  /** A successful split delivers the datagrams that were sent if and only if no segment size exceeds
      the bytes read with it. Otherwise as many, but with bytes that were in the buffer before. */
  lemma SplitExact(rs: seq<Received>, first: nat)
    requires AllReadable(rs) && first <= |rs|
    ensures Limit(rs, first) <= |rs|
    ensures Run(rs, first, []).Done? ==>
              && |Run(rs, first, []).items| == |AllSent(rs, first, Limit(rs, first))|
              && (Run(rs, first, []).items == AllSent(rs, first, Limit(rs, first)) <==> SizesWithin(rs, first, Limit(rs, first)))
  {
    hide GsoSize, DatagramsOf, Run, AllSent, AllDatagrams, SizesWithin;
    SplitDelivers(rs, first);
    SentSoFar(rs, first, Limit(rs, first));
  }

  /** A successful split delivers every datagram of every message read, in order, and no other. */
  lemma SplitDelivers(rs: seq<Received>, first: nat)
    requires AllReadable(rs) && first <= |rs|
    ensures Run(rs, first, []).Done? ==>
              Limit(rs, first) == Stop(rs, first) && Run(rs, first, []).items == AllDatagrams(rs, first, Stop(rs, first))
  {
    RunDelivers(rs, first, first);
  }
}
