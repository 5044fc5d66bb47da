/** Which datagrams may share one segmented message, and the greedy grouping of a batch.

    A batch is described by the lengths of its buffers, the capacities of their slices and the
    payload limit. A group is a contiguous range `[s, e)` of the batch, a grouping is the list of
    its cut points. Both coalescers compute `GreedyCuts`; the copying one with the real slice
    capacities, the scatter-gather one with capacities that never bind. */
module Grouping {

  // Kernel limit on the datagrams of one segmented message.
  const MAX_SEGMENTS: nat := 64

  // Largest UDP payloads: the 16-bit length less the IPv4 and UDP headers, or less the UDP header.
  const MAX_IPV4_PAYLOAD: nat := 65507
  const MAX_IPV6_PAYLOAD: nat := 65527

  function SumRange(lens: seq<nat>, s: nat, e: nat): nat
    requires s <= e <= |lens|
    decreases e
  {
    if s == e then 0 else SumRange(lens, s, e - 1) + lens[e - 1]
  }

  lemma {:induction false} SumRangeFront(lens: seq<nat>, s: nat, e: nat)
    requires s < e <= |lens|
    ensures SumRange(lens, s, e) == lens[s] + SumRange(lens, s + 1, e)
    decreases e
  {
    if s + 1 < e {
      SumRangeFront(lens, s, e - 1);
    } else {
      assert SumRange(lens, s, s) == 0 && SumRange(lens, s + 1, e) == 0;
    }
  }

  lemma {:induction false} SumRangeShrinks(lens: seq<nat>, s: nat, e: nat, s': nat, e': nat)
    requires s <= s' <= e' <= e <= |lens|
    ensures SumRange(lens, s', e') <= SumRange(lens, s, e)
    decreases e - s
  {
    if s < s' {
      SumRangeFront(lens, s, e);
      SumRangeShrinks(lens, s + 1, e, s', e');
    } else if e' < e {
      SumRangeShrinks(lens, s, e - 1, s', e');
    }
  }

  datatype Batch = Batch(lens: seq<nat>, caps: seq<nat>, limit: nat) {
    predicate Valid() { |lens| == |caps| }
  }

  /** The same batch where spare capacity never stops a group from growing. */
  function Unbounded(b: Batch): (u: Batch)
    ensures u.Valid() && |u.lens| == |b.lens|
  {
    b.(caps := seq(|b.lens|, _ => b.limit))
  }

  /** A range that one message may carry: at most 64 datagrams, all as long as the first except a
      possibly shorter last one; with two or more, the payload stays within the limit and the
      capacity of the first buffer. A single datagram is always allowed. */
  ghost predicate Legal(b: Batch, s: nat, e: nat)
    requires b.Valid()
  {
    && s < e <= |b.lens|
    && e - s <= MAX_SEGMENTS
    && (e - s >= 2 ==> SumRange(b.lens, s, e) <= b.limit && SumRange(b.lens, s, e) <= b.caps[s])
    && (forall k :: s <= k < e - 1 ==> b.lens[k] == b.lens[s])
    && b.lens[e - 1] <= b.lens[s]
  }

  ghost predicate Increasing(cuts: seq<nat>, n: nat) {
    && |cuts| > 0 && cuts[0] == 0 && cuts[|cuts| - 1] == n
    && (forall k :: 0 <= k < |cuts| - 1 ==> cuts[k] < cuts[k + 1])
  }

  /** A division of the whole batch into consecutive legal groups. */
  ghost predicate Partition(b: Batch, cuts: seq<nat>)
    requires b.Valid()
  {
    && Increasing(cuts, |b.lens|)
    && (forall k :: 0 <= k < |cuts| - 1 ==> Legal(b, cuts[k], cuts[k + 1]))
  }

  /** A partition in which no group could have taken the datagram after it. */
  ghost predicate Greedy(b: Batch, cuts: seq<nat>)
    requires b.Valid()
  {
    && Partition(b, cuts)
    && (forall k :: 0 <= k < |cuts| - 1 ==> !Legal(b, cuts[k], cuts[k + 1] + 1))
  }

  // A legal group stays legal when cut short.
  lemma LegalPrefix(b: Batch, s: nat, e: nat, e': nat)
    requires b.Valid() && Legal(b, s, e) && s < e' <= e
    ensures Legal(b, s, e')
  {
    SumRangeShrinks(b.lens, s, e, s, e');
  }

  // Without the capacity condition, every sub-range of a legal group is legal.
  lemma LegalSubrange(b: Batch, s: nat, e: nat, s': nat, e': nat)
    requires b.Valid() && b == Unbounded(b)
    requires Legal(b, s, e) && s <= s' < e' <= e
    ensures Legal(b, s', e')
  {
    SumRangeShrinks(b.lens, s, e, s', e');
  }

  ghost function GroupEnd(b: Batch, s: nat, e: nat): (end: nat)
    requires b.Valid() && Legal(b, s, e)
    ensures Legal(b, s, end) && !Legal(b, s, end + 1)
    decreases |b.lens| - e
  {
    if Legal(b, s, e + 1) then GroupEnd(b, s, e + 1) else e
  }

  lemma LegalOne(b: Batch, s: nat)
    requires b.Valid() && s < |b.lens|
    ensures Legal(b, s, s + 1)
  {
  }

  lemma LegalBounds(b: Batch, s: nat, e: nat)
    requires b.Valid() && Legal(b, s, e)
    ensures s < e <= |b.lens|
  {
  }

  ghost function CutsFrom(b: Batch, s: nat): (cuts: seq<nat>)
    requires b.Valid() && s <= |b.lens|
    ensures |cuts| > 0 && cuts[0] == s && cuts[|cuts| - 1] == |b.lens|
    ensures forall k :: 0 <= k < |cuts| - 1 ==>
              cuts[k] < cuts[k + 1] && Legal(b, cuts[k], cuts[k + 1]) && !Legal(b, cuts[k], cuts[k + 1] + 1)
    decreases |b.lens| - s
  {
    if s == |b.lens| then [s]
    else
      LegalOne(b, s);
      var end := GroupEnd(b, s, s + 1);
      LegalBounds(b, s, end);
      hide Legal;
      [s] + CutsFrom(b, end)
  }

  /** The cut points of the greedy grouping: group `k` is the range from cut `k` to cut `k + 1`. */
  ghost function GreedyCuts(b: Batch): (cuts: seq<nat>)
    requires b.Valid()
    ensures Greedy(b, cuts)
  {
    CutsFrom(b, 0)
  }

  lemma {:induction false} GreedyPrefixUnique(b: Batch, x: seq<nat>, y: seq<nat>, k: nat)
    requires b.Valid() && Greedy(b, x) && Greedy(b, y)
    requires k < |x| && k < |y|
    ensures x[k] == y[k]
  {
    if k > 0 {
      GreedyPrefixUnique(b, x, y, k - 1);
      if x[k] < y[k] {
        LegalPrefix(b, y[k - 1], y[k], x[k] + 1);
      } else if y[k] < x[k] {
        LegalPrefix(b, x[k - 1], x[k], y[k] + 1);
      }
    }
  }

  lemma {:induction false} CutsAscend(cuts: seq<nat>, n: nat, i: nat, j: nat)
    requires Increasing(cuts, n) && i < j < |cuts|
    ensures cuts[i] < cuts[j]
  {
    if i + 1 < j {
      CutsAscend(cuts, n, i, j - 1);
    }
  }

  /** There is exactly one greedy grouping of a batch. */
  lemma GreedyUnique(b: Batch, x: seq<nat>)
    requires b.Valid() && Greedy(b, x)
    ensures x == GreedyCuts(b)
  {
    hide Legal;
    var y := GreedyCuts(b);
    var m := if |x| < |y| then |x| else |y|;
    GreedyPrefixUnique(b, x, y, m - 1);
    if m < |x| { CutsAscend(x, |b.lens|, m - 1, |x| - 1); }
    if m < |y| { CutsAscend(y, |b.lens|, m - 1, |y| - 1); }
    forall k | 0 <= k < m ensures x[k] == y[k] {
      GreedyPrefixUnique(b, x, y, k);
    }
  }

  // After the same number of groups the greedy grouping has always covered at least as much.
  lemma {:induction false} GreedyStaysAhead(b: Batch, p: seq<nat>, k: nat)
    requires b.Valid() && b == Unbounded(b) && Partition(b, p)
    requires k < |p| && k < |GreedyCuts(b)|
    ensures p[k] <= GreedyCuts(b)[k]
  {
    if k > 0 {
      GreedyStaysAhead(b, p, k - 1);
      var g := GreedyCuts(b);
      if g[k] < p[k] {
        LegalSubrange(b, p[k - 1], p[k], g[k - 1], g[k] + 1);
      }
    }
  }

  /** No division of a batch into legal groups uses fewer messages than the greedy one. */
  lemma GreedyIsOptimal(b: Batch, p: seq<nat>)
    requires b.Valid() && b == Unbounded(b) && Partition(b, p)
    ensures |GreedyCuts(b)| <= |p|
  {
    var g := GreedyCuts(b);
    if |g| > |p| {
      GreedyStaysAhead(b, p, |p| - 1);
      CutsAscend(g, |b.lens|, |p| - 1, |g| - 1);
    }
  }

  /** Every first buffer of an unrestricted group has room for the whole group. */
  ghost predicate RoomForGroups(b: Batch)
    requires b.Valid()
  {
    var g := GreedyCuts(Unbounded(b));
    forall k :: 0 <= k < |g| - 1 && g[k + 1] - g[k] >= 2 ==> SumRange(b.lens, g[k], g[k + 1]) <= b.caps[g[k]]
  }

  lemma LegalUnbounded(b: Batch, s: nat, e: nat)
    requires b.Valid()
    ensures Legal(b, s, e) ==> Legal(Unbounded(b), s, e)
    ensures Legal(Unbounded(b), s, e) && (e - s >= 2 ==> SumRange(b.lens, s, e) <= b.caps[s]) ==> Legal(b, s, e)
  {
  }

  lemma RoomSuffices(b: Batch)
    requires b.Valid() && RoomForGroups(b)
    ensures GreedyCuts(b) == GreedyCuts(Unbounded(b))
  {
    hide Legal;
    var g := GreedyCuts(Unbounded(b));
    forall k | 0 <= k < |g| - 1 ensures Legal(b, g[k], g[k + 1]) && !Legal(b, g[k], g[k + 1] + 1) {
      LegalUnbounded(b, g[k], g[k + 1]);
      LegalUnbounded(b, g[k], g[k + 1] + 1);
    }
    GreedyUnique(b, g);
  }

  /** The copying and the scatter-gather coalescer group a batch alike exactly when every base
      buffer has the capacity for its scatter-gather group. */
  lemma GroupingsAgree(b: Batch)
    requires b.Valid()
    ensures GreedyCuts(b) == GreedyCuts(Unbounded(b)) <==> RoomForGroups(b)
  {
    var g := GreedyCuts(Unbounded(b));
    if RoomForGroups(b) {
      RoomSuffices(b);
    } else {
      var k :| 0 <= k < |g| - 1 && g[k + 1] - g[k] >= 2 && SumRange(b.lens, g[k], g[k + 1]) > b.caps[g[k]];
      assert !Legal(b, g[k], g[k + 1]);
    }
  }

  /** With that room the copying coalescer, too, uses as few messages as any division does. */
  lemma CopyingIsOptimal(b: Batch, p: seq<nat>)
    requires b.Valid() && RoomForGroups(b) && Partition(b, p)
    ensures |GreedyCuts(b)| <= |p|
  {
    forall k | 0 <= k < |p| - 1 ensures Legal(Unbounded(b), p[k], p[k + 1]) {
      LegalUnbounded(b, p[k], p[k + 1]);
    }
    RoomSuffices(b);
    GreedyIsOptimal(Unbounded(b), p);
  }

  /** Four one-byte buffers, the first with room for two bytes and the second for three. */
  function FourOnes(): Batch { Batch([1, 1, 1, 1], [2, 3, 1, 1], 65507) }

  /** Without it, it need not: it makes three messages of these buffers where two would do. */
  lemma CopyingNotOptimal()
    ensures FourOnes().Valid() && Partition(FourOnes(), [0, 1, 4]) && GreedyCuts(FourOnes()) == [0, 2, 3, 4]
  {
    TwoWouldDo();
    var b, g := FourOnes(), [0, 2, 3, 4];
    forall k | 0 <= k < 3 ensures Legal(b, g[k], g[k + 1]) && !Legal(b, g[k], g[k + 1] + 1) {
      OnesLegal(b, g[k], g[k + 1]);
      OnesLegal(b, g[k], g[k + 1] + 1);
    }
    hide Legal, FourOnes, GreedyCuts;
    GreedyUnique(b, g);
  }

  lemma TwoWouldDo()
    ensures Partition(FourOnes(), [0, 1, 4])
  {
    OnesLegal(FourOnes(), 0, 1);
    OnesLegal(FourOnes(), 1, 4);
    hide Legal;
  }

  lemma OnesLegal(b: Batch, s: nat, e: nat)
    requires b.Valid() && |b.lens| <= MAX_SEGMENTS <= b.limit && forall k :: 0 <= k < |b.lens| ==> b.lens[k] == 1
    ensures Legal(b, s, e) <==> s < e <= |b.lens| && (e - s >= 2 ==> e - s <= b.caps[s])
  {
    if s < e <= |b.lens| { OnesSum(b.lens, s, e); }
  }

  lemma {:induction false} OnesSum(lens: seq<nat>, s: nat, e: nat)
    requires s <= e <= |lens| && forall k :: 0 <= k < |lens| ==> lens[k] == 1
    ensures SumRange(lens, s, e) == e - s
    decreases e
  {
    if s < e { OnesSum(lens, s, e - 1); }
  }

  // ---------------------------------------------------------------- the greedy loop

  /** Where the loop stands after `i` buffers: `starts` are the first buffers of the messages so
      far, all groups but the last are closed and maximal, the last is still open. */
  ghost predicate GreedyPrefix(b: Batch, starts: seq<nat>, i: nat)
    requires b.Valid()
  {
    && |starts| > 0 && starts[0] == 0
    && (forall k :: 0 <= k < |starts| - 1 ==>
          && starts[k] < starts[k + 1]
          && Legal(b, starts[k], starts[k + 1]) && !Legal(b, starts[k], starts[k + 1] + 1))
    && Legal(b, starts[|starts| - 1], i)
  }

  /** The test both loops make before joining a buffer decides legality of the longer group. */
  lemma JoinTest(b: Batch, s: nat, i: nat)
    requires b.Valid() && Legal(b, s, i) && i < |b.lens|
    ensures Legal(b, s, i + 1) <==>
            && b.lens[i] + SumRange(b.lens, s, i) <= b.limit
            && b.lens[i] <= b.lens[s]
            && b.lens[i] + SumRange(b.lens, s, i) <= b.caps[s]
            && i - s < MAX_SEGMENTS
            && !(b.lens[i - 1] < b.lens[s])
  {
    assert SumRange(b.lens, s, i + 1) == SumRange(b.lens, s, i) + b.lens[i];
  }

  lemma FirstGroup(b: Batch)
    requires b.Valid() && |b.lens| > 0
    ensures GreedyPrefix(b, [0], 1)
  {
    LegalOne(b, 0);
  }

  lemma StartNext(b: Batch, starts: seq<nat>, i: nat)
    requires b.Valid() && GreedyPrefix(b, starts, i) && i < |b.lens|
    requires !Legal(b, starts[|starts| - 1], i + 1)
    ensures GreedyPrefix(b, starts + [i], i + 1)
  {
    LegalOne(b, i);
    LegalBounds(b, starts[|starts| - 1], i);
    hide Legal;
    var longer := starts + [i];
    forall k | 0 <= k < |longer| - 1
      ensures longer[k] < longer[k + 1] && Legal(b, longer[k], longer[k + 1]) && !Legal(b, longer[k], longer[k + 1] + 1)
    {
      assert longer[k] == starts[k] && longer[k + 1] == if k + 1 < |starts| then starts[k + 1] else i;
    }
  }

  lemma NothingBeyond(b: Batch, s: nat)
    requires b.Valid()
    ensures !Legal(b, s, |b.lens| + 1)
  {
  }

  lemma GreedyDone(b: Batch, starts: seq<nat>)
    requires b.Valid() && GreedyPrefix(b, starts, |b.lens|)
    ensures GreedyCuts(b) == starts + [|b.lens|]
  {
    LegalBounds(b, starts[|starts| - 1], |b.lens|);
    NothingBeyond(b, starts[|starts| - 1]);
    hide Legal;
    GreedyUnique(b, starts + [|b.lens|]);
  }

  lemma {:induction false} StartsAscend(b: Batch, starts: seq<nat>, n: nat, i: nat, j: nat)
    requires b.Valid() && GreedyPrefix(b, starts, n) && i < j < |starts|
    ensures starts[i] < starts[j] < n
    decreases |starts| - i
  {
    if i + 1 < j {
      StartsAscend(b, starts, n, i + 1, j);
    } else if j + 1 < |starts| {
      StartsAscend(b, starts, n, j, j + 1);
    }
  }
}
