/** What the kernel makes of a segmented message, and what a grouped batch becomes on the wire. */
module Segmentation {
  import opened Bytes
  import opened Grouping

  /** A payload cut into pieces of `size` bytes, the last one possibly shorter. */
  function Chunks(payload: seq<byte>, size: nat): seq<seq<byte>>
    requires size > 0
    decreases |payload|
  {
    if |payload| == 0 then []
    else if |payload| <= size then [payload]
    else [payload[..size]] + Chunks(payload[size..], size)
  }

  /** The datagrams of one message: its payload as it is without a segment size, else its chunks. */
  function Segments(payload: seq<byte>, size: nat): seq<seq<byte>> {
    if size == 0 then [payload] else Chunks(payload, size)
  }

  lemma DivStep(n: nat, d: nat)
    requires 0 < d <= n
    ensures n / d == (n - d) / d + 1
  {
    var q, r := n / d, n % d;
    assert n == d * q + r;
    assert n - d == d * (q - 1) + r;
    DivUnique(n - d, d, q - 1, r);
  }

  lemma DivUnique(n: nat, d: nat, q: int, r: nat)
    requires d > 0 && r < d && n == d * q + r
    ensures n / d == q
  {
    var q', r' := n / d, n % d;
    assert n == d * q' + r';
    if q > q' {
      Distribute(d, q, q');
    } else if q < q' {
      Distribute(d, q', q);
    }
  }

  lemma Distribute(d: nat, a: int, b: int)
    requires a > b
    ensures d * a - d * b >= d
  {
    assert d * a - d * b == d * (a - b - 1) + d;
    assert d * (a - b - 1) >= 0;
  }

  lemma {:induction false} ChunkCount(payload: seq<byte>, size: nat)
    requires size > 0
    ensures |Chunks(payload, size)| == (|payload| + size - 1) / size
    decreases |payload|
  {
    var n := |payload| + size - 1;
    if |payload| == 0 {
      DivUnique(n, size, 0, n);
    } else {
      DivStep(n, size);
      if |payload| <= size {
        DivUnique(|payload| - 1, size, 0, |payload| - 1);
      } else {
        ChunkCount(payload[size..], size);
      }
    }
  }

  lemma {:induction false} ChunksNonEmpty(payload: seq<byte>, size: nat)
    requires size > 0
    ensures forall c :: c in Chunks(payload, size) ==> |c| > 0
    decreases |payload|
  {
    if |payload| > size { ChunksNonEmpty(payload[size..], size); }
  }

  /** Buffers that survive being joined: all of `size` bytes, except a last one of 1 to `size`. */
  ghost predicate Uniform(xs: seq<seq<byte>>, size: nat) {
    && |xs| > 0
    && (forall k :: 0 <= k < |xs| - 1 ==> |xs[k]| == size)
    && 0 < |xs[|xs| - 1]| <= size
  }

  lemma {:induction false} ChunksOfUniform(xs: seq<seq<byte>>, size: nat)
    requires size > 0 && Uniform(xs, size)
    ensures Chunks(Flatten(xs), size) == xs
  {
    if |xs| == 1 {
      assert Flatten(xs) == xs[0] + Flatten(xs[1..]) == xs[0];
    } else {
      var rest := Flatten(xs[1..]);
      ChunksOfUniform(xs[1..], size);
      assert rest == xs[1] + Flatten(xs[1..][1..]) && |xs[1]| > 0;
      assert Flatten(xs)[..size] == xs[0] && Flatten(xs)[size..] == rest;
    }
  }

  function Lens(bufs: seq<seq<byte>>): (lens: seq<nat>)
    ensures |lens| == |bufs| && forall i :: 0 <= i < |bufs| ==> lens[i] == |bufs[i]|
  {
    seq(|bufs|, i requires 0 <= i < |bufs| => |bufs[i]|)
  }

  lemma {:induction false} FlattenLength(bufs: seq<seq<byte>>, s: nat, e: nat)
    requires s <= e <= |bufs|
    ensures |Flatten(bufs[s..e])| == SumRange(Lens(bufs), s, e)
    decreases e
  {
    if s < e {
      FlattenLength(bufs, s, e - 1);
      assert bufs[s..e] == bufs[s..e - 1] + [bufs[e - 1]];
      FlattenSnoc(bufs[s..e - 1], bufs[e - 1]);
    }
  }

  /** The segment size a message carries for the group `[s, e)`; zero stands for none. */
  function GroupSize(bufs: seq<seq<byte>>, s: nat, e: nat): nat
    requires s < e <= |bufs|
  {
    if e - s >= 2 then |bufs[s]| else 0
  }

  function GroupDatagrams(bufs: seq<seq<byte>>, s: nat, e: nat): seq<seq<byte>>
    requires s < e <= |bufs|
  {
    Segments(Flatten(bufs[s..e]), GroupSize(bufs, s, e))
  }

  lemma {:induction false} GroupSurvives(b: Batch, bufs: seq<seq<byte>>, s: nat, e: nat)
    requires b.Valid() && b.lens == Lens(bufs) && Legal(b, s, e)
    requires e - s >= 2 ==> |bufs[e - 1]| > 0
    ensures GroupDatagrams(bufs, s, e) == bufs[s..e]
  {
    var xs := bufs[s..e];
    if e - s == 1 {
      assert Flatten(xs) == xs[0] + Flatten(xs[1..]) == xs[0];
    } else {
      assert Uniform(xs, |bufs[s]|);
      ChunksOfUniform(xs, |bufs[s]|);
    }
  }

  // An empty last buffer is lost: the rest of the group is all that reaches the wire.
  lemma {:induction false} GroupLosesEmpty(b: Batch, bufs: seq<seq<byte>>, s: nat, e: nat)
    requires b.Valid() && b.lens == Lens(bufs) && Legal(b, s, e)
    requires e - s >= 2 && |bufs[e - 1]| == 0
    ensures |GroupDatagrams(bufs, s, e)| < e - s
  {
    var g := |bufs[s]|;
    if g > 0 {
      var xs := bufs[s..e - 1];
      assert bufs[s..e] == xs + [bufs[e - 1]];
      FlattenSnoc(xs, bufs[e - 1]);
      assert Flatten(bufs[s..e]) == Flatten(xs);
      assert Uniform(xs, g);
      ChunksOfUniform(xs, g);
    }
  }

  /** What the messages of the first `k` groups put on the wire. */
  function Wire(bufs: seq<seq<byte>>, cuts: seq<nat>, k: nat): seq<seq<byte>>
    requires Increasing(cuts, |bufs|) && k < |cuts|
  {
    if k == 0 then []
    else
      CutBounds(cuts, |bufs|, k);
      Wire(bufs, cuts, k - 1) + GroupDatagrams(bufs, cuts[k - 1], cuts[k])
  }

  lemma CutBounds(cuts: seq<nat>, n: nat, k: nat)
    requires Increasing(cuts, n) && k < |cuts|
    ensures cuts[k] <= n
  {
    if k < |cuts| - 1 { CutsAscend(cuts, n, k, |cuts| - 1); }
  }

  /** No message that joins several buffers ends with an empty one. */
  ghost predicate NoEmptyTail(bufs: seq<seq<byte>>, cuts: seq<nat>)
    requires Increasing(cuts, |bufs|)
  {
    forall k :: 0 <= k < |cuts| - 1 && cuts[k + 1] - cuts[k] >= 2 ==> Tail(bufs, cuts[k + 1]) > 0
  }

  function Tail(bufs: seq<seq<byte>>, e: nat): nat {
    if 0 < e <= |bufs| then |bufs[e - 1]| else 0
  }

  lemma {:induction false} WirePrefix(b: Batch, bufs: seq<seq<byte>>, cuts: seq<nat>, k: nat)
    requires b.Valid() && b.lens == Lens(bufs) && Partition(b, cuts) && k < |cuts|
    requires NoEmptyTail(bufs, cuts)
    ensures cuts[k] <= |bufs| && Wire(bufs, cuts, k) == bufs[..cuts[k]]
  {
    CutBounds(cuts, |bufs|, k);
    if k > 0 {
      WirePrefix(b, bufs, cuts, k - 1);
      assert Legal(b, cuts[k - 1], cuts[k]);
      GroupSurvives(b, bufs, cuts[k - 1], cuts[k]);
      assert bufs[..cuts[k]] == bufs[..cuts[k - 1]] + bufs[cuts[k - 1]..cuts[k]];
    }
  }

  lemma {:induction false} WireCount(b: Batch, bufs: seq<seq<byte>>, cuts: seq<nat>, k: nat)
    requires b.Valid() && b.lens == Lens(bufs) && Partition(b, cuts) && k < |cuts|
    ensures |Wire(bufs, cuts, k)| <= cuts[k]
    ensures |Wire(bufs, cuts, k)| == cuts[k] ==>
              forall j :: 0 <= j < k && cuts[j + 1] - cuts[j] >= 2 ==> Tail(bufs, cuts[j + 1]) > 0
  {
    if k > 0 {
      WireCount(b, bufs, cuts, k - 1);
      var s, e := cuts[k - 1], cuts[k];
      assert Legal(b, s, e);
      if e - s >= 2 && |bufs[e - 1]| == 0 {
        GroupLosesEmpty(b, bufs, s, e);
      } else {
        GroupSurvives(b, bufs, s, e);
      }
    }
  }

  /** A grouped batch reaches the wire unchanged exactly when no joined message ends with an empty
      buffer; in particular always when no buffer is empty. */
  lemma WireExact(b: Batch, bufs: seq<seq<byte>>, cuts: seq<nat>)
    requires b.Valid() && b.lens == Lens(bufs) && Partition(b, cuts)
    ensures Wire(bufs, cuts, |cuts| - 1) == bufs <==> NoEmptyTail(bufs, cuts)
    ensures (forall i :: 0 <= i < |bufs| ==> |bufs[i]| > 0) ==> Wire(bufs, cuts, |cuts| - 1) == bufs
  {
    hide Legal, Wire;
    if NoEmptyTail(bufs, cuts) {
      WirePrefix(b, bufs, cuts, |cuts| - 1);
      assert bufs[..|bufs|] == bufs;
    } else {
      WireCount(b, bufs, cuts, |cuts| - 1);
      NonEmptyTails(bufs, cuts);
    }
  }

  lemma NonEmptyTails(bufs: seq<seq<byte>>, cuts: seq<nat>)
    requires Increasing(cuts, |bufs|)
    ensures (forall i :: 0 <= i < |bufs| ==> |bufs[i]| > 0) ==> NoEmptyTail(bufs, cuts)
  {
    if forall i :: 0 <= i < |bufs| ==> |bufs[i]| > 0 {
      forall k | 0 <= k < |cuts| - 1 && cuts[k + 1] - cuts[k] >= 2 ensures Tail(bufs, cuts[k + 1]) > 0 {
        CutBounds(cuts, |bufs|, k + 1);
      }
    }
  }

  /** The segment size of a joined message always fits the 16 bits it is converted to. */
  lemma SegmentSizeFits(b: Batch, s: nat, e: nat)
    requires b.Valid() && Legal(b, s, e) && e - s >= 2 && b.limit <= MAX_IPV6_PAYLOAD
    ensures b.lens[s] < 0x1_0000
  {
    SumRangeShrinks(b.lens, s, e, s, s + 1);
    assert SumRange(b.lens, s, s + 1) == SumRange(b.lens, s, s) + b.lens[s];
  }
}
