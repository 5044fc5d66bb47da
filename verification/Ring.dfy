/** The rings of the Windows bind: 256 slots behind wrapping 32-bit counters.

    The kernel is a parameter of each call: whether a submission succeeds, how many completions are
    dequeued, how a wait ends. Completions come in the order of submission. */
module Ring {
  const PACKETS_PER_RING: nat := 256
  const WRAP: nat := 0x1_0000_0000

  type uint32 = x: int | 0 <= x < WRAP

  function Add32(a: uint32, b: uint32): uint32 { (a + b) % WRAP }

  /** Distance of two wrapped counters. */
  function Sub32(a: uint32, b: uint32): uint32 { (a - b) % WRAP }

  lemma WrapKeepsSlot(x: nat)
    ensures x % WRAP % PACKETS_PER_RING == x % PACKETS_PER_RING
  {
    var q := x / WRAP;
    assert x == WRAP * q + x % WRAP;
    assert x == PACKETS_PER_RING * (0x100_0000 * q) + x % WRAP;
    AddMultiple(x % WRAP, 0x100_0000 * q);
  }

  lemma {:induction false} AddMultiple(r: nat, k: nat)
    ensures (PACKETS_PER_RING * k + r) % PACKETS_PER_RING == r % PACKETS_PER_RING
  {
    if k > 0 { AddMultiple(r, k - 1); }
  }

  lemma SameSlot(a: nat, b: nat)
    requires a < b <= a + PACKETS_PER_RING
    ensures a % PACKETS_PER_RING == b % PACKETS_PER_RING <==> b == a + PACKETS_PER_RING
  {
  }

  lemma WrappedDistance(a: nat, b: nat)
    requires a <= b < a + WRAP
    ensures Sub32(b % WRAP, a % WRAP) == b - a
  {
    var qa, qb := a / WRAP, b / WRAP;
    assert a == WRAP * qa + a % WRAP && b == WRAP * qb + b % WRAP;
    assert qb == qa || qb == qa + 1;
  }

  /** The positions of requests, counted from the opening of the ring, oldest first. */
  ghost predicate Ascending(s: seq<nat>, lo: nat, hi: nat) {
    && (forall i :: 0 <= i < |s| ==> lo <= s[i] < hi)
    && (forall i, j :: 0 <= i < j < |s| ==> s[i] < s[j])
  }

  lemma {:induction false} AscendingFrom(s: seq<nat>, lo: nat, hi: nat, i: nat)
    requires Ascending(s, lo, hi) && i < |s|
    ensures lo + i <= s[i] && s[i] + (|s| - 1 - i) < hi
    decreases |s|
  {
    if i > 0 {
      AscendingFrom(s[1..], s[0] + 1, hi, i - 1);
    } else if |s| > 1 {
      AscendingFrom(s[..|s| - 1], lo, s[|s| - 1], 0);
    }
  }

  class RingBuffer {
    var head: uint32
    var tail: uint32
    var isFull: bool
    ghost var pushed: nat            // slots handed out since the ring was opened
    ghost var returned: nat          // slots taken back
    ghost var inFlight: seq<nat>     // positions the kernel works on, oldest first
    ghost var failed: nat            // submissions that failed

    /** The counters wrap, the distance does not: between 0 and 256 slots are outstanding, the flag
        tells 256 from 0, and the requests in flight are among the outstanding slots, all but one
        for every failed submission. */
    ghost predicate Valid()
      reads this
    {
      && head == returned % WRAP && tail == pushed % WRAP
      && returned <= pushed <= returned + PACKETS_PER_RING
      && isFull == (pushed - returned == PACKETS_PER_RING)
      && Ascending(inFlight, returned, pushed)
      && pushed - returned == |inFlight| + failed
    }

    constructor ()
      ensures Valid() && pushed == 0 && inFlight == [] && failed == 0 && !isFull
    {
      head, tail, isFull := 0, 0, false;
      pushed, returned, inFlight, failed := 0, 0, [], 0;
    }

    /** Hands out the slot after the last one, which no request in flight uses. The request for it
        is in flight or has failed to start. */
    method Push(ok: bool) returns (slot: nat)
      requires Valid() && !isFull
      modifies this
      ensures Valid() && pushed == old(pushed) + 1 && returned == old(returned)
      ensures slot == old(pushed) % PACKETS_PER_RING
      ensures forall p :: p in old(inFlight) ==> p % PACKETS_PER_RING != slot
      ensures inFlight == old(inFlight) + if ok then [old(pushed)] else []
      ensures failed == old(failed) + if ok then 0 else 1
    {
      WrapKeepsSlot(pushed);
      WrapKeepsSlot(pushed + 1);
      WrapKeepsSlot(returned);
      slot := tail % PACKETS_PER_RING;
      forall p | p in inFlight ensures p % PACKETS_PER_RING != slot {
        SameSlot(p, pushed);
      }
      NextWrapped(pushed);
      SameSlot(returned, pushed + 1);
      tail := Add32(tail, 1);
      if tail % PACKETS_PER_RING == head % PACKETS_PER_RING {
        isFull := true;
      }
      if ok { inFlight := inFlight + [pushed]; } else { failed := failed + 1; }
      pushed := pushed + 1;
    }

    // The slot of a position is in flight.
    ghost predicate Busy(position: nat)
      reads this
    {
      exists p :: p in inFlight && p % PACKETS_PER_RING == position % PACKETS_PER_RING
    }

    /** Takes back as many slots as requests completed, oldest first. Returning nothing to a full
        ring would mark it as not full; no caller does. */
    method Return(count: uint32)
      requires Valid() && count <= |inFlight| && (count > 0 || !isFull)
      modifies this
      ensures Valid() && returned == old(returned) + count && pushed == old(pushed)
      ensures inFlight == old(inFlight)[count..] && failed == old(failed)
      ensures count > 0 ==> !isFull
    {
      WrapKeepsSlot(pushed);
      WrapKeepsSlot(returned);
      if returned < pushed { SameSlot(returned, pushed); }
      if head % PACKETS_PER_RING == tail % PACKETS_PER_RING && !isFull {
        return;
      }
      AdvanceWrapped(returned, count);
      forall i | 0 <= i < |inFlight[count..]| ensures returned + count <= inFlight[count..][i] {
        AscendingFrom(inFlight, returned, pushed, count + i);
      }
      head := Add32(head, count);
      isFull := false;
      returned := returned + count;
      inFlight := inFlight[count..];
    }

    method CloseAndZero()
      modifies this
      ensures Valid() && pushed == 0 && inFlight == [] && failed == 0 && !isFull
    {
      head, tail, isFull := 0, 0, false;
      pushed, returned, inFlight, failed := 0, 0, [], 0;
    }
  }

  lemma NextWrapped(x: nat)
    ensures Add32(x % WRAP, 1) == (x + 1) % WRAP
  {
  }

  lemma AdvanceWrapped(x: nat, n: uint32)
    ensures Add32(x % WRAP, n) == (x + n) % WRAP
  {
  }

  /** The bounded queue behind the counters: their wrapped distance is the number of outstanding
      slots, at most 256, and the flag is up exactly at 256. */
  lemma BoundedAcrossWrap(r: RingBuffer)
    requires r.Valid()
    ensures Sub32(r.tail, r.head) == r.pushed - r.returned <= PACKETS_PER_RING
    ensures r.isFull <==> Sub32(r.tail, r.head) == PACKETS_PER_RING
    ensures |r.inFlight| <= Sub32(r.tail, r.head)
  {
    WrappedDistance(r.returned, r.pushed);
  }

  /** A ring with nothing in flight is full exactly when 256 submissions have failed. */
  lemma StuckWhen(r: RingBuffer)
    requires r.Valid() && |r.inFlight| == 0
    ensures r.isFull <==> r.failed == PACKETS_PER_RING
  {
  }

  lemma OldestWhenNoneFailed(r: RingBuffer)
    requires r.Valid() && r.failed == 0 && r.inFlight != []
    ensures r.inFlight[0] == r.returned
  {
    AscendingFrom(r.inFlight, r.returned, r.pushed, 0);
  }

  // ---------------------------------------------------------------- the two rings of a family

  datatype Outcome = Success | Closed | Failure | NoProgress | TooLong

  // How the spinning dequeue of a receive ends: with a completion, without, or because the bind closes.
  datatype Spin = Found | Empty | ClosedMeanwhile

  // A wait for completions that the kernel ends: refused, broken off, or woken.
  datatype Wait = NotifyFails | WaitFails | Woken(stillOpen: bool, count: nat)

  // One round of a receive, and the status of what was dequeued.
  datatype Round = Round(spin: Spin, wait: Wait, submitOk: bool, tooLarge: bool, stillOpen: bool, statusOk: bool) {
    /** A completion is dequeued while the bind is open. */
    predicate Dequeues() { spin.Found? || (spin.Empty? && wait.Woken? && wait.stillOpen && wait.count > 0) }

    /** The receive starts over after it. */
    predicate Repeats() { Dequeues() && submitOk && tooLarge && stillOpen }
  }

  /** Round `k` is the one that ends a receive. */
  ghost predicate EndsAt(rounds: seq<Round>, k: nat) {
    k < |rounds| && (forall j :: 0 <= j < k ==> rounds[j].Repeats()) && !rounds[k].Repeats()
  }

  class AfWinRingBind {
    const rx: RingBuffer
    const tx: RingBuffer

    ghost predicate Valid()
      reads this, rx, tx
    {
      rx != tx && rx.Valid() && tx.Valid()
    }

    constructor ()
      ensures Valid() && fresh(rx) && fresh(tx) && rx.pushed == 0 && tx.pushed == 0
    {
      rx := new RingBuffer();
      tx := new RingBuffer();
    }

    method InsertReceiveRequest(submitOk: bool) returns (ok: bool)
      requires Valid() && !rx.isFull
      modifies rx
      ensures Valid() && ok == submitOk && rx.pushed == old(rx.pushed) + 1 && rx.returned == old(rx.returned)
      ensures rx.inFlight == old(rx.inFlight) + if ok then [old(rx.pushed)] else []
      ensures rx.failed == old(rx.failed) + if ok then 0 else 1
    {
      var slot := rx.Push(submitOk);
      ok := submitOk;
    }

    /** The preposting loop of Open fills the ring and never finds it full. */
    method Prepost(submits: seq<bool>) returns (ok: bool)
      requires Valid() && rx.pushed == rx.returned == 0 && rx.inFlight == [] && rx.failed == 0
      requires |submits| == PACKETS_PER_RING
      modifies rx
      ensures Valid() && (ok <==> forall i :: 0 <= i < PACKETS_PER_RING ==> submits[i])
      ensures ok ==> |rx.inFlight| == PACKETS_PER_RING && rx.isFull && rx.failed == 0
    {
      for i := 0 to PACKETS_PER_RING
        invariant Valid() && rx.pushed == i && rx.returned == 0 && |rx.inFlight| == i && rx.failed == 0
        invariant forall j :: 0 <= j < i ==> submits[j]
      {
        ok := InsertReceiveRequest(submits[i]);
        if !ok {
          return;
        }
      }
      ok := true;
    }

    /** Takes back the oldest slot and hands one out in its place. The completed request is then read
        from a slot that is in flight again if and only if the ring was full and that request the one
        in the oldest slot. */
    method Cycle(submitOk: bool) returns (ok: bool)
      requires Valid() && rx.inFlight != []
      modifies rx
      ensures ok ==> (rx.Busy(old(rx.inFlight)[0]) <==> old(rx.isFull) && old(rx.inFlight)[0] == old(rx.returned))
      ensures Valid() && ok == submitOk && rx.pushed == old(rx.pushed) + 1 && rx.returned == old(rx.returned) + 1
      ensures rx.inFlight == old(rx.inFlight)[1..] + if ok then [old(rx.pushed)] else []
      ensures rx.failed == old(rx.failed) + if ok then 0 else 1
      ensures rx.isFull == old(rx.isFull)
    {
      ghost var read, rest, next := rx.inFlight[0], rx.inFlight[1..], rx.pushed;
      ghost var oldest, outstanding := rx.returned, rx.pushed - rx.returned;
      assert oldest <= read < next <= oldest + PACKETS_PER_RING;
      forall p | p in rest ensures p % PACKETS_PER_RING != read % PACKETS_PER_RING { SameSlot(read, p); }
      SameSlot(read, next);
      rx.Return(1);
      ok := InsertReceiveRequest(submitOk);
      assert rx.inFlight == rest + if ok then [next] else [];
      if ok {
        assert next in rx.inFlight && forall p :: p in rx.inFlight ==> p in rest || p == next;
      }
    }

    /** A receive: each round takes back one slot before it hands one out, so the ring is never full
        when it pushes. The number of outstanding slots stays the same; a failed submission leaves
        one fewer in flight. The datagram is copied out of the slot of position `read` after that
        slot may have been handed out again: exactly when the ring is full and `read` was its oldest
        slot, and so always when nothing has failed in a full ring. */
    method Receive(open: bool, rounds: seq<Round>) returns (r: Outcome, ghost made: nat, ghost read: nat)
      requires Valid()
      // A completion that is dequeued belongs to a request in flight.
      requires forall i :: 0 <= i < |rounds| && rounds[i].Dequeues() ==> rx.inFlight != []
      modifies rx
      ensures Valid() && r != TooLong
      ensures !open ==> r == Closed && made == 0 && rx.pushed == old(rx.pushed) && rx.returned == old(rx.returned)
                        && rx.inFlight == old(rx.inFlight) && rx.failed == old(rx.failed)
      // `made` rounds were repeated; the one after them, if any, decides.
      ensures open ==> made <= |rounds| && (made < |rounds| ==> EndsAt(rounds, made))
      ensures open ==>
                forall j :: 0 <= j < made ==>
                  && (rounds[j].spin == Found || (rounds[j].spin == Empty && rounds[j].wait.Woken? && rounds[j].wait.stillOpen && rounds[j].wait.count > 0))
                  && rounds[j].submitOk && rounds[j].tooLarge && rounds[j].stillOpen
      ensures r == Success <==>
                && open && made < |rounds|
                && (rounds[made].spin == Found || (rounds[made].spin == Empty && rounds[made].wait.Woken? && rounds[made].wait.stillOpen && rounds[made].wait.count > 0))
                && rounds[made].submitOk && !rounds[made].tooLarge && rounds[made].statusOk
      ensures r == Closed <==>
                || !open
                || (made < |rounds|
                    && (|| rounds[made].spin == ClosedMeanwhile
                        || (rounds[made].spin == Empty && rounds[made].wait.Woken? && !rounds[made].wait.stillOpen)
                        || (rounds[made].Dequeues() && rounds[made].submitOk && rounds[made].tooLarge && !rounds[made].stillOpen)))
      ensures r == Failure <==>
                && open && made < |rounds|
                && (|| (rounds[made].spin == Empty && !rounds[made].wait.Woken?)
                    || (rounds[made].Dequeues() && !rounds[made].submitOk)
                    || (rounds[made].Dequeues() && rounds[made].submitOk && !rounds[made].tooLarge && !rounds[made].statusOk))
      // A receive whose kernel answers run out is still retrying.
      ensures r == NoProgress <==>
                && open
                && (made < |rounds| ==> rounds[made].spin == Empty && rounds[made].wait == Woken(true, 0))
      // Every round that dequeued cycled one slot, and a failed submission lost one.
      ensures open ==>
                var cycled := if made < |rounds| && rounds[made].Dequeues() then made + 1 else made;
                rx.returned == old(rx.returned) + cycled && rx.pushed == old(rx.pushed) + cycled
      ensures open ==>
                var lost := if made < |rounds| && rounds[made].Dequeues() && !rounds[made].submitOk then 1 else 0;
                rx.failed == old(rx.failed) + lost && |rx.inFlight| == old(|rx.inFlight|) - lost
      ensures r == Success ==> (rx.Busy(read) <==> rx.isFull && read + 1 == rx.returned)
      ensures r == Success && old(rx.isFull) && old(rx.failed) == 0 ==> rx.Busy(read)
    {
      read, made := 0, 0;
      if !open {
        return Closed, made, read;
      }
      hide RingBuffer.Valid;
      for i := 0 to |rounds|
        invariant Valid() && rx.failed == old(rx.failed) && |rx.inFlight| == old(|rx.inFlight|) && rx.isFull == old(rx.isFull)
        invariant rx.returned == old(rx.returned) + i && rx.pushed == old(rx.pushed) + i
        invariant made == i && forall j :: 0 <= j < i ==> rounds[j].Repeats()
      {
        var round := rounds[i];
        if round.spin == ClosedMeanwhile {
          return Closed, made, read;
        }
        if round.spin == Empty {
          match round.wait
          case NotifyFails => return Failure, made, read;
          case WaitFails => return Failure, made, read;
          case Woken(stillOpen, count) =>
            if !stillOpen {
              return Closed, made, read;
            }
            if count == 0 {
              return NoProgress, made, read;
            }
        }
        read := rx.inFlight[0];
        if rx.failed == 0 { OldestWhenNoneFailed(rx); }
        var ok := Cycle(round.submitOk);
        if !ok {
          return Failure, made, read;
        }
        if round.tooLarge {
          if !round.stillOpen {
            return Closed, made, read;
          }
          made := i + 1;
          continue;
        }
        return if round.statusOk then Success else Failure, made, read;
      }
      r := NoProgress;
    }

    /** A send: it pushes only onto a ring that was not full or from which it took something back. */
    method Send(open: bool, fits: bool, first: uint32, wait: Wait, submitOk: bool) returns (r: Outcome)
      requires Valid() && first <= |tx.inFlight|
      requires wait.Woken? ==> wait.count <= |tx.inFlight|
      modifies tx
      ensures Valid()
      // Room is there at once, or after a wait that was woken in time for completed requests.
      ensures r == Success <==>
                && open && fits && submitOk
                && (first > 0 || !old(tx.isFull) || (wait.Woken? && wait.stillOpen && wait.count > 0))
      ensures r == Closed <==> !open || (fits && first == 0 && old(tx.isFull) && wait.Woken? && !wait.stillOpen)
      ensures r == TooLong <==> open && !fits
      ensures r == NoProgress <==> open && fits && first == 0 && old(tx.isFull) && wait == Woken(true, 0)
      ensures var waits := first == 0 && old(tx.isFull);
              var room := open && fits && (!waits || (wait.Woken? && wait.stillOpen && wait.count > 0));
              var n := if waits && wait.Woken? then wait.count else first;
              if room then
                && n <= old(|tx.inFlight|) && tx.pushed == old(tx.pushed) + 1 && tx.returned == old(tx.returned) + n
                && tx.inFlight == old(tx.inFlight)[n..] + (if submitOk then [old(tx.pushed)] else [])
                && tx.failed == old(tx.failed) + (if submitOk then 0 else 1)
              else tx.pushed == old(tx.pushed) && tx.returned == old(tx.returned) && tx.inFlight == old(tx.inFlight) && tx.failed == old(tx.failed)
      ensures old(tx.failed) == PACKETS_PER_RING ==> r != Success
    {
      if !open {
        return Closed;
      }
      if !fits {
        return TooLong;
      }
      var count := first;
      if count == 0 && tx.isFull {
        match wait
        case NotifyFails => return Failure;
        case WaitFails => return Failure;
        case Woken(stillOpen, n) =>
          if !stillOpen {
            return Closed;
          }
          count := n;
          if count == 0 {
            return NoProgress;
          }
      }
      if count > 0 {
        tx.Return(count);
      }
      var slot := tx.Push(submitOk);
      r := if submitOk then Success else Failure;
    }

    /** A run that gets there: 256 sends whose submission fails. After it no send succeeds. */
    method ExhaustSends()
      requires Valid() && tx.pushed == tx.returned == 0 && tx.inFlight == [] && tx.failed == 0
      modifies tx
      ensures Valid() && tx.isFull && tx.inFlight == [] && tx.failed == PACKETS_PER_RING
    {
      for i := 0 to PACKETS_PER_RING
        invariant Valid() && tx.pushed == tx.failed == i && tx.returned == 0 && tx.inFlight == []
      {
        var r := Send(true, true, 0, NotifyFails, false);
      }
    }
  }
}
