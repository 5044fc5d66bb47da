/** The write calls of one pass over a list of messages, and the answers of the kernel. */
module Writes {
  import opened Bytes
  import opened Wire

  // EIO is the error that disables segmentation; all others are alike here.
  datatype WriteError = EIO | OtherError

  /** One write call: the messages handed over, how many of them were sent, and the error, if any. */
  datatype Call = Call(batch: seq<Outgoing>, sent: nat, err: Option<WriteError>)

  ghost function SentBefore(calls: seq<Call>, i: nat): nat
    requires i <= |calls|
  {
    if i == 0 then 0 else SentBefore(calls, i - 1) + calls[i - 1].sent
  }

  /** Call `i` hands over what the earlier ones have left, all of it or the next message. */
  ghost predicate Follows(calls: seq<Call>, outs: seq<Outgoing>, i: nat)
    requires i < |calls|
  {
    && SentBefore(calls, i) <= |outs| && calls[i].sent <= |calls[i].batch|
    && HandsOn(calls[i].batch, outs[SentBefore(calls, i)..])
  }

  ghost predicate HandsOn(batch: seq<Outgoing>, rest: seq<Outgoing>) { batch == rest || (rest != [] && batch == rest[..1]) }

  /** The calls of a whole pass over `outs`: it goes on until a write fails or everything is sent. */
  ghost predicate Pass(calls: seq<Call>, outs: seq<Outgoing>, sent: nat, err: Option<WriteError>) {
    && (forall i :: 0 <= i < |calls| ==> Follows(calls, outs, i))
    && (forall i :: 0 <= i < |calls| - 1 ==> calls[i].err == None)
    && sent == SentBefore(calls, |calls|) && sent <= |outs|
    && err == (if |calls| == 0 then None else calls[|calls| - 1].err)
    && (err == None ==> sent == |outs|)
  }

  /** The calls so far, none of which failed. */
  ghost predicate Going(calls: seq<Call>, outs: seq<Outgoing>, sent: nat) {
    && (forall i :: 0 <= i < |calls| ==> Follows(calls, outs, i) && calls[i].err == None)
    && sent == SentBefore(calls, |calls|) && sent <= |outs|
  }

  lemma {:induction false} SentBeforeStays(calls: seq<Call>, c: Call, i: nat)
    requires i <= |calls|
    ensures SentBefore(calls + [c], i) == SentBefore(calls, i)
  {
    if i > 0 { SentBeforeStays(calls, c, i - 1); }
  }

  lemma {:induction false} NextCall(calls: seq<Call>, outs: seq<Outgoing>, sent: nat, c: Call)
    requires Going(calls, outs, sent) && c.sent <= |c.batch| && HandsOn(c.batch, outs[sent..])
    ensures c.err == None ==> Going(calls + [c], outs, sent + c.sent)
    ensures c.err != None || sent + c.sent == |outs| ==> Pass(calls + [c], outs, sent + c.sent, c.err)
  {
    hide HandsOn, Follows;
    var more := calls + [c];
    SentBeforeStays(calls, c, |calls|);
    HandsOnFits(c.batch, outs, sent);
    forall i | 0 <= i < |more| ensures Follows(more, outs, i) {
      if i < |calls| { FollowsStays(calls, outs, c, i); } else { LastFollows(calls, outs, sent, c); }
    }
  }

  lemma {:induction false} FollowsStays(calls: seq<Call>, outs: seq<Outgoing>, c: Call, i: nat)
    requires i < |calls| && Follows(calls, outs, i)
    ensures Follows(calls + [c], outs, i)
  {
    hide HandsOn, SentBefore;
    SentBeforeStays(calls, c, i);
  }

  lemma {:induction false} LastFollows(calls: seq<Call>, outs: seq<Outgoing>, sent: nat, c: Call)
    requires sent == SentBefore(calls, |calls|) && sent <= |outs| && c.sent <= |c.batch| && HandsOn(c.batch, outs[sent..])
    ensures Follows(calls + [c], outs, |calls|)
  {
    hide HandsOn, SentBefore;
    SentBeforeStays(calls, c, |calls|);
  }

  lemma HandsOnFits(batch: seq<Outgoing>, outs: seq<Outgoing>, sent: nat)
    requires sent <= |outs| && HandsOn(batch, outs[sent..])
    ensures sent + |batch| <= |outs|
  {
  }

  lemma Nothing(outs: seq<Outgoing>)
    ensures Going([], outs, 0) && (outs == [] ==> Pass([], outs, 0, None))
  {
  }

  /** The first of the calls that failed. */
  ghost predicate FailsFirst(calls: seq<Call>, i: nat) {
    i < |calls| && calls[i].err != None && forall j :: 0 <= j < i ==> calls[j].err == None
  }

  lemma OneFirst(calls: seq<Call>, i: nat, j: nat)
    requires FailsFirst(calls, i) && FailsFirst(calls, j)
    ensures i == j
  {
  }

  /** A pass ends with an error exactly when one of its calls failed, and that is its last. */
  lemma PassFails(calls: seq<Call>, outs: seq<Outgoing>, sent: nat, err: Option<WriteError>)
    requires Pass(calls, outs, sent, err)
    ensures err == None <==> forall i :: 0 <= i < |calls| ==> calls[i].err == None
    ensures err != None ==> |calls| > 0 && FailsFirst(calls, |calls| - 1) && calls[|calls| - 1].err == err
  {
  }

  /** Whatever a pass hands over is one of its messages. */
  lemma Handed(calls: seq<Call>, outs: seq<Outgoing>, sent: nat, err: Option<WriteError>, i: nat, o: Outgoing)
    requires Pass(calls, outs, sent, err) && i < |calls| && o in calls[i].batch
    ensures o in outs
  {
    assert Follows(calls, outs, i);
  }
}
