/** The transmit-offload flag under concurrent senders.

    Both senders read the flag, may find segmentation rejected, lower the flag and start over. The
    bind works on the value it read first; the batching connection loads the flag again before it
    lowers it and again when it starts over. */
module Offload {

  type Tid = nat

  datatype Phase =
    | Idle
    | Sending(segmented: bool, retries: nat)   // a pass of the call, after so many earlier ones
    | Rejected(retries: nat)                   // a segmented pass that failed with EIO
    | Lowering(retries: nat)                   // about to lower the flag
    | Reloading(retries: nat)                  // about to read the flag for the next pass
    | Returned(retries: nat, rejected: bool)   // done; whether the last pass was a rejected one

  datatype State = State(flag: bool, phases: map<Tid, Phase>) {
    function At(t: Tid): Phase { if t in phases then phases[t] else Idle }
    function Go(t: Tid, p: Phase): State { this.(phases := phases[t := p]) }
  }

  datatype Action = Begin | PassEnds(eio: bool) | CheckAgain | Lower | StartOver | Leave

  /** One step of sender `t`; `reloads` tells the batching connection from the bind. */
  function Step(reloads: bool, s: State, t: Tid, a: Action): State {
    match (a, s.At(t))
    case (Begin, Idle) => s.Go(t, Sending(s.flag, 0))
    case (PassEnds(eio), Sending(segmented, n)) => s.Go(t, if segmented && eio then Rejected(n) else Returned(n, false))
    case (CheckAgain, Rejected(n)) => s.Go(t, if reloads && !s.flag then Returned(n, true) else Lowering(n))
    case (Lower, Lowering(n)) => s.(flag := false).Go(t, Reloading(n + 1))
    case (StartOver, Reloading(n)) => s.Go(t, Sending(reloads && s.flag, n))
    case (Leave, Returned(_, _)) => s.Go(t, Idle)
    case _ => s
  }

  function Run(reloads: bool, s: State, run: seq<(Tid, Action)>): State {
    if |run| == 0 then s else Step(reloads, Run(reloads, s, run[..|run| - 1]), run[|run| - 1].0, run[|run| - 1].1)
  }

  /** Across any interleaving the flag never returns to true. */
  lemma {:induction false} OnlyGoesDown(reloads: bool, s: State, run: seq<(Tid, Action)>, k: nat)
    requires k <= |run|
    ensures Run(reloads, s, run).flag ==> Run(reloads, s, run[..k]).flag
    decreases |run|
  {
    if k < |run| {
      var init := run[..|run| - 1];
      OnlyGoesDown(reloads, s, init, k);
      assert init[..k] == run[..k];
    } else {
      assert run[..k] == run;
    }
  }

  /** A sender that retries has lowered the flag and does not segment again. */
  ghost predicate PhaseOk(s: State, p: Phase) {
    match p
    case Sending(segmented, n) => n <= 1 && (n == 1 ==> !segmented && !s.flag)
    case Rejected(n) => n == 0
    case Lowering(n) => n == 0
    case Reloading(n) => n == 1 && !s.flag
    case Returned(n, _) => n <= 1
    case Idle => true
  }

  lemma {:induction false} RetriesAtMostOnce(reloads: bool, run: seq<(Tid, Action)>, flag: bool, t: Tid)
    ensures var s := Run(reloads, State(flag, map[]), run); PhaseOk(s, s.At(t))
    decreases |run|
  {
    if |run| > 0 {
      var init, u := run[..|run| - 1], run[|run| - 1].0;
      RetriesAtMostOnce(reloads, init, flag, t);
      RetriesAtMostOnce(reloads, init, flag, u);
    }
  }

  // ---------------------------------------------------------------- when a rejection surfaces

  /** The state after the first `k` steps of a run. */
  function StateAt(reloads: bool, flag: bool, run: seq<(Tid, Action)>, k: nat): State
    requires k <= |run|
  {
    Run(reloads, State(flag, map[]), run[..k])
  }

  lemma StepAt(reloads: bool, flag: bool, run: seq<(Tid, Action)>, k: nat)
    requires k < |run|
    ensures StateAt(reloads, flag, run, k + 1) == Step(reloads, StateAt(reloads, flag, run, k), run[k].0, run[k].1)
  {
    assert run[..k + 1][..k] == run[..k];
  }

  /** The call of sender `t` that is under way after `i` steps began with step `b`. */
  ghost predicate BeganAt(reloads: bool, flag: bool, run: seq<(Tid, Action)>, t: Tid, b: nat, i: nat) {
    && b < i <= |run| && run[b] == (t, Begin) && StateAt(reloads, flag, run, b).At(t) == Idle
    && forall k :: b < k <= i ==> StateAt(reloads, flag, run, k).At(t) != Idle
  }

  /** Step `j` is the one with which sender `u` lowers the flag. */
  ghost predicate LowersAt(reloads: bool, flag: bool, run: seq<(Tid, Action)>, u: Tid, j: nat) {
    j < |run| && run[j] == (u, Lower) && StateAt(reloads, flag, run, j).At(u).Lowering?
  }

  ghost predicate LoweredWithin(reloads: bool, flag: bool, run: seq<(Tid, Action)>, t: Tid, b: nat, i: nat) {
    exists u, j :: b < j < i && u != t && LowersAt(reloads, flag, run, u, j)
  }

  /** Every sender that is in a call began it. */
  lemma {:induction false} CallBegan(reloads: bool, flag: bool, run: seq<(Tid, Action)>, t: Tid, i: nat) returns (b: nat)
    requires i <= |run| && StateAt(reloads, flag, run, i).At(t) != Idle
    ensures BeganAt(reloads, flag, run, t, b, i)
  {
    hide *;
    if i == 0 {
      NobodyAtFirst(reloads, flag, run, t);
    } else if StateAt(reloads, flag, run, i - 1).At(t) == Idle {
      BeginsNow(reloads, flag, run, t, i - 1);
      b := i - 1;
    } else {
      b := CallBegan(reloads, flag, run, t, i - 1);
      BeganBefore(reloads, flag, run, t, b, i - 1);
    }
  }

  lemma NobodyAtFirst(reloads: bool, flag: bool, run: seq<(Tid, Action)>, t: Tid)
    ensures StateAt(reloads, flag, run, 0).At(t) == Idle
  {
  }

  lemma BeginsNow(reloads: bool, flag: bool, run: seq<(Tid, Action)>, t: Tid, i: nat)
    requires i < |run| && StateAt(reloads, flag, run, i).At(t) == Idle && StateAt(reloads, flag, run, i + 1).At(t) != Idle
    ensures BeganAt(reloads, flag, run, t, i, i + 1)
  {
    StepAt(reloads, flag, run, i);
    hide StateAt;
  }

  lemma BeganBefore(reloads: bool, flag: bool, run: seq<(Tid, Action)>, t: Tid, b: nat, i: nat)
    requires BeganAt(reloads, flag, run, t, b, i) && i < |run| && StateAt(reloads, flag, run, i + 1).At(t) != Idle
    ensures BeganAt(reloads, flag, run, t, b, i + 1)
  {
    hide StateAt;
  }

  predicate FirstPass(p: Phase) { p == Sending(true, 0) || p == Rejected(0) }

  // A call that stands rejected has been in its first, segmented pass all along.
  lemma {:induction false} FirstPassSoFar(reloads: bool, flag: bool, run: seq<(Tid, Action)>, t: Tid, b: nat, i: nat, k: nat)
    requires BeganAt(reloads, flag, run, t, b, i) && StateAt(reloads, flag, run, i).At(t).Rejected? && b < k <= i
    ensures FirstPass(StateAt(reloads, flag, run, k).At(t))
    decreases i - k
  {
    RetriesAtMostOnce(reloads, run[..k], flag, t);
    PhaseAt(reloads, flag, run, k);
    hide *;
    if k < i {
      FirstPassSoFar(reloads, flag, run, t, b, i, k + 1);
      StepAt(reloads, flag, run, k);
      CallGoesOn(reloads, flag, run, t, b, i, k);
      FirstPassBefore(reloads, StateAt(reloads, flag, run, k), t, run[k].0, run[k].1);
    } else {
      RejectedFirst(StateAt(reloads, flag, run, k), t);
    }
  }

  lemma PhaseAt(reloads: bool, flag: bool, run: seq<(Tid, Action)>, k: nat)
    requires k <= |run|
    ensures StateAt(reloads, flag, run, k) == Run(reloads, State(flag, map[]), run[..k])
  {
  }

  lemma CallGoesOn(reloads: bool, flag: bool, run: seq<(Tid, Action)>, t: Tid, b: nat, i: nat, k: nat)
    requires BeganAt(reloads, flag, run, t, b, i) && b < k < i
    ensures k < |run| && StateAt(reloads, flag, run, k).At(t) != Idle
  {
  }

  lemma RejectedFirst(s: State, t: Tid)
    requires PhaseOk(s, s.At(t)) && s.At(t).Rejected?
    ensures FirstPass(s.At(t))
  {
  }

  lemma FirstPassBefore(reloads: bool, s: State, t: Tid, u: Tid, a: Action)
    requires PhaseOk(s, s.At(t)) && s.At(t) != Idle && FirstPass(Step(reloads, s, u, a).At(t))
    ensures FirstPass(s.At(t))
  {
  }

  lemma {:induction false} FlagFalls(reloads: bool, flag: bool, run: seq<(Tid, Action)>, a: nat, c: nat) returns (u: Tid, j: nat)
    requires a <= c <= |run| && StateAt(reloads, flag, run, a).flag && !StateAt(reloads, flag, run, c).flag
    ensures a <= j < c && LowersAt(reloads, flag, run, u, j)
    decreases c
  {
    StepAt(reloads, flag, run, c - 1);
    hide StateAt;
    if StateAt(reloads, flag, run, c - 1).flag {
      u, j := run[c - 1].0, c - 1;
    } else {
      u, j := FlagFalls(reloads, flag, run, a, c - 1);
    }
  }

  lemma StaysDown(reloads: bool, flag: bool, run: seq<(Tid, Action)>, a: nat, c: nat)
    requires a <= c <= |run| && !StateAt(reloads, flag, run, a).flag
    ensures !StateAt(reloads, flag, run, c).flag
  {
    OnlyGoesDown(reloads, State(flag, map[]), run[..c], a);
    assert run[..c][..a] == run[..a];
  }

  // Seen from a rejected pass, the flag is down exactly when another sender lowered it meanwhile.
  lemma FlagAtCheck(reloads: bool, flag: bool, run: seq<(Tid, Action)>, t: Tid, b: nat, i: nat)
    requires BeganAt(reloads, flag, run, t, b, i) && StateAt(reloads, flag, run, i).At(t).Rejected?
    ensures !StateAt(reloads, flag, run, i).flag <==> LoweredWithin(reloads, flag, run, t, b, i)
  {
    hide StateAt, BeganAt, LowersAt;
    FlagUpAtFirst(reloads, flag, run, t, b, i);
    if !StateAt(reloads, flag, run, i).flag {
      var u, j := FlagFalls(reloads, flag, run, b + 1, i);
      FirstPassSoFar(reloads, flag, run, t, b, i, j);
      NotInFirstPass(reloads, flag, run, u, j);
    } else if u, j :| b < j < i && u != t && LowersAt(reloads, flag, run, u, j) {
      DownAfter(reloads, flag, run, u, j);
      StaysDown(reloads, flag, run, j + 1, i);
    }
  }

  // A call that came to be rejected found the flag up when it began.
  lemma FlagUpAtFirst(reloads: bool, flag: bool, run: seq<(Tid, Action)>, t: Tid, b: nat, i: nat)
    requires BeganAt(reloads, flag, run, t, b, i) && StateAt(reloads, flag, run, i).At(t).Rejected?
    ensures b < i <= |run| && StateAt(reloads, flag, run, b + 1).flag
  {
    StepAt(reloads, flag, run, b);
    hide StateAt;
    FirstPassSoFar(reloads, flag, run, t, b, i, b + 1);
  }

  lemma NotInFirstPass(reloads: bool, flag: bool, run: seq<(Tid, Action)>, u: Tid, j: nat)
    requires LowersAt(reloads, flag, run, u, j)
    ensures !FirstPass(StateAt(reloads, flag, run, j).At(u))
  {
    hide StateAt;
  }

  lemma DownAfter(reloads: bool, flag: bool, run: seq<(Tid, Action)>, u: Tid, j: nat)
    requires LowersAt(reloads, flag, run, u, j)
    ensures j < |run| && !StateAt(reloads, flag, run, j + 1).flag
  {
    StepAt(reloads, flag, run, j);
    hide StateAt;
  }

  /** What becomes of a rejected pass: the batching connection returns the rejection without a retry
      if and only if another sender lowered the flag since this call began; the bind never does. */
  lemma RejectionSurfaces(reloads: bool, flag: bool, run: seq<(Tid, Action)>, t: Tid, b: nat, i: nat)
    requires i < |run| && run[i] == (t, CheckAgain)
    requires BeganAt(reloads, flag, run, t, b, i) && StateAt(reloads, flag, run, i).At(t).Rejected?
    ensures StateAt(reloads, flag, run, i + 1).At(t)
         == if reloads && LoweredWithin(reloads, flag, run, t, b, i) then Returned(0, true) else Lowering(0)
  {
    hide StateAt, LoweredWithin;
    FlagAtCheck(reloads, flag, run, t, b, i);
    FirstPassSoFar(reloads, flag, run, t, b, i, i);
    StepAt(reloads, flag, run, i);
  }

  /** A call of sender `t` that began with step `b` and whose pass was rejected for good at step `i`. */
  ghost predicate SurfacedAt(reloads: bool, flag: bool, run: seq<(Tid, Action)>, t: Tid, b: nat, i: nat) {
    && reloads && i < |run| && run[i] == (t, CheckAgain)
    && BeganAt(reloads, flag, run, t, b, i) && StateAt(reloads, flag, run, i).At(t).Rejected?
    && LoweredWithin(reloads, flag, run, t, b, i)
  }

  /** Every rejection that has surfaced did so in this way. */
  lemma {:induction false} SurfacedBecause(reloads: bool, flag: bool, run: seq<(Tid, Action)>, t: Tid, n: nat) returns (b: nat, i: nat)
    requires n <= |run| && StateAt(reloads, flag, run, n).At(t).Returned? && StateAt(reloads, flag, run, n).At(t).rejected
    ensures i < n && SurfacedAt(reloads, flag, run, t, b, i)
  {
    hide StateAt, SurfacedAt, Step;
    if n == 0 {
      NobodyAtFirst(reloads, flag, run, t);
    } else if StateAt(reloads, flag, run, n - 1).At(t).Returned? {
      StepAt(reloads, flag, run, n - 1);
      ReturnedStays(reloads, StateAt(reloads, flag, run, n - 1), t, run[n - 1].0, run[n - 1].1);
      b, i := SurfacedBecause(reloads, flag, run, t, n - 1);
    } else {
      i := n - 1;
      b := SurfacesNow(reloads, flag, run, t, i);
    }
  }

  lemma ReturnedStays(reloads: bool, s: State, t: Tid, u: Tid, a: Action)
    requires s.At(t).Returned? && Step(reloads, s, u, a).At(t).Returned?
    ensures Step(reloads, s, u, a).At(t) == s.At(t)
  {
  }

  // The step with which a call returns its rejection.
  lemma SurfacesNow(reloads: bool, flag: bool, run: seq<(Tid, Action)>, t: Tid, i: nat) returns (b: nat)
    requires i < |run| && !StateAt(reloads, flag, run, i).At(t).Returned?
    requires StateAt(reloads, flag, run, i + 1).At(t).Returned? && StateAt(reloads, flag, run, i + 1).At(t).rejected
    ensures SurfacedAt(reloads, flag, run, t, b, i)
  {
    StepAt(reloads, flag, run, i);
    ReturnsRejection(reloads, StateAt(reloads, flag, run, i), t, run[i].0, run[i].1);
    hide StateAt, BeganAt, LoweredWithin, Step;
    b := CallBegan(reloads, flag, run, t, i);
    RejectionSurfaces(reloads, flag, run, t, b, i);
  }

  lemma ReturnsRejection(reloads: bool, s: State, t: Tid, u: Tid, a: Action)
    requires !s.At(t).Returned? && Step(reloads, s, u, a).At(t).Returned? && Step(reloads, s, u, a).At(t).rejected
    ensures reloads && u == t && a == CheckAgain && s.At(t).Rejected?
  {
  }

  /** So no rejection surfaces where only one sender is at work. */
  lemma SingleSenderRetries(reloads: bool, flag: bool, run: seq<(Tid, Action)>, t: Tid)
    requires forall k :: 0 <= k < |run| ==> run[k].0 == t
    ensures var p := StateAt(reloads, flag, run, |run|).At(t); p.Returned? ==> !p.rejected
  {
    hide StateAt;
    var p := StateAt(reloads, flag, run, |run|).At(t);
    if p.Returned? && p.rejected {
      var b, i := SurfacedBecause(reloads, flag, run, t, |run|);
    }
  }

  ghost predicate Reachable(reloads: bool, s: State) { exists run :: Run(reloads, State(true, map[]), run) == s }

  lemma Reach(reloads: bool, s: State, t: Tid, a: Action) returns (s': State)
    requires Reachable(reloads, s)
    ensures Reachable(reloads, s') && s' == Step(reloads, s, t, a)
  {
    hide Step;
    var run :| Run(reloads, State(true, map[]), run) == s;
    var longer := run + [(t, a)];
    assert longer[..|run|] == run;
    s' := Run(reloads, State(true, map[]), longer);
  }

  lemma BothRejected() returns (s: State)
    ensures Reachable(true, s) && s.flag && s.At(1) == Rejected(0) && s.At(2) == Rejected(0)
  {
    s := State(true, map[]);
    assert Run(true, s, []) == s;
    hide Run, Reachable;
    s := Reach(true, s, 1, Begin);
    s := Reach(true, s, 2, Begin);
    assert s.At(1) == Sending(true, 0) && s.At(2) == Sending(true, 0) && s.flag;
    s := Reach(true, s, 1, PassEnds(true));
    s := Reach(true, s, 2, PassEnds(true));
  }

  /** Two senders of a batching connection whose passes are both rejected: one retries, the other
      may return the rejection without a retry. */
  lemma SecondSenderNotRetried() returns (s: State)
    ensures Reachable(true, s) && s.At(1) == Reloading(1) && s.At(2) == Returned(0, true)
  {
    s := BothRejected();
    hide Run, Reachable;
    s := Reach(true, s, 1, CheckAgain);
    s := Reach(true, s, 1, Lower);
    s := Reach(true, s, 2, CheckAgain);
  }
}
