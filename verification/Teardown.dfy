/** Which bind a Close of WinRingBind tears down, and what an Open that is refused does, over all runs. */
module Teardown {
  import opened Bytes
  import opened WinBind
  import opened Closing

  ghost predicate Runs(run: seq<(Tid, Action)>) { INITIAL.Valid() && After(INITIAL, run).Some? }

  /** The state before step `k` of a run. */
  ghost function StateAt(run: seq<(Tid, Action)>, k: nat): (s: State)
    requires Runs(run) && k <= |run|
    ensures s.Valid()
  {
    PrefixRuns(INITIAL, run, k);
    After(INITIAL, run[..k]).value
  }

  lemma StateStep(run: seq<(Tid, Action)>, k: nat)
    requires Runs(run) && k < |run|
    ensures Do(StateAt(run, k), run[k].0, run[k].1) == Some(StateAt(run, k + 1))
  {
    hide Do;
    PrefixRuns(INITIAL, run, k + 1);
    var m := AfterLast(INITIAL, run[..k + 1]);
    assert run[..k + 1][..k] == run[..k];
  }

  lemma StateInv(run: seq<(Tid, Action)>, k: nat)
    requires Runs(run) && k <= |run|
    ensures Inv(StateAt(run, k))
  {
    hide Do, Inv;
    PrefixRuns(INITIAL, run, k);
    InvAlways(run[..k]);
  }

  // ---------------------------------------------------------------- what one step does to the bind

  predicate InOpen(pc: Pc) { pc.OpenWant? || pc.OpenWaiting? || pc.OpenHeld? }

  predicate InClose(pc: Pc) {
    || pc.CloseCall? || pc.CloseLocked? || pc.CloseChecked? || pc.ClosePosting? || pc.CloseUnlocking? || pc.CloseWant?
    || pc.CloseWaiting? || pc.CloseHeld?
  }

  /** Only a store of 2 and the steps that replace the rings change the open state. */
  ghost predicate BindMove(s: State, t: Tid, a: Action, s': State) {
    && s'.isOpen == (if a.CloseStore? then 2 else if a.OpenSucceeds? then 1 else if Tears(a) then 0 else s.isOpen)
    && s'.live == (if Tears(a) then a.OpenSucceeds? else s.live)
    && (a.CloseTeardown? ==> s.Pc(t).CloseHeld?)
    && (a.OpenRefused? ==> s.Pc(t).OpenHeld? && s.isOpen != 0)
    && (a.OpenFails? || a.OpenSucceeds? ==> s.Pc(t).OpenHeld? && s.isOpen == 0)
    && (a.CloseStore? ==> s.Pc(t).CloseChecked?)
  }

  lemma AdminStarts(s: State, pc: Pc, a: Action)
    requires NextAdmin(s, pc, a).Some?
    ensures a.CloseTeardown? ==> pc.CloseHeld?
    ensures a.OpenRefused? ==> pc.OpenHeld? && s.isOpen != 0
    ensures a.OpenFails? || a.OpenSucceeds? ==> pc.OpenHeld? && s.isOpen == 0
    ensures a.CloseStore? ==> pc.CloseChecked?
  {
  }

  lemma BindMoves(s: State, t: Tid, a: Action)
    requires s.Valid() && Do(s, t, a).Some?
    ensures BindMove(s, t, a, Do(s, t, a).value)
  {
    DoIs(s, t, a);
    hide Do, NextUser, NextAdmin, PortsAfter, ReadersAfter, WriterAfter;
    if Admin(a) { AdminStarts(s, s.Pc(t), a); }
  }

  lemma StepMoves(run: seq<(Tid, Action)>, k: nat)
    requires Runs(run) && k < |run|
    ensures BindMove(StateAt(run, k), run[k].0, run[k].1, StateAt(run, k + 1))
  {
    hide *;
    StateStep(run, k);
    BindMoves(StateAt(run, k), run[k].0, run[k].1);
  }

  // A thread comes past the store of a Close only by storing, and a teardown of its own ends that.
  lemma AdminCloses(s: State, pc: Pc, a: Action)
    requires NextAdmin(s, pc, a).Some?
    ensures WinBind.Closing(NextAdmin(s, pc, a).value) ==> WinBind.Closing(pc) || a.CloseStore?
    ensures WinBind.Closing(pc) && Tears(a) ==> !WinBind.Closing(NextAdmin(s, pc, a).value)
  {
  }

  lemma UserCloses(s: State, pc: Pc, a: Action)
    requires s.Valid() && NextUser(s, pc, a).Some?
    ensures WinBind.Closing(NextUser(s, pc, a).value) ==> WinBind.Closing(pc)
    ensures !Tears(a)
  {
    hide State.Valid, MustWait;
  }

  lemma ClosingMoves(run: seq<(Tid, Action)>, k: nat, c: Tid)
    requires Runs(run) && k < |run|
    ensures WinBind.Closing(StateAt(run, k + 1).Pc(c)) ==> WinBind.Closing(StateAt(run, k).Pc(c)) || run[k] == (c, CloseStore)
    ensures WinBind.Closing(StateAt(run, k).Pc(c)) && WinBind.Closing(StateAt(run, k + 1).Pc(c)) ==> !(run[k].0 == c && Tears(run[k].1))
  {
    hide *;
    StateStep(run, k);
    var s, t, a := StateAt(run, k), run[k].0, run[k].1;
    if t == c { OwnClosing(s, t, a); } else { OthersStay(s, t, a, c); }
  }

  lemma OwnClosing(s: State, t: Tid, a: Action)
    requires s.Valid() && Do(s, t, a).Some?
    ensures WinBind.Closing(Do(s, t, a).value.Pc(t)) ==> WinBind.Closing(s.Pc(t)) || a.CloseStore?
    ensures WinBind.Closing(s.Pc(t)) && WinBind.Closing(Do(s, t, a).value.Pc(t)) ==> !Tears(a)
  {
    DoIs(s, t, a);
    hide Do, NextUser, NextAdmin, Share, WinBind.Closing;
    if Admin(a) { AdminCloses(s, s.Pc(t), a); } else { UserCloses(s, s.Pc(t), a); }
  }

  // ---------------------------------------------------------------- the bind a Close has closed

  /** The Close of thread `c` that is under way before step `j` stored 2 with step `i`. */
  ghost predicate StoredAt(run: seq<(Tid, Action)>, c: Tid, i: nat, j: nat)
    requires Runs(run)
  {
    && i < j <= |run| && run[i] == (c, CloseStore)
    && forall k :: i < k <= j ==> WinBind.Closing(StateAt(run, k).Pc(c))
  }

  /** Every Close that is past its store did store. */
  lemma {:induction false} StoredBefore(run: seq<(Tid, Action)>, c: Tid, j: nat) returns (i: nat)
    requires Runs(run) && j <= |run| && WinBind.Closing(StateAt(run, j).Pc(c))
    ensures StoredAt(run, c, i, j)
  {
    hide StateAt, Runs, WinBind.Closing;
    if j == 0 {
      NobodyAtFirst(run, c);
    } else if WinBind.Closing(StateAt(run, j - 1).Pc(c)) {
      i := StoredBefore(run, c, j - 1);
    } else {
      ClosingMoves(run, j - 1, c);
      i := j - 1;
    }
  }

  lemma NobodyAtFirst(run: seq<(Tid, Action)>, c: Tid)
    requires Runs(run)
    ensures !WinBind.Closing(StateAt(run, 0).Pc(c))
  {
    assert run[..0] == [];
  }

  /** No step in `[a, b)` replaces the rings. */
  ghost predicate Undisturbed(run: seq<(Tid, Action)>, a: nat, b: nat) {
    forall k :: a <= k < b && k < |run| ==> !Tears(run[k].1)
  }

  /** How many Opens have succeeded before step `k`: the number of the bind that is live then. */
  function Opened(run: seq<(Tid, Action)>, k: nat): nat
    requires k <= |run|
  {
    if k == 0 then 0 else Opened(run, k - 1) + if run[k - 1].1.OpenSucceeds? then 1 else 0
  }

  lemma {:induction false} OpenedGrows(run: seq<(Tid, Action)>, a: nat, b: nat)
    requires a <= b <= |run|
    ensures Opened(run, a) <= Opened(run, b)
    ensures Undisturbed(run, a, b) ==> Opened(run, a) == Opened(run, b)
    decreases b
  {
    if a < b { OpenedGrows(run, a, b - 1); }
  }

  // Without such a step the bind stays live or not, and isOpen stays, but for a store of 2.
  lemma {:induction false} Keeps(run: seq<(Tid, Action)>, a: nat, b: nat)
    requires Runs(run) && a <= b <= |run| && Undisturbed(run, a, b)
    ensures StateAt(run, b).live == StateAt(run, a).live
    ensures StateAt(run, b).isOpen == StateAt(run, a).isOpen || StateAt(run, b).isOpen == 2
    decreases b
  {
    hide StateAt, Runs;
    if a < b {
      Keeps(run, a, b - 1);
      StepMoves(run, b - 1);
    }
  }

  lemma {:induction false} LastTear(run: seq<(Tid, Action)>, a: nat, b: nat) returns (k: nat)
    requires a <= b <= |run| && !Undisturbed(run, a, b)
    ensures a <= k < b && Tears(run[k].1) && Undisturbed(run, k + 1, b)
    decreases b
  {
    hide Tears;
    if b > a && Tears(run[b - 1].1) { k := b - 1; } else { k := LastTear(run, a, b - 1); }
  }

  lemma {:induction false} FirstTear(run: seq<(Tid, Action)>, a: nat, b: nat) returns (k: nat)
    requires a <= b <= |run| && !Undisturbed(run, a, b)
    ensures a <= k < b && Tears(run[k].1) && Undisturbed(run, a, k)
    decreases b - a
  {
    hide Tears;
    if a < b && Tears(run[a].1) { k := a; } else { k := FirstTear(run, a + 1, b); }
  }

  /** Somebody else ended the bind: another Close, or an Open that was refused. */
  predicate EndsBind(x: (Tid, Action), c: Tid) { x.1.OpenRefused? || (x.1.CloseTeardown? && x.0 != c) }

  /** The bind that is live before step `j` was opened after step `i`. */
  ghost predicate LaterBind(run: seq<(Tid, Action)>, i: nat, j: nat)
    requires Runs(run) && i <= j <= |run|
  {
    StateAt(run, j).live && Opened(run, j) > Opened(run, i)
  }

  /** After step `i` another call ended the bind of that time, and since then an Open has succeeded whose
      bind nobody has ended. */
  ghost predicate Reopened(run: seq<(Tid, Action)>, c: Tid, i: nat, j: nat) {
    exists m, k :: i < m < k < j <= |run| && EndsAndOpens(run, c, i, m, k, j)
  }

  ghost predicate EndsAndOpens(run: seq<(Tid, Action)>, c: Tid, i: nat, m: nat, k: nat, j: nat)
    requires m < |run| && k < |run|
  {
    Undisturbed(run, i, m) && EndsBind(run[m], c) && run[k].1.OpenSucceeds? && Undisturbed(run, k + 1, j)
  }

  // While the bind a Close has closed is there, isOpen is 2.
  lemma StaysTwo(run: seq<(Tid, Action)>, c: Tid, i: nat, j: nat, k: nat)
    requires Runs(run) && StoredAt(run, c, i, j) && i < k <= j && Undisturbed(run, i, k)
    ensures StateAt(run, k).isOpen == 2 && StateAt(run, k).live && Opened(run, k) == Opened(run, i)
  {
    hide StateAt, Runs, Tears, WinBind.Closing;
    StepMoves(run, i);
    StateInv(run, k);
    Keeps(run, i + 1, k);
    OpenedGrows(run, i, k);
    TwoIsLive(StateAt(run, k));
  }

  lemma TwoIsLive(s: State)
    requires Inv(s) && s.isOpen == 2
    ensures s.live
  {
  }

  // The first step that replaces the rings after the store ends the bind, and it is not a step of the Close.
  lemma FirstEnds(run: seq<(Tid, Action)>, c: Tid, i: nat, j: nat, m: nat)
    requires Runs(run) && StoredAt(run, c, i, j) && i < m < j && Undisturbed(run, i, m) && Tears(run[m].1)
    ensures EndsBind(run[m], c)
  {
    hide StateAt, Runs, WinBind.Closing, Undisturbed;
    StaysTwo(run, c, i, j, m);
    StepMoves(run, m);
    ClosingMoves(run, m, c);
  }

  /** A Close finds a bind that was opened after it stored 2 if and only if another Close or a refused
      Open has ended its own meanwhile and an Open has succeeded since. */
  lemma LaterBindExactly(run: seq<(Tid, Action)>, c: Tid, i: nat, j: nat)
    requires Runs(run) && StoredAt(run, c, i, j)
    ensures LaterBind(run, i, j) <==> Reopened(run, c, i, j)
  {
    hide StateAt, Runs, StoredAt, Tears, EndsBind;
    StoredFacts(run, c, i, j);
    if LaterBind(run, i, j) {
      OpenedGrows(run, i, j);
      var k := LastTear(run, i, j);
      LastOpens(run, k, j);
      var m := EndedFirst(run, c, i, j, k);
      assert EndsAndOpens(run, c, i, m, k, j);
    } else if m, k :| i < m < k < j <= |run| && EndsAndOpens(run, c, i, m, k, j) {
      LiveSince(run, k, j);
      OpenedGrows(run, i, k);
    }
  }

  lemma StoredFacts(run: seq<(Tid, Action)>, c: Tid, i: nat, j: nat)
    requires Runs(run) && StoredAt(run, c, i, j)
    ensures i < j <= |run| && run[i] == (c, CloseStore) && WinBind.Closing(StateAt(run, j).Pc(c))
  {
  }

  // What is live was opened by the last step that replaced the rings.
  lemma LastOpens(run: seq<(Tid, Action)>, k: nat, j: nat)
    requires Runs(run) && k < j <= |run| && Tears(run[k].1) && Undisturbed(run, k + 1, j)
    ensures StateAt(run, j).live <==> run[k].1.OpenSucceeds?
    ensures !StateAt(run, j).live ==> StateAt(run, j).isOpen == 0
  {
    hide StateAt, Runs;
    StepMoves(run, k);
    Keeps(run, k + 1, j);
    StateInv(run, j);
    if !StateAt(run, j).live { DeadIsClosed(StateAt(run, j)); }
  }

  lemma DeadIsClosed(s: State)
    requires Inv(s) && !s.live
    ensures s.isOpen == 0
  {
  }

  lemma LiveSince(run: seq<(Tid, Action)>, k: nat, j: nat)
    requires Runs(run) && k < j <= |run| && run[k].1.OpenSucceeds? && Undisturbed(run, k + 1, j)
    ensures StateAt(run, j).live && Opened(run, j) > Opened(run, k)
  {
    hide StateAt, Runs;
    LastOpens(run, k, j);
    OpenedGrows(run, k + 1, j);
  }

  lemma EndedFirst(run: seq<(Tid, Action)>, c: Tid, i: nat, j: nat, k: nat) returns (m: nat)
    requires Runs(run) && StoredAt(run, c, i, j) && i <= k < j <= |run| && run[k].1.OpenSucceeds?
    ensures i < m < k && Undisturbed(run, i, m) && EndsBind(run[m], c)
  {
    hide StateAt, Runs, StoredAt, EndsBind;
    StoredFacts(run, c, i, j);
    StepMoves(run, k);
    if Undisturbed(run, i, k) { StaysTwo(run, c, i, j, k); }
    m := FirstTear(run, i, k);
    FirstEnds(run, c, i, j, m);
  }

  /** What a Close tears down, in every run: the bind it has closed, if nobody else has replaced the rings
      since; a later one exactly as above; and nothing, if the rings are gone. */
  lemma TeardownExactly(run: seq<(Tid, Action)>, c: Tid, j: nat) returns (i: nat)
    requires Runs(run) && j < |run| && run[j] == (c, CloseTeardown)
    ensures StoredAt(run, c, i, j) && StateAt(run, j + 1).isOpen == 0 && !StateAt(run, j + 1).live
    ensures Undisturbed(run, i, j) <==> StateAt(run, j).live && Opened(run, j) == Opened(run, i)
    ensures Undisturbed(run, i, j) ==> StateAt(run, j).isOpen == 2
    ensures LaterBind(run, i, j) <==> Reopened(run, c, i, j)
    ensures !StateAt(run, j).live ==> StateAt(run, j).isOpen == 0
  {
    hide StateAt, Runs, StoredAt, WinBind.Closing, Reopened;
    StepMoves(run, j);
    HeldIsClosing(StateAt(run, j).Pc(c));
    i := StoredBefore(run, c, j);
    StoredFacts(run, c, i, j);
    LaterBindExactly(run, c, i, j);
    if Undisturbed(run, i, j) {
      StaysTwo(run, c, i, j, j);
    } else {
      var k := LastTear(run, i, j);
      LastOpens(run, k, j);
      if run[k].1.OpenSucceeds? {
        LiveSince(run, k, j);
        OpenedGrows(run, i, k);
      }
    }
  }

  lemma HeldIsClosing(pc: Pc)
    requires pc.CloseHeld?
    ensures WinBind.Closing(pc)
  {
  }

  /** So a Close tears down its own bind if, from its store on, no other thread is in an Open or a Close. */
  lemma AloneTearsOwn(run: seq<(Tid, Action)>, c: Tid, j: nat) returns (i: nat)
    requires Runs(run) && j < |run| && run[j] == (c, CloseTeardown)
    ensures StoredAt(run, c, i, j)
    ensures (forall k, u: Tid :: i < k < j && u != c ==> !InOpen(StateAt(run, k).Pc(u)) && !InClose(StateAt(run, k).Pc(u))) ==>
              StateAt(run, j).isOpen == 2 && StateAt(run, j).live && Opened(run, j) == Opened(run, i)
  {
    hide StateAt, Runs, StoredAt, Tears, Reopened, InOpen, InClose;
    i := TeardownExactly(run, c, j);
    StoredFacts(run, c, i, j);
    if !Undisturbed(run, i, j) {
      var m := FirstTear(run, i, j);
      TearsInCall(run, c, i, j, m);
    }
  }

  lemma TearsInCall(run: seq<(Tid, Action)>, c: Tid, i: nat, j: nat, m: nat)
    requires Runs(run) && StoredAt(run, c, i, j) && i <= m < j && Tears(run[m].1)
    ensures i < m && run[m].0 != c && (InOpen(StateAt(run, m).Pc(run[m].0)) || InClose(StateAt(run, m).Pc(run[m].0)))
  {
    hide StateAt, Runs, WinBind.Closing;
    StepMoves(run, m);
    ClosingMoves(run, m, c);
  }

  /** And never a later one if no thread is in an Open meanwhile. */
  lemma NoOpenNoLater(run: seq<(Tid, Action)>, c: Tid, i: nat, j: nat)
    requires Runs(run) && StoredAt(run, c, i, j)
    requires forall k, u: Tid :: i < k < j ==> !InOpen(StateAt(run, k).Pc(u))
    ensures !LaterBind(run, i, j)
  {
    hide StateAt, Runs, StoredAt, Undisturbed, EndsBind, InOpen;
    LaterBindExactly(run, c, i, j);
    if m, k :| i < m < k < j <= |run| && EndsAndOpens(run, c, i, m, k, j) {
      StepMoves(run, k);
      HeldIsOpen(StateAt(run, k).Pc(run[k].0));
    }
  }

  lemma HeldIsOpen(pc: Pc)
    requires pc.OpenHeld?
    ensures InOpen(pc)
  {
  }

  // ---------------------------------------------------------------- an Open that is refused

  // While a thread holds the write lock nobody else changes the open state.
  lemma HeldKeeps(s: State, t: Tid, v: Tid, a: Action)
    requires Inv(s) && s.Pc(t).OpenHeld? && Do(s, v, a).Some? && (v != t || Kernel(a))
    ensures Do(s, v, a).value.isOpen == s.isOpen && Do(s, v, a).value.Pc(t).OpenHeld?
  {
    BindMoves(s, v, a);
    WriterAlone(s, t, v);
    assert s.writer == Some(t) <==> Announced(s.Pc(t));
    assert s.writer == Some(v) <==> Announced(s.Pc(v));
    hide Inv, State.Valid, Do;
    if v != t { OthersStay(s, v, a, t); } else { KernelStays(s, t, a); }
  }

  lemma KernelStays(s: State, t: Tid, a: Action)
    requires s.Valid() && Kernel(a) && Do(s, t, a).Some? && s.Pc(t).OpenHeld?
    ensures Do(s, t, a).value.Pc(t) == s.Pc(t)
  {
    DoIs(s, t, a);
    hide Do, Share, MustWait;
  }

  lemma RefusedOnly(s: State, t: Tid, a: Action)
    requires s.Valid() && s.Pc(t).OpenHeld? && s.isOpen != 0 && Do(s, t, a).Some? && !Kernel(a)
    ensures a.OpenRefused?
  {
    DoIs(s, t, a);
    hide Do, Share, MustWait;
  }

  /** An Open that has got the lock of a bind which is open or being closed can only tear it down: whatever
      the others do, its next step is the refusal, which leaves the bind closed and without rings. */
  lemma {:induction false} RefusedAlwaysCloses(run: seq<(Tid, Action)>, t: Tid, i: nat, j: nat)
    requires Runs(run) && i <= j < |run| && StateAt(run, i).Pc(t).OpenHeld? && StateAt(run, i).isOpen != 0
    requires run[j].0 == t && !Kernel(run[j].1)
    requires forall k :: i <= k < j ==> run[k].0 != t || Kernel(run[k].1)
    ensures run[j].1.OpenRefused? && StateAt(run, j).isOpen == StateAt(run, i).isOpen
    ensures StateAt(run, j + 1).isOpen == 0 && !StateAt(run, j + 1).live
  {
    hide StateAt, Runs, Kernel, Do;
    HeldSoFar(run, t, i, j);
    StateStep(run, j);
    RefusedOnly(StateAt(run, j), t, run[j].1);
    StepMoves(run, j);
  }

  lemma {:induction false} HeldSoFar(run: seq<(Tid, Action)>, t: Tid, i: nat, j: nat)
    requires Runs(run) && i <= j <= |run| && StateAt(run, i).Pc(t).OpenHeld?
    requires forall k :: i <= k < j ==> run[k].0 != t || Kernel(run[k].1)
    ensures StateAt(run, j).Pc(t).OpenHeld? && StateAt(run, j).isOpen == StateAt(run, i).isOpen
    decreases j
  {
    hide *;
    if i < j {
      HeldSoFar(run, t, i, j - 1);
      StateInv(run, j - 1);
      StateStep(run, j - 1);
      HeldKeeps(StateAt(run, j - 1), t, run[j - 1].0, run[j - 1].1);
    }
  }
}
