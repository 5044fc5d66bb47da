/** Runs of WinRingBind in which somebody is left waiting, or a bind is torn down by the wrong call. */
module WinRuns {
  import opened Bytes
  import opened WinBind
  import opened Closing

  ghost predicate Reachable(s: State) { INITIAL.Valid() && exists run :: After(INITIAL, run) == Some(s) }

  /** How often Close is called in a run. */
  function Closes(run: seq<(Tid, Action)>): nat {
    if |run| == 0 then 0 else Closes(run[..|run| - 1]) + if run[|run| - 1].1.BeginClose? then 1 else 0
  }

  /** A run with this many calls of Close leads here. */
  ghost predicate Reached(s: State, closes: nat) {
    INITIAL.Valid() && exists run :: After(INITIAL, run) == Some(s) && Closes(run) == closes
  }

  lemma ReachedInv(s: State, closes: nat)
    requires Reached(s, closes)
    ensures Reachable(s) && Inv(s) && s.Valid()
  {
    hide Inv, After;
    var run :| After(INITIAL, run) == Some(s) && Closes(run) == closes;
    InvAlways(run);
    StartsValid(s);
  }

  /** One more step of a run, by the program counter it leads to. */
  lemma Take(s: State, closes: nat, t: Tid, a: Action, pc: Pc) returns (s': State)
    requires Reached(s, closes) && s.Valid() && NextPc(s, s.Pc(t), a) == Some(pc)
    ensures s'.Valid() && Reached(s', closes + if a.BeginClose? then 1 else 0) && s' == Share(s, t, s.Pc(t), a).Go(t, pc)
  {
    hide NextPc, Share;
    StaysValid(s, t, a);
    s' := Do(s, t, a).value;
    var run :| After(INITIAL, run) == Some(s) && Closes(run) == closes;
    var longer := run + [(t, a)];
    assert longer[..|run|] == run;
    hide Do;
    assert After(INITIAL, longer) == Some(s') && Closes(longer) == closes + if a.BeginClose? then 1 else 0;
  }

  /** The shared part of a state, for one port of interest, and how often Close has been called. */
  datatype View = View(isOpen: nat, live: bool, readers: set<Tid>, writer: Option<Tid>, port: Port, closes: nat)

  function ViewOf(s: State, p: PortId, closes: nat): View
    requires s.Valid()
  {
    View(s.isOpen, s.live, s.readers, s.writer, s.ports[p], closes)
  }

  /** What a step does to it. */
  function Shown(v: View, p: PortId, t: Tid, pc: Pc, a: Action): View {
    View(if a.CloseStore? then 2 else if a.OpenSucceeds? then 1 else if Tears(a) then 0 else v.isOpen,
         if Tears(a) then a.OpenSucceeds? else v.live,
         if TakesRead(a) then v.readers + {t} else if DropsRead(a) then v.readers - {t} else v.readers,
         if a.Announce? then Some(t) else if a.WriteUnlock? then None else v.writer,
         if Tears(a) then Port(None, 0, false, if a.OpenSucceeds? && !p.tx then PACKETS_PER_RING else 0, 0)
         else if p == PortOf(pc, a) then RingEffect(t, p, v.port, a) else v.port,
         if a.BeginClose? then v.closes + 1 else v.closes)
  }

  lemma TakeShown(s: State, closes: nat, t: Tid, a: Action, pc: Pc, p: PortId) returns (s': State)
    requires Reached(s, closes) && s.Valid() && NextPc(s, s.Pc(t), a) == Some(pc)
    ensures var v := Shown(ViewOf(s, p, closes), p, t, s.Pc(t), a);
            s'.Valid() && Reached(s', v.closes) && s'.pcs == s.pcs[t := pc] && ViewOf(s', p, v.closes) == v
  {
    s' := Take(s, closes, t, a, pc);
    PortAfter(s, t, s.Pc(t), a, p);
    hide NextPc, PortsAfter, RingEffect, PortOf;
  }

  const TX4: PortId := PortId(false, true)
  const RX4: PortId := PortId(false, false)

  /** A state of a run, seen at one port by one thread. */
  ghost predicate At(s: State, p: PortId, v: View, t: Tid, pc: Pc) {
    s.Valid() && Reached(s, v.closes) && ViewOf(s, p, v.closes) == v && s.Pc(t) == pc
  }

  /** No other thread has moved. */
  ghost predicate Only(s0: State, s: State, t: Tid) { forall u: Tid :: u != t ==> s.Pc(u) == s0.Pc(u) }

  // ---------------------------------------------------------------- one step of a scene

  /** Some state with this view. */
  function Shadow(v: View, p: PortId): (s: State)
    ensures s.Valid()
  {
    FreshPortsAll(0);
    State(v.isOpen, v.live, v.readers, v.writer, FreshPorts(0)[p := v.port], map[])
  }

  predicate OnPort(pc: Pc, p: PortId) { HoldsRing(pc) || pc.Queued? ==> pc.p == p }

  lemma ShadowUser(s: State, p: PortId, closes: nat, pc: Pc, a: Action)
    requires s.Valid() && OnPort(pc, p) && !Kernel(a)
    ensures NextUser(s, pc, a) == NextUser(Shadow(ViewOf(s, p, closes), p), pc, a)
  {
    hide FreshPorts, MustWait;
  }

  lemma ShadowAdmin(s: State, p: PortId, closes: nat, pc: Pc, a: Action)
    requires s.Valid()
    ensures NextAdmin(s, pc, a) == NextAdmin(Shadow(ViewOf(s, p, closes), p), pc, a)
  {
    hide FreshPorts;
    var m := Shadow(ViewOf(s, p, closes), p);
    assert m.isOpen == s.isOpen && m.readers == s.readers && m.writer == s.writer;
  }

  /** A step that the view allows. */
  lemma {:induction false} Next(s0: State, s: State, p: PortId, v: View, t: Tid, pc: Pc, a: Action, v': View, pc': Pc) returns (s': State)
    requires At(s, p, v, t, pc) && Only(s0, s, t) && OnPort(pc, p) && !Kernel(a)
    requires NextPc(Shadow(v, p), pc, a) == Some(pc') && v' == Shown(v, p, t, pc, a)
    ensures At(s', p, v', t, pc') && Only(s0, s', t)
  {
    hide NextUser, NextAdmin, Shown, ViewOf, Reached, State.Valid, Shadow;
    if Admin(a) { ShadowAdmin(s, p, v.closes, pc, a); } else { ShadowUser(s, p, v.closes, pc, a); }
    s' := TakeShown(s, v.closes, t, a, pc', p);
    forall u: Tid | u != t ensures s'.Pc(u) == s0.Pc(u) {
      assert s'.Pc(u) == s.Pc(u);
    }
  }

  lemma OnlySelf(s: State, t: Tid)
    ensures Only(s, s, t)
  {
  }

  lemma Starts(s: State, p: PortId, v: View, t: Tid, pc: Pc)
    requires s.Valid() && Reached(s, v.closes) && ViewOf(s, p, v.closes) == v && s.Pc(t) == pc
    ensures At(s, p, v, t, pc)
  {
  }

  // The steps of a send, a receive, a close and an open, by what is shared.
  lemma SendEntersNext(v: View, p: PortId)
    requires p.tx
    ensures var s := Shadow(v, p);
            && NextPc(s, Idle, BeginSend(p)) == Some(SendWant(p))
            && (v.writer == None ==> NextPc(s, SendWant(p), ReadLock) == Some(Locked(p)))
            && (v.isOpen == 1 ==> NextPc(s, Locked(p), Check) == Some(Queued(p)))
  {
    hide FreshPorts, MustWait, NextAdmin;
  }

  lemma SendRingNext(v: View, p: PortId)
    requires p.tx
    ensures var s := Shadow(v, p);
            && (v.port.mu == None ==> NextPc(s, Queued(p), LockRing) == Some(Poll(p, 0)))
            && NextPc(s, Poll(p, 0), Dequeue) == Some(if MustWait(p, v.port) then Notifying(p) else OnRing(p))
            && NextPc(s, Notifying(p), NotifyResult(true)) == Some(Waiting(p))
            && NextPc(s, OnRing(p), RingStep(Succeeds)) == Some(Unlocking(p, true))
  {
    hide FreshPorts, MustWait, NextAdmin;
  }

  lemma SendNext(v: View, p: PortId)
    requires p.tx
    ensures var s := Shadow(v, p);
            && NextPc(s, Idle, BeginSend(p)) == Some(SendWant(p))
            && (v.writer == None ==> NextPc(s, SendWant(p), ReadLock) == Some(Locked(p)))
            && (v.isOpen == 1 ==> NextPc(s, Locked(p), Check) == Some(Queued(p)))
            && (v.port.mu == None ==> NextPc(s, Queued(p), LockRing) == Some(Poll(p, 0)))
            && NextPc(s, Poll(p, 0), Dequeue) == Some(if MustWait(p, v.port) then Notifying(p) else OnRing(p))
            && NextPc(s, Notifying(p), NotifyResult(true)) == Some(Waiting(p))
            && NextPc(s, OnRing(p), RingStep(Succeeds)) == Some(Unlocking(p, true))
  {
    hide Shadow, NextPc, MustWait;
    SendEntersNext(v, p);
    SendRingNext(v, p);
  }

  lemma LeaveNext(v: View, p: PortId)
    requires p.tx
    ensures var s := Shadow(v, p);
            && (v.port.pending > 0 ==> NextPc(s, Waiting(p), Wake) == Some(Woken(p)))
            && (v.isOpen != 1 ==> NextPc(s, Woken(p), WokenCheck) == Some(Unlocking(p, false)))
            && NextPc(s, Unlocking(p, true), UnlockRing) == Some(More(p))
            && NextPc(s, Unlocking(p, false), UnlockRing) == Some(Done(p))
            && NextPc(s, More(p), ReadUnlock) == Some(Idle)
            && NextPc(s, Done(p), ReadUnlock) == Some(Idle)
  {
    hide FreshPorts, MustWait;
  }

  lemma ReceiveEntersNext(v: View, p: PortId)
    requires !p.tx
    ensures var s := Shadow(v, p);
            && (v.isOpen == 1 ==> NextPc(s, Idle, BeginReceive(p)) == Some(Checked(p)))
            && (v.writer == None ==> NextPc(s, Checked(p), ReadLock) == Some(Locked(p)))
            && (v.isOpen == 1 ==> NextPc(s, Locked(p), Check) == Some(Queued(p)))
  {
    hide FreshPorts, MustWait, NextAdmin;
  }

  lemma ReceiveRingNext(v: View, p: PortId, k: nat)
    requires !p.tx
    ensures var s := Shadow(v, p);
            && (v.port.mu == None ==> NextPc(s, Queued(p), LockRing) == Some(Poll(p, 0)))
            && (v.port.done == 0 ==> NextPc(s, Poll(p, k), Dequeue) == Some(if k + 1 >= RECEIVE_SPINS then Notifying(p) else Spin(p, k + 1)))
            && (v.isOpen == 1 ==> NextPc(s, Spin(p, k), SpinCheck) == Some(Poll(p, k)))
            && NextPc(s, Notifying(p), NotifyResult(true)) == Some(Waiting(p))
  {
    hide FreshPorts, NextAdmin;
  }

  lemma ReceiveNext(v: View, p: PortId, k: nat)
    requires !p.tx
    ensures var s := Shadow(v, p);
            && (v.isOpen == 1 ==> NextPc(s, Idle, BeginReceive(p)) == Some(Checked(p)))
            && (v.writer == None ==> NextPc(s, Checked(p), ReadLock) == Some(Locked(p)))
            && (v.isOpen == 1 ==> NextPc(s, Locked(p), Check) == Some(Queued(p)))
            && (v.port.mu == None ==> NextPc(s, Queued(p), LockRing) == Some(Poll(p, 0)))
            && (v.port.done == 0 ==> NextPc(s, Poll(p, k), Dequeue) == Some(if k + 1 >= RECEIVE_SPINS then Notifying(p) else Spin(p, k + 1)))
            && (v.isOpen == 1 ==> NextPc(s, Spin(p, k), SpinCheck) == Some(Poll(p, k)))
            && NextPc(s, Notifying(p), NotifyResult(true)) == Some(Waiting(p))
  {
    hide Shadow, NextPc;
    ReceiveEntersNext(v, p);
    ReceiveRingNext(v, p, k);
  }

  lemma CloseNext(v: View, p: PortId)
    ensures var s := Shadow(v, p);
            && NextPc(s, Idle, BeginClose) == Some(CloseCall)
            && (v.writer == None ==> NextPc(s, CloseCall, CloseReadLock) == Some(CloseLocked))
            && (v.isOpen == 1 ==> NextPc(s, CloseLocked, CloseCheck) == Some(CloseChecked))
            && NextPc(s, CloseChecked, CloseStore) == Some(ClosePosting(0))
  {
    hide FreshPorts, NextUser;
  }

  lemma PostNext(v: View, p: PortId)
    ensures var s := Shadow(v, p);
            && NextPc(s, ClosePosting(0), ClosePost) == Some(ClosePosting(1))
            && NextPc(s, ClosePosting(1), ClosePost) == Some(ClosePosting(2))
            && NextPc(s, ClosePosting(2), ClosePost) == Some(ClosePosting(3))
            && NextPc(s, ClosePosting(3), ClosePost) == Some(CloseUnlocking)
            && NextPc(s, CloseUnlocking, CloseReadUnlock) == Some(CloseWant)
  {
    hide FreshPorts, NextUser;
  }

  lemma TearNext(v: View, p: PortId)
    ensures var s := Shadow(v, p);
            && (v.writer == None ==> NextPc(s, CloseWant, Announce) == Some(CloseWaiting))
            && (v.readers == {} ==> NextPc(s, CloseWaiting, WriteLock) == Some(CloseHeld))
            && NextPc(s, CloseHeld, CloseTeardown) == Some(WriteDone)
            && NextPc(s, WriteDone, WriteUnlock) == Some(Idle)
  {
    hide FreshPorts, NextUser;
  }

  lemma OpenNext(v: View, p: PortId)
    ensures var s := Shadow(v, p);
            && NextPc(s, Idle, BeginOpen) == Some(OpenWant)
            && (v.writer == None ==> NextPc(s, OpenWant, Announce) == Some(OpenWaiting))
            && (v.readers == {} ==> NextPc(s, OpenWaiting, WriteLock) == Some(OpenHeld))
            && (v.isOpen == 0 ==> NextPc(s, OpenHeld, OpenSucceeds) == Some(WriteDone))
            && (v.isOpen != 0 ==> NextPc(s, OpenHeld, OpenRefused) == Some(WriteDone))
            && NextPc(s, WriteDone, WriteUnlock) == Some(Idle)
  {
    hide FreshPorts, NextUser;
  }

  // ---------------------------------------------------------------- opening, sending, receiving

  const CLOSED: View := View(0, false, {}, None, Port(None, 0, false, 0, 0), 0)

  function OpenView(used: nat): View { View(1, true, {}, None, Port(None, 0, false, used, 0), 0) }

  lemma InitialScene(p: PortId)
    ensures INITIAL.Valid() && Reached(INITIAL, 0) && ViewOf(INITIAL, p, 0) == CLOSED && forall t: Tid :: INITIAL.Pc(t) == Idle
  {
    FreshPortsAll(0);
    InitialValid();
    assert After(INITIAL, []) == Some(INITIAL) && Closes([]) == 0;
  }

  /** Steps without a shared effect. */
  predicate Plain(a: Action) {
    || a.BeginSend? || a.BeginReceive? || a.BeginOpen? || a.Check? || a.SpinCheck? || a.NotifyResult? || a.WokenCheck?
    || a.NextBuffer? || a.RetryCheck? || a.CloseCheck? || a.WriteLock?
  }

  lemma {:induction false} Still(s0: State, s: State, p: PortId, v: View, t: Tid, pc: Pc, a: Action, pc': Pc) returns (s': State)
    requires At(s, p, v, t, pc) && Only(s0, s, t) && OnPort(pc, p) && Plain(a) && NextPc(Shadow(v, p), pc, a) == Some(pc')
    ensures At(s', p, v, t, pc') && Only(s0, s', t)
  {
    PlainShown(v, p, t, pc, a);
    assert !Kernel(a);
    hide *;
    s' := Next(s0, s, p, v, t, pc, a, v, pc');
  }

  lemma PlainShown(v: View, p: PortId, t: Tid, pc: Pc, a: Action)
    requires Plain(a)
    ensures Shown(v, p, t, pc, a) == v
  {
    hide RingEffect, PortOf, Kernel, Plain, Tears, TakesRead, DropsRead;
    PlainIs(a);
    NoEffect(t, p, v.port, a);
  }

  lemma PlainIs(a: Action)
    requires Plain(a)
    ensures !a.LockRing? && !a.UnlockRing? && !a.Dequeue? && !a.AwakeDequeue? && !a.RingStep? && !a.Wake? && !a.ClosePost? && !Kernel(a)
    ensures !Tears(a) && !a.OpenSucceeds? && !TakesRead(a) && !DropsRead(a) && !a.CloseStore? && !a.Announce? && !a.WriteUnlock? && !a.BeginClose?
  {
  }

  // What the other steps show.
  lemma ShownWriter(v: View, p: PortId, t: Tid, pc: Pc)
    ensures Shown(v, p, t, pc, Announce) == v.(writer := Some(t))
    ensures Shown(v, p, t, pc, WriteUnlock) == v.(writer := None)
    ensures Shown(v, p, t, pc, CloseStore) == v.(isOpen := 2)
    ensures Shown(v, p, t, pc, BeginClose) == v.(closes := v.closes + 1)
  {
  }

  lemma ShownReader(v: View, p: PortId, t: Tid, pc: Pc)
    ensures Shown(v, p, t, pc, ReadLock) == v.(readers := v.readers + {t})
    ensures Shown(v, p, t, pc, CloseReadLock) == v.(readers := v.readers + {t})
    ensures Shown(v, p, t, pc, ReadUnlock) == v.(readers := v.readers - {t})
    ensures Shown(v, p, t, pc, CloseReadUnlock) == v.(readers := v.readers - {t})
  {
    hide RingEffect, PortOf;
    NoEffect(t, p, v.port, ReadLock);
    NoEffect(t, p, v.port, CloseReadLock);
    NoEffect(t, p, v.port, ReadUnlock);
    NoEffect(t, p, v.port, CloseReadUnlock);
  }

  // A step that works on no ring leaves the port as it is.
  lemma NoEffect(t: Tid, p: PortId, q: Port, a: Action)
    requires !a.LockRing? && !a.UnlockRing? && !a.Dequeue? && !a.AwakeDequeue? && !a.RingStep? && !a.Wake? && !a.ClosePost? && !Kernel(a)
    ensures RingEffect(t, p, q, a) == q
  {
  }

  lemma ShownTears(v: View, p: PortId, t: Tid, pc: Pc)
    ensures Shown(v, p, t, pc, OpenSucceeds) == OpenView(if p.tx then 0 else PACKETS_PER_RING).(readers := v.readers, writer := v.writer, closes := v.closes)
    ensures Shown(v, p, t, pc, OpenRefused) == CLOSED.(readers := v.readers, writer := v.writer, closes := v.closes)
    ensures Shown(v, p, t, pc, CloseTeardown) == CLOSED.(readers := v.readers, writer := v.writer, closes := v.closes)
  {
  }

  /** Thread `t` opens a closed bind. */
  lemma {:induction false} Opens(s: State, p: PortId, v: View, t: Tid) returns (s': State)
    requires At(s, p, v, t, Idle) && v.isOpen == 0 && v.readers == {} && v.writer == None
    ensures At(s', p, OpenView(if p.tx then 0 else PACKETS_PER_RING).(closes := v.closes), t, Idle) && Only(s, s', t)
  {
    hide At, Only, NextPc, Shadow, Shown;
    OnlySelf(s, t);
    var w, o := v.(writer := Some(t)), OpenView(if p.tx then 0 else PACKETS_PER_RING).(closes := v.closes);
    s' := WantsWrite(s, s, p, v, t);
    s' := OpensLocked(s, s', p, w, t);
    OpenNext(o.(writer := Some(t)), p);
    ShownWriter(o.(writer := Some(t)), p, t, WriteDone);
    s' := Next(s, s', p, o.(writer := Some(t)), t, WriteDone, WriteUnlock, o, Idle);
  }

  lemma {:induction false} WantsWrite(s0: State, s: State, p: PortId, v: View, t: Tid) returns (s': State)
    requires At(s, p, v, t, Idle) && Only(s0, s, t) && v.writer == None
    ensures At(s', p, v.(writer := Some(t)), t, OpenWaiting) && Only(s0, s', t)
  {
    hide At, Only, NextPc, Shadow, Shown;
    OpenNext(v, p);
    s' := Still(s0, s, p, v, t, Idle, BeginOpen, OpenWant);
    ShownWriter(v, p, t, OpenWant);
    s' := Next(s0, s', p, v, t, OpenWant, Announce, v.(writer := Some(t)), OpenWaiting);
  }

  lemma {:induction false} OpensLocked(s0: State, s: State, p: PortId, w: View, t: Tid) returns (s': State)
    requires At(s, p, w, t, OpenWaiting) && Only(s0, s, t) && w.isOpen == 0 && w.readers == {} && w.writer == Some(t)
    ensures At(s', p, OpenView(if p.tx then 0 else PACKETS_PER_RING).(writer := Some(t), closes := w.closes), t, WriteDone) && Only(s0, s', t)
  {
    hide At, Only, NextPc, Shadow, Shown;
    OpenNext(w, p);
    s' := Still(s0, s, p, w, t, OpenWaiting, WriteLock, OpenHeld);
    ShownTears(w, p, t, OpenHeld);
    s' := Next(s0, s', p, w, t, OpenHeld, OpenSucceeds, OpenView(if p.tx then 0 else PACKETS_PER_RING).(writer := Some(t), closes := w.closes), WriteDone);
  }

  // What the steps on a ring show, for a thread whose port it is.
  lemma ShownMutex(v: View, p: PortId, t: Tid)
    ensures Shown(v, p, t, Queued(p), LockRing) == v.(port := v.port.(mu := Some(t)))
    ensures forall ok :: Shown(v, p, t, Unlocking(p, ok), UnlockRing) == v.(port := v.port.(mu := None))
  {
  }

  lemma ShownSlots(v: View, p: PortId, t: Tid)
    ensures v.port.done == 0 ==> forall k: nat :: Shown(v, p, t, Poll(p, k), Dequeue) == v
    ensures Shown(v, p, t, OnRing(p), RingStep(Succeeds)) == v.(port := v.port.(used := v.port.used + 1))
    ensures v.port.pending > 0 ==> Shown(v, p, t, Waiting(p), Wake) == v.(port := v.port.(pending := v.port.pending - 1))
  {
  }

  lemma ShownRing(v: View, p: PortId, t: Tid)
    ensures Shown(v, p, t, Queued(p), LockRing) == v.(port := v.port.(mu := Some(t)))
    ensures forall ok :: Shown(v, p, t, Unlocking(p, ok), UnlockRing) == v.(port := v.port.(mu := None))
    ensures v.port.done == 0 ==> forall k: nat :: Shown(v, p, t, Poll(p, k), Dequeue) == v
    ensures Shown(v, p, t, OnRing(p), RingStep(Succeeds)) == v.(port := v.port.(used := v.port.used + 1))
    ensures v.port.pending > 0 ==> Shown(v, p, t, Waiting(p), Wake) == v.(port := v.port.(pending := v.port.pending - 1))
  {
    hide Shown;
    ShownMutex(v, p, t);
    ShownSlots(v, p, t);
  }

  /** A send comes to queue for the ring. */
  lemma {:induction false} Enters(s0: State, s: State, p: PortId, v: View, t: Tid) returns (s': State)
    requires At(s, p, v, t, Idle) && Only(s0, s, t) && p.tx && v.isOpen == 1 && v.writer == None
    ensures At(s', p, v.(readers := v.readers + {t}), t, Queued(p)) && Only(s0, s', t)
  {
    hide At, Only, NextPc, Shadow, Shown;
    SendNext(v, p);
    s' := Still(s0, s, p, v, t, Idle, BeginSend(p), SendWant(p));
    var w := v.(readers := v.readers + {t});
    ShownReader(v, p, t, SendWant(p));
    s' := Next(s0, s', p, v, t, SendWant(p), ReadLock, w, Locked(p));
    SendNext(w, p);
    s' := Still(s0, s', p, w, t, Locked(p), Check, Queued(p));
  }

  /** It finds room and hands out a slot. */
  lemma {:induction false} Pushes(s0: State, s: State, p: PortId, v: View, t: Tid) returns (s': State)
    requires At(s, p, v, t, Queued(p)) && Only(s0, s, t) && p.tx && v.port.mu == None && v.port.done == 0 && v.port.used < PACKETS_PER_RING
    ensures At(s', p, v.(port := v.port.(mu := Some(t), used := v.port.used + 1)), t, Unlocking(p, true)) && Only(s0, s', t)
  {
    hide At, Only, NextPc, Shadow, Shown;
    SendNext(v, p);
    ShownRing(v, p, t);
    var w := v.(port := v.port.(mu := Some(t)));
    s' := Next(s0, s, p, v, t, Queued(p), LockRing, w, Poll(p, 0));
    SendNext(w, p);
    ShownRing(w, p, t);
    s' := Next(s0, s', p, w, t, Poll(p, 0), Dequeue, w, OnRing(p));
    s' := Next(s0, s', p, w, t, OnRing(p), RingStep(Succeeds), w.(port := w.port.(used := w.port.used + 1)), Unlocking(p, true));
  }

  /** It finds the ring full and waits. */
  lemma {:induction false} Waits(s0: State, s: State, p: PortId, v: View, t: Tid) returns (s': State)
    requires At(s, p, v, t, Queued(p)) && Only(s0, s, t) && p.tx && v.port.mu == None && v.port.done == 0 && v.port.used == PACKETS_PER_RING
    ensures At(s', p, v.(port := v.port.(mu := Some(t))), t, Waiting(p)) && Only(s0, s', t)
  {
    hide At, Only, NextPc, Shadow, Shown;
    SendNext(v, p);
    ShownRing(v, p, t);
    var w := v.(port := v.port.(mu := Some(t)));
    s' := Next(s0, s, p, v, t, Queued(p), LockRing, w, Poll(p, 0));
    SendNext(w, p);
    ShownRing(w, p, t);
    s' := Next(s0, s', p, w, t, Poll(p, 0), Dequeue, w, Notifying(p));
    s' := Still(s0, s', p, w, t, Notifying(p), NotifyResult(true), Waiting(p));
  }

  /** It gives the ring and the read lock back. */
  lemma {:induction false} Leaves(s0: State, s: State, p: PortId, v: View, t: Tid, ok: bool) returns (s': State)
    requires At(s, p, v, t, Unlocking(p, ok)) && Only(s0, s, t) && p.tx
    ensures At(s', p, v.(port := v.port.(mu := None), readers := v.readers - {t}), t, Idle) && Only(s0, s', t)
  {
    hide At, Only, NextPc, Shadow, Shown;
    LeaveNext(v, p);
    ShownRing(v, p, t);
    var w := v.(port := v.port.(mu := None));
    var pc := if ok then More(p) else Done(p);
    s' := Next(s0, s, p, v, t, Unlocking(p, ok), UnlockRing, w, pc);
    LeaveNext(w, p);
    ShownReader(w, p, t, pc);
    s' := Next(s0, s', p, w, t, pc, ReadUnlock, w.(readers := w.readers - {t}), Idle);
  }

  /** It is woken up in a closing bind. */
  lemma {:induction false} WakesUp(s0: State, s: State, p: PortId, v: View, t: Tid) returns (s': State)
    requires At(s, p, v, t, Waiting(p)) && Only(s0, s, t) && p.tx && v.isOpen == 2 && v.port.pending > 0
    ensures At(s', p, v.(port := v.port.(pending := v.port.pending - 1)), t, Unlocking(p, false)) && Only(s0, s', t)
  {
    hide At, Only, NextPc, Shadow, Shown;
    LeaveNext(v, p);
    ShownRing(v, p, t);
    var w := v.(port := v.port.(pending := v.port.pending - 1));
    s' := Next(s0, s, p, v, t, Waiting(p), Wake, w, Woken(p));
    LeaveNext(w, p);
    s' := Still(s0, s', p, w, t, Woken(p), WokenCheck, Unlocking(p, false));
  }

  /** Thread `t` fills a send ring, one send after the other. */
  lemma {:induction false} Fills(s0: State, s: State, p: PortId, v: View, t: Tid, k: nat) returns (s': State)
    requires At(s, p, v, t, Idle) && Only(s0, s, t) && p.tx && v.isOpen == 1 && v.writer == None && t !in v.readers
    requires v.port.mu == None && v.port.done == 0 && v.port.used == k <= PACKETS_PER_RING
    ensures At(s', p, v.(port := v.port.(used := PACKETS_PER_RING)), t, Idle) && Only(s0, s', t)
    decreases PACKETS_PER_RING - k
  {
    hide At, Only;
    if k == PACKETS_PER_RING {
      s' := s;
    } else {
      var w := v.(readers := v.readers + {t});
      var x := w.(port := w.port.(mu := Some(t), used := k + 1));
      s' := Enters(s0, s, p, v, t);
      s' := Pushes(s0, s', p, w, t);
      s' := Leaves(s0, s', p, x, t, true);
      var y := v.(port := v.port.(used := k + 1));
      assert v.readers + {t} - {t} == v.readers;
      assert x.(port := x.port.(mu := None), readers := x.readers - {t}) == y;
      s' := Fills(s0, s', p, y, t, k + 1);
    }
  }

  // ---------------------------------------------------------------- closing

  /** Close is called. */
  lemma {:induction false} CallsClose(s0: State, s: State, p: PortId, v: View, t: Tid) returns (s': State)
    requires At(s, p, v, t, Idle) && Only(s0, s, t)
    ensures At(s', p, v.(closes := v.closes + 1), t, CloseCall) && Only(s0, s', t)
  {
    BeginIsOwn();
    hide At, Only, NextPc, Shadow, Shown, Kernel;
    CloseNext(v, p);
    ShownWriter(v, p, t, Idle);
    s' := Next(s0, s, p, v, t, Idle, BeginClose, v.(closes := v.closes + 1), CloseCall);
  }

  lemma BeginIsOwn()
    ensures !Kernel(BeginClose)
  {
  }

  /** It reads that the bind is open. */
  lemma {:induction false} CloseReads(s0: State, s: State, p: PortId, v: View, t: Tid) returns (s': State)
    requires At(s, p, v, t, Idle) && Only(s0, s, t) && v.isOpen == 1 && v.writer == None
    ensures At(s', p, v.(readers := v.readers + {t}, closes := v.closes + 1), t, CloseChecked) && Only(s0, s', t)
  {
    hide At, Only, NextPc, Shadow, Shown;
    s' := CallsClose(s0, s, p, v, t);
    var c := v.(closes := v.closes + 1);
    CloseNext(c, p);
    ShownReader(c, p, t, CloseCall);
    var w := c.(readers := v.readers + {t});
    s' := Next(s0, s', p, c, t, CloseCall, CloseReadLock, w, CloseLocked);
    CloseNext(w, p);
    s' := Still(s0, s', p, w, t, CloseLocked, CloseCheck, CloseChecked);
  }

  lemma ShownPost(v: View, t: Tid, p: PortId)
    requires p == TX4 || p == RX4
    ensures Shown(v, p, t, ClosePosting(0), ClosePost) == if p == RX4 then Posted(v) else v
    ensures Shown(v, p, t, ClosePosting(1), ClosePost) == if p == TX4 then Posted(v) else v
    ensures Shown(v, p, t, ClosePosting(2), ClosePost) == v
    ensures Shown(v, p, t, ClosePosting(3), ClosePost) == v
  {
  }

  function Posted(v: View): View { v.(port := v.port.(pending := v.port.pending + 1, posted := true)) }

  /** It stores 2, posts to all ports and gives the read lock back. */
  lemma {:induction false} Posts(s0: State, s: State, p: PortId, v: View, t: Tid) returns (s': State)
    requires At(s, p, v, t, CloseChecked) && Only(s0, s, t) && (p == TX4 || p == RX4)
    ensures At(s', p, Posted(v).(isOpen := 2, readers := v.readers - {t}), t, CloseWant) && Only(s0, s', t)
  {
    hide At, Only, NextPc, Shadow, Shown;
    CloseNext(v, p);
    ShownWriter(v, p, t, CloseChecked);
    var w := v.(isOpen := 2);
    s' := Next(s0, s, p, v, t, CloseChecked, CloseStore, w, ClosePosting(0));
    s' := PostsTwo(s0, s', p, w, t);
    var x := Posted(w);
    PostNext(x, p);
    ShownPost(x, t, p);
    s' := Next(s0, s', p, x, t, ClosePosting(2), ClosePost, x, ClosePosting(3));
    s' := Next(s0, s', p, x, t, ClosePosting(3), ClosePost, x, CloseUnlocking);
    ShownReader(x, p, t, CloseUnlocking);
    s' := Next(s0, s', p, x, t, CloseUnlocking, CloseReadUnlock, x.(readers := x.readers - {t}), CloseWant);
  }

  lemma {:induction false} PostsTwo(s0: State, s: State, p: PortId, w: View, t: Tid) returns (s': State)
    requires At(s, p, w, t, ClosePosting(0)) && Only(s0, s, t) && (p == TX4 || p == RX4)
    ensures At(s', p, Posted(w), t, ClosePosting(2)) && Only(s0, s', t)
  {
    hide At, Only, NextPc, Shadow, Shown;
    PostNext(w, p);
    ShownPost(w, t, p);
    var x := if p == RX4 then Posted(w) else w;
    s' := Next(s0, s, p, w, t, ClosePosting(0), ClosePost, x, ClosePosting(1));
    PostNext(x, p);
    ShownPost(x, t, p);
    s' := Next(s0, s', p, x, t, ClosePosting(1), ClosePost, Posted(w), ClosePosting(2));
  }

  /** It announces itself as a writer. */
  lemma {:induction false} Announces(s0: State, s: State, p: PortId, v: View, t: Tid) returns (s': State)
    requires At(s, p, v, t, CloseWant) && Only(s0, s, t) && v.writer == None
    ensures At(s', p, v.(writer := Some(t)), t, CloseWaiting) && Only(s0, s', t)
  {
    hide At, Only, NextPc, Shadow, Shown;
    TearNext(v, p);
    ShownWriter(v, p, t, CloseWant);
    s' := Next(s0, s, p, v, t, CloseWant, Announce, v.(writer := Some(t)), CloseWaiting);
  }

  /** It tears the bind down. */
  lemma {:induction false} TearsDown(s0: State, s: State, p: PortId, v: View, t: Tid) returns (s': State)
    requires At(s, p, v, t, CloseWaiting) && Only(s0, s, t) && v.readers == {} && v.writer == Some(t)
    ensures At(s', p, CLOSED.(closes := v.closes), t, Idle) && Only(s0, s', t)
  {
    hide At, Only, NextPc, Shadow, Shown;
    TearNext(v, p);
    s' := Still(s0, s, p, v, t, CloseWaiting, WriteLock, CloseHeld);
    ShownTears(v, p, t, CloseHeld);
    var w := CLOSED.(writer := Some(t), closes := v.closes);
    s' := Next(s0, s', p, v, t, CloseHeld, CloseTeardown, w, WriteDone);
    TearNext(w, p);
    ShownWriter(w, p, t, WriteDone);
    s' := Next(s0, s', p, w, t, WriteDone, WriteUnlock, CLOSED.(closes := v.closes), Idle);
  }

  // ---------------------------------------------------------------- whole runs

  /** Where the first threads stand; all others are idle. */
  ghost predicate Everyone(s: State, pcs: seq<Pc>) { forall t: Tid :: s.Pc(t) == if t < |pcs| then pcs[t] else Idle }

  lemma {:induction false} EveryoneMoved(s: State, s': State, p: PortId, v: View, pcs: seq<Pc>, t: Tid, pc: Pc, pcs': seq<Pc>)
    requires Everyone(s, pcs) && Only(s, s', t) && At(s', p, v, t, pc) && t < |pcs| && pcs' == pcs[t := pc]
    ensures Everyone(s', pcs')
    ensures forall u :: 0 <= u < |pcs'| ==> At(s', p, v, u, pcs'[u])
  {
  }

  /** A bind that thread 0 has opened. */
  lemma OpenedScene(p: PortId) returns (s: State)
    ensures Everyone(s, [Idle, Idle, Idle, Idle, Idle])
    ensures var v := OpenView(if p.tx then 0 else PACKETS_PER_RING); At(s, p, v, 0, Idle) && At(s, p, v, 1, Idle)
  {
    InitialScene(p);
    Starts(INITIAL, p, CLOSED, 0, Idle);
    assert Everyone(INITIAL, [Idle, Idle, Idle, Idle, Idle]);
    hide At, Only, Everyone;
    s := Opens(INITIAL, p, CLOSED, 0);
    var pcs := [Idle, Idle, Idle, Idle, Idle];
    var v := OpenView(if p.tx then 0 else PACKETS_PER_RING);
    EveryoneMoved(INITIAL, s, p, v, pcs, 0, Idle, pcs);
    assert At(s, p, v, 0, pcs[0]) && At(s, p, v, 1, pcs[1]);
  }

  function FullView(readers: set<Tid>, mu: Option<Tid>): View { View(1, true, readers, None, Port(mu, 0, false, PACKETS_PER_RING, 0), 0) }

  /** After 256 sends the next sender waits for the full ring, and another queues behind it. */
  lemma TwoSenders() returns (s: State)
    ensures Everyone(s, [Idle, Waiting(TX4), Queued(TX4), Idle, Idle])
    ensures At(s, TX4, FullView({1, 2}, Some(1)), 3, Idle) && At(s, TX4, FullView({1, 2}, Some(1)), 4, Idle)
  {
    hide At, Only, Everyone;
    var m := OpenedScene(TX4);
    var idle := [Idle, Idle, Idle, Idle, Idle];
    OnlySelf(m, 1);
    s := Fills(m, m, TX4, OpenView(0), 1, 0);
    s := Enters(m, s, TX4, FullView({}, None), 1);
    assert {} + {1} == {1};
    s := Waits(m, s, TX4, FullView({1}, None), 1);
    var pcs := [Idle, Waiting(TX4), Idle, Idle, Idle];
    EveryoneMoved(m, s, TX4, FullView({1}, Some(1)), idle, 1, Waiting(TX4), pcs);
    m := s;
    assert At(m, TX4, FullView({1}, Some(1)), 2, pcs[2]);
    OnlySelf(m, 2);
    s := Enters(m, m, TX4, FullView({1}, Some(1)), 2);
    assert {1} + {2} == {1, 2};
    var pcs' := [Idle, Waiting(TX4), Queued(TX4), Idle, Idle];
    EveryoneMoved(m, s, TX4, FullView({1, 2}, Some(1)), pcs, 2, Queued(TX4), pcs');
    assert At(s, TX4, FullView({1, 2}, Some(1)), 3, pcs'[3]) && At(s, TX4, FullView({1, 2}, Some(1)), 4, pcs'[4]);
  }

  function ClosingView(readers: set<Tid>, writer: Option<Tid>, mu: Option<Tid>, pending: nat): View {
    View(2, true, readers, writer, Port(mu, pending, true, PACKETS_PER_RING, 0), 1)
  }

  // A receive has read isOpen and wants the lock; then a close posts and announces itself.
  lemma CloseAnnounced() returns (s: State)
    ensures Everyone(s, [Idle, Waiting(TX4), Queued(TX4), CloseWaiting, Checked(RX4)])
    ensures At(s, TX4, ClosingView({1, 2}, Some(3), Some(1), 1), 1, Waiting(TX4))
  {
    hide At, Only, Everyone;
    var v := FullView({1, 2}, Some(1));
    var m := TwoSenders();
    var pcs := [Idle, Waiting(TX4), Queued(TX4), Idle, Idle];
    OnlySelf(m, 4);
    s := BeginsReceive(m, m, v, 4);
    var pcs' := [Idle, Waiting(TX4), Queued(TX4), Idle, Checked(RX4)];
    EveryoneMoved(m, s, TX4, v, pcs, 4, Checked(RX4), pcs');
    m := s;
    assert At(m, TX4, v, 3, pcs'[3]);
    OnlySelf(m, 3);
    s := CloseReads(m, m, TX4, v, 3);
    s := Posts(m, s, TX4, v.(readers := v.readers + {3}, closes := 1), 3);
    assert {1, 2} + {3} - {3} == {1, 2};
    s := Announces(m, s, TX4, ClosingView({1, 2}, None, Some(1), 1), 3);
    var last := [Idle, Waiting(TX4), Queued(TX4), CloseWaiting, Checked(RX4)];
    EveryoneMoved(m, s, TX4, ClosingView({1, 2}, Some(3), Some(1), 1), pcs', 3, CloseWaiting, last);
    assert At(s, TX4, ClosingView({1, 2}, Some(3), Some(1), 1), 1, last[1]);
  }

  lemma {:induction false} BeginsReceive(s0: State, s: State, v: View, t: Tid) returns (s': State)
    requires At(s, TX4, v, t, Idle) && Only(s0, s, t) && v.isOpen == 1
    ensures At(s', TX4, v, t, Checked(RX4)) && Only(s0, s', t)
  {
    BeginReceiveNext(v);
    hide At, Only, NextPc, Shadow, Shown;
    s' := Still(s0, s, TX4, v, t, Idle, BeginReceive(RX4), Checked(RX4));
  }

  lemma BeginReceiveNext(v: View)
    requires v.isOpen == 1
    ensures NextPc(Shadow(v, TX4), Idle, BeginReceive(RX4)) == Some(Checked(RX4))
  {
    hide FreshPorts;
  }

  lemma SenderTwoWaits() returns (s: State)
    ensures Everyone(s, [Idle, Idle, Waiting(TX4), CloseWaiting, Checked(RX4)])
    ensures At(s, TX4, ClosingView({2}, Some(3), Some(2), 0), 2, Waiting(TX4))
  {
    hide At, Only, Everyone;
    var m := CloseAnnounced();
    var pcs := [Idle, Waiting(TX4), Queued(TX4), CloseWaiting, Checked(RX4)];
    OnlySelf(m, 1);
    s := WakesUp(m, m, TX4, ClosingView({1, 2}, Some(3), Some(1), 1), 1);
    s := Leaves(m, s, TX4, ClosingView({1, 2}, Some(3), Some(1), 0), 1, false);
    assert {1, 2} - {1} == {2};
    var pcs' := [Idle, Idle, Queued(TX4), CloseWaiting, Checked(RX4)];
    EveryoneMoved(m, s, TX4, ClosingView({2}, Some(3), None, 0), pcs, 1, Idle, pcs');
    m := s;
    assert At(m, TX4, ClosingView({2}, Some(3), None, 0), 2, pcs'[2]);
    OnlySelf(m, 2);
    s := Waits(m, m, TX4, ClosingView({2}, Some(3), None, 0), 2);
    EveryoneMoved(m, s, TX4, ClosingView({2}, Some(3), Some(2), 0), pcs', 2, Waiting(TX4), [Idle, Idle, Waiting(TX4), CloseWaiting, Checked(RX4)]);
  }

  /** Two senders, a close and a receive: the wake-up goes to the first sender, the second waits for
      nothing, the close waits for it, and the receive waits behind the close. Without the kernel this
      stays so for ever. */
  lemma ReceiveLeftWaiting() returns (s: State)
    ensures s.Valid() && Reachable(s) && s.isOpen == 2 && s.readers == {2} && s.writer == Some(3)
    ensures s.Pc(2) == Waiting(TX4) && s.ports[TX4].posted && s.ports[TX4].pending == 0
    ensures s.Pc(3) == CloseWaiting && s.Pc(4) == Checked(RX4) && StrandedAt(s, 2, TX4)
    ensures forall run :: NoKernel(run) && After(s, run).Some? ==>
              && After(s, run).value.isOpen == 2 && After(s, run).value.writer == Some(3)
              && After(s, run).value.Pc(2) == Waiting(TX4) && After(s, run).value.Pc(4) == Checked(RX4)
  {
    s := SenderTwoWaits();
    ReachedInv(s, 1);
    NoPosters(s);
    hide After, Inv, Reachable, TallyOf;
    forall run | NoKernel(run) && After(s, run).Some?
      ensures After(s, run).value.isOpen == 2 && After(s, run).value.writer == Some(3)
      ensures After(s, run).value.Pc(2) == Waiting(TX4) && After(s, run).value.Pc(4) == Checked(RX4)
    {
      StrandedForever(s, 2, TX4, 4, run);
    }
  }

  lemma NoPosters(s: State)
    requires s.Valid() && Everyone(s, [Idle, Idle, Waiting(TX4), CloseWaiting, Checked(RX4)])
    ensures TallyOf(s, TX4).posting == 0 && TallyOf(s, TX4).pending == s.ports[TX4].pending
  {
    forall t ensures t !in Members(s.pcs, Posting, TX4) {
      assert t in s.pcs ==> s.pcs[t] == s.Pc(t);
    }
    assert Members(s.pcs, Posting, TX4) == {};
  }

  // ---------------------------------------------------------------- a second Open

  /** A receive waits for the kernel on an open bind. */
  lemma {:induction false} Spins(s0: State, s: State, v: View, t: Tid, k: nat) returns (s': State)
    requires At(s, RX4, v, t, Poll(RX4, k)) && Only(s0, s, t) && v.isOpen == 1 && v.port.done == 0 && k < RECEIVE_SPINS
    ensures At(s', RX4, v, t, Waiting(RX4)) && Only(s0, s', t)
    decreases RECEIVE_SPINS - k
  {
    hide At, Only, NextPc, Shadow, Shown;
    ReceiveNext(v, RX4, k);
    ShownRing(v, RX4, t);
    if k + 1 >= RECEIVE_SPINS {
      s' := Next(s0, s, RX4, v, t, Poll(RX4, k), Dequeue, v, Notifying(RX4));
      s' := Still(s0, s', RX4, v, t, Notifying(RX4), NotifyResult(true), Waiting(RX4));
    } else {
      s' := Next(s0, s, RX4, v, t, Poll(RX4, k), Dequeue, v, Spin(RX4, k + 1));
      ReceiveNext(v, RX4, k + 1);
      s' := Still(s0, s', RX4, v, t, Spin(RX4, k + 1), SpinCheck, Poll(RX4, k + 1));
      s' := Spins(s0, s', v, t, k + 1);
    }
  }

  lemma {:induction false} ReceiveEnters(s0: State, s: State, v: View, t: Tid) returns (s': State)
    requires At(s, RX4, v, t, Idle) && Only(s0, s, t) && v.isOpen == 1 && v.writer == None
    ensures At(s', RX4, v.(readers := v.readers + {t}), t, Queued(RX4)) && Only(s0, s', t)
  {
    hide At, Only, NextPc, Shadow, Shown;
    ReceiveNext(v, RX4, 0);
    s' := Still(s0, s, RX4, v, t, Idle, BeginReceive(RX4), Checked(RX4));
    ShownReader(v, RX4, t, Checked(RX4));
    var w := v.(readers := v.readers + {t});
    s' := Next(s0, s', RX4, v, t, Checked(RX4), ReadLock, w, Locked(RX4));
    ReceiveNext(w, RX4, 0);
    s' := Still(s0, s', RX4, w, t, Locked(RX4), Check, Queued(RX4));
  }

  lemma {:induction false} ReceiveLocks(s0: State, s: State, v: View, t: Tid) returns (s': State)
    requires At(s, RX4, v, t, Queued(RX4)) && Only(s0, s, t) && v.port.mu == None
    ensures At(s', RX4, v.(port := v.port.(mu := Some(t))), t, Poll(RX4, 0)) && Only(s0, s', t)
  {
    hide At, Only, NextPc, Shadow, Shown;
    ReceiveNext(v, RX4, 0);
    ShownRing(v, RX4, t);
    s' := Next(s0, s, RX4, v, t, Queued(RX4), LockRing, v.(port := v.port.(mu := Some(t))), Poll(RX4, 0));
  }

  function WaitView(writer: Option<Tid>): View { View(1, true, {1}, writer, Port(Some(1), 0, false, PACKETS_PER_RING, 0), 0) }

  lemma ReceiveWaits() returns (s: State)
    ensures Everyone(s, [Idle, Waiting(RX4), Idle, Idle, Idle]) && At(s, RX4, WaitView(None), 2, Idle)
  {
    hide At, Only, Everyone;
    var m := OpenedScene(RX4);
    OnlySelf(m, 1);
    s := ReceiveEnters(m, m, OpenView(PACKETS_PER_RING), 1);
    assert {} + {1} == {1};
    s := ReceiveLocks(m, s, OpenView(PACKETS_PER_RING).(readers := {1}), 1);
    s := Spins(m, s, WaitView(None), 1, 0);
    var pcs := [Idle, Waiting(RX4), Idle, Idle, Idle];
    EveryoneMoved(m, s, RX4, WaitView(None), [Idle, Idle, Idle, Idle, Idle], 1, Waiting(RX4), pcs);
    assert At(s, RX4, WaitView(None), 2, pcs[2]);
  }

  lemma OpenAnnounced() returns (s: State)
    ensures Everyone(s, [Idle, Waiting(RX4), OpenWaiting, CloseCall, Idle]) && At(s, RX4, WaitView(Some(2)).(closes := 1), 3, CloseCall)
  {
    hide At, Only, Everyone;
    var m := ReceiveWaits();
    OnlySelf(m, 2);
    s := WantsWrite(m, m, RX4, WaitView(None), 2);
    var pcs := [Idle, Waiting(RX4), OpenWaiting, Idle, Idle];
    EveryoneMoved(m, s, RX4, WaitView(Some(2)), [Idle, Waiting(RX4), Idle, Idle, Idle], 2, OpenWaiting, pcs);
    m := s;
    assert At(m, RX4, WaitView(Some(2)), 3, pcs[3]);
    OnlySelf(m, 3);
    s := CallsClose(m, m, RX4, WaitView(Some(2)), 3);
    EveryoneMoved(m, s, RX4, WaitView(Some(2)).(closes := 1), pcs, 3, CloseCall, [Idle, Waiting(RX4), OpenWaiting, CloseCall, Idle]);
  }

  /** A receive waits for a datagram, a second Open waits for the receive, and a Close waits behind the
      Open. Without the kernel the bind is never closed, and none of the three returns. */
  lemma CloseLeftWaiting() returns (s: State)
    ensures s.Valid() && Reachable(s) && s.isOpen == 1 && Frozen(s, 2, 1, RX4) && s.Pc(3) == CloseCall
    ensures forall run :: NoKernel(run) && After(s, run).Some? ==>
              && After(s, run).value.isOpen == 1 && After(s, run).value.Pc(1) == Waiting(RX4)
              && After(s, run).value.Pc(2) == OpenWaiting && After(s, run).value.Pc(3) == CloseCall
  {
    s := OpenAnnounced();
    hide After, Inv, Reachable;
    ReachedInv(s, 1);
    assert Frozen(s, 2, 1, RX4);
    hide Everyone, At;
    forall run | NoKernel(run) && After(s, run).Some?
      ensures After(s, run).value.isOpen == 1 && After(s, run).value.Pc(1) == Waiting(RX4)
      ensures After(s, run).value.Pc(2) == OpenWaiting && After(s, run).value.Pc(3) == CloseCall
    {
      FrozenForever(s, 2, 1, RX4, run);
      CloseKeptOut(s, 2, 1, RX4, 3, run);
    }
  }

  lemma {:induction false} CloseKeptOut(s: State, o: Tid, u: Tid, p: PortId, c: Tid, run: seq<(Tid, Action)>)
    requires Inv(s) && s.Valid() && Frozen(s, o, u, p) && After(s, run).Some? && NoKernel(run) && s.Pc(c) == CloseCall
    ensures After(s, run).value.Pc(c) == CloseCall
  {
    hide Inv, Do, Kernel;
    if |run| > 0 {
      var n := |run| - 1;
      var m := AfterLast(s, run);
      assert NoKernel(run[..n]);
      CloseKeptOut(s, o, u, p, c, run[..n]);
      FrozenForever(s, o, u, p, run[..n]);
      KeptOutStep(m, c, run[n].0, run[n].1);
    }
  }

  // ---------------------------------------------------------------- the wrong call tears down

  /** Thread `t` is in an Open that is refused: it tears the bind down. */
  lemma {:induction false} IsRefused(s: State, p: PortId, v: View, t: Tid) returns (s': State)
    requires At(s, p, v, t, Idle) && v.isOpen != 0 && v.readers == {} && v.writer == None
    ensures At(s', p, CLOSED.(closes := v.closes), t, Idle) && Only(s, s', t)
  {
    hide At, Only, NextPc, Shadow, Shown;
    OnlySelf(s, t);
    var w, o := v.(writer := Some(t)), CLOSED.(writer := Some(t), closes := v.closes);
    s' := WantsWrite(s, s, p, v, t);
    OpenNext(w, p);
    s' := Still(s, s', p, w, t, OpenWaiting, WriteLock, OpenHeld);
    ShownTears(w, p, t, OpenHeld);
    s' := Next(s, s', p, w, t, OpenHeld, OpenRefused, o, WriteDone);
    OpenNext(o, p);
    ShownWriter(o, p, t, WriteDone);
    s' := Next(s, s', p, o, t, WriteDone, WriteUnlock, CLOSED.(closes := v.closes), Idle);
  }

  /** An open bind, and a second Open that tears it down instead of leaving it alone. */
  lemma RefusedOpenCloses() returns (s: State, s': State)
    ensures s.Valid() && Reached(s, 0) && s.isOpen == 1 && s.live && s'.Valid() && Reached(s', 0) && s'.isOpen == 0 && !s'.live
    ensures Only(s, s', 0) && s.Pc(0) == Idle && s'.Pc(0) == Idle
  {
    s := OpenedScene(TX4);
    s' := IsRefused(s, TX4, OpenView(0), 0);
    hide Reached;
  }

  // Two closes have both read that the bind is open, and both have posted.
  lemma TwoCloses() returns (s: State)
    ensures Everyone(s, [Idle, CloseWant, CloseWant, Idle, Idle])
    ensures At(s, RX4, Posted(Posted(OpenView(PACKETS_PER_RING))).(isOpen := 2, closes := 2), 1, CloseWant)
  {
    hide At, Only, Everyone, Posted;
    var v := OpenView(PACKETS_PER_RING);
    var m := OpenedScene(RX4);
    OnlySelf(m, 1);
    s := CloseReads(m, m, RX4, v, 1);
    var pcs := [Idle, CloseChecked, Idle, Idle, Idle];
    assert {} + {1} == {1} && {1} + {2} == {1, 2};
    var one, two := v.(readers := {1}, closes := 1), v.(readers := {1, 2}, closes := 2);
    EveryoneMoved(m, s, RX4, one, [Idle, Idle, Idle, Idle, Idle], 1, CloseChecked, pcs);
    m := s;
    assert At(m, RX4, one, 2, pcs[2]);
    OnlySelf(m, 2);
    s := CloseReads(m, m, RX4, one, 2);
    var both := [Idle, CloseChecked, CloseChecked, Idle, Idle];
    EveryoneMoved(m, s, RX4, two, pcs, 2, CloseChecked, both);
    assert At(s, RX4, two, 1, both[1]);
    s := BothPost(s);
  }

  lemma BothPost(m: State) returns (s: State)
    requires Everyone(m, [Idle, CloseChecked, CloseChecked, Idle, Idle])
    requires At(m, RX4, OpenView(PACKETS_PER_RING).(readers := {1, 2}, closes := 2), 1, CloseChecked)
    ensures Everyone(s, [Idle, CloseWant, CloseWant, Idle, Idle])
    ensures At(s, RX4, Posted(Posted(OpenView(PACKETS_PER_RING))).(isOpen := 2, closes := 2), 1, CloseWant)
  {
    hide At, Only, Everyone;
    var v := OpenView(PACKETS_PER_RING).(readers := {1, 2}, closes := 2);
    assert {1, 2} - {1} == {2} && {2} - {2} == {};
    OnlySelf(m, 1);
    s := Posts(m, m, RX4, v, 1);
    var w := Posted(v).(isOpen := 2, readers := {2});
    var pcs := [Idle, CloseWant, CloseChecked, Idle, Idle];
    EveryoneMoved(m, s, RX4, w, [Idle, CloseChecked, CloseChecked, Idle, Idle], 1, CloseWant, pcs);
    var n := s;
    assert At(n, RX4, w, 2, pcs[2]);
    OnlySelf(n, 2);
    s := Posts(n, n, RX4, w, 2);
    var x := Posted(w).(isOpen := 2, readers := {});
    var last := [Idle, CloseWant, CloseWant, Idle, Idle];
    EveryoneMoved(n, s, RX4, x, pcs, 2, CloseWant, last);
    assert x == Posted(Posted(OpenView(PACKETS_PER_RING))).(isOpen := 2, closes := 2);
    assert At(s, RX4, x, 1, last[1]);
  }

  // One close has posted.
  lemma OneClose() returns (s: State)
    ensures Everyone(s, [Idle, Idle, CloseWant, Idle, Idle])
    ensures At(s, RX4, Posted(OpenView(PACKETS_PER_RING)).(isOpen := 2, closes := 1), 0, Idle)
  {
    hide At, Only, Everyone;
    var v := OpenView(PACKETS_PER_RING);
    var m := OpenedScene(RX4);
    var idle := [Idle, Idle, Idle, Idle, Idle];
    OnlySelf(m, 0);
    EveryoneMoved(m, m, RX4, v, idle, 0, Idle, idle);
    assert At(m, RX4, v, 2, idle[2]);
    OnlySelf(m, 2);
    s := CloseReads(m, m, RX4, v, 2);
    assert {} + {2} == {2} && {2} - {2} == {};
    s := Posts(m, s, RX4, v.(readers := {2}, closes := 1), 2);
    var w := Posted(v).(isOpen := 2, closes := 1);
    assert w == Posted(v.(readers := {2}, closes := 1)).(isOpen := 2, readers := {});
    var pcs := [Idle, Idle, CloseWant, Idle, Idle];
    EveryoneMoved(m, s, RX4, w, idle, 2, CloseWant, pcs);
    assert At(s, RX4, w, 0, pcs[0]);
  }

  // A bind that was closed and opened again by thread 0, while the close of thread 2 is pending.
  lemma OpensAgain(m: State, closes: nat) returns (s: State)
    requires Everyone(m, [Idle, Idle, CloseWant, Idle, Idle]) && At(m, RX4, CLOSED.(closes := closes), 0, Idle)
    ensures Everyone(s, [Idle, Idle, CloseWant, Idle, Idle]) && At(s, RX4, OpenView(PACKETS_PER_RING).(closes := closes), 2, CloseWant)
  {
    hide At, Only, Everyone;
    var pcs := [Idle, Idle, CloseWant, Idle, Idle];
    s := Opens(m, RX4, CLOSED.(closes := closes), 0);
    EveryoneMoved(m, s, RX4, OpenView(PACKETS_PER_RING).(closes := closes), pcs, 0, Idle, pcs);
    assert At(s, RX4, OpenView(PACKETS_PER_RING).(closes := closes), 2, pcs[2]);
  }

  /** Of two closes the second tears down a bind that was opened again after the first. */
  lemma SecondCloseTearsDown() returns (s: State, s': State)
    ensures s.Valid() && Reached(s, 2) && s.isOpen == 1 && s.live && s.Pc(2) == CloseWant && (forall t: Tid :: t != 2 ==> s.Pc(t) == Idle)
    ensures s'.Valid() && Reached(s', 2) && s'.isOpen == 0 && !s'.live && Only(s, s', 2) && s'.Pc(2) == Idle
  {
    s := SecondReopened();
    s' := PendingTears(s, 2);
    hide Reached;
  }

  lemma SecondReopened() returns (s: State)
    ensures Everyone(s, [Idle, Idle, CloseWant, Idle, Idle]) && At(s, RX4, OpenView(PACKETS_PER_RING).(closes := 2), 2, CloseWant)
  {
    hide At, Only, Everyone;
    var m := TwoCloses();
    var v := Posted(Posted(OpenView(PACKETS_PER_RING))).(isOpen := 2, closes := 2);
    OnlySelf(m, 1);
    s := Announces(m, m, RX4, v, 1);
    s := TearsDown(m, s, RX4, v.(writer := Some(1)), 1);
    var pcs := [Idle, Idle, CloseWant, Idle, Idle];
    EveryoneMoved(m, s, RX4, CLOSED.(closes := 2), [Idle, CloseWant, CloseWant, Idle, Idle], 1, Idle, pcs);
    assert At(s, RX4, CLOSED.(closes := 2), 0, pcs[0]);
    s := OpensAgain(s, 2);
  }

  /** In a run with a single Close the same happens: an Open is refused and tears down what is being closed,
      the next one succeeds, and then the Close tears its bind down. */
  lemma PendingCloseTearsDown() returns (s: State, s': State)
    ensures s.Valid() && Reached(s, 1) && s.isOpen == 1 && s.live && s.Pc(2) == CloseWant && (forall t: Tid :: t != 2 ==> s.Pc(t) == Idle)
    ensures s'.Valid() && Reached(s', 1) && s'.isOpen == 0 && !s'.live && Only(s, s', 2) && s'.Pc(2) == Idle
  {
    s := PendingReopened();
    s' := PendingTears(s, 1);
    hide Reached;
  }

  lemma PendingReopened() returns (s: State)
    ensures Everyone(s, [Idle, Idle, CloseWant, Idle, Idle]) && At(s, RX4, OpenView(PACKETS_PER_RING).(closes := 1), 2, CloseWant)
  {
    hide At, Only, Everyone;
    var m := OneClose();
    var pcs := [Idle, Idle, CloseWant, Idle, Idle];
    s := IsRefused(m, RX4, Posted(OpenView(PACKETS_PER_RING)).(isOpen := 2, closes := 1), 0);
    EveryoneMoved(m, s, RX4, CLOSED.(closes := 1), pcs, 0, Idle, pcs);
    assert At(s, RX4, CLOSED.(closes := 1), 0, pcs[0]);
    s := OpensAgain(s, 1);
  }

  lemma PendingTears(s: State, closes: nat) returns (s': State)
    requires At(s, RX4, OpenView(PACKETS_PER_RING).(closes := closes), 2, CloseWant)
    ensures At(s', RX4, CLOSED.(closes := closes), 2, Idle) && Only(s, s', 2)
  {
    hide At, Only;
    OnlySelf(s, 2);
    var v := OpenView(PACKETS_PER_RING).(closes := closes);
    s' := Announces(s, s, RX4, v, 2);
    s' := TearsDown(s, s', RX4, v.(writer := Some(2)), 2);
  }
}
