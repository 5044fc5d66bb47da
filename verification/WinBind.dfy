/** The open/close protocol of WinRingBind as interleaved steps of any number of threads.

    A step is what one thread does between two points where others may run: an atomic load or store,
    a lock operation, a call into the kernel. Choices of the kernel are part of the action.

    The lock is Go's RWMutex: a writer first announces itself, which keeps new readers out, and then
    waits for the readers that are in. */
module WinBind {
  import opened Bytes

  type Tid = nat

  // The completion port of one ring, with the mutex that guards the ring.
  datatype PortId = PortId(v6: bool, tx: bool)

  /** `used` slots of the ring are outstanding, the requests of `done` of them have completed and wait
      in the completion queue; `pending` counts the entries of the completion port. */
  datatype Port = Port(mu: Option<Tid>, pending: nat, posted: bool, used: nat, done: nat)

  const RECEIVE_SPINS: nat := 15
  const PACKETS_PER_RING: nat := 256

  datatype Pc =
    | Idle
    | Checked(p: PortId)              // a receive that read isOpen == 1 and wants the read lock
    | SendWant(p: PortId)             // a send that wants the read lock
    | Locked(p: PortId)               // holds the read lock, about to check isOpen
    | Queued(p: PortId)               // past the check, about to lock the ring
    | Spin(p: PortId, tries: nat)     // holds the ring; a receive about to check isOpen again
    | Poll(p: PortId, tries: nat)     // about to dequeue completions
    | Notifying(p: PortId)            // about to ask for a notification
    | Waiting(p: PortId)              // blocked on the completion port
    | Woken(p: PortId)                // about to check isOpen
    | Awake(p: PortId)                // about to dequeue after a wake-up
    | OnRing(p: PortId)               // about to hand out a ring slot
    | Retry(p: PortId)                // a receive about to start over
    | Unlocking(p: PortId, ok: bool)  // about to unlock the ring
    | More(p: PortId)                 // a send that may go on with its next buffer
    | Done(p: PortId)                 // about to release the read lock
    | CloseCall                       // a close that wants the read lock
    | CloseLocked                     // holds the read lock, about to check isOpen
    | CloseChecked                    // about to store 2
    | ClosePosting(k: nat)            // about to post to the k-th port
    | CloseUnlocking
    | CloseWant                       // about to announce itself as a writer
    | CloseWaiting                    // announced, waits for the readers
    | CloseHeld                       // holds the write lock, about to tear down
    | OpenWant
    | OpenWaiting
    | OpenHeld
    | WriteDone                       // about to release the write lock

  datatype State = State(isOpen: nat, live: bool, readers: set<Tid>, writer: Option<Tid>,
                         ports: map<PortId, Port>, pcs: map<Tid, Pc>)
  {
    ghost predicate Valid() { forall p: PortId :: p in ports }

    function Pc(t: Tid): Pc { if t in pcs then pcs[t] else Idle }

    function Go(t: Tid, pc: Pc): State { this.(pcs := pcs[t := pc]) }
  }

  /** The ports with this many slots outstanding in each receive ring. */
  function FreshPorts(preposted: nat): map<PortId, Port> {
    map[PortId(false, false) := Port(None, 0, false, preposted, 0), PortId(false, true) := Port(None, 0, false, 0, 0),
        PortId(true, false) := Port(None, 0, false, preposted, 0), PortId(true, true) := Port(None, 0, false, 0, 0)]
  }

  const INITIAL: State := State(0, false, {}, None, FreshPorts(0), map[])

  // The order in which Close posts.
  function PostTarget(k: nat): PortId { PortId(k >= 2, k % 2 == 1) }

  datatype RingResult = Again | Fails | Succeeds

  datatype Action =
    // receives and sends
    | BeginReceive(p: PortId) | BeginSend(p: PortId)
    | ReadLock | Check | LockRing | Dequeue | SpinCheck | NotifyResult(ok: bool) | Wake | WokenCheck | AwakeDequeue
    | RingStep(result: RingResult) | RetryCheck | UnlockRing | NextBuffer | ReadUnlock
    // the kernel
    | KernelCompletes(p: PortId) | KernelNotifies(p: PortId) | WaitBreaks
    // opens and closes
    | BeginClose | BeginOpen | CloseReadLock | CloseCheck | CloseRefused | CloseStore | ClosePost | CloseReadUnlock
    | Announce | WriteLock | CloseTeardown | OpenRefused | OpenFails | OpenSucceeds | WriteUnlock

  predicate Admin(a: Action) {
    || a.BeginClose? || a.BeginOpen? || a.CloseReadLock? || a.CloseCheck? || a.CloseRefused? || a.CloseStore? || a.ClosePost?
    || a.CloseReadUnlock? || a.Announce? || a.WriteLock? || a.CloseTeardown? || a.OpenRefused? || a.OpenFails? || a.OpenSucceeds?
    || a.WriteUnlock?
  }

  predicate Kernel(a: Action) { a.KernelCompletes? || a.KernelNotifies? || a.WaitBreaks? }

  function When(c: bool, pc: Pc): Option<Pc> { if c then Some(pc) else None }

  /** A send waits only for a full ring with nothing to take back; a receive whenever nothing completed. */
  predicate MustWait(p: PortId, q: Port) { q.done == 0 && (p.tx ==> q.used >= PACKETS_PER_RING) }

  /** Taking completed requests back: all of them for a send, one for a receive. */
  function TakeBack(p: PortId, q: Port): Port {
    var n := if p.tx then q.done else Min(q.done, 1);
    q.(used := if q.used >= n then q.used - n else 0, done := q.done - n)
  }

  /** Where a step of a receive or a send takes its program counter, if it can be taken. */
  function NextUser(s: State, pc: Pc, a: Action): Option<Pc>
    requires s.Valid()
  {
    var open := s.isOpen == 1;
    match a
    case BeginReceive(p) => When(pc == Idle && !p.tx && open, Checked(p))
    case BeginSend(p) => When(pc == Idle && p.tx, SendWant(p))
    case ReadLock => if pc.Checked? || pc.SendWant? then When(s.writer == None, Locked(pc.p)) else None
    case Check => if pc.Locked? then Some(if open then Queued(pc.p) else Done(pc.p)) else None
    case LockRing => if pc.Queued? then When(s.ports[pc.p].mu == None, Poll(pc.p, 0)) else None
    case Dequeue =>
      if !pc.Poll? then None
      else if !MustWait(pc.p, s.ports[pc.p]) then Some(OnRing(pc.p))
      else if pc.p.tx || pc.tries + 1 >= RECEIVE_SPINS then Some(Notifying(pc.p))
      else Some(Spin(pc.p, pc.tries + 1))
    case SpinCheck => if pc.Spin? then Some(if open then Poll(pc.p, pc.tries) else Unlocking(pc.p, false)) else None
    case NotifyResult(ok) => if pc.Notifying? then Some(if ok then Waiting(pc.p) else Unlocking(pc.p, false)) else None
    case Wake => if pc.Waiting? then When(s.ports[pc.p].pending > 0, Woken(pc.p)) else None
    case WokenCheck => if pc.Woken? then Some(if open then Awake(pc.p) else Unlocking(pc.p, false)) else None
    case AwakeDequeue => if pc.Awake? then Some(if s.ports[pc.p].done > 0 then OnRing(pc.p) else Unlocking(pc.p, false)) else None
    case RingStep(result) =>
      if pc.OnRing? then
        (if result.Again? then When(!pc.p.tx, Retry(pc.p)) else Some(Unlocking(pc.p, result.Succeeds?)))
      else None
    case RetryCheck => if pc.Retry? then Some(if open then Poll(pc.p, 0) else Unlocking(pc.p, false)) else None
    case UnlockRing => if pc.Unlocking? then Some(if pc.ok && pc.p.tx then More(pc.p) else Done(pc.p)) else None
    case NextBuffer => if pc.More? then Some(Locked(pc.p)) else None
    case ReadUnlock => When(pc.Done? || pc.More?, Idle)
    case KernelCompletes(p) => When(s.live && s.ports[p].done < s.ports[p].used, pc)
    case KernelNotifies(p) => When(s.live && s.ports[p].done > 0, pc)
    case WaitBreaks => if pc.Waiting? then Some(Unlocking(pc.p, false)) else None
    case _ => None
  }

  /** The same for a close or an open. */
  function NextAdmin(s: State, pc: Pc, a: Action): Option<Pc> {
    match a
    case BeginClose => When(pc == Idle, CloseCall)
    case BeginOpen => When(pc == Idle, OpenWant)
    case CloseReadLock => When(pc == CloseCall && s.writer == None, CloseLocked)
    case CloseCheck => When(pc == CloseLocked && s.isOpen == 1, CloseChecked)
    case CloseRefused => When(pc == CloseLocked && s.isOpen != 1, Idle)
    case CloseStore => When(pc == CloseChecked, ClosePosting(0))
    case ClosePost =>
      if pc.ClosePosting? && pc.k < 4 then Some(if pc.k == 3 then CloseUnlocking else ClosePosting(pc.k + 1)) else None
    case CloseReadUnlock => When(pc == CloseUnlocking, CloseWant)
    case Announce =>
      if s.writer != None then None else if pc == CloseWant then Some(CloseWaiting) else When(pc == OpenWant, OpenWaiting)
    case WriteLock =>
      if s.readers != {} then None else if pc == CloseWaiting then Some(CloseHeld) else When(pc == OpenWaiting, OpenHeld)
    case CloseTeardown => When(pc == CloseHeld, WriteDone)
    case OpenRefused => When(pc == OpenHeld && s.isOpen != 0, WriteDone)
    case OpenFails => When(pc == OpenHeld && s.isOpen == 0, WriteDone)
    case OpenSucceeds => When(pc == OpenHeld && s.isOpen == 0, WriteDone)
    case WriteUnlock => When(pc == WriteDone, Idle)
    case _ => None
  }

  function NextPc(s: State, pc: Pc, a: Action): Option<Pc>
    requires s.Valid()
  {
    if Admin(a) then NextAdmin(s, pc, a) else NextUser(s, pc, a)
  }

  /** The steps that replace the rings; they are taken with the write lock. */
  predicate Tears(a: Action) { a.CloseTeardown? || a.OpenRefused? || a.OpenFails? || a.OpenSucceeds? }

  predicate TakesRead(a: Action) { a.ReadLock? || a.CloseReadLock? }

  predicate DropsRead(a: Action) { a.ReadUnlock? || a.CloseRefused? || a.CloseReadUnlock? }

  /** The port a step works on. */
  function PortOf(pc: Pc, a: Action): PortId {
    if a.KernelCompletes? || a.KernelNotifies? then a.p
    else if pc.ClosePosting? then PostTarget(pc.k)
    else if HoldsRing(pc) || pc.Queued? then pc.p
    else PostTarget(0)
  }

  /** What it does there. */
  function RingEffect(t: Tid, p: PortId, q: Port, a: Action): Port {
    match a
    case LockRing => q.(mu := Some(t))
    case UnlockRing => q.(mu := None)
    case Dequeue => TakeBack(p, q)
    case AwakeDequeue => TakeBack(p, q)
    case RingStep(_) => q.(used := q.used + 1)
    case Wake => q.(pending := if q.pending > 0 then q.pending - 1 else 0)
    case ClosePost => q.(pending := q.pending + 1, posted := true)
    case KernelCompletes(_) => q.(done := q.done + 1)
    case KernelNotifies(_) => q.(pending := q.pending + 1)
    case _ => q
  }

  /** A close stores 2, an open that succeeds 1, and closeAndZero 0. */
  function OpenAfter(s: State, a: Action): nat {
    if a.CloseStore? then 2 else if a.OpenSucceeds? then 1 else if Tears(a) then 0 else s.isOpen
  }

  function LiveAfter(s: State, a: Action): bool { if Tears(a) then a.OpenSucceeds? else s.live }

  function ReadersAfter(s: State, t: Tid, a: Action): set<Tid> {
    if TakesRead(a) then s.readers + {t} else if DropsRead(a) then s.readers - {t} else s.readers
  }

  function WriterAfter(s: State, t: Tid, a: Action): Option<Tid> {
    if a.Announce? then Some(t) else if a.WriteUnlock? then None else s.writer
  }

  function PortsAfter(s: State, t: Tid, pc: Pc, a: Action): map<PortId, Port>
    requires s.Valid()
  {
    if Tears(a) then FreshPorts(if a.OpenSucceeds? then PACKETS_PER_RING else 0)
    else
      var p := PortOf(pc, a);
      s.ports[p := RingEffect(t, p, s.ports[p], a)]
  }

  /** What a step does to the shared state. */
  function Share(s: State, t: Tid, pc: Pc, a: Action): State
    requires s.Valid()
  {
    State(OpenAfter(s, a), LiveAfter(s, a), ReadersAfter(s, t, a), WriterAfter(s, t, a), PortsAfter(s, t, pc, a), s.pcs)
  }

  /** One step of thread `t`, if it can take it. */
  function Do(s: State, t: Tid, a: Action): Option<State>
    requires s.Valid()
  {
    match NextPc(s, s.Pc(t), a)
    case None => None
    case Some(pc) => Some(Share(s, t, s.Pc(t), a).Go(t, pc))
  }

  lemma FreshPortsAll(n: nat)
    ensures forall p: PortId :: p in FreshPorts(n) && FreshPorts(n)[p] == Port(None, 0, false, if p.tx then 0 else n, 0)
  {
    forall p: PortId ensures p in FreshPorts(n) && FreshPorts(n)[p] == Port(None, 0, false, if p.tx then 0 else n, 0) {
      assert p == PortId(p.v6, p.tx);
      assert p.v6 == true || p.v6 == false;
      assert p.tx == true || p.tx == false;
    }
  }

  lemma StaysValid(s: State, t: Tid, a: Action)
    requires s.Valid()
    ensures Do(s, t, a).Some? ==> Do(s, t, a).value.Valid()
  {
    FreshPortsAll(0);
    FreshPortsAll(PACKETS_PER_RING);
    hide FreshPorts, NextPc, RingEffect, PortOf, OpenAfter, LiveAfter, ReadersAfter, WriterAfter;
  }

  lemma PortAfter(s: State, t: Tid, pc: Pc, a: Action, p: PortId)
    requires s.Valid()
    ensures p in Share(s, t, pc, a).ports
    ensures Tears(a) ==> Share(s, t, pc, a).ports[p] == Port(None, 0, false, if a.OpenSucceeds? && !p.tx then PACKETS_PER_RING else 0, 0)
    ensures !Tears(a) ==> Share(s, t, pc, a).ports[p] == if p == PortOf(pc, a) then RingEffect(t, p, s.ports[p], a) else s.ports[p]
  {
    FreshPortsAll(0);
    FreshPortsAll(PACKETS_PER_RING);
    hide FreshPorts, RingEffect, PortOf;
  }

  // ---------------------------------------------------------------- invariants

  predicate HoldsRing(pc: Pc) {
    pc.Spin? || pc.Poll? || pc.Notifying? || pc.Waiting? || pc.Woken? || pc.Awake? || pc.OnRing? || pc.Retry? || pc.Unlocking?
  }

  predicate HoldsRead(pc: Pc) {
    || HoldsRing(pc) || pc.Locked? || pc.Queued? || pc.More? || pc.Done?
    || pc.CloseLocked? || pc.CloseChecked? || pc.ClosePosting? || pc.CloseUnlocking?
  }

  predicate HoldsWrite(pc: Pc) { pc.CloseHeld? || pc.OpenHeld? || pc.WriteDone? }

  predicate Announced(pc: Pc) { HoldsWrite(pc) || pc.CloseWaiting? || pc.OpenWaiting? }

  /** Past its check that the bind is open: such a thread uses rings, queues or ports. */
  predicate Inside(pc: Pc) { HoldsRing(pc) || pc.Queued? || pc.CloseChecked? || pc.ClosePosting? }

  /** A receive that read isOpen as 1 and does not look again before it waits. */
  predicate WillWait(pc: Pc) {
    (pc.Poll? && !pc.p.tx && pc.tries + 1 >= RECEIVE_SPINS) || (pc.Notifying? && !pc.p.tx) || (pc.Waiting? && !pc.p.tx)
  }

  ghost predicate LiveInv(s: State, pc: Pc) {
    && (Inside(pc) ==> s.live)
    && (pc.CloseChecked? ==> s.isOpen > 0)
    && (pc.ClosePosting? ==> s.isOpen == 2 && pc.k < 4)
    && (pc.Checked? || pc.Spin? || pc.Retry? ==> !pc.p.tx)
    && (pc.SendWant? || pc.More? ==> pc.p.tx)
  }

  ghost predicate PortInv(s: State, pc: Pc)
    requires s.Valid()
  {
    && (WillWait(pc) && s.ports[pc.p].posted ==> s.ports[pc.p].pending > 0)
    && (pc.OnRing? ==> s.ports[pc.p].used < PACKETS_PER_RING)
  }

  ghost predicate ThreadInv(s: State, pc: Pc)
    requires s.Valid()
  {
    LiveInv(s, pc) && PortInv(s, pc)
  }

  // A step is a move of the program counter and a change of the shared state.
  lemma DoIs(s: State, t: Tid, a: Action)
    requires s.Valid() && Do(s, t, a).Some?
    ensures NextPc(s, s.Pc(t), a).Some?
    ensures var s', m := Do(s, t, a).value, Share(s, t, s.Pc(t), a);
            && s'.Pc(t) == NextPc(s, s.Pc(t), a).value && s'.pcs == s.pcs[t := s'.Pc(t)]
            && s'.isOpen == m.isOpen && s'.live == m.live && s'.readers == m.readers && s'.writer == m.writer && s'.ports == m.ports
  {
    hide NextPc, PortsAfter, OpenAfter, LiveAfter, ReadersAfter, WriterAfter;
    var s' := Do(s, t, a).value;
    assert s'.pcs[t] == s'.Pc(t);
  }

  // Nobody else's program counter moves.
  lemma OthersStay(s: State, t: Tid, a: Action, u: Tid)
    requires s.Valid() && Do(s, t, a).Some? && u != t
    ensures Do(s, t, a).value.Pc(u) == s.Pc(u)
  {
    DoIs(s, t, a);
    hide Do, NextPc, Share;
  }

  // From where the steps that change shared state start.
  lemma EnabledUser(s: State, pc: Pc, a: Action)
    requires s.Valid() && NextUser(s, pc, a).Some?
    ensures a.ReadLock? ==> s.writer == None
    ensures a.LockRing? ==> pc.Queued? && s.ports[pc.p].mu == None
    ensures a.UnlockRing? ==> pc.Unlocking?
    ensures a.Dequeue? ==> pc.Poll?
    ensures a.AwakeDequeue? ==> pc.Awake?
    ensures a.RingStep? ==> pc.OnRing?
    ensures a.Wake? ==> pc.Waiting? && s.ports[pc.p].pending > 0
    ensures a.KernelCompletes? ==> s.ports[a.p].done < s.ports[a.p].used
  {
    hide MustWait;
  }

  lemma EnabledAdmin(s: State, pc: Pc, a: Action)
    requires NextAdmin(s, pc, a).Some?
    ensures a.Announce? || a.CloseReadLock? ==> s.writer == None
    ensures a.WriteLock? ==> s.readers == {}
    ensures a.WriteUnlock? || Tears(a) ==> HoldsWrite(pc)
    ensures a.CloseStore? ==> pc.CloseChecked?
    ensures a.ClosePost? ==> pc.ClosePosting? && pc.k < 4
    ensures a.OpenSucceeds? ==> s.isOpen == 0
  {
  }

  lemma Enabled(s: State, pc: Pc, a: Action)
    requires s.Valid() && NextPc(s, pc, a).Some?
    ensures a.Announce? || TakesRead(a) ==> s.writer == None
    ensures a.WriteLock? ==> s.readers == {}
    ensures a.WriteUnlock? || Tears(a) ==> HoldsWrite(pc)
    ensures a.LockRing? ==> pc.Queued? && s.ports[pc.p].mu == None
    ensures a.UnlockRing? ==> pc.Unlocking?
    ensures a.Dequeue? ==> pc.Poll?
    ensures a.AwakeDequeue? ==> pc.Awake?
    ensures a.RingStep? ==> pc.OnRing?
    ensures a.Wake? ==> pc.Waiting? && s.ports[pc.p].pending > 0
    ensures a.CloseStore? ==> pc.CloseChecked?
    ensures a.ClosePost? ==> pc.ClosePosting? && pc.k < 4
    ensures a.OpenSucceeds? ==> s.isOpen == 0
    ensures a.KernelCompletes? ==> s.ports[a.p].done < s.ports[a.p].used
  {
    hide NextUser, NextAdmin;
    if Admin(a) { EnabledAdmin(s, pc, a); } else { EnabledUser(s, pc, a); }
  }

  /** How the program counter moves between the lock states. */
  predicate ReadMove(pc: Pc, pc': Pc, a: Action) {
    && (TakesRead(a) ==> !HoldsRead(pc) && HoldsRead(pc'))
    && (DropsRead(a) ==> HoldsRead(pc) && !HoldsRead(pc'))
    && (!TakesRead(a) && !DropsRead(a) ==> HoldsRead(pc) == HoldsRead(pc'))
  }

  predicate WriteMove(pc: Pc, pc': Pc, a: Action) {
    && (a.Announce? ==> !Announced(pc) && Announced(pc') && !HoldsWrite(pc'))
    && (a.WriteUnlock? ==> HoldsWrite(pc) && !Announced(pc'))
    && (!a.Announce? && !a.WriteUnlock? ==> Announced(pc) == Announced(pc'))
    && (HoldsWrite(pc') ==> HoldsWrite(pc) || a.WriteLock?)
  }

  // The steps that take or give back the read lock, and the others.
  lemma UserTakes(s: State, pc: Pc, a: Action)
    requires s.Valid() && NextUser(s, pc, a).Some? && (TakesRead(a) || DropsRead(a))
    ensures ReadMove(pc, NextUser(s, pc, a).value, a)
  {
    hide State.Valid, MustWait;
  }

  lemma UserKeeps(s: State, pc: Pc, a: Action)
    requires s.Valid() && NextUser(s, pc, a).Some? && !TakesRead(a) && !DropsRead(a)
    ensures ReadMove(pc, NextUser(s, pc, a).value, a)
  {
    hide State.Valid, MustWait;
  }

  lemma UserReads(s: State, pc: Pc, a: Action)
    requires s.Valid() && NextUser(s, pc, a).Some?
    ensures ReadMove(pc, NextUser(s, pc, a).value, a)
  {
    hide NextUser, ReadMove, TakesRead, DropsRead;
    if TakesRead(a) || DropsRead(a) { UserTakes(s, pc, a); } else { UserKeeps(s, pc, a); }
  }

  // A receive or a send is no writer.
  lemma WriterNoUser(s: State, pc: Pc, a: Action)
    requires s.Valid() && NextUser(s, pc, a).Some? && Announced(pc)
    ensures NextUser(s, pc, a).value == pc
  {
    hide State.Valid, MustWait;
  }

  lemma UserNoWriter(s: State, pc: Pc, a: Action)
    requires s.Valid() && NextUser(s, pc, a).Some? && Announced(NextUser(s, pc, a).value)
    ensures NextUser(s, pc, a).value == pc
  {
    hide State.Valid, MustWait;
  }

  lemma UserActions(s: State, pc: Pc, a: Action)
    requires s.Valid() && NextUser(s, pc, a).Some?
    ensures !Admin(a)
  {
    hide State.Valid, MustWait;
  }

  lemma UserWrites(s: State, pc: Pc, a: Action)
    requires s.Valid() && NextUser(s, pc, a).Some?
    ensures WriteMove(pc, NextUser(s, pc, a).value, a)
  {
    hide NextUser;
    UserActions(s, pc, a);
    if Announced(pc) { WriterNoUser(s, pc, a); } else if Announced(NextUser(s, pc, a).value) { UserNoWriter(s, pc, a); }
  }

  lemma AdminTakes(s: State, pc: Pc, a: Action)
    requires NextAdmin(s, pc, a).Some? && (TakesRead(a) || DropsRead(a))
    ensures ReadMove(pc, NextAdmin(s, pc, a).value, a)
  {
  }

  lemma AdminKeeps(s: State, pc: Pc, a: Action)
    requires NextAdmin(s, pc, a).Some? && !TakesRead(a) && !DropsRead(a)
    ensures ReadMove(pc, NextAdmin(s, pc, a).value, a)
  {
  }

  lemma AdminReads(s: State, pc: Pc, a: Action)
    requires NextAdmin(s, pc, a).Some?
    ensures ReadMove(pc, NextAdmin(s, pc, a).value, a)
  {
    hide NextAdmin, ReadMove, TakesRead, DropsRead;
    if TakesRead(a) || DropsRead(a) { AdminTakes(s, pc, a); } else { AdminKeeps(s, pc, a); }
  }

  lemma AdminWrites(s: State, pc: Pc, a: Action)
    requires NextAdmin(s, pc, a).Some?
    ensures WriteMove(pc, NextAdmin(s, pc, a).value, a)
  {
  }

  lemma PcLocks(s: State, pc: Pc, a: Action)
    requires s.Valid() && NextPc(s, pc, a).Some?
    ensures ReadMove(pc, NextPc(s, pc, a).value, a) && WriteMove(pc, NextPc(s, pc, a).value, a)
  {
    hide NextUser, NextAdmin, ReadMove, WriteMove;
    if Admin(a) { AdminReads(s, pc, a); AdminWrites(s, pc, a); } else { UserReads(s, pc, a); UserWrites(s, pc, a); }
  }

  ghost predicate ReadersOk(s: State) { forall u: Tid :: u in s.readers <==> HoldsRead(s.Pc(u)) }

  /** One writer at a time has announced itself; it holds the lock only once the readers are gone. */
  ghost predicate WriterOk(s: State) {
    && (forall u: Tid :: s.writer == Some(u) <==> Announced(s.Pc(u)))
    && (forall u: Tid :: HoldsWrite(s.Pc(u)) ==> s.readers == {})
  }

  ghost predicate RingsOk(s: State)
    requires s.Valid()
  {
    forall p: PortId, u: Tid :: s.ports[p].mu == Some(u) <==> HoldsRing(s.Pc(u)) && s.Pc(u).p == p
  }

  ghost predicate ThreadsOk(s: State)
    requires s.Valid()
  {
    forall u: Tid :: ThreadInv(s, s.Pc(u))
  }

  ghost predicate PortsOk(s: State)
    requires s.Valid()
  {
    forall p: PortId :: s.ports[p].done <= s.ports[p].used <= PACKETS_PER_RING && (s.ports[p].posted ==> s.isOpen == 2)
  }

  ghost predicate Inv(s: State) {
    && s.Valid()
    && s.isOpen <= 2 && (s.isOpen > 0 ==> s.live)
    && ReadersOk(s) && WriterOk(s) && RingsOk(s) && ThreadsOk(s) && PortsOk(s)
  }

  lemma InitialInv()
    ensures Inv(INITIAL)
  {
    FreshPortsAll(0);
  }

  // What the invariant says about one thread, and about one ring.
  lemma InvThread(s: State, u: Tid)
    requires Inv(s)
    ensures s.Valid() && ThreadInv(s, s.Pc(u)) && (u in s.readers <==> HoldsRead(s.Pc(u)))
    ensures (s.writer == Some(u) <==> Announced(s.Pc(u))) && (HoldsWrite(s.Pc(u)) ==> s.readers == {})
  {
    hide ThreadInv, HoldsRead, HoldsWrite, Announced, RingsOk, PortsOk;
  }

  lemma InvRing(s: State, u: Tid, p: PortId)
    requires Inv(s)
    ensures s.Valid() && (s.ports[p].mu == Some(u) <==> HoldsRing(s.Pc(u)) && s.Pc(u).p == p)
    ensures s.ports[p].done <= s.ports[p].used <= PACKETS_PER_RING && (s.ports[p].posted ==> s.isOpen == 2)
  {
    hide ThreadsOk, ReadersOk, WriterOk, HoldsRing;
  }

  lemma ReadersStep(s: State, t: Tid, a: Action)
    requires Inv(s) && Do(s, t, a).Some?
    ensures ReadersOk(Do(s, t, a).value)
  {
    assert t in s.readers <==> HoldsRead(s.Pc(t));
    DoIs(s, t, a);
    PcLocks(s, s.Pc(t), a);
    hide Do, NextPc, PortsAfter, ThreadsOk, RingsOk, HoldsRead, WriterOk, PortsOk, Announced, HoldsWrite;
    var s' := Do(s, t, a).value;
    forall u: Tid ensures u in s'.readers <==> HoldsRead(s'.Pc(u)) {
      if u != t {
        OthersStay(s, t, a, u);
        assert u in s'.readers <==> u in s.readers;
      }
    }
  }

  lemma LocksAfter(s: State, t: Tid, a: Action)
    requires s.Valid() && Do(s, t, a).Some?
    ensures Do(s, t, a).value.readers == ReadersAfter(s, t, a) && Do(s, t, a).value.writer == WriterAfter(s, t, a)
  {
    hide Do, NextPc, PortsAfter, ReadersAfter, WriterAfter;
    DoIs(s, t, a);
  }

  lemma WriterStep(s: State, t: Tid, a: Action)
    requires Inv(s) && Do(s, t, a).Some?
    ensures WriterOk(Do(s, t, a).value)
  {
    InvThread(s, t);
    hide Inv, Do, Announced, HoldsWrite;
    var s' := Do(s, t, a).value;
    forall u: Tid
      ensures s'.writer == Some(u) <==> Announced(s'.Pc(u))
      ensures HoldsWrite(s'.Pc(u)) ==> s'.readers == {}
    {
      if u == t { OwnWriter(s, t, a); } else { OtherWriter(s, t, a, u); }
    }
  }

  lemma OwnWriter(s: State, t: Tid, a: Action)
    requires Inv(s) && Do(s, t, a).Some?
    ensures var s' := Do(s, t, a).value;
            (s'.writer == Some(t) <==> Announced(s'.Pc(t))) && (HoldsWrite(s'.Pc(t)) ==> s'.readers == {})
  {
    InvThread(s, t);
    hide Inv, State.Valid, Do, NextPc, Share, HoldsRead, ThreadInv, HoldsRing;
    DoIs(s, t, a);
    LocksAfter(s, t, a);
    Enabled(s, s.Pc(t), a);
    PcLocks(s, s.Pc(t), a);
  }

  lemma OtherWriter(s: State, t: Tid, a: Action, u: Tid)
    requires Inv(s) && Do(s, t, a).Some? && u != t
    ensures var s' := Do(s, t, a).value;
            (s'.writer == Some(u) <==> Announced(s'.Pc(u))) && (HoldsWrite(s'.Pc(u)) ==> s'.readers == {})
  {
    InvThread(s, t);
    InvThread(s, u);
    hide Inv, State.Valid, Do, NextPc, Share, HoldsRead, ThreadInv, HoldsRing, ReadMove;
    OthersStay(s, t, a, u);
    DoIs(s, t, a);
    LocksAfter(s, t, a);
    Enabled(s, s.Pc(t), a);
    PcLocks(s, s.Pc(t), a);
  }

  // A thread that holds the write lock finds no reader.
  lemma WriterAlone(s: State, t: Tid, u: Tid)
    requires Inv(s) && HoldsWrite(s.Pc(t))
    ensures !HoldsRead(s.Pc(u))
  {
    assert s.readers == {};
    assert u in s.readers <==> HoldsRead(s.Pc(u));
  }

  /** What a step of a thread without the write lock can do to a port and to the open state. */
  lemma Effect(s: State, t: Tid, a: Action, p: PortId)
    requires s.Valid() && Do(s, t, a).Some? && Do(s, t, a).value.Valid() && !HoldsWrite(s.Pc(t))
    ensures var pc, q, q' := s.Pc(t), s.ports[p], Do(s, t, a).value.ports[p];
            && PortMove(t, pc, a, p, q, q')
            && Do(s, t, a).value.live == s.live && Do(s, t, a).value.isOpen in {s.isOpen, 2}
  {
    DoIs(s, t, a);
    Enabled(s, s.Pc(t), a);
    PortAfter(s, t, s.Pc(t), a, p);
    RingMoves(t, s.Pc(t), a, p, s.ports[p]);
    hide Do, NextPc, PortsAfter, RingEffect, PortOf, PortMove;
  }

  /** What one step may do to a port and to the open state. */
  predicate PortMove(t: Tid, pc: Pc, a: Action, p: PortId, q: Port, q': Port) {
    && (q'.posted ==> q.posted || q'.pending > 0)
    && (q'.pending >= q.pending || (a == Wake && pc.Waiting? && pc.p == p))
    && (q'.mu == q.mu || (q.mu == None && q'.mu == Some(t)) || (pc.Unlocking? && pc.p == p && q'.mu == None))
    && (q'.used == q.used || (HoldsRing(pc) && pc.p == p))
  }

  lemma RingMoves(t: Tid, pc: Pc, a: Action, p: PortId, q: Port)
    requires a.LockRing? ==> pc.Queued? && (pc.p == p ==> q.mu == None)
    requires a.UnlockRing? ==> pc.Unlocking?
    requires a.Dequeue? ==> pc.Poll?
    requires a.AwakeDequeue? ==> pc.Awake?
    requires a.RingStep? ==> pc.OnRing?
    requires a.Wake? ==> pc.Waiting?
    ensures PortMove(t, pc, a, p, q, q)
    ensures p == PortOf(pc, a) ==> PortMove(t, pc, a, p, q, RingEffect(t, p, q, a))
  {
  }

  // A thread comes to hold a ring by locking it and stops by unlocking it.
  predicate HoldMove(pc: Pc, pc': Pc, a: Action) {
    && (a == LockRing ==> pc.Queued? && HoldsRing(pc') && pc'.p == pc.p)
    && (a == UnlockRing ==> pc.Unlocking? && !HoldsRing(pc'))
    && (a != LockRing && a != UnlockRing ==> HoldsRing(pc') == HoldsRing(pc) && (HoldsRing(pc) ==> pc'.p == pc.p))
  }

  lemma PcHold(s: State, pc: Pc, a: Action)
    requires s.Valid() && NextPc(s, pc, a).Some?
    ensures HoldMove(pc, NextPc(s, pc, a).value, a)
  {
    if Admin(a) { AdminHold(s, pc, a); } else { UserHold(s, pc, a); }
    hide NextUser, NextAdmin, HoldMove;
  }

  lemma UserHold(s: State, pc: Pc, a: Action)
    requires s.Valid() && NextUser(s, pc, a).Some?
    ensures HoldMove(pc, NextUser(s, pc, a).value, a)
  {
    hide State.Valid, MustWait;
  }

  /** Where a close or an open may stand. */
  predicate AdminPc(pc: Pc) {
    || pc.Idle? || pc.CloseCall? || pc.CloseLocked? || pc.CloseChecked? || pc.ClosePosting? || pc.CloseUnlocking? || pc.CloseWant?
    || pc.CloseWaiting? || pc.CloseHeld? || pc.OpenWant? || pc.OpenWaiting? || pc.OpenHeld? || pc.WriteDone?
  }

  lemma AdminPcs(s: State, pc: Pc, a: Action)
    requires NextAdmin(s, pc, a).Some?
    ensures AdminPc(pc) && AdminPc(NextAdmin(s, pc, a).value)
  {
  }

  lemma AdminActions(s: State, pc: Pc, a: Action)
    requires NextAdmin(s, pc, a).Some?
    ensures Admin(a)
  {
  }

  lemma AdminOffRings(pc: Pc)
    requires AdminPc(pc)
    ensures !HoldsRing(pc)
  {
  }

  lemma AdminHold(s: State, pc: Pc, a: Action)
    requires NextAdmin(s, pc, a).Some?
    ensures HoldMove(pc, NextAdmin(s, pc, a).value, a)
  {
    hide NextAdmin, HoldsRing;
    AdminPcs(s, pc, a);
    AdminActions(s, pc, a);
    AdminOffRings(pc);
    AdminOffRings(NextAdmin(s, pc, a).value);
  }

  lemma MutexEffect(s: State, t: Tid, a: Action, p: PortId)
    requires s.Valid() && Do(s, t, a).Some? && Do(s, t, a).value.Valid()
    ensures var pc, mu, mu' := s.Pc(t), s.ports[p].mu, Do(s, t, a).value.ports[p].mu;
            && (a == LockRing && pc.Queued? && pc.p == p ==> mu' == Some(t))
            && (a == UnlockRing && pc.Unlocking? && pc.p == p ==> mu' == None)
            && (!((a == LockRing && pc.Queued? && pc.p == p) || (a == UnlockRing && pc.Unlocking? && pc.p == p)) ==>
                  mu' == mu || (HoldsWrite(pc) && mu' == None))
  {
    hide Do, NextPc, Share, RingEffect, HoldsWrite;
    DoIs(s, t, a);
    Enabled(s, s.Pc(t), a);
    PortAfter(s, t, s.Pc(t), a, p);
    EffectOnMutex(t, p, s.ports[p], a);
  }

  lemma EffectOnMutex(t: Tid, p: PortId, q: Port, a: Action)
    ensures RingEffect(t, p, q, a).mu == if a == LockRing then Some(t) else if a == UnlockRing then None else q.mu
  {
    hide TakeBack;
    TakeBackKeeps(p, q);
  }

  lemma TakeBackKeeps(p: PortId, q: Port)
    ensures TakeBack(p, q).mu == q.mu && TakeBack(p, q).posted == q.posted && TakeBack(p, q).pending == q.pending
  {
  }

  lemma OwnRingStep(s: State, t: Tid, a: Action, p: PortId)
    requires Inv(s) && Do(s, t, a).Some? && Do(s, t, a).value.Valid()
    ensures var s' := Do(s, t, a).value; s'.ports[p].mu == Some(t) <==> HoldsRing(s'.Pc(t)) && s'.Pc(t).p == p
  {
    InvRing(s, t, p);
    InvThread(s, t);
    hide Inv, State.Valid, Do, NextPc, Share, ThreadInv;
    DoIs(s, t, a);
    PcHold(s, s.Pc(t), a);
    MutexEffect(s, t, a, p);
  }

  lemma OtherRingStep(s: State, t: Tid, a: Action, p: PortId, u: Tid)
    requires Inv(s) && Do(s, t, a).Some? && Do(s, t, a).value.Valid() && u != t
    ensures var s' := Do(s, t, a).value; s'.ports[p].mu == Some(u) <==> HoldsRing(s'.Pc(u)) && s'.Pc(u).p == p
  {
    assert s.ports[p].mu == Some(u) <==> HoldsRing(s.Pc(u)) && s.Pc(u).p == p;
    assert s.ports[p].mu == Some(t) <==> HoldsRing(s.Pc(t)) && s.Pc(t).p == p;
    if HoldsWrite(s.Pc(t)) { WriterAlone(s, t, u); }
    hide ThreadsOk, ReadersOk, WriterOk, RingsOk, PortsOk;
    OthersStay(s, t, a, u);
    DoIs(s, t, a);
    Enabled(s, s.Pc(t), a);
    MutexEffect(s, t, a, p);
    hide Do, NextPc, Share;
  }

  lemma RingsStep(s: State, t: Tid, a: Action)
    requires Inv(s) && Do(s, t, a).Some?
    ensures Do(s, t, a).value.Valid() && RingsOk(Do(s, t, a).value)
  {
    StaysValid(s, t, a);
    hide Do, ThreadsOk, ReadersOk, WriterOk, PortsOk;
    var s' := Do(s, t, a).value;
    forall p: PortId, u: Tid ensures s'.ports[p].mu == Some(u) <==> HoldsRing(s'.Pc(u)) && s'.Pc(u).p == p {
      if u == t { OwnRingStep(s, t, a, p); } else { OtherRingStep(s, t, a, p, u); }
    }
  }

  // To where a thread will wait, and whom its program counter belongs to.
  predicate WaitMove(isOpen: nat, pc: Pc, pc': Pc, a: Action) {
    && (WillWait(pc') ==> (a == SpinCheck && isOpen == 1) || (a != Wake && WillWait(pc) && pc'.p == pc.p))
    && (pc'.Checked? || pc'.Spin? || pc'.Retry? ==> !pc'.p.tx || pc' == pc)
    && (pc'.SendWant? || pc'.More? ==> pc'.p.tx || pc' == pc)
  }

  // How a thread gets past its check.
  predicate InsideMove(isOpen: nat, pc: Pc, pc': Pc, a: Action) {
    && (Inside(pc') ==> !HoldsWrite(pc) && (Inside(pc) || isOpen == 1))
    && (pc'.CloseChecked? ==> pc.CloseChecked? || isOpen == 1)
    && (pc'.ClosePosting? ==> (pc'.k < 4 || pc' == pc) && (pc.ClosePosting? || a == CloseStore))
  }

  lemma UserWaits(s: State, pc: Pc, a: Action)
    requires s.Valid() && NextUser(s, pc, a).Some?
    ensures WaitMove(s.isOpen, pc, NextUser(s, pc, a).value, a)
  {
    hide State.Valid, MustWait;
  }

  lemma UserInside(s: State, pc: Pc, a: Action)
    requires s.Valid() && NextUser(s, pc, a).Some?
    ensures InsideMove(s.isOpen, pc, NextUser(s, pc, a).value, a)
  {
    hide State.Valid, MustWait;
  }

  lemma AdminWaits(s: State, pc: Pc, a: Action)
    requires NextAdmin(s, pc, a).Some?
    ensures WaitMove(s.isOpen, pc, NextAdmin(s, pc, a).value, a)
  {
  }

  lemma AdminInside(s: State, pc: Pc, a: Action)
    requires NextAdmin(s, pc, a).Some?
    ensures InsideMove(s.isOpen, pc, NextAdmin(s, pc, a).value, a)
  {
  }

  lemma PcThread(s: State, pc: Pc, a: Action)
    requires s.Valid() && NextPc(s, pc, a).Some?
    ensures WaitMove(s.isOpen, pc, NextPc(s, pc, a).value, a) && InsideMove(s.isOpen, pc, NextPc(s, pc, a).value, a)
  {
    hide NextUser, NextAdmin, WaitMove, InsideMove;
    if Admin(a) { AdminWaits(s, pc, a); AdminInside(s, pc, a); } else { UserWaits(s, pc, a); UserInside(s, pc, a); }
  }

  // Whoever is about to hand out a slot has just made or found room for it.
  lemma PcOnRing(s: State, t: Tid, pc: Pc, a: Action)
    requires s.Valid() && NextPc(s, pc, a).Some? && NextPc(s, pc, a).value.OnRing?
    requires HoldsRing(pc) ==> s.ports[pc.p].done <= s.ports[pc.p].used <= PACKETS_PER_RING
    requires pc.OnRing? ==> s.ports[pc.p].used < PACKETS_PER_RING
    ensures NextPc(s, pc, a).value.p in Share(s, t, pc, a).ports
    ensures Share(s, t, pc, a).ports[NextPc(s, pc, a).value.p].used < PACKETS_PER_RING
  {
    hide NextPc, PortsAfter, Admin;
    ComesOnRing(s, pc, a);
    PortAfter(s, t, pc, a, pc.p);
  }

  lemma ComesOnRing(s: State, pc: Pc, a: Action)
    requires s.Valid() && NextPc(s, pc, a).Some? && NextPc(s, pc, a).value.OnRing?
    ensures !Admin(a) && HoldsRing(pc) && NextPc(s, pc, a).value.p == pc.p
    ensures Kernel(a) ==> pc.OnRing?
    ensures !Kernel(a) ==> (a == Dequeue && !MustWait(pc.p, s.ports[pc.p])) || (a == AwakeDequeue && s.ports[pc.p].done > 0)
  {
    hide NextUser, NextAdmin, MustWait, HoldsRing;
    if Admin(a) { AdminOffRing(s, pc, a); } else { UserOnRing(s, pc, a); }
  }

  lemma AdminOffRing(s: State, pc: Pc, a: Action)
    requires NextAdmin(s, pc, a).Some?
    ensures !NextAdmin(s, pc, a).value.OnRing?
  {
  }

  lemma UserOnRing(s: State, pc: Pc, a: Action)
    requires s.Valid() && NextUser(s, pc, a).Some? && NextUser(s, pc, a).value.OnRing?
    ensures HoldsRing(pc) && NextUser(s, pc, a).value.p == pc.p
    ensures Kernel(a) ==> pc.OnRing?
    ensures !Kernel(a) ==> (a == Dequeue && !MustWait(pc.p, s.ports[pc.p])) || (a == AwakeDequeue && s.ports[pc.p].done > 0)
  {
    hide State.Valid, MustWait;
  }

  lemma OwnLive(s: State, t: Tid, a: Action)
    requires Inv(s) && Do(s, t, a).Some?
    ensures LiveInv(Do(s, t, a).value, Do(s, t, a).value.Pc(t))
  {
    assert ThreadInv(s, s.Pc(t));
    hide ReadersOk, WriterOk, RingsOk, ThreadsOk, PortsOk;
    DoIs(s, t, a);
    PcThread(s, s.Pc(t), a);
    Enabled(s, s.Pc(t), a);
    hide Do, NextPc, PortsAfter, ReadersAfter, WriterAfter, HoldsRing;
  }

  lemma OwnPort(s: State, t: Tid, a: Action)
    requires Inv(s) && Do(s, t, a).Some? && Do(s, t, a).value.Valid()
    ensures PortInv(Do(s, t, a).value, Do(s, t, a).value.Pc(t))
  {
    InvThread(s, t);
    hide Inv, Do, State.Valid, WillWait;
    var pc := Do(s, t, a).value.Pc(t);
    if pc.OnRing? { OwnOnRing(s, t, a); }
    if WillWait(pc) { OwnWait(s, t, a); }
  }

  lemma OwnOnRing(s: State, t: Tid, a: Action)
    requires Inv(s) && Do(s, t, a).Some? && Do(s, t, a).value.Valid() && Do(s, t, a).value.Pc(t).OnRing?
    ensures var s' := Do(s, t, a).value; s'.ports[s'.Pc(t).p].used < PACKETS_PER_RING
  {
    var pc := s.Pc(t);
    InvThread(s, t);
    if HoldsRing(pc) { InvRing(s, t, pc.p); }
    hide Inv, Do, NextPc, Share, WillWait, LiveInv, HoldsRing;
    DoIs(s, t, a);
    PcOnRing(s, t, pc, a);
  }

  lemma OwnWait(s: State, t: Tid, a: Action)
    requires Inv(s) && Do(s, t, a).Some? && Do(s, t, a).value.Valid() && WillWait(Do(s, t, a).value.Pc(t))
    ensures var s' := Do(s, t, a).value; s'.ports[s'.Pc(t).p].posted ==> s'.ports[s'.Pc(t).p].pending > 0
  {
    var pc, pc' := s.Pc(t), Do(s, t, a).value.Pc(t);
    InvThread(s, t);
    InvRing(s, t, pc'.p);
    WaitsAtRing(pc);
    hide Inv, Do, NextPc, Share, LiveInv, WillWait;
    DoIs(s, t, a);
    PcThread(s, pc, a);
    if a == SpinCheck {
      OwnStore(s, t, pc, a);
    } else {
      Effect(s, t, a, pc'.p);
    }
  }

  lemma WaitsAtRing(pc: Pc)
    ensures WillWait(pc) ==> HoldsRing(pc) && !HoldsWrite(pc)
  {
  }

  lemma PortBound(s: State, p: PortId)
    requires s.Valid() && PortsOk(s)
    ensures s.ports[p].done <= s.ports[p].used <= PACKETS_PER_RING
  {
  }

  lemma OwnStore(s: State, t: Tid, pc: Pc, a: Action)
    requires s.Valid() && NextPc(s, pc, a).Some?
    ensures a == SpinCheck ==> Share(s, t, pc, a).ports == s.ports
    ensures a == CloseStore ==> Share(s, t, pc, a).isOpen == 2
  {
    assert s.ports[PortOf(pc, a) := s.ports[PortOf(pc, a)]] == s.ports;
    hide NextPc, PortOf;
  }

  lemma OtherThreadStep(s: State, t: Tid, a: Action, u: Tid)
    requires Inv(s) && Do(s, t, a).Some? && Do(s, t, a).value.Valid() && u != t
    ensures ThreadInv(Do(s, t, a).value, Do(s, t, a).value.Pc(u))
  {
    OthersStay(s, t, a, u);
    assert ThreadInv(s, s.Pc(u));
    if HoldsWrite(s.Pc(t)) {
      WriterAlone(s, t, u);
    } else if HoldsRing(s.Pc(u)) {
      Effect(s, t, a, s.Pc(u).p);
      if HoldsRing(s.Pc(t)) { OneHolder(s, t, u); }
    } else {
      Effect(s, t, a, PostTarget(0));
    }
    hide Do, ReadersOk, WriterOk, RingsOk, ThreadsOk, PortsOk;
  }

  lemma OneHolder(s: State, t: Tid, u: Tid)
    requires Inv(s) && HoldsRing(s.Pc(t)) && HoldsRing(s.Pc(u)) && t != u
    ensures s.Pc(t).p != s.Pc(u).p
  {
    assert s.ports[s.Pc(t).p].mu == Some(t);
  }

  lemma PortStep(s: State, t: Tid, a: Action, p: PortId)
    requires Inv(s) && Do(s, t, a).Some? && Do(s, t, a).value.Valid()
    ensures var q := Do(s, t, a).value.ports[p]; q.done <= q.used <= PACKETS_PER_RING
  {
    PortBound(s, p);
    assert ThreadInv(s, s.Pc(t));
    DoIs(s, t, a);
    Enabled(s, s.Pc(t), a);
    PortAfter(s, t, s.Pc(t), a, p);
    hide Do, NextPc, PortsAfter, ReadersOk, WriterOk, RingsOk, ThreadsOk, PortsOk;
  }

  /** Every step keeps the invariant. */
  lemma InvStep(s: State, t: Tid, a: Action)
    requires Inv(s) && Do(s, t, a).Some?
    ensures Inv(Do(s, t, a).value)
  {
    ReadersStep(s, t, a);
    WriterStep(s, t, a);
    RingsStep(s, t, a);
    var s' := Do(s, t, a).value;
    forall u: Tid ensures ThreadInv(s', s'.Pc(u)) {
      if u == t { OwnLive(s, t, a); OwnPort(s, t, a); } else { OtherThreadStep(s, t, a, u); }
    }
    OpenStep(s, t, a);
    forall p: PortId ensures s'.ports[p].done <= s'.ports[p].used <= PACKETS_PER_RING { PortStep(s, t, a, p); }
    hide FreshPorts, ReadersOk, WriterOk, RingsOk, Do;
  }

  lemma OpenStep(s: State, t: Tid, a: Action)
    requires Inv(s) && Do(s, t, a).Some? && Do(s, t, a).value.Valid()
    ensures var s' := Do(s, t, a).value;
            && s'.isOpen <= 2 && (s'.isOpen > 0 ==> s'.live)
            && forall p: PortId :: s'.ports[p].posted ==> s'.isOpen == 2
  {
    assert ThreadInv(s, s.Pc(t));
    DoIs(s, t, a);
    Enabled(s, s.Pc(t), a);
    forall p: PortId
      ensures Do(s, t, a).value.ports[p].posted ==> Do(s, t, a).value.isOpen == 2
      ensures Do(s, t, a).value.isOpen <= 2 && (Do(s, t, a).value.isOpen > 0 ==> Do(s, t, a).value.live)
    {
      PortAfter(s, t, s.Pc(t), a, p);
    }
    hide Do, NextPc, PortsAfter, PortOf, ReadersOk, WriterOk, RingsOk, ThreadsOk, TakeBack;
  }

  // ---------------------------------------------------------------- runs

  /** The state after a run, if every step of it can be taken. */
  function After(s: State, run: seq<(Tid, Action)>): (r: Option<State>)
    requires s.Valid()
    ensures r.Some? ==> r.value.Valid()
  {
    if |run| == 0 then Some(s)
    else
      match After(s, run[..|run| - 1])
      case None => None
      case Some(m) => StaysValid(m, run[|run| - 1].0, run[|run| - 1].1); Do(m, run[|run| - 1].0, run[|run| - 1].1)
  }

  lemma InitialValid()
    ensures INITIAL.Valid()
  {
    FreshPortsAll(0);
  }

  /** The invariant holds after every run from the closed bind. */
  lemma {:induction false} InvAlways(run: seq<(Tid, Action)>)
    ensures INITIAL.Valid()
    ensures After(INITIAL, run).Some? ==> Inv(After(INITIAL, run).value)
  {
    hide Do, Inv;
    InitialInv();
    InitialValid();
    if |run| > 0 {
      var n := |run| - 1;
      InvAlways(run[..n]);
      if After(INITIAL, run).Some? {
        InvStep(After(INITIAL, run[..n]).value, run[n].0, run[n].1);
      }
    }
  }

  /** No use after teardown: in every run, a thread that touches a ring, a queue or a port holds the
      read lock and finds the rings live; the rings are live whenever isOpen says 1 or 2. */
  lemma NoUseAfterTeardown(run: seq<(Tid, Action)>, t: Tid)
    requires INITIAL.Valid() && After(INITIAL, run).Some?
    ensures var s := After(INITIAL, run).value;
            && (Inside(s.Pc(t)) ==> s.live && t in s.readers && forall u: Tid :: !HoldsWrite(s.Pc(u)))
            && (s.isOpen == 1 || s.isOpen == 2 ==> s.live)
  {
    InvAlways(run);
    var s := After(INITIAL, run).value;
    assert ThreadInv(s, s.Pc(t));
    assert HoldsRead(s.Pc(t)) ==> t in s.readers;
    forall u: Tid ensures Inside(s.Pc(t)) ==> !HoldsWrite(s.Pc(u)) {
      if HoldsWrite(s.Pc(u)) { WriterAlone(s, u, t); }
    }
  }

  /** Once Close has posted to a receive port, a receive that waits there, or that will wait without
      looking at isOpen again, has a completion to wake it. */
  lemma ReceiversWakeUp(run: seq<(Tid, Action)>, t: Tid)
    requires INITIAL.Valid() && After(INITIAL, run).Some?
    ensures var s := After(INITIAL, run).value;
            s.Valid() && (WillWait(s.Pc(t)) && s.ports[s.Pc(t).p].posted ==> s.isOpen == 2 && s.ports[s.Pc(t).p].pending > 0)
  {
    InvAlways(run);
    var s := After(INITIAL, run).value;
    assert ThreadInv(s, s.Pc(t));
  }

  // ---------------------------------------------------------------- who posts

  // Where in its round of posts Close comes to a port.
  function IndexOf(p: PortId): nat { (if p.v6 then 2 else 0) + (if p.tx then 1 else 0) }

  /** A close that is bound to post to the port. */
  predicate WillPost(pc: Pc, p: PortId) { pc.CloseChecked? || (pc.ClosePosting? && pc.k <= IndexOf(p)) }

  /** A close that has stored 2 and not yet torn down. */
  predicate Closing(pc: Pc) {
    pc.ClosePosting? || pc.CloseUnlocking? || pc.CloseWant? || pc.CloseWaiting? || pc.CloseHeld?
  }

  /** While isOpen is 2 a Close is on its way to the teardown, and every port has got its completion or
      a Close is on its way to post it. */
  ghost predicate ClosersOk(s: State)
    requires s.Valid()
  {
    s.isOpen == 2 ==>
      && (exists c: Tid :: Closing(s.Pc(c)))
      && forall p: PortId :: s.ports[p].posted || exists c: Tid :: WillPost(s.Pc(c), p)
  }

  predicate PostMove(pc: Pc, pc': Pc, a: Action, p: PortId) {
    && (a == CloseStore ==> WillPost(pc', p) && Closing(pc'))
    && (WillPost(pc, p) ==> WillPost(pc', p) || (a == ClosePost && pc.ClosePosting? && PostTarget(pc.k) == p))
    && (Closing(pc) && a != CloseTeardown ==> Closing(pc'))
  }

  lemma PcPosts(s: State, pc: Pc, a: Action, p: PortId)
    requires s.Valid() && NextPc(s, pc, a).Some?
    ensures PostMove(pc, NextPc(s, pc, a).value, a, p)
  {
    if Admin(a) { AdminPosts(s, pc, a, p); } else { UserPosts(s, pc, a, p); }
    hide NextUser, NextAdmin, PostMove;
  }

  lemma UserPosts(s: State, pc: Pc, a: Action, p: PortId)
    requires s.Valid() && NextUser(s, pc, a).Some?
    ensures PostMove(pc, NextUser(s, pc, a).value, a, p)
  {
    hide State.Valid, MustWait;
  }

  lemma PosterPosts(s: State, pc: Pc, p: PortId)
    requires NextAdmin(s, pc, ClosePost).Some?
    ensures PostMove(pc, NextAdmin(s, pc, ClosePost).value, ClosePost, p)
  {
    assert p == PortId(p.v6, p.tx);
    assert PostTarget(IndexOf(p)) == p;
  }

  lemma OthersPost(s: State, pc: Pc, a: Action, p: PortId)
    requires NextAdmin(s, pc, a).Some? && a != ClosePost
    ensures PostMove(pc, NextAdmin(s, pc, a).value, a, p)
  {
    hide PostTarget;
  }

  lemma AdminPosts(s: State, pc: Pc, a: Action, p: PortId)
    requires NextAdmin(s, pc, a).Some?
    ensures PostMove(pc, NextAdmin(s, pc, a).value, a, p)
  {
    hide NextAdmin, PostMove;
    if a == ClosePost { PosterPosts(s, pc, p); } else { OthersPost(s, pc, a, p); }
  }

  lemma SharePosts(s: State, t: Tid, pc: Pc, a: Action, p: PortId)
    requires s.Valid() && NextPc(s, pc, a).Some? && Share(s, t, pc, a).isOpen == 2
    ensures (s.isOpen != 2 ==> a == CloseStore) && !Tears(a) && p in Share(s, t, pc, a).ports
    ensures s.ports[p].posted || (a == ClosePost && pc.ClosePosting? && PostTarget(pc.k) == p) ==> Share(s, t, pc, a).ports[p].posted
  {
    hide NextPc, PortsAfter, RingEffect;
    PortAfter(s, t, pc, a, p);
    EffectOnPosts(t, p, s.ports[p], a);
  }

  lemma EffectOnPosts(t: Tid, p: PortId, q: Port, a: Action)
    ensures RingEffect(t, p, q, a).posted == (q.posted || a == ClosePost)
  {
    hide TakeBack;
    TakeBackKeeps(p, q);
  }

  lemma PostStep(s: State, t: Tid, a: Action, p: PortId)
    requires s.Valid() && Do(s, t, a).Some? && Do(s, t, a).value.Valid() && Do(s, t, a).value.isOpen == 2
    ensures s.isOpen != 2 ==> WillPost(Do(s, t, a).value.Pc(t), p) && Closing(Do(s, t, a).value.Pc(t))
    ensures s.isOpen == 2 && (s.ports[p].posted || WillPost(s.Pc(t), p)) ==>
              Do(s, t, a).value.ports[p].posted || WillPost(Do(s, t, a).value.Pc(t), p)
    ensures Closing(s.Pc(t)) ==> Closing(Do(s, t, a).value.Pc(t))
  {
    DoIs(s, t, a);
    PcPosts(s, s.Pc(t), a, p);
    SharePosts(s, t, s.Pc(t), a, p);
    hide Do, NextPc, Share;
  }

  lemma ClosersStep(s: State, t: Tid, a: Action)
    requires s.Valid() && ClosersOk(s) && Do(s, t, a).Some? && Do(s, t, a).value.Valid()
    ensures ClosersOk(Do(s, t, a).value)
  {
    var s' := Do(s, t, a).value;
    if s'.isOpen == 2 {
      PostStep(s, t, a, PostTarget(0));
      if s.isOpen == 2 {
        var c: Tid :| Closing(s.Pc(c));
        if c != t { OthersStay(s, t, a, c); }
        assert Closing(s'.Pc(c));
      } else {
        assert Closing(s'.Pc(t));
      }
      forall p: PortId ensures s'.ports[p].posted || exists c: Tid :: WillPost(s'.Pc(c), p) {
        PostStep(s, t, a, p);
        if s.isOpen == 2 && !s.ports[p].posted {
          var c: Tid :| WillPost(s.Pc(c), p);
          if c != t { OthersStay(s, t, a, c); }
        }
      }
    }
    hide Do, WillPost, Closing;
  }

  lemma {:induction false} ClosersAlways(run: seq<(Tid, Action)>)
    requires INITIAL.Valid()
    ensures After(INITIAL, run).Some? ==> ClosersOk(After(INITIAL, run).value)
  {
    hide Do, Inv, ClosersOk;
    ClosedClosers();
    if |run| > 0 {
      var n := |run| - 1;
      ClosersAlways(run[..n]);
      if After(INITIAL, run).Some? {
        ClosersStep(After(INITIAL, run[..n]).value, run[n].0, run[n].1);
      }
    }
  }

  lemma ClosedClosers()
    requires INITIAL.Valid()
    ensures ClosersOk(INITIAL)
  {
  }
}
