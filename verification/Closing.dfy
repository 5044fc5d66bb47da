/** Whether Close of WinRingBind comes to its end: the wake-ups it posts against the senders that need
    one, in every interleaving. */
module Closing {
  import opened Bytes
  import opened WinBind

  // ---------------------------------------------------------------- senders and wake-ups

  /** What a thread is to a send port. */
  datatype Kind =
    | Committed   // waits there, or will in its next step
    | Hopeful     // queues for the ring or is about to look for room in it
    | Pushing     // is about to hand out a slot
    | Rousing     // is about to take back what completed, after a wake-up
    | Posting     // a close that is bound to post there

  function KindOf(pc: Pc, p: PortId): Option<Kind> {
    if (pc.Notifying? || pc.Waiting?) && pc.p == p then Some(Committed)
    else if (pc.Queued? || pc.Poll?) && pc.p == p then Some(Hopeful)
    else if pc.OnRing? && pc.p == p then Some(Pushing)
    else if pc.Awake? && pc.p == p then Some(Rousing)
    else if WillPost(pc, p) then Some(Posting)
    else None
  }

  function Members(pcs: map<Tid, Pc>, k: Kind, p: PortId): set<Tid> {
    set t | t in pcs && KindOf(pcs[t], p) == Some(k)
  }

  /** The threads of each kind and the state of the port. */
  datatype Tally = Tally(committed: nat, hopeful: nat, pushing: nat, rousing: nat, posting: nat, used: nat, done: nat, pending: nat) {
    /** Slots that are free or can be taken back, less those already spoken for. */
    function Room(): int {
      PACKETS_PER_RING - used + done - pushing - if done > 0 then rousing else 0
    }

    /** How many senders will have to wait: those that do, and those for which there is no room. */
    function Need(): int {
      committed + if hopeful > Room() then hopeful - Room() else 0
    }

    /** By how many these exceed the wake-ups that are there or will be posted. */
    function Deficit(): int { Need() - pending - posting }
  }

  function TallyOf(s: State, p: PortId): Tally
    requires s.Valid()
  {
    Tally(|Members(s.pcs, Committed, p)|, |Members(s.pcs, Hopeful, p)|, |Members(s.pcs, Pushing, p)|,
          |Members(s.pcs, Rousing, p)|, |Members(s.pcs, Posting, p)|,
          s.ports[p].used, s.ports[p].done, s.ports[p].pending)
  }

  function Bit(k: Option<Kind>, j: Kind): nat { if k == Some(j) then 1 else 0 }

  lemma OneMoves(a: set<Tid>, b: set<Tid>, t: Tid)
    requires a - {t} == b - {t}
    ensures |b| == |a| - (if t in a then 1 else 0) + (if t in b then 1 else 0)
    ensures t in a ==> |a| > 0
  {
    var rest := a - {t};
    assert a == if t in a then rest + {t} else rest;
    assert b == if t in b then rest + {t} else rest;
  }

  lemma MembersMove(pcs: map<Tid, Pc>, t: Tid, pc: Pc, j: Kind, p: PortId)
    ensures var was := if t in pcs then KindOf(pcs[t], p) else None;
            |Members(pcs[t := pc], j, p)| == |Members(pcs, j, p)| - Bit(was, j) + Bit(KindOf(pc, p), j)
            && Bit(was, j) <= |Members(pcs, j, p)|
  {
    hide KindOf;
    var a, b := Members(pcs, j, p), Members(pcs[t := pc], j, p);
    assert t in a <==> t in pcs && KindOf(pcs[t], p) == Some(j);
    assert t in b <==> KindOf(pc, p) == Some(j);
    assert a - {t} == b - {t};
    hide Members;
    OneMoves(a, b, t);
  }

  /** The tally after a thread moves from kind `k` to kind `k'` and the port becomes `q`. */
  ghost predicate Moved(y: Tally, k: Option<Kind>, k': Option<Kind>, q: Port, y': Tally) {
    && y'.committed == y.committed - Bit(k, Committed) + Bit(k', Committed) && Bit(k, Committed) <= y.committed
    && y'.hopeful == y.hopeful - Bit(k, Hopeful) + Bit(k', Hopeful) && Bit(k, Hopeful) <= y.hopeful
    && y'.pushing == y.pushing - Bit(k, Pushing) + Bit(k', Pushing) && Bit(k, Pushing) <= y.pushing
    && y'.rousing == y.rousing - Bit(k, Rousing) + Bit(k', Rousing) && Bit(k, Rousing) <= y.rousing
    && y'.posting == y.posting - Bit(k, Posting) + Bit(k', Posting) && Bit(k, Posting) <= y.posting
    && y'.used == q.used && y'.done == q.done && y'.pending == q.pending
  }

  lemma IdleIsNone(p: PortId)
    ensures KindOf(Idle, p) == None
  {
  }

  lemma TallyMoves(s: State, t: Tid, a: Action, p: PortId)
    requires s.Valid() && Do(s, t, a).Some? && Do(s, t, a).value.Valid()
    ensures var s' := Do(s, t, a).value;
            Moved(TallyOf(s, p), KindOf(s.Pc(t), p), KindOf(s'.Pc(t), p), s'.ports[p], TallyOf(s', p))
  {
    IdleIsNone(p);
    hide Do, NextPc, Share, Members, KindOf;
    DoIs(s, t, a);
    var pc' := Do(s, t, a).value.Pc(t);
    MembersMove(s.pcs, t, pc', Committed, p);
    MembersMove(s.pcs, t, pc', Hopeful, p);
    MembersMove(s.pcs, t, pc', Pushing, p);
    MembersMove(s.pcs, t, pc', Rousing, p);
    MembersMove(s.pcs, t, pc', Posting, p);
  }

  /** How a step moves its thread between the kinds, while the bind is closing. */
  ghost predicate KindMove(pc: Pc, a: Action, p: PortId, q: Port, k: Option<Kind>, k': Option<Kind>) {
    if a == Dequeue && pc.Poll? && pc.p == p then k == Some(Hopeful) && k' == Some(if MustWait(p, q) then Committed else Pushing)
    else if (a == NotifyResult(false) || a == Wake || a == WaitBreaks) && k == Some(Committed) then k' == None
    else if a == AwakeDequeue && k == Some(Rousing) then k' == if q.done > 0 then Some(Pushing) else None
    else if a.RingStep? && k == Some(Pushing) then k' == None
    else if a == ClosePost && k == Some(Posting) && PortOf(pc, a) == p then k' == None
    else k' == k
  }

  predicate OnSlots(a: Action) { a.Dequeue? || a.AwakeDequeue? || a.RingStep? }

  lemma SlotKinds(s: State, pc: Pc, a: Action, p: PortId)
    requires s.Valid() && p.tx && s.isOpen == 2 && NextUser(s, pc, a).Some? && OnSlots(a)
    ensures KindMove(pc, a, p, s.ports[p], KindOf(pc, p), KindOf(NextUser(s, pc, a).value, p))
  {
    hide State.Valid, MustWait;
  }

  lemma OtherKinds(s: State, pc: Pc, a: Action, p: PortId)
    requires s.Valid() && p.tx && s.isOpen == 2 && NextUser(s, pc, a).Some? && !OnSlots(a)
    ensures KindMove(pc, a, p, s.ports[p], KindOf(pc, p), KindOf(NextUser(s, pc, a).value, p))
  {
    hide State.Valid, MustWait;
  }

  lemma UserKinds(s: State, pc: Pc, a: Action, p: PortId)
    requires s.Valid() && p.tx && s.isOpen == 2 && NextUser(s, pc, a).Some?
    ensures KindMove(pc, a, p, s.ports[p], KindOf(pc, p), KindOf(NextUser(s, pc, a).value, p))
  {
    hide NextUser, KindMove, KindOf, OnSlots;
    if OnSlots(a) { SlotKinds(s, pc, a, p); } else { OtherKinds(s, pc, a, p); }
  }

  // Closes and opens are of no kind but the last.
  lemma AdminKind(pc: Pc, p: PortId)
    requires AdminPc(pc)
    ensures KindOf(pc, p) == if WillPost(pc, p) then Some(Posting) else None
  {
  }

  lemma PostsOnce(s: State, pc: Pc, p: PortId)
    requires NextAdmin(s, pc, ClosePost).Some?
    ensures WillPost(NextAdmin(s, pc, ClosePost).value, p) <==> WillPost(pc, p) && PortOf(pc, ClosePost) != p
  {
    assert p == PortId(p.v6, p.tx);
    assert PostTarget(IndexOf(p)) == p;
  }

  lemma PostsLater(s: State, pc: Pc, a: Action, p: PortId)
    requires s.isOpen == 2 && NextAdmin(s, pc, a).Some? && a != ClosePost
    ensures WillPost(NextAdmin(s, pc, a).value, p) <==> WillPost(pc, p)
  {
  }

  lemma PostsExactly(s: State, pc: Pc, a: Action, p: PortId)
    requires s.isOpen == 2 && NextAdmin(s, pc, a).Some?
    ensures WillPost(NextAdmin(s, pc, a).value, p) <==> WillPost(pc, p) && !(a == ClosePost && PortOf(pc, a) == p)
  {
    hide NextAdmin, WillPost, PortOf;
    if a == ClosePost { PostsOnce(s, pc, p); } else { PostsLater(s, pc, a, p); }
  }

  lemma AdminKinds(s: State, pc: Pc, a: Action, p: PortId)
    requires s.Valid() && p.tx && s.isOpen == 2 && NextAdmin(s, pc, a).Some?
    ensures KindMove(pc, a, p, s.ports[p], KindOf(pc, p), KindOf(NextAdmin(s, pc, a).value, p))
  {
    AdminPcs(s, pc, a);
    AdminActions(s, pc, a);
    PostsExactly(s, pc, a, p);
    hide NextAdmin, WillPost, KindOf, MustWait, PortOf;
    AdminKind(pc, p);
    AdminKind(NextAdmin(s, pc, a).value, p);
  }

  lemma PcKinds(s: State, pc: Pc, a: Action, p: PortId)
    requires s.Valid() && p.tx && s.isOpen == 2 && NextPc(s, pc, a).Some?
    ensures KindMove(pc, a, p, s.ports[p], KindOf(pc, p), KindOf(NextPc(s, pc, a).value, p))
  {
    hide NextUser, NextAdmin, KindMove;
    if Admin(a) { AdminKinds(s, pc, a, p); } else { UserKinds(s, pc, a, p); }
  }

  // Whoever holds the ring is the only one to push or to be roused there.
  lemma Exclusive(s: State, t: Tid, p: PortId)
    requires Inv(s) && HoldsRing(s.Pc(t)) && s.Pc(t).p == p
    ensures TallyOf(s, p).pushing == Bit(KindOf(s.Pc(t), p), Pushing) && TallyOf(s, p).rousing == Bit(KindOf(s.Pc(t), p), Rousing)
  {
    HolderOnly(s, t, p, Pushing);
    HolderOnly(s, t, p, Rousing);
    hide Inv, Members, KindOf;
  }

  lemma HolderOnly(s: State, t: Tid, p: PortId, j: Kind)
    requires Inv(s) && HoldsRing(s.Pc(t)) && s.Pc(t).p == p && (j == Pushing || j == Rousing)
    ensures |Members(s.pcs, j, p)| == Bit(KindOf(s.Pc(t), p), j)
  {
    var m := Members(s.pcs, j, p);
    forall u | u in m ensures u == t {
      assert s.ports[p].mu == Some(t) && s.ports[p].mu == Some(u);
    }
    hide Inv;
    if KindOf(s.Pc(t), p) == Some(j) { assert m == {t}; } else { assert m == {}; }
  }

  lemma AtMostOneRoused(s: State, p: PortId)
    requires Inv(s)
    ensures TallyOf(s, p).rousing <= 1
  {
    var m := Members(s.pcs, Rousing, p);
    if m != {} {
      var t :| t in m;
      HolderOnly(s, t, p, Rousing);
    }
  }

  // Where the steps that change the port of interest come from.
  lemma PortChanges(s: State, t: Tid, a: Action, p: PortId)
    requires s.Valid() && Do(s, t, a).Some? && Do(s, t, a).value.Valid() && !Tears(a)
    ensures var q, q' := s.ports[p], Do(s, t, a).value.ports[p];
            if p == PortOf(s.Pc(t), a) then q' == RingEffect(t, p, q, a) else q' == q
  {
    DoIs(s, t, a);
    PortAfter(s, t, s.Pc(t), a, p);
    hide Do, NextPc, Share, PortOf, RingEffect;
  }

  // ---------------------------------------------------------------- the arithmetic of one step

  lemma Passes(y: Tally, y': Tally)
    requires y.done <= y.used <= PACKETS_PER_RING && (y.done > 0 || y.used < PACKETS_PER_RING) && y.pushing == y.rousing == 0 < y.hopeful
    requires y' == y.(hopeful := y.hopeful - 1, pushing := 1, used := y.used - y.done, done := 0)
    ensures y'.Deficit() == y.Deficit()
  {
  }

  lemma Blocks(y: Tally, y': Tally)
    requires y.done == 0 && y.used == PACKETS_PER_RING && y.pushing == y.rousing == 0 < y.hopeful
    requires y' == y.(hopeful := y.hopeful - 1, committed := y.committed + 1)
    ensures y'.Deficit() == y.Deficit()
  {
  }

  lemma TakesBack(y: Tally, y': Tally)
    requires y.done <= y.used && y.pushing == 0 && y.rousing == 1
    requires y' == if y.done > 0 then y.(rousing := 0, pushing := 1, used := y.used - y.done, done := 0) else y.(rousing := 0)
    ensures y'.Deficit() == y.Deficit()
  {
  }

  lemma HandsOut(y: Tally, y': Tally)
    requires y.pushing == 1 && y.rousing == 0 && y' == y.(pushing := 0, used := y.used + 1)
    ensures y'.Deficit() == y.Deficit()
  {
  }

  lemma Completes(y: Tally, y': Tally)
    requires y.rousing <= 1 && y' == y.(done := y.done + 1)
    ensures y'.Deficit() <= y.Deficit()
  {
  }

  /** How the step shows in the tally. */
  lemma {:induction false} RingTally(t: Tid, pc: Pc, a: Action, p: PortId, q: Port, q': Port, k: Option<Kind>, k': Option<Kind>, y: Tally, y': Tally)
    requires p.tx && k == KindOf(pc, p) && KindMove(pc, a, p, q, k, k') && Moved(y, k, k', q', y')
    requires y.used == q.used && y.done == q.done && y.pending == q.pending && q.done <= q.used <= PACKETS_PER_RING
    requires if p == PortOf(pc, a) then q' == RingEffect(t, p, q, a) else q' == q
    requires HoldsRing(pc) && pc.p == p ==> y.pushing == Bit(k, Pushing) && y.rousing == Bit(k, Rousing)
    ensures a == Dequeue && pc.Poll? && pc.p == p ==>
              && y.pushing == y.rousing == 0 < y.hopeful
              && y' == if MustWait(p, q) then y.(hopeful := y.hopeful - 1, committed := y.committed + 1)
                       else y.(hopeful := y.hopeful - 1, pushing := 1, used := y.used - y.done, done := 0)
    ensures a == AwakeDequeue && pc.Awake? && pc.p == p ==>
              && y.pushing == 0 && y.rousing == 1
              && y' == if y.done > 0 then y.(rousing := 0, pushing := 1, used := y.used - y.done, done := 0) else y.(rousing := 0)
    ensures a.RingStep? && pc.OnRing? && pc.p == p ==>
              y.pushing == 1 && y.rousing == 0 && y' == y.(pushing := 0, used := y.used + 1)
  {
  }

  /** The same for the steps that wake, post or come from the kernel, and for all others. */
  lemma {:induction false} WaitTally(t: Tid, pc: Pc, a: Action, p: PortId, q: Port, q': Port, k: Option<Kind>, k': Option<Kind>, y: Tally, y': Tally)
    requires p.tx && k == KindOf(pc, p) && KindMove(pc, a, p, q, k, k') && Moved(y, k, k', q', y')
    requires y.used == q.used && y.done == q.done && y.pending == q.pending
    requires if p == PortOf(pc, a) then q' == RingEffect(t, p, q, a) else q' == q
    requires a == Dequeue ==> pc.Poll? && pc.p != p
    requires a == AwakeDequeue ==> pc.Awake? && pc.p != p
    requires a.RingStep? ==> pc.OnRing? && pc.p != p
    requires a == Wake ==> pc.Waiting? && (pc.p == p ==> q.pending > 0)
    requires a == ClosePost ==> pc.ClosePosting? && pc.k < 4
    ensures if a == Wake && pc.p == p then y.committed > 0 && y.pending > 0 && y' == y.(committed := y.committed - 1, pending := y.pending - 1)
            else if a == NotifyResult(false) || a == WaitBreaks then y' == y || (y.committed > 0 && y' == y.(committed := y.committed - 1))
            else if a == ClosePost && PostTarget(pc.k) == p then y.posting > 0 && y' == y.(pending := y.pending + 1, posting := y.posting - 1)
            else if a == KernelCompletes(p) then y' == y.(done := y.done + 1)
            else if a == KernelNotifies(p) then y' == y.(pending := y.pending + 1)
            else y' == y
  {
    assert p == PortId(p.v6, p.tx);
    hide MustWait, TakeBack;
  }

  /** A step of a thread with program counter `pc`, as it shows at one send port. */
  ghost predicate Fits(t: Tid, pc: Pc, a: Action, p: PortId, q: Port, q': Port, k: Option<Kind>, k': Option<Kind>, y: Tally, y': Tally) {
    && p.tx && k == KindOf(pc, p) && KindMove(pc, a, p, q, k, k') && Moved(y, k, k', q', y')
    && y.used == q.used && y.done == q.done && y.pending == q.pending && q.done <= q.used <= PACKETS_PER_RING
    && (if p == PortOf(pc, a) then q' == RingEffect(t, p, q, a) else q' == q)
    && StartsFrom(pc, a, p, q)
    && (HoldsRing(pc) && pc.p == p ==> y.pushing == Bit(k, Pushing) && y.rousing == Bit(k, Rousing))
    && y.rousing <= 1
  }

  ghost predicate StartsFrom(pc: Pc, a: Action, p: PortId, q: Port) {
    && (a == Dequeue ==> pc.Poll?) && (a == AwakeDequeue ==> pc.Awake?) && (a.RingStep? ==> pc.OnRing?)
    && (a == Wake ==> pc.Waiting? && (pc.p == p ==> q.pending > 0)) && (a == ClosePost ==> pc.ClosePosting? && pc.k < 4)
  }

  lemma {:induction false} RingDeficit(t: Tid, pc: Pc, a: Action, p: PortId, q: Port, q': Port, k: Option<Kind>, k': Option<Kind>, y: Tally, y': Tally)
    requires Fits(t, pc, a, p, q, q', k, k', y, y') && OnSlots(a) && (pc.Poll? || pc.Awake? || pc.OnRing?) && pc.p == p
    ensures y'.Deficit() == y.Deficit()
  {
    hide KindMove, Moved, RingEffect, KindOf, PortOf, Tally.Deficit, HoldsRing;
    RingTally(t, pc, a, p, q, q', k, k', y, y');
    if a == Dequeue {
      if MustWait(p, q) { Blocks(y, y'); } else { Passes(y, y'); }
    } else if a == AwakeDequeue {
      TakesBack(y, y');
    } else {
      HandsOut(y, y');
    }
  }

  lemma {:induction false} WaitDeficit(t: Tid, pc: Pc, a: Action, p: PortId, q: Port, q': Port, k: Option<Kind>, k': Option<Kind>, y: Tally, y': Tally)
    requires Fits(t, pc, a, p, q, q', k, k', y, y') && (OnSlots(a) ==> (pc.Poll? || pc.Awake? || pc.OnRing?) && pc.p != p)
    ensures y'.Deficit() <= y.Deficit()
    ensures !Kernel(a) && a != NotifyResult(false) ==> y'.Deficit() == y.Deficit()
  {
    hide KindMove, Moved, RingEffect, KindOf, PortOf, MustWait, Tally.Room, HoldsRing;
    WaitTally(t, pc, a, p, q, q', k, k', y, y');
    if a == KernelCompletes(p) {
      Completes(y, y');
    } else {
      assert y'.Room() == y.Room() by { SameRoom(y, y'); }
    }
  }

  lemma SameRoom(y: Tally, y': Tally)
    requires y'.used == y.used && y'.done == y.done && y'.pushing == y.pushing && y'.rousing == y.rousing
    ensures y'.Room() == y.Room()
  {
  }

  lemma {:induction false} DeficitMoves(t: Tid, pc: Pc, a: Action, p: PortId, q: Port, q': Port, k: Option<Kind>, k': Option<Kind>, y: Tally, y': Tally)
    requires Fits(t, pc, a, p, q, q', k, k', y, y')
    ensures y'.Deficit() <= y.Deficit()
    ensures !Kernel(a) && a != NotifyResult(false) ==> y'.Deficit() == y.Deficit()
  {
    hide *;
    if OnSlots(a) { SlotsAtPort(t, pc, a, p, q, q', k, k', y, y'); }
    if OnSlots(a) && pc.p == p {
      RingDeficit(t, pc, a, p, q, q', k, k', y, y');
    } else {
      WaitDeficit(t, pc, a, p, q, q', k, k', y, y');
    }
  }

  lemma SlotsAtPort(t: Tid, pc: Pc, a: Action, p: PortId, q: Port, q': Port, k: Option<Kind>, k': Option<Kind>, y: Tally, y': Tally)
    requires Fits(t, pc, a, p, q, q', k, k', y, y') && OnSlots(a)
    ensures pc.Poll? || pc.Awake? || pc.OnRing?
  {
    hide KindMove, Moved, RingEffect, KindOf, PortOf, MustWait;
  }

  /** While the bind is closing no step raises the deficit of a send port, and only the kernel, which
      completes requests, breaks waits or refuses notifications, lowers it. */
  lemma DeficitStep(s: State, t: Tid, a: Action, p: PortId)
    requires Inv(s) && s.isOpen == 2 && p.tx && Do(s, t, a).Some? && Do(s, t, a).value.Valid() && !Tears(a)
    ensures TallyOf(Do(s, t, a).value, p).Deficit() <= TallyOf(s, p).Deficit()
    ensures !Kernel(a) && a != NotifyResult(false) ==> TallyOf(Do(s, t, a).value, p).Deficit() == TallyOf(s, p).Deficit()
  {
    StartsValid(s);
    hide Inv, Do, KindOf, TallyOf, Fits, Tears, Tally.Deficit, Kernel;
    StepFits(s, t, a, p);
    var s', pc := Do(s, t, a).value, s.Pc(t);
    DeficitMoves(t, pc, a, p, s.ports[p], s'.ports[p], KindOf(pc, p), KindOf(s'.Pc(t), p), TallyOf(s, p), TallyOf(s', p));
  }

  lemma StepFits(s: State, t: Tid, a: Action, p: PortId)
    requires Inv(s) && s.Valid() && s.isOpen == 2 && p.tx && Do(s, t, a).Some? && Do(s, t, a).value.Valid() && !Tears(a)
    ensures var s', pc := Do(s, t, a).value, s.Pc(t);
            Fits(t, pc, a, p, s.ports[p], s'.ports[p], KindOf(pc, p), KindOf(s'.Pc(t), p), TallyOf(s, p), TallyOf(s', p))
  {
    var s', pc := Do(s, t, a).value, s.Pc(t);
    AtMostOneRoused(s, p);
    if HoldsRing(pc) && pc.p == p { Exclusive(s, t, p); }
    BoundIn(s, p);
    hide Inv, State.Valid, Do, KindOf, TallyOf, KindMove, Moved, PortOf, RingEffect, StartsFrom, Bit, HoldsRing, Tears;
    StepStarts(s, t, a, p);
    TallyMoves(s, t, a, p);
    StepKinds(s, t, a, p);
    PortChanges(s, t, a, p);
    TallyPort(s, p);
  }

  lemma StepStarts(s: State, t: Tid, a: Action, p: PortId)
    requires s.Valid() && Do(s, t, a).Some?
    ensures StartsFrom(s.Pc(t), a, p, s.ports[p])
  {
    hide Do, NextPc, Share, Tears, TakesRead, HoldsWrite;
    DoIs(s, t, a);
    Enabled(s, s.Pc(t), a);
  }

  lemma StepKinds(s: State, t: Tid, a: Action, p: PortId)
    requires s.Valid() && p.tx && s.isOpen == 2 && Do(s, t, a).Some?
    ensures KindMove(s.Pc(t), a, p, s.ports[p], KindOf(s.Pc(t), p), KindOf(Do(s, t, a).value.Pc(t), p))
  {
    hide *;
    DoIs(s, t, a);
    PcKinds(s, s.Pc(t), a, p);
  }

  lemma StartsValid(s: State)
    requires Inv(s)
    ensures s.Valid()
  {
  }

  lemma BoundIn(s: State, p: PortId)
    requires Inv(s)
    ensures s.Valid() && s.ports[p].done <= s.ports[p].used <= PACKETS_PER_RING
  {
    PortBound(s, p);
  }

  lemma TallyPort(s: State, p: PortId)
    requires s.Valid()
    ensures TallyOf(s, p).used == s.ports[p].used && TallyOf(s, p).done == s.ports[p].done && TallyOf(s, p).pending == s.ports[p].pending
  {
  }

  // ---------------------------------------------------------------- counting down

  predicate Begins(a: Action) { a.BeginReceive? || a.BeginSend? || a.BeginClose? || a.BeginOpen? }

  /** A step of a call that is under way, without help from the kernel. */
  predicate Internal(a: Action) { !Kernel(a) && !Begins(a) }

  /** How far a call is from its end while the bind is closing, at most. */
  function Rank(pc: Pc): nat {
    match pc
    case Idle => 0
    case Done(_) => 1
    case Locked(_) => 2
    case More(_) => 3
    case Checked(_) => 3
    case SendWant(_) => 3
    case Unlocking(_, _) => 4
    case Woken(_) => 5
    case Spin(_, _) => 5
    case Retry(_) => 5
    case OnRing(_) => 6
    case Awake(_) => 7
    case Waiting(_) => 8
    case Notifying(_) => 9
    case Poll(_, _) => 10
    case Queued(_) => 11
    case CloseLocked => 1
    case CloseCall => 2
    case WriteDone => 1
    case CloseHeld => 2
    case OpenHeld => 2
    case CloseWaiting => 3
    case OpenWaiting => 3
    case CloseWant => 4
    case OpenWant => 4
    case CloseUnlocking => 5
    case ClosePosting(k) => if k < 4 then 9 - k else 6
    case CloseChecked => 10
  }

  lemma UserRank(s: State, pc: Pc, a: Action)
    requires s.Valid() && s.isOpen == 2 && NextUser(s, pc, a).Some? && Internal(a)
    ensures Rank(NextUser(s, pc, a).value) < Rank(pc)
  {
    hide State.Valid, MustWait;
  }

  lemma AdminRank(s: State, pc: Pc, a: Action)
    requires s.isOpen == 2 && NextAdmin(s, pc, a).Some? && Internal(a)
    ensures Rank(NextAdmin(s, pc, a).value) < Rank(pc)
  {
  }

  lemma RankStep(s: State, t: Tid, a: Action)
    requires s.Valid() && s.isOpen == 2 && Do(s, t, a).Some? && Internal(a)
    ensures Rank(Do(s, t, a).value.Pc(t)) < Rank(s.Pc(t))
  {
    DoIs(s, t, a);
    hide NextUser, NextAdmin, Rank, Internal, Do, Share;
    if Admin(a) { AdminRank(s, s.Pc(t), a); } else { UserRank(s, s.Pc(t), a); }
  }

  /** The ranks of the threads below `n` together. */
  function Total(pcs: map<Tid, Pc>, n: nat): nat {
    if n == 0 then 0 else Total(pcs, n - 1) + if n - 1 in pcs then Rank(pcs[n - 1]) else 0
  }

  lemma {:induction false} TotalMoves(pcs: map<Tid, Pc>, t: Tid, pc: Pc, n: nat)
    ensures t >= n ==> Total(pcs[t := pc], n) == Total(pcs, n)
    ensures t < n ==> Total(pcs[t := pc], n) + (if t in pcs then Rank(pcs[t]) else 0) == Total(pcs, n) + Rank(pc)
  {
    hide Rank;
    if n > 0 { TotalMoves(pcs, t, pc, n - 1); }
  }

  ghost predicate Below(s: State, n: nat) { forall t :: t in s.pcs ==> t < n }

  lemma {:induction false} AboveAll(keys: set<Tid>) returns (n: nat)
    ensures forall t :: t in keys ==> t < n
  {
    if keys == {} {
      n := 0;
    } else {
      var t :| t in keys;
      n := AboveAll(keys - {t});
      if n <= t { n := t + 1; }
      assert forall u :: u in keys ==> u == t || u in keys - {t};
    }
  }

  lemma SomeBound(s: State) returns (n: nat)
    ensures Below(s, n)
  {
    n := AboveAll(s.pcs.Keys);
  }

  /** While the bind is closing every internal step brings the calls as a whole closer to their end. */
  lemma TotalStep(s: State, t: Tid, a: Action, n: nat)
    requires s.Valid() && s.isOpen == 2 && Do(s, t, a).Some? && Internal(a) && Below(s, n)
    ensures Below(Do(s, t, a).value, n) && Total(Do(s, t, a).value.pcs, n) < Total(s.pcs, n)
  {
    RankStep(s, t, a);
    DoIs(s, t, a);
    assert Rank(Idle) == 0;
    hide Do, NextPc, Share, Rank, Internal;
    TotalMoves(s.pcs, t, Do(s, t, a).value.Pc(t), n);
  }

  // ---------------------------------------------------------------- who can move

  /** The next step of a thread that is in a call. */
  function OwnStep(pc: Pc): Action {
    match pc
    case Checked(_) => ReadLock
    case SendWant(_) => ReadLock
    case Locked(_) => Check
    case Queued(_) => LockRing
    case Spin(_, _) => SpinCheck
    case Poll(_, _) => Dequeue
    case Notifying(_) => NotifyResult(true)
    case Waiting(_) => Wake
    case Woken(_) => WokenCheck
    case Awake(_) => AwakeDequeue
    case OnRing(_) => RingStep(Fails)
    case Retry(_) => RetryCheck
    case Unlocking(_, _) => UnlockRing
    case More(_) => ReadUnlock
    case Done(_) => ReadUnlock
    case CloseCall => CloseReadLock
    case CloseLocked => CloseRefused
    case CloseChecked => CloseStore
    case ClosePosting(_) => ClosePost
    case CloseUnlocking => CloseReadUnlock
    case CloseWant => Announce
    case CloseWaiting => WriteLock
    case CloseHeld => CloseTeardown
    case OpenWant => Announce
    case OpenWaiting => WriteLock
    case OpenHeld => OpenRefused
    case WriteDone => WriteUnlock
    case Idle => BeginClose
  }

  /** What that step has to wait for. */
  predicate Free(s: State, pc: Pc)
    requires s.Valid()
  {
    match pc
    case Checked(_) => s.writer == None
    case SendWant(_) => s.writer == None
    case CloseCall => s.writer == None
    case CloseWant => s.writer == None
    case OpenWant => s.writer == None
    case CloseWaiting => s.readers == {}
    case OpenWaiting => s.readers == {}
    case Queued(p) => s.ports[p].mu == None
    case Waiting(p) => s.ports[p].pending > 0
    case ClosePosting(k) => k < 4
    case Idle => false
    case _ => true
  }

  lemma OwnStepFree(s: State, pc: Pc)
    requires s.Valid() && s.isOpen == 2 && Free(s, pc)
    ensures NextPc(s, pc, OwnStep(pc)).Some?
  {
    hide State.Valid, MustWait;
  }

  lemma OwnStepKind(pc: Pc)
    ensures pc != Idle ==> Internal(OwnStep(pc)) && OwnStep(pc) != NotifyResult(false)
    ensures Tears(OwnStep(pc)) ==> HoldsWrite(pc)
  {
  }

  lemma CanStep(s: State, u: Tid)
    requires s.Valid() && s.isOpen == 2 && Free(s, s.Pc(u))
    ensures Internal(OwnStep(s.Pc(u))) && OwnStep(s.Pc(u)) != NotifyResult(false) && Do(s, u, OwnStep(s.Pc(u))).Some?
    ensures Tears(OwnStep(s.Pc(u))) ==> HoldsWrite(s.Pc(u))
  {
    assert s.Pc(u) != Idle;
    hide NextPc, Share, OwnStep, Internal, Free, Tears, HoldsWrite;
    OwnStepFree(s, s.Pc(u));
    OwnStepKind(s.Pc(u));
  }

  // A close that is bound to post can take its step.
  lemma PosterFree(s: State, c: Tid, p: PortId)
    requires Inv(s) && WillPost(s.Pc(c), p)
    ensures Free(s, s.Pc(c))
  {
    assert ThreadInv(s, s.Pc(c));
  }

  /** No send port lacks a wake-up. */
  ghost predicate Covered(s: State)
    requires s.Valid()
  {
    forall p: PortId :: p.tx ==> TallyOf(s, p).Deficit() <= 0
  }

  lemma CommittedCounts(s: State, h: Tid, p: PortId)
    requires s.Valid() && s.Pc(h) == Waiting(p)
    ensures TallyOf(s, p).committed > 0 && TallyOf(s, p).Need() >= 1
  {
    assert h in Members(s.pcs, Committed, p);
  }

  lemma SomePoster(s: State, p: PortId) returns (c: Tid)
    requires s.Valid() && TallyOf(s, p).posting > 0
    ensures WillPost(s.Pc(c), p)
  {
    var m := Members(s.pcs, Posting, p);
    c :| c in m;
  }

  /** A thread that holds a ring can step, or a close that will wake it can. A receive never needs more;
      a sender that waits does unless its port is covered. */
  lemma HolderMoves(s: State, h: Tid) returns (u: Tid)
    requires Inv(s) && ClosersOk(s) && s.isOpen == 2 && HoldsRing(s.Pc(h))
    requires s.Pc(h).p.tx ==> TallyOf(s, s.Pc(h).p).Deficit() <= 0
    ensures Free(s, s.Pc(u)) && (u == h || WillPost(s.Pc(u), s.Pc(h).p))
  {
    assert ThreadInv(s, s.Pc(h));
    u := h;
    if s.Pc(h).Waiting? && s.ports[s.Pc(h).p].pending == 0 {
      var p := s.Pc(h).p;
      if p.tx {
        CommittedCounts(s, h, p);
        u := SomePoster(s, p);
      } else {
        assert !s.ports[p].posted;
        u :| WillPost(s.Pc(u), p);
      }
      PosterFree(s, u, p);
    }
    hide Inv;
  }

  // A reader can step, or whoever it waits for can.
  lemma ReaderMoves(s: State, r: Tid) returns (u: Tid)
    requires Inv(s) && ClosersOk(s) && s.isOpen == 2 && Covered(s) && HoldsRead(s.Pc(r))
    ensures Free(s, s.Pc(u))
  {
    assert ThreadInv(s, s.Pc(r));
    u := r;
    if HoldsRing(s.Pc(r)) {
      u := HolderMoves(s, r);
    } else if s.Pc(r).Queued? && s.ports[s.Pc(r).p].mu.Some? {
      var p := s.Pc(r).p;
      var h := s.ports[p].mu.value;
      assert HoldsRing(s.Pc(h)) && s.Pc(h).p == p;
      u := HolderMoves(s, h);
    }
    hide Inv;
  }

  lemma WriterMoves(s: State, w: Tid) returns (u: Tid)
    requires Inv(s) && ClosersOk(s) && s.isOpen == 2 && Covered(s) && Announced(s.Pc(w))
    ensures Free(s, s.Pc(u))
  {
    u := w;
    if s.readers != {} {
      var r :| r in s.readers;
      assert HoldsRead(s.Pc(r));
      u := ReaderMoves(s, r);
    }
    hide Inv;
  }

  /** A closing bind whose send ports are covered is never stuck: some call can step, without help from
      the kernel. */
  lemma NotStuck(s: State) returns (u: Tid)
    requires Inv(s) && ClosersOk(s) && s.isOpen == 2 && Covered(s)
    ensures Internal(OwnStep(s.Pc(u))) && Do(s, u, OwnStep(s.Pc(u))).Some?
  {
    var c: Tid :| Closing(s.Pc(c));
    u := c;
    if Announced(s.Pc(c)) {
      u := WriterMoves(s, c);
    } else if s.Pc(c).CloseWant? && s.writer.Some? {
      assert Announced(s.Pc(s.writer.value));
      u := WriterMoves(s, s.writer.value);
    } else {
      assert ThreadInv(s, s.Pc(c));
    }
    CanStep(s, u);
    hide Inv, Do;
  }

  // ---------------------------------------------------------------- runs of a closing bind

  /** A run that does not tear the rings down. */
  predicate Quiet(run: seq<(Tid, Action)>) { forall i :: 0 <= i < |run| ==> !Tears(run[i].1) }

  predicate AllInternal(run: seq<(Tid, Action)>) { forall i :: 0 <= i < |run| ==> Internal(run[i].1) }

  /** A closing bind as a run from the start leaves it. */
  ghost predicate ClosingNow(s: State) { Inv(s) && ClosersOk(s) && s.isOpen == 2 }

  lemma StaysClosing(s: State, t: Tid, a: Action)
    requires ClosingNow(s) && s.Valid() && Do(s, t, a).Some? && !Tears(a)
    ensures Do(s, t, a).value.Valid() && ClosingNow(Do(s, t, a).value)
  {
    InvStep(s, t, a);
    ClosersStep(s, t, a);
    DoIs(s, t, a);
    hide Do, Inv, ClosersOk, NextPc, PortsAfter;
  }

  lemma ReachedClosing(run: seq<(Tid, Action)>)
    requires INITIAL.Valid() && After(INITIAL, run).Some? && After(INITIAL, run).value.isOpen == 2
    ensures ClosingNow(After(INITIAL, run).value)
  {
    InvAlways(run);
    ClosersAlways(run);
    hide Inv, ClosersOk, After;
  }

  lemma ClosingValid(s: State)
    requires ClosingNow(s)
    ensures s.Valid() && Inv(s) && ClosersOk(s) && s.isOpen == 2
  {
  }

  lemma AfterLast(s: State, run: seq<(Tid, Action)>) returns (m: State)
    requires s.Valid() && After(s, run).Some? && |run| > 0
    ensures m.Valid() && After(s, run[..|run| - 1]) == Some(m) && Do(m, run[|run| - 1].0, run[|run| - 1].1) == After(s, run)
  {
    hide Do;
    m := After(s, run[..|run| - 1]).value;
  }

  /** In every run without a teardown the bind goes on closing, and no send port's deficit grows. */
  lemma {:induction false} ClosingRun(s: State, run: seq<(Tid, Action)>, p: PortId)
    requires ClosingNow(s) && s.Valid() && After(s, run).Some? && Quiet(run) && p.tx
    ensures ClosingNow(After(s, run).value) && TallyOf(After(s, run).value, p).Deficit() <= TallyOf(s, p).Deficit()
  {
    hide ClosingNow, TallyOf, Tears, Do, Tally.Deficit;
    if |run| > 0 {
      var n := |run| - 1;
      var m := AfterLast(s, run);
      assert Quiet(run[..n]);
      ClosingRun(s, run[..n], p);
      ClosingValid(m);
      StaysClosing(m, run[n].0, run[n].1);
      DeficitStep(m, run[n].0, run[n].1, p);
    }
  }

  /** Close ends, if the send ports are covered when it has stored 2: after any run of any threads and
      the kernel that has not torn down yet, some call can step by itself. */
  lemma CloseNeverStuck(s: State, run: seq<(Tid, Action)>) returns (u: Tid, a: Action)
    requires ClosingNow(s) && s.Valid() && Covered(s) && After(s, run).Some? && Quiet(run)
    ensures Internal(a) && Do(After(s, run).value, u, a).Some?
  {
    var s' := After(s, run).value;
    ClosingRun(s, run, PortId(false, true));
    ClosingRun(s, run, PortId(true, true));
    ClosingValid(s');
    forall p: PortId | p.tx ensures TallyOf(s', p).Deficit() <= 0 {
      assert p == PortId(p.v6, p.tx);
    }
    hide Inv, ClosersOk, After, Do, OwnStep, Internal;
    u := NotStuck(s');
    a := OwnStep(s'.Pc(u));
  }

  /** And such steps run out: a run of internal steps without a teardown is no longer than the calls
      are far from their end. So every longest one ends with the teardown. */
  lemma {:induction false} InternalRunsEnd(s: State, run: seq<(Tid, Action)>, n: nat)
    requires ClosingNow(s) && s.Valid() && After(s, run).Some? && Quiet(run) && AllInternal(run) && Below(s, n)
    ensures Below(After(s, run).value, n) && Total(After(s, run).value.pcs, n) + |run| <= Total(s.pcs, n)
  {
    hide ClosingNow, Tears, Do, Internal, Below, Total;
    if |run| > 0 {
      var k := |run| - 1;
      var m := AfterLast(s, run);
      assert Quiet(run[..k]) && AllInternal(run[..k]);
      InternalRunsEnd(s, run[..k], n);
      ClosingRun(s, run[..k], PortId(false, true));
      ClosingValid(m);
      TotalStep(m, run[k].0, run[k].1, n);
    }
  }

  // ---------------------------------------------------------------- the other way round

  /** A sender waits for a wake-up that is not there and that no close will post. */
  ghost predicate StrandedAt(s: State, t: Tid, p: PortId)
    requires s.Valid()
  {
    p.tx && s.isOpen == 2 && s.Pc(t) == Waiting(p) && TallyOf(s, p).pending == 0 && TallyOf(s, p).posting == 0
  }

  ghost predicate Stranded(s: State, p: PortId)
    requires s.Valid()
  {
    exists t :: StrandedAt(s, t, p)
  }

  lemma StrandedLacks(s: State, p: PortId)
    requires s.Valid() && Stranded(s, p)
    ensures TallyOf(s, p).Deficit() > 0
  {
    var t :| StrandedAt(s, t, p);
    CommittedCounts(s, t, p);
  }

  // With a deficit, somebody at the port can step, unless a sender is already stranded there.
  lemma NextToStrand(s: State, p: PortId) returns (u: Tid)
    requires ClosingNow(s) && s.Valid() && p.tx && TallyOf(s, p).Deficit() > 0 && !Stranded(s, p)
    ensures Free(s, s.Pc(u)) && !HoldsWrite(s.Pc(u))
  {
    if TallyOf(s, p).posting > 0 {
      u := SomePoster(s, p);
      PosterFree(s, u, p);
    } else if s.ports[p].mu.Some? {
      u := s.ports[p].mu.value;
      assert HoldsRing(s.Pc(u)) && s.Pc(u).p == p;
      if s.Pc(u).Waiting? {
        assert s.Pc(u) == Waiting(p);
        assert !StrandedAt(s, u, p);
      }
    } else {
      u := SomeQueued(s, p);
    }
    hide Inv;
  }

  lemma SomeQueued(s: State, p: PortId) returns (u: Tid)
    requires Inv(s) && s.ports[p].mu == None && TallyOf(s, p).Need() > 0
    ensures s.Pc(u) == Queued(p)
  {
    PortBound(s, p);
    NobodyIn(s, p, Committed);
    NobodyIn(s, p, Pushing);
    NobodyIn(s, p, Rousing);
    var h := Members(s.pcs, Hopeful, p);
    assert TallyOf(s, p).Room() >= 0;
    assert h != {};
    u :| u in h;
    assert s.ports[p].mu != Some(u);
  }

  // Nobody is inside a ring that is not locked.
  lemma NobodyIn(s: State, p: PortId, j: Kind)
    requires Inv(s) && s.ports[p].mu == None && (j == Committed || j == Pushing || j == Rousing)
    ensures Members(s.pcs, j, p) == {}
  {
    forall x ensures x !in Members(s.pcs, j, p) {
      assert s.ports[p].mu == Some(x) <==> HoldsRing(s.Pc(x)) && s.Pc(x).p == p;
    }
  }

  lemma {:induction false} AfterFirst(s: State, x: (Tid, Action), run: seq<(Tid, Action)>)
    requires s.Valid() && Do(s, x.0, x.1).Some? && Do(s, x.0, x.1).value.Valid()
    ensures After(s, [x] + run) == After(Do(s, x.0, x.1).value, run)
  {
    hide Do;
    if |run| > 0 {
      var n := |run| - 1;
      AfterFirst(s, x, run[..n]);
      assert ([x] + run)[..|run|] == [x] + run[..n];
    } else {
      assert [x] + run == [x] && [x][..0] == [];
      assert After(s, []) == Some(s);
    }
  }

  /** If a send port has a deficit, the calls can run on by themselves until a sender is stranded. */
  lemma {:induction false} Strand(s: State, p: PortId, n: nat) returns (run: seq<(Tid, Action)>)
    requires ClosingNow(s) && s.Valid() && p.tx && TallyOf(s, p).Deficit() > 0 && Below(s, n)
    ensures AllInternal(run) && Quiet(run) && After(s, run).Some? && Stranded(After(s, run).value, p)
    decreases Total(s.pcs, n)
  {
    if Stranded(s, p) {
      run := [];
    } else {
      hide *;
      var u, a := StrandStep(s, p, n);
      var rest := Strand(Do(s, u, a).value, p, n);
      run := [(u, a)] + rest;
      AfterFirst(s, (u, a), rest);
      ConsInternal(u, a, rest);
    }
  }

  lemma ConsInternal(u: Tid, a: Action, rest: seq<(Tid, Action)>)
    requires Internal(a) && !Tears(a) && AllInternal(rest) && Quiet(rest)
    ensures AllInternal([(u, a)] + rest) && Quiet([(u, a)] + rest)
  {
    hide Internal, Tears;
  }

  lemma StrandStep(s: State, p: PortId, n: nat) returns (u: Tid, a: Action)
    requires ClosingNow(s) && s.Valid() && p.tx && TallyOf(s, p).Deficit() > 0 && Below(s, n) && !Stranded(s, p)
    ensures Internal(a) && !Tears(a) && Do(s, u, a).Some? && Do(s, u, a).value.Valid() && ClosingNow(Do(s, u, a).value)
    ensures TallyOf(Do(s, u, a).value, p).Deficit() > 0
    ensures Below(Do(s, u, a).value, n) && Total(Do(s, u, a).value.pcs, n) < Total(s.pcs, n)
  {
    ClosingValid(s);
    hide *;
    u := NextToStrand(s, p);
    CanStep(s, u);
    a := OwnStep(s.Pc(u));
    InternalIs(a);
    StaysClosing(s, u, a);
    DeficitStep(s, u, a, p);
    TotalStep(s, u, a, n);
  }

  lemma InternalIs(a: Action)
    requires Internal(a)
    ensures !Kernel(a)
  {
  }

  /** Exactly then: by internal steps a closing bind comes to strand a sender at a port if and only if
      more senders need a wake-up there than there are and will be. */
  lemma StrandsExactly(s: State, p: PortId)
    requires ClosingNow(s) && s.Valid() && p.tx
    ensures (exists run :: AllInternal(run) && Quiet(run) && After(s, run).Some? && Stranded(After(s, run).value, p))
       <==> TallyOf(s, p).Deficit() > 0
  {
    if TallyOf(s, p).Deficit() > 0 {
      var n := SomeBound(s);
      var run := Strand(s, p, n);
    } else if run :| AllInternal(run) && Quiet(run) && After(s, run).Some? && Stranded(After(s, run).value, p) {
      ClosingRun(s, run, p);
      StrandedLacks(After(s, run).value, p);
    }
  }

  lemma RoomLeft(s: State, p: PortId)
    requires Inv(s) && p.tx
    ensures TallyOf(s, p).Room() >= 0
  {
    BoundIn(s, p);
    if s.ports[p].mu.Some? {
      var h := s.ports[p].mu.value;
      assert HoldsRing(s.Pc(h)) && s.Pc(h).p == p;
      assert ThreadInv(s, s.Pc(h));
      Exclusive(s, h, p);
    } else {
      NobodyIn(s, p, Pushing);
      NobodyIn(s, p, Rousing);
    }
  }

  /** In particular it does if, when a Close is about to post, at most one sender of each family has got
      past its check and not yet got what it waits for. */
  lemma OneSenderEach(s: State, c: Tid)
    requires ClosingNow(s) && s.Valid() && s.Pc(c) == ClosePosting(0)
    requires forall p: PortId :: p.tx ==> TallyOf(s, p).committed + TallyOf(s, p).hopeful <= 1
    ensures Covered(s)
  {
    forall p: PortId | p.tx ensures TallyOf(s, p).Deficit() <= 0 {
      assert c in Members(s.pcs, Posting, p);
      RoomLeft(s, p);
    }
  }

  // ---------------------------------------------------------------- receives

  predicate InReceive(pc: Pc) {
    (HoldsRing(pc) || pc.Checked? || pc.Locked? || pc.Queued? || pc.Done?) && !pc.p.tx
  }

  /** A receive of a closing bind that has the read lock is released whatever the senders do: it can
      step, or the holder of its ring can, or a Close that will wake that one. A receive that still
      wants the read lock can step exactly as long as no writer has announced itself. */
  lemma ReceiveReleased(s: State, t: Tid) returns (u: Tid)
    requires ClosingNow(s) && s.Valid() && InReceive(s.Pc(t))
    ensures s.Pc(t).Checked? ==> (Do(s, t, ReadLock).Some? <==> s.writer == None)
    ensures !s.Pc(t).Checked? ==>
              && Internal(OwnStep(s.Pc(u))) && Do(s, u, OwnStep(s.Pc(u))).Some?
              && (u == t || s.ports[s.Pc(t).p].mu == Some(u) || WillPost(s.Pc(u), s.Pc(t).p))
  {
    u := t;
    if s.Pc(t).Checked? {
      assert NextPc(s, s.Pc(t), ReadLock).Some? <==> s.writer == None;
    } else {
      if HoldsRing(s.Pc(t)) {
        u := HolderMoves(s, t);
      } else if s.Pc(t).Queued? && s.ports[s.Pc(t).p].mu.Some? {
        var h := s.ports[s.Pc(t).p].mu.value;
        assert HoldsRing(s.Pc(h)) && s.Pc(h).p == s.Pc(t).p;
        u := HolderMoves(s, h);
        HeldByHolder(s, h);
      }
      if HoldsRing(s.Pc(t)) { HeldByHolder(s, t); }
      CanStep(s, u);
    }
    hide Inv, Do;
  }

  lemma HeldByHolder(s: State, h: Tid)
    requires Inv(s) && HoldsRing(s.Pc(h))
    ensures s.ports[s.Pc(h).p].mu == Some(h)
  {
  }

  // ---------------------------------------------------------------- stuck for good

  predicate NoKernel(run: seq<(Tid, Action)>) { forall i :: 0 <= i < |run| ==> !Kernel(run[i].1) }

  // While somebody reads, no writer gets or gives back the lock.
  lemma ReaderKeepsOut(s: State, t: Tid, v: Tid, a: Action)
    requires Inv(s) && HoldsRead(s.Pc(t)) && Do(s, v, a).Some?
    ensures !Tears(a) && !a.WriteUnlock? && !a.WriteLock?
    ensures s.writer.Some? ==> Do(s, v, a).value.writer == s.writer
  {
    assert t in s.readers;
    if HoldsWrite(s.Pc(v)) { WriterAlone(s, v, t); }
    DoIs(s, v, a);
    Enabled(s, s.Pc(v), a);
    hide Do, NextPc, PortsAfter, Inv;
  }

  // A thread that wants the read lock stands still while a writer has announced itself.
  lemma KeptOut(s: State, pc: Pc, a: Action)
    requires s.Valid() && s.writer.Some? && (pc.Checked? || pc.SendWant? || pc.CloseCall?) && !Kernel(a)
    ensures NextPc(s, pc, a).None?
  {
    hide State.Valid, MustWait;
  }

  lemma WaitsOn(s: State, p: PortId, a: Action)
    requires s.Valid() && s.ports[p].pending == 0 && !Kernel(a)
    ensures NextPc(s, Waiting(p), a).None?
  {
    hide State.Valid, MustWait;
  }

  lemma {:induction false} NoNewWakeUp(t: Tid, pc: Pc, a: Action, p: PortId, q: Port, q': Port, k: Option<Kind>, k': Option<Kind>, y: Tally, y': Tally)
    requires Fits(t, pc, a, p, q, q', k, k', y, y') && !Kernel(a) && y.pending == 0 && y.posting == 0
    ensures y'.pending == 0 && y'.posting == 0
  {
    hide KindMove, Moved, RingEffect, KindOf, PortOf;
    if (a == Dequeue || a == AwakeDequeue || a.RingStep?) && pc.p == p {
      RingTally(t, pc, a, p, q, q', k, k', y, y');
    } else {
      WaitTally(t, pc, a, p, q, q', k, k', y, y');
    }
  }

  lemma StrandedStep(s: State, t: Tid, p: PortId, v: Tid, a: Action)
    requires Inv(s) && s.Valid() && StrandedAt(s, t, p) && Do(s, v, a).Some? && !Kernel(a)
    ensures Do(s, v, a).value.Valid() && StrandedAt(Do(s, v, a).value, t, p)
    ensures s.writer.Some? ==> Do(s, v, a).value.writer == s.writer
  {
    StaysValid(s, v, a);
    ReaderKeepsOut(s, t, v, a);
    DoIs(s, v, a);
    TallyPort(s, p);
    assert v != t by { WaitsOn(s, p, a); }
    OthersStay(s, v, a, t);
    StepFits(s, v, a, p);
    hide Inv, Do, NextPc, PortsAfter, TallyOf, Fits, Tears, Kernel, KindOf, State.Valid;
    var s', pc := Do(s, v, a).value, s.Pc(v);
    NoNewWakeUp(v, pc, a, p, s.ports[p], s'.ports[p], KindOf(pc, p), KindOf(s'.Pc(v), p), TallyOf(s, p), TallyOf(s', p));
  }

  lemma KeptOutStep(s: State, w: Tid, v: Tid, a: Action)
    requires s.Valid() && s.writer.Some? && (s.Pc(w).Checked? || s.Pc(w).SendWant? || s.Pc(w).CloseCall?) && Do(s, v, a).Some? && !Kernel(a)
    ensures Do(s, v, a).value.Pc(w) == s.Pc(w)
  {
    DoIs(s, v, a);
    if v == w { KeptOut(s, s.Pc(v), a); } else { OthersStay(s, v, a, w); }
    hide Do, NextPc, Share;
  }

  /** Without the kernel a stranded sender waits for ever, whatever is called: the bind is never torn
      down, and behind a writer that has announced itself every receive, send and close waits too. */
  lemma {:induction false} StrandedForever(s: State, t: Tid, p: PortId, w: Tid, run: seq<(Tid, Action)>)
    requires Inv(s) && s.Valid() && StrandedAt(s, t, p) && After(s, run).Some? && NoKernel(run)
    ensures Inv(After(s, run).value) && StrandedAt(After(s, run).value, t, p) && After(s, run).value.isOpen == 2
    ensures s.writer.Some? ==> After(s, run).value.writer == s.writer
    ensures s.writer.Some? && (s.Pc(w).Checked? || s.Pc(w).SendWant? || s.Pc(w).CloseCall?) ==> After(s, run).value.Pc(w) == s.Pc(w)
  {
    hide Inv, Do, Kernel, TallyOf;
    if |run| > 0 {
      var n := |run| - 1;
      var m := AfterLast(s, run);
      assert NoKernel(run[..n]);
      StrandedForever(s, t, p, w, run[..n]);
      var v, a := run[n].0, run[n].1;
      InvStep(m, v, a);
      StrandedStep(m, t, p, v, a);
      if s.writer.Some? && (s.Pc(w).Checked? || s.Pc(w).SendWant? || s.Pc(w).CloseCall?) { KeptOutStep(m, w, v, a); }
    }
  }

  // ---------------------------------------------------------------- whether the bind is torn down

  lemma {:induction false} PrefixRuns(s: State, run: seq<(Tid, Action)>, k: nat)
    requires s.Valid() && After(s, run).Some? && k <= |run|
    ensures After(s, run[..k]).Some?
    decreases |run|
  {
    hide Do;
    if k < |run| {
      var m := AfterLast(s, run);
      PrefixRuns(s, run[..|run| - 1], k);
      assert run[..|run| - 1][..k] == run[..k];
    } else {
      assert run[..k] == run;
    }
  }

  /** The calls can go on by themselves until one of them tears the bind down. */
  ghost predicate CanEnd(s: State)
    requires s.Valid()
  {
    exists more :: AllInternal(more) && After(s, more).Some? && !Quiet(more)
  }

  // With covered ports some call can step, to the teardown or closer to it.
  lemma EndStep(s: State, n: nat) returns (u: Tid, a: Action)
    requires ClosingNow(s) && s.Valid() && Covered(s) && Below(s, n)
    ensures Internal(a) && Do(s, u, a).Some? && Do(s, u, a).value.Valid()
    ensures !Tears(a) ==>
              && ClosingNow(Do(s, u, a).value) && Covered(Do(s, u, a).value)
              && Below(Do(s, u, a).value, n) && Total(Do(s, u, a).value.pcs, n) < Total(s.pcs, n)
  {
    ClosingValid(s);
    hide Inv, ClosersOk, ClosingNow, Do, TallyOf, Tally.Deficit, Internal, Below, OwnStep, Total;
    u := NotStuck(s);
    a := OwnStep(s.Pc(u));
    StaysValid(s, u, a);
    if !Tears(a) {
      StaysClosing(s, u, a);
      TotalStep(s, u, a, n);
      forall p: PortId | p.tx ensures TallyOf(Do(s, u, a).value, p).Deficit() <= 0 {
        DeficitStep(s, u, a, p);
      }
    }
  }

  lemma {:induction false} Finish(s: State, n: nat) returns (more: seq<(Tid, Action)>)
    requires ClosingNow(s) && s.Valid() && Covered(s) && Below(s, n)
    ensures AllInternal(more) && After(s, more).Some? && !Quiet(more)
    decreases Total(s.pcs, n)
  {
    hide *;
    var u, a := EndStep(s, n);
    var rest := [];
    if !Tears(a) { rest := Finish(Do(s, u, a).value, n); } else { NothingRuns(Do(s, u, a).value); }
    more := [(u, a)] + rest;
    AfterFirst(s, (u, a), rest);
    ConsLoud(u, a, rest);
  }

  lemma NothingRuns(s: State)
    requires s.Valid()
    ensures After(s, []) == Some(s) && AllInternal([])
  {
  }

  lemma ConsLoud(u: Tid, a: Action, rest: seq<(Tid, Action)>)
    requires Internal(a) && AllInternal(rest) && (Tears(a) || !Quiet(rest))
    ensures AllInternal([(u, a)] + rest) && !Quiet([(u, a)] + rest)
  {
    hide Internal, Tears;
    var run := [(u, a)] + rest;
    if Tears(a) {
      assert Tears(run[0].1);
    } else {
      var i :| 0 <= i < |rest| && Tears(rest[i].1);
      assert Tears(run[i + 1].1);
    }
  }

  lemma TearsNotTwo(s: State, t: Tid, a: Action)
    requires s.Valid() && Do(s, t, a).Some? && Tears(a)
    ensures Do(s, t, a).value.isOpen != 2
  {
    DoIs(s, t, a);
    hide Do, NextPc, PortsAfter;
  }

  // A run that tears down leaves, at that point, a bind that is not closing.
  lemma LoudRun(s: State, run: seq<(Tid, Action)>) returns (k: nat)
    requires s.Valid() && After(s, run).Some? && !Quiet(run)
    ensures k <= |run| && After(s, run[..k]).Some? && After(s, run[..k]).value.isOpen != 2
  {
    hide Tears, Do;
    var i :| 0 <= i < |run| && Tears(run[i].1);
    k := i + 1;
    PrefixRuns(s, run, k);
    var m := AfterLast(s, run[..k]);
    TearsNotTwo(m, run[i].0, run[i].1);
  }

  lemma InternalNoKernel(run: seq<(Tid, Action)>, k: nat)
    requires AllInternal(run) && k <= |run|
    ensures NoKernel(run[..k])
  {
  }

  // With a sender stranded the calls cannot tear the bind down.
  lemma StrandedCannotEnd(s: State, p: PortId)
    requires Inv(s) && s.Valid() && Stranded(s, p)
    ensures !CanEnd(s)
  {
    hide Inv, StrandedAt, AllInternal, Quiet, After, NoKernel;
    var t :| StrandedAt(s, t, p);
    if more :| AllInternal(more) && After(s, more).Some? && !Quiet(more) {
      var k := LoudRun(s, more);
      InternalNoKernel(more, k);
      StrandedForever(s, t, p, t, more[..k]);
    }
  }

  lemma CoveredEnds(s: State, run: seq<(Tid, Action)>)
    requires ClosingNow(s) && s.Valid() && Covered(s) && After(s, run).Some? && Quiet(run)
    ensures CanEnd(After(s, run).value)
  {
    hide After, ClosingNow, AllInternal, Quiet, TallyOf, Tally.Deficit;
    var s' := After(s, run).value;
    forall p: PortId | p.tx ensures TallyOf(s', p).Deficit() <= 0 { ClosingRun(s, run, p); }
    ClosingRun(s, run, PortId(false, true));
    var n := SomeBound(s');
    var more := Finish(s', n);
  }

  /** From any state in which a run leaves a bind that is being closed: the calls under way, however they
      have gone on by themselves, can always go on to the teardown, if and only if the send ports are
      covered. If they are, this is so whatever else is called and the kernel does in between. Such steps
      run out (`InternalRunsEnd`), so that every longest run of them tears down. */
  lemma CloseEndsExactly(run0: seq<(Tid, Action)>)
    requires INITIAL.Valid() && After(INITIAL, run0).Some? && After(INITIAL, run0).value.isOpen == 2
    ensures var s := After(INITIAL, run0).value;
            && (Covered(s) ==> forall run :: Quiet(run) && After(s, run).Some? ==> CanEnd(After(s, run).value))
            && (Covered(s) <==> forall run :: Quiet(run) && AllInternal(run) && After(s, run).Some? ==> CanEnd(After(s, run).value))
  {
    ReachedClosing(run0);
    var s := After(INITIAL, run0).value;
    hide After, ClosingNow, AllInternal, Quiet, TallyOf, CanEnd, Stranded;
    if Covered(s) {
      forall run | Quiet(run) && After(s, run).Some? ensures CanEnd(After(s, run).value) { CoveredEnds(s, run); }
    } else {
      var p: PortId :| p.tx && TallyOf(s, p).Deficit() > 0;
      var n := SomeBound(s);
      var run := Strand(s, p, n);
      ClosingRun(s, run, p);
      ClosingValid(After(s, run).value);
      StrandedCannotEnd(After(s, run).value, p);
    }
  }

  // ---------------------------------------------------------------- a second Open

  /** An Open that waits for a receive or a send which itself waits, on a bind that nobody is closing. */
  ghost predicate Frozen(s: State, o: Tid, u: Tid, p: PortId)
    requires s.Valid()
  {
    && s.isOpen == 1 && s.writer == Some(o) && s.Pc(o) == OpenWaiting && s.Pc(u) == Waiting(p) && s.ports[p].pending == 0
    && forall c: Tid :: !s.Pc(c).CloseLocked? && !s.Pc(c).CloseChecked?
  }

  lemma NoClosePast(s: State, pc: Pc, a: Action)
    requires s.Valid() && s.isOpen == 1 && s.writer.Some? && NextPc(s, pc, a).Some? && !pc.CloseLocked? && !pc.CloseChecked?
    ensures var pc' := NextPc(s, pc, a).value; !pc'.CloseLocked? && !pc'.CloseChecked?
    ensures !a.CloseStore?
  {
    hide NextUser, NextAdmin;
    if Admin(a) { AdminNoClose(s, pc, a); } else { UserNoClose(s, pc, a); }
  }

  lemma UserNoClose(s: State, pc: Pc, a: Action)
    requires s.Valid() && NextUser(s, pc, a).Some? && !pc.CloseLocked? && !pc.CloseChecked?
    ensures var pc' := NextUser(s, pc, a).value; !pc'.CloseLocked? && !pc'.CloseChecked?
    ensures !a.CloseStore?
  {
    hide State.Valid, MustWait;
  }

  lemma AdminNoClose(s: State, pc: Pc, a: Action)
    requires s.writer.Some? && NextAdmin(s, pc, a).Some? && !pc.CloseLocked? && !pc.CloseChecked?
    ensures var pc' := NextAdmin(s, pc, a).value; !pc'.CloseLocked? && !pc'.CloseChecked?
    ensures !a.CloseStore?
  {
  }

  lemma OpenKeepsWaiting(s: State, a: Action)
    requires s.Valid() && s.readers != {} && NextPc(s, OpenWaiting, a).Some?
    ensures NextPc(s, OpenWaiting, a) == Some(OpenWaiting)
  {
    hide State.Valid, MustWait;
  }

  lemma PendingStays(s: State, v: Tid, a: Action, p: PortId)
    requires Inv(s) && s.isOpen == 1 && s.ports[p].pending == 0 && Do(s, v, a).Some? && Do(s, v, a).value.Valid() && !Tears(a) && !Kernel(a)
    ensures Do(s, v, a).value.ports[p].pending == 0
  {
    assert ThreadInv(s, s.Pc(v));
    PortChanges(s, v, a, p);
    DoIs(s, v, a);
    Enabled(s, s.Pc(v), a);
    hide Do, NextPc, Share, Inv;
  }

  lemma FrozenStep(s: State, o: Tid, u: Tid, p: PortId, v: Tid, a: Action)
    requires Inv(s) && s.Valid() && Frozen(s, o, u, p) && Do(s, v, a).Some? && !Kernel(a)
    ensures Do(s, v, a).value.Valid() && Frozen(Do(s, v, a).value, o, u, p)
  {
    StaysValid(s, v, a);
    ReaderKeepsOut(s, u, v, a);
    PendingStays(s, v, a, p);
    DoIs(s, v, a);
    NoClosePast(s, s.Pc(v), a);
    assert u in s.readers;
    if v == u { WaitsOn(s, p, a); } else { OthersStay(s, v, a, u); }
    if v == o { OpenKeepsWaiting(s, a); } else { OthersStay(s, v, a, o); }
    hide Inv, Do, NextPc, PortsAfter;
    forall c: Tid ensures !Do(s, v, a).value.Pc(c).CloseLocked? && !Do(s, v, a).value.Pc(c).CloseChecked? {
      if c != v { OthersStay(s, v, a, c); }
    }
  }

  lemma {:induction false} FrozenForever(s: State, o: Tid, u: Tid, p: PortId, run: seq<(Tid, Action)>)
    requires Inv(s) && s.Valid() && Frozen(s, o, u, p) && After(s, run).Some? && NoKernel(run)
    ensures Inv(After(s, run).value) && Frozen(After(s, run).value, o, u, p)
  {
    hide Inv, Do, Kernel, Frozen;
    if |run| > 0 {
      var n := |run| - 1;
      var m := AfterLast(s, run);
      assert NoKernel(run[..n]);
      FrozenForever(s, o, u, p, run[..n]);
      InvStep(m, run[n].0, run[n].1);
      FrozenStep(m, o, u, p, run[n].0, run[n].1);
    }
  }

  // A close that has the read lock of an open bind gets to store 2.
  lemma CloseStores(s: State, c: Tid) returns (run: seq<(Tid, Action)>)
    requires s.Valid() && s.isOpen == 1 && (s.Pc(c).CloseLocked? || s.Pc(c).CloseChecked?)
    ensures NoKernel(run) && After(s, run).Some? && After(s, run).value.isOpen == 2
  {
    var m := s;
    if s.Pc(c).CloseLocked? {
      assert Do(s, c, CloseCheck).Some?;
      StaysValid(s, c, CloseCheck);
      m := Do(s, c, CloseCheck).value;
    }
    assert m.Pc(c).CloseChecked? && Do(m, c, CloseStore).Some?;
    var store: seq<(Tid, Action)> := [(c, CloseStore)];
    assert store[..0] == [];
    assert After(m, []) == Some(m);
    assert After(m, store) == Do(m, c, CloseStore);
    if s.Pc(c).CloseLocked? {
      run := [(c, CloseCheck)] + store;
      AfterFirst(s, (c, CloseCheck), store);
    } else {
      run := store;
    }
  }

  /** A second Open that has announced itself while a receive or a send waits for the kernel keeps every
      later Close out: without the kernel isOpen gets to 2 if and only if a Close already has the read
      lock. */
  lemma OpenBlocksClose(s: State, o: Tid, u: Tid, p: PortId)
    requires Inv(s) && s.Valid() && s.isOpen == 1 && s.writer == Some(o) && s.Pc(o) == OpenWaiting
    requires s.Pc(u) == Waiting(p) && s.ports[p].pending == 0
    ensures (exists run :: NoKernel(run) && After(s, run).Some? && After(s, run).value.isOpen == 2)
       <==> exists c: Tid :: s.Pc(c).CloseLocked? || s.Pc(c).CloseChecked?
  {
    hide Inv, After, NoKernel;
    if c: Tid :| s.Pc(c).CloseLocked? || s.Pc(c).CloseChecked? {
      var run := CloseStores(s, c);
    } else if run :| NoKernel(run) && After(s, run).Some? && After(s, run).value.isOpen == 2 {
      FrozenForever(s, o, u, p, run);
    }
  }
}
