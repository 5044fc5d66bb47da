/** Sequences of calls on one bind or one batching connection, over the pools they share. */
module Session {
  import opened Bytes
  import opened Control
  import opened Memory
  import opened Grouping
  import opened Segmentation
  import opened Wire
  import opened Writes
  import opened Address
  import opened Send
  import opened Split
  import opened Window
  import opened Receive
  import opened BatchingConn

  // ---------------------------------------------------------------- a bind

  /** A call on a bind. The caller of a send puts the data into its buffers first. */
  datatype Op =
    | SendOp(bufs: seq<Slice>, data: seq<seq<byte>>, dst: seq<byte>, port: nat, src: seq<byte>)
    | ReceiveOp(bufs: seq<Slice>, path: Path, arrivals: seq<Arrival>, failed: bool)
  {
    // What the callers of Send and of a receive function promise.
    ghost predicate Valid(size: nat, batchSize: nat) {
      && AllValid(bufs, size) && AllDisjoint(bufs)
      && match this
         case SendOp(_, _, _, _, _) => IsIP(dst) && ValidSrc(src) && |bufs| <= batchSize && Lens(data) == Coalesce.Lengths(bufs)
         case ReceiveOp(_, _, _, _) => UsesGro(path, batchSize) ==> SizesFit(bufs, batchSize - GroReadBatchSize(batchSize), batchSize, arrivals)
    }
  }

  /** What the callers see: the memory their buffers are in, and the lists a receive fills. */
  datatype Caller = Caller(mem: seq<byte>, sizes: seq<nat>, eps: seq<Option<Endpoint>>)

  ghost function CallerOf(mem: array<byte>, sizes: array<nat>, eps: array<Option<Endpoint>>): Caller
    reads mem, sizes, eps
  {
    Caller(mem[..], sizes[..], eps[..])
  }

  // One family of a bind: whether it has a socket, is blackholed, and segments.
  datatype Family = Family(socket: bool, blackhole: bool, offload: bool)

  /** How a session starts. */
  datatype Start = Start(caller: Caller, batchSize: nat, v4: Family, v6: Family) {
    function FamilyOf(dst: seq<byte>): Family { if |dst| == 16 then v6 else v4 }
  }

  ghost function StartOf(b: StdNetBind, mem: array<byte>, sizes: array<nat>, eps: array<Option<Endpoint>>): Start
    reads b, mem, sizes, eps
  {
    Start(CallerOf(mem, sizes, eps), b.msgsPool.batchSize, Family(b.ipv4 != null, b.blackhole4, b.ipv4TxOffload),
          Family(b.ipv6 != null, b.blackhole6, b.ipv6TxOffload))
  }

  /** What a call did, and what it left to the callers. */
  datatype Event =
    | SendEvent(after: Caller, offload: bool, history: seq<seq<byte>>, result: SendResult, packets: seq<Packet>, calls: seq<Call>)
    | ReceiveEvent(after: Caller, n: nat, received: ReceiveResult, rs: seq<Received>)

  /** What the callers have before call `i`. */
  ghost function Before(st: Start, log: seq<Event>, i: nat): Caller
    requires i <= |log|
  {
    if i == 0 then st.caller else log[i - 1].after
  }

  /** The destination was sent to before call `i`. */
  ghost predicate Earlier(ops: seq<Op>, i: nat, d: seq<byte>) {
    exists j :: 0 <= j < i <= |ops| && ops[j].SendOp? && ops[j].dst == d
  }

  ghost function RequestFor(op: Op, e: Event): (q: Request)
    requires op.SendOp? && e.SendEvent? && |op.data| == |op.bufs| && AllIP(e.history) && IsIP(op.dst)
    ensures q.Valid()
  {
    RequestOf(op.bufs, op.data, |op.dst| == 16, Destination(e.history, op.dst, op.port), op.src, e.offload)
  }

  /** A send leaves its data in the caller's buffers and, beyond their storage, everything as it was. */
  ghost predicate SendLeaves(op: Op, before: Caller, after: Caller)
    requires AllValid(op.bufs, |after.mem|)
  {
    && op.SendOp? && Views(after.mem, op.bufs) == op.data && SameBeyond(before.mem, after.mem, op.bufs)
    && after.sizes == before.sizes && after.eps == before.eps
  }

  /** A receive gives the caller what its own arrivals make, and leaves everything else as it was; without
      room for a batch, or when the read fails, everything. */
  ghost predicate ReceiveLeaves(op: Op, batchSize: nat, before: Caller, e: Event)
    requires op.ReceiveOp? && e.ReceiveEvent? && AllValid(op.bufs, |e.after.mem|)
  {
    && (e.received.TooShort? <==> |op.bufs| < batchSize || |before.sizes| < batchSize || |before.eps| < batchSize)
    && (e.received.ReadFailed? <==> !e.received.TooShort? && op.failed)
    && (e.received.TooShort? || e.received.ReadFailed? ==> e.n == 0 && e.after == before)
    && (!e.received.TooShort? && !e.received.ReadFailed? ==>
          HandedOut(op.bufs, batchSize, op.path, op.arrivals, e.after.mem, e.after.sizes, e.after.eps, e.n, e.received, e.rs))
    && Beside(op.bufs, e.n, before.mem, before.sizes, before.eps, e.after.mem, e.after.sizes, e.after.eps)
  }

  /** Event `i` is a possible outcome of call `i` after the earlier ones. */
  ghost predicate EventOk(st: Start, ops: seq<Op>, log: seq<Event>, i: nat)
    requires i < |ops| && i < |log| && ops[i].Valid(|st.caller.mem|, st.batchSize)
  {
    var op, e, before := ops[i], log[i], Before(st, log, i);
    |e.after.mem| == |st.caller.mem| &&
    match op
    case SendOp(_, _, _, _, _) =>
      && e.SendEvent? && |op.data| == |op.bufs| && SendLeaves(op, before, e.after)
      && AllIP(e.history) && (forall d :: d in e.history ==> Earlier(ops, i, d))
      && (e.result.Blackholed? <==> st.FamilyOf(op.dst).blackhole)
      && (e.result.Unsupported? <==> !st.FamilyOf(op.dst).blackhole && !st.FamilyOf(op.dst).socket)
      && e.offload == FlagBefore(ops, log, i, |op.dst| == 16, st.FamilyOf(op.dst).offload)
      && Account(RequestFor(op, e), e.result, e.packets, e.calls)
    case ReceiveOp(_, _, _, _) => e.ReceiveEvent? && ReceiveLeaves(op, st.batchSize, before, e)
  }

  /** The offload flag of a family before call `i`: as at first, until a send of the family was rejected. */
  ghost predicate FlagBefore(ops: seq<Op>, log: seq<Event>, i: nat, is6: bool, first: bool) {
    && first
    && forall j :: 0 <= j < i && j < |ops| && j < |log| && ops[j].SendOp? && (|ops[j].dst| == 16) == is6 ==>
         !(log[j].SendEvent? && log[j].result.GsoDisabled?)
  }

  /** The packets of one family so far. */
  ghost function PacketsTo(ops: seq<Op>, log: seq<Event>, k: nat, is6: bool): seq<Packet>
    requires k <= |log| && k <= |ops|
  {
    if k == 0 then [] else PacketsTo(ops, log, k - 1, is6) + Part(ops[k - 1], log[k - 1], is6)
  }

  ghost function Part(op: Op, e: Event, is6: bool): seq<Packet> {
    if op.SendOp? && e.SendEvent? && (|op.dst| == 16) == is6 then e.packets else []
  }

  ghost predicate SoFar(st: Start, ops: seq<Op>, log: seq<Event>) {
    && |log| <= |ops|
    && (forall i :: 0 <= i < |ops| ==> ops[i].Valid(|st.caller.mem|, st.batchSize))
    && (forall i :: 0 <= i < |log| ==> EventOk(st, ops, log, i))
  }

  /** The write calls on the socket of one family so far. */
  ghost function CallsTo(ops: seq<Op>, log: seq<Event>, k: nat, is6: bool): seq<Call>
    requires k <= |log| && k <= |ops|
  {
    if k == 0 then [] else CallsTo(ops, log, k - 1, is6) + CallPart(ops[k - 1], log[k - 1], is6)
  }

  ghost function CallPart(op: Op, e: Event, is6: bool): seq<Call> {
    if op.SendOp? && e.SendEvent? && (|op.dst| == 16) == is6 then e.calls else []
  }

  // A longer log leaves the earlier events and the packets before them as they are.
  lemma {:induction false} EventStays(st: Start, ops: seq<Op>, log: seq<Event>, e: Event, i: nat)
    requires SoFar(st, ops, log) && i < |log| < |ops|
    ensures ops[i].Valid(|st.caller.mem|, st.batchSize) && EventOk(st, ops, log + [e], i)
  {
    hide Account, RequestFor, SendLeaves, ReceiveLeaves, Op.Valid;
    var longer := log + [e];
    assert longer[i] == log[i] && Before(st, longer, i) == Before(st, log, i) && EventOk(st, ops, log, i);
    forall is6: bool, first: bool ensures FlagBefore(ops, longer, i, is6, first) == FlagBefore(ops, log, i, is6, first) {
      assert forall j :: 0 <= j < i ==> longer[j] == log[j];
    }
  }

  lemma {:induction false} LogGrows(st: Start, ops: seq<Op>, log: seq<Event>, e: Event)
    requires SoFar(st, ops, log) && |log| < |ops| && ops[|log|].Valid(|st.caller.mem|, st.batchSize)
    requires EventOk(st, ops, log + [e], |log|)
    ensures SoFar(st, ops, log + [e])
  {
    hide EventOk, Op.Valid;
    var longer := log + [e];
    forall i | 0 <= i < |longer| ensures EventOk(st, ops, longer, i) {
      if i < |log| { EventStays(st, ops, log, e, i); }
    }
  }

  lemma {:induction false} PacketsStay(ops: seq<Op>, log: seq<Event>, e: Event, k: nat, is6: bool)
    requires k <= |log| < |ops|
    ensures PacketsTo(ops, log + [e], k, is6) == PacketsTo(ops, log, k, is6) && CallsTo(ops, log + [e], k, is6) == CallsTo(ops, log, k, is6)
  {
    if k > 0 { PacketsStay(ops, log, e, k - 1, is6); }
  }

  /** What the calls so far leave behind in the bind and to the callers. */
  ghost predicate Stands(st: Start, ops: seq<Op>, log: seq<Event>, seen: set<seq<byte>>, now: Start) {
    && |log| <= |ops| && (forall d :: d in seen ==> Earlier(ops, |log|, d))
    && now.caller == Before(st, log, |log|) && |now.caller.mem| == |st.caller.mem| && now.batchSize == st.batchSize
    && now.v4 == st.v4.(offload := FlagBefore(ops, log, |log|, false, st.v4.offload))
    && now.v6 == st.v6.(offload := FlagBefore(ops, log, |log|, true, st.v6.offload))
  }

  /** The bind and the callers after an event. */
  function Next(now: Start, op: Op, e: Event): Start {
    var off := op.SendOp? && e.SendEvent? && e.result.GsoDisabled?;
    now.(caller := e.after,
         v4 := now.v4.(offload := now.v4.offload && !(off && |op.dst| == 4)),
         v6 := now.v6.(offload := now.v6.offload && !(off && |op.dst| == 16)))
  }

  lemma {:induction false} StandsAfter(st: Start, ops: seq<Op>, log: seq<Event>, e: Event, seen: set<seq<byte>>, now: Start, seen': set<seq<byte>>)
    requires Stands(st, ops, log, seen, now) && |log| < |ops| && |e.after.mem| == |now.caller.mem|
    requires ops[|log|].SendOp? ==> IsIP(ops[|log|].dst) && e.SendEvent?
    requires seen' <= seen + (if ops[|log|].SendOp? then {ops[|log|].dst} else {})
    ensures Stands(st, ops, log + [e], seen', Next(now, ops[|log|], e))
  {
    var longer, k := log + [e], |log|;
    assert longer[k] == e && forall j :: 0 <= j < k ==> longer[j] == log[j];
    forall is6: bool, first: bool
      ensures FlagBefore(ops, longer, k + 1, is6, first)
          <==> FlagBefore(ops, log, k, is6, first) && !(ops[k].SendOp? && (|ops[k].dst| == 16) == is6 && e.SendEvent? && e.result.GsoDisabled?)
    {
      assert longer[k] == e;
    }
    forall d | d in seen' ensures Earlier(ops, k + 1, d) {
      if d in seen { assert Earlier(ops, k, d); }
    }
  }

  lemma {:induction false} SendIsOk(st: Start, ops: seq<Op>, log: seq<Event>, e: Event, seen: set<seq<byte>>, now: Start)
    requires Stands(st, ops, log, seen, now) && |log| < |ops| && ops[|log|].Valid(|st.caller.mem|, st.batchSize)
    requires SendDone(ops[|log|], now, e) && forall d :: d in e.history ==> d in seen
    ensures EventOk(st, ops, log + [e], |log|)
    ensures IsIP(ops[|log|].dst) && e.SendEvent?
  {
    hide Account, RequestFor, Op.Valid, SendLeaves;
    var longer, k := log + [e], |log|;
    assert longer[k] == e && forall j :: 0 <= j < k ==> longer[j] == log[j];
    forall is6: bool, first: bool ensures FlagBefore(ops, longer, k, is6, first) <==> FlagBefore(ops, log, k, is6, first) {
    }
  }

  lemma {:induction false} ReceiveIsOk(st: Start, ops: seq<Op>, log: seq<Event>, e: Event, seen: set<seq<byte>>, now: Start)
    requires Stands(st, ops, log, seen, now) && |log| < |ops| && ops[|log|].ReceiveOp? && e.ReceiveEvent?
    requires ops[|log|].Valid(|st.caller.mem|, st.batchSize) && |e.after.mem| == |now.caller.mem|
    requires AllValid(ops[|log|].bufs, |e.after.mem|) && ReceiveLeaves(ops[|log|], now.batchSize, now.caller, e)
    ensures EventOk(st, ops, log + [e], |log|)
  {
    hide ReceiveLeaves, Op.Valid;
    var longer, k := log + [e], |log|;
    assert longer[k] == e && forall j :: 0 <= j < k ==> longer[j] == log[j];
  }

  lemma {:induction false} PacketsGrow(ops: seq<Op>, log: seq<Event>, e: Event, is6: bool)
    requires |log| < |ops|
    ensures PacketsTo(ops, log + [e], |log| + 1, is6) == PacketsTo(ops, log, |log|, is6) + Part(ops[|log|], e, is6)
    ensures CallsTo(ops, log + [e], |log| + 1, is6) == CallsTo(ops, log, |log|, is6) + CallPart(ops[|log|], e, is6)
  {
    PacketsStay(ops, log, e, |log|, is6);
  }

  /** Any sequence of sends and receives on a new bind. Every call finds what the one before left to the
      callers and does what its own contract says; the pools carry nothing from one to the next but
      address objects with a history of earlier sends; each family's socket gets the packets of its
      sends, in order. */
  method Perform(b: StdNetBind, mem: array<byte>, sizes: array<nat>, eps: array<Option<Endpoint>>, ops: seq<Op>)
    returns (ghost log: seq<Event>)
    requires b.Valid() && b.udpAddrPool.seen == {} && (b.ipv4 == null || b.ipv4 != b.ipv6)
    requires forall i :: 0 <= i < |ops| ==> ops[i].Valid(mem.Length, b.msgsPool.batchSize)
    modifies b, b.ipv4, b.ipv6, b.msgsPool, b.msgsPool.free, b.udpAddrPool, b.udpAddrPool.free, mem, sizes, eps
    ensures b.Valid() && b.ipv4 == old(b.ipv4) && b.ipv6 == old(b.ipv6) && |log| == |ops|
    ensures SoFar(old(StartOf(b, mem, sizes, eps)), ops, log)
    ensures CallerOf(mem, sizes, eps) == Before(old(StartOf(b, mem, sizes, eps)), log, |log|)
    ensures b.ipv4 != null ==> b.ipv4.wire == old(b.ipv4.wire) + PacketsTo(ops, log, |ops|, false) && b.ipv4.calls == old(b.ipv4.calls) + CallsTo(ops, log, |ops|, false)
    ensures b.ipv6 != null ==> b.ipv6.wire == old(b.ipv6.wire) + PacketsTo(ops, log, |ops|, true) && b.ipv6.calls == old(b.ipv6.calls) + CallsTo(ops, log, |ops|, true)
  {
    hide *;
    log := [];
    ghost var st := StartOf(b, mem, sizes, eps);
    StartIs(b, mem, sizes, eps);
    Begins(st, ops);
    for i := 0 to |ops|
      invariant |log| == i && b.Valid() && b.ipv4 == old(b.ipv4) && b.ipv6 == old(b.ipv6)
      invariant fresh(b.msgsPool.free - old(b.msgsPool.free)) && fresh(b.udpAddrPool.free - old(b.udpAddrPool.free))
      invariant SoFar(st, ops, log) && Stands(st, ops, log, b.udpAddrPool.seen, StartOf(b, mem, sizes, eps))
      invariant b.ipv4 != null ==> b.ipv4.wire == old(b.ipv4.wire) + PacketsTo(ops, log, i, false) && b.ipv4.calls == old(b.ipv4.calls) + CallsTo(ops, log, i, false)
      invariant b.ipv6 != null ==> b.ipv6.wire == old(b.ipv6.wire) + PacketsTo(ops, log, i, true) && b.ipv6.calls == old(b.ipv6.calls) + CallsTo(ops, log, i, true)
    {
      ghost var e := PerformOne(b, mem, sizes, eps, ops[i], st, ops, log);
      PacketsGrow(ops, log, e, false);
      PacketsGrow(ops, log, e, true);
      if b.ipv4 != null {
        Reassociate(old(b.ipv4.wire), PacketsTo(ops, log, i, false), Part(ops[i], e, false));
        Reassociate(old(b.ipv4.calls), CallsTo(ops, log, i, false), CallPart(ops[i], e, false));
      }
      if b.ipv6 != null {
        Reassociate(old(b.ipv6.wire), PacketsTo(ops, log, i, true), Part(ops[i], e, true));
        Reassociate(old(b.ipv6.calls), CallsTo(ops, log, i, true), CallPart(ops[i], e, true));
      }
      log := log + [e];
    }
    StandsNow(st, ops, log, b.udpAddrPool.seen, StartOf(b, mem, sizes, eps));
    StartIs(b, mem, sizes, eps);
  }

  lemma StartIs(b: StdNetBind, mem: array<byte>, sizes: array<nat>, eps: array<Option<Endpoint>>)
    ensures var st := StartOf(b, mem, sizes, eps);
            && st.caller == CallerOf(mem, sizes, eps) == Caller(mem[..], sizes[..], eps[..]) && st.batchSize == b.msgsPool.batchSize
            && |st.caller.mem| == mem.Length
            && st.v4 == Family(b.ipv4 != null, b.blackhole4, b.ipv4TxOffload) && st.v6 == Family(b.ipv6 != null, b.blackhole6, b.ipv6TxOffload)
            && st == Start(Caller(mem[..], sizes[..], eps[..]), b.msgsPool.batchSize, st.v4, st.v6)
  {
  }

  lemma StandsNow(st: Start, ops: seq<Op>, log: seq<Event>, seen: set<seq<byte>>, now: Start)
    requires Stands(st, ops, log, seen, now)
    ensures now.caller == Before(st, log, |log|) && now.batchSize == st.batchSize && |now.caller.mem| == |st.caller.mem|
  {
  }

  method PerformOne(b: StdNetBind, mem: array<byte>, sizes: array<nat>, eps: array<Option<Endpoint>>, op: Op,
                    ghost st: Start, ghost ops: seq<Op>, ghost log: seq<Event>)
    returns (ghost e: Event)
    requires b.Valid() && (b.ipv4 == null || b.ipv4 != b.ipv6) && |log| < |ops| && op == ops[|log|]
    requires SoFar(st, ops, log) && Stands(st, ops, log, b.udpAddrPool.seen, StartOf(b, mem, sizes, eps))
    modifies b, b.ipv4, b.ipv6, b.msgsPool, b.msgsPool.free, b.udpAddrPool, b.udpAddrPool.free, mem, sizes, eps
    ensures b.Valid() && b.ipv4 == old(b.ipv4) && b.ipv6 == old(b.ipv6)
    ensures fresh(b.msgsPool.free - old(b.msgsPool.free)) && fresh(b.udpAddrPool.free - old(b.udpAddrPool.free))
    ensures SoFar(st, ops, log + [e]) && Stands(st, ops, log + [e], b.udpAddrPool.seen, StartOf(b, mem, sizes, eps))
    ensures b.ipv4 != null ==> b.ipv4.wire == old(b.ipv4.wire) + Part(op, e, false) && b.ipv4.calls == old(b.ipv4.calls) + CallPart(op, e, false)
    ensures b.ipv6 != null ==> b.ipv6.wire == old(b.ipv6.wire) + Part(op, e, true) && b.ipv6.calls == old(b.ipv6.calls) + CallPart(op, e, true)
  {
    hide *;
    NextIsValid(st, ops, log);
    if op.SendOp? {
      e := PerformSend(b, mem, sizes, eps, op, st, ops, log);
    } else {
      e := PerformReceive(b, mem, sizes, eps, op, st, ops, log);
    }
    LogGrows(st, ops, log, e);
  }

  lemma NextIsValid(st: Start, ops: seq<Op>, log: seq<Event>)
    requires SoFar(st, ops, log) && |log| < |ops|
    ensures ops[|log|].Valid(|st.caller.mem|, st.batchSize)
  {
    hide EventOk, Op.Valid;
  }

  lemma SendFacts(op: Op, size: nat, batchSize: nat)
    requires op.Valid(size, batchSize) && op.SendOp?
    ensures AllValid(op.bufs, size) && AllDisjoint(op.bufs) && IsIP(op.dst) && ValidSrc(op.src) && |op.bufs| <= batchSize
    ensures |op.data| == |op.bufs| && forall k :: 0 <= k < |op.bufs| ==> |op.data[k]| == op.bufs[k].len
  {
    assert |Lens(op.data)| == |Coalesce.Lengths(op.bufs)|;
    assert forall k :: 0 <= k < |op.bufs| ==> Lens(op.data)[k] == Coalesce.Lengths(op.bufs)[k];
  }

  lemma ReceiveFacts(op: Op, size: nat, batchSize: nat)
    requires op.Valid(size, batchSize) && op.ReceiveOp?
    ensures AllValid(op.bufs, size) && AllDisjoint(op.bufs)
    ensures UsesGro(op.path, batchSize) ==> SizesFit(op.bufs, batchSize - GroReadBatchSize(batchSize), batchSize, op.arrivals)
  {
  }

  lemma BindFacts(b: StdNetBind)
    requires b.Valid()
    ensures b.msgsPool.Valid() && b.udpAddrPool.Valid()
  {
  }

  lemma StillValid(b: StdNetBind)
    requires b.msgsPool.Valid() && b.udpAddrPool.Valid()
    ensures b.Valid()
  {
  }

  method PerformReceive(b: StdNetBind, mem: array<byte>, sizes: array<nat>, eps: array<Option<Endpoint>>, op: Op,
                        ghost st: Start, ghost ops: seq<Op>, ghost log: seq<Event>)
    returns (ghost e: Event)
    requires b.Valid() && |log| < |ops| && op == ops[|log|] && op.ReceiveOp? && op.Valid(|st.caller.mem|, st.batchSize)
    requires Stands(st, ops, log, b.udpAddrPool.seen, StartOf(b, mem, sizes, eps))
    modifies b.msgsPool, b.msgsPool.free, mem, sizes, eps
    ensures b.Valid() && fresh(b.msgsPool.free - old(b.msgsPool.free)) && b.udpAddrPool.free == old(b.udpAddrPool.free)
    ensures EventOk(st, ops, log + [e], |log|) && Stands(st, ops, log + [e], b.udpAddrPool.seen, StartOf(b, mem, sizes, eps))
    ensures Part(op, e, false) == Part(op, e, true) == [] && CallPart(op, e, false) == CallPart(op, e, true) == []
  {
    hide *;
    ghost var seen, now := b.udpAddrPool.seen, StartOf(b, mem, sizes, eps);
    StartIs(b, mem, sizes, eps);
    StandsNow(st, ops, log, seen, now);
    ReceiveFacts(op, mem.Length, b.msgsPool.batchSize);
    BindFacts(b);
    ghost var pool := b.udpAddrPool;
    var n, r;
    ghost var rs;
    n, r, rs := ReceiveIP(b.msgsPool, mem, op.bufs, sizes, eps, op.path, op.arrivals, op.failed);
    StillValid(b);
    StartIs(b, mem, sizes, eps);
    e := ReceiveEvent(Caller(mem[..], sizes[..], eps[..]), n, r, rs);
    ReceiveLeft(op, now.batchSize, now.caller, e);
    ReceiveIsOk(st, ops, log, e, seen, now);
    StandsAfter(st, ops, log, e, seen, now, seen);
    NextIs(now, op, e);
    PartIs(op, e);
  }

  lemma ReceiveLeft(op: Op, batchSize: nat, before: Caller, e: Event)
    requires op.ReceiveOp? && e.ReceiveEvent? && AllValid(op.bufs, |e.after.mem|)
    requires e.received.TooShort? <==> |op.bufs| < batchSize || |before.sizes| < batchSize || |before.eps| < batchSize
    requires e.received.ReadFailed? <==> !e.received.TooShort? && op.failed
    requires e.received.TooShort? || e.received.ReadFailed? ==> e.n == 0 && e.after == before
    requires !e.received.TooShort? && !e.received.ReadFailed? ==>
               HandedOut(op.bufs, batchSize, op.path, op.arrivals, e.after.mem, e.after.sizes, e.after.eps, e.n, e.received, e.rs)
    requires Beside(op.bufs, e.n, before.mem, before.sizes, before.eps, e.after.mem, e.after.sizes, e.after.eps)
    ensures ReceiveLeaves(op, batchSize, before, e)
  {
    hide HandedOut, Beside;
  }

  lemma NextIs(now: Start, op: Op, e: Event)
    ensures var n, off := Next(now, op, e), op.SendOp? && e.SendEvent? && e.result.GsoDisabled?;
            && n == Start(e.after, now.batchSize, n.v4, n.v6)
            && n.v4 == Family(now.v4.socket, now.v4.blackhole, now.v4.offload && !(off && |op.dst| == 4))
            && n.v6 == Family(now.v6.socket, now.v6.blackhole, now.v6.offload && !(off && |op.dst| == 16))
  {
  }

  /** The caller of a send puts its data into the buffers. */
  method Fill(mem: array<byte>, bufs: seq<Slice>, data: seq<seq<byte>>)
    requires AllValid(bufs, mem.Length) && AllDisjoint(bufs)
    requires |data| == |bufs| && forall k :: 0 <= k < |bufs| ==> |data[k]| == bufs[k].len
    modifies mem
    ensures Views(mem[..], bufs) == data && SameBeyond(old(mem[..]), mem[..], bufs)
  {
    hide SameBeyond, SameOutside;
    SameItself(mem[..], bufs);
    for k := 0 to |bufs|
      invariant forall j :: 0 <= j < k ==> View(mem[..], bufs[j]) == data[j]
      invariant SameBeyond(old(mem[..]), mem[..], bufs)
    {
      ghost var was := mem[..];
      WriteBytes(mem, bufs[k].off, data[k]);
      SameAfter(old(mem[..]), was, mem[..], bufs[k].off, bufs[k].off + |data[k]|, bufs, k);
      forall j | 0 <= j < k ensures View(mem[..], bufs[j]) == data[j] {
        assert Disjoint(bufs[j], bufs[k]);
        ViewStable(was, mem[..], bufs[k].off, bufs[k].off + |data[k]|, bufs[j]);
      }
    }
  }

  method PerformSend(b: StdNetBind, mem: array<byte>, ghost sizes: array<nat>, ghost eps: array<Option<Endpoint>>, op: Op,
                     ghost st: Start, ghost ops: seq<Op>, ghost log: seq<Event>)
    returns (ghost e: Event)
    requires b.Valid() && (b.ipv4 == null || b.ipv4 != b.ipv6) && |log| < |ops| && op == ops[|log|] && op.SendOp?
    requires op.Valid(|st.caller.mem|, st.batchSize) && Stands(st, ops, log, b.udpAddrPool.seen, StartOf(b, mem, sizes, eps))
    modifies b, b.ipv4, b.ipv6, b.msgsPool, b.msgsPool.free, b.udpAddrPool, b.udpAddrPool.free, mem
    ensures b.Valid() && b.ipv4 == old(b.ipv4) && b.ipv6 == old(b.ipv6)
    ensures fresh(b.msgsPool.free - old(b.msgsPool.free)) && fresh(b.udpAddrPool.free - old(b.udpAddrPool.free))
    ensures EventOk(st, ops, log + [e], |log|) && Stands(st, ops, log + [e], b.udpAddrPool.seen, StartOf(b, mem, sizes, eps))
    ensures b.ipv4 != null ==> b.ipv4.wire == old(b.ipv4.wire) + Part(op, e, false) && b.ipv4.calls == old(b.ipv4.calls) + CallPart(op, e, false)
    ensures b.ipv6 != null ==> b.ipv6.wire == old(b.ipv6.wire) + Part(op, e, true) && b.ipv6.calls == old(b.ipv6.calls) + CallPart(op, e, true)
  {
    hide *;
    ghost var seen, now := b.udpAddrPool.seen, StartOf(b, mem, sizes, eps);
    StartIs(b, mem, sizes, eps);
    StandsNow(st, ops, log, seen, now);
    SendFacts(op, mem.Length, b.msgsPool.batchSize);
    Fill(mem, op.bufs, op.data);
    e := SendFilled(b, mem, op, now);
    StartIs(b, mem, sizes, eps);
    SendIsOk(st, ops, log, e, seen, now);
    StandsAfter(st, ops, log, e, seen, now, b.udpAddrPool.seen);
    NextIs(now, op, e);
  }

  /** One send of a session, in terms of what the bind and the callers had before. */
  ghost predicate SendDone(op: Op, now: Start, e: Event) {
    && op.SendOp? && e.SendEvent? && |op.data| == |op.bufs| && AllIP(e.history) && IsIP(op.dst)
    && |e.after.mem| == |now.caller.mem| && AllValid(op.bufs, |e.after.mem|) && SendLeaves(op, now.caller, e.after)
    && (e.result.Blackholed? <==> now.FamilyOf(op.dst).blackhole)
    && (e.result.Unsupported? <==> !now.FamilyOf(op.dst).blackhole && !now.FamilyOf(op.dst).socket)
    && e.offload == now.FamilyOf(op.dst).offload
    && Account(RequestFor(op, e), e.result, e.packets, e.calls)
  }

  method SendFilled(b: StdNetBind, mem: array<byte>, op: Op, ghost now: Start)
    returns (ghost e: Event)
    requires b.Valid() && (b.ipv4 == null || b.ipv4 != b.ipv6) && op.SendOp? && op.Valid(mem.Length, b.msgsPool.batchSize)
    requires AllValid(op.bufs, mem.Length) && Views(mem[..], op.bufs) == op.data && SameBeyond(now.caller.mem, mem[..], op.bufs)
    requires |now.caller.mem| == mem.Length && now.v4 == Family(b.ipv4 != null, b.blackhole4, b.ipv4TxOffload)
    requires now.v6 == Family(b.ipv6 != null, b.blackhole6, b.ipv6TxOffload)
    modifies b, b.ipv4, b.ipv6, b.msgsPool, b.msgsPool.free, b.udpAddrPool, b.udpAddrPool.free, mem
    ensures b.Valid() && b.ipv4 == old(b.ipv4) && b.ipv6 == old(b.ipv6)
    ensures fresh(b.msgsPool.free - old(b.msgsPool.free)) && fresh(b.udpAddrPool.free - old(b.udpAddrPool.free))
    ensures SendDone(op, now, e) && e.after == Caller(mem[..], now.caller.sizes, now.caller.eps)
    ensures (forall d :: d in e.history ==> d in old(b.udpAddrPool.seen)) && b.udpAddrPool.seen <= old(b.udpAddrPool.seen) + {op.dst}
    ensures b.blackhole4 == old(b.blackhole4) && b.blackhole6 == old(b.blackhole6)
    ensures b.ipv4TxOffload == (now.v4.offload && !(e.result.GsoDisabled? && |op.dst| == 4))
    ensures b.ipv6TxOffload == (now.v6.offload && !(e.result.GsoDisabled? && |op.dst| == 16))
    ensures b.ipv4 != null ==> b.ipv4.wire == old(b.ipv4.wire) + Part(op, e, false) && b.ipv4.calls == old(b.ipv4.calls) + CallPart(op, e, false)
    ensures b.ipv6 != null ==> b.ipv6.wire == old(b.ipv6.wire) + Part(op, e, true) && b.ipv6.calls == old(b.ipv6.calls) + CallPart(op, e, true)
  {
    hide *;
    SendFacts(op, mem.Length, b.msgsPool.batchSize);
    ghost var filled := mem[..];
    FamilyFacts(b, op.dst);
    FamilyIs(now, op.dst);
    var r;
    ghost var history, ps, made;
    r, history, ps, made := b.Send(mem, op.bufs, op.dst, op.port, op.src);
    FamilyFacts(b, op.dst);
    SameTransitive(now.caller.mem, filled, mem[..], op.bufs);
    e := SendEvent(Caller(mem[..], now.caller.sizes, now.caller.eps), now.FamilyOf(op.dst).offload, history, r, ps, made);
    SendLeft(op, now.caller, e.after);
    RequestIs(op, e);
    SendIsDone(op, now, e);
    PartIs(op, e);
  }

  lemma SendIsDone(op: Op, now: Start, e: Event)
    requires op.SendOp? && e.SendEvent? && |op.data| == |op.bufs| && AllIP(e.history) && IsIP(op.dst)
    requires |e.after.mem| == |now.caller.mem| && AllValid(op.bufs, |e.after.mem|) && SendLeaves(op, now.caller, e.after)
    requires e.result.Blackholed? <==> now.FamilyOf(op.dst).blackhole
    requires e.result.Unsupported? <==> !now.FamilyOf(op.dst).blackhole && !now.FamilyOf(op.dst).socket
    requires e.offload == now.FamilyOf(op.dst).offload && Account(RequestFor(op, e), e.result, e.packets, e.calls)
    ensures SendDone(op, now, e)
  {
    hide Account, RequestFor, SendLeaves, AllIP, AllValid;
  }

  lemma SendLeft(op: Op, before: Caller, after: Caller)
    requires op.SendOp? && AllValid(op.bufs, |after.mem|) && Views(after.mem, op.bufs) == op.data
    requires SameBeyond(before.mem, after.mem, op.bufs) && after.sizes == before.sizes && after.eps == before.eps
    ensures SendLeaves(op, before, after)
  {
  }

  lemma FamilyFacts(b: StdNetBind, dst: seq<byte>)
    ensures b.SocketFor(dst) == (if |dst| == 16 then b.ipv6 else b.ipv4)
    ensures b.OffloadFor(dst) == (if |dst| == 16 then b.ipv6TxOffload else b.ipv4TxOffload)
    ensures b.BlackholeFor(dst) == (if |dst| == 16 then b.blackhole6 else b.blackhole4)
  {
  }

  lemma FamilyIs(st: Start, dst: seq<byte>)
    ensures st.FamilyOf(dst) == if |dst| == 16 then st.v6 else st.v4
  {
  }

  lemma RequestIs(op: Op, e: Event)
    requires op.SendOp? && e.SendEvent? && |op.data| == |op.bufs| && AllIP(e.history) && IsIP(op.dst)
    ensures RequestFor(op, e) == RequestOf(op.bufs, op.data, |op.dst| == 16, Destination(e.history, op.dst, op.port), op.src, e.offload)
  {
  }

  lemma PartIs(op: Op, e: Event)
    ensures forall is6 :: Part(op, e, is6) == if op.SendOp? && e.SendEvent? && (|op.dst| == 16) == is6 then e.packets else []
    ensures forall is6 :: CallPart(op, e, is6) == if op.SendOp? && e.SendEvent? && (|op.dst| == 16) == is6 then e.calls else []
  {
  }

  lemma Begins(st: Start, ops: seq<Op>)
    requires forall i :: 0 <= i < |ops| ==> ops[i].Valid(|st.caller.mem|, st.batchSize)
    ensures SoFar(st, ops, []) && Stands(st, ops, [], {}, st)
    ensures PacketsTo(ops, [], 0, false) == [] && PacketsTo(ops, [], 0, true) == []
    ensures CallsTo(ops, [], 0, false) == [] && CallsTo(ops, [], 0, true) == []
  {
    hide Op.Valid;
  }

  // ---------------------------------------------------------------- what a session guarantees

  /** No send before call `i` went to an IPv4 destination. */
  ghost predicate NoIPv4Before(ops: seq<Op>, i: nat) {
    forall j :: 0 <= j < i && j < |ops| && ops[j].SendOp? ==> |ops[j].dst| != 4
  }

  /** Through whatever object the pool provides, a send goes to its own destination if that is IPv4 or
      no IPv4 send came before. In general it does exactly as the history of that object says. */
  lemma {:induction false} AddressRight(st: Start, ops: seq<Op>, log: seq<Event>, i: nat)
    requires SoFar(st, ops, log) && i < |log| && ops[i].SendOp?
    ensures log[i].SendEvent? && |ops[i].data| == |ops[i].bufs| && AllIP(log[i].history) && IsIP(ops[i].dst)
    ensures var h, dst := log[i].history, ops[i].dst;
            RequestFor(ops[i], log[i]).dst == Addr(dst, ops[i].port) <==>
            |dst| == 4 || h == [] || |h[|h| - 1]| == 16 || Leftover(h) == dst[4..]
    ensures |ops[i].dst| == 4 || NoIPv4Before(ops, i) ==> RequestFor(ops[i], log[i]).dst == Addr(ops[i].dst, ops[i].port)
  {
    hide Account, HandedOut, RequestOf, After, Load, Leftover, SizesFit, FlagBefore, GreedyCuts, SendLeaves, ReceiveLeaves;
    assert ops[i].Valid(|st.caller.mem|, st.batchSize) && EventOk(st, ops, log, i);
    var h, dst := log[i].history, ops[i].dst;
    ReuseExact(h, dst);
    RequestIs(ops[i], log[i]);
    RequestDst(ops[i].bufs, ops[i].data, |dst| == 16, Destination(h, dst, ops[i].port), ops[i].src, log[i].offload);
    if NoIPv4Before(ops, i) && h != [] {
      assert h[|h| - 1] in h && Earlier(ops, i, h[|h| - 1]);
    }
  }

  lemma RequestDst(bufs: seq<Slice>, data: seq<seq<byte>>, is6: bool, dst: Addr, src: seq<byte>, offload: bool)
    requires |data| == |bufs|
    ensures RequestOf(bufs, data, is6, dst, src, offload).dst == dst
    ensures RequestOf(bufs, data, is6, dst, src, offload).src == SourceInfo(src)
    ensures RequestOf(bufs, data, is6, dst, src, offload).data == data
    ensures RequestOf(bufs, data, is6, dst, src, offload).cuts == GreedyCuts(Batch(Coalesce.Lengths(bufs), Capacities(bufs), Coalesce.PayloadLimit(is6)))
  {
  }

  function Bare(ps: seq<Packet>): (bare: seq<Packet>)
    ensures |bare| == |ps| && forall i :: 0 <= i < |ps| ==> bare[i] == ps[i].(segmented := false)
  {
    seq(|ps|, i requires 0 <= i < |ps| => ps[i].(segmented := false))
  }

  function Packets(data: seq<seq<byte>>, dst: Addr, src: Option<Cmsg>): (ps: seq<Packet>)
    ensures |ps| == |data| && forall i :: 0 <= i < |data| ==> ps[i] == Packet(data[i], Some(dst), src, false)
  {
    seq(|data|, i requires 0 <= i < |data| => Packet(data[i], Some(dst), src, false))
  }

  /** What the callers of one family asked to be sent: their data, destinations and sources alone. */
  ghost function Asked(ops: seq<Op>, k: nat, is6: bool): seq<Packet>
    requires k <= |ops|
  {
    if k == 0 then [] else Asked(ops, k - 1, is6) + AskedBy(ops[k - 1], is6)
  }

  function AskedBy(op: Op, is6: bool): seq<Packet> {
    if op.SendOp? && (|op.dst| == 16) == is6 then Packets(op.data, Addr(op.dst, op.port), SourceInfo(op.src)) else []
  }

  /** A send that succeeded, of buffers that are not empty, through an address object that is right. */
  ghost predicate Smooth(ops: seq<Op>, log: seq<Event>, i: nat)
    requires i < |ops| && i < |log| && ops[i].SendOp?
  {
    && log[i].SendEvent? && log[i].result == Sent && (forall j :: 0 <= j < |ops[i].data| ==> |ops[i].data[j]| > 0)
    && (|ops[i].dst| == 4 || NoIPv4Before(ops, i))
  }

  lemma {:induction false} CarryIsBare(ps: seq<Packet>, data: seq<seq<byte>>, dst: Addr, src: Option<Cmsg>)
    requires Carry(ps, data, dst, src)
    ensures Bare(ps) == Packets(data, dst, src)
  {
  }

  lemma {:induction false} SmoothSend(st: Start, ops: seq<Op>, log: seq<Event>, i: nat)
    requires SoFar(st, ops, log) && i < |log| && ops[i].SendOp? && Smooth(ops, log, i)
    ensures Bare(log[i].packets) == Packets(ops[i].data, Addr(ops[i].dst, ops[i].port), SourceInfo(ops[i].src))
  {
    hide Account, HandedOut, RequestOf, Destination, EventOk, Carry, GreedyCuts, Op.Valid, SoFar;
    LogFits(st, ops, log);
    AddressRight(st, ops, log, i);
    SendReported(st, ops, log, i);
    Reported(RequestFor(ops[i], log[i]), log[i].result, log[i].packets, log[i].calls);
    var op, e := ops[i], log[i];
    RequestIs(op, e);
    RequestDst(op.bufs, op.data, |op.dst| == 16, Destination(e.history, op.dst, op.port), op.src, e.offload);
    var b := Batch(Coalesce.Lengths(op.bufs), Capacities(op.bufs), Coalesce.PayloadLimit(|op.dst| == 16));
    WholeRun(b, RequestFor(op, e), Sent, e.packets);
    CarryIsBare(e.packets, op.data, Addr(op.dst, op.port), SourceInfo(op.src));
  }

  lemma Reported(q: Request, r: SendResult, ps: seq<Packet>, calls: seq<Call>)
    requires q.Valid() && Account(q, r, ps, calls)
    ensures Report(q, r, ps)
  {
    hide Report, Made;
  }

  lemma SendReported(st: Start, ops: seq<Op>, log: seq<Event>, i: nat)
    requires SoFar(st, ops, log) && i < |log| && ops[i].SendOp?
    ensures log[i].SendEvent? && |ops[i].data| == |ops[i].bufs| && AllIP(log[i].history) && IsIP(ops[i].dst)
    ensures Lens(ops[i].data) == Coalesce.Lengths(ops[i].bufs) && Account(RequestFor(ops[i], log[i]), log[i].result, log[i].packets, log[i].calls)
  {
    hide Account, HandedOut, RequestFor, SizesFit, FlagBefore, SendLeaves, ReceiveLeaves;
    assert ops[i].Valid(|st.caller.mem|, st.batchSize) && EventOk(st, ops, log, i);
  }

  /** Over a whole session in which the sends of a family went smoothly, its wire carries what was
      asked, each datagram once, in the order of the calls. */
  lemma {:induction false} SessionOnWire(st: Start, ops: seq<Op>, log: seq<Event>, k: nat, is6: bool)
    requires SoFar(st, ops, log) && k <= |log|
    requires forall i :: 0 <= i < k && ops[i].SendOp? && (|ops[i].dst| == 16) == is6 ==> Smooth(ops, log, i)
    ensures Bare(PacketsTo(ops, log, k, is6)) == Asked(ops, k, is6)
  {
    hide *;
    LogFits(st, ops, log);
    if k == 0 {
      NothingOnWire(ops, log, is6);
    } else {
      SessionOnWire(st, ops, log, k - 1, is6);
      WireUnfolds(ops, log, k, is6);
      BareConcat(PacketsTo(ops, log, k - 1, is6), Part(ops[k - 1], log[k - 1], is6));
      PartOnWire(st, ops, log, k - 1, is6);
    }
  }

  lemma NothingOnWire(ops: seq<Op>, log: seq<Event>, is6: bool)
    ensures Bare(PacketsTo(ops, log, 0, is6)) == Asked(ops, 0, is6)
  {
  }

  lemma {:induction false} WireUnfolds(ops: seq<Op>, log: seq<Event>, k: nat, is6: bool)
    requires 0 < k <= |log| && k <= |ops|
    ensures PacketsTo(ops, log, k, is6) == PacketsTo(ops, log, k - 1, is6) + Part(ops[k - 1], log[k - 1], is6)
    ensures Asked(ops, k, is6) == Asked(ops, k - 1, is6) + AskedBy(ops[k - 1], is6)
  {
    hide Part, AskedBy;
  }

  lemma {:induction false} PartOnWire(st: Start, ops: seq<Op>, log: seq<Event>, i: nat, is6: bool)
    requires SoFar(st, ops, log) && i < |log| && i < |ops| && (ops[i].SendOp? && (|ops[i].dst| == 16) == is6 ==> Smooth(ops, log, i))
    ensures Bare(Part(ops[i], log[i], is6)) == AskedBy(ops[i], is6)
  {
    hide SoFar, Packets, NoIPv4Before;
    if ops[i].SendOp? && (|ops[i].dst| == 16) == is6 { SmoothSend(st, ops, log, i); }
  }

  /** What a call left to the callers stays there until a call uses storage that holds it: any byte that
      belongs to no buffer of the calls in between is the same after them. */
  lemma {:induction false} BytesStay(st: Start, ops: seq<Op>, log: seq<Event>, i: nat, j: nat, at: nat)
    requires SoFar(st, ops, log) && i <= j <= |log| && at < |st.caller.mem|
    requires forall m :: i <= m < j && m < |ops| ==> !Stored(ops[m].bufs, at)
    ensures |Before(st, log, i).mem| == |Before(st, log, j).mem| == |st.caller.mem|
    ensures Before(st, log, j).mem[at] == Before(st, log, i).mem[at]
    decreases j
  {
    hide SoFar, Stored;
    if i < j {
      BytesStay(st, ops, log, i, j - 1, at);
      LogFits(st, ops, log);
      CallStays(st, ops, log, j - 1);
    } else if i > 0 {
      LogFits(st, ops, log);
      CallStays(st, ops, log, i - 1);
    }
  }

  lemma CallStays(st: Start, ops: seq<Op>, log: seq<Event>, i: nat)
    requires SoFar(st, ops, log) && i < |log| && i < |ops|
    ensures |log[i].after.mem| == |st.caller.mem| && SameBeyond(Before(st, log, i).mem, log[i].after.mem, ops[i].bufs)
  {
    hide Account, RequestFor, HandedOut, FlagBefore, Op.Valid, Stored;
    assert EventOk(st, ops, log, i);
  }

  lemma LogFits(st: Start, ops: seq<Op>, log: seq<Event>)
    requires SoFar(st, ops, log)
    ensures |log| <= |ops|
  {
  }

  lemma BareConcat(a: seq<Packet>, b: seq<Packet>)
    ensures Bare(a + b) == Bare(a) + Bare(b) && (b == [] ==> Bare(a + b) == Bare(a))
  {
  }

  // ---------------------------------------------------------------- a batching connection

  datatype Write = Write(bufs: seq<Slice>, ip: seq<byte>, port: nat)

  datatype Written = Written(tooLarge: bool, offload: bool, still: bool, history: seq<seq<byte>>, result: SendResult, packets: seq<Packet>,
                            calls: seq<Call>)

  /** Call `i` of a sequence of WriteBatchTo calls, in terms of the earlier ones and the flag at first. */
  ghost predicate WriteOk(mem: seq<byte>, ws: seq<Write>, log: seq<Written>, i: nat, batchSize: nat, first: bool)
    requires i < |ws| && i < |log| && AllValid(ws[i].bufs, |mem|) && IsIP(ws[i].ip)
  {
    var w, e := ws[i], log[i];
    && AllIP(e.history) && (forall d :: d in e.history ==> exists j :: 0 <= j < i && ws[j].ip == d)
    && (e.tooLarge <==> |w.bufs| > batchSize) && (e.tooLarge ==> e.packets == [] && e.calls == [])
    && (e.offload ==> first && forall j :: 0 <= j < i ==> log[j].offload && !log[j].result.GsoDisabled?)
    && (!e.tooLarge ==>
          BatchAccount(GatherRequest(w.bufs, Views(mem, w.bufs), Destination(e.history, w.ip, w.port), e.offload), e.still, e.result, e.packets, e.calls))
  }

  ghost function AllPackets(log: seq<Written>): seq<Packet> {
    if |log| == 0 then [] else AllPackets(log[..|log| - 1]) + log[|log| - 1].packets
  }

  ghost function AllCalls(log: seq<Written>): seq<Call> {
    if |log| == 0 then [] else AllCalls(log[..|log| - 1]) + log[|log| - 1].calls
  }

  ghost predicate WritesOk(mem: seq<byte>, ws: seq<Write>, log: seq<Written>, batchSize: nat, first: bool) {
    && |log| <= |ws|
    && (forall i :: 0 <= i < |ws| ==> AllValid(ws[i].bufs, |mem|) && IsIP(ws[i].ip))
    && (forall i :: 0 <= i < |log| ==> WriteOk(mem, ws, log, i, batchSize, first))
  }

  lemma {:induction false} WriteStays(mem: seq<byte>, ws: seq<Write>, log: seq<Written>, e: Written, batchSize: nat, first: bool)
    requires WritesOk(mem, ws, log, batchSize, first) && |log| < |ws| && WriteOk(mem, ws, log + [e], |log|, batchSize, first)
    ensures WritesOk(mem, ws, log + [e], batchSize, first) && AllPackets(log + [e]) == AllPackets(log) + e.packets && AllCalls(log + [e]) == AllCalls(log) + e.calls
  {
    hide BatchAccount, GatherRequest, Destination, AllValid;
    var longer := log + [e];
    assert longer[..|log|] == log;
    forall i | 0 <= i < |longer| ensures WriteOk(mem, ws, longer, i, batchSize, first) {
      if i < |log| {
        assert WriteOk(mem, ws, log, i, batchSize, first) && longer[i] == log[i];
        assert forall j :: 0 <= j < i ==> longer[j] == log[j];
      }
    }
  }

  // What the calls so far leave behind: destinations seen, and a flag that only goes down.
  ghost predicate Left(ws: seq<Write>, log: seq<Written>, seen: set<seq<byte>>, flag: bool, first: bool) {
    && |log| <= |ws| && (forall d :: d in seen ==> exists j :: 0 <= j < |log| && ws[j].ip == d)
    && (flag ==> first && forall j :: 0 <= j < |log| ==> log[j].offload && !log[j].result.GsoDisabled?)
  }

  lemma {:induction false} LeftAfter(mem: seq<byte>, ws: seq<Write>, log: seq<Written>, e: Written, seen: set<seq<byte>>, flag: bool,
                                     seen': set<seq<byte>>, flag': bool, batchSize: nat, first: bool)
    requires Left(ws, log, seen, flag, first) && |log| < |ws| && AllValid(ws[|log|].bufs, |mem|) && IsIP(ws[|log|].ip)
    requires seen' <= seen + {ws[|log|].ip} && (flag' ==> flag && e.offload && !e.result.GsoDisabled?) && (e.offload ==> flag)
    requires AllIP(e.history) && (forall d :: d in e.history ==> d in seen)
    requires (e.tooLarge <==> |ws[|log|].bufs| > batchSize) && (e.tooLarge ==> e.packets == [] && e.calls == [])
    requires var w := ws[|log|];
             !e.tooLarge ==>
               BatchAccount(GatherRequest(w.bufs, Views(mem, w.bufs), Destination(e.history, w.ip, w.port), e.offload), e.still, e.result, e.packets, e.calls)
    ensures Left(ws, log + [e], seen', flag', first) && WriteOk(mem, ws, log + [e], |log|, batchSize, first)
  {
    hide BatchAccount, GatherRequest, Destination, AllValid;
    var longer, k := log + [e], |log|;
    assert longer[k] == e && forall j :: 0 <= j < k ==> longer[j] == log[j];
    forall d | d in seen' ensures exists j :: 0 <= j < k + 1 && ws[j].ip == d {
      if d in seen {
        var j :| 0 <= j < k && ws[j].ip == d;
      } else {
        assert ws[k].ip == d;
      }
    }
  }

  /** Any sequence of WriteBatchTo calls on a new connection. */
  method WriteAll(conn: LinuxBatchingConn, mem: array<byte>, ws: seq<Write>) returns (ghost log: seq<Written>)
    requires conn.Valid() && conn.seen == {} && mem !in conn.repr
    requires forall i :: 0 <= i < |ws| ==> AllValid(ws[i].bufs, mem.Length) && IsIP(ws[i].ip)
    modifies conn, conn.sock, conn.free, conn.repr
    ensures conn.Valid() && |log| == |ws| && WritesOk(mem[..], ws, log, conn.batchSize, old(conn.txOffload))
    ensures conn.sock.wire == old(conn.sock.wire) + AllPackets(log) && conn.sock.calls == old(conn.sock.calls) + AllCalls(log)
  {
    hide *;
    log := [];
    WritesBegin(mem[..], ws, conn.batchSize, conn.txOffload);
    ghost var wire, calls, first := conn.sock.wire, conn.sock.calls, conn.txOffload;
    for i := 0 to |ws|
      invariant |log| == i && conn.Valid() && mem !in conn.repr
      invariant fresh(conn.free - old(conn.free)) && fresh(conn.repr - old(conn.repr))
      invariant WritesOk(mem[..], ws, log, conn.batchSize, first) && Left(ws, log, conn.seen, conn.txOffload, first)
      invariant conn.sock.wire == wire + AllPackets(log) && conn.sock.calls == calls + AllCalls(log)
    {
      ghost var e := WriteOne(conn, mem, ws[i], ws, log, wire, calls, first);
      log := log + [e];
    }
  }

  method WriteOne(conn: LinuxBatchingConn, mem: array<byte>, w: Write, ghost ws: seq<Write>, ghost log: seq<Written>, ghost wire: seq<Packet>,
                  ghost calls: seq<Call>, ghost first: bool)
    returns (ghost e: Written)
    requires conn.Valid() && mem !in conn.repr && |log| < |ws| && w == ws[|log|] && AllValid(w.bufs, mem.Length) && IsIP(w.ip)
    requires WritesOk(mem[..], ws, log, conn.batchSize, first) && Left(ws, log, conn.seen, conn.txOffload, first)
    requires conn.sock.wire == wire + AllPackets(log) && conn.sock.calls == calls + AllCalls(log)
    modifies conn, conn.sock, conn.free, conn.repr
    ensures conn.Valid() && fresh(conn.free - old(conn.free)) && fresh(conn.repr - old(conn.repr))
    ensures mem[..] == old(mem[..])
    ensures WritesOk(mem[..], ws, log + [e], conn.batchSize, first) && Left(ws, log + [e], conn.seen, conn.txOffload, first)
    ensures conn.sock.wire == wire + AllPackets(log + [e]) && conn.sock.calls == calls + AllCalls(log + [e])
  {
    hide *;
    ghost var seen, flag := conn.seen, conn.txOffload;
    var tooLarge, r;
    ghost var history, on, still, ps, made;
    tooLarge, r, history, on, still, ps, made := conn.WriteBatchTo(mem, w.bufs, w.ip, w.port);
    assert mem[..] == old(mem[..]);
    e := Written(tooLarge, on, still, history, r, ps, made);
    LeftAfter(mem[..], ws, log, e, seen, flag, conn.seen, conn.txOffload, conn.batchSize, first);
    WriteStays(mem[..], ws, log, e, conn.batchSize, first);
    Reassociate(wire, AllPackets(log), ps);
    Reassociate(calls, AllCalls(log), made);
  }

  lemma WritesBegin(mem: seq<byte>, ws: seq<Write>, batchSize: nat, flag: bool)
    requires forall i :: 0 <= i < |ws| ==> AllValid(ws[i].bufs, |mem|) && IsIP(ws[i].ip)
    ensures WritesOk(mem, ws, [], batchSize, flag) && Left(ws, [], {}, flag, flag) && AllPackets([]) == [] && AllCalls([]) == []
  {
  }
}
