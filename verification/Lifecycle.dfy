/** StdNetBind.Open and Close: which sockets are opened, installed and closed, and on which port. */
module Lifecycle {
  import opened Bytes

  datatype Error = EAFNOSUPPORT | EADDRINUSE | OtherError | AlreadyOpen

  datatype Family = V4 | V6

  /** A socket: its identity, family and the port it is bound to. */
  datatype Conn = Conn(id: nat, family: Family, port: nat)

  /** What listening on a family does: it fails, it opens a socket whose configuration or address
      then fails, or it succeeds; asked for port 0 the system picks `chosen`. */
  datatype Listen = Refused(err: Error) | OpenedInVain(err: Error) | Listening(chosen: nat)

  /** The outcomes of one round of opening both families. A port the system picks is a real port. */
  datatype Attempt = Attempt(first: Listen, second: Listen) {
    predicate Valid() {
      (first.Listening? ==> 0 < first.chosen < 0x1_0000) && (second.Listening? ==> 0 < second.chosen < 0x1_0000)
    }
  }

  datatype Result = Ok(port: nat, v4: Option<Conn>, v6: Option<Conn>) | Err(err: Error)

  /** What probing a new socket of either family finds. */
  datatype Offloads = Offloads(tx4: bool, rx4: bool, tx6: bool, rx6: bool)

  const MAX_TRIES: nat := 100

  function ErrorOf(l: Listen): Option<Error> {
    match l
    case Listening(_) => None
    case Refused(e) => Some(e)
    case OpenedInVain(e) => Some(e)
  }

  function BoundPort(requested: nat, chosen: nat): nat { if requested == 0 then chosen else requested }

  // Listening fails with this error, before or after a socket was opened.
  predicate FailsWith(l: Listen, e: Error) { l == Refused(e) || l == OpenedInVain(e) }

  /** Strict opening starts over when the second family finds the system's port taken. */
  predicate StartsOver(a: Attempt, uport: nat, allowSingle: bool) {
    a.first.Listening? && uport == 0 && !allowSingle && FailsWith(a.second, EADDRINUSE)
  }

  /** An attempt after which the bind is open. */
  predicate Succeeds(a: Attempt, allowSingle: bool) {
    if a.first.Listening? then a.second.Listening? || allowSingle || FailsWith(a.second, EAFNOSUPPORT)
    else FailsWith(a.first, EAFNOSUPPORT) && a.second.Listening?
  }

  ghost function ConnIds(a: Option<Conn>, b: Option<Conn>): set<nat> {
    (if a.Some? then {a.value.id} else {}) + (if b.Some? then {b.value.id} else {})
  }

  /** The listeners of a StdNetBind and their offload flags: what Open and Close manage. */
  class Listeners {
    const v6First: bool
    const allowSingle: bool
    var ipv4: Option<Conn>
    var ipv6: Option<Conn>
    var ipv4TxOffload: bool
    var ipv4RxOffload: bool
    var ipv6TxOffload: bool
    var ipv6RxOffload: bool
    ghost var everOpened: set<nat>   // sockets opened so far, by identity
    ghost var closed: set<nat>       // sockets closed so far
    var nextId: nat

    ghost function Installed(): set<nat>
      reads this
    {
      (if ipv4.Some? then {ipv4.value.id} else {}) + (if ipv6.Some? then {ipv6.value.id} else {})
    }

    /** Every socket ever opened is installed or closed, and never both. */
    ghost predicate Valid()
      reads this
    {
      && everOpened == Installed() + closed && Installed() !! closed
      && (forall i :: i in everOpened ==> i < nextId)
      && (ipv4.Some? && ipv6.Some? ==> ipv4.value.id != ipv6.value.id && ipv4.value.port == ipv6.value.port)
      && (ipv4.Some? ==> ipv4.value.family == V4) && (ipv6.Some? ==> ipv6.value.family == V6)
    }

    constructor (v6First: bool, allowSingle: bool)
      ensures Valid() && ipv4 == None && ipv6 == None && everOpened == {} && closed == {}
    {
      this.v6First, this.allowSingle := v6First, allowSingle;
      ipv4, ipv6 := None, None;
      ipv4TxOffload, ipv4RxOffload, ipv6TxOffload, ipv6RxOffload := false, false, false, false;
      everOpened, closed, nextId := {}, {}, 0;
    }

    /** listenNet: a socket that cannot be used is closed before the error is returned. */
    method ListenNet(family: Family, port: nat, l: Listen) returns (conn: Option<Conn>)
      modifies this`everOpened, this`closed, this`nextId
      requires forall i :: i in everOpened || i in closed ==> i < nextId
      ensures forall i :: i in everOpened || i in closed ==> i < nextId
      ensures nextId >= old(nextId)
      ensures match l
              case Listening(chosen) =>
                && conn == Some(Conn(old(nextId), family, BoundPort(port, chosen))) && nextId > old(nextId)
                && everOpened == old(everOpened) + {old(nextId)} && closed == old(closed)
              case Refused(_) => conn == None && everOpened == old(everOpened) && closed == old(closed)
              case OpenedInVain(_) => conn == None && everOpened == old(everOpened) + {old(nextId)} && closed == old(closed) + {old(nextId)}
    {
      match l
      case Refused(_) => conn := None;
      case OpenedInVain(_) =>
        everOpened := everOpened + {nextId};
        closed := closed + {nextId};
        nextId := nextId + 1;
        conn := None;
      case Listening(chosen) =>
        everOpened := everOpened + {nextId};
        conn := Some(Conn(nextId, family, BoundPort(port, chosen)));
        nextId := nextId + 1;
    }

    /** One attempt. It starts over only with both families closed again; otherwise it decides. */
    method TryOpen(uport: nat, a: Attempt, tries: nat, probed: Offloads)
      returns (again: bool, r: Result, reported: Option<Error>)
      requires Valid() && ipv4 == None && ipv6 == None && a.Valid() && uport < 0x1_0000
      modifies this
      ensures Valid() && closed >= old(closed) && everOpened >= old(everOpened)
      ensures again <==>
                && a.first.Listening? && uport == 0 && !allowSingle && tries < 100
                && (a.second == Refused(EADDRINUSE) || a.second == OpenedInVain(EADDRINUSE))
      ensures !again && r.Ok? ==> Probed(probed)
      ensures again || r.Err? ==> SameFlags(old(Flags()))
      ensures again ==> ipv4 == None && ipv6 == None && reported == None
      ensures !again ==> (r.Ok? <==> Succeeds(a, allowSingle)) && OpenResult(r, a, uport)
      ensures reported == if !again && r.Ok? && a.first.Listening? && allowSingle then ErrorOf(a.second) else None
    {
      again, reported, r := false, None, Err(OtherError);
      var port := uport;
      var firstFamily, secondFamily := if v6First then V6 else V4, if v6First then V4 else V6;
      var firstConn := ListenNet(firstFamily, port, a.first);
      var actualPort := port;
      if firstConn.None? {
        if ErrorOf(a.first) != Some(EAFNOSUPPORT) {
          r := Err(ErrorOf(a.first).value);
          return;
        }
      } else {
        actualPort := firstConn.value.port;
        port := actualPort;
      }
      var secondConn := ListenNet(secondFamily, port, a.second);
      if secondConn.Some? {
        if firstConn.None? {
          actualPort := secondConn.value.port;
        }
      } else if firstConn.Some? && uport == 0 && !allowSingle && ErrorOf(a.second) == Some(EADDRINUSE) && tries < MAX_TRIES {
        closed := closed + {firstConn.value.id};
        again := true;
        return;
      } else if firstConn.Some? && allowSingle {
        reported := ErrorOf(a.second);
      } else if firstConn.Some? && ErrorOf(a.second) != Some(EAFNOSUPPORT) {
        closed := closed + {firstConn.value.id};
        r := Err(ErrorOf(a.second).value);
        return;
      } else if firstConn.None? {
        r := Err(if ErrorOf(a.second) != Some(EAFNOSUPPORT) then ErrorOf(a.second).value else EAFNOSUPPORT);
        return;
      }
      r := Finish(firstConn, secondConn, actualPort, probed, a, uport);
    }

    /** Installs the sockets of an attempt that succeeded. */
    method Finish(firstConn: Option<Conn>, secondConn: Option<Conn>, port: nat, probed: Offloads, ghost a: Attempt, ghost uport: nat)
      returns (r: Result)
      requires ipv4 == None && ipv6 == None && closed !! ConnIds(firstConn, secondConn) && everOpened == closed + ConnIds(firstConn, secondConn)
      requires (forall i :: i in everOpened ==> i < nextId) && (firstConn.Some? && secondConn.Some? ==> firstConn.value.id != secondConn.value.id)
      requires Succeeds(a, allowSingle) && firstConn.Some? == a.first.Listening? && secondConn.Some? == a.second.Listening?
      requires firstConn.Some? ==> firstConn.value.port == port && firstConn.value.family == if v6First then V6 else V4
      requires secondConn.Some? ==> secondConn.value.port == port && secondConn.value.family == if v6First then V4 else V6
      requires port < 0x1_0000 && (uport != 0 ==> port == uport)
      requires uport == 0 ==> port == if a.first.Listening? then a.first.chosen else a.second.chosen
      modifies this`ipv4, this`ipv6, this`ipv4TxOffload, this`ipv4RxOffload, this`ipv6TxOffload, this`ipv6RxOffload
      ensures Valid() && r.Ok? && OpenResult(r, a, uport) && Probed(probed)
    {
      Install(if v6First then secondConn else firstConn, if v6First then firstConn else secondConn, probed);
      assert Installed() == ConnIds(firstConn, secondConn);
      r := Ok(port, ipv4, ipv6);
    }

    method Install(v4conn: Option<Conn>, v6conn: Option<Conn>, probed: Offloads)
      requires ipv4 == None && ipv6 == None
      modifies this`ipv4, this`ipv6, this`ipv4TxOffload, this`ipv4RxOffload, this`ipv6TxOffload, this`ipv6RxOffload
      ensures ipv4 == v4conn && ipv6 == v6conn
      ensures v4conn.Some? ==> ipv4TxOffload == probed.tx4 && ipv4RxOffload == probed.rx4
      ensures v6conn.Some? ==> ipv6TxOffload == probed.tx6 && ipv6RxOffload == probed.rx6
    {
      if v4conn.Some? {
        ipv4TxOffload, ipv4RxOffload := probed.tx4, probed.rx4;
        ipv4 := v4conn;
      }
      if v6conn.Some? {
        ipv6TxOffload, ipv6RxOffload := probed.tx6, probed.rx6;
        ipv6 := v6conn;
      }
    }

    /** Open, over every sequence of listen outcomes. It makes at most 101 attempts and succeeds
        exactly when the one that decides does; then every installed socket is bound to the returned
        port, and in strict mode a family is missing only if the system does not support it.
        Otherwise nothing stays open. The sibling's failure is reported exactly when tolerated. */
    method Open(uport: nat, attempts: seq<Attempt>, probed: Offloads)
      returns (r: Result, made: nat, reported: Option<Error>)
      requires Valid() && |attempts| == MAX_TRIES + 1 && (forall i :: 0 <= i < |attempts| ==> attempts[i].Valid())
      requires uport < 0x1_0000
      modifies this
      ensures Valid() && closed >= old(closed) && everOpened >= old(everOpened)
      ensures old(ipv4.Some? || ipv6.Some?) ==>
                && r == Err(AlreadyOpen) && made == 0 && reported == None
                && ipv4 == old(ipv4) && ipv6 == old(ipv6) && everOpened == old(everOpened) && closed == old(closed)
                && SameFlags(old(Flags()))
      ensures old(ipv4.None? && ipv6.None?) ==>
                && made == Deciding(attempts, uport, allowSingle, 0) + 1
                && (r.Ok? <==> Succeeds(attempts[made - 1], allowSingle))
                && OpenResult(r, attempts[made - 1], uport) && made <= 101
                && (if r.Ok? then Probed(probed) else SameFlags(old(Flags())))
                && reported == (if r.Ok? && attempts[made - 1].first.Listening? && allowSingle then ErrorOf(attempts[made - 1].second) else None)
    {
      made, reported := 0, None;
      if ipv4.Some? || ipv6.Some? {
        return Err(AlreadyOpen), made, reported;
      }
      var tries := 0;
      while true
        invariant Valid() && ipv4 == None && ipv6 == None && tries == made <= MAX_TRIES
        invariant closed >= old(closed) && everOpened >= old(everOpened) && SameFlags(old(Flags()))
        invariant Deciding(attempts, uport, allowSingle, 0) == Deciding(attempts, uport, allowSingle, made)
        decreases MAX_TRIES - tries
      {
        var again;
        again, r, reported := TryOpen(uport, attempts[made], tries, probed);
        made := made + 1;
        if !again {
          return;
        }
        tries := tries + 1;
      }
    }

    ghost function Flags(): Offloads
      reads this
    {
      Offloads(ipv4TxOffload, ipv4RxOffload, ipv6TxOffload, ipv6RxOffload)
    }

    ghost predicate SameFlags(was: Offloads)
      reads this
    {
      Flags() == was
    }

    /** Each installed family has the flags that were probed for it. */
    ghost predicate Probed(probed: Offloads)
      reads this
    {
      && (ipv4.Some? ==> ipv4TxOffload == probed.tx4 && ipv4RxOffload == probed.rx4)
      && (ipv6.Some? ==> ipv6TxOffload == probed.tx6 && ipv6RxOffload == probed.rx6)
    }

    /** What the caller gets, in terms of the attempt that decided. */
    ghost predicate OpenResult(r: Result, a: Attempt, uport: nat)
      reads this
    {
      match r
      case Ok(port, v4, v6) =>
        && v4 == ipv4 && v6 == ipv6 && (ipv4.Some? || ipv6.Some?)
        && (ipv4.Some? ==> ipv4.value.port == port) && (ipv6.Some? ==> ipv6.value.port == port)
        // The port asked for, or the one the system chose for the first family that listens.
        && (uport != 0 ==> port == uport)
        && (uport == 0 && a.first.Listening? ==> port == a.first.chosen)
        && (uport == 0 && !a.first.Listening? && a.second.Listening? ==> port == a.second.chosen)
        && (ipv4.Some? <==> (if v6First then a.second else a.first).Listening?)
        && (ipv6.Some? <==> (if v6First then a.first else a.second).Listening?)
        && (!allowSingle && ipv4.None? ==> FailsWith(if v6First then a.second else a.first, EAFNOSUPPORT))
        && (!allowSingle && ipv6.None? ==> FailsWith(if v6First then a.first else a.second, EAFNOSUPPORT))
        && port < 0x1_0000
      case Err(e) =>
        && ipv4 == None && ipv6 == None && Installed() == {} && everOpened == closed
        // The first family's error, unless it listens or the system does not support it.
        && FailsWith(if a.first.Listening? || FailsWith(a.first, EAFNOSUPPORT) then a.second else a.first, e)
    }

    /** Close closes what is installed, so that every socket ever opened is closed, and lowers all
        offload flags; a second Close changes nothing. */
    method Close()
      requires Valid()
      modifies this
      ensures Valid() && ipv4 == None && ipv6 == None && everOpened == old(everOpened) && closed == everOpened
      ensures !ipv4TxOffload && !ipv4RxOffload && !ipv6TxOffload && !ipv6RxOffload
      ensures old(Installed()) == {} ==> closed == old(closed)
    {
      if ipv4.Some? {
        closed := closed + {ipv4.value.id};
        ipv4 := None;
      }
      if ipv6.Some? {
        closed := closed + {ipv6.value.id};
        ipv6 := None;
      }
      ipv4TxOffload, ipv4RxOffload, ipv6TxOffload, ipv6RxOffload := false, false, false, false;
    }
  }

  /** When a run of attempts ends: at the first that does not start over, or after 101. */
  function Deciding(attempts: seq<Attempt>, uport: nat, allowSingle: bool, i: nat): (d: nat)
    requires i < |attempts|
    ensures i <= d < |attempts|
    ensures forall k :: i <= k < d ==> StartsOver(attempts[k], uport, allowSingle)
    ensures StartsOver(attempts[d], uport, allowSingle) ==> d == |attempts| - 1
    decreases |attempts| - i
  {
    if StartsOver(attempts[i], uport, allowSingle) && i + 1 < |attempts| then Deciding(attempts, uport, allowSingle, i + 1) else i
  }
}
