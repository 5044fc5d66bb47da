/** The pooled destination address: one 16-byte buffer re-sliced to 4 or 16 bytes on every send. */
module Address {
  import opened Bytes
  import opened Control
  import opened Memory

  /** The address object after a send to `dst`. Copying stops at the length the previous use left. */
  function Load(ip: Buffer, dst: seq<byte>): (r: Buffer)
    requires ip.Valid() && |dst| <= |ip.mem|
    ensures r.Valid() && |r.mem| == |ip.mem| && r.len == |dst|
  {
    var k := Min(ip.len, |dst|);
    Buffer(dst[..k] + ip.mem[k..], |dst|)
  }

  predicate IsIP(dst: seq<byte>) { |dst| == 4 || |dst| == 16 }

  predicate AllIP(history: seq<seq<byte>>) { forall d :: d in history ==> IsIP(d) }

  /** An IPv4 address in its IPv6 form: ten zeros, two bytes of 255 and the address. */
  predicate IsIPv4Mapped(ip: seq<byte>) { |ip| == 16 && ip[..10] == Zeros(10) && ip[10] == 255 && ip[11] == 255 }

  lemma MappedIs(ip: seq<byte>)
    requires |ip| == 16
    ensures IsIPv4Mapped(ip) <==> (forall i :: 0 <= i < 10 ==> ip[i] == 0) && ip[10] == 255 && ip[11] == 255
  {
    if forall i :: 0 <= i < 10 ==> ip[i] == 0 { assert ip[..10] == Zeros(10); }
    if ip[..10] == Zeros(10) {
      forall i | 0 <= i < 10 ensures ip[i] == 0 { assert ip[..10][i] == Zeros(10)[i]; }
    }
  }

  /** An address object as the pool hands it out. */
  predicate Pooled(ip: Buffer) { |ip.mem| == 16 && (ip.len == 4 || ip.len == 16) }

  const FRESH: Buffer := Buffer(Zeros(16), 16)

  /** A send carries exactly the endpoint's address, except that an IPv6 send right after an IPv4
      one on the same object keeps the old bytes from the fifth on. */
  lemma LoadExact(ip: Buffer, dst: seq<byte>)
    requires Pooled(ip) && IsIP(dst)
    ensures Pooled(Load(ip, dst))
    ensures Load(ip, dst).Bytes() == dst <==> |dst| == 4 || ip.len == 16 || ip.mem[4..] == dst[4..]
    ensures Load(ip, dst).Bytes()[..4] == dst[..4]
    ensures |dst| == 4 || ip.len == 4 ==> Load(ip, dst).mem[4..] == ip.mem[4..]
  {
    var r := Load(ip, dst);
    if |dst| == 16 && ip.len == 4 {
      assert r.Bytes() == dst[..4] + ip.mem[4..];
      assert r.Bytes()[4..] == ip.mem[4..];
      assert dst == dst[..4] + dst[4..];
    } else {
      assert r.Bytes() == dst;
    }
    assert r.Bytes()[..4] == dst[..4];
  }

  /** The object after a whole history of sends, oldest first. */
  function After(history: seq<seq<byte>>): (ip: Buffer)
    requires AllIP(history)
    ensures Pooled(ip) && ip.len == if history == [] then 16 else |history[|history| - 1]|
  {
    if history == [] then FRESH
    else
      var ip := After(history[..|history| - 1]);
      LoadExact(ip, history[|history| - 1]);
      Load(ip, history[|history| - 1])
  }

  /** The bytes an IPv4 use leaves behind its address: those of the last IPv6 send that was exact,
      or zeros. */
  function Leftover(history: seq<seq<byte>>): (b: seq<byte>)
    requires AllIP(history)
    ensures |b| == 12
  {
    if history == [] then Zeros(12)
    else
      var init, last := history[..|history| - 1], history[|history| - 1];
      if |last| == 16 && (init == [] || |init[|init| - 1]| == 16) then last[4..] else Leftover(init)
  }

  lemma {:induction false} LeftoverIs(history: seq<seq<byte>>)
    requires AllIP(history)
    ensures After(history).mem[4..] == Leftover(history)
  {
    if history != [] {
      var init, last := history[..|history| - 1], history[|history| - 1];
      LeftoverIs(init);
      LoadExact(After(init), last);
      if |last| == 16 && After(init).len == 16 {
        assert Load(After(init), last).mem[4..] == last[4..];
      }
    }
  }

  /** Over every history of one pooled object: an IPv4 send is always right, an IPv6 send is right
      unless its predecessor was IPv4 and the bytes left over differ; the first four always are. */
  lemma ReuseExact(history: seq<seq<byte>>, dst: seq<byte>)
    requires IsIP(dst) && AllIP(history)
    ensures Load(After(history), dst).Bytes() == dst <==>
            |dst| == 4 || history == [] || |history[|history| - 1]| == 16 || Leftover(history) == dst[4..]
    ensures Load(After(history), dst).Bytes()[..4] == dst[..4]
  {
    LoadExact(After(history), dst);
    LeftoverIs(history);
  }

  /** A send to 0.0.0.1 followed by one to an IPv6 address with a nonzero tail goes astray. */
  lemma WrongAddressAfterIPv4(dst: seq<byte>)
    requires |dst| == 16 && dst[4..] != Zeros(12)
    ensures Load(After([[0, 0, 0, 1]]), dst).Bytes() == dst[..4] + Zeros(12) != dst
  {
    var h: seq<seq<byte>> := [[0, 0, 0, 1]];
    assert h[..0] == [];
    LeftoverIs(h);
    assert Leftover(h) == Leftover(h[..0]) == Zeros(12);
    var r := Load(After(h), dst);
    assert r.Bytes() == dst[..4] + After(h).mem[4..];
    assert r.Bytes()[4..] == Zeros(12);
  }

  /** The address a send to `dst` goes to, through an object with this history of sends. */
  function Destination(history: seq<seq<byte>>, dst: seq<byte>, port: nat): Addr
    requires AllIP(history) && IsIP(dst)
  {
    Addr(Load(After(history), dst).Bytes(), port)
  }

  class UDPAddr {
    var ip: Buffer
    var port: nat
    ghost var history: seq<seq<byte>>   // the destinations it was used for, oldest first

    /** The object is what its history of sends made of it. */
    ghost predicate Valid()
      reads this
    {
      AllIP(history) && ip == After(history)
    }

    constructor ()
      ensures Valid() && history == []
    {
      ip := FRESH;
      port := 0;
      history := [];
    }

    method SetDestination(dst: seq<byte>, port: nat)
      requires Valid() && IsIP(dst)
      modifies this
      ensures Valid() && history == old(history) + [dst]
      ensures Value() == Destination(old(history), dst, port)
    {
      LoadExact(ip, dst);
      var k := Min(ip.len, |dst|);
      ip := ip.(mem := dst[..k] + ip.mem[k..]);
      ip := ip.(len := |dst|);
      this.port := port;
      assert (history + [dst])[..|history|] == history;
      history := history + [dst];
    }

    function Value(): Addr
      requires Valid()
      reads this
    {
      Addr(ip.mem[..ip.len], port)
    }
  }
}
