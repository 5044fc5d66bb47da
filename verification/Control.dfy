/** Ancillary data: the control-message codec of gso_linux.go and sticky_linux.go.

    Headers follow the 64-bit little-endian Linux layout: an 8-byte length, a 4-byte level and a
    4-byte type, with data aligned to 8 bytes (CMSG_LEN and CMSG_SPACE, sections 5.2 and 5.3 of RFC 3542). */
module Control {
  import opened Bytes

  const HEADER: nat := 16           // SizeofCmsghdr
  const GSO_DATA: nat := 2          // sizeOfGSOData
  const GSO_SPACE: nat := 24        // CmsgSpace(2)
  const PKTINFO4_DATA: nat := 12    // SizeofInet4Pktinfo
  const PKTINFO6_DATA: nat := 20    // SizeofInet6Pktinfo
  const PKTINFO4_SPACE: nat := 32
  const PKTINFO6_SPACE: nat := 40   // stickyControlSize

  const IPPROTO_IP: nat := 0
  const IP_PKTINFO: nat := 8
  const SOL_UDP: nat := 17
  const IPPROTO_IPV6: nat := 41
  const IPV6_PKTINFO: nat := 50
  const UDP_SEGMENT: nat := 103
  const UDP_GRO: nat := 104

  function Align(n: nat): nat { (n + 7) / 8 * 8 }

  datatype Cmsg = Cmsg(level: nat, kind: nat, data: seq<byte>) {
    predicate Valid() { level < Pow256(4) && kind < Pow256(4) && HEADER + |data| < Pow256(8) }
    predicate IsPktinfo4() { level == IPPROTO_IP && kind == IP_PKTINFO }
    predicate IsPktinfo6() { level == IPPROTO_IPV6 && kind == IPV6_PKTINFO }
    predicate IsPktinfo() { IsPktinfo4() || IsPktinfo6() }
    predicate IsGro() { level == SOL_UDP && kind == UDP_GRO && |data| >= GSO_DATA }
    predicate IsSegment() { level == SOL_UDP && kind == UDP_SEGMENT && |data| >= GSO_DATA }
  }

  function Header(level: nat, kind: nat, dataLen: nat): (b: seq<byte>)
    ensures |b| == HEADER
  {
    LE(HEADER + dataLen, 8) + LE(level, 4) + LE(kind, 4)
  }

  // ---------------------------------------------------------------- parsing

  datatype One = Bad | Good(msg: Cmsg, rest: seq<byte>)

  /** What unix.ParseOneSocketControlMessage does: it rejects a length below the header size or
      beyond the buffer, and otherwise consumes the aligned length. */
  function ParseOne(b: seq<byte>): (r: One)
    requires |b| > HEADER
    ensures r.Good? ==> |r.rest| < |b|
  {
    var len := FromLE(b[..8]);
    if len < HEADER || len > |b| then Bad
    else Good(Cmsg(FromLE(b[8..12]), FromLE(b[12..16]), b[HEADER..len]),
              if Align(len) < |b| then b[Align(len)..] else [])
  }

  /** The messages read before the buffer ends or one fails to parse. */
  datatype Parsed = Parsed(msgs: seq<Cmsg>, ok: bool)

  function Parse(b: seq<byte>): Parsed
    decreases |b|
  {
    if |b| <= HEADER then Parsed([], true)
    else match ParseOne(b)
      case Bad => Parsed([], false)
      case Good(m, rest) => var p := Parse(rest); Parsed([m] + p.msgs, p.ok)
  }

  datatype Want = Pktinfo | Gro | Segment

  predicate Matches(m: Cmsg, w: Want) {
    match w
    case Pktinfo => m.IsPktinfo()
    case Gro => m.IsGro()
    case Segment => m.IsSegment()
  }

  function First(ms: seq<Cmsg>, w: Want): (r: Option<Cmsg>)
    ensures r.Some? ==> Matches(r.value, w) && r.value in ms
    ensures r.None? ==> forall m :: m in ms ==> !Matches(m, w)
  {
    if |ms| == 0 then None
    else if Matches(ms[0], w) then Some(ms[0])
    else First(ms[1..], w)
  }

  /** The first match is the one before which there is none. */
  lemma {:induction false} FirstIsEarliest(ms: seq<Cmsg>, w: Want, k: nat)
    requires k < |ms| && Matches(ms[k], w)
    requires forall j :: 0 <= j < k ==> !Matches(ms[j], w)
    ensures First(ms, w) == Some(ms[k])
  {
    if k > 0 {
      FirstIsEarliest(ms[1..], w, k - 1);
    }
  }

  // ---------------------------------------------------------------- encoding

  /** A control message with the bytes that fill it up to its aligned size. */
  datatype Item = Item(msg: Cmsg, pad: seq<byte>) {
    predicate Valid() { msg.Valid() && HEADER + |msg.data| + |pad| == Align(HEADER + |msg.data|) }
    function Encode(): seq<byte> { Header(msg.level, msg.kind, |msg.data|) + msg.data + pad }
  }

  function EncodeAll(items: seq<Item>): seq<byte> {
    if |items| == 0 then [] else items[0].Encode() + EncodeAll(items[1..])
  }

  function Messages(items: seq<Item>): (ms: seq<Cmsg>)
    ensures |ms| == |items|
    ensures forall k :: 0 <= k < |ms| ==> ms[k] == items[k].msg
  {
    seq(|items|, k requires 0 <= k < |items| => items[k].msg)
  }

  lemma {:induction false} ParseOneEncoded(i: Item, tail: seq<byte>)
    requires i.Valid() && |i.msg.data| + |i.pad| + |tail| > 0
    ensures ParseOne(i.Encode() + tail) == Good(i.msg, tail)
  {
    var b := i.Encode() + tail;
    FromLEInverse(HEADER + |i.msg.data|, 8);
    FromLEInverse(i.msg.level, 4);
    FromLEInverse(i.msg.kind, 4);
    assert b[..8] == LE(HEADER + |i.msg.data|, 8);
    assert b[8..12] == LE(i.msg.level, 4);
    assert b[12..16] == LE(i.msg.kind, 4);
    assert b[HEADER..HEADER + |i.msg.data|] == i.msg.data;
    assert b[|i.Encode()|..] == tail;
  }

  lemma {:induction false} ParseItemThen(i: Item, tail: seq<byte>)
    requires i.Valid() && |i.msg.data| + |i.pad| + |tail| > 0
    ensures Parse(i.Encode() + tail) == Parsed([i.msg] + Parse(tail).msgs, Parse(tail).ok)
  {
    ParseOneEncoded(i, tail);
  }

  lemma {:induction false} ParseEncodedThen(items: seq<Item>, tail: seq<byte>)
    requires forall i :: i in items ==> i.Valid()
    requires |tail| > 0
    ensures Parse(EncodeAll(items) + tail).msgs == Messages(items) + Parse(tail).msgs
    ensures Parse(EncodeAll(items) + tail).ok == Parse(tail).ok
  {
    hide *;
    if |items| == 0 {
      EncodeNone(items);
      assert EncodeAll(items) + tail == tail && Messages(items) + Parse(tail).msgs == Parse(tail).msgs;
    } else {
      var more := items[1..];
      EncodeFirst(items);
      ParseEncodedThen(more, tail);
      ParseItemThen(items[0], EncodeAll(more) + tail);
      Reassociate(items[0].Encode(), EncodeAll(more), tail);
      assert Messages(items) == [items[0].msg] + Messages(more);
      Reassociate([items[0].msg], Messages(more), Parse(tail).msgs);
    }
  }

  /** The messages the parse loops see: the loop guard makes them skip a message without data at
      the very end of the buffer, and nothing else. */
  function Visible(items: seq<Item>): seq<Item> {
    if |items| > 0 && |items[|items| - 1].msg.data| == 0 then items[..|items| - 1] else items
  }

  /** Round trip of any well-formed list of control messages. */
  lemma {:induction false} ParseEncoded(items: seq<Item>)
    requires forall i :: i in items ==> i.Valid()
    ensures Parse(EncodeAll(items)) == Parsed(Messages(Visible(items)), true)
  {
    if |items| > 0 {
      var init, last := items[..|items| - 1], items[|items| - 1];
      assert init + [last] == items;
      EncodeAllSnoc(init, last);
      ParseEncodedThen(init, last.Encode());
      ParseLast(last);
      if |last.msg.data| == 0 {
        assert Messages(init) + [] == Messages(init);
      } else {
        assert Messages(init) + [last.msg] == Messages(items);
      }
    }
  }

  lemma {:induction false} ParseLast(last: Item)
    requires last.Valid()
    ensures Parse(last.Encode()) == Parsed(if |last.msg.data| == 0 then [] else [last.msg], true)
  {
    if |last.msg.data| > 0 {
      ParseOneEncoded(last, []);
      assert last.Encode() + [] == last.Encode();
      assert Parse([]) == Parsed([], true);
    }
  }

  lemma {:induction false} EncodeFirst(items: seq<Item>)
    requires |items| > 0
    ensures EncodeAll(items) == items[0].Encode() + EncodeAll(items[1..])
  {
    hide Item.Encode;
  }

  lemma EncodeNone(items: seq<Item>)
    requires |items| == 0
    ensures EncodeAll(items) == []
  {
  }

  lemma {:induction false} EncodeAllSnoc(items: seq<Item>, last: Item)
    ensures EncodeAll(items + [last]) == EncodeAll(items) + last.Encode()
  {
    hide *;
    EncodeFirst(items + [last]);
    if |items| == 0 {
      EncodeNone(items);
      EncodeNone((items + [last])[1..]);
    } else {
      EncodeFirst(items);
      EncodeAllSnoc(items[1..], last);
      assert (items + [last])[1..] == items[1..] + [last];
      Reassociate(items[0].Encode(), EncodeAll(items[1..]), last.Encode());
    }
  }

  // ---------------------------------------------------------------- reading a segment size

  datatype SizeResult = Size(bytes: nat) | ParseError

  /** The first UDP_GRO message read before any malformed one decides; without one the size is zero. */
  function GsoSize(control: seq<byte>): SizeResult {
    var p := Parse(control);
    match First(p.msgs, Gro)
    case Some(m) => Size(FromLE(m.data[..GSO_DATA]))
    case None => if p.ok then Size(0) else ParseError
  }

  method GetGSOSize(control: seq<byte>) returns (r: SizeResult)
    ensures r == GsoSize(control)
  {
    var rem := control;
    while |rem| > HEADER
      invariant GsoSize(rem) == GsoSize(control)
      decreases |rem|
    {
      var one := ParseOne(rem);
      if one.Bad? {
        return ParseError;
      }
      if one.msg.level == SOL_UDP && one.msg.kind == UDP_GRO && |one.msg.data| >= GSO_DATA {
        return Size(FromLE(one.msg.data[..GSO_DATA]));
      }
      assert Parse(rem).msgs[1..] == Parse(one.rest).msgs;
      rem := one.rest;
    }
    return Size(0);
  }

  // A UDP_GRO message with room for a size.
  predicate HasGroSize(m: Cmsg) { m.level == 17 && m.kind == 104 && |m.data| >= 2 }

  lemma GroIs(m: Cmsg)
    ensures Matches(m, Gro) <==> HasGroSize(m)
  {
  }

  lemma ReadsSize(m: Cmsg)
    requires HasGroSize(m)
    ensures FromLE(m.data[..GSO_DATA]) == (m.data[0] as nat) + 256 * (m.data[1] as nat)
  {
    var b := m.data[..2];
    assert b[1..][1..] == [] && FromLE(b[1..][1..]) == 0;
    assert FromLE(b[1..]) == b[1] + 256 * FromLE(b[1..][1..]);
  }

  // What is parsed of well-formed messages and whatever follows them.
  lemma {:induction false} ParsedBefore(items: seq<Item>, tail: seq<byte>, k: nat)
    requires (forall i :: i in items ==> i.Valid()) && k < |items| && |items[k].msg.data| > 0
    ensures var ms := Parse(EncodeAll(items) + tail).msgs; k < |ms| && forall j :: 0 <= j <= k ==> ms[j] == items[j].msg
  {
    hide *;
    if tail == [] {
      assert EncodeAll(items) + tail == EncodeAll(items);
      ParseEncoded(items);
      VisibleBefore(items, k);
    } else {
      ParseEncodedThen(items, tail);
      assert |Messages(items)| == |items|;
    }
  }

  lemma VisibleBefore(items: seq<Item>, k: nat)
    requires k < |items| && |items[k].msg.data| > 0
    ensures k < |Visible(items)| && forall j :: 0 <= j <= k ==> Visible(items)[j] == items[j]
  {
  }

  /** The size read from any control data in which a UDP_GRO message comes, after well-formed messages of
      other kinds: its first two data bytes, the lower one first, whatever follows. */
  lemma {:induction false} SizeOfFirstGro(items: seq<Item>, tail: seq<byte>, k: nat)
    requires (forall i :: i in items ==> i.Valid()) && k < |items| && HasGroSize(items[k].msg)
    requires forall j :: 0 <= j < k ==> !HasGroSize(items[j].msg)
    ensures GsoSize(EncodeAll(items) + tail) == Size((items[k].msg.data[0] as nat) + 256 * (items[k].msg.data[1] as nat))
  {
    hide Parse, EncodeAll, Matches, First, FromLE;
    ParsedBefore(items, tail, k);
    var ms := Parse(EncodeAll(items) + tail).msgs;
    forall j | 0 <= j <= k ensures Matches(ms[j], Gro) <==> HasGroSize(items[j].msg) { GroIs(ms[j]); }
    FirstIsEarliest(ms, Gro, k);
    ReadsSize(items[k].msg);
  }

  // Whatever is parsed of well-formed messages and a header that does not parse is one of the messages.
  lemma {:induction false} ParsedFrom(items: seq<Item>, tail: seq<byte>)
    requires forall i :: i in items ==> i.Valid()
    requires tail == [] || (|tail| > 16 && (FromLE(tail[..8]) < 16 || FromLE(tail[..8]) > |tail|))
    ensures Parse(EncodeAll(items) + tail).ok == (tail == [])
    ensures forall m :: m in Parse(EncodeAll(items) + tail).msgs ==> exists i :: i in items && i.msg == m
  {
    var ms := Parse(EncodeAll(items) + tail).msgs;
    if tail == [] {
      assert EncodeAll(items) + tail == EncodeAll(items);
      ParseEncoded(items);
    } else {
      assert Parse(tail) == Parsed([], false);
      ParseEncodedThen(items, tail);
    }
    hide Parse, EncodeAll;
    forall m | m in ms ensures exists i :: i in items && i.msg == m {
      var j :| 0 <= j < |ms| && ms[j] == m;
      assert items[j] in items && ms[j] == items[j].msg;
    }
  }

  /** Without one the size is zero. */
  lemma {:induction false} NoGroNoSize(items: seq<Item>)
    requires forall i :: i in items ==> i.Valid() && !HasGroSize(i.msg)
    ensures GsoSize(EncodeAll(items)) == Size(0)
  {
    hide Parse, EncodeAll, Matches, First, HasGroSize, Item.Valid;
    ParsedFrom(items, []);
    assert EncodeAll(items) + [] == EncodeAll(items);
    NoneMatches(Parse(EncodeAll(items)).msgs, items);
  }

  lemma NoneMatches(ms: seq<Cmsg>, items: seq<Item>)
    requires forall i :: i in items ==> !HasGroSize(i.msg)
    requires forall m :: m in ms ==> exists i :: i in items && i.msg == m
    ensures First(ms, Gro) == None
  {
    hide First, HasGroSize, Matches;
    if First(ms, Gro).Some? { GroIs(First(ms, Gro).value); }
  }

  /** A header whose length is below its own size or beyond the buffer, before any such message, is an
      error. */
  lemma {:induction false} MalformedBeforeGro(items: seq<Item>, tail: seq<byte>)
    requires forall i :: i in items ==> i.Valid() && !HasGroSize(i.msg)
    requires |tail| > 16 && (FromLE(tail[..8]) < 16 || FromLE(tail[..8]) > |tail|)
    ensures GsoSize(EncodeAll(items) + tail) == ParseError
  {
    hide Parse, EncodeAll, Matches, First, HasGroSize, Item.Valid;
    ParsedFrom(items, tail);
    NoneMatches(Parse(EncodeAll(items) + tail).msgs, items);
  }

  /** Control data with which the kernel tells the size of the datagrams it has joined: well-formed
      messages, the first UDP_GRO one among them with these two bytes, or none if it has joined nothing. */
  ghost predicate Tells(control: seq<byte>, size: nat) {
    exists items :: control == EncodeAll(items) && TellsIn(items, size)
  }

  ghost predicate TellsIn(items: seq<Item>, size: nat) {
    && (forall i :: i in items ==> i.Valid())
    && if size == 0 then forall i :: i in items ==> !HasGroSize(i.msg)
       else exists k :: 0 <= k < |items| && TellsAt(items, size, k)
  }

  ghost predicate TellsAt(items: seq<Item>, size: nat, k: nat)
    requires k < |items|
  {
    && HasGroSize(items[k].msg) && (forall j :: 0 <= j < k ==> !HasGroSize(items[j].msg))
    && (items[k].msg.data[0] as nat) + 256 * (items[k].msg.data[1] as nat) == size
  }

  lemma {:induction false} ToldSize(control: seq<byte>, size: nat)
    requires Tells(control, size)
    ensures GsoSize(control) == Size(size)
  {
    hide GsoSize, EncodeAll, HasGroSize;
    var items :| control == EncodeAll(items) && TellsIn(items, size);
    if size == 0 {
      NoGroNoSize(items);
    } else {
      var k :| 0 <= k < |items| && TellsAt(items, size, k);
      SizeOfFirstGro(items, [], k);
      assert EncodeAll(items) + [] == EncodeAll(items);
    }
  }

  /** What the kernel reads from outgoing control data: the segment size and the source. */
  function SegmentSize(control: seq<byte>): nat {
    match First(Parse(control).msgs, Segment)
    case Some(m) => FromLE(m.data[..GSO_DATA])
    case None => 0
  }

  function SourceInfo(control: seq<byte>): Option<Cmsg> { First(Parse(control).msgs, Pktinfo) }

  // ---------------------------------------------------------------- control buffers

  /** A byte slice that owns its backing array: the array's bytes and the slice's length. */
  datatype Buffer = Buffer(mem: seq<byte>, len: nat) {
    predicate Valid() { len <= |mem| }
    function Bytes(): seq<byte>
      requires Valid()
    {
      mem[..len]
    }
  }

  /** setSrcControl: replaces the contents by the sticky source, unless it does not fit. */
  function SetSrc(c: Buffer, src: seq<byte>): (r: Buffer)
    ensures |r.mem| == |c.mem|
    ensures c.Valid() ==> r.Valid()
  {
    if |c.mem| < |src| then c else Buffer(src + c.mem[|src|..], |src|)
  }

  /** setGSOSize: appends a UDP_SEGMENT message, unless it does not fit. The six bytes of padding
      keep what the backing array held. */
  function SetGSO(c: Buffer, size: nat): (r: Buffer)
    requires c.Valid()
    ensures |r.mem| == |c.mem| && r.Valid()
  {
    if |c.mem| - c.len < GSO_SPACE then c
    else Buffer(c.mem[..c.len] + Header(SOL_UDP, UDP_SEGMENT, GSO_DATA) + LE(size, GSO_DATA)
                + c.mem[c.len + HEADER + GSO_DATA..],
                c.len + GSO_SPACE)
  }

  /** The control slice of a message, updated in place. */
  class ControlSlice {
    const mem: array<byte>
    var len: nat

    ghost predicate Valid()
      reads this
    {
      len <= mem.Length
    }

    ghost function Value(): Buffer
      reads this, mem
    {
      Buffer(mem[..], len)
    }

    constructor (capacity: nat)
      ensures Valid() && len == 0 && mem.Length == capacity && fresh(mem)
    {
      mem := new byte[capacity](_ => 0);
      len := 0;
    }

    method Write(at: nat, data: seq<byte>)
      requires at + |data| <= mem.Length
      modifies mem
      ensures mem[..] == old(mem[..at]) + data + old(mem[at + |data|..])
    {
      forall k | 0 <= k < |data| { mem[at + k] := data[k]; }
    }

    method SetSrcControl(src: seq<byte>)
      requires Valid()
      modifies this, mem
      ensures Valid() && Value() == SetSrc(old(Value()), src)
    {
      if mem.Length < |src| {
        return;
      }
      len := 0;
      Write(0, src);
      len := |src|;
    }

    method SetGSOSize(size: nat)
      requires Valid()
      modifies this, mem
      ensures Valid() && Value() == SetGSO(old(Value()), size)
    {
      var existing := len;
      if mem.Length - existing < GSO_SPACE {
        return;
      }
      len := mem.Length;
      ghost var before := mem[..];
      var hdr := Header(SOL_UDP, UDP_SEGMENT, GSO_DATA);
      Write(existing, hdr);
      var data := LE(size, GSO_DATA);
      Write(existing + HEADER, data);
      len := existing + GSO_SPACE;
      assert mem[..] == before[..existing] + hdr + data + before[existing + HEADER + GSO_DATA..];
    }
  }

  /** The sticky source an endpoint may carry: nothing, or exactly one PKTINFO message of the
      kernel's size in its own padded space. */
  predicate ValidSrc(src: seq<byte>) {
    src == [] ||
    var p := Parse(src);
    && p.ok && |p.msgs| == 1
    && (p.msgs[0].IsPktinfo4() ==> |p.msgs[0].data| == PKTINFO4_DATA && |src| == PKTINFO4_SPACE)
    && (p.msgs[0].IsPktinfo6() ==> |p.msgs[0].data| == PKTINFO6_DATA && |src| == PKTINFO6_SPACE)
    && p.msgs[0].IsPktinfo()
  }

  // A sticky source is read before whatever follows it.
  lemma {:induction false} ParseOneThen(src: seq<byte>, tail: seq<byte>)
    requires ValidSrc(src) && src != []
    ensures |Parse(src).msgs| == 1 && |src + tail| > HEADER && ParseOne(src + tail) == Good(Parse(src).msgs[0], tail)
  {
    var b := src + tail;
    assert b[..8] == src[..8] && b[8..12] == src[8..12] && b[12..16] == src[12..16];
    var m := Parse(src).msgs[0];
    assert ParseOne(src).Good? && ParseOne(src).msg == m;
    var len := FromLE(src[..8]);
    assert len == HEADER + |m.data| && Align(len) == |src|;
    assert b[HEADER..len] == src[HEADER..len];
    assert b[|src|..] == tail;
  }

  lemma {:induction false} ParseSrcThen(src: seq<byte>, tail: seq<byte>)
    requires ValidSrc(src)
    ensures Parse(src + tail) == Parsed(Parse(src).msgs + Parse(tail).msgs, Parse(tail).ok)
  {
    hide *;
    if src == [] {
      assert src + tail == tail;
      ParseNothing(src);
      assert Parse(src).msgs + Parse(tail).msgs == Parse(tail).msgs;
    } else {
      ParseOneThen(src, tail);
      ParseGoesOn(src + tail, Parse(src).msgs[0], tail);
      assert Parse(src).msgs == [Parse(src).msgs[0]];
    }
  }

  lemma ParseNothing(b: seq<byte>)
    requires b == []
    ensures Parse(b) == Parsed([], true)
  {
  }

  lemma {:induction false} ParseGoesOn(b: seq<byte>, m: Cmsg, rest: seq<byte>)
    requires |b| > HEADER && ParseOne(b) == Good(m, rest)
    ensures Parse(b) == Parsed([m] + Parse(rest).msgs, Parse(rest).ok)
  {
    hide ParseOne;
  }

  /** Neither touches a slice without room for it. Otherwise setSrcControl leaves exactly the source, and
      setGSOSize appends 24 bytes and keeps all that was there before. */
  lemma SetsUnlessFull(c: Buffer, src: seq<byte>, size: nat)
    requires c.Valid()
    ensures if |c.mem| < |src| then SetSrc(c, src) == c
            else SetSrc(c, src).Bytes() == src && SetSrc(c, src).mem[|src|..] == c.mem[|src|..]
    ensures if |c.mem| < c.len + 24 then SetGSO(c, size) == c
            else |SetGSO(c, size).Bytes()| == c.len + 24 && SetGSO(c, size).Bytes()[..c.len] == c.Bytes()
                 && SetGSO(c, size).mem[c.len + 18..] == c.mem[c.len + 18..]
  {
  }

  // What appending a UDP_SEGMENT message to a sticky source writes.
  lemma {:induction false} AppendedSegment(c: Buffer, src: seq<byte>, size: nat) returns (item: Item)
    requires c.Valid() && c.len == |src| && c.Bytes() == src && |c.mem| >= |src| + GSO_SPACE
    ensures item.msg == Cmsg(SOL_UDP, UDP_SEGMENT, LE(size, GSO_DATA)) && item.Valid()
    ensures SetGSO(c, size).Bytes() == src + item.Encode()
  {
    item := Item(Cmsg(SOL_UDP, UDP_SEGMENT, LE(size, GSO_DATA)), c.mem[|src| + HEADER + GSO_DATA..|src| + GSO_SPACE]);
    assert Pow256(4) == 0x1_0000_0000 && Pow256(8) > 18 by { assert Pow256(2) == 65536; assert Pow256(6) > 18; }
  }

  // Reading control data that is a sticky source followed by one other message.
  lemma {:induction false} SourceThenSegment(src: seq<byte>, seg: Cmsg)
    requires ValidSrc(src) && seg.IsSegment()
    ensures var ms := Parse(src).msgs;
            && First(ms + [seg], Segment) == Some(seg)
            && First(ms + [seg], Pktinfo) == First(ms, Pktinfo)
            && First(ms, Segment).None?
  {
    var ms := Parse(src).msgs;
    FirstIsEarliest(ms + [seg], Segment, |ms|);
    if |ms| == 1 {
      FirstIsEarliest(ms + [seg], Pktinfo, 0);
      FirstIsEarliest(ms, Pktinfo, 0);
    }
  }

  /** setSrcControl followed by setGSOSize on a large enough buffer, whatever it held before:
      the bytes parse to the sticky PKTINFO, if any, followed by one UDP_SEGMENT of that size. */
  lemma {:induction false} ControlRoundTrip(c: Buffer, src: seq<byte>, size: nat)
    requires c.Valid() && ValidSrc(src) && |c.mem| >= |src| + GSO_SPACE
    ensures SetSrc(c, src).Bytes() == src
    ensures Parse(SetGSO(SetSrc(c, src), size).Bytes())
         == Parsed(Parse(src).msgs + [Cmsg(17, 103, LE(size, 2))], true)
  {
    var item := AppendedSegment(SetSrc(c, src), src, size);
    ParseSrcThen(src, item.Encode());
    ParseLast(item);
  }

  /** So the kernel reads the size and the source that were asked for, and without setGSOSize no
      segment size at all. */
  lemma {:induction false} KernelReadsBack(c: Buffer, src: seq<byte>, size: nat)
    requires c.Valid() && ValidSrc(src) && |c.mem| >= |src| + GSO_SPACE
    requires size < 0x1_0000
    ensures SegmentSize(SetGSO(SetSrc(c, src), size).Bytes()) == size
    ensures SourceInfo(SetGSO(SetSrc(c, src), size).Bytes()) == SourceInfo(src)
    ensures SetSrc(c, src).Bytes() == src && SegmentSize(src) == 0
  {
    ControlRoundTrip(c, src, size);
    var seg := Cmsg(SOL_UDP, UDP_SEGMENT, LE(size, GSO_DATA));
    SourceThenSegment(src, seg);
    assert Pow256(2) == 0x1_0000;
    FromLEInverse(size, GSO_DATA);
    assert seg.data[..GSO_DATA] == seg.data;
  }

  lemma SrcLength(src: seq<byte>)
    requires ValidSrc(src)
    ensures |src| in {0, PKTINFO4_SPACE, PKTINFO6_SPACE}
  {
  }

  // ---------------------------------------------------------------- sticky sources

  function Zeros(n: nat): (z: seq<byte>)
    ensures |z| == n
  {
    seq(n, _ => 0)
  }

  function PktinfoSpace(m: Cmsg): nat { if m.IsPktinfo4() then PKTINFO4_SPACE else PKTINFO6_SPACE }

  /** The endpoint source after storing a PKTINFO message: its header, then as much of its data as
      fits, then whatever the reused backing array held. */
  function StoreSrc(src: Buffer, m: Cmsg): (r: Buffer)
    ensures r.Valid() && r.len == PktinfoSpace(m)
  {
    var space := PktinfoSpace(m);
    var base := if |src.mem| < space then Zeros(space) else src.mem;
    var k := Min(|m.data|, space - HEADER);
    Buffer(Header(m.level, m.kind, |m.data|) + m.data[..k] + base[HEADER + k..], space)
  }

  /** The endpoint source after reading control data: the first PKTINFO wins, else it is cleared. */
  function SrcAfter(src: Buffer, control: seq<byte>): (r: Buffer)
    ensures r.Valid()
  {
    match First(Parse(control).msgs, Pktinfo)
    case Some(m) => StoreSrc(src, m)
    case None => src.(len := 0)
  }

  class StdNetEndpoint {
    var src: Buffer

    constructor ()
      ensures src == Buffer([], 0)
    {
      src := Buffer([], 0);
    }

    method ClearSrc()
      requires src.Valid()
      modifies this
      ensures src == old(src).(len := 0)
    {
      src := src.(len := 0);
    }

    method GetSrcFromControl(control: seq<byte>)
      requires src.Valid()
      modifies this
      ensures src == SrcAfter(old(src), control)
    {
      ClearSrc();
      var rem := control;
      while |rem| > HEADER
        invariant src == old(src).(len := 0)
        invariant First(Parse(rem).msgs, Pktinfo) == First(Parse(control).msgs, Pktinfo)
        decreases |rem|
      {
        var one := ParseOne(rem);
        if one.Bad? {
          return;
        }
        var m := one.msg;
        if m.level == IPPROTO_IP && m.kind == IP_PKTINFO {
          Store(m, PKTINFO4_SPACE);
          return;
        }
        if m.level == IPPROTO_IPV6 && m.kind == IPV6_PKTINFO {
          Store(m, PKTINFO6_SPACE);
          return;
        }
        assert Parse(rem).msgs[1..] == Parse(one.rest).msgs;
        rem := one.rest;
      }
    }

    method Store(m: Cmsg, space: nat)
      requires space == PktinfoSpace(m)
      modifies this
      ensures src == StoreSrc(old(src), m)
    {
      if |src.mem| < space {
        src := Buffer(Zeros(space), 0);
      }
      var k := Min(|m.data|, space - HEADER);
      src := Buffer(Header(m.level, m.kind, |m.data|) + m.data[..k] + src.mem[HEADER + k..], space);
    }
  }

  /** The source address held by an endpoint; None is the zero address. */
  function SrcIP(src: Buffer): Option<seq<byte>>
    requires src.Valid()
  {
    if src.len == PKTINFO4_SPACE then Some(src.mem[HEADER + 4..HEADER + 8])
    else if src.len == PKTINFO6_SPACE then Some(src.mem[HEADER..HEADER + 16])
    else None
  }

  function ToInt32(v: nat): int {
    var w := v % 0x1_0000_0000;
    if w < 0x8000_0000 then w else w - 0x1_0000_0000
  }

  lemma Int32Is(v: nat)
    ensures v < 0x8000_0000 ==> ToInt32(v) == v
    ensures 0x8000_0000 <= v < 0x1_0000_0000 ==> ToInt32(v) == v - 0x1_0000_0000
  {
  }

  function SrcIfidx(src: Buffer): int
    requires src.Valid()
  {
    if src.len == PKTINFO4_SPACE then ToInt32(FromLE(src.mem[HEADER..HEADER + 4]))
    else if src.len == PKTINFO6_SPACE then ToInt32(FromLE(src.mem[HEADER + 16..HEADER + 20]))
    else 0
  }

  // struct in_pktinfo and struct in6_pktinfo as control messages.
  function Pktinfo4(ifindex: nat, specDst: seq<byte>, addr: seq<byte>): Cmsg {
    Cmsg(IPPROTO_IP, IP_PKTINFO, LE(ifindex, 4) + specDst + addr)
  }

  function Pktinfo6(addr: seq<byte>, ifindex: nat): Cmsg {
    Cmsg(IPPROTO_IPV6, IPV6_PKTINFO, addr + LE(ifindex, 4))
  }

  // All the data of a kernel-sized PKTINFO is stored.
  lemma {:induction false} StoredData(src: Buffer, m: Cmsg)
    requires |m.data| <= PktinfoSpace(m) - HEADER
    ensures StoreSrc(src, m).mem[HEADER..HEADER + |m.data|] == m.data
  {
    assert m.data[..|m.data|] == m.data;
  }

  /** What Store leaves of any PKTINFO message, in 32 or 40 bytes: its header, as much of its data as fits, and
      after that what the storage held before, or zeros if it was too small. */
  lemma StoredExactly(src: Buffer, m: Cmsg)
    requires m.IsPktinfo() && src.Valid()
    ensures var r, space := StoreSrc(src, m), if m.level == 0 then 32 else 40;
            && r.len == space && r.mem[..16] == LE(16 + |m.data|, 8) + LE(m.level, 4) + LE(m.kind, 4)
            && (forall i :: 0 <= i < |m.data| && 16 + i < space ==> r.mem[16 + i] == m.data[i])
            && (forall i :: 16 + |m.data| <= i < space ==> r.mem[i] == if |src.mem| < space then 0 else src.mem[i])
            && (if |src.mem| < space then |r.mem| == space else |r.mem| == |src.mem| && r.mem[space..] == src.mem[space..])
  {
    hide LE;
  }

  lemma {:induction false} DecodeStored4(src: Buffer, ifindex: nat, specDst: seq<byte>, addr: seq<byte>)
    requires ifindex < Pow256(4) && |specDst| == 4 && |addr| == 4
    ensures var r := StoreSrc(src, Pktinfo4(ifindex, specDst, addr));
            SrcIP(r) == Some(specDst) && SrcIfidx(r) == ToInt32(ifindex)
  {
    var m := Pktinfo4(ifindex, specDst, addr);
    var r := StoreSrc(src, m);
    FromLEInverse(ifindex, 4);
    StoredData(src, m);
    assert m.data[0..4] == LE(ifindex, 4) && m.data[4..8] == specDst;
    SliceOfSlice(r.mem, HEADER, HEADER + PKTINFO4_DATA, 0, 4);
    SliceOfSlice(r.mem, HEADER, HEADER + PKTINFO4_DATA, 4, 8);
  }

  lemma {:induction false} DecodeStored6(src: Buffer, addr: seq<byte>, ifindex: nat)
    requires ifindex < Pow256(4) && |addr| == 16
    ensures var r := StoreSrc(src, Pktinfo6(addr, ifindex));
            SrcIP(r) == Some(addr) && SrcIfidx(r) == ToInt32(ifindex)
  {
    var m := Pktinfo6(addr, ifindex);
    var r := StoreSrc(src, m);
    FromLEInverse(ifindex, 4);
    StoredData(src, m);
    assert m.data[0..16] == addr && m.data[16..20] == LE(ifindex, 4);
    SliceOfSlice(r.mem, HEADER, HEADER + PKTINFO6_DATA, 0, 16);
    SliceOfSlice(r.mem, HEADER, HEADER + PKTINFO6_DATA, 16, 20);
  }

  /** Reading control data whose first PKTINFO is an IPv4 one gives its address and interface back,
      whatever the endpoint held, and leaves a source that can be sent. */
  lemma {:induction false} StickyRoundTrip4(src: Buffer, items: seq<Item>, k: nat,
                                            ifindex: nat, specDst: seq<byte>, addr: seq<byte>)
    requires src.Valid() && (forall i :: i in items ==> i.Valid())
    requires k < |items| && items[k].msg == Cmsg(0, 8, LE(ifindex, 4) + specDst + addr)
    requires forall j :: 0 <= j < k ==> !items[j].msg.IsPktinfo()
    requires ifindex < Pow256(4) && |specDst| == 4 && |addr| == 4
    ensures var r := SrcAfter(src, EncodeAll(items));
            && SrcIP(r) == Some(specDst) && SrcIfidx(r) == (if ifindex < 0x8000_0000 then ifindex else ifindex - 0x1_0000_0000)
            && ValidSrc(r.Bytes()) && SourceInfo(r.Bytes()) == Some(items[k].msg)
  {
    FirstPktinfo(items, k);
    DecodeStored4(src, ifindex, specDst, addr);
    Int32Is(ifindex);
    assert Pow256(4) == 0x1_0000_0000 by { assert Pow256(2) == 65536; }
    StoredSrcParses(src, items[k].msg);
  }

  lemma {:induction false} StickyRoundTrip6(src: Buffer, items: seq<Item>, k: nat, addr: seq<byte>, ifindex: nat)
    requires src.Valid() && (forall i :: i in items ==> i.Valid())
    requires k < |items| && items[k].msg == Cmsg(41, 50, addr + LE(ifindex, 4))
    requires forall j :: 0 <= j < k ==> !items[j].msg.IsPktinfo()
    requires ifindex < Pow256(4) && |addr| == 16
    ensures var r := SrcAfter(src, EncodeAll(items));
            && SrcIP(r) == Some(addr) && SrcIfidx(r) == (if ifindex < 0x8000_0000 then ifindex else ifindex - 0x1_0000_0000)
            && ValidSrc(r.Bytes()) && SourceInfo(r.Bytes()) == Some(items[k].msg)
  {
    FirstPktinfo(items, k);
    DecodeStored6(src, addr, ifindex);
    Int32Is(ifindex);
    assert Pow256(4) == 0x1_0000_0000 by { assert Pow256(2) == 65536; }
    StoredSrcParses(src, items[k].msg);
  }

  lemma {:induction false} FirstPktinfo(items: seq<Item>, k: nat)
    requires forall i :: i in items ==> i.Valid()
    requires k < |items| && items[k].msg.IsPktinfo() && |items[k].msg.data| > 0
    requires forall j :: 0 <= j < k ==> !items[j].msg.IsPktinfo()
    ensures First(Parse(EncodeAll(items)).msgs, Pktinfo) == Some(items[k].msg)
  {
    hide Parse, EncodeAll, First, Cmsg.IsPktinfo, Item.Valid;
    ParsedBefore(items, [], k);
    assert EncodeAll(items) + [] == EncodeAll(items);
    FirstIsEarliest(Parse(EncodeAll(items)).msgs, Pktinfo, k);
  }

  /** Control data without a PKTINFO message, up to its end or to a header that does not parse, clears the
      endpoint's source. */
  lemma {:induction false} SourceCleared(src: Buffer, items: seq<Item>, tail: seq<byte>)
    requires src.Valid() && forall i :: i in items ==> i.Valid()
    requires forall i :: i in items ==> !(i.msg.level == 0 && i.msg.kind == 8) && !(i.msg.level == 41 && i.msg.kind == 50)
    requires tail == [] || (|tail| > 16 && (FromLE(tail[..8]) < 16 || FromLE(tail[..8]) > |tail|))
    ensures var r := SrcAfter(src, EncodeAll(items) + tail); r.len == 0 && SrcIP(r) == None && SrcIfidx(r) == 0
  {
    hide Parse, EncodeAll, First, Item.Valid;
    ParsedFrom(items, tail);
    assert First(Parse(EncodeAll(items) + tail).msgs, Pktinfo).None?;
  }

  lemma {:induction false} StoredSrcParses(src: Buffer, m: Cmsg)
    requires m.Valid()
    requires (m.IsPktinfo4() && |m.data| == PKTINFO4_DATA) || (m.IsPktinfo6() && |m.data| == PKTINFO6_DATA)
    ensures ValidSrc(StoreSrc(src, m).Bytes())
    ensures SourceInfo(StoreSrc(src, m).Bytes()) == Some(m)
  {
    var r := StoreSrc(src, m);
    var item := Item(m, r.mem[HEADER + |m.data|..r.len]);
    assert r.Bytes() == item.Encode();
    ParseLast(item);
    assert Parse(r.Bytes()) == Parsed([m], true);
    FirstIsEarliest([m], Pktinfo, 0);
  }
}
