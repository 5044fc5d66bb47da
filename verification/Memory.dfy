/** Go slices over a flat byte memory, and the message structure of the batch calls.

    All backing arrays are regions of one memory; a slice is an offset with a length and a
    capacity. Two slices share no storage when their capacities do not overlap. */
module Memory {
  import opened Bytes
  import opened Control

  datatype Slice = Slice(off: nat, len: nat, cap: nat) {
    predicate Valid(size: nat) { len <= cap && off + cap <= size }
  }

  predicate Disjoint(a: Slice, b: Slice) { a.off + a.cap <= b.off || b.off + b.cap <= a.off }

  ghost predicate AllValid(ss: seq<Slice>, size: nat) {
    forall i :: 0 <= i < |ss| ==> ss[i].Valid(size)
  }

  ghost predicate AllDisjoint(ss: seq<Slice>) {
    forall i, j :: 0 <= i < j < |ss| ==> Disjoint(ss[i], ss[j])
  }

  function View(mem: seq<byte>, s: Slice): (v: seq<byte>)
    requires s.Valid(|mem|)
    ensures |v| == s.len
  {
    mem[s.off..s.off + s.len]
  }

  function Views(mem: seq<byte>, ss: seq<Slice>): (vs: seq<seq<byte>>)
    requires AllValid(ss, |mem|)
    ensures |vs| == |ss| && forall i :: 0 <= i < |ss| ==> vs[i] == View(mem, ss[i])
  {
    seq(|ss|, i requires 0 <= i < |ss| => View(mem, ss[i]))
  }

  function Capacities(ss: seq<Slice>): (caps: seq<nat>)
    ensures |caps| == |ss| && forall i :: 0 <= i < |ss| ==> caps[i] == ss[i].cap
  {
    seq(|ss|, i requires 0 <= i < |ss| => ss[i].cap)
  }

  ghost predicate SameOutside(a: seq<byte>, b: seq<byte>, lo: nat, hi: nat) {
    |a| == |b| && forall i :: 0 <= i < |a| && !(lo <= i < hi) ==> a[i] == b[i]
  }

  /** Byte `k` belongs to the storage of one of the slices. */
  ghost predicate Stored(ss: seq<Slice>, k: nat) {
    exists i :: 0 <= i < |ss| && ss[i].off <= k < ss[i].off + ss[i].cap
  }

  /** Only bytes in the storage of the slices differ. */
  ghost predicate SameBeyond(a: seq<byte>, b: seq<byte>, ss: seq<Slice>) {
    |a| == |b| && forall k :: 0 <= k < |a| && !Stored(ss, k) ==> a[k] == b[k]
  }

  lemma SameItself(a: seq<byte>, ss: seq<Slice>)
    ensures SameBeyond(a, a, ss)
  {
  }

  // A change within one slice, after changes within any of them.
  lemma SameAfter(a: seq<byte>, b: seq<byte>, c: seq<byte>, lo: nat, hi: nat, ss: seq<Slice>, t: nat)
    requires SameBeyond(a, b, ss) && SameOutside(b, c, lo, hi) && t < |ss|
    requires ss[t].off <= lo && hi <= ss[t].off + ss[t].cap
    ensures SameBeyond(a, c, ss)
  {
    forall k | 0 <= k < |a| && !Stored(ss, k) ensures a[k] == c[k] {
      assert !(ss[t].off <= k < ss[t].off + ss[t].cap);
    }
  }

  lemma SameTransitive(a: seq<byte>, b: seq<byte>, c: seq<byte>, ss: seq<Slice>)
    requires SameBeyond(a, b, ss) && SameBeyond(b, c, ss)
    ensures SameBeyond(a, c, ss)
  {
  }

  lemma ViewStable(a: seq<byte>, b: seq<byte>, lo: nat, hi: nat, s: Slice)
    requires SameOutside(a, b, lo, hi) && s.Valid(|a|)
    requires s.off + s.len <= lo || hi <= s.off
    ensures View(a, s) == View(b, s)
  {
  }

  /** The copy of overlapping or separate ranges: the bytes as they were before. */
  method Copy(mem: array<byte>, dst: nat, src: nat, n: nat)
    requires dst + n <= mem.Length && src + n <= mem.Length
    modifies mem
    ensures SameOutside(old(mem[..]), mem[..], dst, dst + n)
    ensures mem[dst..dst + n] == old(mem[src..src + n])
  {
    forall k | 0 <= k < n { mem[dst + k] := mem[src + k]; }
  }

  /** Appending within capacity, which writes to the spare bytes after `dst`. */
  method Append(mem: array<byte>, dst: Slice, src: Slice) returns (r: Slice)
    requires dst.Valid(mem.Length) && src.Valid(mem.Length)
    requires dst.len + src.len <= dst.cap
    modifies mem
    ensures r == dst.(len := dst.len + src.len)
    ensures View(mem[..], r) == old(View(mem[..], dst) + View(mem[..], src))
    ensures SameOutside(old(mem[..]), mem[..], dst.off + dst.len, dst.off + dst.len + src.len)
  {
    ghost var before := mem[..];
    Copy(mem, dst.off + dst.len, src.off, src.len);
    r := dst.(len := dst.len + src.len);
    assert View(mem[..], r) == mem[..][dst.off..dst.off + dst.len] + mem[..][dst.off + dst.len..dst.off + r.len];
    assert mem[..][dst.off + dst.len..dst.off + r.len] == mem[dst.off + dst.len..dst.off + r.len];
    assert before[src.off..src.off + src.len] == View(before, src);
    assert mem[..][dst.off..dst.off + dst.len] == View(before, dst);
  }

  datatype Addr = Addr(ip: seq<byte>, port: nat)

  datatype Message = Message(buffers: seq<Slice>, oob: Buffer, addr: Option<Addr>, n: nat, nn: nat)
}
