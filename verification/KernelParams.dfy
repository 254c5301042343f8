/**
  The layout of a kernel's parameters: `function_info::finalize` in gpgpu-sim/cuda-sim/cuda-sim.cc, writing to a paged
  memory. Parameters are copied four bytes at a time, so that a copy may spill up to three bytes past its parameter.
 */
module KernelParams {
  import opened PagedMemory

  // A pointer to shared memory is not laid out. `size` is the number of bytes passed, `formal` the number declared; the
  // buffer passed may be longer than `size`.
  datatype Param = Param(shared: bool, formal: nat, size: nat, buffer: seq<byte>)

  // The whole words that size bytes take.
  function Words(size: nat): (n: nat)
    ensures size <= n < size + 4 && n % 4 == 0
  {
    (size + 3) / 4 * 4
  }

  // Buffers are padded to whole words.
  predicate Padded(p: Param) {
    Words(p.size) <= |p.buffer|
  }

  predicate AllPadded(params: seq<Param>) {
    forall i | 0 <= i < |params| :: Padded(params[i])
  }

  predicate Promoted(p: Param) {
    p.size == 4 && p.formal == 8
  }

  // How many bytes are laid out: the size declared if that many were passed or a word is promoted to a 64-bit pointer,
  // the smaller of the two otherwise, and none for a pointer to shared memory.
  function Size(p: Param): nat {
    if p.shared then 0 else if p.formal <= p.size || Promoted(p) then p.formal else p.size
  }

  // The bytes laid out; a promoted pointer is zero-extended.
  function Bytes(p: Param): (b: seq<byte>)
    requires Padded(p)
    ensures |b| == Size(p)
  {
    if Promoted(p) && !p.shared then p.buffer[..4] + [0, 0, 0, 0] else p.buffer[..Size(p)]
  }

  // The number that bytes stand for, the low one first.
  function Value(b: seq<byte>): nat {
    if b == [] then 0 else b[0] as nat + 256 * Value(b[1..])
  }

  lemma {:induction false} ZerosAbove(b: seq<byte>, zeros: seq<byte>)
    requires forall i | 0 <= i < |zeros| :: zeros[i] == 0
    ensures Value(b + zeros) == Value(b) && Value(zeros) == 0
  {
    if b == [] {
      assert b + zeros == zeros;
      if zeros != [] {
        ZerosAbove([], zeros[1..]);
        assert [] + zeros[1..] == zeros[1..];
      }
    } else {
      assert (b + zeros)[1..] == b[1..] + zeros;
      ZerosAbove(b[1..], zeros);
    }
  }

  /** What is laid out of a parameter: nothing if it is a pointer to shared memory; eight bytes for a pointer of four,
      which stand for the same number; otherwise its first bytes, as many as were passed and declared. */
  lemma WhatIsLaidOut(p: Param)
    requires Padded(p)
    ensures p.shared ==> Bytes(p) == []
    ensures !p.shared && p.size == 4 && p.formal == 8 ==> |Bytes(p)| == 8 && Value(Bytes(p)) == Value(p.buffer[..4])
    ensures !p.shared && !(p.size == 4 && p.formal == 8) ==>
              Bytes(p) <= p.buffer && |Bytes(p)| == if p.size < p.formal then p.size else p.formal
  {
    if p.size == 4 && p.formal == 8 { ZerosAbove(p.buffer[..4], [0, 0, 0, 0]); }
  }

  // Where parameter i starts: right after the ones before it.
  function Start(params: seq<Param>, i: nat): nat
    requires i <= |params|
  {
    if i == 0 then 0 else Start(params, i - 1) + Size(params[i - 1])
  }

  /** The regions do not overlap. */
  lemma {:induction false} RegionsApart(params: seq<Param>, i: nat, j: nat)
    requires i < j <= |params|
    ensures Start(params, i) + Size(params[i]) <= Start(params, j)
  {
    if j == i + 1 {
    } else {
      RegionsApart(params, i, j - 1);
    }
  }

  // ---------------------------------------------------------------------------------------------
  // Contents of the memory

  predicate HoldsAt(writes: seq<Write>, a: nat, bytes: seq<byte>) {
    a + |bytes| <= TOP && forall k | 0 <= k < |bytes| :: Flat(writes, a + k) == bytes[k]
  }

  // Outside [lo, hi) nothing changed.
  ghost predicate SameOutside(before: seq<Write>, after: seq<Write>, lo: nat, hi: nat) {
    forall a: nat | a < TOP && (a < lo || hi <= a) :: Flat(after, a) == Flat(before, a)
  }

  lemma KeepsBelow(before: seq<Write>, after: seq<Write>, lo: nat, hi: nat, a: nat, bytes: seq<byte>)
    requires SameOutside(before, after, lo, hi) && HoldsAt(before, a, bytes) && a + |bytes| <= lo
    ensures HoldsAt(after, a, bytes)
  {
  }

  lemma HoldsLess(writes: seq<Write>, a: nat, bytes: seq<byte>, fewer: seq<byte>)
    requires HoldsAt(writes, a, bytes) && fewer <= bytes
    ensures HoldsAt(writes, a, fewer)
  {
  }

  // One word more.
  lemma WordWritten(before: seq<Write>, writes: seq<Write>, base: nat, src: seq<byte>, idx: nat, w: Write, next: nat)
    requires next == idx + 4 <= |src| && base + |src| <= TOP && w == Put(base + idx, src[idx..next])
    requires HoldsAt(writes, base, src[..idx]) && SameOutside(before, writes, base, base + idx)
    ensures HoldsAt(writes + [w], base, src[..next]) && SameOutside(before, writes + [w], base, base + next)
  {
    assert (writes + [w])[..|writes|] == writes;
    var all := src[..next];
    forall k | 0 <= k < |all| ensures Flat(writes + [w], base + k) == all[k] {
      if k < idx { assert Flat(writes, base + k) == src[..idx][k]; }
    }
  }

  // ---------------------------------------------------------------------------------------------
  // The copy

  lemma WordFits(idx: nat, size: nat)
    requires idx % 4 == 0 && idx < size
    ensures idx + 4 <= Words(size)
  {
  }

  method CopyWords(mem: MemorySpace, base: nat, src: seq<byte>, size: nat)
    requires mem.Valid() && mem.size <= 0x8000_0000
    requires Words(size) <= |src| && base + size + 4 <= 0x1_0000_0000
    modifies mem`blocks, mem`writes
    ensures mem.Valid()
    ensures HoldsAt(mem.writes, base, src[..size])
    ensures SameOutside(old(mem.writes), mem.writes, base, base + size + 3)
  {
    var idx := 0;
    ghost var whole := src[..Words(size)];
    while idx < size
      invariant mem.Valid() && idx % 4 == 0 && idx <= |whole|
      invariant HoldsAt(mem.writes, base, whole[..idx])
      invariant SameOutside(old(mem.writes), mem.writes, base, base + idx)
    {
      WordFits(idx, size);
      var word := src[idx..idx + 4];
      assert word == whole[idx..idx + 4];
      WordWritten(old(mem.writes), mem.writes, base, whole, idx, Put(base + idx, word), idx + 4);
      var _, _ := mem.Write(base + idx, word);
      idx := idx + 4;
    }
    HoldsLess(mem.writes, base, whole[..idx], src[..size]);
  }

  // The parameter as it was passed, promoted or cut short.
  method LayOut(mem: MemorySpace, address: nat, p: Param) returns (next: nat)
    requires mem.Valid() && mem.size <= 0x8000_0000 && Padded(p) && address + Size(p) + 4 <= 0x1_0000_0000
    modifies mem`blocks, mem`writes
    ensures mem.Valid() && next == address + Size(p)
    ensures HoldsAt(mem.writes, address, Bytes(p))
    ensures SameOutside(old(mem.writes), mem.writes, address, address + Size(p) + 3)
  {
    if p.shared { return address; }
    var size, src := p.size, p.buffer;
    if size != p.formal {
      if size == 4 && p.formal == 8 {
        size := p.formal;
        src := src[..4] + [0, 0, 0, 0];
      } else {
        size := if size < p.formal then size else p.formal;
      }
    }
    assert src[..size] == Bytes(p);
    CopyWords(mem, address, src, size);
    next := address + size;
  }

  // The first n parameters can be read at their addresses, and nothing from three bytes past them on has changed.
  ghost predicate LaidOut(before: seq<Write>, after: seq<Write>, params: seq<Param>, n: nat)
    requires AllPadded(params) && n <= |params|
  {
    && (forall i | 0 <= i < n :: HoldsAt(after, Start(params, i), Bytes(params[i])))
    && SameOutside(before, after, 0, Start(params, n) + 3)
  }

  // Laying out parameter n spoils none before it, whatever it spills.
  lemma OneMoreLaidOut(start: seq<Write>, before: seq<Write>, after: seq<Write>, params: seq<Param>, n: nat)
    requires AllPadded(params) && n < |params| && LaidOut(start, before, params, n)
    requires SameOutside(before, after, Start(params, n), Start(params, n) + Size(params[n]) + 3)
    requires HoldsAt(after, Start(params, n), Bytes(params[n]))
    ensures LaidOut(start, after, params, n + 1)
  {
    var lo, hi := Start(params, n), Start(params, n) + Size(params[n]) + 3;
    forall i | 0 <= i < n + 1 ensures HoldsAt(after, Start(params, i), Bytes(params[i])) {
      if i < n {
        RegionsApart(params, i, n);
        KeepsBelow(before, after, lo, hi, Start(params, i), Bytes(params[i]));
      }
    }
  }

  // The addresses given out are where the parameters start.
  predicate Addressed(addresses: seq<nat>, params: seq<Param>) {
    |addresses| <= |params| && forall i | 0 <= i < |addresses| :: addresses[i] == Start(params, i)
  }

  // The first address is 0, and each parameter's comes right after the bytes of the one before it.
  predicate Adjacent(addresses: seq<nat>, params: seq<Param>)
    requires AllPadded(params) && |addresses| == |params|
  {
    && (addresses != [] ==> addresses[0] == 0)
    && forall i | 0 < i < |addresses| :: addresses[i] == addresses[i - 1] + |Bytes(params[i - 1])|
  }

  lemma StartsAdjacent(addresses: seq<nat>, params: seq<Param>)
    requires AllPadded(params) && |addresses| == |params| && Addressed(addresses, params)
    ensures Adjacent(addresses, params)
  {
  }

  // One turn of the loop in `finalize`.
  method LayOutNext(mem: MemorySpace, params: seq<Param>, i: nat, address: nat, ghost start: seq<Write>)
    returns (next: nat)
    requires mem.Valid() && mem.size <= 0x8000_0000 && AllPadded(params) && i < |params|
    requires address == Start(params, i) && LaidOut(start, mem.writes, params, i)
    requires Start(params, |params|) + 4 <= 0x1_0000_0000
    modifies mem`blocks, mem`writes
    ensures mem.Valid() && next == Start(params, i + 1) && LaidOut(start, mem.writes, params, i + 1)
  {
    ghost var before := mem.writes;
    RegionsApart(params, i, |params|);
    next := LayOut(mem, address, params[i]);
    OneMoreLaidOut(start, before, mem.writes, params, i);
  }

  /** Every parameter can be read back at its address, although each may have spilled into the next. The entry for a
      pointer to shared memory is not used. */
  method Finalize(mem: MemorySpace, params: seq<Param>) returns (addresses: seq<nat>)
    requires mem.Valid() && mem.size <= 0x8000_0000
    requires AllPadded(params) && Start(params, |params|) + 4 <= 0x1_0000_0000
    modifies mem`blocks, mem`writes
    ensures mem.Valid() && LaidOut(old(mem.writes), mem.writes, params, |params|)
    ensures |addresses| == |params| && Addressed(addresses, params) && Adjacent(addresses, params)
  {
    var address := 0;
    addresses := [];
    for i := 0 to |params|
      invariant mem.Valid() && address == Start(params, i) && LaidOut(old(mem.writes), mem.writes, params, i)
      invariant |addresses| == i && Addressed(addresses, params)
    {
      addresses := addresses + [address];
      address := LayOutNext(mem, params, i, address, old(mem.writes));
    }
    StartsAdjacent(addresses, params);
  }
}
