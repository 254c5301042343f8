/**
  A memory space of the functional simulator: `memory_space_impl` in gpgpu-sim/cuda-sim/memory.cc, over the
  zero-filled blocks of `mem_storage` in memory.h. Addresses are 64 bits wide and wrap around.

  The reference is a flat memory: the byte at an address is the one the last write covering it put there, and zero if
  none did.
 */
module PagedMemory {
  import opened Arithmetic

  const TOP: nat := 0x1_0000_0000_0000_0000

  newtype byte = x: int | 0 <= x < 256

  // Addition in 64 bits, of terms that together exceed them at most once.
  function Wrap(x: nat): nat {
    if x >= TOP then x - TOP else x
  }

  // How far a lies above base, going round.
  function Dist(base: nat, a: nat): nat
    requires base < TOP && a < TOP
  {
    if a >= base then a - base else a - base + TOP
  }

  // ---------------------------------------------------------------------------------------------
  // The flat memory

  datatype Write = Put(addr: nat, data: seq<byte>)

  function Flat(writes: seq<Write>, a: nat): byte
    requires a < TOP
  {
    if writes == [] then 0
    else
      var w := writes[|writes| - 1];
      if w.addr < TOP && Dist(w.addr, a) < |w.data| then w.data[Dist(w.addr, a)] else Flat(writes[..|writes| - 1], a)
  }

  // Byte j of the write goes to address a.
  predicate Lands(w: Write, j: nat, a: nat) {
    j < |w.data| && (w.addr + j) % 0x1_0000_0000_0000_0000 == a
  }

  /** Before any write the memory is zero. A write puts its bytes at the addresses from its own on, going round from
      2^64 - 1 to 0, and leaves the others. */
  lemma FlatIsMemory(writes: seq<Write>, w: Write, a: nat, k: nat)
    requires a < TOP && w.addr < TOP && |w.data| <= TOP
    ensures Flat([], a) == 0
    ensures Lands(w, k, a) ==> Flat(writes + [w], a) == w.data[k]
    ensures (forall j: nat :: !Lands(w, j, a)) ==> Flat(writes + [w], a) == Flat(writes, a)
  {
    assert (writes + [w])[..|writes|] == writes;
    if Dist(w.addr, a) < |w.data| { assert Lands(w, Dist(w.addr, a), a); }
  }

  // ---------------------------------------------------------------------------------------------
  // Blocks

  type Blocks = map<nat, seq<byte>>

  predicate BlocksOk(m: Blocks, size: nat) {
    forall k | k in m :: |m[k]| == size
  }

  function At(m: Blocks, size: nat, a: nat): byte
    requires size > 0 && BlocksOk(m, size)
  {
    if a / size in m then m[a / size][a % size] else 0
  }

  // Block k, zero-filled if it was never touched.
  function Block(m: Blocks, size: nat, k: nat): (b: seq<byte>)
    requires BlocksOk(m, size)
    ensures |b| == size
  {
    if k in m then m[k] else seq(size, _ => 0)
  }

  // The place of a in its block, and the end of that block.
  function Offset(size: nat, a: nat): (r: nat)
    requires size > 0
    ensures r < size && r <= a
  {
    a % size
  }

  function BlockEnd(size: nat, a: nat): nat
    requires size > 0
  {
    a - Offset(size, a) + size
  }

  // Sizes the address space divides into: the powers of two.
  predicate Divides(size: nat) {
    0 < size < 0x1_0000_0000 && TOP % size == 0
  }

  // A block ends inside the address space, and at its top only if it is the last.
  lemma BlockEnds(size: nat, a: nat)
    requires Divides(size) && a < TOP
    ensures if a + size < TOP then BlockEnd(size, a) + size <= TOP else BlockEnd(size, a) == TOP
  {
    var n, q := TOP / size, a / size;
    assert TOP == n * size && (n - 1) * size == TOP - size;
    assert a == q * size + a % size && (q + 1) * size == BlockEnd(size, a);
    NextMultiple(size, q, n);
    if a + size < TOP {
      NextMultiple(size, q, n - 1);
    } else if q * size < (n - 1) * size {
      NextMultiple(size, q, n - 1);
    }
  }

  // The addresses of a block and their places in it.
  lemma SameBlock(size: nat, a: nat, x: nat)
    requires size > 0
    ensures x / size == a / size <==> a - a % size <= x < BlockEnd(size, a)
    ensures x / size == a / size ==> x % size == x - (a - a % size)
  {
    var base := a / size * size;
    assert a == base + a % size;
    if base <= x < base + size { Quotient(size, a / size, x - base); }
  }

  function Patched(b: seq<byte>, offset: nat, d: seq<byte>): (r: seq<byte>)
    requires offset + |d| <= |b|
    ensures |r| == |b|
  {
    b[..offset] + d + b[offset + |d|..]
  }

  // `mem_storage::write` on the block of a, created if need be.
  function Patch(m: Blocks, size: nat, a: nat, d: seq<byte>): Blocks
    requires size > 0 && BlocksOk(m, size) && a + |d| <= BlockEnd(size, a)
  {
    m[a / size := Patched(Block(m, size, a / size), Offset(size, a), d)]
  }

  // It changes the bytes patched and no others.
  lemma PatchIsLocal(m: Blocks, size: nat, a: nat, d: seq<byte>, x: nat)
    requires size > 0 && BlocksOk(m, size) && a + |d| <= BlockEnd(size, a)
    ensures BlocksOk(Patch(m, size, a, d), size)
    ensures At(Patch(m, size, a, d), size, x) == if a <= x < a + |d| then d[x - a] else At(m, size, x)
  {
    SameBlock(size, a, x);
  }

  // The blocks agree with the flat memory.
  ghost predicate Agrees(m: Blocks, size: nat, writes: seq<Write>) {
    && Divides(size) && BlocksOk(m, size)
    && forall a: nat | a < TOP :: At(m, size, a) == Flat(writes, a)
  }

  // They agree with it after the first n bytes of w.
  ghost predicate Partly(m: Blocks, size: nat, writes: seq<Write>, w: Write, n: nat) {
    && Divides(size) && BlocksOk(m, size) && w.addr < TOP && n <= |w.data|
    && forall a: nat | a < TOP ::
       At(m, size, a) == if Dist(w.addr, a) < n then w.data[Dist(w.addr, a)] else Flat(writes, a)
  }

  // The bytes of an access that lie in the block its next byte lies in.
  function Chunk(size: nat, addr: nat, n: nat, length: nat): (tx: nat)
    requires Divides(size) && addr < TOP && n < length <= TOP
    ensures 0 < tx <= length - n && Wrap(addr + n) + tx <= BlockEnd(size, Wrap(addr + n)) <= TOP
  {
    var cur := Wrap(addr + n);
    BlockEnds(size, cur);
    if Offset(size, cur) + (length - n) > size then size - Offset(size, cur) else length - n
  }

  lemma PartlyMore(m: Blocks, size: nat, writes: seq<Write>, w: Write, n: nat, cur: nat, d: seq<byte>)
    requires Partly(m, size, writes, w, n) && n < |w.data| <= TOP
    requires cur == Wrap(w.addr + n) && |d| == Chunk(size, w.addr, n, |w.data|) && d == w.data[n..n + |d|]
    ensures Partly(Patch(m, size, cur, d), size, writes, w, n + |d|)
  {
    forall a: nat | a < TOP
      ensures BlocksOk(Patch(m, size, cur, d), size)
      ensures At(Patch(m, size, cur, d), size, a) ==
              if Dist(w.addr, a) < n + |d| then w.data[Dist(w.addr, a)] else Flat(writes, a) {
      PatchIsLocal(m, size, cur, d, a);
      assert cur <= a < cur + |d| <==> n <= Dist(w.addr, a) < n + |d|;
    }
  }

  lemma PatchIsWrite(m: Blocks, size: nat, writes: seq<Write>, w: Write)
    requires Agrees(m, size, writes) && w.addr < TOP && w.addr + |w.data| <= BlockEnd(size, w.addr)
    ensures Partly(Patch(m, size, w.addr, w.data), size, writes, w, |w.data|)
  {
    BlockEnds(size, w.addr);
    forall a: nat | a < TOP
      ensures BlocksOk(Patch(m, size, w.addr, w.data), size)
      ensures At(Patch(m, size, w.addr, w.data), size, a) ==
              if Dist(w.addr, a) < |w.data| then w.data[Dist(w.addr, a)] else Flat(writes, a) {
      PatchIsLocal(m, size, w.addr, w.data, a);
    }
  }

  lemma PartlyDone(m: Blocks, size: nat, writes: seq<Write>, w: Write)
    requires Partly(m, size, writes, w, |w.data|)
    ensures Agrees(m, size, writes + [w])
  {
  }

  // ---------------------------------------------------------------------------------------------
  // The block size

  function Pow2(k: nat): (r: nat)
    ensures r > 0
  {
    if k == 0 then 1 else 2 * Pow2(k - 1)
  }

  // The low n + 1 bits of x are its low n bits and bit n.
  lemma OneMoreBit(x: nat, mask: nat)
    requires mask > 0
    ensures x % (2 * mask) == x % mask + x / mask % 2 * mask
  {
    var q := x / mask;
    assert x == q * mask + x % mask && q == q / 2 * 2 + q % 2;
    assert q * mask == q / 2 * (2 * mask) + q % 2 * mask;
    assert q % 2 == 0 || q % 2 == 1;
    Quotient(2 * mask, q / 2, q % 2 * mask + x % mask);
  }

  lemma {:induction false} Pow2Grows(j: nat, k: nat)
    requires j < k
    ensures Pow2(j) < Pow2(k)
  {
    if k == j + 1 {
    } else {
      Pow2Grows(j, k - 1);
    }
  }

  lemma {:induction false} Pow2Multiple(j: nat, k: nat)
    requires k <= j
    ensures Pow2(j) % Pow2(k) == 0
  {
    if k == 0 {
    } else {
      Pow2Multiple(j - 1, k - 1);
      var m, q := Pow2(k - 1), Pow2(j - 1) / Pow2(k - 1);
      assert Pow2(j) == q * (2 * m);
      Quotient(2 * m, q, 0);
    }
  }

  lemma {:induction false} Pow2Sum(j: nat, k: nat)
    ensures Pow2(j + k) == Pow2(j) * Pow2(k)
  {
    if j == 0 {
    } else {
      Pow2Sum(j - 1, k);
    }
  }

  lemma WordSizes()
    ensures Pow2(32) == 0x1_0000_0000 && Pow2(64) == TOP
  {
    assert Pow2(8) == 0x100;
    Pow2Sum(8, 8);
    Pow2Sum(16, 16);
    Pow2Sum(32, 32);
  }

  // Two bits make no power of two.
  lemma TwoBits(x: nat, k: nat, n: nat, j: nat)
    requires k < n && x % Pow2(n + 1) == Pow2(k) + Pow2(n)
    ensures x != Pow2(j)
  {
    Pow2Grows(k, n);
    if j <= n {
      Pow2Grows(j, n + 1);
      if j < n { Pow2Grows(j, n); }
      Quotient(Pow2(n + 1), 0, Pow2(j));
    } else {
      Pow2Multiple(j, n + 1);
    }
  }

  /** The constructor's search for the one bit of the block size: it passes its assertions exactly for the powers of
      two, and finds the exponent. */
  method Log2(size: nat) returns (found: int)
    requires size < 0x1_0000_0000
    ensures found >= 0 ==> size == Pow2(found)
    ensures found < 0 ==> forall j: nat :: size != Pow2(j)
  {
    found := -1;
    var n, mask := 0, 1;
    while n < 32
      invariant n <= 32 && mask == Pow2(n)
      invariant found < 0 ==> size % mask == 0
      invariant found >= 0 ==> found < n && size % mask == Pow2(found)
    {
      OneMoreBit(size, mask);
      if size / mask % 2 == 1 {
        if found >= 0 {
          forall j: nat ensures size != Pow2(j) { TwoBits(size, found, n, j); }
          return -1;
        }
        found := n;
      }
      n, mask := n + 1, 2 * mask;
    }
    WordSizes();
    assert size % mask == size;
  }

  /** A power of two below 2^32 divides the address space. */
  lemma Pow2Divides(k: nat)
    requires k < 32
    ensures Divides(Pow2(k))
  {
    WordSizes();
    Pow2Multiple(64, k);
    Pow2Grows(k, 32);
  }

  // ---------------------------------------------------------------------------------------------
  // Watchpoints

  // The test of `write`, with its 64-bit sums.
  predicate Hits(addr: nat, length: nat, wa: nat) {
    (addr <= wa && Wrap(addr + length) > wa) || (addr > wa && addr < Wrap(wa + 4))
  }

  ghost predicate Overlaps(addr: nat, length: nat, wa: nat)
    requires addr < TOP && wa < TOP
  {
    exists a: nat | a < TOP :: Dist(addr, a) < length && Dist(wa, a) < 4
  }

  /** The writes that are missed: from at or below the watchpoint to the top; to the bottom, where the watched bytes go
      on; from above a watchpoint whose bytes reach the top; from above the watched bytes round to the watchpoint. */
  predicate Missed(addr: nat, length: nat, wa: nat) {
    || (addr <= wa && addr + length >= TOP)
    || (addr + TOP < wa + 4 && 0 < length && addr + length <= wa)
    || (addr > wa && wa + 4 >= TOP && 0 < length)
    || (addr >= wa + 4 && addr + length > TOP + wa)
  }

  /** The test for watchpoints is right, but for these writes and for empty ones that start inside the watched bytes. */
  lemma WatchExact(addr: nat, length: nat, wa: nat)
    requires addr < TOP && wa < TOP && length < TOP
    ensures Overlaps(addr, length, wa) && !Hits(addr, length, wa) <==> Missed(addr, length, wa)
    ensures Hits(addr, length, wa) && !Overlaps(addr, length, wa) <==> length == 0 && wa < addr < Wrap(wa + 4)
  {
    assert Dist(addr, addr) == 0 && Dist(wa, wa) == 0;
    if Dist(addr, wa) < length { assert Overlaps(addr, length, wa); }
    if 0 < length && Dist(wa, addr) < 4 { assert Overlaps(addr, length, wa); }
  }

  // One write of each kind.
  lemma WatchMisses()
    ensures Overlaps(TOP - 16, 16, TOP - 8) && !Hits(TOP - 16, 16, TOP - 8)
    ensures Overlaps(0, 1, TOP - 1) && !Hits(0, 1, TOP - 1)
    ensures Overlaps(TOP - 2, 1, TOP - 3) && !Hits(TOP - 2, 1, TOP - 3)
    ensures Overlaps(TOP - 8, 10, 0) && !Hits(TOP - 8, 10, 0)
  {
    WatchExact(TOP - 16, 16, TOP - 8);
    WatchExact(0, 1, TOP - 1);
    WatchExact(TOP - 2, 1, TOP - 3);
    WatchExact(TOP - 8, 10, 0);
  }

  // ---------------------------------------------------------------------------------------------
  // The memory space

  datatype Outcome = Bytes(data: seq<byte>) | Thrown | Aborted

  // An access starts below the last block and runs over the top.
  predicate RunsOver(size: nat, addr: nat, length: nat) {
    addr + size < TOP <= addr + length && addr < TOP
  }

  // An access ends inside the last block, before its end.
  predicate EndsInLast(size: nat, addr: nat, length: nat) {
    length > 0 && TOP < addr + length + size && addr + length < TOP
  }

  // The fast route: in 64 bits the access seems to end in the block it starts in.
  predicate Fast(size: nat, addr: nat, length: nat)
    requires size > 0
  {
    Wrap(addr + length) <= Wrap(BlockEnd(size, addr))
  }

  // The fast route is taken wrongly by accesses that run over the top and by no others.
  lemma FastExact(size: nat, addr: nat, length: nat)
    requires Divides(size) && addr < TOP && length + size <= 0x1_0000_0000
    ensures BlockEnd(size, addr) <= TOP
    ensures Fast(size, addr, length) ==> (Offset(size, addr) + length <= size <==> !RunsOver(size, addr, length))
    ensures !Fast(size, addr, length) ==> !RunsOver(size, addr, length)
  {
    BlockEnds(size, addr);
  }

  // `read_single_block`.
  function SingleBlock(m: Blocks, size: nat, addr: nat, length: nat): Outcome
    requires size > 0 && BlocksOk(m, size)
  {
    if Wrap(addr + length) > Wrap(BlockEnd(size, addr)) then Thrown
    else if addr / size !in m then Bytes(seq(length, _ => 0))
    else if Offset(size, addr) + length > size then Aborted
    else Bytes(m[addr / size][Offset(size, addr)..Offset(size, addr) + length])
  }

  // data is what the blocks hold from addr on, going round.
  predicate Reads(m: Blocks, size: nat, addr: nat, data: seq<byte>)
    requires size > 0 && BlocksOk(m, size)
  {
    forall i | 0 <= i < |data| :: data[i] == At(m, size, Wrap(addr + i))
  }

  lemma SingleBlockReads(m: Blocks, size: nat, addr: nat, length: nat)
    requires 0 < size < TOP && BlocksOk(m, size) && addr < TOP && addr + length <= BlockEnd(size, addr) <= TOP
    ensures var r := SingleBlock(m, size, addr, length);
            if BlockEnd(size, addr) == TOP && addr + length < TOP then r == Thrown
            else r.Bytes? && |r.data| == length && Reads(m, size, addr, r.data)
  {
    var r := SingleBlock(m, size, addr, length);
    if r.Bytes? {
      forall i | 0 <= i < length ensures r.data[i] == At(m, size, Wrap(addr + i)) { SameBlock(size, addr, addr + i); }
    }
  }

  lemma ReadsMore(m: Blocks, size: nat, addr: nat, data: seq<byte>, cur: nat, more: seq<byte>)
    requires size > 0 && BlocksOk(m, size) && addr < TOP && |data| <= TOP && cur == Wrap(addr + |data|)
    requires cur + |more| <= TOP && Reads(m, size, addr, data) && Reads(m, size, cur, more)
    ensures Reads(m, size, addr, data + more)
  {
  }

  class MemorySpace {
    const size: nat
    var blocks: Blocks
    var watchpoints: map<nat, nat>
    ghost var writes: seq<Write>

    ghost predicate Valid()
      reads this
    {
      Agrees(blocks, size, writes)
    }

    constructor (size: nat)
      requires Divides(size)
      ensures Valid() && this.size == size && writes == [] && watchpoints == map[]
    {
      this.size := size;
      blocks, watchpoints, writes := map[], map[], [];
    }

    // The slow route of `write`, block by block.
    method StoreAcross(addr: nat, data: seq<byte>)
      requires Valid() && addr < TOP && |data| <= TOP
      modifies this`blocks
      ensures Partly(blocks, size, writes, Put(addr, data), |data|)
    {
      var remain, src, cur := |data|, 0, addr;
      while remain > 0
        invariant remain + src == |data| && cur == Wrap(addr + src)
        invariant Partly(blocks, size, writes, Put(addr, data), src)
      {
        var limit := Offset(size, cur) + remain;
        if limit > size { limit := size; }
        var tx := limit - Offset(size, cur);
        assert tx == Chunk(size, addr, src, |data|);
        var d := data[src..src + tx];
        PartlyMore(blocks, size, writes, Put(addr, data), src, cur, d);
        blocks := Patch(blocks, size, cur, d);
        src, cur, remain := src + tx, Wrap(cur + tx), remain - tx;
      }
    }

    /** `write`, but for the watchpoints. It ends in the flat memory with the write done; an assertion stops it if the
        access starts below the last block and runs over the top of the address space, and only then. */
    method Store(addr: nat, data: seq<byte>) returns (ok: bool)
      requires Valid() && addr < TOP && |data| + size <= 0x1_0000_0000
      modifies this`blocks, this`writes
      ensures ok == !RunsOver(size, addr, |data|)
      ensures ok ==> Valid() && writes == old(writes) + [Put(addr, data)]
    {
      ghost var w := Put(addr, data);
      FastExact(size, addr, |data|);
      if Fast(size, addr, |data|) {
        if Offset(size, addr) + |data| > size { return false; }
        PatchIsWrite(blocks, size, writes, w);
        blocks := Patch(blocks, size, addr, data);
      } else {
        StoreAcross(addr, data);
      }
      PartlyDone(blocks, size, writes, w);
      writes := writes + [w];
      ok := true;
    }

    /** `write`: the store, and the watchpoints it hits. */
    method Write(addr: nat, data: seq<byte>) returns (ok: bool, hits: set<nat>)
      requires Valid() && addr < TOP && |data| + size <= 0x1_0000_0000
      modifies this`blocks, this`writes
      ensures ok == !RunsOver(size, addr, |data|)
      ensures ok ==> Valid() && writes == old(writes) + [Put(addr, data)]
      ensures ok ==> hits == set i | i in watchpoints && Hits(addr, |data|, watchpoints[i])
    {
      hits := {};
      ok := Store(addr, data);
      if ok {
        var left := watchpoints.Keys;
        while left != {}
          invariant left <= watchpoints.Keys
          invariant hits == set i | i in watchpoints.Keys - left && Hits(addr, |data|, watchpoints[i])
        {
          var i :| i in left;
          if Hits(addr, |data|, watchpoints[i]) { hits := hits + {i}; }
          left := left - {i};
        }
      }
    }

    // The slow route of `read`.
    method LoadAcross(addr: nat, length: nat) returns (r: Outcome)
      requires Valid() && addr < TOP && length + size <= 0x1_0000_0000
      ensures r.Thrown? <==> EndsInLast(size, addr, length)
      ensures !r.Thrown? ==> r.Bytes? && Reads(blocks, size, addr, r.data) && |r.data| == length
    {
      var remain, dst, cur := length, 0, addr;
      var data: seq<byte> := [];
      while remain > 0
        invariant dst <= length && remain == length - dst && cur == Wrap(addr + dst) && |data| == dst
        invariant Reads(blocks, size, addr, data)
        invariant remain == 0 ==> !EndsInLast(size, addr, length)
      {
        var limit := Offset(size, cur) + remain;
        if limit > size { limit := size; }
        var tx := limit - Offset(size, cur);
        assert tx == Chunk(size, addr, dst, length);
        BlockEnds(size, cur);
        SingleBlockReads(blocks, size, cur, tx);
        var part := SingleBlock(blocks, size, cur, tx);
        if part.Thrown? { return Thrown; }
        ReadsMore(blocks, size, addr, data, cur, part.data);
        data := data + part.data;
        dst, cur, remain := dst + tx, Wrap(cur + tx), remain - tx;
      }
      r := Bytes(data);
    }

    /** `read` returns the bytes of the flat memory, by either route, unless the access touches the top of the address
        space the wrong way: one that ends inside the last block throws, and one that starts below that block and runs
        over the top is stopped by an assertion, or reads zeros if its first block was never written. */
    method Read(addr: nat, length: nat) returns (r: Outcome)
      requires Valid() && addr < TOP && length + size <= 0x1_0000_0000
      ensures EndsInLast(size, addr, length) ==> r == Thrown
      ensures RunsOver(size, addr, length) ==>
              r == if addr / size in blocks then Aborted else Bytes(seq(length, _ => 0))
      ensures !EndsInLast(size, addr, length) && !RunsOver(size, addr, length) ==>
                && r.Bytes? && |r.data| == length
                && forall i | 0 <= i < length :: r.data[i] == Flat(writes, Wrap(addr + i))
    {
      FastExact(size, addr, length);
      if Fast(size, addr, length) {
        BlockEnds(size, addr);
        if !RunsOver(size, addr, length) { SingleBlockReads(blocks, size, addr, length); }
        r := SingleBlock(blocks, size, addr, length);
      } else {
        r := LoadAcross(addr, length);
      }
    }
  }
}
