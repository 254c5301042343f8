/**
  The memory accesses a warp generates: `memory_coalescing_arch_13`, `memory_coalescing_arch_13_atomic` and
  `memory_coalescing_arch_13_reduce_and_send` in gpgpu-sim/abstract_hardware_model.cc.

  A sub-warp is given as the accesses of its active lanes, in lane order, each of `width` bytes. A lane has one
  access, or several if a wide access to local memory was split.
 */
module Coalescing {
  import opened Arithmetic

  datatype Access = Access(lane: nat, addr: nat)

  // What is known of a transaction: the 32-byte chunks it touches in its 128-byte block, the bytes there, the lanes.
  datatype Info = Info(chunks: set<nat>, bytes: set<nat>, active: set<nat>)

  datatype MemAccess = MemAccess(addr: nat, size: nat, active: set<nat>, bytes: set<nat>)

  predicate IsSegment(s: nat) {
    s == 32 || s == 64 || s == 128
  }

  // The segments of accesses of this many bytes: 1, 2, 4, 8 or 16.
  function SegmentSize(dataSize: nat): (s: nat)
    ensures IsSegment(s)
  {
    if dataSize == 1 then 32 else if dataSize == 2 then 64 else 128
  }

  // The remainder by a segment size.
  function Low(addr: nat, s: nat): nat
    requires IsSegment(s)
  {
    if s == 32 then addr % 32 else if s == 64 then addr % 64 else addr % 128
  }

  // The start of the segment of addr.
  function Tag(addr: nat, s: nat): nat
    requires IsSegment(s)
  {
    addr - Low(addr, s)
  }

  function ChunkOf(addr: nat): nat {
    addr % 128 / 32
  }

  // The access does not leave the 32-byte chunk it starts in.
  predicate Fits(addr: nat, width: nat) {
    1 <= width && addr % 32 + width <= 32
  }

  predicate NaturallyAligned(addr: nat, width: nat) {
    match width
    case 1 => true
    case 2 => addr % 2 == 0
    case 4 => addr % 4 == 0
    case 8 => addr % 8 == 0
    case 16 => addr % 16 == 0
    case _ => false
  }

  lemma NaturalFits(addr: nat, width: nat)
    requires NaturallyAligned(addr, width)
    ensures Fits(addr, width)
  {
  }

  predicate AllFit(accs: seq<Access>, width: nat) {
    forall i | 0 <= i < |accs| :: Fits(accs[i].addr, width)
  }

  // Addresses in units of 32 bytes.
  lemma Units(addr: nat)
    ensures var k, r := addr / 32, addr % 32;
            && addr == 32 * k + r && addr % 64 == 32 * (k % 2) + r && addr % 128 == 32 * (k % 4) + r
            && ChunkOf(addr) == k % 4
  {
    var k, r := addr / 32, addr % 32;
    Quotient(64, k / 2, 32 * (k % 2) + r);
    Quotient(128, k / 4, 32 * (k % 4) + r);
    Quotient(32, k % 4, r);
  }

  // Tags are multiples of the segment size.
  lemma TagIsMultiple(addr: nat, s: nat)
    requires IsSegment(s)
    ensures Tag(addr, s) == addr / s * s
  {
  }

  lemma TagIsAligned(addr: nat, s: nat)
    requires IsSegment(s)
    ensures Low(Tag(addr, s), s) == 0
  {
    TagIsMultiple(addr, s);
    Quotient(s, addr / s, 0);
  }

  /** The segments of accesses of 1, 2, 4, 8 and 16 bytes: 32 bytes for each byte, and at most 128. */
  lemma SegmentSizes(dataSize: nat)
    requires dataSize == 1 || dataSize == 2 || dataSize == 4 || dataSize == 8 || dataSize == 16
    ensures SegmentSize(dataSize) == if 32 * dataSize < 128 then 32 * dataSize else 128
  {
  }

  /** Accesses of 4, 8 or 16 bytes share a segment if and only if they lie in the same 128 bytes; of 2 bytes, in the
      same 64; of 1 byte, in the same 32. */
  lemma SharedSegment(dataSize: nat, a: nat, b: nat)
    ensures dataSize == 1 ==> (Tag(a, SegmentSize(dataSize)) == Tag(b, SegmentSize(dataSize)) <==> a / 32 == b / 32)
    ensures dataSize == 2 ==> (Tag(a, SegmentSize(dataSize)) == Tag(b, SegmentSize(dataSize)) <==> a / 64 == b / 64)
    ensures dataSize == 4 || dataSize == 8 || dataSize == 16 ==>
              (Tag(a, SegmentSize(dataSize)) == Tag(b, SegmentSize(dataSize)) <==> a / 128 == b / 128)
  {
    SameTag(a, b, SegmentSize(dataSize));
  }

  // A segment lies in one block of 128 bytes.
  lemma SameBlock(addr: nat, s: nat)
    requires IsSegment(s)
    ensures Tag(Tag(addr, s), 128) == Tag(addr, 128) <= Tag(addr, s) && Tag(addr, s) + s <= Tag(addr, 128) + 128
  {
    Units(addr);
    var m, k := addr / 128, addr / 32;
    assert addr == 128 * m + addr % 128;
    if s == 32 {
      Quotient(128, m, 32 * (k % 4));
    } else if s == 64 {
      Halves(k);
      Quotient(128, m, 32 * (k % 4 - k % 2));
    } else {
      Quotient(128, m, 0);
    }
  }

  lemma Halves(k: nat)
    ensures k % 4 - k % 2 == 0 || k % 4 - k % 2 == 2
  {
    assert k == 4 * (k / 4) + k % 4;
  }

  // An access that fits lies in one segment, and so does its chunk.
  lemma InSegment(addr: nat, width: nat, s: nat)
    requires IsSegment(s) && Fits(addr, width)
    ensures var b := Tag(addr, s);
            && addr + width <= b + s && Tag(addr + width - 1, s) == b
            && ChunkInside(Tag(addr, 128), b, s, ChunkOf(addr))
               && Tag(addr, 128) + 32 * ChunkOf(addr) == addr - addr % 32
  {
    Units(addr);
    Units(addr + width - 1);
    SameUnit(addr, addr + width - 1);
  }

  lemma SameUnit(x: nat, y: nat)
    requires x <= y && y - x + x % 32 < 32
    ensures x / 32 == y / 32
  {
  }

  // ---------------------------------------------------------------------------------------------
  // Reducing the size

  // Chunk c of the 128-byte block at base lies in the segment at b.
  predicate ChunkInside(base: nat, b: nat, s: nat, c: nat) {
    c < 4 && b <= base + 32 * c && base + 32 * c + 32 <= b + s
  }

  predicate ChunksInside(base: nat, b: nat, s: nat, chunks: set<nat>) {
    chunks != {} && forall c | c in chunks :: ChunkInside(base, b, s, c)
  }

  // Some byte of every chunk lies in [a, a + z).
  predicate Meets(base: nat, chunks: set<nat>, a: nat, z: nat) {
    forall c | c in chunks :: a < base + 32 * c + 32 && base + 32 * c < a + z
  }

  // Every chunk lies in [a, a + z).
  predicate Covers(base: nat, chunks: set<nat>, a: nat, z: nat) {
    forall c | c in chunks :: a <= base + 32 * c && base + 32 * c + 32 <= a + z
  }

  // An aligned block that meets a chunk contains it.
  lemma MeetsIsContains(x: nat, z: nat, p: nat)
    requires IsSegment(z) && Low(x, z) == 0 && p % 32 == 0 && x < p + 32 && p < x + z
    ensures x <= p && p + 32 <= x + z
  {
  }

  // Why a block cannot be smaller: it is a single chunk, or both its halves are used.
  predicate Tight(base: nat, chunks: set<nat>, addr: nat, size: nat) {
    || (size == 32 && exists c :: c in chunks && addr == base + 32 * c)
    || (size == 64 && exists c :: c in chunks && c + 1 in chunks && addr == base + 32 * c)
    || (size == 128 && addr == base && (0 in chunks || 1 in chunks) && (2 in chunks || 3 in chunks))
  }

  // An aligned block with a chunk of either half of a 128-byte block is that block.
  lemma HalvesApart(base: nat, x: nat, z: nat)
    requires IsSegment(z) && Low(x, z) == 0 && base % 128 == 0 && x <= base + 32 && base + 96 <= x + z
    ensures x == base && z == 128
  {
    assert base == 128 * (base / 128);
  }

  lemma TightIsSmallest(base: nat, chunks: set<nat>, addr: nat, size: nat, x: nat, z: nat)
    requires base % 128 == 0 && Tight(base, chunks, addr, size)
    requires IsSegment(z) && Low(x, z) == 0 && Meets(base, chunks, x, z)
    ensures x <= addr && addr + size <= x + z
  {
    forall c | c in chunks ensures x <= base + 32 * c && base + 32 * c + 32 <= x + z {
      Quotient(32, 4 * (base / 128) + c, 0);
      MeetsIsContains(x, z, base + 32 * c);
    }
    if size == 128 { HalvesApart(base, x, z); }
  }

  /** `reduce_and_send`: the smallest aligned block of 32, 64 or 128 bytes that covers the chunks. It lies inside every
      aligned block that meets them all, and the assertions hold. */
  method Reduce(ghost base: nat, b: nat, s: nat, chunks: set<nat>) returns (addr: nat, size: nat)
    requires IsSegment(s) && Low(b, s) == 0 && base == Tag(b, 128) && ChunksInside(base, b, s, chunks)
    ensures IsSegment(size) && Low(addr, size) == 0 && Covers(base, chunks, addr, size)
            && Tight(base, chunks, addr, size)
  {
    var q0, q1, q2, q3 := 0 in chunks, 1 in chunks, 2 in chunks, 3 in chunks;
    SomeChunk(base, b, s, chunks);
    Places(base, b, s);
    var h0, h1 := false, false;
    addr, size := b, s;
    if s == 128 {
      var lower, upper := q0 || q1, q2 || q3;
      if lower && !upper {
        size := 64;
        h0, h1 := q0, q1;
      } else if !lower && upper {
        addr, size := addr + 64, 64;
        h0, h1 := q2, q3;
      } else {
        assert lower && upper;
      }
    } else if s == 64 {
      if addr % 128 == 0 {
        h0, h1 := q0, q1;
      } else {
        assert addr % 128 == 64;
        h0, h1 := q2, q3;
      }
    }
    if size == 64 {
      if h0 && !h1 {
        size := 32;
      } else if !h0 && h1 {
        addr, size := addr + 32, 32;
      } else {
        assert h0 && h1;
      }
    }
  }

  // The places of a segment in its 128-byte block.
  lemma Places(base: nat, b: nat, s: nat)
    requires IsSegment(s) && Low(b, s) == 0 && base == Tag(b, 128)
    ensures base % 128 == 0 && Low(base, 64) == Low(base + 64, 64) == 0
    ensures Low(base, 32) == Low(base + 32, 32) == Low(base + 64, 32) == Low(base + 96, 32) == 0
    ensures s == 128 ==> b == base
    ensures s == 64 ==> b == base || b == base + 64
  {
    Multiples(b / 128);
    Units(b);
  }

  lemma Multiples(m: nat)
    ensures (128 * m) % 128 == (128 * m) % 64 == (128 * m + 64) % 64 == 0
    ensures (128 * m) % 32 == (128 * m + 32) % 32 == (128 * m + 64) % 32 == (128 * m + 96) % 32 == 0
  {
    Quotient(128, m, 0);
    Quotient(64, 2 * m, 0);
    Quotient(64, 2 * m + 1, 0);
    Quotient(32, 4 * m, 0);
    Quotient(32, 4 * m + 1, 0);
    Quotient(32, 4 * m + 2, 0);
    Quotient(32, 4 * m + 3, 0);
  }

  lemma SomeChunk(base: nat, b: nat, s: nat, chunks: set<nat>)
    requires ChunksInside(base, b, s, chunks)
    ensures 0 in chunks || 1 in chunks || 2 in chunks || 3 in chunks
    ensures forall c | c in chunks :: c == 0 || c == 1 || c == 2 || c == 3
  {
  }

  // ---------------------------------------------------------------------------------------------
  // Transactions

  function Span(a: nat, n: nat): (r: set<nat>)
    ensures forall k :: k in r <==> a <= k < a + n
  {
    if n == 0 then {} else Span(a, n - 1) + {a + n - 1}
  }

  predicate Indices(accs: seq<Access>, which: set<nat>) {
    forall i | i in which :: i < |accs|
  }

  // info is what the accesses in `which` add up to.
  ghost predicate Describes(info: Info, accs: seq<Access>, width: nat, which: set<nat>)
    requires Indices(accs, which)
  {
    && (forall c :: c in info.chunks <==> exists i :: i in which && ChunkOf(accs[i].addr) == c)
    && (forall k :: k in info.bytes <==> exists i :: i in which && k in Span(accs[i].addr % 128, width))
    && (forall l :: l in info.active <==> exists i :: i in which && accs[i].lane == l)
  }

  function Joined(info: Info, acc: Access, width: nat): Info {
    Info(info.chunks + {ChunkOf(acc.addr)}, info.bytes + Span(acc.addr % 128, width), info.active + {acc.lane})
  }

  const EMPTY := Info({}, {}, {})

  lemma JoinedDescribes(info: Info, accs: seq<Access>, width: nat, which: set<nat>, n: nat, more: set<nat>)
    requires Indices(accs, which) && n < |accs| && more == which + {n} && Describes(info, accs, width, which)
    ensures Describes(Joined(info, accs[n], width), accs, width, more)
  {
  }

  // The accesses among the first n to the segment at b.
  function Members(accs: seq<Access>, n: nat, s: nat, b: nat): set<nat>
    requires n <= |accs| && IsSegment(s)
  {
    set i: nat | 0 <= i < n && Tag(accs[i].addr, s) == b
  }

  // The memory access sent for the segment at b: its lanes and its bytes are those of its members, and its block is the
  // smallest that holds them.
  ghost predicate Exact(a: MemAccess, accs: seq<Access>, width: nat, s: nat, b: nat, which: set<nat>)
    requires IsSegment(s) && Indices(accs, which)
  {
    && (forall l :: l in a.active <==> exists i :: i in which && accs[i].lane == l)
    && (forall k :: k in a.bytes <==> exists i :: i in which && k in Span(accs[i].addr % 128, width))
    && IsSegment(a.size) && Low(a.addr, a.size) == 0
    && Holds(accs, width, which, a.addr, a.size)
    && forall x: nat, z | IsSegment(z) && Low(x, z) == 0 && Holds(accs, width, which, x, z) ::
         x <= a.addr && a.addr + a.size <= x + z
  }

  // Every byte of the accesses lies in [x, x + z).
  ghost predicate Holds(accs: seq<Access>, width: nat, which: set<nat>, x: nat, z: nat)
    requires Indices(accs, which)
  {
    forall i | i in which :: x <= accs[i].addr && accs[i].addr + width <= x + z
  }

  // The members of a segment.
  predicate AllIn(accs: seq<Access>, width: nat, s: nat, b: nat, which: set<nat>)
    requires IsSegment(s) && Indices(accs, which)
  {
    which != {} && forall i | i in which :: Fits(accs[i].addr, width) && Tag(accs[i].addr, s) == b
  }

  lemma ChunksOfMembers(info: Info, accs: seq<Access>, width: nat, s: nat, b: nat, which: set<nat>)
    requires IsSegment(s) && Indices(accs, which) && AllIn(accs, width, s, b, which)
             && Describes(info, accs, width, which)
    ensures Low(b, s) == 0 && ChunksInside(Tag(b, 128), b, s, info.chunks)
  {
    var i :| i in which;
    TagIsAligned(accs[i].addr, s);
    assert ChunkOf(accs[i].addr) in info.chunks;
    forall c | c in info.chunks ensures ChunkInside(Tag(b, 128), b, s, c) {
      var j :| j in which && ChunkOf(accs[j].addr) == c;
      InSegment(accs[j].addr, width, s);
      SameBlock(accs[j].addr, s);
    }
  }

  lemma MembersCovered(info: Info, accs: seq<Access>, width: nat, s: nat, b: nat, which: set<nat>, x: nat, z: nat)
    requires IsSegment(s) && Indices(accs, which) && AllIn(accs, width, s, b, which)
             && Describes(info, accs, width, which)
    ensures Covers(Tag(b, 128), info.chunks, x, z) ==> Holds(accs, width, which, x, z)
    ensures Holds(accs, width, which, x, z) ==> Meets(Tag(b, 128), info.chunks, x, z)
  {
    forall i | i in which
      ensures Tag(b, 128) + 32 * ChunkOf(accs[i].addr) == accs[i].addr - accs[i].addr % 32
      ensures ChunkOf(accs[i].addr) in info.chunks {
      InSegment(accs[i].addr, width, s);
      SameBlock(accs[i].addr, s);
    }
  }

  method Send(info: Info, ghost accs: seq<Access>, ghost width: nat, s: nat, b: nat, ghost which: set<nat>)
    returns (a: MemAccess)
    requires IsSegment(s) && Indices(accs, which) && AllIn(accs, width, s, b, which)
             && Describes(info, accs, width, which)
    ensures Exact(a, accs, width, s, b, which)
  {
    ghost var base := Tag(b, 128);
    ChunksOfMembers(info, accs, width, s, b, which);
    Places(base, b, s);
    var addr, size := Reduce(base, b, s, info.chunks);
    MembersCovered(info, accs, width, s, b, which, addr, size);
    forall x: nat, z | IsSegment(z) && Low(x, z) == 0 && Holds(accs, width, which, x, z)
      ensures x <= addr && addr + size <= x + z {
      MembersCovered(info, accs, width, s, b, which, x, z);
      TightIsSmallest(base, info.chunks, addr, size, x, z);
    }
    a := MemAccess(addr, size, info.active, info.bytes);
  }

  // ---------------------------------------------------------------------------------------------
  // Coalescing

  ghost predicate Gathered(m: map<nat, Info>, accs: seq<Access>, width: nat, s: nat, n: nat)
    requires n <= |accs| && IsSegment(s)
  {
    && (forall b: nat :: b in m <==> Members(accs, n, s, b) != {})
    && (forall b | b in m :: Describes(m[b], accs, width, Members(accs, n, s, b)))
  }

  lemma MembersMore(accs: seq<Access>, n: nat, s: nat, b: nat)
    requires n < |accs| && IsSegment(s)
    ensures Members(accs, n + 1, s, b) ==
            if Tag(accs[n].addr, s) == b then Members(accs, n, s, b) + {n} else Members(accs, n, s, b)
  {
  }

  lemma GatherMore(m: map<nat, Info>, accs: seq<Access>, width: nat, s: nat, n: nat, k: nat, info: Info)
    requires n < |accs| && IsSegment(s) && Gathered(m, accs, width, s, n) && k == Tag(accs[n].addr, s)
    requires info == if k in m then m[k] else EMPTY
    ensures Gathered(m[k := Joined(info, accs[n], width)], accs, width, s, n + 1)
  {
    var t := m[k := Joined(info, accs[n], width)];
    forall b: nat ensures b in t <==> Members(accs, n + 1, s, b) != {} {
      MembersMore(accs, n, s, b);
      assert n in Members(accs, n + 1, s, k);
    }
    forall b | b in t ensures Describes(t[b], accs, width, Members(accs, n + 1, s, b)) {
      MembersMore(accs, n, s, b);
      if b == k { JoinedDescribes(info, accs, width, Members(accs, n, s, k), n, Members(accs, n + 1, s, k)); }
    }
  }

  // Step 1: the transactions of the sub-warp, by segment.
  method Gather(accs: seq<Access>, width: nat, s: nat) returns (m: map<nat, Info>)
    requires IsSegment(s) && AllFit(accs, width)
    ensures Gathered(m, accs, width, s, |accs|)
  {
    m := map[];
    for n := 0 to |accs|
      invariant Gathered(m, accs, width, s, n)
    {
      var k := Tag(accs[n].addr, s);
      InSegment(accs[n].addr, width, s);
      assert k == Tag(accs[n].addr + width - 1, s);
      var info := if k in m then m[k] else EMPTY;
      GatherMore(m, accs, width, s, n, k, info);
      m := m[k := Joined(info, accs[n], width)];
    }
  }

  predicate Increasing(ks: seq<nat>) {
    forall i, j | 0 <= i < j < |ks| :: ks[i] < ks[j]
  }

  predicate Bounds(k: nat, keys: set<nat>) {
    forall l | l in keys :: k <= l
  }

  lemma {:induction false} Smallest(keys: set<nat>) returns (k: nat)
    requires keys != {}
    ensures k in keys && Bounds(k, keys)
    decreases |keys|
  {
    k :| k in keys;
    var rest := keys - {k};
    assert keys == rest + {k};
    if rest == {} {
    } else {
      var j := Smallest(rest);
      if j < k { k := j; }
    }
  }

  // A map is gone through in the order of its keys.
  method InOrder(keys: set<nat>) returns (ks: seq<nat>)
    ensures Increasing(ks) && forall k :: k in ks <==> k in keys
  {
    var left := keys;
    ks := [];
    while left != {}
      invariant Increasing(ks) && left <= keys
      invariant forall k :: k in ks <==> k in keys && k !in left
      invariant ks != [] ==> Bounds(ks[|ks| - 1] + 1, left)
    {
      ghost var least := Smallest(left);
      var k: nat :| k in left && Bounds(k, left);
      assert Bounds(k, left);
      var more := ks + [k];
      assert Increasing(more);
      ghost var was := left;
      ks, left := more, left - {k};
      forall l | l in left ensures k + 1 <= l { assert l in was && k <= l; }
    }
  }

  /** One access for each segment touched, in the order of addresses. Its lanes and its byte mask are exactly those of
      the accesses to the segment, and its block is the smallest aligned one of 32, 64 or 128 bytes that holds them
      all. */
  ghost predicate Coalesced(segments: seq<nat>, accessq: seq<MemAccess>, accs: seq<Access>, width: nat, s: nat)
    requires IsSegment(s)
  {
    && Increasing(segments) && |accessq| == |segments|
    && (forall b: nat :: b in segments <==> exists i :: 0 <= i < |accs| && Tag(accs[i].addr, s) == b)
    && (forall k | 0 <= k < |segments| ::
          Exact(accessq[k], accs, width, s, segments[k], Members(accs, |accs|, s, segments[k])))
  }

  /** `memory_coalescing_arch_13` on one sub-warp. */
  method Coalesce(accs: seq<Access>, width: nat, s: nat) returns (segments: seq<nat>, accessq: seq<MemAccess>)
    requires IsSegment(s) && AllFit(accs, width)
    ensures Coalesced(segments, accessq, accs, width, s)
  {
    var m := Gather(accs, width, s);
    segments := InOrder(m.Keys);
    accessq := SendAll(m, segments, accs, width, s);
    forall b: nat ensures b in segments <==> exists i :: 0 <= i < |accs| && Tag(accs[i].addr, s) == b {
      SomeMember(accs, s, b);
    }
  }

  // Step 2.
  method SendAll(m: map<nat, Info>, segments: seq<nat>, ghost accs: seq<Access>, ghost width: nat, s: nat)
    returns (accessq: seq<MemAccess>)
    requires IsSegment(s) && AllFit(accs, width) && Gathered(m, accs, width, s, |accs|)
    requires forall b | b in segments :: b in m
    ensures |accessq| == |segments|
    ensures forall k | 0 <= k < |segments| ::
              Exact(accessq[k], accs, width, s, segments[k], Members(accs, |accs|, s, segments[k]))
  {
    accessq := [];
    for k := 0 to |segments|
      invariant |accessq| == k
      invariant forall j | 0 <= j < k ::
                  Exact(accessq[j], accs, width, s, segments[j], Members(accs, |accs|, s, segments[j]))
    {
      var b := segments[k];
      ghost var which := Members(accs, |accs|, s, b);
      var a := Send(m[b], accs, width, s, b, which);
      accessq := accessq + [a];
    }
  }

  lemma SomeMember(accs: seq<Access>, s: nat, b: nat)
    requires IsSegment(s)
    ensures Members(accs, |accs|, s, b) != {} <==> exists i :: 0 <= i < |accs| && Tag(accs[i].addr, s) == b
  {
    if Members(accs, |accs|, s, b) != {} {
      var i :| i in Members(accs, |accs|, s, b);
      assert Tag(accs[i].addr, s) == b;
    }
    if i :| 0 <= i < |accs| && Tag(accs[i].addr, s) == b { assert i in Members(accs, |accs|, s, b); }
  }

  // ---------------------------------------------------------------------------------------------
  // How many accesses

  // The blocks of `unit` bytes that are touched.
  function Touched(accs: seq<Access>, unit: nat): set<nat>
    requires unit > 0
  {
    set i | 0 <= i < |accs| :: accs[i].addr / unit
  }

  // One item for each block of `unit` bytes that a sub-warp touches.
  ghost predicate OnePerBlock<T>(subs: seq<seq<Access>>, items: seq<seq<T>>, unit: nat)
    requires unit > 0
  {
    |items| <= |subs| && forall p | 0 <= p < |items| :: |items[p]| == |Touched(subs[p], unit)|
  }

  // Items for the blocks of the size that accesses of dataSize bytes are gathered by.
  ghost predicate OnePerSegment<T>(subs: seq<seq<Access>>, items: seq<seq<T>>, dataSize: nat) {
    && (dataSize == 1 ==> OnePerBlock(subs, items, 32)) && (dataSize == 2 ==> OnePerBlock(subs, items, 64))
    && (dataSize == 4 || dataSize == 8 || dataSize == 16 ==> OnePerBlock(subs, items, 128))
  }

  lemma {:induction false} DistinctLength(ks: seq<nat>, keys: set<nat>)
    requires Increasing(ks) && forall k :: k in ks <==> k in keys
    ensures |ks| == |keys|
  {
    if ks == [] {
      assert keys == {};
    } else {
      var n := |ks| - 1;
      var rest := keys - {ks[n]};
      forall k ensures k in ks[..n] <==> k in rest {
        if k in rest { assert k in ks; }
      }
      DistinctLength(ks[..n], rest);
      assert keys == rest + {ks[n]} && ks[n] in ks;
    }
  }

  function Elements(s: seq<nat>): set<nat> {
    set i | 0 <= i < |s| :: s[i]
  }

  // Equal at the same places.
  ghost predicate Matches(a: seq<nat>, b: seq<nat>) {
    |a| == |b| && forall i, j | 0 <= i < |a| && 0 <= j < |a| :: a[i] == a[j] <==> b[i] == b[j]
  }

  lemma ElementsMore(s: seq<nat>)
    requires s != []
    ensures Elements(s) == Elements(s[..|s| - 1]) + {s[|s| - 1]}
  {
    var init := s[..|s| - 1];
    forall i | 0 <= i < |s| ensures s[i] in Elements(init) + {s[|s| - 1]} {
      if i < |init| { assert s[i] == init[i]; }
    }
    forall i | 0 <= i < |init| ensures init[i] in Elements(s) { assert init[i] == s[i]; }
  }

  lemma SeenBefore(a: seq<nat>, b: seq<nat>, n: nat)
    requires Matches(a, b) && n < |a|
    ensures a[n] in Elements(a[..n]) ==> b[n] in Elements(b[..n])
  {
    if a[n] in Elements(a[..n]) {
      var i :| 0 <= i < n && a[..n][i] == a[n];
      assert b[..n][i] == b[n] && b[..n][i] in Elements(b[..n]);
    }
  }

  lemma {:induction false} MatchesCount(a: seq<nat>, b: seq<nat>)
    requires Matches(a, b)
    ensures |Elements(a)| == |Elements(b)|
  {
    if a == [] {
    } else {
      var n := |a| - 1;
      MatchesCount(a[..n], b[..n]);
      ElementsMore(a);
      ElementsMore(b);
      SeenBefore(a, b, n);
      SeenBefore(b, a, n);
      if a[n] in Elements(a[..n]) { assert Elements(a) == Elements(a[..n]) && Elements(b) == Elements(b[..n]); }
    }
  }

  lemma SameTag(a: nat, b: nat, s: nat)
    requires IsSegment(s)
    ensures Tag(a, s) == Tag(b, s) <==> a / s == b / s
  {
    TagIsMultiple(a, s);
    TagIsMultiple(b, s);
    Quotient(s, a / s, 0);
    Quotient(s, b / s, 0);
  }

  // The segments of a sub-warp are as many as the blocks it touches.
  lemma SegmentsCounted(segments: seq<nat>, accs: seq<Access>, s: nat)
    requires IsSegment(s) && Increasing(segments)
    requires forall b: nat :: b in segments <==> exists i :: 0 <= i < |accs| && Tag(accs[i].addr, s) == b
    ensures |segments| == |Touched(accs, s)|
  {
    var tags := seq(|accs|, i requires 0 <= i < |accs| => Tag(accs[i].addr, s));
    var blocks := seq(|accs|, i requires 0 <= i < |accs| => accs[i].addr / s);
    forall i, j | 0 <= i < |tags| && 0 <= j < |tags| ensures tags[i] == tags[j] <==> blocks[i] == blocks[j] {
      SameTag(accs[i].addr, accs[j].addr, s);
    }
    MatchesCount(tags, blocks);
    forall i | 0 <= i < |accs| ensures tags[i] == Tag(accs[i].addr, s) && blocks[i] == accs[i].addr / s {}
    DistinctLength(segments, Elements(tags));
    assert Elements(blocks) == Touched(accs, s);
  }

  /** One access for each block of 128 bytes that a sub-warp touches, or of 64 or 32 bytes for accesses of 2 bytes and
      of one. */
  lemma AccessesCounted(subs: seq<seq<Access>>, segments: seq<seq<nat>>, queues: seq<seq<MemAccess>>, width: nat,
                        dataSize: nat)
    requires AllSent(subs, segments, queues, width, SegmentSize(dataSize))
    ensures OnePerSegment(subs, queues, dataSize)
  {
    var s := SegmentSize(dataSize);
    forall p | 0 <= p < |queues| ensures |queues[p]| == |Touched(subs[p], s)| {
      SegmentsCounted(segments[p], subs[p], s);
    }
    assert OnePerBlock(subs, queues, s);
  }

  // ---------------------------------------------------------------------------------------------
  // The whole warp

  // The accesses of one lane; none if it is not active.
  function LaneAccesses(lane: nat, addrs: seq<nat>): seq<Access> {
    if addrs == [] then [] else [Access(lane, addrs[0])] + LaneAccesses(lane, addrs[1..])
  }

  // The accesses of the lanes from lo to below hi.
  function Accesses(warp: seq<seq<nat>>, lo: nat, hi: nat): seq<Access>
    requires lo <= hi <= |warp|
  {
    if lo == hi then [] else Accesses(warp, lo, hi - 1) + LaneAccesses(hi - 1, warp[hi - 1])
  }

  lemma {:induction false} OfOneLane(lane: nat, addrs: seq<nat>)
    ensures forall i | 0 <= i < |LaneAccesses(lane, addrs)| ::
              LaneAccesses(lane, addrs)[i].lane == lane && LaneAccesses(lane, addrs)[i].addr in addrs
    ensures forall a | a in addrs :: Access(lane, a) in LaneAccesses(lane, addrs)
  {
    if addrs == [] {
    } else {
      OfOneLane(lane, addrs[1..]);
    }
  }

  lemma {:induction false} OfLanes(warp: seq<seq<nat>>, lo: nat, hi: nat, r: seq<Access>)
    requires lo <= hi <= |warp| && r == Accesses(warp, lo, hi)
    ensures forall i | 0 <= i < |r| :: lo <= r[i].lane < hi && r[i].addr in warp[r[i].lane]
    ensures forall l, a | lo <= l < hi && a in warp[l] :: Access(l, a) in r
  {
    if lo == hi {
    } else {
      OfLanes(warp, lo, hi - 1, Accesses(warp, lo, hi - 1));
      OfOneLane(hi - 1, warp[hi - 1]);
    }
  }

  predicate WarpFits(warp: seq<seq<nat>>, width: nat) {
    forall l | 0 <= l < |warp| :: forall a | a in warp[l] :: Fits(a, width)
  }

  function Flat(queues: seq<seq<MemAccess>>): seq<MemAccess> {
    if queues == [] then [] else Flat(queues[..|queues| - 1]) + queues[|queues| - 1]
  }

  // The accesses of each sub-warp; lanes beyond the last whole one are in none.
  function SubWarps(warp: seq<seq<nat>>, parts: nat): (r: seq<seq<Access>>)
    requires parts > 0
    ensures |r| == parts
    ensures forall p, i | 0 <= p < parts && 0 <= i < |r[p]| ::
              r[p][i].lane < |warp| && r[p][i].addr in warp[r[p][i].lane]
  {
    seq(parts, p requires 0 <= p < parts => SubWarp(warp, parts, p))
  }

  function SubWarp(warp: seq<seq<nat>>, parts: nat, p: nat): (r: seq<Access>)
    requires p < parts
    ensures forall i | 0 <= i < |r| :: r[i].lane < |warp| && r[i].addr in warp[r[i].lane]
  {
    PartsFit(|warp|, parts);
    Below(p, parts, |warp| / parts);
    var r := Accesses(warp, p * (|warp| / parts), (p + 1) * (|warp| / parts));
    OfLanes(warp, p * (|warp| / parts), (p + 1) * (|warp| / parts), r);
    r
  }

  // The addresses of one lane, in order.
  function AddressesOf(accs: seq<Access>, lane: nat): seq<nat> {
    if accs == [] then []
    else (if accs[0].lane == lane then [accs[0].addr] else []) + AddressesOf(accs[1..], lane)
  }

  // Lane by lane from lo to below hi, each with all its addresses in order.
  ghost predicate LaneByLane(accs: seq<Access>, warp: seq<seq<nat>>, lo: nat, hi: nat)
    requires hi <= |warp|
  {
    && LanesAscend(accs)
    && (forall l: nat :: AddressesOf(accs, l) == if lo <= l < hi then warp[l] else [])
  }

  lemma {:induction false} AddressesAppend(a: seq<Access>, b: seq<Access>, ab: seq<Access>, lane: nat)
    requires ab == a + b
    ensures AddressesOf(ab, lane) == AddressesOf(a, lane) + AddressesOf(b, lane)
  {
    if a == [] {
      assert ab == b;
    } else {
      assert ab[0] == a[0] && ab[1..] == a[1..] + b;
      AddressesAppend(a[1..], b, ab[1..], lane);
    }
  }

  lemma {:induction false} AddressesOfLane(lane: nat, addrs: seq<nat>, l: nat)
    ensures AddressesOf(LaneAccesses(lane, addrs), l) == if l == lane then addrs else []
  {
    if addrs == [] {
    } else {
      AddressesOfLane(lane, addrs[1..], l);
      assert LaneAccesses(lane, addrs)[1..] == LaneAccesses(lane, addrs[1..]);
    }
  }

  lemma JoinedAddresses(a: seq<Access>, b: seq<Access>, ab: seq<Access>, lane: nat)
    requires ab == a + b
    ensures AddressesOf(a, lane) == [] ==> AddressesOf(ab, lane) == AddressesOf(b, lane)
    ensures AddressesOf(b, lane) == [] ==> AddressesOf(ab, lane) == AddressesOf(a, lane)
  {
    AddressesAppend(a, b, ab, lane);
  }

  lemma {:induction false} AddressesInside(warp: seq<seq<nat>>, lo: nat, hi: nat, r: seq<Access>, l: nat)
    requires lo <= hi <= |warp| && r == Accesses(warp, lo, hi)
    ensures AddressesOf(r, l) == if lo <= l < hi then warp[l] else []
  {
    if lo == hi {
    } else {
      var init, last := Accesses(warp, lo, hi - 1), LaneAccesses(hi - 1, warp[hi - 1]);
      AddressesInside(warp, lo, hi - 1, init, l);
      AddressesOfLane(hi - 1, warp[hi - 1], l);
      JoinedAddresses(init, last, r, l);
    }
  }

  predicate LanesAscend(accs: seq<Access>) {
    forall i, j | 0 <= i < j < |accs| :: accs[i].lane <= accs[j].lane
  }

  lemma AscendMore(a: seq<Access>, b: seq<Access>, lane: nat)
    requires LanesAscend(a) && (forall i | 0 <= i < |a| :: a[i].lane <= lane)
    requires forall i | 0 <= i < |b| :: b[i].lane == lane
    ensures LanesAscend(a + b)
  {
  }

  lemma {:induction false} AccessesAscend(warp: seq<seq<nat>>, lo: nat, hi: nat)
    requires lo <= hi <= |warp|
    ensures LanesAscend(Accesses(warp, lo, hi))
  {
    if lo == hi {
    } else {
      AccessesAscend(warp, lo, hi - 1);
      OfLanes(warp, lo, hi - 1, Accesses(warp, lo, hi - 1));
      OfOneLane(hi - 1, warp[hi - 1]);
      AscendMore(Accesses(warp, lo, hi - 1), LaneAccesses(hi - 1, warp[hi - 1]), hi - 1);
    }
  }

  /** Sub-warp p holds the accesses of its lanes, those from p times the size of a sub-warp on, lane by lane. */
  lemma SubWarpLanes(warp: seq<seq<nat>>, parts: nat, p: nat)
    requires p < parts
    ensures (p + 1) * (|warp| / parts) <= |warp|
    ensures LaneByLane(SubWarps(warp, parts)[p], warp, p * (|warp| / parts), (p + 1) * (|warp| / parts))
  {
    PartsFit(|warp|, parts);
    Below(p, parts, |warp| / parts);
    var lo, hi := p * (|warp| / parts), (p + 1) * (|warp| / parts);
    AccessesAscend(warp, lo, hi);
    forall l: nat ensures AddressesOf(Accesses(warp, lo, hi), l) == if lo <= l < hi then warp[l] else [] {
      AddressesInside(warp, lo, hi, Accesses(warp, lo, hi), l);
    }
  }

  /** In the queue the accesses of a sub-warp come right after those of the sub-warps before it. */
  lemma {:induction false} FlatAt(queues: seq<seq<MemAccess>>, p: nat, k: nat)
    requires p < |queues| && k < |queues[p]|
    ensures |Flat(queues[..p])| + k < |Flat(queues)| && Flat(queues)[|Flat(queues[..p])| + k] == queues[p][k]
    decreases |queues|
  {
    var n := |queues| - 1;
    if p == n {
    } else {
      FlatAt(queues[..n], p, k);
      assert queues[..n][..p] == queues[..p];
    }
  }

  // Each sub-warp has been coalesced.
  ghost predicate AllSent(subs: seq<seq<Access>>, segments: seq<seq<nat>>, queues: seq<seq<MemAccess>>, width: nat,
                          s: nat)
    requires IsSegment(s)
  {
    && |segments| == |queues| <= |subs|
    && forall p | 0 <= p < |queues| :: Coalesced(segments[p], queues[p], subs[p], width, s)
  }

  /** `memory_coalescing_arch_13`: the sub-warps one after the other. */
  method CoalesceWarp(warp: seq<seq<nat>>, parts: nat, width: nat, dataSize: nat)
    returns (segments: seq<seq<nat>>, queues: seq<seq<MemAccess>>, accessq: seq<MemAccess>)
    requires parts > 0 && WarpFits(warp, width)
    ensures |queues| == parts && AllSent(SubWarps(warp, parts), segments, queues, width, SegmentSize(dataSize))
    ensures accessq == Flat(queues) && OnePerSegment(SubWarps(warp, parts), queues, dataSize)
  {
    var s, subs := SegmentSize(dataSize), SubWarps(warp, parts);
    segments, queues, accessq := [], [], [];
    for p := 0 to parts
      invariant |queues| == p && AllSent(subs, segments, queues, width, s) && accessq == Flat(queues)
    {
      var segs, sent := Coalesce(subs[p], width, s);
      OneMoreSent(subs, segments, queues, width, s, segs, sent);
      segments, queues, accessq := segments + [segs], queues + [sent], accessq + sent;
    }
    AccessesCounted(subs, segments, queues, width, dataSize);
  }

  lemma OneMoreSent(subs: seq<seq<Access>>, segments: seq<seq<nat>>, queues: seq<seq<MemAccess>>, width: nat, s: nat,
                    segs: seq<nat>, sent: seq<MemAccess>)
    requires IsSegment(s) && AllSent(subs, segments, queues, width, s) && |queues| < |subs|
    requires Coalesced(segs, sent, subs[|queues|], width, s)
    ensures AllSent(subs, segments + [segs], queues + [sent], width, s) && Flat(queues + [sent]) == Flat(queues) + sent
  {
    var more := queues + [sent];
    assert more[..|queues|] == queues;
  }

  predicate ServesOne(a: MemAccess, lane: nat, addr: nat, width: nat) {
    lane in a.active && a.addr <= addr && addr + width <= a.addr + a.size
  }

  // A lane's access lies in a memory access of the queue that serves the lane.
  ghost predicate Serves(accessq: seq<MemAccess>, lane: nat, addr: nat, width: nat) {
    exists k :: 0 <= k < |accessq| && ServesOne(accessq[k], lane, addr, width)
  }

  lemma SubWarpServes(segments: seq<nat>, sent: seq<MemAccess>, accs: seq<Access>, width: nat, s: nat, i: nat)
    requires IsSegment(s) && Coalesced(segments, sent, accs, width, s) && i < |accs|
    ensures Serves(sent, accs[i].lane, accs[i].addr, width)
  {
    var b := Tag(accs[i].addr, s);
    assert b in segments;
    var k :| 0 <= k < |segments| && segments[k] == b;
    assert i in Members(accs, |accs|, s, b);
    assert Exact(sent[k], accs, width, s, b, Members(accs, |accs|, s, b));
    assert ServesOne(sent[k], accs[i].lane, accs[i].addr, width);
  }

  lemma {:induction false} FlatServes(queues: seq<seq<MemAccess>>, p: nat, lane: nat, addr: nat, width: nat)
    requires p < |queues| && Serves(queues[p], lane, addr, width)
    ensures Serves(Flat(queues), lane, addr, width)
    decreases |queues|
  {
    var n := |queues| - 1;
    var init, last := Flat(queues[..n]), queues[n];
    if p < n {
      FlatServes(queues[..n], p, lane, addr, width);
      var k :| 0 <= k < |init| && ServesOne(init[k], lane, addr, width);
      assert (init + last)[k] == init[k];
    } else {
      var k :| 0 <= k < |last| && ServesOne(last[k], lane, addr, width);
      assert (init + last)[|init| + k] == last[k];
    }
  }

  /** Every access of every lane of the sub-warps is served. */
  lemma AllServed(subs: seq<seq<Access>>, segments: seq<seq<nat>>, queues: seq<seq<MemAccess>>, width: nat, s: nat,
                  p: nat, i: nat)
    requires IsSegment(s) && AllSent(subs, segments, queues, width, s) && |queues| == |subs|
    requires p < |subs| && i < |subs[p]|
    ensures Serves(Flat(queues), subs[p][i].lane, subs[p][i].addr, width)
  {
    SubWarpServes(segments[p], queues[p], subs[p], width, s, i);
    FlatServes(queues, p, subs[p][i].lane, subs[p][i].addr, width);
  }

  lemma PartOf(lane: nat, size: nat, parts: nat) returns (p: nat)
    requires lane < parts * size
    ensures p < parts && p * size <= lane < (p + 1) * size
  {
    p := lane / size;
    assert lane == size * p + lane % size;
    if p >= parts { Below(parts - 1, p, size); }
  }

  // Every lane below the last whole sub-warp is in one of them.
  lemma EveryLane(warp: seq<seq<nat>>, parts: nat, lane: nat, addr: nat) returns (p: nat, i: nat)
    requires parts > 0 && lane < parts * (|warp| / parts) && lane < |warp| && addr in warp[lane]
    ensures p < parts && i < |SubWarps(warp, parts)[p]| && SubWarps(warp, parts)[p][i] == Access(lane, addr)
  {
    p := PartOf(lane, |warp| / parts, parts);
    PartsFit(|warp|, parts);
    Below(p, parts, |warp| / parts);
    var lo, hi := p * (|warp| / parts), (p + 1) * (|warp| / parts);
    OfLanes(warp, lo, hi, Accesses(warp, lo, hi));
    var accs := SubWarps(warp, parts)[p];
    assert Access(lane, addr) in accs;
    i :| 0 <= i < |accs| && accs[i] == Access(lane, addr);
  }
}
