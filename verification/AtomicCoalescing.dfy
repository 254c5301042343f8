/**
  The memory accesses of an atomic: `memory_coalescing_arch_13_atomic` in gpgpu-sim/abstract_hardware_model.cc. Lanes
  are put first-fit into transactions whose bytes they do not touch yet.

  Addresses are naturally aligned. The source keeps segment addresses in 32 bits and compares them with 64-bit ones in
  an assertion, which therefore fails for higher addresses.
 */
module AtomicCoalescing {
  import Arithmetic
  import opened Coalescing

  const WORD: nat := 0x1_0000_0000

  predicate LowAt(accs: seq<Access>, i: int) {
    0 <= i < |accs| && accs[i].addr < WORD
  }

  // The first n addresses fit 32 bits.
  predicate AllLow(accs: seq<Access>, n: nat) {
    forall i | 0 <= i < n :: LowAt(accs, i)
  }

  predicate AllAligned(accs: seq<Access>, width: nat) {
    forall i | 0 <= i < |accs| :: NaturallyAligned(accs[i].addr, width)
  }

  // How many of the first n lanes access the word at x.
  function Count(accs: seq<Access>, n: nat, x: nat): nat
    requires n <= |accs|
  {
    if n == 0 then 0 else Count(accs, n - 1, x) + if accs[n - 1].addr == x then 1 else 0
  }

  // The transaction lane i ends up in: as many as there were lanes before it with the same word.
  function Place(accs: seq<Access>, i: nat): nat
    requires i < |accs|
  {
    Count(accs, i, accs[i].addr)
  }

  // Lanes with the same word are in different transactions.
  lemma SameWordApart(accs: seq<Access>, i: nat, n: nat)
    requires i < n <= |accs|
    ensures Place(accs, i) < Count(accs, n, accs[i].addr)
  {
  }

  // Some lane with the word at x is in each of the transactions below their number.
  lemma {:induction false} Earlier(accs: seq<Access>, n: nat, x: nat, t: nat) returns (i: nat)
    requires n <= |accs| && t < Count(accs, n, x)
    ensures i < n && accs[i].addr == x && Place(accs, i) == t
  {
    i := n - 1;
    if accs[i].addr != x || Place(accs, i) != t { i := Earlier(accs, n - 1, x, t); }
  }

  // Aligned words that share a byte are the same.
  lemma SharedByte(x: nat, y: nat, width: nat, k: nat)
    requires NaturallyAligned(x, width) && NaturallyAligned(y, width) && Tag(x, 128) == Tag(y, 128)
    requires k in Span(x % 128, width) && k in Span(y % 128, width)
    ensures x == y
  {
    assert x - y == x % 128 - y % 128;
    if x <= y { CloseMultiples(x, y, width); } else { CloseMultiples(y, x, width); }
  }

  lemma CloseMultiples(x: nat, y: nat, width: nat)
    requires NaturallyAligned(x, width) && NaturallyAligned(y, width) && x <= y < x + width
    ensures x == y
  {
    if width == 2 {
      Arithmetic.SameMultiple(2, x / 2, y / 2);
    } else if width == 4 {
      Arithmetic.SameMultiple(4, x / 4, y / 4);
    } else if width == 8 {
      Arithmetic.SameMultiple(8, x / 8, y / 8);
    } else if width == 16 {
      Arithmetic.SameMultiple(16, x / 16, y / 16);
    }
  }

  // ---------------------------------------------------------------------------------------------
  // First fit

  // The lanes among the first n that belong in transaction j of the segment at b.
  function Slot(accs: seq<Access>, n: nat, s: nat, b: nat, j: nat): set<nat>
    requires n <= |accs| && IsSegment(s)
  {
    set i: nat | 0 <= i < n && Tag(accs[i].addr, s) == b && Place(accs, i) == j
  }

  /** The lanes of a transaction touch disjoint bytes. */
  lemma SlotIsConflictFree(accs: seq<Access>, width: nat, s: nat, b: nat, j: nat, i: nat, k: nat)
    requires IsSegment(s) && AllAligned(accs, width)
    requires i in Slot(accs, |accs|, s, b, j) && k in Slot(accs, |accs|, s, b, j) && i < k
    ensures Span(accs[i].addr % 128, width) !! Span(accs[k].addr % 128, width)
  {
    SameWordApart(accs, i, k);
    SegmentBlock(accs[i].addr, accs[k].addr, s);
    forall y | y in Span(accs[i].addr % 128, width) ensures y !in Span(accs[k].addr % 128, width) {
      if y in Span(accs[k].addr % 128, width) { SharedByte(accs[i].addr, accs[k].addr, width, y); }
    }
  }

  lemma SegmentBlock(x: nat, y: nat, s: nat)
    requires IsSegment(s) && Tag(x, s) == Tag(y, s)
    ensures Tag(x, 128) == Tag(y, 128)
  {
    SameBlock(x, s);
    SameBlock(y, s);
  }

  ghost predicate SlotOk(info: Info, accs: seq<Access>, width: nat, s: nat, n: nat, b: nat, j: nat)
    requires n <= |accs| && IsSegment(s)
  {
    Slot(accs, n, s, b, j) != {} && Describes(info, accs, width, Slot(accs, n, s, b, j))
  }

  ghost predicate ListOk(list: seq<Info>, accs: seq<Access>, width: nat, s: nat, n: nat, b: nat)
    requires n <= |accs| && IsSegment(s)
  {
    && (forall j | 0 <= j < |list| :: SlotOk(list[j], accs, width, s, n, b, j))
    && (forall i | 0 <= i < n && Tag(accs[i].addr, s) == b :: Place(accs, i) < |list|)
  }

  // `test_bytes`, for the bytes of an access.
  predicate Conflicts(info: Info, addr: nat, width: nat) {
    exists k :: k in info.bytes && k in Span(addr % 128, width)
  }

  // j is the first transaction that the bytes at addr do not conflict with.
  ghost predicate IsFirstFit(list: seq<Info>, addr: nat, width: nat, j: nat) {
    && j <= |list|
    && (forall t | 0 <= t < j :: Conflicts(list[t], addr, width))
    && (j < |list| ==> !Conflicts(list[j], addr, width))
  }

  // Below its place a lane conflicts.
  lemma ConflictsBelow(list: seq<Info>, accs: seq<Access>, width: nat, s: nat, n: nat, b: nat, t: nat)
    requires n < |accs| && IsSegment(s) && AllAligned(accs, width) && b == Tag(accs[n].addr, s)
    requires ListOk(list, accs, width, s, n, b) && t < Place(accs, n)
    ensures t < |list| && Conflicts(list[t], accs[n].addr, width)
  {
    var x := accs[n].addr;
    var i := Earlier(accs, n, x, t);
    assert SlotOk(list[t], accs, width, s, n, b, t) && i in Slot(accs, n, s, b, t);
    assert x % 128 in list[t].bytes;
  }

  // At its place it does not.
  lemma NoConflictAt(list: seq<Info>, accs: seq<Access>, width: nat, s: nat, n: nat, b: nat, c: nat)
    requires n < |accs| && IsSegment(s) && AllAligned(accs, width) && b == Tag(accs[n].addr, s)
    requires ListOk(list, accs, width, s, n, b) && c == Place(accs, n) < |list|
    ensures !Conflicts(list[c], accs[n].addr, width)
  {
    var x := accs[n].addr;
    if Conflicts(list[c], x, width) {
      assert SlotOk(list[c], accs, width, s, n, b, c);
      var k :| k in list[c].bytes && k in Span(x % 128, width);
      var i :| i in Slot(accs, n, s, b, c) && k in Span(accs[i].addr % 128, width);
      SegmentBlock(accs[i].addr, x, s);
      SharedByte(accs[i].addr, x, width, k);
      SameWordApart(accs, i, n);
    }
  }

  /** A lane fits first exactly where it belongs. */
  lemma FirstFitIsPlace(list: seq<Info>, accs: seq<Access>, width: nat, s: nat, n: nat, b: nat, j: nat)
    requires n < |accs| && IsSegment(s) && AllAligned(accs, width) && b == Tag(accs[n].addr, s)
    requires ListOk(list, accs, width, s, n, b) && IsFirstFit(list, accs[n].addr, width, j)
    ensures j == Place(accs, n)
  {
    var c := Place(accs, n);
    if j < c { ConflictsBelow(list, accs, width, s, n, b, j); }
    if c < j { NoConflictAt(list, accs, width, s, n, b, c); }
  }

  lemma SlotMore(accs: seq<Access>, n: nat, s: nat, b: nat, j: nat)
    requires n < |accs| && IsSegment(s)
    ensures Slot(accs, n + 1, s, b, j) ==
            if Tag(accs[n].addr, s) == b && Place(accs, n) == j
            then Slot(accs, n, s, b, j) + {n}
            else Slot(accs, n, s, b, j)
  {
  }

  // The list with a lane put where it belongs.
  function Put(list: seq<Info>, c: nat, acc: Access, width: nat): seq<Info>
    requires c <= |list|
  {
    if c < |list| then list[c := Joined(list[c], acc, width)] else list + [Joined(EMPTY, acc, width)]
  }

  lemma PutKeepsSlot(list: seq<Info>, accs: seq<Access>, width: nat, s: nat, n: nat, b: nat, c: nat, j: nat)
    requires n < |accs| && IsSegment(s) && b == Tag(accs[n].addr, s) && c == Place(accs, n) <= |list|
    requires ListOk(list, accs, width, s, n, b) && j < |Put(list, c, accs[n], width)|
    ensures SlotOk(Put(list, c, accs[n], width)[j], accs, width, s, n + 1, b, j)
  {
    SlotMore(accs, n, s, b, j);
    if j == c {
      assert n in Slot(accs, n + 1, s, b, c);
      if c == |list| { NoneYet(list, accs, width, s, n, b); }
      JoinedDescribes(if c < |list| then list[c] else EMPTY, accs, width, Slot(accs, n, s, b, c), n,
                      Slot(accs, n + 1, s, b, c));
    }
  }

  lemma PutKeepsList(list: seq<Info>, accs: seq<Access>, width: nat, s: nat, n: nat, b: nat, c: nat)
    requires n < |accs| && IsSegment(s) && b == Tag(accs[n].addr, s) && c == Place(accs, n) <= |list|
    requires ListOk(list, accs, width, s, n, b)
    ensures ListOk(Put(list, c, accs[n], width), accs, width, s, n + 1, b)
  {
    var after := Put(list, c, accs[n], width);
    forall j | 0 <= j < |after| ensures SlotOk(after[j], accs, width, s, n + 1, b, j) {
      PutKeepsSlot(list, accs, width, s, n, b, c, j);
    }
  }

  lemma NoneYet(list: seq<Info>, accs: seq<Access>, width: nat, s: nat, n: nat, b: nat)
    requires n <= |accs| && IsSegment(s) && ListOk(list, accs, width, s, n, b)
    ensures Slot(accs, n, s, b, |list|) == {}
  {
  }

  lemma OthersKeepList(list: seq<Info>, accs: seq<Access>, width: nat, s: nat, n: nat, b: nat)
    requires n < |accs| && IsSegment(s) && b != Tag(accs[n].addr, s) && ListOk(list, accs, width, s, n, b)
    ensures ListOk(list, accs, width, s, n + 1, b)
  {
    forall j | 0 <= j < |list| ensures SlotOk(list[j], accs, width, s, n + 1, b, j) { SlotMore(accs, n, s, b, j); }
  }

  // The first transaction that the bytes at addr do not conflict with.
  method FirstFit(list: seq<Info>, addr: nat, width: nat) returns (j: nat)
    ensures IsFirstFit(list, addr, width, j)
  {
    j := 0;
    while j < |list|
      invariant j <= |list| && forall t | 0 <= t < j :: Conflicts(list[t], addr, width)
    {
      var test := TestBytes(list[j], addr % 128, width);
      if !test { return; }
      j := j + 1;
    }
  }

  method TestBytes(info: Info, start: nat, width: nat) returns (found: bool)
    ensures found <==> exists k :: k in info.bytes && k in Span(start, width)
  {
    for i := start to start + width
      invariant forall k | start <= k < i :: k !in info.bytes
    {
      if i in info.bytes {
        assert i in Span(start, width);
        return true;
      }
    }
    return false;
  }

  // ---------------------------------------------------------------------------------------------
  // Coalescing

  function ListAt(m: map<nat, seq<Info>>, b: nat): seq<Info> {
    if b in m then m[b] else []
  }

  ghost predicate Placed(m: map<nat, seq<Info>>, accs: seq<Access>, width: nat, s: nat, n: nat)
    requires n <= |accs| && IsSegment(s)
  {
    && (forall b: nat :: ListOk(ListAt(m, b), accs, width, s, n, b))
    && (forall b | b in m :: m[b] != [])
  }

  lemma PlacedMore(m: map<nat, seq<Info>>, t: map<nat, seq<Info>>, list: seq<Info>, accs: seq<Access>, width: nat,
                   s: nat, n: nat, k: nat, c: nat)
    requires n < |accs| && IsSegment(s) && Placed(m, accs, width, s, n)
    requires k == Tag(accs[n].addr, s) && list == ListAt(m, k) && c == Place(accs, n) <= |list|
    requires t == m[k := Put(list, c, accs[n], width)]
    ensures Placed(t, accs, width, s, n + 1)
  {
    forall b: nat ensures ListOk(ListAt(t, b), accs, width, s, n + 1, b) {
      assert ListOk(ListAt(m, b), accs, width, s, n, b);
      if b == k {
        PutKeepsList(list, accs, width, s, n, k, c);
      } else {
        OthersKeepList(ListAt(m, b), accs, width, s, n, b);
      }
    }
  }

  // An access lies in one segment. The assertion that says so compares a segment address cut to 32 bits.
  lemma OneSegment(addr: nat, width: nat, s: nat)
    requires IsSegment(s) && NaturallyAligned(addr, width)
    ensures Tag(addr + width - 1, s) == Tag(addr, s)
    ensures Tag(addr, s) % WORD == Tag(addr + width - 1, s) <==> addr < WORD
  {
    NaturalFits(addr, width);
    InSegment(addr, width, s);
    TagBelow(addr, s);
    CutToWord(Tag(addr, s));
  }

  lemma TagBelow(addr: nat, s: nat)
    requires IsSegment(s)
    ensures Tag(addr, s) < WORD <==> addr < WORD
  {
    TagIsMultiple(addr, s);
    assert addr == addr / s * s + addr % s;
    if s == 32 {
      assert WORD == 0x800_0000 * 32;
    } else if s == 64 {
      assert WORD == 0x400_0000 * 64;
    } else {
      assert WORD == 0x200_0000 * 128;
    }
  }

  lemma CutToWord(x: nat)
    ensures x % WORD == x <==> x < WORD
  {
  }

  // The assertion, lane by lane.
  method AllInOneSegment(accs: seq<Access>, width: nat, s: nat) returns (ok: bool)
    requires IsSegment(s) && AllAligned(accs, width)
    ensures ok == AllLow(accs, |accs|)
  {
    for n := 0 to |accs|
      invariant AllLow(accs, n)
    {
      var addr := accs[n].addr;
      OneSegment(addr, width, s);
      if Tag(addr, s) % WORD != Tag(addr + width - 1, s) {
        assert !LowAt(accs, n);
        return false;
      }
    }
    return true;
  }

  method PlaceLane(m: map<nat, seq<Info>>, accs: seq<Access>, width: nat, s: nat, n: nat)
    returns (t: map<nat, seq<Info>>)
    requires IsSegment(s) && AllAligned(accs, width) && n < |accs| && Placed(m, accs, width, s, n)
    ensures Placed(t, accs, width, s, n + 1)
  {
    var addr := accs[n].addr;
    var k := Tag(addr, s);
    var list := ListAt(m, k);
    var j := FirstFit(list, addr, width);
    assert ListOk(list, accs, width, s, n, k);
    FirstFitIsPlace(list, accs, width, s, n, k, j);
    t := m[k := Put(list, j, accs[n], width)];
    PlacedMore(m, t, list, accs, width, s, n, k, j);
  }

  method PlaceLanes(accs: seq<Access>, width: nat, s: nat) returns (m: map<nat, seq<Info>>)
    requires IsSegment(s) && AllAligned(accs, width)
    ensures Placed(m, accs, width, s, |accs|)
  {
    m := map[];
    for n := 0 to |accs|
      invariant Placed(m, accs, width, s, n)
    {
      m := PlaceLane(m, accs, width, s, n);
    }
  }

  // Step 1: the transactions of the sub-warp, if the assertion holds. What has been placed when it fails is lost.
  method Gather(accs: seq<Access>, width: nat, s: nat) returns (ok: bool, m: map<nat, seq<Info>>)
    requires IsSegment(s) && AllAligned(accs, width)
    ensures ok == AllLow(accs, |accs|)
    ensures ok ==> Placed(m, accs, width, s, |accs|)
  {
    m := map[];
    ok := AllInOneSegment(accs, width, s);
    if ok { m := PlaceLanes(accs, width, s); }
  }

  /** The number of transactions of a segment is the largest number of lanes with one word there. */
  ghost predicate IsMost(accs: seq<Access>, s: nat, b: nat, most: nat)
    requires IsSegment(s)
  {
    && (forall x | Tag(x, s) == b :: Count(accs, |accs|, x) <= most)
    && exists i :: 0 <= i < |accs| && Tag(accs[i].addr, s) == b && Count(accs, |accs|, accs[i].addr) == most
  }

  lemma ListIsMinimal(list: seq<Info>, accs: seq<Access>, width: nat, s: nat, b: nat)
    requires IsSegment(s) && ListOk(list, accs, width, s, |accs|, b) && list != []
    ensures IsMost(accs, s, b, |list|)
  {
    forall x | Tag(x, s) == b ensures Count(accs, |accs|, x) <= |list| {
      var c := Count(accs, |accs|, x);
      if c > 0 { var i := Earlier(accs, |accs|, x, c - 1); }
    }
    assert SlotOk(list[|list| - 1], accs, width, s, |accs|, b, |list| - 1);
    var i :| i in Slot(accs, |accs|, s, b, |list| - 1);
    SameWordApart(accs, i, |accs|);
  }

  /** Every lane is in one transaction, the one its place says; the transactions are as few as the lanes that share a
      word allow. */
  ghost predicate AtomicsCoalesced(segments: seq<nat>, groups: seq<seq<MemAccess>>, accs: seq<Access>, width: nat,
                                   s: nat)
    requires IsSegment(s)
  {
    && Increasing(segments) && |groups| == |segments|
    && (forall i | 0 <= i < |accs| :: Tag(accs[i].addr, s) in segments)
    && AllListsSent(groups, segments, accs, width, s)
  }

  /** `memory_coalescing_arch_13_atomic` on one sub-warp: the accesses of the queue, segment by segment, or a failed
      assertion exactly if some lane's address does not fit 32 bits. */
  method Coalesce(accs: seq<Access>, width: nat, s: nat)
    returns (ok: bool, segments: seq<nat>, groups: seq<seq<MemAccess>>)
    requires IsSegment(s) && AllAligned(accs, width)
    ensures ok == AllLow(accs, |accs|)
    ensures ok ==> AtomicsCoalesced(segments, groups, accs, width, s)
  {
    segments, groups := [], [];
    var m;
    ok, m := Gather(accs, width, s);
    if ok {
      segments := InOrder(m.Keys);
      forall k | 0 <= k < |segments| ensures Ready(m, accs, width, s, segments[k]) {
        assert segments[k] in segments && ListOk(ListAt(m, segments[k]), accs, width, s, |accs|, segments[k]);
      }
      groups := SendLists(m, segments, accs, width, s);
      forall i | 0 <= i < |accs| ensures Tag(accs[i].addr, s) in segments {
        assert ListOk(ListAt(m, Tag(accs[i].addr, s)), accs, width, s, |accs|, Tag(accs[i].addr, s));
      }
    }
  }

  // The list of the segment at b is ready to be sent.
  ghost predicate Ready(m: map<nat, seq<Info>>, accs: seq<Access>, width: nat, s: nat, b: nat)
    requires IsSegment(s)
  {
    b in m && m[b] != [] && ListOk(m[b], accs, width, s, |accs|, b)
  }

  method SendLists(m: map<nat, seq<Info>>, segments: seq<nat>, ghost accs: seq<Access>, ghost width: nat, s: nat)
    returns (groups: seq<seq<MemAccess>>)
    requires IsSegment(s) && AllAligned(accs, width)
    requires forall k | 0 <= k < |segments| :: Ready(m, accs, width, s, segments[k])
    ensures AllListsSent(groups, segments, accs, width, s) && |groups| == |segments|
  {
    groups := [];
    for k := 0 to |segments|
      invariant |groups| == k && AllListsSent(groups, segments, accs, width, s)
    {
      assert Ready(m, accs, width, s, segments[k]);
      var group := SendList(m[segments[k]], accs, width, s, segments[k]);
      OneMoreList(groups, segments, accs, width, s, group);
      groups := groups + [group];
    }
  }

  ghost predicate AllListsSent(groups: seq<seq<MemAccess>>, segments: seq<nat>, accs: seq<Access>, width: nat, s: nat)
    requires IsSegment(s)
  {
    |groups| <= |segments| && forall k | 0 <= k < |groups| :: Sent(groups[k], accs, width, s, segments[k])
  }

  lemma OneMoreList(groups: seq<seq<MemAccess>>, segments: seq<nat>, accs: seq<Access>, width: nat, s: nat,
                    group: seq<MemAccess>)
    requires IsSegment(s) && AllListsSent(groups, segments, accs, width, s) && |groups| < |segments|
    requires Sent(group, accs, width, s, segments[|groups|])
    ensures AllListsSent(groups + [group], segments, accs, width, s)
  {
  }

  // Each sub-warp has been coalesced.
  ghost predicate AllCoalesced(subs: seq<seq<Access>>, segments: seq<seq<nat>>, groups: seq<seq<seq<MemAccess>>>,
                               width: nat, s: nat)
    requires IsSegment(s)
  {
    && |segments| == |groups| <= |subs|
    && forall p | 0 <= p < |groups| :: AtomicsCoalesced(segments[p], groups[p], subs[p], width, s)
  }

  ghost predicate AllFit32(subs: seq<seq<Access>>, n: nat)
    requires n <= |subs|
  {
    forall p | 0 <= p < n :: AllLow(subs[p], |subs[p]|)
  }

  /** `memory_coalescing_arch_13_atomic`: both sub-warps, or a failed assertion exactly if some address does not fit. */
  method CoalesceWarp(warp: seq<seq<nat>>, width: nat)
    returns (ok: bool, segments: seq<seq<nat>>, groups: seq<seq<seq<MemAccess>>>)
    requires forall l | 0 <= l < |warp| :: forall a | a in warp[l] :: NaturallyAligned(a, width)
    ensures ok <==> AllFit32(SubWarps(warp, 2), 2)
    ensures ok ==> |groups| == 2 && AllCoalesced(SubWarps(warp, 2), segments, groups, width, SegmentSize(width))
    ensures ok ==> OnePerSegment(SubWarps(warp, 2), groups, width)
  {
    var subs := SubWarps(warp, 2);
    ok, segments, groups := CoalesceParts(subs, width, SegmentSize(width));
    if ok { GroupsCounted(subs, segments, groups, width, SegmentSize(width)); }
  }

  // The groups of transactions are as many as the blocks touched.
  lemma GroupsCounted(subs: seq<seq<Access>>, segments: seq<seq<nat>>, groups: seq<seq<seq<MemAccess>>>, width: nat,
                      s: nat)
    requires IsSegment(s) && s == SegmentSize(width) && AllCoalesced(subs, segments, groups, width, s)
    ensures OnePerSegment(subs, groups, width)
  {
    forall p | 0 <= p < |groups| ensures |groups[p]| == |Touched(subs[p], s)| {
      OnlySegments(segments[p], groups[p], subs[p], width, s);
      SegmentsCounted(segments[p], subs[p], s);
    }
    assert OnePerBlock(subs, groups, s);
  }

  // Only segments of accesses have transactions.
  lemma OnlySegments(segments: seq<nat>, groups: seq<seq<MemAccess>>, accs: seq<Access>, width: nat, s: nat)
    requires IsSegment(s) && AtomicsCoalesced(segments, groups, accs, width, s)
    ensures forall b: nat :: b in segments <==> exists i :: 0 <= i < |accs| && Tag(accs[i].addr, s) == b
  {
    forall b: nat | b in segments ensures exists i :: 0 <= i < |accs| && Tag(accs[i].addr, s) == b {
      var k :| 0 <= k < |segments| && segments[k] == b;
      assert Sent(groups[k], accs, width, s, segments[k]);
    }
  }

  method CoalesceParts(subs: seq<seq<Access>>, width: nat, s: nat)
    returns (ok: bool, segments: seq<seq<nat>>, groups: seq<seq<seq<MemAccess>>>)
    requires IsSegment(s) && forall p | 0 <= p < |subs| :: AllAligned(subs[p], width)
    ensures ok <==> AllFit32(subs, |subs|)
    ensures ok ==> |groups| == |subs| && AllCoalesced(subs, segments, groups, width, s)
  {
    ok, segments, groups := true, [], [];
    for p := 0 to |subs|
      invariant ok && AllFit32(subs, p)
      invariant |groups| == p && AllCoalesced(subs, segments, groups, width, s)
    {
      var segs, gs;
      ok, segs, gs := Coalesce(subs[p], width, s);
      FitsMore(subs, p);
      if !ok { return; }
      OneMoreSubWarp(subs, segments, groups, width, s, segs, gs);
      segments, groups := segments + [segs], groups + [gs];
    }
  }

  lemma FitsMore(subs: seq<seq<Access>>, p: nat)
    requires p < |subs| && AllFit32(subs, p)
    ensures AllFit32(subs, p + 1) == AllLow(subs[p], |subs[p]|)
    ensures !AllLow(subs[p], |subs[p]|) ==> !AllFit32(subs, |subs|)
  {
  }

  lemma OneMoreSubWarp(subs: seq<seq<Access>>, segments: seq<seq<nat>>, groups: seq<seq<seq<MemAccess>>>, width: nat,
                       s: nat, segs: seq<nat>, gs: seq<seq<MemAccess>>)
    requires IsSegment(s) && AllCoalesced(subs, segments, groups, width, s) && |groups| < |subs|
    requires AtomicsCoalesced(segs, gs, subs[|groups|], width, s)
    ensures AllCoalesced(subs, segments + [segs], groups + [gs], width, s)
  {
  }

  ghost predicate Sent(group: seq<MemAccess>, accs: seq<Access>, width: nat, s: nat, b: nat)
    requires IsSegment(s)
  {
    && IsMost(accs, s, b, |group|)
    && forall j | 0 <= j < |group| :: Exact(group[j], accs, width, s, b, Slot(accs, |accs|, s, b, j))
  }

  method SendList(list: seq<Info>, ghost accs: seq<Access>, ghost width: nat, s: nat, b: nat)
    returns (group: seq<MemAccess>)
    requires IsSegment(s) && AllAligned(accs, width) && ListOk(list, accs, width, s, |accs|, b) && list != []
    ensures Sent(group, accs, width, s, b)
  {
    group := [];
    for j := 0 to |list|
      invariant |group| == j
      invariant forall i | 0 <= i < j :: Exact(group[i], accs, width, s, b, Slot(accs, |accs|, s, b, i))
    {
      ghost var which := Slot(accs, |accs|, s, b, j);
      assert SlotOk(list[j], accs, width, s, |accs|, b, j);
      forall i | i in which ensures Fits(accs[i].addr, width) { NaturalFits(accs[i].addr, width); }
      var a := Send(list[j], accs, width, s, b, which);
      group := group + [a];
    }
    ListIsMinimal(list, accs, width, s, b);
  }
}
