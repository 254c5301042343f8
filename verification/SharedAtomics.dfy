/**
  Atomics on shared memory: `warp_inst_t::do_atomic` in gpgpu-sim/abstract_hardware_model.cc calls `atom_callback` of
  gpgpu-sim/cuda-sim/instructions.cc lane by lane. Words are 32 bits wide and stored with the low byte first.

  The operation is a parameter: a function of the word in memory and the lane's operands. That covers every case of
  `atom_callback` on 32-bit types.
 */
module SharedAtomics {
  import opened Arithmetic
  import opened Options
  import opened PagedMemory

  const WORD: nat := 0x1_0000_0000

  type Word = x: nat | x < WORD

  // What a lane wants done: the address and the operands.
  datatype Access<T> = Access(addr: nat, operand: T)

  // ---------------------------------------------------------------------------------------------
  // Words of the memory

  function Encode(w: Word): (b: seq<byte>)
    ensures |b| == 4
  {
    [(w % 256) as byte, (w / 256 % 256) as byte, (w / 65536 % 256) as byte, (w / 16777216) as byte]
  }

  function Decode(b: seq<byte>): Word
    requires |b| == 4
  {
    b[0] as int + 256 * b[1] as int + 65536 * b[2] as int + 16777216 * b[3] as int
  }

  lemma DecodeEncode(w: Word)
    ensures Decode(Encode(w)) == w
  {
    var q := w / 256;
    var r := q / 256;
    assert w / 65536 == r && w / 16777216 == r / 256;
  }

  function WordAt(writes: seq<Write>, a: nat): Word
    requires a + 4 <= TOP
  {
    Decode([Flat(writes, a), Flat(writes, a + 1), Flat(writes, a + 2), Flat(writes, a + 3)])
  }

  /** The low byte comes first. */
  lemma LowByteFirst(w: Word, k: nat)
    requires k < 4
    ensures Encode(w)[k] as nat == w / Pow2(8 * k) % 256
  {
    assert Pow2(0) == 1 && Pow2(8) == 256;
    Pow2Sum(8, 8);
    Pow2Sum(16, 8);
  }

  // Storing a word changes that word and no other.
  lemma StoredWord(writes: seq<Write>, addr: nat, w: Word, a: nat)
    requires addr % 4 == 0 && a % 4 == 0 && addr + 4 <= TOP && a + 4 <= TOP
    ensures WordAt(writes + [Put(addr, Encode(w))], a) == if a == addr then w else WordAt(writes, a)
  {
    var p := Put(addr, Encode(w));
    assert (writes + [p])[..|writes|] == writes;
    if a == addr {
      var after := writes + [p];
      assert [Flat(after, a), Flat(after, a + 1), Flat(after, a + 2), Flat(after, a + 3)] == Encode(w);
      DecodeEncode(w);
    }
  }

  // ---------------------------------------------------------------------------------------------
  // Lane order

  // The word at a after the first n lanes, in order, each did its operation on it.
  function Folded<T>(f: (Word, T) -> Word, init: Word, lanes: seq<Option<Access<T>>>, n: nat, a: nat): Word
    requires n <= |lanes|
  {
    if n == 0 then init
    else
      var v := Folded(f, init, lanes, n - 1, a);
      if lanes[n - 1].Some? && lanes[n - 1].value.addr == a then f(v, lanes[n - 1].value.operand) else v
  }

  // Addresses are word-aligned and 32 bits wide.
  predicate Aligned<T>(lanes: seq<Option<Access<T>>>) {
    forall i | 0 <= i < |lanes| && lanes[i].Some? :: lanes[i].value.addr % 4 == 0 && lanes[i].value.addr < WORD
  }

  ghost predicate FoldedTo<T>(f: (Word, T) -> Word, before: seq<Write>, after: seq<Write>,
                              lanes: seq<Option<Access<T>>>, n: nat)
    requires n <= |lanes|
  {
    forall a: nat | a % 4 == 0 && a + 4 <= TOP ::
      WordAt(after, a) == Folded(f, WordAt(before, a), lanes, n, a)
  }

  lemma OneMoreFolded<T>(f: (Word, T) -> Word, before: seq<Write>, writes: seq<Write>, after: seq<Write>,
                         lanes: seq<Option<Access<T>>>, n: nat)
    requires n < |lanes| && Aligned(lanes) && FoldedTo(f, before, writes, lanes, n)
    requires match lanes[n]
             case None => after == writes
             case Some(x) => after == writes + [Put(x.addr, Encode(f(WordAt(writes, x.addr), x.operand)))]
    ensures FoldedTo(f, before, after, lanes, n + 1)
  {
    forall a: nat | a % 4 == 0 && a + 4 <= TOP
      ensures WordAt(after, a) == Folded(f, WordAt(before, a), lanes, n + 1, a) {
      if lanes[n].Some? {
        var x := lanes[n].value;
        StoredWord(writes, x.addr, f(WordAt(writes, x.addr), x.operand), a);
      }
    }
  }

  // Lanes i and j access the same word.
  predicate SameWord<T>(lanes: seq<Option<Access<T>>>, i: int, j: int) {
    && 0 <= i < |lanes| && 0 <= j < |lanes| && lanes[i].Some? && lanes[j].Some?
    && lanes[i].value.addr == lanes[j].value.addr
  }

  // Lane i is the first to access its word, the last, or the last before lane j.
  ghost predicate First<T>(lanes: seq<Option<Access<T>>>, i: nat) {
    SameWord(lanes, i, i) && forall j | 0 <= j < i :: !SameWord(lanes, j, i)
  }

  ghost predicate Last<T>(lanes: seq<Option<Access<T>>>, i: nat) {
    SameWord(lanes, i, i) && forall j | i < j < |lanes| :: !SameWord(lanes, j, i)
  }

  ghost predicate Follows<T>(lanes: seq<Option<Access<T>>>, i: nat, j: nat) {
    i < j && SameWord(lanes, i, j) && forall k | i < k < j :: !SameWord(lanes, k, i)
  }

  // None of the lanes from m to below n accesses the word at a.
  ghost predicate NoneAt<T>(lanes: seq<Option<Access<T>>>, m: nat, n: nat, a: nat) {
    forall i | m <= i < n && 0 <= i < |lanes| && lanes[i].Some? :: lanes[i].value.addr != a
  }

  /** The lanes that access a word take turns, the lowest first: the first gets what the memory held, each other one
      what the operation of the one before it made of what that one got, and what the last one's makes stays in
      memory. A word that no lane accesses stays as it is. */
  ghost predicate InTurn<T>(f: (Word, T) -> Word, before: seq<Write>, after: seq<Write>,
                            lanes: seq<Option<Access<T>>>, dst: seq<Option<Word>>)
    requires Aligned(lanes)
  {
    && |dst| == |lanes| && (forall i | 0 <= i < |lanes| :: dst[i].Some? <==> lanes[i].Some?)
    && (forall i: nat | First(lanes, i) :: dst[i] == Some(WordAt(before, lanes[i].value.addr)))
    && (forall i: nat, j: nat | Follows(lanes, i, j) :: dst[j] == Some(f(dst[i].value, lanes[i].value.operand)))
    && (forall i: nat | Last(lanes, i) ::
          WordAt(after, lanes[i].value.addr) == f(dst[i].value, lanes[i].value.operand))
    && (forall a: nat | a % 4 == 0 && a + 4 <= TOP && NoneAt(lanes, 0, |lanes|, a) ::
          WordAt(after, a) == WordAt(before, a))
  }

  lemma {:induction false} FoldedSkips<T>(f: (Word, T) -> Word, init: Word, lanes: seq<Option<Access<T>>>, m: nat,
                                          n: nat, a: nat)
    requires m <= n <= |lanes| && NoneAt(lanes, m, n, a)
    ensures Folded(f, init, lanes, n, a) == Folded(f, init, lanes, m, a)
  {
    if n == m {
    } else {
      FoldedSkips(f, init, lanes, m, n - 1, a);
    }
  }

  // What lane i gets when the words are folded.
  ghost predicate Gets<T>(f: (Word, T) -> Word, before: seq<Write>, lanes: seq<Option<Access<T>>>,
                          dst: seq<Option<Word>>, i: nat)
    requires Aligned(lanes) && i < |lanes| && i < |dst|
  {
    dst[i] == match lanes[i]
              case None => None
              case Some(x) => Some(Folded(f, WordAt(before, x.addr), lanes, i, x.addr))
  }

  lemma OneMoreGets<T>(f: (Word, T) -> Word, before: seq<Write>, lanes: seq<Option<Access<T>>>, dst: seq<Option<Word>>,
                       got: Option<Word>)
    requires Aligned(lanes) && |dst| < |lanes| && forall j | 0 <= j < |dst| :: Gets(f, before, lanes, dst, j)
    requires Gets(f, before, lanes, dst + [got], |dst|)
    ensures forall j | 0 <= j < |dst| + 1 :: Gets(f, before, lanes, dst + [got], j)
  {
    forall j | 0 <= j < |dst| ensures Gets(f, before, lanes, dst + [got], j) {
      assert Gets(f, before, lanes, dst, j) && (dst + [got])[j] == dst[j];
    }
  }

  lemma FirstGets<T>(f: (Word, T) -> Word, before: seq<Write>, lanes: seq<Option<Access<T>>>, dst: seq<Option<Word>>,
                     i: nat)
    requires Aligned(lanes) && |dst| == |lanes| && First(lanes, i) && Gets(f, before, lanes, dst, i)
    ensures dst[i] == Some(WordAt(before, lanes[i].value.addr))
  {
    var a := lanes[i].value.addr;
    assert NoneAt(lanes, 0, i, a) by {
      forall j | 0 <= j < i && lanes[j].Some? ensures lanes[j].value.addr != a { assert !SameWord(lanes, j, i); }
    }
    FoldedSkips(f, WordAt(before, a), lanes, 0, i, a);
  }

  lemma NextGets<T>(f: (Word, T) -> Word, before: seq<Write>, lanes: seq<Option<Access<T>>>, dst: seq<Option<Word>>,
                    i: nat, j: nat)
    requires Aligned(lanes) && |dst| == |lanes| && Follows(lanes, i, j)
    requires Gets(f, before, lanes, dst, i) && Gets(f, before, lanes, dst, j)
    ensures dst[i].Some? && dst[j] == Some(f(dst[i].value, lanes[i].value.operand))
  {
    var a := lanes[i].value.addr;
    assert NoneAt(lanes, i + 1, j, a) by {
      forall k | i < k < j && lanes[k].Some? ensures lanes[k].value.addr != a { assert !SameWord(lanes, k, i); }
    }
    FoldedSkips(f, WordAt(before, a), lanes, i + 1, j, a);
  }

  lemma LastStays<T>(f: (Word, T) -> Word, before: seq<Write>, after: seq<Write>, lanes: seq<Option<Access<T>>>,
                     dst: seq<Option<Word>>, i: nat)
    requires Aligned(lanes) && |dst| == |lanes| && Last(lanes, i) && Gets(f, before, lanes, dst, i)
    requires FoldedTo(f, before, after, lanes, |lanes|)
    ensures dst[i].Some? && WordAt(after, lanes[i].value.addr) == f(dst[i].value, lanes[i].value.operand)
  {
    var a := lanes[i].value.addr;
    assert NoneAt(lanes, i + 1, |lanes|, a) by {
      forall k | i < k < |lanes| && lanes[k].Some? ensures lanes[k].value.addr != a { assert !SameWord(lanes, k, i); }
    }
    FoldedSkips(f, WordAt(before, a), lanes, i + 1, |lanes|, a);
  }

  lemma FoldedInTurn<T>(f: (Word, T) -> Word, before: seq<Write>, after: seq<Write>,
                        lanes: seq<Option<Access<T>>>, dst: seq<Option<Word>>)
    requires Aligned(lanes) && FoldedTo(f, before, after, lanes, |lanes|) && |dst| == |lanes|
    requires forall i | 0 <= i < |lanes| :: Gets(f, before, lanes, dst, i)
    ensures InTurn(f, before, after, lanes, dst)
  {
    forall i | 0 <= i < |lanes| ensures dst[i].Some? <==> lanes[i].Some? { assert Gets(f, before, lanes, dst, i); }
    forall i: nat | First(lanes, i) ensures dst[i] == Some(WordAt(before, lanes[i].value.addr)) {
      FirstGets(f, before, lanes, dst, i);
    }
    forall i: nat, j: nat | Follows(lanes, i, j)
      ensures dst[i].Some? && dst[j] == Some(f(dst[i].value, lanes[i].value.operand)) {
      NextGets(f, before, lanes, dst, i, j);
    }
    forall i: nat | Last(lanes, i)
      ensures dst[i].Some? && WordAt(after, lanes[i].value.addr) == f(dst[i].value, lanes[i].value.operand) {
      LastStays(f, before, after, lanes, dst, i);
    }
    forall a: nat | a % 4 == 0 && a + 4 <= TOP && NoneAt(lanes, 0, |lanes|, a)
      ensures WordAt(after, a) == WordAt(before, a) {
      FoldedSkips(f, WordAt(before, a), lanes, 0, |lanes|, a);
    }
  }

  /** `do_atomic`: the lanes that are active and have a callback act in lane order. Every word of the memory ends up
      folded over the lanes that access it, and each of these receives the word just before its turn. */
  method DoAtomic<T>(mem: MemorySpace, f: (Word, T) -> Word, lanes: seq<Option<Access<T>>>)
    returns (dst: seq<Option<Word>>)
    requires mem.Valid() && mem.size <= 0x8000_0000 && Aligned(lanes)
    modifies mem`blocks, mem`writes
    ensures mem.Valid() && FoldedTo(f, old(mem.writes), mem.writes, lanes, |lanes|)
    ensures InTurn(f, old(mem.writes), mem.writes, lanes, dst)
    ensures forall i | 0 <= i < |lanes| :: Gets(f, old(mem.writes), lanes, dst, i)
  {
    dst := [];
    for i := 0 to |lanes|
      invariant mem.Valid() && FoldedTo(f, old(mem.writes), mem.writes, lanes, i) && |dst| == i
      invariant forall j | 0 <= j < i :: Gets(f, old(mem.writes), lanes, dst, j)
    {
      ghost var before := mem.writes;
      var got := None;
      if lanes[i].Some? {
        var data := Callback(mem, f, lanes[i].value);
        got := Some(data);
      }
      OneMoreGets(f, old(mem.writes), lanes, dst, got);
      dst := dst + [got];
      OneMoreFolded(f, old(mem.writes), before, mem.writes, lanes, i);
    }
    FoldedInTurn(f, old(mem.writes), mem.writes, lanes, dst);
  }

  // `atom_callback`: the word read goes to the lane, and the result of the operation to the memory.
  method Callback<T>(mem: MemorySpace, f: (Word, T) -> Word, x: Access<T>) returns (data: Word)
    requires mem.Valid() && mem.size <= 0x8000_0000 && x.addr < WORD
    modifies mem`blocks, mem`writes
    ensures mem.Valid() && data == WordAt(old(mem.writes), x.addr)
    ensures mem.writes == old(mem.writes) + [Put(x.addr, Encode(f(data, x.operand)))]
  {
    var r := mem.Read(x.addr, 4);
    data := Decode(r.data);
    assert r.data == [Flat(mem.writes, x.addr), Flat(mem.writes, x.addr + 1), Flat(mem.writes, x.addr + 2),
                      Flat(mem.writes, x.addr + 3)];
    var _, _ := mem.Write(x.addr, Encode(f(data, x.operand)));
  }

  // ---------------------------------------------------------------------------------------------
  // Counters

  function Add(v: Word, b: Word): Word {
    (v + b) % WORD
  }

  function Inc(v: Word, bound: Word): Word {
    if v >= bound then 0 else v + 1
  }

  function Dec(v: Word, bound: Word): Word {
    if v == 0 || v > bound then bound else v - 1
  }

  function Count<T>(lanes: seq<Option<Access<T>>>, n: nat, a: nat): nat
    requires n <= |lanes|
  {
    if n == 0 then 0
    else Count(lanes, n - 1, a) + if lanes[n - 1].Some? && lanes[n - 1].value.addr == a then 1 else 0
  }

  function Sum(lanes: seq<Option<Access<Word>>>, n: nat, a: nat): nat
    requires n <= |lanes|
  {
    if n == 0 then 0
    else Sum(lanes, n - 1, a) +
         if lanes[n - 1].Some? && lanes[n - 1].value.addr == a then lanes[n - 1].value.operand else 0
  }

  // Every lane at a has the same operand.
  predicate SameBound(lanes: seq<Option<Access<Word>>>, a: nat, bound: Word) {
    forall i | 0 <= i < |lanes| && lanes[i].Some? && lanes[i].value.addr == a :: lanes[i].value.operand == bound
  }

  lemma AddStep(x: nat, b: Word)
    ensures Add(x % WORD, b) == (x + b) % WORD
  {
  }

  /** Additions, in whatever lanes, add up modulo 2^32. */
  lemma {:induction false} AddsAddUp(init: Word, lanes: seq<Option<Access<Word>>>, n: nat, a: nat)
    requires n <= |lanes|
    ensures Folded(Add, init, lanes, n, a) == (init + Sum(lanes, n, a)) % WORD
  {
    if n == 0 {
    } else {
      AddsAddUp(init, lanes, n - 1, a);
      if lanes[n - 1].Some? { AddStep(init + Sum(lanes, n - 1, a), lanes[n - 1].value.operand); }
    }
  }

  // The successor modulo m.
  lemma Successor(x: nat, m: nat)
    requires m > 0
    ensures x % m < m && (x + 1) % m == if x % m == m - 1 then 0 else x % m + 1
  {
    var q, r := x / m, x % m;
    assert x == q * m + r && (q + 1) * m == q * m + m;
    if r == m - 1 { Quotient(m, q + 1, 0); } else { Quotient(m, q, r + 1); }
  }

  // Modulo bound + 1, an increment adds one and a decrement takes one away.
  lemma Steps(x: nat, bound: Word)
    ensures x % (bound + 1) <= bound
    ensures Inc(x % (bound + 1), bound) == (x + 1) % (bound + 1)
    ensures Dec((x + 1) % (bound + 1), bound) == x % (bound + 1)
  {
    Successor(x, bound + 1);
  }

  lemma Within(x: nat, bound: Word)
    requires x <= bound
    ensures x % (bound + 1) == x
  {
  }

  // One step brings a word from above the bound to where the counter begins.
  lemma FromAbove(v: Word, bound: Word)
    requires v > bound
    ensures Inc(v, bound) == 0 && Dec(v, bound) == bound
  {
  }

  // Where k increments lead: from within the bound round modulo bound + 1, from above it first to 0.
  function IncTo(v: Word, bound: Word, k: nat): nat {
    if v <= bound then (v + k) % (bound + 1) else if k == 0 then v else (k - 1) % (bound + 1)
  }

  // Where k decrements lead: k below, and from 0 to the bound; from above it first to the bound.
  function DecTo(v: Word, bound: Word, k: nat): int {
    if v <= bound then bound - (bound - v + k) % (bound + 1) else if k == 0 then v else bound - (k - 1) % (bound + 1)
  }

  lemma OneMoreInc(v: Word, bound: Word, k: nat)
    ensures IncTo(v, bound, 0) == v && IncTo(v, bound, k) < WORD
    ensures Inc(IncTo(v, bound, k), bound) == IncTo(v, bound, k + 1)
  {
    if v <= bound {
      Within(v, bound);
      Steps(v + k, bound);
    } else if k > 0 {
      Steps(k - 1, bound);
    } else {
      Within(0, bound);
    }
  }

  lemma Downwards(x: nat, bound: Word)
    ensures x % (bound + 1) <= bound
    ensures Dec(bound - x % (bound + 1), bound) == bound - (x + 1) % (bound + 1)
  {
    Successor(x, bound + 1);
  }

  lemma OneMoreDec(v: Word, bound: Word, k: nat)
    ensures DecTo(v, bound, 0) == v && 0 <= DecTo(v, bound, k) < WORD
    ensures Dec(DecTo(v, bound, k), bound) == DecTo(v, bound, k + 1)
  {
    if v <= bound {
      Within(bound - v, bound);
      Downwards(bound - v + k, bound);
    } else if k > 0 {
      Downwards(k - 1, bound);
    } else {
      Within(0, bound);
    }
  }

  /** k increments from v lead to v + k modulo bound + 1. Above the bound the first increment leads to 0. */
  lemma {:induction false} IncsGoRound(init: Word, lanes: seq<Option<Access<Word>>>, n: nat, a: nat, bound: Word)
    requires n <= |lanes| && SameBound(lanes, a, bound)
    ensures Folded(Inc, init, lanes, n, a) == IncTo(init, bound, Count(lanes, n, a))
  {
    if n == 0 {
      OneMoreInc(init, bound, 0);
    } else {
      IncsGoRound(init, lanes, n - 1, a, bound);
      OneMoreInc(init, bound, Count(lanes, n - 1, a));
    }
  }

  /** k decrements from v lead k below v, and from 0 to the bound. Above the bound the first one leads to the bound. */
  lemma {:induction false} DecsGoRound(init: Word, lanes: seq<Option<Access<Word>>>, n: nat, a: nat, bound: Word)
    requires n <= |lanes| && SameBound(lanes, a, bound)
    ensures Folded(Dec, init, lanes, n, a) == DecTo(init, bound, Count(lanes, n, a))
  {
    if n == 0 {
      OneMoreDec(init, bound, 0);
    } else {
      DecsGoRound(init, lanes, n - 1, a, bound);
      OneMoreDec(init, bound, Count(lanes, n - 1, a));
    }
  }

  /** A decrement undoes an increment exactly if the word is within the bound. */
  lemma DecUndoesInc(v: Word, bound: Word)
    ensures Dec(Inc(v, bound), bound) == v <==> v <= bound
  {
  }

  /** Decrements in the same lanes undo the increments of a whole warp. */
  lemma {:induction false} DecsUndoIncs(init: Word, lanes: seq<Option<Access<Word>>>, n: nat, a: nat, bound: Word)
    requires n <= |lanes| && SameBound(lanes, a, bound) && init <= bound
    ensures Folded(Dec, Folded(Inc, init, lanes, n, a), lanes, n, a) == init
  {
    DecsGoBack(init, lanes, n, a, bound, n);
    Within(init, bound);
  }

  // After n increments, k of the lanes have decremented: what is left is the count of the others.
  lemma {:induction false} DecsGoBack(init: Word, lanes: seq<Option<Access<Word>>>, n: nat, a: nat, bound: Word, k: nat)
    requires k <= n <= |lanes| && SameBound(lanes, a, bound) && init <= bound
    ensures Count(lanes, k, a) <= Count(lanes, n, a)
    ensures Folded(Dec, Folded(Inc, init, lanes, n, a), lanes, k, a) ==
            (init + (Count(lanes, n, a) - Count(lanes, k, a))) % (bound + 1)
  {
    CountGrows(lanes, k, n, a);
    if k == 0 {
      IncsGoRound(init, lanes, n, a, bound);
    } else {
      DecsGoBack(init, lanes, n, a, bound, k - 1);
      Steps(init + (Count(lanes, n, a) - Count(lanes, k, a)), bound);
    }
  }

  lemma {:induction false} CountGrows<T>(lanes: seq<Option<Access<T>>>, k: nat, n: nat, a: nat)
    requires k <= n <= |lanes|
    ensures Count(lanes, k, a) <= Count(lanes, n, a)
  {
    if k == n {
    } else {
      CountGrows(lanes, k, n - 1, a);
    }
  }
}
