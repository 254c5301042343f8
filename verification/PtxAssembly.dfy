/**
  Assembly of PTX functions: `function_info::ptx_assemble` in gpgpu-sim/cuda-sim/cuda-sim.cc. All functions share one
  table from PC to instruction.
 */
module PtxAssembly {
  import opened Options

  // An instruction takes 4 or 8 bytes; a branch names its target.
  datatype Instr = Instr(id: nat, size: nat, branch: Option<string>)

  datatype Item = Label(name: string) | Code(instr: Instr)

  type Table = seq<Option<Instr>>

  predicate ItemsOk(items: seq<Item>) {
    forall i | 0 <= i < |items| && items[i].Code? :: items[i].instr.size == 4 || items[i].instr.size == 8
  }

  function Gap(n: nat): (t: Table)
    ensures |t| == n && forall i | 0 <= i < n :: t[i] == None
  {
    seq(n, _ => None)
  }

  // The bytes that the first n items take.
  function Offset(items: seq<Item>, n: nat): nat
    requires n <= |items|
  {
    if n == 0 then 0 else Offset(items, n - 1) + if items[n - 1].Code? then items[n - 1].instr.size else 0
  }

  // Item k is an instruction at offset p.
  predicate IsAt(items: seq<Item>, k: nat, p: nat) {
    k < |items| && items[k].Code? && Offset(items, k) == p
  }

  // Item k, if it is an instruction, is at its offset.
  predicate Has(piece: Table, items: seq<Item>, k: nat)
    requires k < |items|
  {
    items[k].Code? ==> Offset(items, k) < |piece| && piece[Offset(items, k)] == Some(items[k].instr)
  }

  // What is at p, if anything, is one of the first n items.
  ghost predicate Explained(piece: Table, items: seq<Item>, n: nat, p: nat)
    requires p < |piece|
  {
    piece[p].Some? ==> exists k: nat :: k < n && IsAt(items, k, p)
  }

  // piece holds the first n items: each instruction at its offset and nothing elsewhere.
  ghost predicate Assembled(piece: Table, items: seq<Item>, n: nat)
    requires n <= |items|
  {
    && |piece| == Offset(items, n)
    && (forall k: nat | k < n :: Has(piece, items, k))
    && (forall p: nat | p < |piece| :: Explained(piece, items, n, p))
  }

  lemma AssembledMore(piece: Table, items: seq<Item>, n: nat, more: Table)
    requires n < |items| && ItemsOk(items) && Assembled(piece, items, n)
    requires more == piece + if items[n].Code? then [Some(items[n].instr)] + Gap(items[n].instr.size - 1) else []
    ensures Assembled(more, items, n + 1)
  {
    forall k: nat | k < n + 1 ensures Has(more, items, k) {
      if k < n { assert Has(piece, items, k); }
    }
    var m := n + 1;
    forall p: nat | p < |more| ensures Explained(more, items, m, p) {
      if p < |piece| {
        assert Explained(piece, items, n, p);
      } else if more[p].Some? {
        assert p == |piece| && IsAt(items, n, p);
      }
    }
  }

  lemma {:induction false} OffsetGrows(items: seq<Item>, k: nat, l: nat)
    requires ItemsOk(items) && k <= l <= |items|
    ensures Offset(items, k) <= Offset(items, l)
    ensures k < l && items[k].Code? ==> Offset(items, k) < Offset(items, l)
  {
    if k == l {
    } else {
      OffsetGrows(items, k, l - 1);
    }
  }

  lemma {:induction false} OffsetAligned(items: seq<Item>, n: nat)
    requires ItemsOk(items) && n <= |items|
    ensures Offset(items, n) % 4 == 0
  {
    if n == 0 {
    } else {
      OffsetAligned(items, n - 1);
    }
  }

  // ---------------------------------------------------------------------------------------------
  // Labels

  // A label is named so from position k to below n.
  predicate Named(items: seq<Item>, k: nat, n: nat, name: string) {
    exists i :: k <= i < n && 0 <= i < |items| && items[i] == Label(name)
  }

  // The position of the last label named so among the first n items.
  function LastLabel(items: seq<Item>, n: nat, name: string): (r: Option<nat>)
    requires n <= |items|
    ensures r.Some? ==> r.value < n && items[r.value] == Label(name) && !Named(items, r.value + 1, n, name)
    ensures r.None? ==> !Named(items, 0, n, name)
  {
    if n == 0 then None else if items[n - 1] == Label(name) then Some(n - 1) else LastLabel(items, n - 1, name)
  }

  ghost predicate LabelsOk(labels: map<string, nat>, items: seq<Item>, n: nat)
    requires n <= |items|
  {
    && (forall name :: name in labels <==> LastLabel(items, n, name).Some?)
    && (forall name | name in labels :: labels[name] == Offset(items, LastLabel(items, n, name).value))
  }

  // Where a branch leads: nowhere if the label is missing, past the end if no instruction follows the label.
  datatype Target = Missing | PastEnd | At(pc: nat)

  // ---------------------------------------------------------------------------------------------
  // The table

  datatype Function = Function(start: nat, items: seq<Item>)

  function Size(f: Function): nat {
    Offset(f.items, |f.items|)
  }

  // Item k of f is an instruction with PC p.
  predicate Sits(f: Function, k: nat, p: nat) {
    f.start <= p && IsAt(f.items, k, p - f.start)
  }

  ghost predicate Owned(fs: seq<Function>, p: nat) {
    exists a: nat, k: nat :: a < |fs| && Sits(fs[a], k, p)
  }

  ghost predicate FunctionOk(table: Table, f: Function) {
    && ItemsOk(f.items) && f.start % 8 == 0 && f.start + Size(f) <= |table|
    && forall k: nat, p: nat | Sits(f, k, p) :: p < |table| && table[p] == Some(f.items[k].instr)
  }

  /** The functions lie in the table one after the other, each at a multiple of eight; each instruction sits at its PC,
      and the table holds nothing else. */
  ghost predicate TableOk(table: Table, fs: seq<Function>) {
    && |table| % 4 == 0
    && (forall a | 0 <= a < |fs| :: FunctionOk(table, fs[a]))
    && (forall a, b | 0 <= a < b < |fs| :: fs[a].start + Size(fs[a]) <= fs[b].start)
    && (forall p: nat | p < |table| && table[p].Some? :: Owned(fs, p))
  }

  /** The padding of PC % 8 aligns a PC to eight exactly if it is a multiple of four. */
  lemma PaddingAligns(pc: nat)
    ensures (pc + pc % 8) % 8 == 0 <==> pc % 4 == 0
  {
  }

  /** Different instructions have different PCs. */
  lemma PcsUnique(table: Table, fs: seq<Function>, a: nat, k: nat, b: nat, l: nat, p: nat)
    requires TableOk(table, fs) && a <= b < |fs| && Sits(fs[a], k, p) && Sits(fs[b], l, p)
    ensures a == b && k == l
  {
    assert FunctionOk(table, fs[a]) && FunctionOk(table, fs[b]);
    OffsetGrows(fs[a].items, k, |fs[a].items|);
    OffsetGrows(fs[b].items, l, |fs[b].items|);
    if a == b {
      if k < l { OffsetGrows(fs[a].items, k, l); }
      if l < k { OffsetGrows(fs[a].items, l, k); }
    }
  }

  lemma OldFunctionOk(table: Table, more: Table, f: Function)
    requires FunctionOk(table, f) && table <= more
    ensures FunctionOk(more, f)
  {
  }

  lemma NewFunctionOk(before: Table, f: Function, piece: Table, more: Table)
    requires ItemsOk(f.items) && Assembled(piece, f.items, |f.items|)
    requires f.start == |before| && f.start % 8 == 0 && more == before + piece
    ensures FunctionOk(more, f)
  {
    forall k: nat, p: nat | Sits(f, k, p) ensures p < |more| && more[p] == Some(f.items[k].instr) {
      assert Has(piece, f.items, k);
    }
  }

  lemma StillOwned(table: Table, fs: seq<Function>, f: Function, piece: Table, more: Table, p: nat)
    requires TableOk(table, fs) && Assembled(piece, f.items, |f.items|)
    requires f.start == |table| + |table| % 8 && more == table + Gap(|table| % 8) + piece
    requires p < |more| && more[p].Some?
    ensures Owned(fs + [f], p)
  {
    var gs := fs + [f];
    if p < |table| {
      assert table[p] == more[p];
      var a: nat, k: nat :| a < |fs| && Sits(fs[a], k, p);
      assert Sits(gs[a], k, p);
    } else {
      assert piece[p - f.start] == more[p] && Explained(piece, f.items, |f.items|, p - f.start);
      var k: nat :| k < |f.items| && IsAt(f.items, k, p - f.start);
      assert Sits(gs[|fs|], k, p);
    }
  }

  lemma TableMore(table: Table, fs: seq<Function>, f: Function, piece: Table, more: Table)
    requires TableOk(table, fs) && ItemsOk(f.items) && Assembled(piece, f.items, |f.items|)
    requires f.start == |table| + |table| % 8 && more == table + Gap(|table| % 8) + piece
    ensures TableOk(more, fs + [f])
  {
    PaddingAligns(|table|);
    OffsetAligned(f.items, |f.items|);
    NewFunctionOk(table + Gap(|table| % 8), f, piece, more);
    forall a | 0 <= a < |fs| ensures FunctionOk(more, fs[a]) { OldFunctionOk(table, more, fs[a]); }
    forall p: nat | p < |more| && more[p].Some? ensures Owned(fs + [f], p) { StillOwned(table, fs, f, piece, more, p); }
  }

  class Assembler {
    var table: Table
    var next: nat
    ghost var functions: seq<Function>

    ghost predicate Valid()
      reads this
    {
      next == |table| && TableOk(table, functions)
    }

    constructor ()
      ensures Valid() && functions == []
    {
      table, next, functions := [], 0, [];
    }

    /** `ptx_assemble`: the function is laid out at the next multiple of eight, and its branches are resolved. */
    method Assemble(items: seq<Item>) returns (start: nat, targets: seq<Target>)
      requires Valid() && ItemsOk(items)
      modifies this
      ensures Valid() && functions == old(functions) + [Function(start, items)] && start % 8 == 0
      ensures old(next) <= start < old(next) + 8 && next == start + Offset(items, |items|)
      ensures |targets| == |items|
      ensures forall k | 0 <= k < |items| && items[k].Code? && items[k].instr.branch.Some? ::
                targets[k] == Resolved(items, start, items[k].instr.branch.value)
    {
      start := next + next % 8;
      var piece, labels := LayOut(items);
      ghost var f := Function(start, items);
      var more := table + Gap(next % 8) + piece;
      TableMore(table, functions, f, piece, more);
      assert FunctionOk(more, (functions + [f])[|functions|]);
      table, next, functions := more, start + |piece|, functions + [f];
      targets := ResolveAll(items, labels, piece, start);
    }
  }

  // The pass over the branches.
  method ResolveAll(items: seq<Item>, labels: map<string, nat>, piece: Table, start: nat) returns (targets: seq<Target>)
    requires ItemsOk(items) && Assembled(piece, items, |items|) && LabelsOk(labels, items, |items|)
    ensures |targets| == |items|
    ensures forall k | 0 <= k < |items| && items[k].Code? && items[k].instr.branch.Some? ::
              targets[k] == Resolved(items, start, items[k].instr.branch.value)
  {
    targets := [];
    for k := 0 to |items|
      invariant |targets| == k
      invariant forall j | 0 <= j < k && items[j].Code? && items[j].instr.branch.Some? ::
                  targets[j] == Resolved(items, start, items[j].instr.branch.value)
    {
      var target := Missing;
      if items[k].Code? && items[k].instr.branch.Some? {
        target := Resolve(items[k].instr.branch.value, labels, piece, start, items);
      }
      targets := targets + [target];
    }
  }

  // A label leads to the instruction that follows it.
  function Resolved(items: seq<Item>, start: nat, name: string): Target {
    match LastLabel(items, |items|, name)
    case None => Missing
    case Some(k) => if Offset(items, k) == Offset(items, |items|) then PastEnd else At(start + Offset(items, k))
  }

  lemma {:induction false} LabelsTakeNothing(items: seq<Item>, k: nat, j: nat)
    requires k <= j <= |items| && forall i | k <= i < j :: items[i].Label?
    ensures Offset(items, k) == Offset(items, j)
  {
    if k == j {
    } else {
      LabelsTakeNothing(items, k, j - 1);
    }
  }

  /** PCs count bytes: between an instruction and what follows it, with perhaps labels between, lies its size. The first
      instruction is at offset 0. */
  lemma NextOffset(items: seq<Item>, k: nat, j: nat)
    requires k < j <= |items| && forall i | k < i < j :: items[i].Label?
    ensures items[k].Code? ==> Offset(items, j) == Offset(items, k) + items[k].instr.size
    ensures k == 0 && items[0].Label? ==> Offset(items, j) == 0
  {
    LabelsTakeNothing(items, k + 1, j);
    var before := Offset(items, k);
    assert Offset(items, k + 1) == before + if items[k].Code? then items[k].instr.size else 0;
  }

  // The label at k is named so, and only labels with other names follow it.
  predicate AtTheEnd(items: seq<Item>, k: nat, name: string) {
    k < |items| && items[k] == Label(name) && forall i | k < i < |items| :: items[i].Label? && items[i] != Label(name)
  }

  /** A branch is unresolved exactly if its label is missing, and leads past the end exactly if no instruction follows
      the last label of that name. */
  lemma ResolvedExactly(items: seq<Item>, start: nat, name: string)
    requires ItemsOk(items)
    ensures Resolved(items, start, name) == Missing <==> Label(name) !in items
    ensures Resolved(items, start, name) == PastEnd <==> exists k: nat :: AtTheEnd(items, k, name)
  {
    var r := LastLabel(items, |items|, name);
    if r.Some? {
      if i :| r.value < i < |items| && items[i].Code? {
        OffsetGrows(items, r.value, i);
        OffsetGrows(items, i, |items|);
      } else {
        LabelsTakeNothing(items, r.value, |items|);
        assert AtTheEnd(items, r.value, name);
      }
    }
  }

  /** A label that an instruction follows, with perhaps more labels between, leads to the PC of that instruction. */
  lemma LabelLeadsToNext(items: seq<Item>, start: nat, name: string, k: nat, j: nat)
    requires ItemsOk(items) && LastLabel(items, |items|, name) == Some(k)
    requires k < j < |items| && items[j].Code? && forall i | k <= i < j :: items[i].Label?
    ensures Resolved(items, start, name) == At(start + Offset(items, j))
  {
    LabelsTakeNothing(items, k, j);
    OffsetGrows(items, j, |items|);
  }

  method Resolve(name: string, labels: map<string, nat>, piece: Table, start: nat, ghost items: seq<Item>)
    returns (t: Target)
    requires ItemsOk(items) && Assembled(piece, items, |items|) && LabelsOk(labels, items, |items|)
    ensures t == Resolved(items, start, name)
  {
    if name !in labels { return Missing; }
    var index := labels[name];
    if index >= |piece| {
      OffsetGrows(items, LastLabel(items, |items|, name).value, |items|);
      return PastEnd;
    }
    return At(start + index);
  }

  method LayOut(items: seq<Item>) returns (piece: Table, labels: map<string, nat>)
    requires ItemsOk(items)
    ensures Assembled(piece, items, |items|) && LabelsOk(labels, items, |items|)
  {
    piece, labels := [], map[];
    for n := 0 to |items|
      invariant Assembled(piece, items, n) && LabelsOk(labels, items, n)
    {
      var before := piece;
      match items[n] {
        case Label(name) => labels := labels[name := |piece|];
        case Code(instr) =>
          piece := piece + [Some(instr)];
          piece := piece + Gap(instr.size - 1);
      }
      AssembledMore(before, items, n, piece);
    }
  }
}
