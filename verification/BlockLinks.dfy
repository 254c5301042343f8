/**
  The links between basic blocks: `function_info::connect_basic_blocks` in gpgpu-sim/cuda-sim/ptx_ir.cc, and the table
  of immediate post-dominators that `ptx_assemble` makes from them.

  The code looks for the instruction after a guarded exit or return one position on in a table with one position for
  each byte, and so misses that link. It is proved that the missing links change nothing in the table.
 */
module BlockLinks {
  import opened Options
  import opened PostDominators
  import opened Kernels

  // How a block ends: with an exit or a return, with a bra, or with anything else. A guarded instruction may be
  // skipped.
  datatype Ending = Leaves(guarded: bool) | Jumps(target: nat, guarded: bool) | Falls

  // The source reads past its table if the last block does not end in an exit, a return or an unguarded bra.
  predicate EndsOk(ends: seq<Ending>) {
    && |ends| > 0
    && forall b | 0 <= b < |ends| ::
         match ends[b]
         case Leaves(_) => true
         case Jumps(target, guarded) => target < |ends| && (guarded ==> b + 1 < |ends|)
         case Falls => b + 1 < |ends|
  }

  // The blocks to which lanes go from block b; the exit is the block after the last.
  function Ways(ends: seq<Ending>, b: nat): set<nat>
    requires b < |ends|
  {
    match ends[b]
    case Leaves(guarded) => {|ends|} + if guarded && b + 1 < |ends| then {b + 1} else {}
    case Jumps(target, guarded) => {target} + if guarded then {b + 1} else {}
    case Falls => {b + 1}
  }

  // The links that are made.
  function Links(ends: seq<Ending>, b: nat): set<nat>
    requires b < |ends|
  {
    if ends[b].Leaves? then {|ends|} else Ways(ends, b)
  }

  /** Lanes go to the exit from a block that ends in an exit or return, to the target from one that ends in a bra, and
      on to the next block unless that instruction is unguarded. Of these the link to the next block is missing after
      an exit or return. */
  lemma WaysAndLinks(ends: seq<Ending>, b: nat, s: nat)
    requires EndsOk(ends) && b < |ends|
    ensures s in Ways(ends, b) <==>
            || (s == |ends| && ends[b].Leaves?)
            || (ends[b].Jumps? && s == ends[b].target)
            || (s == b + 1 < |ends| && (ends[b].Falls? || ends[b].guarded))
    ensures s in Links(ends, b) <==> s in Ways(ends, b) && (ends[b].Leaves? ==> s == |ends|)
  {
  }

  function WayGraph(ends: seq<Ending>): Graph {
    seq(|ends|, b requires 0 <= b < |ends| => Ways(ends, b)) + [{}]
  }

  function LinkGraph(ends: seq<Ending>): Graph {
    seq(|ends|, b requires 0 <= b < |ends| => Links(ends, b)) + [{}]
  }

  lemma WaysExtendLinks(ends: seq<Ending>)
    requires EndsOk(ends)
    ensures WellFormed(LinkGraph(ends)) && WellFormed(WayGraph(ends)) && Extends(LinkGraph(ends), WayGraph(ends))
  {
    var g, h := LinkGraph(ends), WayGraph(ends);
    forall b | 0 <= b < |ends|
      ensures g[b] <= h[b] && (g[b] != h[b] ==> |ends| in g[b]) && forall s | s in h[b] :: s <= |ends| {
      assert g[b] == Links(ends, b) && h[b] == Ways(ends, b);
    }
  }

  /** Where the last instruction of each block is in the table of instructions, its size, and the block of the
      instruction at each position. Sizes are 4 and 8; the positions inside an instruction are empty. */
  datatype Layout = Layout(last: seq<nat>, size: seq<nat>, blocks: seq<Option<nat>>)

  predicate LaidOut(y: Layout, n: nat) {
    && |y.last| == |y.size| == n
    && forall b | 0 <= b < n :: BlockLaidOut(y, n, b)
  }

  predicate BlockLaidOut(y: Layout, n: nat, b: nat)
    requires |y.last| == |y.size| == n && b < n
  {
    && (y.size[b] == 4 || y.size[b] == 8) && y.last[b] + y.size[b] <= |y.blocks|
    && (forall o | y.last[b] < o < y.last[b] + y.size[b] :: y.blocks[o] == None)
    && (b + 1 < n ==> y.last[b] + y.size[b] < |y.blocks| && y.blocks[y.last[b] + y.size[b]] == Some(b + 1))
  }

  /** `connect_basic_blocks`. */
  method ConnectBasicBlocks(ends: seq<Ending>, y: Layout) returns (succ: Graph)
    requires EndsOk(ends) && LaidOut(y, |ends|)
    ensures succ == LinkGraph(ends)
  {
    succ := seq(|ends| + 1, _ => {});
    for b := 0 to |ends|
      invariant |succ| == |ends| + 1
      invariant forall c | 0 <= c < b :: succ[c] == Links(ends, c)
      invariant forall c | b <= c <= |ends| :: succ[c] == {}
    {
      assert BlockLaidOut(y, |ends|, b);
      if ends[b].Leaves? {
        succ := succ[b := succ[b] + {|ends|}];
        if ends[b].guarded {
          var next := y.last[b] + 1;
          if next < |y.blocks| && y.blocks[next].Some? {
            succ := succ[b := succ[b] + {y.blocks[next].value}];
          }
        }
      } else {
        if ends[b].Jumps? { succ := succ[b := succ[b] + {ends[b].target}]; }
        if !(ends[b].Jumps? && !ends[b].guarded) {
          var next := y.last[b] + y.size[b];
          succ := succ[b := succ[b] + {y.blocks[next].value}];
        }
      }
    }
  }

  /** The table that is made from the links is that of the graph of all ways. */
  method MakeTable(ends: seq<Ending>, y: Layout) returns (ipdom: seq<int>, asserted: bool)
    requires EndsOk(ends) && LaidOut(y, |ends|)
    ensures |ipdom| == |ends| + 1 && WellFormed(WayGraph(ends))
    ensures forall b | 0 <= b < |ends| && Reaches(WayGraph(ends), b) ::
              ipdom[b] >= 0 && Immediate(WayGraph(ends), ipdom[b], b)
    ensures (forall b | 0 <= b < |ends| :: Reaches(WayGraph(ends), b)) ==> asserted
  {
    var g := ConnectBasicBlocks(ends, y);
    WaysExtendLinks(ends);
    var flow := new ControlFlow(g);
    flow.FindPostdominators();
    asserted := flow.FindIpostdominators();
    ipdom := flow.ipdom;
    ghost var h := WayGraph(ends);
    forall b | 0 <= b < |ends| ensures Reaches(g, b) <==> Reaches(h, b) { ExtendsSame(g, h, b, b); }
    forall b | 0 <= b < |ends| && Reaches(h, b) ensures ipdom[b] >= 0 && Immediate(h, ipdom[b], b) {
      ExtendsImmediate(g, h, ipdom[b], b);
    }
  }

  /** A kernel with that table is valid if all its blocks reach the exit. */
  lemma TableMakesValid(k: Kernel, ends: seq<Ending>)
    requires EndsOk(ends) && k.graph == WayGraph(ends) && LayoutOk(k)
    requires forall b: nat :: b in k.branch <==> b < |ends| && ends[b].Jumps?
    requires forall b | 0 <= b < |ends| :: Reaches(k.graph, b) && k.ipdom[b] >= 0 && Immediate(k.graph, k.ipdom[b], b)
    ensures Valid(k)
  {
    forall b | 0 <= b < |k.code| - 1 && b !in k.branch ensures OneWayOn(k, b) {
      assert k.graph[b] == Ways(ends, b);
    }
  }
}
