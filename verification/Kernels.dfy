/**
  Kernels: code in basic blocks, and the table of reconvergence points that the post-dominator pass produces
  (`get_reconvergence_pairs`, `get_converge_point`).
 */
module Kernels {
  import opened SimtStack
  import opened PostDominators

  /** A function after assembly.
      code    the PCs of each basic block's instructions; the exit block, the last one, has none
      branch  the blocks that end in a bra
      entry   where its threads start, m_start_PC: in the source the first instruction, here any
      graph   the blocks to which lanes may go from each block
      loc     the block of each instruction and its position there
      ipdom   the immediate post-dominators found for the blocks
      ret     what get_return_PC yields for a thread that is in no call: the PC of a blank call-stack entry */
  datatype Kernel = Kernel(
    code: seq<seq<Pc>>, entry: Pc, branch: set<nat>, graph: Graph, loc: map<Pc, (nat, nat)>, ipdom: seq<int>, ret: Pc)

  ghost predicate LayoutOk(k: Kernel) {
    && |k.code| == |k.graph| == |k.ipdom|
    && WellFormed(k.graph)
    && k.code[|k.code| - 1] == []
    && (forall b | 0 <= b < |k.code| - 1 :: k.code[b] != [])
    && (forall b, i | 0 <= b < |k.code| && 0 <= i < |k.code[b]| ::
          k.code[b][i] in k.loc && k.loc[k.code[b][i]] == (b, i))
    && (forall p | p in k.loc :: InCode(k, p, k.loc[p].0, k.loc[p].1))
    && k.entry in k.loc && NULL_PC !in k.loc && k.ret != NULL_PC
  }

  predicate InCode(k: Kernel, p: Pc, b: nat, i: nat) {
    b < |k.code| - 1 && i < |k.code[b]| && k.code[b][i] == p
  }

  // A block that does not end in a bra sends its live lanes one way.
  ghost predicate OneWayOn(k: Kernel, b: nat)
    requires LayoutOk(k) && b < |k.code|
  {
    forall s, t | s in k.graph[b] && t in k.graph[b] && s != Exit(k.graph) && t != Exit(k.graph) :: s == t
  }

  /** What the front end guarantees: every block reaches the exit, only bra diverges, and `ipdom` holds the
      immediate post-dominators. */
  ghost predicate Valid(k: Kernel) {
    && LayoutOk(k)
    && (forall b | 0 <= b < |k.code| - 1 && b !in k.branch :: OneWayOn(k, b))
    && (forall b | 0 <= b < |k.code| - 1 :: Reaches(k.graph, b))
    && (forall b | 0 <= b < |k.code| - 1 :: k.ipdom[b] >= 0 && Immediate(k.graph, k.ipdom[b], b))
  }

  function BlockOf(k: Kernel, p: Pc): nat
    requires p in k.loc
  {
    k.loc[p].0
  }

  ghost predicate AtEnd(k: Kernel, p: Pc)
    requires LayoutOk(k) && p in k.loc
  {
    k.loc[p].1 + 1 == |k.code[BlockOf(k, p)]|
  }

  // ---------------------------------------------------------------------------------------------
  // What one instruction may do to a lane

  ghost predicate StartOf(k: Kernel, b: nat, p: Pc) {
    p in k.loc && k.loc[p] == (b, 0)
  }

  ghost predicate May(k: Kernel, p: Pc, q: Pc)
    requires LayoutOk(k)
  {
    && p in k.loc
    && if AtEnd(k, p) then exists s :: s in k.graph[BlockOf(k, p)] && StartOf(k, s, q)
       else q in k.loc && k.loc[q] == (BlockOf(k, p), k.loc[p].1 + 1)
  }

  ghost predicate MayFinish(k: Kernel, p: Pc)
    requires LayoutOk(k)
  {
    p in k.loc && AtEnd(k, p) && Exit(k.graph) in k.graph[BlockOf(k, p)]
  }

  // ---------------------------------------------------------------------------------------------
  // The reconvergence table

  function Target(k: Kernel, b: nat): Pc
    requires |k.ipdom| == |k.code| && b < |k.code| && 0 <= k.ipdom[b] < |k.code|
  {
    if k.code[k.ipdom[b]] == [] then k.ret else k.code[k.ipdom[b]][0]
  }

  // The search through the (source, target) pairs of the branch blocks; NULL_PC when p is no branch.
  function ConvergePoint(k: Kernel, p: Pc, from: nat): Pc
    requires |k.code| > 0 && |k.ipdom| == |k.code|
    requires forall b | 0 <= b < |k.code| - 1 :: k.code[b] != [] && 0 <= k.ipdom[b] < |k.code|
    decreases |k.code| - from
  {
    if from >= |k.code| - 1 then NULL_PC
    else if from in k.branch && k.code[from][|k.code[from]| - 1] == p then Target(k, from)
    else ConvergePoint(k, p, from + 1)
  }

  // The pairs of the blocks from `from` on.
  function Pairs(k: Kernel, from: nat): seq<(Pc, Pc)>
    requires |k.code| > 0 && |k.ipdom| == |k.code|
    requires forall b | 0 <= b < |k.code| - 1 :: k.code[b] != [] && 0 <= k.ipdom[b] < |k.code|
    decreases |k.code| - from
  {
    if from >= |k.code| - 1 then []
    else (if from in k.branch then [(k.code[from][|k.code[from]| - 1], Target(k, from))] else []) + Pairs(k, from + 1)
  }

  function FirstMatch(pairs: seq<(Pc, Pc)>, p: Pc): Pc {
    if pairs == [] then NULL_PC else if pairs[0].0 == p then pairs[0].1 else FirstMatch(pairs[1..], p)
  }

  lemma {:induction false} MatchIsConvergePoint(k: Kernel, p: Pc, from: nat)
    requires |k.code| > 0 && |k.ipdom| == |k.code|
    requires forall b | 0 <= b < |k.code| - 1 :: k.code[b] != [] && 0 <= k.ipdom[b] < |k.code|
    ensures FirstMatch(Pairs(k, from), p) == ConvergePoint(k, p, from)
    decreases |k.code| - from
  {
    if from >= |k.code| - 1 {
    } else {
      MatchIsConvergePoint(k, p, from + 1);
      var rest := Pairs(k, from + 1);
      assert from in k.branch ==> Pairs(k, from)[1..] == rest;
      assert from !in k.branch ==> Pairs(k, from) == rest;
    }
  }

  /** The pairs come in the order of the blocks: that of block b, if it ends in a bra, is followed by those of the
      blocks after it. */
  lemma {:induction false} PairsInOrder(k: Kernel, from: nat, b: nat) returns (i: nat)
    requires |k.code| > 0 && |k.ipdom| == |k.code| && from <= b < |k.code| - 1
    requires forall c | 0 <= c < |k.code| - 1 :: k.code[c] != [] && 0 <= k.ipdom[c] < |k.code|
    ensures i <= |Pairs(k, from)| && Pairs(k, from)[i..] == Pairs(k, b)
    ensures b in k.branch ==> i < |Pairs(k, from)| && Pairs(k, from)[i] == (k.code[b][|k.code[b]| - 1], Target(k, b))
    decreases b - from
  {
    if from == b {
      i := 0;
    } else {
      i := PairsInOrder(k, from + 1, b);
      if from in k.branch {
        assert Pairs(k, from)[1..] == Pairs(k, from + 1);
        i := i + 1;
      }
    }
  }

  /** `get_reconvergence_pairs`: a pair for each block that ends in a bra. */
  method ReconvergencePairs(k: Kernel) returns (pairs: seq<(Pc, Pc)>)
    requires |k.code| > 0 && |k.ipdom| == |k.code|
    requires forall b | 0 <= b < |k.code| - 1 :: k.code[b] != [] && 0 <= k.ipdom[b] < |k.code|
    ensures pairs == Pairs(k, 0)
  {
    pairs := [];
    for b := 0 to |k.code| - 1
      invariant pairs + Pairs(k, b) == Pairs(k, 0)
    {
      if b in k.branch {
        var target := if k.code[k.ipdom[b]] != [] then k.code[k.ipdom[b]][0] else k.ret;
        pairs := pairs + [(k.code[b][|k.code[b]| - 1], target)];
      }
    }
  }

  /** `get_converge_point`: the target of the first pair at p. */
  method GetConvergePoint(k: Kernel, p: Pc) returns (r: Pc)
    requires |k.code| > 0 && |k.ipdom| == |k.code|
    requires forall b | 0 <= b < |k.code| - 1 :: k.code[b] != [] && 0 <= k.ipdom[b] < |k.code|
    ensures r == ConvergePoint(k, p, 0)
  {
    var pairs := ReconvergencePairs(k);
    MatchIsConvergePoint(k, p, 0);
    for i := 0 to |pairs|
      invariant FirstMatch(pairs[i..], p) == FirstMatch(pairs, p)
    {
      if pairs[i].0 == p { return pairs[i].1; }
      assert pairs[i..][1..] == pairs[i + 1..];
    }
    return NULL_PC;
  }

  ghost function Rpc(k: Kernel, p: Pc): Pc
    requires Valid(k)
  {
    assert forall b | 0 <= b < |k.code| - 1 :: Immediate(k.graph, k.ipdom[b], b);
    ConvergePoint(k, p, 0)
  }

  /** The table answers with the target of the block whose bra is at p. */
  lemma {:induction false} ConvergePointOf(k: Kernel, p: Pc, from: nat)
    requires LayoutOk(k) && p in k.loc && AtEnd(k, p) && BlockOf(k, p) in k.branch && from <= BlockOf(k, p)
    requires forall b | 0 <= b < |k.code| - 1 :: 0 <= k.ipdom[b] < |k.code|
    ensures ConvergePoint(k, p, from) == Target(k, BlockOf(k, p))
    decreases BlockOf(k, p) - from
  {
    var b := BlockOf(k, p);
    assert InCode(k, p, b, k.loc[p].1);
    if from == b {
    } else {
      var last := k.code[from][|k.code[from]| - 1];
      assert k.loc[last].0 == from;
      ConvergePointOf(k, p, from + 1);
    }
  }

  /** It has no answer for other instructions. */
  lemma {:induction false} ConvergePointNone(k: Kernel, p: Pc, from: nat)
    requires |k.code| > 0 && |k.ipdom| == |k.code|
    requires forall b | 0 <= b < |k.code| - 1 :: k.code[b] != [] && 0 <= k.ipdom[b] < |k.code|
    requires forall b | 0 <= b < |k.code| - 1 && b in k.branch :: k.code[b][|k.code[b]| - 1] != p
    ensures ConvergePoint(k, p, from) == NULL_PC
    decreases |k.code| - from
  {
    if from >= |k.code| - 1 {
    } else {
      ConvergePointNone(k, p, from + 1);
    }
  }

  // ---------------------------------------------------------------------------------------------
  // Post-dominance at one block

  // A strict post-dominator of b other than the exit keeps lanes at b from finishing there.
  lemma NoFinishBefore(k: Kernel, r: nat, b: nat)
    requires Valid(k) && b < |k.code| - 1 && r < |k.code| - 1 && r != b && PostDom(k.graph, r, b)
    ensures Exit(k.graph) !in k.graph[b] && k.ipdom[b] != Exit(k.graph)
  {
    ExitOnly(k.graph, r);
    if Exit(k.graph) in k.graph[b] {
      PostDomStep(k.graph, r, b, Exit(k.graph));
    }
    assert StrictPostDom(k.graph, r, b) && Immediate(k.graph, k.ipdom[b], b);
  }

  // A strict post-dominator of b other than the immediate one is not a successor of b.
  lemma NoJumpPast(k: Kernel, r: nat, b: nat)
    requires Valid(k) && b < |k.code| - 1 && r < |k.code| - 1 && r != b && PostDom(k.graph, r, b) && k.ipdom[b] != r
    ensures r !in k.graph[b] && PostDom(k.graph, r, k.ipdom[b])
  {
    var q: nat := k.ipdom[b];
    assert StrictPostDom(k.graph, r, b) && Immediate(k.graph, q, b);
    if r in k.graph[b] {
      PostDomStep(k.graph, q, b, r);
      NotBoth(k.graph, r, q);
    }
  }

  // Where a lane can finish, the exit is the immediate post-dominator.
  lemma FinishMeansExit(k: Kernel, b: nat)
    requires Valid(k) && b < |k.code| - 1 && Exit(k.graph) in k.graph[b]
    ensures k.ipdom[b] == Exit(k.graph)
  {
    var q: nat := k.ipdom[b];
    assert Immediate(k.graph, q, b);
    PostDomStep(k.graph, q, b, Exit(k.graph));
    ExitOnly(k.graph, q);
  }

  // The start of a block's immediate post-dominator is where some path from the block leads.
  lemma TargetIsStart(k: Kernel, b: nat)
    requires Valid(k) && b < |k.code| - 1 && k.ipdom[b] != Exit(k.graph)
    ensures 0 <= k.ipdom[b] < |k.code| - 1 && StartOf(k, k.ipdom[b], Target(k, b)) && Target(k, b) != NULL_PC
  {
    var q: nat := k.ipdom[b];
    assert Immediate(k.graph, q, b);
    assert k.loc[k.code[q][0]] == (q, 0);
  }

  // ---------------------------------------------------------------------------------------------
  // Paths of instructions

  ghost predicate PcPath(k: Kernel, ps: seq<Pc>)
    requires LayoutOk(k)
  {
    |ps| > 0 && ps[0] in k.loc && forall i | 0 <= i < |ps| - 1 :: May(k, ps[i], ps[i + 1])
  }

  ghost predicate Leads(k: Kernel, p: Pc, q: Pc)
    requires LayoutOk(k)
  {
    exists ps :: PcPath(k, ps) && ps[0] == p && ps[|ps| - 1] == q
  }

  lemma LeadsFurther(k: Kernel, p: Pc, q: Pc, r: Pc)
    requires LayoutOk(k) && Leads(k, p, q) && May(k, q, r)
    ensures Leads(k, p, r)
  {
    var ps :| PcPath(k, ps) && ps[0] == p && ps[|ps| - 1] == q;
    var qs := ps + [r];
    assert PcPath(k, qs);
  }

  // A path through the rest of a block.
  lemma {:induction false} ThroughBlock(k: Kernel, p: Pc, b: nat, i: nat, j: nat)
    requires LayoutOk(k) && b < |k.code| - 1 && i <= j < |k.code[b]| && Leads(k, p, k.code[b][i])
    ensures Leads(k, p, k.code[b][j])
  {
    if i == j {
    } else {
      ThroughBlock(k, p, b, i, j - 1);
      LeadsFurther(k, p, k.code[b][j - 1], k.code[b][j]);
    }
  }

  // An edge to a block is a step to its start.
  lemma EdgeIsStep(k: Kernel, b: nat, s: nat)
    requires LayoutOk(k) && b < |k.code| - 1 && s in k.graph[b] && s != Exit(k.graph)
    ensures s < |k.code| - 1 && May(k, k.code[b][|k.code[b]| - 1], k.code[s][0])
  {
    var p, q := k.code[b][|k.code[b]| - 1], k.code[s][0];
    assert k.loc[p] == (b, |k.code[b]| - 1) && k.loc[q] == (s, 0);
    assert StartOf(k, s, q);
  }

  // From the end of its first block, a path to the exit leads to the start of every block on it but the exit.
  lemma {:induction false} AlongPath(k: Kernel, p: Pc, path: seq<nat>, x: nat)
    requires LayoutOk(k) && PathToExit(k.graph, path) && 0 < x < |path| && path[x] != Exit(k.graph)
    requires path[0] < |k.code| - 1 && Leads(k, p, k.code[path[0]][|k.code[path[0]]| - 1])
    ensures path[x] < |k.code| - 1 && Leads(k, p, k.code[path[x]][0])
    decreases |path|
  {
    var b, s := path[0], path[1];
    EdgeIsStep(k, b, s);
    LeadsFurther(k, p, k.code[b][|k.code[b]| - 1], k.code[s][0]);
    if x == 1 {
    } else {
      ThroughBlock(k, p, s, 0, |k.code[s]| - 1);
      AlongPath(k, p, path[1..], x - 1);
    }
  }

  // ---------------------------------------------------------------------------------------------
  // The return PC

  // The last instruction of block b.
  function EndOf(k: Kernel, b: nat): Pc
    requires b < |k.code| && k.code[b] != []
  {
    k.code[b][|k.code[b]| - 1]
  }

  // Lanes may come to the end of block b and split there. They reconverge only at the exit, and are sent to the return
  // PC for it.
  ghost predicate ExitSplit(k: Kernel, b: nat)
    requires LayoutOk(k)
  {
    && b < |k.code| - 1 && k.ipdom[b] == Exit(k.graph) && Leads(k, k.entry, EndOf(k, b))
    && exists s, t :: s in k.graph[b] && t in k.graph[b] && s != t && s != Exit(k.graph) && t != Exit(k.graph)
  }

  // From such a split at block b lanes may go to block s and on to p.
  ghost predicate LeadsFrom(k: Kernel, b: nat, s: nat, p: Pc)
    requires LayoutOk(k)
  {
    ExitSplit(k, b) && s in k.graph[b] && s < |k.code| - 1 && Leads(k, k.code[s][0], p)
  }

  // Lanes may get to p after such a split.
  ghost predicate Beyond(k: Kernel, p: Pc)
    requires LayoutOk(k)
  {
    exists b: nat, s: nat :: LeadsFrom(k, b, s, p)
  }

  /** After no split that reconverges only at the exit does any path lead to the return PC. */
  ghost predicate ReturnPcUnreached(k: Kernel)
    requires LayoutOk(k)
  {
    !Beyond(k, k.ret)
  }

  lemma BeyondStep(k: Kernel, p: Pc, q: Pc)
    requires LayoutOk(k) && Beyond(k, p) && May(k, p, q)
    ensures Beyond(k, q)
  {
    var b: nat, s: nat :| LeadsFrom(k, b, s, p);
    LeadsFurther(k, k.code[s][0], p, q);
    assert LeadsFrom(k, b, s, q);
  }

  lemma BeyondStart(k: Kernel, b: nat, s: nat)
    requires LayoutOk(k) && ExitSplit(k, b) && s in k.graph[b] && s < |k.code| - 1
    ensures Beyond(k, k.code[s][0])
  {
    assert PcPath(k, [k.code[s][0]]);
    assert LeadsFrom(k, b, s, k.code[s][0]);
  }

  // What leads to the end of a block leads to the start of its immediate post-dominator.
  lemma TargetIsReached(k: Kernel, p: Pc, c: nat)
    requires Valid(k) && c < |k.code| - 1 && k.ipdom[c] != Exit(k.graph) && Leads(k, p, k.code[c][|k.code[c]| - 1])
    ensures 0 <= k.ipdom[c] < |k.code| - 1 && Leads(k, p, Target(k, c))
  {
    TargetIsStart(k, c);
    assert Immediate(k.graph, k.ipdom[c], c) && Reaches(k.graph, c);
    var path :| PathToExit(k.graph, path) && path[0] == c;
    var x :| 0 <= x < |path| && path[x] == k.ipdom[c];
    AlongPath(k, p, path, x);
  }

  // Where lanes reconverge that split later, they are beyond it too.
  lemma BeyondTarget(k: Kernel, p: Pc)
    requires Valid(k) && p in k.loc && Beyond(k, p) && AtEnd(k, p) && k.ipdom[BlockOf(k, p)] != Exit(k.graph)
    ensures 0 <= k.ipdom[BlockOf(k, p)] < |k.code| - 1 && Beyond(k, Target(k, BlockOf(k, p)))
  {
    var b: nat, s: nat :| LeadsFrom(k, b, s, p);
    var c := BlockOf(k, p);
    assert InCode(k, p, c, k.loc[p].1);
    TargetIsReached(k, k.code[s][0], c);
    assert LeadsFrom(k, b, s, Target(k, c));
  }
}
