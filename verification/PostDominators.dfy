/**
  Post-dominators and immediate post-dominators of a function's basic blocks:
  `function_info::find_postdominators` and `find_ipostdominators` in gpgpu-sim/cuda-sim/ptx_ir.cc.
  The iterated set equations are proved to compute post-dominance over all paths to the exit block.
 */
module PostDominators {

  // The successors of each basic block; the last block is the exit.
  type Graph = seq<set<nat>>

  predicate WellFormed(g: Graph) {
    && |g| >= 2
    && (forall b, s | 0 <= b < |g| && s in g[b] :: s < |g|)
    && g[|g| - 1] == {}
  }

  function Exit(g: Graph): nat
    requires WellFormed(g)
  {
    |g| - 1
  }

  // p is a path that ends at the exit.
  predicate PathToExit(g: Graph, p: seq<nat>)
    requires WellFormed(g)
  {
    && p != [] && p[0] < |g|
    && if |p| == 1 then p[0] == Exit(g) else p[1] in g[p[0]] && PathToExit(g, p[1..])
  }

  ghost predicate Reaches(g: Graph, b: nat)
    requires WellFormed(g)
  {
    exists p :: PathToExit(g, p) && p[0] == b
  }

  /** d post-dominates b: every path from b to the exit goes through d. */
  ghost predicate PostDom(g: Graph, d: nat, b: nat)
    requires WellFormed(g)
  {
    forall p | PathToExit(g, p) && p[0] == b :: d in p
  }

  ghost predicate StrictPostDom(g: Graph, d: nat, b: nat)
    requires WellFormed(g)
  {
    d < |g| && d != b && PostDom(g, d, b)
  }

  /** The immediate post-dominator: the strict one that all other strict ones post-dominate. */
  ghost predicate Immediate(g: Graph, i: nat, b: nat)
    requires WellFormed(g)
  {
    && StrictPostDom(g, i, b)
    && forall d | StrictPostDom(g, d, b) && d != i :: PostDom(g, d, i)
  }

  // ---------------------------------------------------------------------------------------------
  // Paths

  lemma {:induction false} SuffixPath(g: Graph, p: seq<nat>, k: nat)
    requires WellFormed(g) && PathToExit(g, p) && k < |p|
    ensures PathToExit(g, p[k..])
  {
    if k == 0 {
    } else {
      SuffixPath(g, p[1..], k - 1);
      assert p[k..] == p[1..][k - 1..];
    }
  }

  lemma {:induction false} Splice(g: Graph, p: seq<nat>, k: nat, q: seq<nat>)
    requires WellFormed(g) && PathToExit(g, p) && PathToExit(g, q) && k < |p| && p[k] == q[0]
    ensures PathToExit(g, p[..k] + q)
  {
    if k == 0 {
      assert p[..k] + q == q;
    } else {
      Splice(g, p[1..], k - 1, q);
      var r := p[..k] + q;
      assert r[1..] == p[1..][..k - 1] + q;
      assert r[1] == p[1];
    }
  }

  lemma {:induction false} PathInGraph(g: Graph, p: seq<nat>)
    requires WellFormed(g) && PathToExit(g, p)
    ensures forall i | 0 <= i < |p| :: p[i] < |g|
    ensures p[|p| - 1] == Exit(g)
  {
    if |p| == 1 {
    } else {
      PathInGraph(g, p[1..]);
      forall i | 0 <= i < |p| ensures p[i] < |g| { if i > 0 { assert p[i] == p[1..][i - 1]; } }
    }
  }

  lemma ExitOnly(g: Graph, d: nat)
    requires WellFormed(g)
    ensures PostDom(g, d, Exit(g)) ==> d == Exit(g)
  {
    assert PathToExit(g, [Exit(g)]);
    assert d in [Exit(g)] ==> d == Exit(g);
  }

  lemma ExitPostDominates(g: Graph, b: nat)
    requires WellFormed(g)
    ensures PostDom(g, Exit(g), b)
  {
    forall p | PathToExit(g, p) && p[0] == b ensures Exit(g) in p { PathInGraph(g, p); }
  }

  // A post-dominator of b other than b post-dominates every successor of b.
  lemma PostDomStep(g: Graph, d: nat, b: nat, s: nat)
    requires WellFormed(g) && b < |g| && s in g[b] && d != b && PostDom(g, d, b)
    ensures PostDom(g, d, s)
  {
    forall p | PathToExit(g, p) && p[0] == s ensures d in p {
      var q := [b] + p;
      assert q[1..] == p;
      assert PathToExit(g, q);
    }
  }

  // Two different blocks do not post-dominate each other.
  lemma {:induction false} Antisymmetric(g: Graph, d: nat, e: nat, p: seq<nat>)
    requires WellFormed(g) && PostDom(g, d, e) && PostDom(g, e, d)
    requires PathToExit(g, p) && p[0] == d
    ensures d == e
    decreases |p|
  {
    var k :| 0 <= k < |p| && p[k] == e;
    if k == 0 {
    } else {
      SuffixPath(g, p, k);
      Antisymmetric(g, e, d, p[k..]);
    }
  }

  lemma NotBoth(g: Graph, d: nat, e: nat)
    requires WellFormed(g) && Reaches(g, d) && PostDom(g, d, e) && PostDom(g, e, d)
    ensures d == e
  {
    var p :| PathToExit(g, p) && p[0] == d;
    Antisymmetric(g, d, e, p);
  }

  lemma PostDomReaches(g: Graph, d: nat, b: nat)
    requires WellFormed(g) && Reaches(g, b) && PostDom(g, d, b)
    ensures Reaches(g, d)
  {
    var p :| PathToExit(g, p) && p[0] == b;
    var k :| 0 <= k < |p| && p[k] == d;
    SuffixPath(g, p, k);
    assert p[k..][0] == d;
  }

  // ---------------------------------------------------------------------------------------------
  // The immediate post-dominator exists and is unique

  // The first strict post-dominator met on any path to the exit is immediate.
  lemma FirstIsImmediate(g: Graph, b: nat, p: seq<nat>, k: nat)
    requires WellFormed(g) && PathToExit(g, p) && p[0] == b
    requires k < |p| && StrictPostDom(g, p[k], b)
    requires forall i | 0 <= i < k :: !StrictPostDom(g, p[i], b)
    ensures Immediate(g, p[k], b)
  {
    forall d | StrictPostDom(g, d, b) && d != p[k] ensures PostDom(g, d, p[k]) {
      forall q | PathToExit(g, q) && q[0] == p[k] ensures d in q {
        Splice(g, p, k, q);
        assert (p[..k] + q)[0] == b;
        var x :| 0 <= x < |p[..k] + q| && (p[..k] + q)[x] == d;
        assert k <= x;
      }
    }
  }

  lemma {:induction false} FirstStrict(g: Graph, b: nat, p: seq<nat>, from: nat) returns (k: nat)
    requires WellFormed(g) && from < |p| && StrictPostDom(g, p[|p| - 1], b)
    requires forall i | 0 <= i < from :: !StrictPostDom(g, p[i], b)
    ensures k < |p| && StrictPostDom(g, p[k], b)
    ensures forall i | 0 <= i < k :: !StrictPostDom(g, p[i], b)
    decreases |p| - from
  {
    if StrictPostDom(g, p[from], b) {
      k := from;
    } else {
      k := FirstStrict(g, b, p, from + 1);
    }
  }

  /** Every block that reaches the exit, the exit itself aside, has exactly one immediate post-dominator. */
  lemma ImmediateExists(g: Graph, b: nat) returns (i: nat)
    requires WellFormed(g) && b < Exit(g) && Reaches(g, b)
    ensures Immediate(g, i, b) && Reaches(g, i)
    ensures forall j | Immediate(g, j, b) :: j == i
  {
    var p :| PathToExit(g, p) && p[0] == b;
    PathInGraph(g, p);
    ExitPostDominates(g, b);
    var k := FirstStrict(g, b, p, 0);
    i := p[k];
    FirstIsImmediate(g, b, p, k);
    PostDomReaches(g, i, b);
    forall j | Immediate(g, j, b) ensures j == i {
      if j != i { NotBoth(g, i, j); }
    }
  }

  // ---------------------------------------------------------------------------------------------
  // What is left of the candidates

  lemma Transitive(g: Graph, d: nat, e: nat, b: nat)
    requires WellFormed(g) && PostDom(g, d, e) && PostDom(g, e, b)
    ensures PostDom(g, d, b)
  {
    forall p | PathToExit(g, p) && p[0] == b ensures d in p {
      var k :| 0 <= k < |p| && p[k] == e;
      SuffixPath(g, p, k);
      assert p[k..][0] == e && d in p[k..];
    }
  }

  // Strict post-dominators of b of which none post-dominates another, and all others post-dominate one of them.
  ghost predicate Reduced(g: Graph, b: nat, t: set<nat>)
    requires WellFormed(g)
  {
    && (forall d | d in t :: StrictPostDom(g, d, b))
    && (forall d | StrictPostDom(g, d, b) && d !in t :: exists u :: u in t && PostDom(g, d, u))
    && (forall s, d | s in t && d in t && s != d :: !PostDom(g, d, s))
  }

  lemma ReducedNonempty(g: Graph, b: nat, t: set<nat>)
    requires WellFormed(g) && b < Exit(g) && Reduced(g, b, t)
    ensures t != {}
  {
    ExitPostDominates(g, b);
    assert StrictPostDom(g, Exit(g), b);
  }

  // Of a block that reaches the exit, the immediate post-dominator is left.
  lemma ReducedToImmediate(g: Graph, b: nat, t: set<nat>, i: nat)
    requires WellFormed(g) && Reduced(g, b, t) && Reaches(g, i) && Immediate(g, i, b)
    ensures t == {i}
  {
    if i !in t {
      var u :| u in t && PostDom(g, i, u);
      NotBoth(g, i, u);
    }
    forall d | d in t ensures d == i { assert StrictPostDom(g, d, b); }
  }

  // Some other block does not reach the exit either.
  ghost predicate NotAlone(g: Graph, b: nat)
    requires WellFormed(g)
  {
    exists x :: 0 <= x < |g| && x != b && !Reaches(g, x)
  }

  // Of a block that does not, any block may be left: one of the others that do not reach the exit.
  lemma ReducedToOne(g: Graph, b: nat, t: set<nat>) returns (i: nat)
    requires WellFormed(g) && Reduced(g, b, t) && !Reaches(g, b) && NotAlone(g, b)
    ensures t == {i} && !Reaches(g, i)
  {
    var x: nat :| 0 <= x < |g| && x != b && !Reaches(g, x);
    i := x;
    if x !in t {
      assert StrictPostDom(g, x, b);
      i :| i in t && PostDom(g, x, i);
      if Reaches(g, i) { PostDomReaches(g, x, i); }
    }
    forall d | d in t ensures d == i { assert PostDom(g, d, i); }
  }

  // A block other than b that post-dominates no third one.
  ghost predicate Leaf(g: Graph, b: nat, d: nat)
    requires WellFormed(g)
  {
    d < |g| && d != b && forall e | 0 <= e < |g| && e != b && e != d :: !PostDom(g, d, e)
  }

  // If only b does not reach the exit, all the leaves are left.
  lemma ReducedToLeaves(g: Graph, b: nat, t: set<nat>, d: nat)
    requires WellFormed(g) && Reduced(g, b, t) && !Reaches(g, b) && !NotAlone(g, b)
    ensures d in t <==> Leaf(g, b, d)
  {
    if Leaf(g, b, d) { assert StrictPostDom(g, d, b); }
    if d in t {
      assert StrictPostDom(g, d, b);
      forall e: nat | 0 <= e < |g| && e != b && e != d ensures !PostDom(g, d, e) {
        if PostDom(g, d, e) {
          assert StrictPostDom(g, e, b);
          var u :| u in t && PostDom(g, e, u);
          Transitive(g, d, e, u);
          assert u == d;
          NotBoth(g, d, e);
        }
      }
    }
  }

  /** One candidate is left for b: it reaches the exit, or it is not the only block that does not, or no two of the
      others post-dominate no third block. */
  ghost predicate OneLeft(g: Graph, b: nat)
    requires WellFormed(g)
  {
    Reaches(g, b) || NotAlone(g, b) || forall d, e | Leaf(g, b, d) && Leaf(g, b, e) :: d == e
  }

  lemma OneLeftExactly(g: Graph, b: nat, t: set<nat>)
    requires WellFormed(g) && b < Exit(g) && Reduced(g, b, t)
    ensures |t| == 1 <==> OneLeft(g, b)
  {
    ReducedNonempty(g, b, t);
    var x :| x in t;
    if Reaches(g, b) {
      var i := ImmediateExists(g, b);
      ReducedToImmediate(g, b, t, i);
    } else if NotAlone(g, b) {
      var i := ReducedToOne(g, b, t);
    } else {
      forall d: nat ensures d in t <==> Leaf(g, b, d) { ReducedToLeaves(g, b, t, d); }
      if |t| == 1 { SingleElement(t, x); }
      if OneLeft(g, b) { assert t == {x}; }
    }
  }

  // Without an edge to a block that reaches the exit, none does.
  lemma {:induction false} NeverLeaves(g: Graph, inside: set<nat>, p: seq<nat>)
    requires WellFormed(g) && Exit(g) !in inside && forall b, s | b in inside && b < |g| && s in g[b] :: s in inside
    requires PathToExit(g, p)
    ensures p[0] !in inside
  {
    if |p| == 1 {
    } else {
      NeverLeaves(g, inside, p[1..]);
    }
  }

  /** The assertions pass although two blocks never reach the exit, and fail for one that does not. */
  lemma AssertionsByExample(pass: Graph, fail: Graph)
    requires pass == [{1}, {1}, {}] && fail == [{0}, {3}, {3}, {}]
    ensures WellFormed(pass) && !Reaches(pass, 0) && !Reaches(pass, 1) && OneLeft(pass, 0) && OneLeft(pass, 1)
    ensures WellFormed(fail) && !Reaches(fail, 0) && !OneLeft(fail, 0)
  {
    forall p | PathToExit(pass, p) ensures p[0] != 0 && p[0] != 1 { NeverLeaves(pass, {0, 1}, p); }
    forall p | PathToExit(fail, p) ensures p[0] != 0 { NeverLeaves(fail, {0}, p); }
    assert PathToExit(fail, [3]) && PathToExit(fail, [1, 3]) && PathToExit(fail, [2, 3]);
    assert Reaches(fail, 1) && Reaches(fail, 2) && Reaches(fail, 3);
    assert !NotAlone(fail, 0);
    assert 1 !in [2, 3] && 1 !in [3] && 2 !in [1, 3] && 2 !in [3];
    assert Leaf(fail, 0, 1) && Leaf(fail, 0, 2);
  }

  lemma SingleElement(t: set<nat>, x: nat)
    requires |t| == 1 && x in t
    ensures t == {x}
  {
    assert |t - {x}| == 0;
    assert t == t - {x} + {x};
  }

  // ---------------------------------------------------------------------------------------------
  // More edges from blocks that lead to the exit anyway

  // h has the edges of g, and more only from blocks with an edge to the exit.
  ghost predicate Extends(g: Graph, h: Graph) {
    && WellFormed(g) && WellFormed(h) && |g| == |h|
    && forall b | 0 <= b < |g| :: g[b] <= h[b] && (g[b] != h[b] ==> Exit(g) in g[b])
  }

  lemma {:induction false} PathStays(g: Graph, h: Graph, p: seq<nat>)
    requires Extends(g, h) && PathToExit(g, p)
    ensures PathToExit(h, p)
  {
    if |p| == 1 {
    } else {
      PathStays(g, h, p[1..]);
    }
  }

  // A path of h can be cut short where it takes a new edge.
  lemma {:induction false} CutShort(g: Graph, h: Graph, p: seq<nat>) returns (q: seq<nat>)
    requires Extends(g, h) && PathToExit(h, p)
    ensures PathToExit(g, q) && q[0] == p[0] && forall d | d in q :: d in p
  {
    if |p| == 1 {
      q := p;
    } else if p[1] in g[p[0]] {
      var rest := CutShort(g, h, p[1..]);
      q := [p[0]] + rest;
      assert q[1..] == rest;
    } else {
      q := [p[0], Exit(g)];
      assert q[1..] == [Exit(g)];
      PathInGraph(h, p);
    }
  }

  /** Such edges change neither which blocks reach the exit nor post-dominance. */
  lemma ExtendsSame(g: Graph, h: Graph, d: nat, b: nat)
    requires Extends(g, h)
    ensures Reaches(g, b) <==> Reaches(h, b)
    ensures PostDom(g, d, b) <==> PostDom(h, d, b)
  {
    forall p | PathToExit(g, p) && p[0] == b ensures PathToExit(h, p) { PathStays(g, h, p); }
    if Reaches(h, b) {
      var p :| PathToExit(h, p) && p[0] == b;
      var q := CutShort(g, h, p);
    }
    if PostDom(g, d, b) {
      forall p | PathToExit(h, p) && p[0] == b ensures d in p { var q := CutShort(g, h, p); }
    }
  }

  lemma ExtendsImmediate(g: Graph, h: Graph, i: nat, b: nat)
    requires Extends(g, h)
    ensures Immediate(g, i, b) <==> Immediate(h, i, b)
  {
    forall d: nat, c: nat ensures PostDom(g, d, c) <==> PostDom(h, d, c) { ExtendsSame(g, h, d, c); }
  }

  // ---------------------------------------------------------------------------------------------
  // The set equations

  function Blocks(n: nat): (all: set<nat>)
    ensures forall i: nat :: i in all <==> i < n
  {
    if n == 0 then {} else Blocks(n - 1) + {n - 1}
  }

  // What one visit of block h computes: h and what all its successors agree on.
  ghost predicate InMeet(g: Graph, pdom: seq<set<nat>>, h: nat, d: nat)
    requires WellFormed(g) && |pdom| == |g| && h < |g|
  {
    d == h || (d < |g| && forall s | s in g[h] :: d in pdom[s])
  }

  ghost predicate Solved(g: Graph, pdom: seq<set<nat>>, h: nat)
    requires WellFormed(g) && |pdom| == |g| && h < |g|
  {
    forall d: nat :: d in pdom[h] <==> InMeet(g, pdom, h, d)
  }

  // The iteration only ever shrinks the sets, and never below the post-dominators.
  ghost predicate Above(g: Graph, pdom: seq<set<nat>>)
    requires WellFormed(g)
  {
    && |pdom| == |g|
    && pdom[Exit(g)] == {Exit(g)}
    && (forall b, d: nat | 0 <= b < |g| && d < |g| && PostDom(g, d, b) :: d in pdom[b])
    && (forall b, d: nat | 0 <= b < Exit(g) && InMeet(g, pdom, b, d) :: d in pdom[b])
  }

  lemma {:induction false} SolutionSound(g: Graph, pdom: seq<set<nat>>, d: nat, p: seq<nat>)
    requires WellFormed(g) && |pdom| == |g| && pdom[Exit(g)] == {Exit(g)}
    requires forall b | 0 <= b < Exit(g) :: Solved(g, pdom, b)
    requires PathToExit(g, p) && d in pdom[p[0]]
    ensures d in p
    decreases |p|
  {
    if |p| > 1 && d != p[0] {
      assert Solved(g, pdom, p[0]) && InMeet(g, pdom, p[0], d);
      SolutionSound(g, pdom, d, p[1..]);
      assert d in p[1..];
    }
  }

  /** A solution that the iteration can reach is exactly post-dominance. */
  lemma SolutionIsPostDom(g: Graph, pdom: seq<set<nat>>)
    requires WellFormed(g) && Above(g, pdom)
    requires forall b | 0 <= b < Exit(g) :: Solved(g, pdom, b)
    ensures forall b, d: nat | 0 <= b < |g| && d < |g| :: d in pdom[b] <==> PostDom(g, d, b)
  {
    forall b, d: nat | 0 <= b < |g| && d < |g| && d in pdom[b] ensures PostDom(g, d, b) {
      forall p | PathToExit(g, p) && p[0] == b ensures d in p { SolutionSound(g, pdom, d, p); }
    }
  }

  lemma MeetKeepsPostDom(g: Graph, pdom: seq<set<nat>>, h: nat, d: nat)
    requires WellFormed(g) && Above(g, pdom) && h < Exit(g) && d < |g| && PostDom(g, d, h)
    ensures InMeet(g, pdom, h, d)
  {
    if d != h {
      forall s | s in g[h] ensures d in pdom[s] { PostDomStep(g, d, h, s); }
    }
  }

  // Replacing one set by its meet keeps the iteration above the answer.
  lemma VisitKeepsAbove(g: Graph, pdom: seq<set<nat>>, h: nat, t: set<nat>)
    requires WellFormed(g) && Above(g, pdom) && h < Exit(g)
    requires forall d: nat :: d in t <==> InMeet(g, pdom, h, d)
    ensures t <= pdom[h]
    ensures Above(g, pdom[h := t])
  {
    var q := pdom[h := t];
    forall b, d: nat | 0 <= b < |g| && d < |g| && PostDom(g, d, b) ensures d in q[b] {
      if b == h { MeetKeepsPostDom(g, pdom, h, d); }
    }
    forall b, d: nat | 0 <= b < Exit(g) && InMeet(g, q, b, d) ensures d in q[b] {
      assert InMeet(g, pdom, b, d);
    }
  }

  function Total(pdom: seq<set<nat>>): nat {
    if pdom == [] then 0 else |pdom[0]| + Total(pdom[1..])
  }

  lemma {:induction false} TotalShrinks(pdom: seq<set<nat>>, h: nat, t: set<nat>)
    requires h < |pdom| && t < pdom[h]
    ensures Total(pdom[h := t]) < Total(pdom)
  {
    if h == 0 {
      assert pdom[0] == t + (pdom[0] - t);
      assert pdom[h := t][1..] == pdom[1..];
    } else {
      TotalShrinks(pdom[1..], h - 1, t);
      assert pdom[h := t][1..] == pdom[1..][h - 1 := t];
    }
  }

  // ---------------------------------------------------------------------------------------------
  // The passes

  class ControlFlow {
    const succ: Graph
    var postdominators: seq<set<nat>>
    var ipdom: seq<int>

    constructor (succ: Graph)
      ensures this.succ == succ
    {
      this.succ := succ;
      postdominators, ipdom := [], [];
    }

    ghost predicate PostDominatorsFound()
      reads this
      requires WellFormed(succ)
    {
      && |postdominators| == |succ|
      && forall b, d: nat | 0 <= b < |succ| && d < |succ| :: d in postdominators[b] <==> PostDom(succ, d, b)
    }

    // The intersection over the successors of h, and h itself.
    method Meet(h: nat) returns (t: set<nat>)
      requires WellFormed(succ) && |postdominators| == |succ| && h < |succ|
      ensures forall d: nat :: d in t <==> InMeet(succ, postdominators, h, d)
    {
      t := Blocks(|succ|);
      var todo := succ[h];
      while todo != {}
        invariant todo <= succ[h]
        invariant forall d: nat ::
                    d in t <==> d < |succ| && forall s | s in succ[h] && s !in todo :: d in postdominators[s]
        decreases todo
      {
        var s :| s in todo;
        t := t * postdominators[s];
        todo := todo - {s};
      }
      t := t + {h};
    }

    /** `find_postdominators`: repeat until nothing changes; what is left is post-dominance. */
    method FindPostdominators()
      requires WellFormed(succ)
      modifies this`postdominators
      ensures PostDominatorsFound()
      ensures forall b | 0 <= b < |succ| :: forall d | d in postdominators[b] :: d < |succ|
    {
      var n := |succ|;
      var all := Blocks(n);
      postdominators := seq(n, i => if i == n - 1 then {n - 1} else all);
      InitiallyAbove(succ, postdominators, all);
      var change := true;
      while change
        invariant Above(succ, postdominators)
        invariant forall b | 0 <= b < n :: postdominators[b] <= all
        invariant !change ==> forall b | 0 <= b < n - 1 :: Solved(succ, postdominators, b)
        decreases Total(postdominators) + if change then 1 else 0
      {
        change := Pass(all);
      }
      SolutionIsPostDom(succ, postdominators);
    }

    // One round over the blocks, last to first.
    method Pass(all: set<nat>) returns (change: bool)
      requires WellFormed(succ) && Above(succ, postdominators)
      requires forall b | 0 <= b < |succ| :: postdominators[b] <= all
      modifies this`postdominators
      ensures Above(succ, postdominators)
      ensures forall b | 0 <= b < |succ| :: postdominators[b] <= all
      ensures change ==> Total(postdominators) < Total(old(postdominators))
      ensures !change ==> postdominators == old(postdominators)
      ensures !change ==> forall b | 0 <= b < |succ| - 1 :: Solved(succ, postdominators, b)
    {
      var n := |succ|;
      change := false;
      var h := n - 1;
      while h > 0
        invariant 0 <= h <= n - 1
        invariant Above(succ, postdominators)
        invariant forall b | 0 <= b < n :: postdominators[b] <= all
        invariant change ==> Total(postdominators) < Total(old(postdominators))
        invariant !change ==> postdominators == old(postdominators)
        invariant !change ==> forall b | h <= b < n - 1 :: Solved(succ, postdominators, b)
      {
        h := h - 1;
        var t := Meet(h);
        VisitKeepsAbove(succ, postdominators, h, t);
        if t != postdominators[h] {
          TotalShrinks(postdominators, h, t);
          change := true;
          postdominators := postdominators[h := t];
        }
      }
    }

    /** `find_ipostdominators`: from the strict post-dominators of each block, erase those that post-dominate
        another one still there. For a block that reaches the exit one is left, the immediate one.
        `asserted` is the verdict of the two asserts at the end: one candidate at most, and one for every block
        but the exit. */
    method FindIpostdominators() returns (asserted: bool)
      requires WellFormed(succ) && PostDominatorsFound()
      requires forall b | 0 <= b < |succ| :: forall d | d in postdominators[b] :: d < |succ|
      modifies this`ipdom
      ensures |ipdom| == |succ| && ipdom[Exit(succ)] == -1
      ensures forall b | 0 <= b < Exit(succ) && Reaches(succ, b) :: ipdom[b] >= 0 && Immediate(succ, ipdom[b], b)
      ensures asserted <==> forall b | 0 <= b < Exit(succ) :: OneLeft(succ, b)
    {
      var n := |succ|;
      ipdom := seq(n, _ => -1);
      asserted := true;
      var b := n - 1;
      while b > 0
        invariant 0 <= b <= n - 1 && |ipdom| == n && ipdom[n - 1] == -1
        invariant forall x | b <= x < n - 1 && Reaches(succ, x) :: ipdom[x] >= 0 && Immediate(succ, ipdom[x], x)
        invariant asserted <==> forall x | b <= x < n - 1 :: OneLeft(succ, x)
      {
        b := b - 1;
        var tmp := Reduce(b);
        OneLeftExactly(succ, b, tmp);
        if Reaches(succ, b) {
          ghost var i := ImmediateExists(succ, b);
          ReducedToImmediate(succ, b, tmp, i);
        }
        asserted := asserted && |tmp| == 1;
        if tmp != {} {
          var x :| x in tmp;
          ipdom := ipdom[b := x];
        }
      }
    }

    // The two nested loops over one block's candidates, which visit what is still there in ascending order.
    method Reduce(b: nat) returns (tmp: set<nat>)
      requires WellFormed(succ) && PostDominatorsFound() && b < Exit(succ)
      requires forall d | d in postdominators[b] :: d < |succ|
      ensures Reduced(succ, b, tmp)
    {
      tmp := postdominators[b] - {b};
      assert forall d: nat :: d in tmp <==> StrictPostDom(succ, d, b);
      for s := 0 to |succ|
        invariant forall d | d in tmp :: StrictPostDom(succ, d, b)
        invariant forall d | StrictPostDom(succ, d, b) && d !in tmp :: exists u :: u in tmp && PostDom(succ, d, u)
        invariant forall x, d | x in tmp && d in tmp && x != d && x < s :: !PostDom(succ, d, x)
      {
        if s in tmp {
          for t := 0 to |succ|
            invariant s in tmp && forall d | d in tmp :: StrictPostDom(succ, d, b)
            invariant forall d | StrictPostDom(succ, d, b) && d !in tmp :: exists u :: u in tmp && PostDom(succ, d, u)
            invariant forall x, d | x in tmp && d in tmp && x != d && x < s :: !PostDom(succ, d, x)
            invariant forall d | d in tmp && d < t && d != s :: !PostDom(succ, d, s)
          {
            if t in tmp && t != s && t in postdominators[s] {
              StillCovered(succ, b, tmp, s, t);
              tmp := tmp - {t};
            }
          }
        }
      }
    }
  }

  // If t post-dominates s it can go: what post-dominates t post-dominates s.
  lemma StillCovered(g: Graph, b: nat, c: set<nat>, s: nat, t: nat)
    requires WellFormed(g) && s in c && t in c && s != t && PostDom(g, t, s)
    requires forall d | StrictPostDom(g, d, b) && d !in c :: exists u :: u in c && PostDom(g, d, u)
    ensures forall d | StrictPostDom(g, d, b) && d !in c - {t} :: exists u :: u in c - {t} && PostDom(g, d, u)
  {
    forall d | StrictPostDom(g, d, b) && d !in c - {t} ensures exists u :: u in c - {t} && PostDom(g, d, u) {
      if d == t {
        assert s in c - {t};
      } else {
        var u :| u in c && PostDom(g, d, u);
        if u == t { Transitive(g, d, t, s); }
        var v := if u == t then s else u;
        assert v in c - {t};
      }
    }
  }

  lemma InitiallyAbove(g: Graph, pdom: seq<set<nat>>, all: set<nat>)
    requires WellFormed(g) && |pdom| == |g| && pdom[Exit(g)] == {Exit(g)}
    requires forall d: nat :: d in all <==> d < |g|
    requires forall b | 0 <= b < Exit(g) :: pdom[b] == all
    ensures Above(g, pdom)
  {
    forall b, d: nat | 0 <= b < |g| && d < |g| && PostDom(g, d, b) ensures d in pdom[b] {
      if b == Exit(g) { ExitOnly(g, d); }
    }
  }
}
