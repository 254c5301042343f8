/**
  Why kernel runs need `ReturnPcUnreached`. In every kernel without it some run issues a finished lane: lanes split
  towards the exit, which leaves the bottom entry waiting at the return PC with all of them; some finish, others
  arrive at the return PC, and the bottom entry surfaces.
 */
module StaleBottom {
  import opened SimtStack
  import opened WarpInvariants
  import opened BlockLinks
  import opened PostDominators
  import opened Kernels
  import opened KernelRuns
  import opened WarpRuns

  // ---------------------------------------------------------------------------------------------
  // Runs put together

  // A run of the kernel from w to v.
  ghost predicate GoesTo(k: Kernel, w: Warp, es: seq<Event>, active: set<Lane>, v: Warp)
    requires Valid(k)
  {
    KernelRun(k, w, es, active) && LegalRun(w, es) && After(w, es) == v
  }

  lemma IssueFirst(k: Kernel, w: Warp, e: Event, v: Warp, fs: seq<Event>, u: Warp, active: set<Lane>, es: seq<Event>)
    requires Valid(k) && Running(w, active) && Issues(k, w, e) && Legal(w, e) && Next(w, e) == v
    requires GoesTo(k, v, fs, active, u) && es == [e] + fs
    ensures GoesTo(k, w, es, active, u)
  {
    assert es[0] == e && es[1..] == fs;
  }

  // ---------------------------------------------------------------------------------------------
  // A lane on its own

  lemma OneGroup(l: Lane, npc: seq<Pc>)
    requires l < |npc| && npc[l] != NULL_PC
    ensures Groups({l}, npc) == [Group(npc[l], {l})]
  {
    assert SamePc({l}, npc, npc[l]) == {l};
    assert Highest({l}) == l;
    assert {l} - {l} == {};
  }

  // An entry for lane l at q that waits at the return PC; none if the lane is there.
  ghost function Pending(k: Kernel, q: Pc, l: Lane): seq<Entry> {
    if q == k.ret then [] else [Entry(q, {l}, k.ret, Normal)]
  }

  lemma LaneUpdate(k: Kernel, base: seq<Entry>, p: Pc, l: Lane, npc: seq<Pc>, q: Pc, rpc: Pc)
    requires l < |npc| && npc[l] == q != NULL_PC
    ensures UpdateOk(base + [Entry(p, {l}, k.ret, Normal)], {l}, npc, OtherOp)
    ensures Updated(base + [Entry(p, {l}, k.ret, Normal)], {l}, npc, rpc, OtherOp) == base + Pending(k, q, l)
  {
    var top := Entry(p, {l}, k.ret, Normal);
    var stack := base + [top];
    OneGroup(l, npc);
    var gs := Groups({l}, npc);
    assert gs[1..] == [] && !Splits(gs, top);
    assert Siblings(gs[1..], top, k.ret, Normal) == [];
    assert stack[..|base|] == base;
  }

  // One step of the lane, before the run fs.
  lemma LaneStep(k: Kernel, w: Warp, active: set<Lane>, base: seq<Entry>, p: Pc, l: Lane, q: Pc, fs: seq<Event>,
                 u: Warp)
    returns (es: seq<Event>)
    requires Valid(k) && l in active && l !in w.done && l < |w.pcs| && w.stack == base + [Entry(p, {l}, k.ret, Normal)]
    requires May(k, p, q) && GoesTo(k, Warp(base + Pending(k, q, l), w.pcs[l := q], w.done), fs, active, u)
    ensures GoesTo(k, w, es, active, u)
  {
    var e := Event(w.pcs[l := q], w.done, Rpc(k, p), OtherOp);
    assert Live(w, e) == {l};
    LaneUpdate(k, base, p, l, e.npc, q, e.rpc);
    es := [e] + fs;
    IssueFirst(k, w, e, Next(w, e), fs, u, active, es);
  }

  lemma LaneFinish(k: Kernel, w: Warp, active: set<Lane>, base: seq<Entry>, p: Pc, l: Lane, fs: seq<Event>, u: Warp)
    returns (es: seq<Event>)
    requires Valid(k) && l in active && l !in w.done && l < |w.pcs| && w.stack == base + [Entry(p, {l}, k.ret, Normal)]
    requires MayFinish(k, p) && GoesTo(k, Warp(base, w.pcs, w.done + {l}), fs, active, u)
    ensures GoesTo(k, w, es, active, u)
  {
    var e := Event(w.pcs, w.done + {l}, Rpc(k, p), OtherOp);
    assert Live(w, e) == {};
    assert w.stack[..|base|] == base;
    es := [e] + fs;
    IssueFirst(k, w, e, Next(w, e), fs, u, active, es);
  }

  // The way of a lane: to the first time it is at the return PC, or to where it finishes.
  ghost predicate Way(k: Kernel, ps: seq<Pc>, finish: bool)
    requires LayoutOk(k)
  {
    && PcPath(k, ps)
    && (forall i | 0 <= i < |ps| - 1 :: ps[i] != k.ret)
    && (if finish then ps[|ps| - 1] != k.ret && MayFinish(k, ps[|ps| - 1]) else ps[|ps| - 1] == k.ret)
  }

  // The warp after lane l has gone its way.
  ghost function Gone(base: seq<Entry>, w: Warp, l: Lane, ps: seq<Pc>, finish: bool): Warp
    requires l < |w.pcs| && |ps| > 0
  {
    Warp(base, w.pcs[l := ps[|ps| - 1]], if finish then w.done + {l} else w.done)
  }

  lemma {:induction false} LaneRun(k: Kernel, w: Warp, active: set<Lane>, base: seq<Entry>, l: Lane, ps: seq<Pc>,
                                   finish: bool, fs: seq<Event>, u: Warp) returns (es: seq<Event>)
    requires Valid(k) && l in active && l !in w.done && l < |w.pcs| && Way(k, ps, finish)
    requires w.stack == base + Pending(k, ps[0], l) && w.pcs[l] == ps[0]
    requires GoesTo(k, Gone(base, w, l, ps, finish), fs, active, u)
    ensures GoesTo(k, w, es, active, u)
    decreases |ps|
  {
    if |ps| > 1 {
      assert May(k, ps[0], ps[1]);
      var v := Warp(base + Pending(k, ps[1], l), w.pcs[l := ps[1]], w.done);
      WayOn(k, ps, finish);
      assert Gone(base, v, l, ps[1..], finish) == Gone(base, w, l, ps, finish);
      es := LaneRun(k, v, active, base, l, ps[1..], finish, fs, u);
      es := LaneStep(k, w, active, base, ps[0], l, ps[1], es, u);
    } else {
      assert w.pcs[l := ps[0]] == w.pcs;
      if finish {
        es := LaneFinish(k, w, active, base, ps[0], l, fs, u);
      } else {
        assert w == Gone(base, w, l, ps, finish);
        es := fs;
      }
    }
  }

  lemma WayOn(k: Kernel, ps: seq<Pc>, finish: bool)
    requires LayoutOk(k) && Way(k, ps, finish) && |ps| > 1
    ensures Way(k, ps[1..], finish)
  {
    var rest := ps[1..];
    forall i | 0 <= i < |rest| - 1 ensures May(k, rest[i], rest[i + 1]) && rest[i] != k.ret {
      assert May(k, ps[i + 1], ps[i + 2]);
    }
    assert May(k, ps[0], ps[1]);
  }

  // ---------------------------------------------------------------------------------------------
  // All lanes together

  // The lanes of the mask are at q together; the others stay where they are.
  ghost function Moved(pcs: seq<Pc>, mask: set<Lane>, q: Pc): seq<Pc> {
    seq(|pcs|, l requires 0 <= l < |pcs| => if l in mask then q else pcs[l])
  }

  ghost function Together(pcs: seq<Pc>, mask: set<Lane>, q: Pc): Warp {
    Warp([Entry(q, mask, NULL_PC, Normal)], Moved(pcs, mask, q), {})
  }

  lemma LaunchedTogether(start: Pc, mask: set<Lane>, n: nat)
    ensures Launched(start, mask, n) == Together(seq(n, _ => start), mask, start)
  {
  }

  // They go from p to q.
  lemma UniformStep(k: Kernel, pcs: seq<Pc>, p: Pc, q: Pc, mask: set<Lane>) returns (e: Event)
    requires Valid(k) && May(k, p, q) && 0 in mask && Within(mask, |pcs|)
    ensures var w := Together(pcs, mask, p);
            Running(w, mask) && Issues(k, w, e) && Legal(w, e) && Next(w, e) == Together(pcs, mask, q)
  {
    var w := Together(pcs, mask, p);
    e := Event(Moved(pcs, mask, q), {}, Rpc(k, p), OtherOp);
    Goes(k, p, q);
    assert 0 !in w.done && Live(w, e) == mask;
    UniformUpdate(p, q, mask, e.npc, e.rpc);
  }

  lemma UniformUpdate(p: Pc, q: Pc, mask: set<Lane>, npc: seq<Pc>, rpc: Pc)
    requires mask != {} && q != NULL_PC && forall l | l in mask :: l < |npc| && npc[l] == q
    ensures UpdateOk([Entry(p, mask, NULL_PC, Normal)], mask, npc, OtherOp)
    ensures Updated([Entry(p, mask, NULL_PC, Normal)], mask, npc, rpc, OtherOp) == [Entry(q, mask, NULL_PC, Normal)]
  {
    UniformOneGroup(mask, npc);
    var top, gs := Entry(p, mask, NULL_PC, Normal), Groups(mask, npc);
    GroupsPartition(mask, npc);
    assert gs == [Group(q, mask)];
    assert gs[1..] == [] && !Splits(gs, top);
    assert Siblings(gs[1..], top, NULL_PC, Normal) == [];
    assert [top][..0] == [];
  }

  // They go along a path, before the run fs: the stack stays one entry that waits for nothing.
  lemma {:induction false} UniformRun(k: Kernel, pcs: seq<Pc>, ps: seq<Pc>, mask: set<Lane>, fs: seq<Event>, u: Warp)
    returns (es: seq<Event>)
    requires Valid(k) && PcPath(k, ps) && 0 in mask && Within(mask, |pcs|)
    requires GoesTo(k, Together(pcs, mask, ps[|ps| - 1]), fs, mask, u)
    ensures GoesTo(k, Together(pcs, mask, ps[0]), es, mask, u)
    decreases |ps|
  {
    if |ps| == 1 {
      es := fs;
    } else {
      assert May(k, ps[0], ps[1]);
      PathOn(k, ps);
      var rest := ps[1..];
      assert rest[0] == ps[1] && rest[|rest| - 1] == ps[|ps| - 1];
      es := UniformRun(k, pcs, rest, mask, fs, u);
      es := UniformFirst(k, pcs, ps[0], ps[1], mask, es, u);
    }
  }

  lemma UniformFirst(k: Kernel, pcs: seq<Pc>, p: Pc, q: Pc, mask: set<Lane>, fs: seq<Event>, u: Warp)
    returns (es: seq<Event>)
    requires Valid(k) && May(k, p, q) && 0 in mask && Within(mask, |pcs|)
             && GoesTo(k, Together(pcs, mask, q), fs, mask, u)
    ensures GoesTo(k, Together(pcs, mask, p), es, mask, u)
  {
    var e := UniformStep(k, pcs, p, q, mask);
    es := [e] + fs;
    IssueFirst(k, Together(pcs, mask, p), e, Together(pcs, mask, q), fs, u, mask, es);
  }

  lemma PathOn(k: Kernel, ps: seq<Pc>)
    requires LayoutOk(k) && PcPath(k, ps) && |ps| > 1
    ensures PcPath(k, ps[1..])
  {
    var rest := ps[1..];
    forall i | 0 <= i < |rest| - 1 ensures May(k, rest[i], rest[i + 1]) { assert May(k, ps[i + 1], ps[i + 2]); }
    assert May(k, ps[0], ps[1]);
  }

  // ---------------------------------------------------------------------------------------------
  // The split

  lemma TwoGroups(x: Lane, y: Lane, npc: seq<Pc>)
    requires x < y < |npc| && npc[x] != npc[y] && npc[x] != NULL_PC && npc[y] != NULL_PC
    ensures Groups({x, y}, npc) == [Group(npc[y], {y}), Group(npc[x], {x})]
  {
    assert Highest({x, y}) == y;
    assert SamePc({x, y}, npc, npc[y]) == {y} && {x, y} - {y} == {x};
    OneGroup(x, npc);
  }

  lemma SplitUpdate(k: Kernel, p: Pc, mask: set<Lane>, x: Lane, y: Lane, npc: seq<Pc>)
    requires x < y < |npc| && npc[x] != npc[y] && npc[x] != NULL_PC && npc[y] != NULL_PC && {x, y} <= mask
             && k.ret != NULL_PC
    ensures UpdateOk([Entry(p, mask, NULL_PC, Normal)], {x, y}, npc, OtherOp)
    ensures Updated([Entry(p, mask, NULL_PC, Normal)], {x, y}, npc, k.ret, OtherOp)
         == [Entry(k.ret, mask, NULL_PC, Normal)] + Pending(k, npc[y], y) + Pending(k, npc[x], x)
  {
    TwoGroups(x, y, npc);
    var top, gs := Entry(p, mask, NULL_PC, Normal), Groups({x, y}, npc);
    assert !Converges(gs[0].pc, top) && Splits(gs, top);
    assert gs[1..] == [Group(npc[x], {x})] && gs[1..][1..] == [];
    assert Siblings(gs[1..][1..], top, k.ret, Normal) == [];
    assert Siblings(gs[1..], top, k.ret, Normal) == Pending(k, npc[x], x);
    assert [top][..0] == [];
  }

  lemma SplitRpc(k: Kernel, b: nat)
    requires Valid(k) && ExitSplit(k, b)
    ensures EndOf(k, b) in k.loc && k.loc[EndOf(k, b)] == (b, |k.code[b]| - 1) && Rpc(k, EndOf(k, b)) == k.ret
  {
    assert !OneWayOn(k, b);
    assert forall c | 0 <= c < |k.code| - 1 :: Immediate(k.graph, k.ipdom[c], c);
    ConvergePointOf(k, EndOf(k, b), 0);
  }

  // Lanes x and y go to blocks s and t, and the others finish.
  lemma SplitIssue(k: Kernel, b: nat, s: nat, t: nat, mask: set<Lane>, pcs: seq<Pc>, x: Lane, y: Lane)
    returns (e: Event)
    requires Valid(k) && ExitSplit(k, b) && s in k.graph[b] && t in k.graph[b] && s != t && s < |k.code| - 1
             && t < |k.code| - 1
    requires x < y && {x, y} <= mask && Within(mask, |pcs|) && (mask - {x, y} != {} ==> Exit(k.graph) in k.graph[b])
    ensures var w := Together(pcs, mask, EndOf(k, b));
            && Running(w, mask) && Issues(k, w, e) && Legal(w, e)
            && Next(w, e).stack ==
                 [Entry(k.ret, mask, NULL_PC, Normal)] + Pending(k, k.code[t][0], y) + Pending(k, k.code[s][0], x)
            && Next(w, e).pcs == e.npc && Next(w, e).done == mask - {x, y}
            && |e.npc| == |pcs| && e.npc[x] == k.code[s][0] && e.npc[y] == k.code[t][0]
  {
    var p := EndOf(k, b);
    var w := Together(pcs, mask, p);
    EdgeIsStep(k, b, s);
    EdgeIsStep(k, b, t);
    SplitRpc(k, b);
    e := Event(w.pcs[x := k.code[s][0]][y := k.code[t][0]], mask - {x, y}, k.ret, OtherOp);
    assert Live(w, e) == {x, y};
    SplitUpdate(k, p, mask, x, y, e.npc);
    assert x in mask && x !in w.done;
  }

  // The way of x, then the way of y.
  lemma TwoLanes(k: Kernel, v: Warp, mask: set<Lane>, bottom: seq<Entry>, x: Lane, y: Lane,
                 xs: seq<Pc>, xf: bool, ys: seq<Pc>, yf: bool) returns (fs: seq<Event>, u: Warp)
    requires Valid(k) && x in mask && y in mask && x != y && x !in v.done && y !in v.done && x < |v.pcs| && y < |v.pcs|
    requires Way(k, xs, xf) && Way(k, ys, yf) && v.pcs[x] == xs[0] && v.pcs[y] == ys[0]
    requires v.stack == bottom + Pending(k, ys[0], y) + Pending(k, xs[0], x)
    ensures GoesTo(k, v, fs, mask, u) && u.stack == bottom
    ensures u.done == v.done + (if xf then {x} else {}) + (if yf then {y} else {})
  {
    var base := bottom + Pending(k, ys[0], y);
    var v' := Gone(base, v, x, xs, xf);
    u := Gone(bottom, v', y, ys, yf);
    fs := LaneRun(k, v', mask, bottom, y, ys, yf, [], u);
    fs := LaneRun(k, v, mask, base, x, xs, xf, fs, u);
  }

  // The whole run: the split, then both ways.
  lemma SplitRun(k: Kernel, b: nat, s: nat, t: nat, mask: set<Lane>, pcs: seq<Pc>, x: Lane, y: Lane,
                 xs: seq<Pc>, xf: bool, ys: seq<Pc>, yf: bool) returns (es: seq<Event>, u: Warp)
    requires Valid(k) && ExitSplit(k, b) && s in k.graph[b] && t in k.graph[b] && s != t && s < |k.code| - 1
             && t < |k.code| - 1
    requires x < y && {x, y} <= mask && Within(mask, |pcs|) && (mask - {x, y} != {} ==> Exit(k.graph) in k.graph[b])
    requires Way(k, xs, xf) && xs[0] == k.code[s][0] && Way(k, ys, yf) && ys[0] == k.code[t][0]
    ensures GoesTo(k, Together(pcs, mask, EndOf(k, b)), es, mask, u)
    ensures u.stack == [Entry(k.ret, mask, NULL_PC, Normal)]
    ensures u.done == mask - {x, y} + (if xf then {x} else {}) + (if yf then {y} else {})
  {
    var e := SplitIssue(k, b, s, t, mask, pcs, x, y);
    var w := Together(pcs, mask, EndOf(k, b));
    var v, fs := Next(w, e), [];
    fs, u := TwoLanes(k, v, mask, [Entry(k.ret, mask, NULL_PC, Normal)], x, y, xs, xf, ys, yf);
    es := [e] + fs;
    IssueFirst(k, w, e, v, fs, u, mask, es);
  }

  // ---------------------------------------------------------------------------------------------
  // Ways

  // From b some way out does not come by block r: b has no post-dominator but the exit.
  lemma WayOut(g: Graph, b: nat, r: nat) returns (out: seq<nat>)
    requires WellFormed(g) && b < Exit(g) && r != Exit(g) && Reaches(g, b) && (r != b ==> !PostDom(g, r, b))
    ensures PathToExit(g, out) && out[0] in g[b] && r !in out
  {
    if r == b {
      var p :| PathToExit(g, p) && p[0] == b;
      out := LastVisit(g, p, r);
    } else {
      var p :| PathToExit(g, p) && p[0] == b && r !in p;
      out := p[1..];
    }
  }

  lemma {:induction false} LastVisit(g: Graph, p: seq<nat>, r: nat) returns (out: seq<nat>)
    requires WellFormed(g) && PathToExit(g, p) && p[0] == r != Exit(g)
    ensures PathToExit(g, out) && out[0] in g[r] && r !in out
    decreases |p|
  {
    out := p[1..];
    if r in out {
      var x :| 0 <= x < |out| && out[x] == r;
      SuffixPath(g, out, x);
      out := LastVisit(g, out[x..], r);
    }
  }

  // The instructions along a path of blocks to the exit.
  lemma {:induction false} PathPcs(k: Kernel, out: seq<nat>) returns (ps: seq<Pc>)
    requires LayoutOk(k) && PathToExit(k.graph, out) && out[0] < |k.code| - 1
    ensures PcPath(k, ps) && ps[0] == k.code[out[0]][0] && MayFinish(k, ps[|ps| - 1])
    ensures forall q | q in ps :: q in k.loc && BlockOf(k, q) in out
    decreases |out|
  {
    var c := out[0];
    var block := k.code[c];
    BlockPcs(k, c);
    if out[1] == Exit(k.graph) {
      ps := block;
    } else {
      var rest := PathPcs(k, out[1..]);
      EdgeIsStep(k, c, out[1]);
      ps := block + rest;
      forall i | 0 <= i < |ps| - 1 ensures May(k, ps[i], ps[i + 1]) {
        if i < |block| - 1 { assert May(k, block[i], block[i + 1]); }
        if i >= |block| { assert May(k, rest[i - |block|], rest[i - |block| + 1]); }
      }
    }
  }

  lemma BlockPcs(k: Kernel, c: nat)
    requires LayoutOk(k) && c < |k.code| - 1
    ensures PcPath(k, k.code[c]) && forall q | q in k.code[c] :: q in k.loc && BlockOf(k, q) == c
  {
  }

  // A path cut at the first time it is at the return PC.
  lemma {:induction false} CutAtReturn(k: Kernel, ps: seq<Pc>, i: nat) returns (qs: seq<Pc>)
    requires LayoutOk(k) && PcPath(k, ps) && i < |ps| && ps[i] == k.ret
    ensures Way(k, qs, false) && qs[0] == ps[0]
    decreases i
  {
    if j :| 0 <= j < i && ps[j] == k.ret {
      qs := CutAtReturn(k, ps, j);
    } else {
      qs := ps[..i + 1];
      forall j | 0 <= j < |qs| - 1 ensures May(k, qs[j], qs[j + 1]) { assert May(k, ps[j], ps[j + 1]); }
    }
  }

  // A path to where a lane finishes, unless it comes by the return PC first.
  lemma WayToEnd(k: Kernel, t: nat) returns (ps: seq<Pc>, finish: bool)
    requires Valid(k) && t < |k.code| - 1
    ensures Way(k, ps, finish) && ps[0] == k.code[t][0]
  {
    assert Reaches(k.graph, t);
    var path :| PathToExit(k.graph, path) && path[0] == t;
    ps := PathPcs(k, path);
    finish := k.ret !in ps;
    if !finish {
      var i :| 0 <= i < |ps| && ps[i] == k.ret;
      ps := CutAtReturn(k, ps, i);
    }
  }

  // ---------------------------------------------------------------------------------------------
  // The condition is exact

  // A split that leads back to the return PC, and a way from it to the exit that does not.
  lemma BadSplit(k: Kernel) returns (b: nat, s: nat, back: seq<Pc>, out: seq<nat>)
    requires Valid(k) && !ReturnPcUnreached(k)
    ensures ExitSplit(k, b) && s in k.graph[b] && s < |k.code| - 1 && Way(k, back, false) && back[0] == k.code[s][0]
    ensures PathToExit(k.graph, out) && out[0] in k.graph[b] && k.ret in k.loc && BlockOf(k, k.ret) !in out
  {
    b, s :| LeadsFrom(k, b, s, k.ret);
    var ps :| PcPath(k, ps) && ps[0] == k.code[s][0] && ps[|ps| - 1] == k.ret;
    back := CutAtReturn(k, ps, |ps| - 1);
    if |ps| > 1 { assert May(k, ps[|ps| - 2], ps[|ps| - 1]); }
    var r := BlockOf(k, k.ret);
    assert InCode(k, k.ret, r, k.loc[k.ret].1) && Immediate(k.graph, k.ipdom[b], b) && Reaches(k.graph, b);
    if r != b && PostDom(k.graph, r, b) {
      assert StrictPostDom(k.graph, r, b);
      ExitOnly(k.graph, r);
    }
    out := WayOut(k.graph, b, r);
  }

  // Another block the split may lead to.
  lemma OtherWay(k: Kernel, b: nat, s: nat) returns (t: nat)
    requires LayoutOk(k) && ExitSplit(k, b)
    ensures t in k.graph[b] && t != s && t < |k.code| - 1
  {
    var x, y :| x in k.graph[b] && y in k.graph[b] && x != y && x != Exit(k.graph) && y != Exit(k.graph);
    t := if x == s then y else x;
  }

  // A run of the lanes of the mask from the end of block b until the bottom entry surfaces. Lane 0 is finished, lane 1
  // is not.
  ghost predicate Surfaces(k: Kernel, b: nat, mask: set<Lane>, pcs: seq<Pc>, es: seq<Event>, u: Warp)
    requires Valid(k) && ExitSplit(k, b)
  {
    && GoesTo(k, Together(pcs, mask, EndOf(k, b)), es, mask, u) && u.stack == [Entry(k.ret, mask, NULL_PC, Normal)]
    && {0, 1} <= mask && Within(mask, |pcs|) && 0 in u.done && 1 !in u.done
  }

  // Some lane finishes in the split itself.
  lemma FinishAtSplit(k: Kernel, b: nat, s: nat, back: seq<Pc>, pcs: seq<Pc>) returns (es: seq<Event>, u: Warp)
    requires Valid(k) && ExitSplit(k, b) && s in k.graph[b] && s < |k.code| - 1 && Exit(k.graph) in k.graph[b]
    requires Way(k, back, false) && back[0] == k.code[s][0] && |pcs| > 2
    ensures Surfaces(k, b, {0, 1, 2}, pcs, es, u)
  {
    var t := OtherWay(k, b, s);
    var ts, tf := WayToEnd(k, t);
    es, u := SplitRun(k, b, s, t, {0, 1, 2}, pcs, 1, 2, back, false, ts, tf);
  }

  // Lane 0 goes on from the split to block s and finishes, lane 1 goes to block t and back to the return PC.
  lemma FinishAndReturn(k: Kernel, b: nat, s: nat, t: nat, ss: seq<Pc>, ts: seq<Pc>, pcs: seq<Pc>)
    returns (es: seq<Event>, u: Warp)
    requires Valid(k) && ExitSplit(k, b) && s in k.graph[b] && t in k.graph[b] && s != t && s < |k.code| - 1
             && t < |k.code| - 1
    requires Way(k, ss, true) && ss[0] == k.code[s][0] && Way(k, ts, false) && ts[0] == k.code[t][0] && |pcs| > 1
    ensures Surfaces(k, b, {0, 1}, pcs, es, u)
  {
    es, u := SplitRun(k, b, s, t, {0, 1}, pcs, 0, 1, ss, true, ts, false);
  }

  lemma FinishLater(k: Kernel, b: nat, s: nat, back: seq<Pc>, out: seq<nat>, pcs: seq<Pc>)
    returns (es: seq<Event>, u: Warp)
    requires Valid(k) && ExitSplit(k, b) && s in k.graph[b] && s < |k.code| - 1
    requires Way(k, back, false) && back[0] == k.code[s][0] && k.ret in k.loc && |pcs| > 1
    requires PathToExit(k.graph, out) && out[0] in k.graph[b] && out[0] < |k.code| - 1 && BlockOf(k, k.ret) !in out
    ensures Surfaces(k, b, {0, 1}, pcs, es, u)
  {
    var us := PathPcs(k, out);
    assert k.ret !in us;
    if out[0] != s {
      es, u := FinishAndReturn(k, b, out[0], s, us, back, pcs);
    } else {
      var t := OtherWay(k, b, s);
      var ts, tf := WayToEnd(k, t);
      if tf {
        es, u := FinishAndReturn(k, b, t, s, ts, back, pcs);
      } else {
        es, u := FinishAndReturn(k, b, s, t, us, ts, pcs);
      }
    }
  }

  // From the entry all lanes go to the split together.
  lemma WalkToSplit(k: Kernel, b: nat, mask: set<Lane>, pcs: seq<Pc>, fs: seq<Event>, u: Warp) returns (es: seq<Event>)
    requires Valid(k) && ExitSplit(k, b) && Surfaces(k, b, mask, pcs, fs, u)
    ensures GoesTo(k, Together(pcs, mask, k.entry), es, mask, u)
  {
    var ps :| PcPath(k, ps) && ps[0] == k.entry && ps[|ps| - 1] == EndOf(k, b);
    es := UniformRun(k, pcs, ps, mask, fs, u);
  }

  /** In every kernel in which a split towards the exit may lead to the return PC, and for every warp of three lanes or
      more, some run from the entry issues a finished lane: it is in the top entry while another lane lives. */
  lemma FinishedLaneIssued(k: Kernel, n: nat) returns (mask: set<Lane>, es: seq<Event>)
    requires Valid(k) && !ReturnPcUnreached(k) && n >= 3
    ensures mask != {} && Within(mask, n)
    ensures KernelRun(k, Launched(k.entry, mask, n), es, mask) && LegalRun(Launched(k.entry, mask, n), es)
    ensures var w := After(Launched(k.entry, mask, n), es);
            Running(w, mask) && |w.stack| > 0 && exists l :: l in Top(w.stack).mask && l in w.done
  {
    var b, s, back, out := BadSplit(k);
    var u;
    var pcs := seq(n, _ => k.entry);
    if out[0] == Exit(k.graph) {
      mask := {0, 1, 2};
      es, u := FinishAtSplit(k, b, s, back, pcs);
    } else {
      mask := {0, 1};
      es, u := FinishLater(k, b, s, back, out, pcs);
    }
    assert Surfaces(k, b, mask, pcs, es, u);
    es := WalkToSplit(k, b, mask, pcs, es, u);
    LaunchedTogether(k.entry, mask, n);
  }

  // The run is legal, and while a lane lives only live lanes are about to be issued.
  ghost predicate Safe(w: Warp, es: seq<Event>, active: set<Lane>) {
    LegalRun(w, es) &&
    var v := After(w, es);
    Running(v, active) ==> |v.stack| > 0 && Top(v.stack).mask !! v.done
  }

  /** Exactly then: every run of a kernel without calls from its entry issues live lanes only, if and only if no split
      towards the exit that lanes may come to leads to the return PC. */
  lemma ReturnPcExactly(k: Kernel, n: nat)
    requires Valid(k) && n >= 3
    ensures ReturnPcUnreached(k) <==>
            forall active: set<Lane>, es |
              active != {} && Within(active, n) && KernelRun(k, Launched(k.entry, active, n), es, active) ::
              Safe(Launched(k.entry, active, n), es, active)
  {
    if ReturnPcUnreached(k) {
      forall active: set<Lane>, es |
        active != {} && Within(active, n) && KernelRun(k, Launched(k.entry, active, n), es, active)
        ensures Safe(Launched(k.entry, active, n), es, active) {
        KernelRunsInLockStep(k, active, n, es);
      }
    } else {
      var mask, es := FinishedLaneIssued(k, n);
      assert !Safe(Launched(k.entry, mask, n), es, mask);
    }
  }

  // ---------------------------------------------------------------------------------------------
  // Such a kernel

  // Two ways to the exit from the branch at PC 0, and a way back to PC 0 on one of them.
  ghost function LoopKernel(): Kernel {
    Kernel([[0], [8], [16], [24], []], 0, {0, 2}, [{1, 2}, {4}, {0, 3}, {4}, {}],
           map[0 := (0, 0), 8 := (1, 0), 16 := (2, 0), 24 := (3, 0)], [4, 4, 4, 4, -1], 0)
  }

  // It is the graph of a function: a guarded bra, an exit, a guarded bra back, an exit.
  lemma LoopKernelIsLinked(ends: seq<Ending>)
    requires ends == [Jumps(2, true), Leaves(false), Jumps(0, true), Leaves(false)]
    ensures EndsOk(ends) && LoopKernel().graph == WayGraph(ends)
    ensures forall b: nat :: b in LoopKernel().branch <==> b < |ends| && ends[b].Jumps?
  {
    var g := WayGraph(ends);
    assert g[0] == {1, 2} && g[1] == {4} && g[2] == {0, 3} && g[3] == {4} && g[4] == {};
  }

  lemma LoopLayout(k: Kernel)
    requires k == LoopKernel() && WellFormed(k.graph)
    ensures LayoutOk(k)
  {
    forall b, i | 0 <= b < |k.code| && 0 <= i < |k.code[b]|
      ensures k.code[b][i] in k.loc && k.loc[k.code[b][i]] == (b, i) {
      assert i == 0 && b < 4;
    }
  }

  lemma LoopKernelValid(k: Kernel)
    requires k == LoopKernel()
    ensures Valid(k)
  {
    LoopGraph(k.graph);
    LoopLayout(k);
    assert OneWayOn(k, 1) && OneWayOn(k, 3);
  }

  lemma LoopGraph(g: Graph)
    requires g == [{1, 2}, {4}, {0, 3}, {4}, {}]
    ensures WellFormed(g)
    ensures forall b | 0 <= b < 4 :: Reaches(g, b) && Immediate(g, 4, b)
  {
    LoopPaths(g);
    ExitIsImmediate(g, 0, [0, 1, 4], [0, 2, 3, 4]);
    ExitIsImmediate(g, 1, [1, 4], [1, 4]);
    ExitIsImmediate(g, 2, [2, 3, 4], [2, 0, 1, 4]);
    ExitIsImmediate(g, 3, [3, 4], [3, 4]);
  }

  lemma LoopPaths(g: Graph)
    requires g == [{1, 2}, {4}, {0, 3}, {4}, {}]
    ensures WellFormed(g)
    ensures PathToExit(g, [1, 4]) && PathToExit(g, [3, 4]) && PathToExit(g, [0, 1, 4]) && PathToExit(g, [2, 3, 4])
    ensures PathToExit(g, [0, 2, 3, 4]) && PathToExit(g, [2, 0, 1, 4])
  {
  }

  // Two paths with nothing in common but their ends leave only the exit.
  lemma ExitIsImmediate(g: Graph, b: nat, p: seq<nat>, q: seq<nat>)
    requires WellFormed(g) && b != Exit(g) && PathToExit(g, p) && PathToExit(g, q) && p[0] == b && q[0] == b
    requires forall d | d in p && d in q :: d == b || d == Exit(g)
    ensures Immediate(g, Exit(g), b) && Reaches(g, b)
  {
    ExitPostDominates(g, b);
  }

  /** A kernel assembled at PC 0 that branches back to its first instruction: one to which the above applies. A run of
      it from PC 0 has a finished lane in the top entry while another lane lives. */
  lemma LoopKernelLeadsBack(n: nat) returns (mask: set<Lane>, es: seq<Event>)
    requires n >= 3
    ensures Valid(LoopKernel()) && !ReturnPcUnreached(LoopKernel())
    ensures mask != {} && Within(mask, n)
    ensures KernelRun(LoopKernel(), Launched(0, mask, n), es, mask) && LegalRun(Launched(0, mask, n), es)
    ensures var w := After(Launched(0, mask, n), es);
            Running(w, mask) && |w.stack| > 0 && exists l :: l in Top(w.stack).mask && l in w.done
  {
    var k := LoopKernel();
    LoopKernelValid(k);
    assert PcPath(k, [0]);
    assert Leads(k, k.entry, EndOf(k, 0));
    assert 1 in k.graph[0] && 2 in k.graph[0] && ExitSplit(k, 0);
    assert StartOf(k, 0, 0) && AtEnd(k, 16) && May(k, 16, 0);
    assert PcPath(k, [16, 0]);
    assert LeadsFrom(k, 0, 2, k.ret);
    mask, es := FinishedLaneIssued(k, n);
  }
}
