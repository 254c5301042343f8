/**
  Why called functions must not divide their lanes for good. Lanes of a call divide towards the exit of the function
  called: the CALL entry is sent to the return PC and stays a CALL entry when its lanes have returned one by one. When
  they finish, it is popped, and the caller's entry surfaces with finished lanes, although another lane lives.
 */
module StaleCaller {
  import opened SimtStack
  import opened WarpInvariants
  import opened PostDominators
  import opened Kernels
  import opened KernelRuns
  import opened WarpRuns
  import opened Programs
  import opened ProgramRuns
  import StaleBottom

  // ---------------------------------------------------------------------------------------------
  // A program

  // Both functions branch in their first block and end in the two that follow.
  ghost function Fork(code: seq<seq<Pc>>, entry: Pc, loc: map<Pc, (nat, nat)>): Kernel {
    Kernel(code, entry, {0}, [{1, 2}, {3}, {3}, {}], loc, [3, 3, 3, -1], 0)
  }

  // bra; call and exit; exit
  ghost function Caller(): Kernel {
    Fork([[100], [8, 24], [16], []], 100, map[100 := (0, 0), 8 := (1, 0), 24 := (1, 1), 16 := (2, 0)])
  }

  // bra; ret; ret
  ghost function Callee(): Kernel {
    Fork([[1000], [1008], [1016], []], 1000, map[1000 := (0, 0), 1008 := (1, 0), 1016 := (2, 0)])
  }

  ghost function CallProgram(): Program {
    Program([Caller(), Callee()], map[8 := CallSite(1, 24)], {1008, 1016})
  }

  lemma ForkGraph(g: Graph)
    requires g == [{1, 2}, {3}, {3}, {}]
    ensures WellFormed(g) && forall b | 0 <= b < 3 :: Reaches(g, b) && Immediate(g, 3, b)
  {
    assert PathToExit(g, [3]) && PathToExit(g, [1, 3]) && PathToExit(g, [2, 3]);
    assert [0, 1, 3][1..] == [1, 3] && [0, 2, 3][1..] == [2, 3];
    StaleBottom.ExitIsImmediate(g, 0, [0, 1, 3], [0, 2, 3]);
    StaleBottom.ExitIsImmediate(g, 1, [1, 3], [1, 3]);
    StaleBottom.ExitIsImmediate(g, 2, [2, 3], [2, 3]);
  }

  lemma ForkValid(k: Kernel)
    requires k == Fork(k.code, k.entry, k.loc) && LayoutOk(k)
    ensures Valid(k)
  {
    ForkGraph(k.graph);
    assert OneWayOn(k, 1) && OneWayOn(k, 2);
  }

  // A path never leads to what is no instruction.
  lemma NowhereToReturn(k: Kernel)
    requires LayoutOk(k) && k.ret !in k.loc
    ensures ReturnPcUnreached(k)
  {
    forall p | p in k.loc ensures !Leads(k, p, k.ret) { NoPathTo(k, p); }
  }

  lemma NoPathTo(k: Kernel, p: Pc)
    requires LayoutOk(k) && k.ret !in k.loc && p in k.loc
    ensures !Leads(k, p, k.ret)
  {
    forall ps | PcPath(k, ps) && ps[0] == p ensures ps[|ps| - 1] in k.loc {
      if |ps| > 1 { assert May(k, ps[|ps| - 2], ps[|ps| - 1]); }
    }
  }

  lemma CallerLaidOut(k: Kernel)
    requires k == Caller() && WellFormed(k.graph)
    ensures LayoutOk(k) && k.ret !in k.loc
  {
  }

  lemma CallerLayout(k: Kernel)
    requires k == Caller()
    ensures Valid(k) && ReturnPcUnreached(k)
  {
    ForkGraph(k.graph);
    CallerLaidOut(k);
    ForkValid(k);
    NowhereToReturn(k);
  }

  lemma CallerWays(k: Kernel)
    requires k == Caller() && LayoutOk(k)
    ensures May(k, 100, 8) && May(k, 100, 16) && MayFinish(k, 24) && AsksForReturnPc(k, 100)
    ensures CallSiteOk(k, 8, CallSite(1, 24), 2)
  {
    assert StartOf(k, 1, 8) && StartOf(k, 2, 16) && 1 in k.graph[0] && 2 in k.graph[0];
  }

  lemma CalleeLayout(k: Kernel)
    requires k == Callee()
    ensures Valid(k)
  {
    ForkGraph(k.graph);
    assert LayoutOk(k);
    ForkValid(k);
  }

  lemma CalleeWays(k: Kernel)
    requires k == Callee() && LayoutOk(k)
    ensures May(k, 1000, 1008) && May(k, 1000, 1016) && MayFinish(k, 1008) && MayFinish(k, 1016)
            && AsksForReturnPc(k, 1000)
    ensures forall p | MayFinish(k, p) :: p == 1008 || p == 1016
    ensures !NeverDividesForGood(k)
  {
    assert StartOf(k, 1, 1008) && StartOf(k, 2, 1016) && 1 in k.graph[0] && 2 in k.graph[0];
  }

  lemma TwoApart(g: Program, a: Kernel, b: Kernel)
    requires g.funcs == [a, b] && a.loc.Keys == {100, 8, 24, 16} && b.loc.Keys == {1000, 1008, 1016}
    ensures PcsApart(g)
  {
    forall f, h, p | 0 <= f < |g.funcs| && 0 <= h < |g.funcs| && p in g.funcs[f].loc && p in g.funcs[h].loc
      ensures f == h {
      assert p in a.loc.Keys ==> p !in b.loc.Keys;
    }
  }

  lemma TwoCallSites(g: Program, a: Kernel, b: Kernel)
    requires g.funcs == [a, b] && AllValid(g) && g.calls == map[8 := CallSite(1, 24)] && 8 !in b.loc
    requires LayoutOk(a) && CallSiteOk(a, 8, CallSite(1, 24), 2)
    ensures CallSitesOk(g)
  {
    forall f, p | 0 <= f < |g.funcs| && p in g.funcs[f].loc && p in g.calls
      ensures CallSiteOk(g.funcs[f], p, g.calls[p], |g.funcs|) {
      assert p == 8 && g.funcs[f] == a;
    }
  }

  lemma TwoRets(g: Program, a: Kernel, b: Kernel)
    requires g.funcs == [a, b] && AllValid(g) && g.rets == {1008, 1016} && 1008 !in a.loc && 1016 !in a.loc
    requires LayoutOk(b) && MayFinish(b, 1008) && MayFinish(b, 1016)
    ensures RetsOk(g)
  {
    forall f, p | 0 <= f < |g.funcs| && p in g.funcs[f].loc && p in g.rets ensures MayFinish(g.funcs[f], p) {
      assert g.funcs[f] == b;
    }
  }

  lemma TwoFunctions(g: Program, a: Kernel, b: Kernel)
    requires g == Program([a, b], map[8 := CallSite(1, 24)], {1008, 1016}) && Valid(a) && Valid(b)
    requires a.loc.Keys == {100, 8, 24, 16} && b.loc.Keys == {1000, 1008, 1016}
    requires CallSiteOk(a, 8, CallSite(1, 24), 2) && MayFinish(b, 1008) && MayFinish(b, 1016)
    ensures WellLinked(g)
  {
    forall f | 0 <= f < |g.funcs| ensures Valid(g.funcs[f]) { assert g.funcs[f] == a || g.funcs[f] == b; }
    TwoApart(g, a, b);
    assert 8 !in b.loc.Keys && 1008 !in a.loc.Keys && 1016 !in a.loc.Keys;
    TwoCallSites(g, a, b);
    TwoRets(g, a, b);
  }

  lemma ProgramLinked(g: Program, a: Kernel, b: Kernel)
    requires g == CallProgram() && a == Caller() && b == Callee() && Valid(a) && Valid(b)
    ensures WellLinked(g)
  {
    CallerWays(a);
    CalleeWays(b);
    TwoFunctions(g, a, b);
  }

  /** The program is linked correctly and meets every condition but one: the function called divides its lanes for
      good. */
  lemma AllButOne(g: Program, a: Kernel, b: Kernel)
    requires g == CallProgram() && a == Caller() && b == Callee()
    ensures WellLinked(g) && Valid(a) && Valid(b) && g.funcs == [a, b]
    ensures ReturnPcUnreached(a) && LeavesByRet(g, b) && !NeverDividesForGood(b)
  {
    CallerLayout(a);
    CalleeLayout(b);
    CalleeWays(b);
    ProgramLinked(g, a, b);
  }

  // ---------------------------------------------------------------------------------------------
  // A run of three lanes of a warp of n

  const ALL: set<Lane> := {0, 1, 2}

  ghost function Pcs(n: nat, x: Pc, y: Pc, z: Pc): seq<Pc> {
    seq(n, l => if l == 0 then x else if l == 1 then y else if l == 2 then z else 100)
  }

  ghost function CallStacks(n: nat, x: seq<Pc>, y: seq<Pc>): seq<seq<Pc>> {
    seq(n, l => if l == 0 then x else if l == 1 then y else [])
  }

  // What the run needs to know of the two functions.
  ghost predicate Kernel0(g: Program, a: Kernel) {
    && |g.funcs| == 2 && g.funcs[0] == a && Valid(a) && a.ret == 0 && {100, 8, 24} <= a.loc.Keys
    && MovesIn(g, a, 100, [], 8, []) && MovesIn(g, a, 100, [], 16, []) && AsksForReturnPc(a, 100)
    && MovesIn(g, a, 8, [], 1000, [24]) && FinishesIn(g, a, 24, []) && !AsksForReturnPc(a, 8) && !AsksForReturnPc(a, 24)
    && OpOf(g, 100) == OpOf(g, 24) == OtherOp && OpOf(g, 8) == CallOp
  }

  ghost predicate Function1(g: Program, b: Kernel) {
    && |g.funcs| == 2 && g.funcs[1] == b && Valid(b) && {1000, 1008, 1016} <= b.loc.Keys
    && MovesIn(g, b, 1000, [24], 1008, [24]) && MovesIn(g, b, 1000, [24], 1016, [24]) && AsksForReturnPc(b, 1000)
    && MovesIn(g, b, 1008, [24], 24, []) && MovesIn(g, b, 1016, [24], 24, [])
    && !AsksForReturnPc(b, 1008) && !AsksForReturnPc(b, 1016)
    && OpOf(g, 1000) == OtherOp && OpOf(g, 1008) == OpOf(g, 1016) == RetOp
  }

  // The kernel's entries when the lanes have split, and those of the call above them.
  ghost function Split(): seq<Entry> {
    [Entry(0, ALL, NULL_PC, Normal), Entry(16, {2}, 0, Normal), Entry(8, {0, 1}, 0, Normal)]
  }

  ghost function Back(): Entry {
    Entry(24, {0, 1}, NULL_PC, Call)
  }

  // The lanes of the call return one by one, lane 0 first.
  ghost function Returning(n: nat, lanes: nat): Warp {
    Warp(Split() + [Back()] + (if lanes > 0 then [Entry(1016, {1}, 24, Normal)] else [])
                            + (if lanes > 1 then [Entry(1008, {0}, 24, Normal)] else []),
         Pcs(n, if lanes > 1 then 1008 else 24, if lanes > 0 then 1016 else 24, 16), {})
  }

  ghost function Stacks(n: nat, lanes: nat): seq<seq<Pc>> {
    CallStacks(n, if lanes > 1 then [24] else [], if lanes > 0 then [24] else [])
  }

  lemma ThreeGroups(npc: seq<Pc>, p: Pc, q: Pc)
    requires |npc| > 2 && npc[0] == npc[1] == p && npc[2] == q && p != q && p != NULL_PC && q != NULL_PC
    ensures Groups(ALL, npc) == [Group(q, {2}), Group(p, {0, 1})]
  {
    assert Highest(ALL) == 2 && SamePc(ALL, npc, q) == {2} && ALL - {2} == {0, 1};
    assert Highest({0, 1}) == 1 && SamePc({0, 1}, npc, p) == {0, 1} && {0, 1} - {0, 1} == {};
  }

  // The updates, without the program.

  lemma SplitUpdate(w: Warp, e: Event, n: nat)
    requires n >= 3 && w == Launched(100, ALL, n) && e == Event(Pcs(n, 8, 8, 16), {}, 0, OtherOp)
    ensures Legal(w, e) && Next(w, e) == Warp(Split(), Pcs(n, 8, 8, 16), {})
  {
    assert Live(w, e) == ALL;
    ThreeGroups(e.npc, 8, 16);
    var gs, top := Groups(ALL, e.npc), Top(w.stack);
    assert !Converges(gs[0].pc, top) && Splits(gs, top);
    assert gs[1..] == [Group(8, {0, 1})] && gs[1..][1..] == [];
    assert Siblings(gs[1..][1..], top, 0, Normal) == [];
    assert Siblings(gs[1..], top, 0, Normal) == [Entry(8, {0, 1}, 0, Normal)];
    assert w.stack[..0] == [];
  }

  lemma CallUpdate(w: Warp, e: Event, n: nat)
    requires n >= 3 && w == Warp(Split(), Pcs(n, 8, 8, 16), {}) && e.op == CallOp && e.done == {}
             && e.npc == Pcs(n, 1000, 1000, 16)
    ensures Legal(w, e) && Next(w, e) ==
            Warp(Split() + [Entry(1000, {0, 1}, NULL_PC, Call)], Pcs(n, 1000, 1000, 16), {})
  {
    assert Live(w, e) == {0, 1};
    UniformOneGroup({0, 1}, e.npc);
  }

  lemma SplitCallUpdate(w: Warp, e: Event, n: nat)
    requires n >= 3 && w == Warp(Split() + [Entry(1000, {0, 1}, NULL_PC, Call)], Pcs(n, 1000, 1000, 16), {})
    requires e == Event(Pcs(n, 1008, 1016, 16), {}, 24, OtherOp)
    ensures Legal(w, e) && Next(w, e) == Returning(n, 2)
  {
    var top := Top(w.stack);
    assert Live(w, e) == {0, 1};
    StaleBottom.TwoGroups(0, 1, e.npc);
    var gs := Groups({0, 1}, e.npc);
    assert !Converges(gs[0].pc, top) && Splits(gs, top);
    assert gs[1..] == [Group(1008, {0})] && gs[1..][1..] == [];
    assert Siblings(gs[1..][1..], top, 24, Normal) == [];
    assert Siblings(gs[1..], top, 24, Normal) == [Entry(1008, {0}, 24, Normal)];
    assert w.stack[..3] == Split();
  }

  // A lane reconverges with the CALL entry.
  lemma ReturnUpdate(w: Warp, e: Event, base: seq<Entry>, p: Pc, l: Lane)
    requires w.stack == base + [Entry(p, {l}, 24, Normal)] && |e.npc| == |w.pcs| > l && e.npc[l] == 24
             && e.done == w.done == {}
    requires forall m | 0 <= m < |e.npc| && m != l :: e.npc[m] == w.pcs[m]
    requires e.op == RetOp
    ensures Legal(w, e) && Next(w, e) == Warp(base, e.npc, {})
  {
    var top := Top(w.stack);
    assert Live(w, e) == {l};
    StaleBottom.OneGroup(l, e.npc);
    var gs := Groups({l}, e.npc);
    assert gs[1..] == [] && Converges(gs[0].pc, top) && !Splits(gs, top);
    assert Siblings(gs[1..], top, 24, Normal) == [];
    assert w.stack[..|base|] == base;
  }

  lemma FinishUpdate(w: Warp, e: Event, base: seq<Entry>)
    requires w.stack == base + [Back()] && w.done == {} && e.done == {0, 1} && e.npc == w.pcs && |w.pcs| >= 3
             && e.op == OtherOp
    ensures Legal(w, e) && Next(w, e) == Warp(base, w.pcs, {0, 1})
  {
    assert Live(w, e) == {};
    assert w.stack[..|base|] == base;
  }

  // The issues.

  lemma SplitIssued(g: Program, a: Kernel, n: nat, w: Warp, cs: seq<seq<Pc>>, e: Event)
    requires Kernel0(g, a) && n >= 3 && w == Launched(100, ALL, n) && cs == CallStacks(n, [], [])
    requires e == Event(Pcs(n, 8, 8, 16), {}, 0, OtherOp)
    ensures ProgramIssues(g, w, cs, ALL, e, cs)
  {
    assert 100 in a.loc.Keys && First(ALL, n, 0) && RpcOk(g, a, 100, ALL, cs, 0);
    assert ALL - e.done == ALL && Live(w, e) == ALL;
    assert IssuesIn(g, 0, w, cs, ALL, e, cs);
  }

  lemma CallIssued(g: Program, a: Kernel, n: nat, w: Warp, cs: seq<seq<Pc>>, e: Event, cs': seq<seq<Pc>>)
    requires Kernel0(g, a) && n >= 3 && w == Warp(Split(), Pcs(n, 8, 8, 16), {})
    requires cs == CallStacks(n, [], []) && cs' == CallStacks(n, [24], [24])
    requires e == Event(Pcs(n, 1000, 1000, 16), {}, Rpc(a, 8), CallOp)
    ensures ProgramIssues(g, w, cs, ALL, e, cs')
  {
    assert 8 in a.loc.Keys && ALL - e.done == ALL && Live(w, e) == {0, 1};
    assert IssuesIn(g, 0, w, cs, ALL, e, cs');
  }

  lemma SplitCallIssued(g: Program, b: Kernel, n: nat, w: Warp, cs: seq<seq<Pc>>, e: Event)
    requires Function1(g, b) && n >= 3 && cs == CallStacks(n, [24], [24])
    requires w == Warp(Split() + [Entry(1000, {0, 1}, NULL_PC, Call)], Pcs(n, 1000, 1000, 16), {})
    requires e == Event(Pcs(n, 1008, 1016, 16), {}, 24, OtherOp)
    ensures ProgramIssues(g, w, cs, ALL, e, cs)
  {
    assert 1000 in b.loc.Keys && First(ALL, n, 0) && RpcOk(g, b, 1000, ALL, cs, 24);
    assert ALL - e.done == ALL && Live(w, e) == {0, 1};
    assert IssuesIn(g, 1, w, cs, ALL, e, cs);
  }

  // Lane l returns.
  lemma ReturnIssued(g: Program, b: Kernel, w: Warp, base: seq<Entry>, l: Lane, p: Pc, cs: seq<seq<Pc>>, e: Event,
                     cs': seq<seq<Pc>>)
    requires Function1(g, b) && l < 2 && |w.pcs| == |cs| > 2 && (p == 1008 || p == 1016) && cs[l] == [24]
             && w.done == {}
    requires cs' == cs[l := []] && w.stack == base + [Entry(p, {l}, 24, Normal)]
    requires e == Event(w.pcs[l := 24], {}, Rpc(b, p), RetOp)
    ensures ProgramIssues(g, w, cs, ALL, e, cs')
  {
    assert p in b.loc.Keys && ALL - e.done == ALL && Live(w, e) == {l};
    assert IssuesIn(g, 1, w, cs, ALL, e, cs');
  }

  lemma FinishIssued(g: Program, a: Kernel, w: Warp, base: seq<Entry>, n: nat, cs: seq<seq<Pc>>, e: Event)
    requires Kernel0(g, a) && n >= 3 && w.stack == base + [Back()] && w.done == {} && |w.pcs| == n
             && cs == CallStacks(n, [], [])
    requires e == Event(w.pcs, {0, 1}, Rpc(a, 24), OtherOp)
    ensures ProgramIssues(g, w, cs, ALL, e, cs)
  {
    assert 24 in a.loc.Keys && Live(w, e) == {};
    assert IssuesIn(g, 0, w, cs, ALL, e, cs);
  }

  // ---------------------------------------------------------------------------------------------
  // The run

  // A run from w to u.
  ghost predicate RunsTo(g: Program, w: Warp, cs: seq<seq<Pc>>, run: seq<Issued>, u: Warp) {
    ProgramRun(g, w, cs, run, ALL) && LegalRun(w, EventsOf(run)) && After(w, EventsOf(run)) == u
  }

  lemma RunFirst(g: Program, w: Warp, cs: seq<seq<Pc>>, e: Event, cs': seq<seq<Pc>>, v: Warp, rest: seq<Issued>,
                 u: Warp)
    returns (run: seq<Issued>)
    requires 2 !in w.done && ProgramIssues(g, w, cs, ALL, e, cs') && Legal(w, e) && Next(w, e) == v
    requires RunsTo(g, v, cs', rest, u)
    ensures RunsTo(g, w, cs, run, u)
  {
    run := [Issued(e, cs')] + rest;
    assert 2 in ALL && run[0] == Issued(e, cs') && run[1..] == rest;
    assert EventsOf(run)[0] == e && EventsOf(run)[1..] == EventsOf(rest);
  }

  // Lane l, at p, is the next to return.
  predicate ReturnsNext(lanes: nat, l: Lane, p: Pc) {
    (lanes == 2 && l == 0 && p == 1008) || (lanes == 1 && l == 1 && p == 1016)
  }

  lemma OneLess(n: nat, lanes: nat, l: Lane, p: Pc)
    requires n >= 3 && ReturnsNext(lanes, l, p)
    ensures Returning(n, lanes).stack == Returning(n, lanes - 1).stack + [Entry(p, {l}, 24, Normal)]
    ensures |Returning(n, lanes).pcs| == n && Returning(n, lanes - 1).pcs == Returning(n, lanes).pcs[l := 24]
    ensures |Stacks(n, lanes)| == n && Stacks(n, lanes)[l] == [24] && Stacks(n, lanes - 1) == Stacks(n, lanes)[l := []]
  {
  }

  lemma ReturnStep(g: Program, b: Kernel, n: nat, lanes: nat, l: Lane, p: Pc, w: Warp, v: Warp) returns (e: Event)
    requires Function1(g, b) && n >= 3 && ReturnsNext(lanes, l, p) && w == Returning(n, lanes)
             && v == Returning(n, lanes - 1)
    ensures ProgramIssues(g, w, Stacks(n, lanes), ALL, e, Stacks(n, lanes - 1)) && Legal(w, e) && Next(w, e) == v
  {
    OneLess(n, lanes, l, p);
    e := Event(w.pcs[l := 24], {}, Rpc(b, p), RetOp);
    ReturnIssued(g, b, w, v.stack, l, p, Stacks(n, lanes), e, Stacks(n, lanes - 1));
    ReturnUpdate(w, e, v.stack, p, l);
  }

  lemma ReturnFirst(g: Program, b: Kernel, n: nat, lanes: nat, l: Lane, p: Pc, w: Warp, v: Warp, rest: seq<Issued>,
                    u: Warp)
    returns (run: seq<Issued>)
    requires Function1(g, b) && n >= 3 && ReturnsNext(lanes, l, p) && w == Returning(n, lanes)
             && v == Returning(n, lanes - 1)
    requires RunsTo(g, v, Stacks(n, lanes - 1), rest, u)
    ensures RunsTo(g, w, Stacks(n, lanes), run, u)
  {
    var e := ReturnStep(g, b, n, lanes, l, p, w, v);
    run := RunFirst(g, w, Stacks(n, lanes), e, Stacks(n, lanes - 1), v, rest, u);
  }

  lemma FinishLast(g: Program, a: Kernel, n: nat, u: Warp) returns (run: seq<Issued>)
    requires Kernel0(g, a) && n >= 3 && u == Warp(Split(), Pcs(n, 24, 24, 16), {0, 1})
    ensures RunsTo(g, Returning(n, 0), Stacks(n, 0), run, u)
  {
    var w, cs := Returning(n, 0), Stacks(n, 0);
    var e := Event(w.pcs, {0, 1}, Rpc(a, 24), OtherOp);
    FinishIssued(g, a, w, Split(), n, cs, e);
    FinishUpdate(w, e, Split());
    run := RunFirst(g, w, cs, e, cs, u, [], u);
  }

  lemma SplitCallFirst(g: Program, b: Kernel, n: nat, w: Warp, rest: seq<Issued>, u: Warp) returns (run: seq<Issued>)
    requires Function1(g, b) && n >= 3 && RunsTo(g, Returning(n, 2), Stacks(n, 2), rest, u)
    requires w == Warp(Split() + [Entry(1000, {0, 1}, NULL_PC, Call)], Pcs(n, 1000, 1000, 16), {})
    ensures RunsTo(g, w, Stacks(n, 2), run, u)
  {
    var cs, e := Stacks(n, 2), Event(Pcs(n, 1008, 1016, 16), {}, 24, OtherOp);
    SplitCallIssued(g, b, n, w, cs, e);
    SplitCallUpdate(w, e, n);
    run := RunFirst(g, w, cs, e, cs, Returning(n, 2), rest, u);
  }

  lemma SplitAndCall(g: Program, a: Kernel, n: nat, w: Warp, rest: seq<Issued>, u: Warp) returns (run: seq<Issued>)
    requires Kernel0(g, a) && n >= 3 && RunsTo(g, w, Stacks(n, 2), rest, u)
    requires w == Warp(Split() + [Entry(1000, {0, 1}, NULL_PC, Call)], Pcs(n, 1000, 1000, 16), {})
    ensures RunsTo(g, Launched(100, ALL, n), Stacks(n, 0), run, u)
  {
    var c0, c2 := Stacks(n, 0), Stacks(n, 2);
    var w0, w1 := Launched(100, ALL, n), Warp(Split(), Pcs(n, 8, 8, 16), {});
    var e0, e1 := Event(Pcs(n, 8, 8, 16), {}, 0, OtherOp), Event(Pcs(n, 1000, 1000, 16), {}, Rpc(a, 8), CallOp);
    CallIssued(g, a, n, w1, c0, e1, c2);
    CallUpdate(w1, e1, n);
    run := RunFirst(g, w1, c0, e1, c2, w, rest, u);
    SplitIssued(g, a, n, w0, c0, e0);
    SplitUpdate(w0, e0, n);
    run := RunFirst(g, w0, c0, e0, c0, w1, run, u);
  }

  lemma CallerKnown(g: Program, a: Kernel)
    requires g == CallProgram() && a == Caller() && Valid(a)
    ensures Kernel0(g, a)
  {
    CallerWays(a);
  }

  lemma CalleeKnown(g: Program, b: Kernel)
    requires g == CallProgram() && b == Callee() && Valid(b)
    ensures Function1(g, b)
  {
    CalleeWays(b);
  }

  // The run inside the function called.
  lemma InsideRun(g: Program, b: Kernel, n: nat, w: Warp, rest: seq<Issued>, u: Warp) returns (run: seq<Issued>)
    requires Function1(g, b) && n >= 3 && RunsTo(g, Returning(n, 0), Stacks(n, 0), rest, u)
    requires w == Warp(Split() + [Entry(1000, {0, 1}, NULL_PC, Call)], Pcs(n, 1000, 1000, 16), {})
    ensures RunsTo(g, w, Stacks(n, 2), run, u)
  {
    run := ReturnFirst(g, b, n, 1, 1, 1016, Returning(n, 1), Returning(n, 0), rest, u);
    run := ReturnFirst(g, b, n, 2, 0, 1008, Returning(n, 2), Returning(n, 1), run, u);
    run := SplitCallFirst(g, b, n, w, run, u);
  }

  lemma EmptyStacks(n: nat)
    ensures Stacks(n, 0) == NoCalls(n)
  {
  }

  lemma WholeRun(g: Program, a: Kernel, b: Kernel, n: nat, u: Warp) returns (run: seq<Issued>)
    requires Kernel0(g, a) && Function1(g, b) && n >= 3 && u == Warp(Split(), Pcs(n, 24, 24, 16), {0, 1})
    ensures RunsTo(g, Launched(100, ALL, n), NoCalls(n), run, u)
  {
    var w := Warp(Split() + [Entry(1000, {0, 1}, NULL_PC, Call)], Pcs(n, 1000, 1000, 16), {});
    run := FinishLast(g, a, n, u);
    run := InsideRun(g, b, n, w, run, u);
    run := SplitAndCall(g, a, n, w, run, u);
    EmptyStacks(n);
  }

  lemma RunOfProgram(g: Program, a: Kernel, b: Kernel, n: nat, u: Warp) returns (run: seq<Issued>)
    requires g == CallProgram() && a == Caller() && b == Callee() && Valid(a) && Valid(b)
    requires n >= 3 && u == Warp(Split(), Pcs(n, 24, 24, 16), {0, 1})
    ensures RunsTo(g, Launched(100, ALL, n), NoCalls(n), run, u)
  {
    CallerKnown(g, a);
    CalleeKnown(g, b);
    run := WholeRun(g, a, b, n, u);
  }

  // A finished lane is in the top entry, and another lane lives.
  ghost predicate FinishedOnTop(w: Warp) {
    Running(w, ALL) && |w.stack| > 0 && Top(w.stack).mask != {} && Top(w.stack).mask <= w.done
  }

  /** The condition on called functions cannot be dropped: a program that meets all others, and a run of it from the
      kernel's entry with only finished lanes in the top entry while another lane lives, for every warp of three lanes
      or more. */
  lemma FinishedCallersIssued(g: Program, a: Kernel, b: Kernel, n: nat) returns (run: seq<Issued>)
    requires g == CallProgram() && a == Caller() && b == Callee() && n >= 3
    ensures WellLinked(g) && LayoutOk(a) && LayoutOk(b) && g.funcs == [a, b]
    ensures ReturnPcUnreached(a) && LeavesByRet(g, b) && !NeverDividesForGood(b)
    ensures ProgramRun(g, Launched(a.entry, ALL, n), NoCalls(n), run, ALL)
    ensures LegalRun(Launched(a.entry, ALL, n), EventsOf(run))
    ensures FinishedOnTop(After(Launched(a.entry, ALL, n), EventsOf(run)))
  {
    AllButOne(g, a, b);
    var u := Warp(Split(), Pcs(n, 24, 24, 16), {0, 1});
    run := RunOfProgram(g, a, b, n, u);
    assert 2 in ALL && 2 !in u.done;
  }
}
