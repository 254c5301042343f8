/**
  A warp on the reconvergence stack is a schedule of independent threads.

  The threads are given by an instruction set `Isa`: one thread executes the instruction it is handed on a state G
  that holds registers, control state and memory of all threads. `core_t::execute_warp_inst_t` hands every active
  lane the instruction fetched at the top entry's PC; an independent thread executes the one at its own PC.
 */
module LockStepRefinement {
  import opened SimtStack
  import opened WarpInvariants
  import opened Kernels
  import opened KernelRuns
  import opened WarpRuns
  import opened Programs
  import opened ProgramRuns

  // Control state is the PC of a thread, whether it has finished, and its call stack.
  datatype Isa<!G(!new)> = Isa(
    exec: (Pc, Lane, G) -> G, pc: (Lane, G) -> Pc, done: (Lane, G) -> bool, calls: (Lane, G) -> seq<Pc>)

  // The control state of thread m is the same in g and h.
  ghost predicate SameControl<G(!new)>(isa: Isa<G>, m: Lane, g: G, h: G) {
    isa.pc(m, g) == isa.pc(m, h) && isa.done(m, g) == isa.done(m, h) && isa.calls(m, g) == isa.calls(m, h)
  }

  // Threads own their control state.
  ghost predicate Private<G(!new)>(isa: Isa<G>) {
    forall p, l, m, g | l != m :: SameControl(isa, m, isa.exec(p, l, g), g)
  }

  // What a live thread at p with the call stack cs makes of the instruction there, as seen in the state h.
  ghost predicate Follows<G(!new)>(isa: Isa<G>, code: Program, p: Pc, l: Lane, cs: seq<Pc>, h: G)
    requires WellLinked(code)
  {
    if isa.done(l, h) then Finishes(code, p, cs) else Moves(code, p, cs, isa.pc(l, h), isa.calls(l, h))
  }

  ghost predicate InProgram(code: Program, p: Pc) {
    exists f :: 0 <= f < |code.funcs| && p in code.funcs[f].loc
  }

  ghost predicate ObeysAt<G(!new)>(isa: Isa<G>, code: Program, p: Pc, l: Lane, g: G)
    requires WellLinked(code)
  {
    InProgram(code, p) && !isa.done(l, g) && isa.pc(l, g) == p ==>
      Follows(isa, code, p, l, isa.calls(l, g), isa.exec(p, l, g))
  }

  /** Threads own their control state, and each follows the program's control flow. */
  ghost predicate Obeys<G(!new)>(isa: Isa<G>, code: Program)
    requires WellLinked(code)
  {
    Private(isa) && forall p, l, g :: ObeysAt(isa, code, p, l, g)
  }

  // ---------------------------------------------------------------------------------------------
  // One instruction for many lanes, and one lane at a time

  // The active lanes in the order of the issue loop.
  function Ascending(mask: set<Lane>, n: nat): (s: seq<Lane>)
    ensures forall l: Lane :: l in s <==> l in mask && l < n
  {
    if n == 0 then [] else Ascending(mask, n - 1) + if n - 1 in mask then [n - 1] else []
  }

  ghost predicate Distinct(s: seq<Lane>) {
    forall i, j | 0 <= i < j < |s| :: s[i] != s[j]
  }

  ghost predicate Increasing(s: seq<Lane>) {
    forall i, j | 0 <= i < j < |s| :: s[i] < s[j]
  }

  lemma {:induction false} AscendingIncreases(mask: set<Lane>, n: nat)
    ensures Increasing(Ascending(mask, n))
  {
    if n == 0 {
    } else {
      AscendingIncreases(mask, n - 1);
      var s := Ascending(mask, n - 1);
      forall i | 0 <= i < |s| ensures s[i] < n - 1 { assert s[i] in s; }
    }
  }

  // All lanes get the instruction at p.
  function Issued<G(!new)>(isa: Isa<G>, p: Pc, lanes: seq<Lane>, g: G): G
    decreases |lanes|
  {
    if lanes == [] then g
    else isa.exec(p, lanes[|lanes| - 1], Issued(isa, p, lanes[..|lanes| - 1], g))
  }

  // Each scheduled thread executes the instruction at its own PC.
  function Scheduled<G(!new)>(isa: Isa<G>, lanes: seq<Lane>, g: G): G
    decreases |lanes|
  {
    if lanes == [] then g
    else
      var h := Scheduled(isa, lanes[..|lanes| - 1], g);
      isa.exec(isa.pc(lanes[|lanes| - 1], h), lanes[|lanes| - 1], h)
  }

  // The i-th thread scheduled is live when its turn comes.
  ghost predicate LiveAt<G(!new)>(isa: Isa<G>, lanes: seq<Lane>, g: G, i: nat) {
    i < |lanes| && !isa.done(lanes[i], Scheduled(isa, lanes[..i], g))
  }

  // No finished thread is scheduled.
  ghost predicate LiveSchedule<G(!new)>(isa: Isa<G>, lanes: seq<Lane>, g: G) {
    forall i: nat | i < |lanes| :: LiveAt(isa, lanes, g, i)
  }

  // The i-th of these lanes executes the instruction at p in the i-th of these states.
  ghost predicate TakesTurn<G(!new)>(isa: Isa<G>, p: Pc, lanes: seq<Lane>, states: seq<G>, i: nat) {
    i < |lanes| && i + 1 < |states| && states[i + 1] == isa.exec(p, lanes[i], states[i])
  }

  // The lanes below n of the mask, the lowest first, each execute the instruction at p once, from g to h.
  ghost predicate InLaneOrder<G(!new)>(isa: Isa<G>, p: Pc, mask: set<Lane>, n: nat, g: G, h: G, lanes: seq<Lane>,
                                       states: seq<G>) {
    && Increasing(lanes) && (forall l: Lane :: l in lanes <==> l in mask && l < n)
    && |states| == |lanes| + 1 && states[0] == g && states[|lanes|] == h
    && forall i: nat | i < |lanes| :: TakesTurn(isa, p, lanes, states, i)
  }

  lemma OneMoreTurn<G(!new)>(isa: Isa<G>, p: Pc, mask: set<Lane>, n: nat, g: G, h: G, lanes: seq<Lane>, states: seq<G>,
                             f: G)
    requires n > 0 && n - 1 in mask && InLaneOrder(isa, p, mask, n - 1, g, h, lanes, states)
    requires f == isa.exec(p, n - 1, h)
    ensures InLaneOrder(isa, p, mask, n, g, f, lanes + [n - 1], states + [f])
  {
    var more, after := lanes + [n - 1], states + [f];
    forall i | 0 <= i < |lanes| ensures lanes[i] < n - 1 { assert lanes[i] in lanes; }
    forall i: nat | i < |more| ensures TakesTurn(isa, p, more, after, i) {
      if i < |lanes| { assert TakesTurn(isa, p, lanes, states, i); }
    }
    forall l: Lane ensures l in more <==> l in mask && l < n {}
  }

  lemma NoTurn<G(!new)>(isa: Isa<G>, p: Pc, mask: set<Lane>, n: nat, g: G, h: G, lanes: seq<Lane>, states: seq<G>)
    requires n > 0 && n - 1 !in mask && InLaneOrder(isa, p, mask, n - 1, g, h, lanes, states)
    ensures InLaneOrder(isa, p, mask, n, g, h, lanes, states)
  {
  }

  lemma OneMoreIssued<G(!new)>(isa: Isa<G>, p: Pc, mask: set<Lane>, n: nat, g: G)
    requires n > 0
    ensures var h := Issued(isa, p, Ascending(mask, n - 1), g);
            Issued(isa, p, Ascending(mask, n), g) == if n - 1 in mask then isa.exec(p, n - 1, h) else h
  {
    var s := Ascending(mask, n - 1);
    if n - 1 in mask {
      assert Ascending(mask, n) == s + [n - 1] && (s + [n - 1])[..|s|] == s;
    } else {
      assert Ascending(mask, n) == s;
    }
  }

  lemma {:induction false} IssuedInLaneOrder<G(!new)>(isa: Isa<G>, p: Pc, mask: set<Lane>, n: nat, g: G, f: G)
    returns (lanes: seq<Lane>, states: seq<G>)
    requires f == Issued(isa, p, Ascending(mask, n), g)
    ensures InLaneOrder(isa, p, mask, n, g, f, lanes, states)
  {
    if n == 0 {
      lanes, states := [], [g];
    } else {
      var h := Issued(isa, p, Ascending(mask, n - 1), g);
      lanes, states := IssuedInLaneOrder(isa, p, mask, n - 1, g, h);
      OneMoreIssued(isa, p, mask, n, g);
      if n - 1 in mask {
        OneMoreTurn(isa, p, mask, n, g, h, lanes, states, f);
        lanes, states := lanes + [n - 1], states + [f];
      } else {
        NoTurn(isa, p, mask, n, g, h, lanes, states);
      }
    }
  }

  /** The issue loop: the active lanes execute the instruction one after the other, the lowest first. */
  method ExecuteWarp<G(!new)>(isa: Isa<G>, p: Pc, mask: set<Lane>, warpSize: nat, g: G)
    returns (h: G, ghost lanes: seq<Lane>, ghost states: seq<G>)
    ensures InLaneOrder(isa, p, mask, warpSize, g, h, lanes, states)
    ensures h == Issued(isa, p, Ascending(mask, warpSize), g)
  {
    h := g;
    for t := 0 to warpSize
      invariant h == Issued(isa, p, Ascending(mask, t), g)
    {
      OneMoreIssued(isa, p, mask, t + 1, g);
      if t in mask { h := isa.exec(p, t, h); }
    }
    lanes, states := IssuedInLaneOrder(isa, p, mask, warpSize, g, h);
  }

  lemma {:induction false} AscendingPair(l: Lane, m: Lane, n: nat)
    requires l < m
    ensures Ascending({l, m}, n) == if n <= l then [] else if n <= m then [l] else [l, m]
  {
    if n == 0 {
    } else {
      AscendingPair(l, m, n - 1);
    }
  }

  /** Of two lanes the lower one executes first. */
  lemma TwoLanes<G(!new)>(isa: Isa<G>, p: Pc, l: Lane, m: Lane, n: nat, g: G)
    requires l < m < n
    ensures Issued(isa, p, Ascending({l, m}, n), g) == isa.exec(p, m, isa.exec(p, l, g))
  {
    AscendingPair(l, m, n);
    assert [l, m][..1] == [l] && [l][..0] == [];
    assert Issued(isa, p, [l], g) == isa.exec(p, l, g);
  }

  // The control state of lane l in h is what executing the instruction at p left, from a state where l was live at p
  // with the call stack cs.
  ghost predicate ExecutedFrom<G(!new)>(isa: Isa<G>, p: Pc, l: Lane, cs: seq<Pc>, f: G, h: G) {
    !isa.done(l, f) && isa.pc(l, f) == p && isa.calls(l, f) == cs && SameControl(isa, l, h, isa.exec(p, l, f))
  }

  ghost predicate Executed<G(!new)>(isa: Isa<G>, p: Pc, l: Lane, cs: seq<Pc>, h: G) {
    exists f: G :: ExecutedFrom(isa, p, l, cs, f, h)
  }

  // What a lane has done stays as it is when another executes.
  lemma StaysExecuted<G(!new)>(isa: Isa<G>, p: Pc, l: Lane, cs: seq<Pc>, x: Lane, f: G, h: G)
    requires Private(isa) && Executed(isa, p, l, cs, f) && x != l && h == isa.exec(p, x, f)
    ensures Executed(isa, p, l, cs, h)
  {
    var f0 :| ExecutedFrom(isa, p, l, cs, f0, f);
    assert SameControl(isa, l, h, f);
    assert ExecutedFrom(isa, p, l, cs, f0, h);
  }

  /** Lanes that are all live and at p: giving each the instruction at p is scheduling each of them once. */
  lemma {:induction false} IssueIsSchedule<G(!new)>(isa: Isa<G>, p: Pc, lanes: seq<Lane>, g: G)
    requires Private(isa) && Distinct(lanes)
    requires forall l | l in lanes :: !isa.done(l, g) && isa.pc(l, g) == p
    ensures Issued(isa, p, lanes, g) == Scheduled(isa, lanes, g)
    ensures var h := Issued(isa, p, lanes, g);
            && (forall l | l !in lanes :: SameControl(isa, l, h, g))
            && (forall l | l in lanes :: Executed(isa, p, l, isa.calls(l, g), h))
    ensures LiveSchedule(isa, lanes, g)
    decreases |lanes|
  {
    if lanes == [] {
    } else {
      var n := |lanes| - 1;
      var init, x := lanes[..n], lanes[n];
      IssueIsSchedule(isa, p, init, g);
      var f, h := Issued(isa, p, init, g), Issued(isa, p, lanes, g);
      assert x !in init;
      assert lanes == init + [x];
      assert SameControl(isa, x, f, g);
      forall l | l !in lanes ensures SameControl(isa, l, h, g) {
        assert SameControl(isa, l, h, f) && SameControl(isa, l, f, g);
      }
      forall l | l in lanes ensures Executed(isa, p, l, isa.calls(l, g), h) {
        if l == x {
          assert ExecutedFrom(isa, p, x, isa.calls(x, g), f, h);
        } else {
          StaysExecuted(isa, p, l, isa.calls(l, g), x, f, h);
        }
      }
      forall i: nat | i < |lanes| ensures LiveAt(isa, lanes, g, i) {
        if i < n {
          assert LiveAt(isa, init, g, i) && lanes[..i] == init[..i];
        } else {
          assert lanes[..i] == init;
        }
      }
    }
  }

  lemma {:induction false} ScheduleAppends<G(!new)>(isa: Isa<G>, a: seq<Lane>, b: seq<Lane>, g: G)
    ensures Scheduled(isa, a + b, g) == Scheduled(isa, b, Scheduled(isa, a, g))
    ensures forall l :: Scheduled(isa, [l], g) == isa.exec(isa.pc(l, g), l, g)
    decreases |b|
  {
    if b == [] {
      assert a + b == a;
    } else {
      var n := |b| - 1;
      assert (a + b)[..|a + b| - 1] == a + b[..n];
      ScheduleAppends(isa, a, b[..n], g);
    }
  }

  lemma LiveAppends<G(!new)>(isa: Isa<G>, a: seq<Lane>, b: seq<Lane>, g: G)
    requires LiveSchedule(isa, a, g) && LiveSchedule(isa, b, Scheduled(isa, a, g))
    ensures LiveSchedule(isa, a + b, g)
  {
    forall i: nat | i < |a + b| ensures LiveAt(isa, a + b, g, i) {
      if i < |a| {
        assert LiveAt(isa, a, g, i) && (a + b)[..i] == a[..i];
      } else {
        assert LiveAt(isa, b, Scheduled(isa, a, g), i - |a|) && (a + b)[..i] == a + b[..i - |a|];
        ScheduleAppends(isa, a, b[..i - |a|], g);
      }
    }
  }

  // ---------------------------------------------------------------------------------------------
  // The machine: fetch at the top, issue to its lanes, update the stack

  datatype Machine<G> = Machine(stack: seq<Entry>, g: G)

  ghost function Pcs<G(!new)>(isa: Isa<G>, n: nat, g: G): seq<Pc> {
    seq<Pc>(n, (l: nat) => isa.pc(l, g))
  }

  ghost function Finished<G(!new)>(isa: Isa<G>, active: set<Lane>, g: G): set<Lane> {
    set l | l in active && isa.done(l, g)
  }

  ghost function CallStacks<G(!new)>(isa: Isa<G>, n: nat, g: G): seq<seq<Pc>> {
    seq<seq<Pc>>(n, (l: nat) => isa.calls(l, g))
  }

  ghost function WarpOf<G(!new)>(isa: Isa<G>, active: set<Lane>, n: nat, m: Machine<G>): Warp {
    Warp(m.stack, Pcs(isa, n, m.g), Finished(isa, active, m.g))
  }

  ghost function IssueState<G(!new)>(isa: Isa<G>, n: nat, m: Machine<G>): G
    requires |m.stack| > 0
  {
    Issued(isa, Top(m.stack).pc, Ascending(Top(m.stack).mask, n), m.g)
  }

  ghost function EventOf<G(!new)>(isa: Isa<G>, code: Program, active: set<Lane>, n: nat, m: Machine<G>): Event
    requires WellLinked(code) && |m.stack| > 0
  {
    var h, p := IssueState(isa, n, m), Top(m.stack).pc;
    var done := Finished(isa, active, h);
    Event(Pcs(isa, n, h), done, RpcOf(code, p, active - done, CallStacks(isa, n, h)), OpOf(code, p))
  }

  // Whether the update's asserts hold.
  ghost predicate CanStep<G(!new)>(isa: Isa<G>, code: Program, active: set<Lane>, n: nat, m: Machine<G>)
    requires WellLinked(code)
  {
    && |m.stack| > 0
    && Legal(WarpOf(isa, active, n, m), EventOf(isa, code, active, n, m))
  }

  ghost function Step<G(!new)>(isa: Isa<G>, code: Program, active: set<Lane>, n: nat, m: Machine<G>): Machine<G>
    requires WellLinked(code) && CanStep(isa, code, active, n, m)
  {
    Machine(Next(WarpOf(isa, active, n, m), EventOf(isa, code, active, n, m)).stack, IssueState(isa, n, m))
  }

  ghost predicate MachineInv<G(!new)>(isa: Isa<G>, code: Program, active: set<Lane>, n: nat, m: Machine<G>,
                                      frames: seq<Frame>, stale: bool)
    requires WellLinked(code)
  {
    ProgramInv(code, WarpOf(isa, active, n, m), CallStacks(isa, n, m.g), active, frames, stale)
  }

  // Every lane of the top entry executes its own next instruction.
  lemma LanesExecute<G(!new)>(isa: Isa<G>, code: Program, active: set<Lane>, n: nat, m: Machine<G>, f: nat, j: nat,
                              stale: bool)
    requires WellLinked(code) && Private(isa)
    requires TopOk(code, WarpOf(isa, active, n, m), CallStacks(isa, n, m.g), f, j, stale)
    requires Top(m.stack).mask <= active
    ensures IssueState(isa, n, m) == Scheduled(isa, Ascending(Top(m.stack).mask, n), m.g)
    ensures LiveSchedule(isa, Ascending(Top(m.stack).mask, n), m.g)
    ensures forall l | l !in Top(m.stack).mask :: SameControl(isa, l, IssueState(isa, n, m), m.g)
    ensures forall l | l in Top(m.stack).mask :: l < n && !isa.done(l, m.g) &&
              Executed(isa, Top(m.stack).pc, l, isa.calls(l, m.g), IssueState(isa, n, m))
  {
    var w, top := WarpOf(isa, active, n, m), Top(m.stack);
    var lanes := Ascending(top.mask, n);
    AscendingIncreases(top.mask, n);
    forall l | l in top.mask ensures l < n && !isa.done(l, m.g) && isa.pc(l, m.g) == top.pc {
      assert w.pcs[l] == top.pc && l !in w.done;
    }
    IssueIsSchedule(isa, top.pc, lanes, m.g);
  }

  // What a lane does is a move of its function.
  lemma LaneFollows<G(!new)>(isa: Isa<G>, code: Program, f: nat, p: Pc, l: Lane, cs: seq<Pc>, h: G)
    requires WellLinked(code) && Obeys(isa, code) && f < |code.funcs| && p in code.funcs[f].loc
             && Executed(isa, p, l, cs, h)
    ensures isa.done(l, h) ==> FinishesIn(code, code.funcs[f], p, cs)
    ensures !isa.done(l, h) ==> MovesIn(code, code.funcs[f], p, cs, isa.pc(l, h), isa.calls(l, h))
  {
    var x :| ExecutedFrom(isa, p, l, cs, x, h);
    assert InProgram(code, p) && ObeysAt(isa, code, p, l, x);
    assert Follows(isa, code, p, l, isa.calls(l, x), isa.exec(p, l, x));
  }

  lemma IssueObserved<G(!new)>(isa: Isa<G>, code: Program, active: set<Lane>, n: nat, m: Machine<G>, f: nat,
                               top: Entry, h: G)
    requires WellLinked(code) && Obeys(isa, code) && |m.stack| > 0 && top == Top(m.stack) && h == IssueState(isa, n, m)
    requires f < |code.funcs| && top.pc in code.funcs[f].loc && top.mask <= active && Within(top.mask, n)
    requires forall l | l !in top.mask :: SameControl(isa, l, h, m.g)
    requires forall l | l in top.mask :: !isa.done(l, m.g) && Executed(isa, top.pc, l, isa.calls(l, m.g), h)
    ensures IssuesIn(code, f, WarpOf(isa, active, n, m), CallStacks(isa, n, m.g), active,
                     EventOf(isa, code, active, n, m),
                     CallStacks(isa, n, h))
  {
    var w, e := WarpOf(isa, active, n, m), EventOf(isa, code, active, n, m);
    var cs, cs' := CallStacks(isa, n, m.g), CallStacks(isa, n, h);
    RpcOfOk(code, f, top.pc, active - e.done, cs');
    forall l | l in Live(w, e) ensures l < |cs| && MovesIn(code, code.funcs[f], top.pc, cs[l], e.npc[l], cs'[l]) {
      LaneFollows(isa, code, f, top.pc, l, isa.calls(l, m.g), h);
    }
    forall l | l in e.done && l !in w.done ensures l < |cs| && FinishesIn(code, code.funcs[f], top.pc, cs[l]) {
      assert l in top.mask;
      LaneFollows(isa, code, f, top.pc, l, isa.calls(l, m.g), h);
    }
    forall l | l in w.done ensures l in e.done { assert l !in top.mask; }
  }

  // One step issues live lanes at their own PCs, and what they do is an issue of the program.
  lemma StepIssues<G(!new)>(isa: Isa<G>, code: Program, active: set<Lane>, n: nat, m: Machine<G>, frames: seq<Frame>,
                            stale: bool)
    returns (lanes: seq<Lane>)
    requires Sound(code) && Obeys(isa, code) && MachineInv(isa, code, active, n, m, frames, stale)
    requires Running(WarpOf(isa, active, n, m), active)
    ensures |m.stack| > 0
    ensures ProgramIssues(code, WarpOf(isa, active, n, m), CallStacks(isa, n, m.g), active,
                          EventOf(isa, code, active, n, m),
                          CallStacks(isa, n, IssueState(isa, n, m)))
    ensures IssueState(isa, n, m) == Scheduled(isa, lanes, m.g) && LiveSchedule(isa, lanes, m.g) && lanes != []
    ensures Increasing(lanes) && forall l: Lane :: l in lanes <==> l in Top(m.stack).mask
  {
    var w, f, j := WarpOf(isa, active, n, m), frames[|frames| - 1].f, |frames| - 1;
    TopIsReady(code, w, CallStacks(isa, n, m.g), active, frames, stale);
    var top := Top(m.stack);
    assert top.mask <= active && top.mask != {};
    LanesExecute(isa, code, active, n, m, f, j, stale && |frames| == 1);
    IssueObserved(isa, code, active, n, m, f, top, IssueState(isa, n, m));
    lanes := Ascending(top.mask, n);
    AscendingIncreases(top.mask, n);
    var l :| l in top.mask;
    assert l in lanes;
  }

  // From m the machine steps to r: the lanes of the top entry take their turns, the lowest first.
  ghost predicate StepTaken<G(!new)>(isa: Isa<G>, code: Program, active: set<Lane>, n: nat, m: Machine<G>,
                                     lanes: seq<Lane>, r: Machine<G>)
    requires WellLinked(code)
  {
    && CanStep(isa, code, active, n, m) && r == Step(isa, code, active, n, m)
    && lanes != [] && Increasing(lanes) && (forall l: Lane :: l in lanes <==> l in Top(m.stack).mask)
    && r.g == Scheduled(isa, lanes, m.g)
  }

  ghost predicate StepAt<G(!new)>(isa: Isa<G>, code: Program, active: set<Lane>, n: nat, ms: seq<Machine<G>>,
                                  turns: seq<seq<Lane>>, i: nat)
    requires WellLinked(code)
  {
    i < |turns| && i + 1 < |ms| && StepTaken(isa, code, active, n, ms[i], turns[i], ms[i + 1])
  }

  // The machines that m comes to, step by step, and whose turn it is in each step.
  ghost predicate History<G(!new)>(isa: Isa<G>, code: Program, active: set<Lane>, n: nat, m: Machine<G>, r: Machine<G>,
                                   ms: seq<Machine<G>>, turns: seq<seq<Lane>>)
    requires WellLinked(code)
  {
    && |ms| == |turns| + 1 && ms[0] == m && ms[|turns|] == r
    && forall i: nat | i < |turns| :: StepAt(isa, code, active, n, ms, turns, i)
  }

  // One step after the other.
  function InSteps(turns: seq<seq<Lane>>): seq<Lane> {
    if turns == [] then [] else turns[0] + InSteps(turns[1..])
  }

  lemma StepsMore(lanes: seq<Lane>, turns: seq<seq<Lane>>)
    ensures InSteps([lanes] + turns) == lanes + InSteps(turns)
  {
    assert ([lanes] + turns)[1..] == turns;
  }

  lemma StepAtMore<G(!new)>(isa: Isa<G>, code: Program, active: set<Lane>, n: nat, m: Machine<G>, lanes: seq<Lane>,
                            ms: seq<Machine<G>>, turns: seq<seq<Lane>>, i: nat)
    requires WellLinked(code) && i < |turns| && StepAt(isa, code, active, n, ms, turns, i)
    ensures StepAt(isa, code, active, n, [m] + ms, [lanes] + turns, i + 1)
  {
    var more, after := [lanes] + turns, [m] + ms;
    assert more[i + 1] == turns[i] && after[i + 1] == ms[i] && after[i + 2] == ms[i + 1];
  }

  lemma HistoryMore<G(!new)>(isa: Isa<G>, code: Program, active: set<Lane>, n: nat, m: Machine<G>, lanes: seq<Lane>,
                             f: Machine<G>, r: Machine<G>, ms: seq<Machine<G>>, turns: seq<seq<Lane>>)
    requires WellLinked(code) && StepTaken(isa, code, active, n, m, lanes, f)
    requires History(isa, code, active, n, f, r, ms, turns)
    ensures History(isa, code, active, n, m, r, [m] + ms, [lanes] + turns)
  {
    forall i: nat | i < |turns| + 1 ensures StepAt(isa, code, active, n, [m] + ms, [lanes] + turns, i) {
      if i > 0 { StepAtMore(isa, code, active, n, m, lanes, ms, turns, i - 1); }
    }
  }

  // The machine has the invariant, for some division of its stack into frames.
  ghost predicate Sustained<G(!new)>(isa: Isa<G>, code: Program, active: set<Lane>, n: nat, m: Machine<G>)
    requires WellLinked(code)
  {
    exists frames, stale :: MachineInv(isa, code, active, n, m, frames, stale)
  }

  // One step: the machine can take it, keeps its invariant, and advances by a live schedule.
  lemma OneStep<G(!new)>(isa: Isa<G>, code: Program, active: set<Lane>, n: nat, m: Machine<G>)
    returns (next: Machine<G>, lanes: seq<Lane>)
    requires Sound(code) && Obeys(isa, code) && Sustained(isa, code, active, n, m)
    requires Running(WarpOf(isa, active, n, m), active)
    ensures StepTaken(isa, code, active, n, m, lanes, next) && LiveSchedule(isa, lanes, m.g)
    ensures Sustained(isa, code, active, n, next)
  {
    var frames, stale :| MachineInv(isa, code, active, n, m, frames, stale);
    lanes := StepIssues(isa, code, active, n, m, frames, stale);
    var w, e := WarpOf(isa, active, n, m), EventOf(isa, code, active, n, m);
    var cs, cs' := CallStacks(isa, n, m.g), CallStacks(isa, n, IssueState(isa, n, m));
    var frames', stale' := IssueKeepsProgramInv(code, w, cs, active, frames, stale, e, cs');
    next := Step(isa, code, active, n, m);
    assert WarpOf(isa, active, n, next) == Next(w, e);
    assert MachineInv(isa, code, active, n, next, frames', stale');
  }

  // In these steps, as many as `count` unless all lanes finish before, the machine m comes to r. It has computed what
  // the schedule of live threads computes that goes through the steps, and it can go on if a lane lives.
  ghost predicate Scheduling<G(!new)>(isa: Isa<G>, code: Program, active: set<Lane>, n: nat, m: Machine<G>,
                                      r: Machine<G>, ms: seq<Machine<G>>, turns: seq<seq<Lane>>, count: nat)
    requires WellLinked(code)
  {
    && History(isa, code, active, n, m, r, ms, turns) && |turns| <= count
    && r.g == Scheduled(isa, InSteps(turns), m.g) && LiveSchedule(isa, InSteps(turns), m.g)
    && (Running(WarpOf(isa, active, n, r), active) ==> |turns| == count && CanStep(isa, code, active, n, r))
  }

  lemma SchedulingMore<G(!new)>(isa: Isa<G>, code: Program, active: set<Lane>, n: nat, m: Machine<G>, lanes: seq<Lane>,
                                f: Machine<G>, r: Machine<G>, ms: seq<Machine<G>>, turns: seq<seq<Lane>>, count: nat)
    requires WellLinked(code) && StepTaken(isa, code, active, n, m, lanes, f) && LiveSchedule(isa, lanes, m.g)
    requires Scheduling(isa, code, active, n, f, r, ms, turns, count)
    ensures Scheduling(isa, code, active, n, m, r, [m] + ms, [lanes] + turns, count + 1)
  {
    HistoryMore(isa, code, active, n, m, lanes, f, r, ms, turns);
    StepsMore(lanes, turns);
    ScheduleAppends(isa, lanes, InSteps(turns), m.g);
    LiveAppends(isa, lanes, InSteps(turns), m.g);
  }

  /** For every program, instruction set and number of steps: the machine goes on as long as a lane lives (no assert of
      the stack fires), and what it has computed is what a schedule of independent, unfinished threads computes. In each
      step it is the turn of the lanes of the top entry, the lowest first. */
  lemma {:induction false} StepsAreSchedule<G(!new)>(isa: Isa<G>, code: Program, active: set<Lane>, n: nat,
                                                     m: Machine<G>, count: nat)
    returns (r: Machine<G>, ms: seq<Machine<G>>, turns: seq<seq<Lane>>)
    requires Sound(code) && Obeys(isa, code) && Sustained(isa, code, active, n, m)
    ensures Scheduling(isa, code, active, n, m, r, ms, turns, count)
    decreases count
  {
    r, ms, turns := m, [m], [];
    if Running(WarpOf(isa, active, n, m), active) {
      var next, lanes := OneStep(isa, code, active, n, m);
      if count == 0 {
      } else {
        r, ms, turns := StepsAreSchedule(isa, code, active, n, next, count - 1);
        SchedulingMore(isa, code, active, n, m, lanes, next, r, ms, turns, count - 1);
        ms, turns := [m] + ms, [lanes] + turns;
      }
    }
  }

  /** Lock step refines independent threads: from the launch of any warp at the kernel's entry on, any number of steps
      computes what a schedule of independent live threads computes, and while a thread lives the machine can go on: no
      assert fires. The schedule goes step by step through the lanes of the top entry, the lowest first. */
  lemma LockStepRefinesThreads<G(!new)>(isa: Isa<G>, code: Program, active: set<Lane>, n: nat, g: G, count: nat)
    returns (r: Machine<G>, ms: seq<Machine<G>>, turns: seq<seq<Lane>>)
    requires Sound(code) && Obeys(isa, code) && active != {} && Within(active, n)
    requires forall l | l in active :: isa.pc(l, g) == code.funcs[0].entry && !isa.done(l, g)
    requires forall l | 0 <= l < n :: isa.calls(l, g) == []
    ensures var m := Machine([Entry(code.funcs[0].entry, active, NULL_PC, Normal)], g);
            && History(isa, code, active, n, m, r, ms, turns) && |turns| <= count
            && r.g == Scheduled(isa, InSteps(turns), g) && LiveSchedule(isa, InSteps(turns), g)
            && (Running(WarpOf(isa, active, n, r), active) ==> |turns| == count && CanStep(isa, code, active, n, r))
  {
    var k := code.funcs[0];
    var m := Machine([Entry(k.entry, active, NULL_PC, Normal)], g);
    var w := WarpOf(isa, active, n, m);
    assert KernelInv(k, w, active, false) by {
      assert PcPath(k, [k.entry]);
      forall l | l in active ensures Held(w.stack, l) { assert l in w.stack[0].mask; }
    }
    AloneInv(code, w, CallStacks(isa, n, g), active, false);
    assert MachineInv(isa, code, active, n, m, [Frame(0, w.stack)], false);
    r, ms, turns := StepsAreSchedule(isa, code, active, n, m, count);
  }

  // ---------------------------------------------------------------------------------------------
  // Arbitrary instructions, with calls

  ghost function Lanes(n: nat): (all: set<Lane>)
    ensures forall l: Lane :: l in all <==> l < n
  {
    if n == 0 then {} else Lanes(n - 1) + {n - 1}
  }

  // What the issue at the top entry does, for an instruction of kind e.op with reconvergence PC e.rpc.
  ghost predicate Observes<G(!new)>(isa: Isa<G>, n: nat, m: Machine<G>, e: Event) {
    && |m.stack| > 0 && e.npc == Pcs(isa, n, IssueState(isa, n, m))
       && e.done == Finished(isa, Lanes(n), IssueState(isa, n, m))
    && Legal(WarpOf(isa, Lanes(n), n, m), e)
  }

  ghost function Stepped<G(!new)>(isa: Isa<G>, n: nat, m: Machine<G>, e: Event): (r: Machine<G>)
    requires Observes(isa, n, m, e)
    ensures WarpOf(isa, Lanes(n), n, r) == Next(WarpOf(isa, Lanes(n), n, m), e)
  {
    Machine(Next(WarpOf(isa, Lanes(n), n, m), e).stack, IssueState(isa, n, m))
  }

  // A run of the machine, seen from the stack.
  ghost predicate MachineRun<G(!new)>(isa: Isa<G>, n: nat, m: Machine<G>, es: seq<Event>)
    decreases |es|
  {
    es != [] ==> Observes(isa, n, m, es[0]) && MachineRun(isa, n, Stepped(isa, n, m, es[0]), es[1..])
  }

  ghost function Ran<G(!new)>(isa: Isa<G>, n: nat, m: Machine<G>, es: seq<Event>): Machine<G>
    requires MachineRun(isa, n, m, es)
    decreases |es|
  {
    if es == [] then m else Ran(isa, n, Stepped(isa, n, m, es[0]), es[1..])
  }

  lemma {:induction false} MachineRunIsLegal<G(!new)>(isa: Isa<G>, n: nat, m: Machine<G>, es: seq<Event>)
    requires MachineRun(isa, n, m, es)
    ensures LegalRun(WarpOf(isa, Lanes(n), n, m), es)
    decreases |es|
  {
    if es == [] {
    } else {
      MachineRunIsLegal(isa, n, Stepped(isa, n, m, es[0]), es[1..]);
    }
  }

  // One step of the machine is a turn of each lane of the top entry.
  lemma TopIsScheduled<G(!new)>(isa: Isa<G>, n: nat, m: Machine<G>, active: set<Lane>) returns (lanes: seq<Lane>)
    requires Private(isa) && |m.stack| > 0 && Inv(WarpOf(isa, Lanes(n), n, m), active)
    requires Clean(m.stack, Finished(isa, Lanes(n), m.g))
    ensures IssueState(isa, n, m) == Scheduled(isa, lanes, m.g) && LiveSchedule(isa, lanes, m.g) && lanes != []
    ensures Increasing(lanes)
  {
    var w, top := WarpOf(isa, Lanes(n), n, m), Top(m.stack);
    lanes := Ascending(top.mask, n);
    AscendingIncreases(top.mask, n);
    forall l | l in lanes ensures !isa.done(l, m.g) && isa.pc(l, m.g) == top.pc {
      assert Topmost(m.stack, l, |m.stack| - 1) && l in Lanes(n) && l !in w.done;
      assert w.pcs[l] == top.pc;
    }
    IssueIsSchedule(isa, top.pc, lanes, m.g);
    var l :| l in top.mask;
    assert l in lanes;
  }

  lemma {:induction false} RunIsSchedule<G(!new)>(isa: Isa<G>, n: nat, m: Machine<G>, w: Warp, active: set<Lane>,
                                                  es: seq<Event>)
    returns (turns: seq<seq<Lane>>)
    requires Private(isa) && MachineRun(isa, n, m, es) && w == WarpOf(isa, Lanes(n), n, m)
    requires LegalRun(w, es) && PostDominatedRun(w, es) && CleanRun(w, es) && Inv(w, active) && Clean(w.stack, w.done)
    ensures Ran(isa, n, m, es).g == Scheduled(isa, InSteps(turns), m.g) && LiveSchedule(isa, InSteps(turns), m.g)
    ensures |turns| == |es| && forall i | 0 <= i < |turns| :: turns[i] != [] && Increasing(turns[i])
    decreases |es|
  {
    if es == [] {
      turns := [];
    } else {
      var lanes := TopIsScheduled(isa, n, m, active);
      var next := Stepped(isa, n, m, es[0]);
      NextKeepsInv(w, es[0], active);
      StepKeepsClean(w, es[0]);
      turns := RunIsSchedule(isa, n, next, Next(w, es[0]), active, es[1..]);
      ScheduleAppends(isa, lanes, InSteps(turns), m.g);
      LiveAppends(isa, lanes, InSteps(turns), m.g);
      StepsMore(lanes, turns);
      turns := [lanes] + turns;
    }
  }

  /** With calls and arbitrary reconvergence PCs: every run from a launch in which splits are post-dominated and lanes
      finish alone computes what a schedule of independent live threads computes. */
  lemma RunsRefineThreads<G(!new)>(isa: Isa<G>, start: Pc, active: set<Lane>, n: nat, g: G, es: seq<Event>)
    returns (turns: seq<seq<Lane>>)
    requires Private(isa) && active != {} && Within(active, n)
    requires forall l | l in active :: isa.pc(l, g) == start && !isa.done(l, g)
    requires MachineRun(isa, n, Machine([Entry(start, active, NULL_PC, Normal)], g), es)
    requires var w := WarpOf(isa, Lanes(n), n, Machine([Entry(start, active, NULL_PC, Normal)], g));
             LegalRun(w, es) ==> PostDominatedRun(w, es) && CleanRun(w, es)
    ensures Ran(isa, n, Machine([Entry(start, active, NULL_PC, Normal)], g), es).g ==
            Scheduled(isa, InSteps(turns), g)
    ensures LiveSchedule(isa, InSteps(turns), g)
    ensures |turns| == |es| && forall i | 0 <= i < |turns| :: turns[i] != [] && Increasing(turns[i])
  {
    var m := Machine([Entry(start, active, NULL_PC, Normal)], g);
    var w := WarpOf(isa, Lanes(n), n, m);
    assert Inv(w, active) by {
      forall l | l in active ensures Held(w.stack, l) { assert l in w.stack[0].mask; }
    }
    MachineRunIsLegal(isa, n, m, es);
    turns := RunIsSchedule(isa, n, m, w, active, es);
  }
}
