/**
  Programs: a kernel and the functions it calls, and what one thread of them does. A thread has a PC and a call stack of
  return PCs (`callstack_push`, `callstack_pop` in gpgpu-sim/cuda-sim/ptx_sim.cc).
 */
module Programs {
  import opened SimtStack
  import opened PostDominators
  import opened Kernels

  // The function called, and the instruction after the call.
  datatype CallSite = CallSite(callee: nat, after: Pc)

  /** Functions, the kernel first, with the PCs of their calls, which are unguarded, and of their rets. */
  datatype Program = Program(funcs: seq<Kernel>, calls: map<Pc, CallSite>, rets: set<Pc>)

  // Where lanes reconverge only at the exit there is one way on: no split needs the return PC, and every ret is
  // unguarded.
  ghost predicate NeverDividesForGood(k: Kernel)
    requires LayoutOk(k)
  {
    forall b, s, t | 0 <= b < |k.code| - 1 && k.ipdom[b] == Exit(k.graph) && s in k.graph[b] && t in k.graph[b] ::
      s == t
  }

  // A call sits in a function, calls a function other than the kernel, and goes on with one instruction.
  ghost predicate CallSiteOk(k: Kernel, p: Pc, site: CallSite, n: nat)
    requires LayoutOk(k)
  {
    && 1 <= site.callee < n && May(k, p, site.after) && !MayFinish(k, p)
    && forall q | May(k, p, q) :: q == site.after
  }

  ghost predicate AllValid(g: Program) {
    forall f | 0 <= f < |g.funcs| :: Valid(g.funcs[f])
  }

  // An instruction belongs to one function.
  ghost predicate PcsApart(g: Program) {
    forall f, h, p | 0 <= f < |g.funcs| && 0 <= h < |g.funcs| && p in g.funcs[f].loc && p in g.funcs[h].loc :: f == h
  }

  ghost predicate CallSitesOk(g: Program)
    requires AllValid(g)
  {
    forall f, p | 0 <= f < |g.funcs| && p in g.funcs[f].loc && p in g.calls ::
      CallSiteOk(g.funcs[f], p, g.calls[p], |g.funcs|)
  }

  ghost predicate RetsOk(g: Program)
    requires AllValid(g)
  {
    forall f, p | 0 <= f < |g.funcs| && p in g.funcs[f].loc && p in g.rets :: MayFinish(g.funcs[f], p)
  }

  ghost predicate WellLinked(g: Program) {
    |g.funcs| > 0 && AllValid(g) && PcsApart(g) && CallSitesOk(g) && RetsOk(g)
  }

  // A function that threads leave only by ret.
  ghost predicate LeavesByRet(g: Program, k: Kernel)
    requires LayoutOk(k)
  {
    forall p | MayFinish(k, p) :: p in g.rets
  }

  /** What keeps finished lanes from being issued: in the kernel no split towards the exit leads to its return PC, and
      called functions never divide their lanes for good and have no exit instruction. */
  ghost predicate Sound(g: Program) {
    && WellLinked(g) && ReturnPcUnreached(g.funcs[0])
    && forall f | 1 <= f < |g.funcs| :: NeverDividesForGood(g.funcs[f]) && LeavesByRet(g, g.funcs[f])
  }

  lemma NeverDividesNeverReturnsThere(k: Kernel)
    requires LayoutOk(k) && NeverDividesForGood(k)
    ensures ReturnPcUnreached(k)
  {
  }

  // ---------------------------------------------------------------------------------------------
  // One thread

  // What a thread at p in function k, with the call stack cs, may do next.
  ghost predicate MovesIn(g: Program, k: Kernel, p: Pc, cs: seq<Pc>, q: Pc, cs': seq<Pc>)
    requires LayoutOk(k)
  {
    if p in g.calls then
      g.calls[p].callee < |g.funcs| && q == g.funcs[g.calls[p].callee].entry && cs' == cs + [g.calls[p].after]
    else
      || (May(k, p, q) && cs' == cs)
      || (cs != [] && p in g.rets && q == cs[|cs| - 1] && cs' == cs[..|cs| - 1])
  }

  // It finishes at an exit, and at a ret if no call is in progress.
  ghost predicate FinishesIn(g: Program, k: Kernel, p: Pc, cs: seq<Pc>)
    requires LayoutOk(k)
  {
    p !in g.calls && MayFinish(k, p) && (p in g.rets ==> cs == [])
  }

  ghost predicate Moves(g: Program, p: Pc, cs: seq<Pc>, q: Pc, cs': seq<Pc>)
    requires WellLinked(g)
  {
    exists f :: 0 <= f < |g.funcs| && p in g.funcs[f].loc && MovesIn(g, g.funcs[f], p, cs, q, cs')
  }

  ghost predicate Finishes(g: Program, p: Pc, cs: seq<Pc>)
    requires WellLinked(g)
  {
    exists f :: 0 <= f < |g.funcs| && p in g.funcs[f].loc && FinishesIn(g, g.funcs[f], p, cs)
  }

  // ---------------------------------------------------------------------------------------------
  // What the stack is told of an instruction

  function OpOf(g: Program, p: Pc): Op {
    if p in g.calls then CallOp else if p in g.rets then RetOp else OtherOp
  }

  // A bra whose lanes reconverge only at the exit.
  ghost predicate AsksForReturnPc(k: Kernel, p: Pc)
    requires LayoutOk(k)
  {
    p in k.loc && AtEnd(k, p) && BlockOf(k, p) in k.branch && k.ipdom[BlockOf(k, p)] == Exit(k.graph)
  }

  lemma AnswerIsReturnPc(k: Kernel, p: Pc)
    requires Valid(k) && AsksForReturnPc(k, p)
    ensures Rpc(k, p) == k.ret
  {
    assert InCode(k, p, BlockOf(k, p), k.loc[p].1);
    assert forall c | 0 <= c < |k.code| - 1 :: Immediate(k.graph, k.ipdom[c], c);
    ConvergePointOf(k, p, 0);
  }

  // `get_return_PC`; with nothing on the call stack it is that of a blank entry.
  function ReturnPc(g: Program, cs: seq<Pc>): Pc
    requires |g.funcs| > 0
  {
    if cs == [] then g.funcs[0].ret else cs[|cs| - 1]
  }

  // The first lane that lives.
  ghost predicate First(live: set<Lane>, n: nat, l: Lane) {
    l in live && l < n && forall m | m in live :: l <= m
  }

  // The reconvergence PC is the table's answer, or else the return PC of the first lane of the warp that lives.
  ghost predicate RpcOk(g: Program, k: Kernel, p: Pc, live: set<Lane>, cs: seq<seq<Pc>>, rpc: Pc)
    requires |g.funcs| > 0 && Valid(k)
  {
    if AsksForReturnPc(k, p) then
      forall l: Lane | First(live, |cs|, l) :: rpc == ReturnPc(g, cs[l])
    else rpc == Rpc(k, p)
  }

  // That reconvergence PC.
  ghost function RpcOf(g: Program, p: Pc, live: set<Lane>, cs: seq<seq<Pc>>): Pc
    requires WellLinked(g)
  {
    if exists f: nat :: f < |g.funcs| && p in g.funcs[f].loc then
      var f: nat :| f < |g.funcs| && p in g.funcs[f].loc;
      if !AsksForReturnPc(g.funcs[f], p) then Rpc(g.funcs[f], p)
      else if exists l: Lane :: First(live, |cs|, l) then
        var l: Lane :| First(live, |cs|, l);
        ReturnPc(g, cs[l])
      else NULL_PC
    else NULL_PC
  }

  lemma RpcOfOk(g: Program, f: nat, p: Pc, live: set<Lane>, cs: seq<seq<Pc>>)
    requires WellLinked(g) && f < |g.funcs| && p in g.funcs[f].loc
    ensures RpcOk(g, g.funcs[f], p, live, cs, RpcOf(g, p, live, cs))
  {
    if AsksForReturnPc(g.funcs[f], p) {
      forall l: Lane | First(live, |cs|, l) ensures RpcOf(g, p, live, cs) == ReturnPc(g, cs[l]) {}
    }
  }
}
