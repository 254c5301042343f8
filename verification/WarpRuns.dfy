/**
  Whole runs of a warp from its launch: arbitrary instructions, then kernels.
 */
module WarpRuns {
  import opened SimtStack
  import opened WarpInvariants
  import opened LaminarDepth
  import opened PostDominators
  import opened Kernels
  import opened KernelRuns

  // `simt_stack::launch` for the lanes `active` of a warp of n lanes.
  ghost function Launched(start: Pc, active: set<Lane>, n: nat): Warp {
    Warp([Entry(start, active, NULL_PC, Normal)], seq(n, _ => start), {})
  }

  ghost predicate LegalRun(w: Warp, es: seq<Event>)
    decreases |es|
  {
    es != [] ==> Legal(w, es[0]) && LegalRun(Next(w, es[0]), es[1..])
  }

  ghost function After(w: Warp, es: seq<Event>): Warp
    requires LegalRun(w, es)
    decreases |es|
  {
    if es == [] then w else After(Next(w, es[0]), es[1..])
  }

  // Every split's reconvergence PC is good.
  ghost predicate PostDominatedRun(w: Warp, es: seq<Event>)
    requires LegalRun(w, es)
    decreases |es|
  {
    es != [] ==> PostDominates(w, es[0]) && PostDominatedRun(Next(w, es[0]), es[1..])
  }

  lemma {:induction false} RunKeepsInv(w: Warp, es: seq<Event>, active: set<Lane>)
    requires LegalRun(w, es) && PostDominatedRun(w, es) && Inv(w, active)
    ensures Inv(After(w, es), active)
    decreases |es|
  {
    if es == [] {
    } else {
      NextKeepsInv(w, es[0], active);
      RunKeepsInv(Next(w, es[0]), es[1..], active);
    }
  }

  /** Lock step is faithful and no lane is lost, in every run with calls and returns whose splits are
      post-dominated: every lane that lives is held by some entry and at the PC of the topmost one, so that the lanes of
      the top entry are at the PC that will be fetched. */
  lemma LaunchRunsInLockStep(start: Pc, active: set<Lane>, n: nat, es: seq<Event>)
    requires active != {} && Within(active, n)
    requires LegalRun(Launched(start, active, n), es) && PostDominatedRun(Launched(start, active, n), es)
    ensures var w := After(Launched(start, active, n), es);
            && (forall l | l in active && l !in w.done :: Held(w.stack, l))
            && LockStep(w.stack, w.pcs, w.done)
            && (|w.stack| > 0 ==>
                 forall l | l in Top(w.stack).mask && l !in w.done :: l < |w.pcs| && w.pcs[l] == Top(w.stack).pc)
            && (forall k | 0 <= k < |w.stack| && w.stack[k].kind == Normal && w.stack[k].recvg != NULL_PC ::
                  exists j :: JoinsAt(w.stack, k, j))
  {
    var w0 := Launched(start, active, n);
    assert Inv(w0, active) by {
      forall l | l in active ensures Held(w0.stack, l) { assert l in w0.stack[0].mask; }
    }
    RunKeepsInv(w0, es, active);
    var w := After(w0, es);
    if |w.stack| > 0 {
      forall l | l in Top(w.stack).mask && l !in w.done ensures l < |w.pcs| && w.pcs[l] == Top(w.stack).pc {
        assert Topmost(w.stack, l, |w.stack| - 1);
      }
    }
  }

  lemma {:induction false} RunKeepsShape(w: Warp, es: seq<Event>)
    requires LegalRun(w, es) && Shape(w)
    ensures Shape(After(w, es)) && |After(w, es).pcs| == |w.pcs|
    decreases |es|
  {
    if es == [] {
    } else {
      NextKeepsShape(w, es[0]);
      RunKeepsShape(Next(w, es[0]), es[1..]);
    }
  }

  /** Masks stay laminar and depth stays bounded in every run, wherever the lanes go: at most 2n - 1 entries
      besides the CALL entries. */
  lemma LaunchRunsBounded(start: Pc, active: set<Lane>, n: nat, es: seq<Event>)
    requires active != {} && Within(active, n) && LegalRun(Launched(start, active, n), es)
    ensures var w := After(Launched(start, active, n), es);
            Laminar(w.stack) && |w.stack| <= 2 * n - 1 + Count(w.stack, Call)
  {
    var w0 := Launched(start, active, n);
    RunKeepsShape(w0, es);
    var l :| l in active;
    if |After(w0, es).stack| > 0 { DepthBound(After(w0, es)); }
  }

  // ---------------------------------------------------------------------------------------------
  // Reconvergence entries resurface unchanged

  ghost predicate CallFree(es: seq<Event>) {
    forall i | 0 <= i < |es| :: es[i].op == OtherOp
  }

  // The stack is higher than d + 1 entries before every event of the run.
  ghost predicate StaysAbove(w: Warp, es: seq<Event>, d: nat)
    requires LegalRun(w, es)
    decreases |es|
  {
    es != [] ==> |w.stack| > d + 1 && StaysAbove(Next(w, es[0]), es[1..], d)
  }

  // Up to entry d, two stacks have the same masks, and below it they are the same.
  ghost predicate SameUpTo(a: seq<Entry>, b: seq<Entry>, d: nat) {
    |a| > d && |b| > d && a[d].mask == b[d].mask && forall i | 0 <= i < d :: a[i] == b[i]
  }

  lemma StepKeepsBelow(w: Warp, e: Event, d: nat)
    requires Legal(w, e) && |w.stack| > d + 1 && |Next(w, e).stack| > d
    ensures SameUpTo(Next(w, e).stack, w.stack, d)
    ensures e.op == OtherOp ==> Next(w, e).stack[d] == w.stack[d]
  {
    if e.op == CallOp && Live(w, e) != {} {
      UniformOneGroup(Live(w, e), e.npc);
    } else if ReturnStep(w, e) {
      var n := |w.stack| - 1;
      assert Next(w, e).stack == Returned(w.stack[..n], Groups(Live(w, e), e.npc)[0].pc);
    } else {
      var f := if OrdinaryStep(w, e) then e else e.(op := OtherOp);
      assert Next(w, f) == Next(w, e);
      var c := OrdinaryReplacesTop(w, f);
    }
  }

  /** As long as something lies above entry d, the mask of that entry does not change, and neither does anything below
      it: when a reconvergence entry resurfaces its mask is what it was at the split. Without calls, the whole entry
      is. */
  lemma {:induction false} ResurfacesUnchanged(w: Warp, es: seq<Event>, d: nat)
    requires LegalRun(w, es) && StaysAbove(w, es, d) && |w.stack| > d && |After(w, es).stack| > d
    ensures SameUpTo(After(w, es).stack, w.stack, d)
    ensures CallFree(es) ==> After(w, es).stack[d] == w.stack[d]
    decreases |es|
  {
    if es == [] {
    } else {
      StepKeepsBelow(w, es[0], d);
      ResurfacesUnchanged(Next(w, es[0]), es[1..], d);
    }
  }

  // ---------------------------------------------------------------------------------------------
  // Finished lanes

  // No entry holds a finished lane, so none can be issued.
  ghost predicate Clean(stack: seq<Entry>, done: set<Lane>) {
    forall k | 0 <= k < |stack| :: stack[k].mask !! done
  }

  // Lanes finish only when no lower entry holds them and the top entry does not stay to wait for the others.
  ghost predicate FinishesAlone(w: Warp, e: Event)
    requires Legal(w, e)
  {
    e.done != w.done ==>
      && (forall l, k | l in e.done && l !in w.done && 0 <= k < |w.stack| - 1 :: l !in w.stack[k].mask)
      && !(Splits(Groups(Live(w, e), e.npc), Top(w.stack)) && e.rpc != Top(w.stack).recvg)
  }

  lemma AloneIsClean(stack: seq<Entry>, s: seq<Entry>, c: Change, done: set<Lane>, done': set<Lane>)
    requires ReplacesTop(stack, s, c) && Clean(stack, done) && c.live == Top(stack).mask - done'
    requires done != done' ==>
               !c.kept && forall l, k | l in done' && l !in done && 0 <= k < |stack| - 1 :: l !in stack[k].mask
    ensures Clean(s, done')
  {
    forall k | 0 <= k < |s| ensures s[k].mask !! done' {
      if k < |stack| - 1 { assert s[k] == stack[k]; }
    }
  }

  lemma CleanIsAlone(stack: seq<Entry>, s: seq<Entry>, c: Change, done: set<Lane>, done': set<Lane>)
    requires ReplacesTop(stack, s, c) && Clean(s, done') && done <= done' <= done + Top(stack).mask && done != done'
    ensures !c.kept && forall l, k | l in done' && l !in done && 0 <= k < |stack| - 1 :: l !in stack[k].mask
  {
    var l :| l in done' && l !in done;
    forall x, k | x in done' && x !in done && 0 <= k < |stack| - 1 ensures x !in stack[k].mask {
      assert s[k] == stack[k];
    }
  }

  /** An ordinary update leaves finished lanes in the stack exactly if some lane does not finish alone. */
  lemma CleanExactly(w: Warp, e: Event)
    requires OrdinaryStep(w, e) && Clean(w.stack, w.done)
    ensures Clean(Next(w, e).stack, e.done) <==> FinishesAlone(w, e)
  {
    var c := OrdinaryReplacesTop(w, e);
    var s := Next(w, e).stack;
    assert c.kept == (c.split && e.rpc != Top(w.stack).recvg);
    if FinishesAlone(w, e) { AloneIsClean(w.stack, s, c, w.done, e.done); }
    if Clean(s, e.done) && e.done != w.done { CleanIsAlone(w.stack, s, c, w.done, e.done); }
  }

  // A call or a return of lanes that live.
  ghost predicate CallsOrReturns(w: Warp, e: Event)
    requires Legal(w, e)
  {
    Live(w, e) != {} && (e.op == CallOp || (e.op == RetOp && Top(w.stack).kind == Call))
  }

  // Lanes finish alone, and in calls and returns none finishes.
  ghost predicate FinishesClean(w: Warp, e: Event)
    requires Legal(w, e)
  {
    if CallsOrReturns(w, e) then e.done == w.done else FinishesAlone(w, e)
  }

  lemma CallCleanExactly(w: Warp, e: Event)
    requires Legal(w, e) && CallsOrReturns(w, e) && e.op == CallOp && Clean(w.stack, w.done)
    ensures Clean(Next(w, e).stack, e.done) <==> e.done == w.done
  {
    UniformOneGroup(Live(w, e), e.npc);
    var s, n := Next(w, e).stack, |w.stack| - 1;
    if l :| l in e.done && l !in w.done { assert l in s[n].mask; }
  }

  lemma ReturnedClean(stack: seq<Entry>, s: seq<Entry>, c: int, p: Pc, done: set<Lane>, done': set<Lane>)
    requires ReturnsTo(stack, s, c, p) && stack[c + 1].mask <= stack[c].mask && Linked(stack) && Clean(stack, done)
    requires done <= done' <= done + stack[c + 1].mask
    ensures Clean(s, done') <==> done' == done
  {
    if done' == done {
      forall k | 0 <= k < |s| ensures s[k].mask !! done' { assert s[k].mask == stack[k].mask; }
    } else {
      var l :| l in done' && l !in done;
      if |s| > c {
        assert l in s[c].mask;
      } else {
        var j :| JoinsAt(stack, c, j);
        assert s[j] == stack[j] && l in s[j].mask;
      }
    }
  }

  lemma ReturnCleanExactly(w: Warp, e: Event, launched: set<Lane>)
    requires ReturnStep(w, e) && Inv(w, launched) && Clean(w.stack, w.done)
    ensures Clean(Next(w, e).stack, e.done) <==> e.done == w.done
  {
    var c, p := ReturnParts(w, e, launched);
    ReturnedClean(w.stack, Next(w, e).stack, c, p, w.done, e.done);
  }

  /** An update, of whatever kind, leaves finished lanes in the stack exactly if some lane does not finish alone or
      finishes in a call or return. */
  lemma CleanStepExactly(w: Warp, e: Event, launched: set<Lane>)
    requires Legal(w, e) && Inv(w, launched) && Clean(w.stack, w.done)
    ensures Clean(Next(w, e).stack, e.done) <==> FinishesClean(w, e)
  {
    if CallsOrReturns(w, e) {
      if e.op == CallOp { CallCleanExactly(w, e); } else { ReturnCleanExactly(w, e, launched); }
    } else {
      var f := if OrdinaryStep(w, e) then e else e.(op := OtherOp);
      assert Next(w, f) == Next(w, e) && FinishesAlone(w, f) == FinishesAlone(w, e);
      CleanExactly(w, f);
    }
  }

  ghost predicate CleanRun(w: Warp, es: seq<Event>)
    requires LegalRun(w, es)
    decreases |es|
  {
    es != [] ==> FinishesClean(w, es[0]) && CleanRun(Next(w, es[0]), es[1..])
  }

  // No state of the run has a finished lane in its stack.
  ghost predicate AlwaysClean(w: Warp, es: seq<Event>)
    requires LegalRun(w, es)
    decreases |es|
  {
    Clean(w.stack, w.done) && (es != [] ==> AlwaysClean(Next(w, es[0]), es[1..]))
  }

  /** Over whole runs, calls and returns included: no stack of the run holds a finished lane if and only if lanes finish
      alone and in no call or return. */
  lemma {:induction false} CleanRunExactly(w: Warp, es: seq<Event>, launched: set<Lane>)
    requires LegalRun(w, es) && PostDominatedRun(w, es) && Inv(w, launched) && Clean(w.stack, w.done)
    ensures AlwaysClean(w, es) <==> CleanRun(w, es)
    decreases |es|
  {
    if es == [] {
    } else {
      CleanStepExactly(w, es[0], launched);
      NextKeepsInv(w, es[0], launched);
      if FinishesClean(w, es[0]) { CleanRunExactly(Next(w, es[0]), es[1..], launched); }
    }
  }

  lemma StepKeepsClean(w: Warp, e: Event)
    requires Legal(w, e) && Clean(w.stack, w.done) && FinishesClean(w, e)
    ensures Clean(Next(w, e).stack, e.done)
  {
    if !CallsOrReturns(w, e) {
      var f := if OrdinaryStep(w, e) then e else e.(op := OtherOp);
      assert Next(w, f) == Next(w, e) && FinishesAlone(w, f) == FinishesAlone(w, e);
      CleanExactly(w, f);
    } else if e.op == CallOp {
      CallCleanExactly(w, e);
    } else {
      var n := |w.stack| - 1;
      assert Next(w, e).stack == Returned(w.stack[..n], Groups(Live(w, e), e.npc)[0].pc);
    }
  }

  lemma {:induction false} RunKeepsClean(w: Warp, es: seq<Event>)
    requires LegalRun(w, es) && Clean(w.stack, w.done) && CleanRun(w, es)
    ensures Clean(After(w, es).stack, After(w, es).done)
    decreases |es|
  {
    if es == [] {
    } else {
      StepKeepsClean(w, es[0]);
      RunKeepsClean(Next(w, es[0]), es[1..]);
    }
  }

  /** If lanes finish alone, no run from a launch, with calls or without, ever issues a finished lane. */
  lemma FinishedNeverIssued(start: Pc, active: set<Lane>, n: nat, es: seq<Event>)
    requires LegalRun(Launched(start, active, n), es) && CleanRun(Launched(start, active, n), es)
    ensures var w := After(Launched(start, active, n), es); |w.stack| > 0 ==> Top(w.stack).mask !! w.done
  {
    RunKeepsClean(Launched(start, active, n), es);
  }

  // ---------------------------------------------------------------------------------------------
  // Lanes that were not launched

  ghost predicate MasksLaunched(stack: seq<Entry>, launched: set<Lane>) {
    forall i | 0 <= i < |stack| :: stack[i].mask <= launched
  }

  lemma NextMasksLaunched(w: Warp, e: Event, launched: set<Lane>)
    requires Legal(w, e) && MasksLaunched(w.stack, launched)
    ensures MasksLaunched(Next(w, e).stack, launched)
  {
    if e.op == CallOp && Live(w, e) != {} {
      UniformOneGroup(Live(w, e), e.npc);
    } else if ReturnStep(w, e) {
      var n := |w.stack| - 1;
      assert Next(w, e).stack == Returned(w.stack[..n], Groups(Live(w, e), e.npc)[0].pc);
    } else {
      var f := if OrdinaryStep(w, e) then e else e.(op := OtherOp);
      assert Next(w, f) == Next(w, e);
      var c := OrdinaryReplacesTop(w, f);
      ReplacedMasks(w.stack, Next(w, e).stack, c, launched);
    }
  }

  lemma ReplacedMasks(stack: seq<Entry>, s: seq<Entry>, c: Change, launched: set<Lane>)
    requires ReplacesTop(stack, s, c) && MasksLaunched(stack, launched)
    ensures MasksLaunched(s, launched)
  {
    assert Top(stack).mask <= launched;
    forall i | 0 <= i < |s| ensures s[i].mask <= launched {
      if i < |stack| - 1 { assert s[i] == stack[i]; } else { assert s[i].mask <= Top(stack).mask; }
    }
  }

  // ---------------------------------------------------------------------------------------------
  // Kernels

  // Issues while some launched lane lives; nothing is asked of the lanes but to obey the instruction they are given.
  ghost predicate KernelRun(k: Kernel, w: Warp, es: seq<Event>, active: set<Lane>)
    requires Valid(k)
    decreases |es|
  {
    es != [] ==>
      && Running(w, active) && Issues(k, w, es[0])
      && (Legal(w, es[0]) ==> KernelRun(k, Next(w, es[0]), es[1..], active))
  }

  lemma {:induction false} KernelRunKeepsInv(k: Kernel, w: Warp, es: seq<Event>, active: set<Lane>, stale: bool)
    returns (stale': bool)
    requires Valid(k) && ReturnPcUnreached(k) && KernelInv(k, w, active, stale) && KernelRun(k, w, es, active)
    ensures LegalRun(w, es) && KernelInv(k, After(w, es), active, stale')
    decreases |es|
  {
    stale' := stale;
    if es == [] {
    } else {
      stale' := IssueKeepsKernelInv(k, w, es[0], active, stale);
      stale' := KernelRunKeepsInv(k, Next(w, es[0]), es[1..], active, stale');
    }
  }

  lemma LaunchKernelInv(k: Kernel, active: set<Lane>, n: nat)
    requires Valid(k) && active != {} && Within(active, n)
    ensures KernelInv(k, Launched(k.entry, active, n), active, false)
  {
    var w := Launched(k.entry, active, n);
    assert PcPath(k, [k.entry]);
    forall l | l in active ensures Held(w.stack, l) { assert l in w.stack[0].mask; }
  }

  /** Every run of a kernel from its entry, with the reconvergence PCs its post-dominator pass computes: all updates are
      legal, and while a lane lives the top entry holds live lanes only, each at the PC that is fetched; the stack is
      empty only when every lane has finished. */
  lemma KernelRunsInLockStep(k: Kernel, active: set<Lane>, n: nat, es: seq<Event>)
    requires Valid(k) && ReturnPcUnreached(k) && active != {} && Within(active, n)
    requires KernelRun(k, Launched(k.entry, active, n), es, active)
    ensures LegalRun(Launched(k.entry, active, n), es)
    ensures var w := After(Launched(k.entry, active, n), es);
            && (|w.stack| == 0 ==> active <= w.done)
            && (Running(w, active) ==>
                 && |w.stack| > 0 && Top(w.stack).mask != {} && Top(w.stack).mask !! w.done
                 && forall l | l in Top(w.stack).mask :: l < |w.pcs| && w.pcs[l] == Top(w.stack).pc)
  {
    LaunchKernelInv(k, active, n);
    var stale := KernelRunKeepsInv(k, Launched(k.entry, active, n), es, active, false);
    var w := After(Launched(k.entry, active, n), es);
    if Running(w, active) {
      TopIsIssuable(k, w, active, stale);
    }
  }
}
