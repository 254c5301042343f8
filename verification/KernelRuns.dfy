/**
  Kernels on the reconvergence stack. The reconvergence PC of a branch comes from the kernel's table; every assumption
  of the stack invariants is derived from post-dominance.
 */
module KernelRuns {
  import opened SimtStack
  import opened WarpInvariants
  import opened PostDominators
  import opened Kernels

  // ---------------------------------------------------------------------------------------------
  // One issue, seen from the top entry

  // What all lanes of an entry do when the instruction at its PC is executed.
  datatype Issue = Issue(live: set<Lane>, npc: seq<Pc>, finishes: bool, rpc: Pc)

  ghost predicate Divides(a: Issue) {
    exists x, y :: x in a.live && y in a.live && x < |a.npc| && y < |a.npc| && a.npc[x] != a.npc[y]
  }

  ghost predicate IssueOk(k: Kernel, top: Entry, a: Issue)
    requires Valid(k)
  {
    && (forall l | l in a.live :: l < |a.npc| && May(k, top.pc, a.npc[l]))
    && (a.finishes ==> MayFinish(k, top.pc))
    && (Divides(a) ==> a.rpc == Rpc(k, top.pc))
  }

  // An entry waits at the start of a block that post-dominates where it is.
  ghost predicate Waits(k: Kernel, x: Entry)
    requires LayoutOk(k) && x.pc in k.loc
  {
    && x.recvg in k.loc && StartOf(k, BlockOf(k, x.recvg), x.recvg)
    && BlockOf(k, x.recvg) != BlockOf(k, x.pc)
    && PostDom(k.graph, BlockOf(k, x.recvg), BlockOf(k, x.pc))
  }

  // An entry is at an instruction that lanes may come to and waits for a block or for nothing. Once lanes have split
  // towards the exit, the entries above the bottom one are beyond that split, and wait for a block or at the return PC.
  ghost predicate EntryOk(k: Kernel, x: Entry, stale: bool)
    requires LayoutOk(k)
  {
    && x.pc in k.loc && Leads(k, k.entry, x.pc)
    && (stale ==> Beyond(k, x.pc))
    && (x.recvg == (if stale then k.ret else NULL_PC) || Waits(k, x))
  }

  lemma Goes(k: Kernel, p: Pc, q: Pc)
    requires LayoutOk(k) && May(k, p, q)
    ensures q in k.loc && q != NULL_PC && InCode(k, p, BlockOf(k, p), k.loc[p].1)
    ensures AtEnd(k, p) ==> BlockOf(k, q) in k.graph[BlockOf(k, p)] && StartOf(k, BlockOf(k, q), q)
    ensures !AtEnd(k, p) ==> BlockOf(k, q) == BlockOf(k, p)
  {
  }

  lemma GoesToStart(k: Kernel, p: Pc, q: Pc)
    requires LayoutOk(k) && May(k, p, q) && AtEnd(k, p)
    ensures BlockOf(k, p) < |k.code| - 1 && p == EndOf(k, BlockOf(k, p))
    ensures q in k.loc && BlockOf(k, q) in k.graph[BlockOf(k, p)]
    ensures BlockOf(k, q) < |k.code| - 1 && q == k.code[BlockOf(k, q)][0]
  {
    Goes(k, p, q);
    assert InCode(k, q, BlockOf(k, q), 0);
  }

  // Two ways on from one instruction start at its block's end and lead to different blocks.
  lemma TwoWays(k: Kernel, p: Pc, q: Pc, r: Pc)
    requires LayoutOk(k) && May(k, p, q) && May(k, p, r) && q != r
    ensures AtEnd(k, p) && BlockOf(k, p) < |k.code| - 1 && p == EndOf(k, BlockOf(k, p)) && q in k.loc && r in k.loc
    ensures BlockOf(k, q) in k.graph[BlockOf(k, p)] && BlockOf(k, r) in k.graph[BlockOf(k, p)]
    ensures BlockOf(k, q) != BlockOf(k, r) && BlockOf(k, q) < |k.code| - 1 && BlockOf(k, r) < |k.code| - 1
  {
    assert AtEnd(k, p);
    GoesToStart(k, p, q);
    GoesToStart(k, p, r);
  }

  // Lanes divide only at a bra at the end of its block, and the table's answer is that block's target.
  lemma DividesAtBranch(k: Kernel, top: Entry, a: Issue)
    requires Valid(k) && IssueOk(k, top, a) && Divides(a)
    ensures top.pc in k.loc && AtEnd(k, top.pc) && BlockOf(k, top.pc) < |k.code| - 1
    ensures 0 <= k.ipdom[BlockOf(k, top.pc)] < |k.code| && a.rpc == Target(k, BlockOf(k, top.pc))
    ensures a.rpc != NULL_PC
  {
    var x, y :| x in a.live && y in a.live && x < |a.npc| && y < |a.npc| && a.npc[x] != a.npc[y];
    TwoWays(k, top.pc, a.npc[x], a.npc[y]);
    var b := BlockOf(k, top.pc);
    assert !OneWayOn(k, b);
    assert forall c | 0 <= c < |k.code| - 1 :: Immediate(k.graph, k.ipdom[c], c);
    ConvergePointOf(k, top.pc, 0);
    if k.code[k.ipdom[b]] != [] { assert k.code[k.ipdom[b]][0] in k.loc; }
  }

  // The lanes divide for good: they reconverge only at the exit.
  ghost predicate Exits(k: Kernel, top: Entry, a: Issue)
    requires Valid(k)
  {
    top.pc in k.loc && Divides(a) && BlockOf(k, top.pc) < |k.ipdom| && k.ipdom[BlockOf(k, top.pc)] == Exit(k.graph)
  }

  lemma ExitsSplit(k: Kernel, top: Entry, a: Issue)
    requires Valid(k) && IssueOk(k, top, a) && Exits(k, top, a) && Leads(k, k.entry, top.pc)
    ensures ExitSplit(k, BlockOf(k, top.pc)) && AtEnd(k, top.pc) && a.rpc == k.ret
  {
    DividesAtBranch(k, top, a);
    var x, y :| x in a.live && y in a.live && x < |a.npc| && y < |a.npc| && a.npc[x] != a.npc[y];
    TwoWays(k, top.pc, a.npc[x], a.npc[y]);
  }

  // Then they are beyond the split, and the return PC is where they are told to reconverge.
  lemma ExitsBeyond(k: Kernel, top: Entry, a: Issue, l: Lane)
    requires Valid(k) && IssueOk(k, top, a) && Exits(k, top, a) && l in a.live && Leads(k, k.entry, top.pc)
    ensures Beyond(k, a.npc[l]) && a.rpc == k.ret
  {
    ExitsSplit(k, top, a);
    GoesToStart(k, top.pc, a.npc[l]);
    BeyondStart(k, BlockOf(k, top.pc), BlockOf(k, a.npc[l]));
  }

  // Where a lane goes once the bottom is stale, or is about to be.
  lemma GoesBeyond(k: Kernel, top: Entry, a: Issue, stale: bool, l: Lane)
    requires Valid(k) && EntryOk(k, top, stale) && IssueOk(k, top, a) && l in a.live && (stale || Exits(k, top, a))
    ensures Beyond(k, a.npc[l])
  {
    if stale { BeyondStep(k, top.pc, a.npc[l]); } else { ExitsBeyond(k, top, a, l); }
  }

  /** The post-dominator table meets the stack's assumption: no lane of a split jumps past the new reconvergence
      PC to the one its entry waits for. */
  lemma TableHasNoShortcut(k: Kernel, top: Entry, a: Issue, stale: bool, l: Lane)
    requires Valid(k) && ReturnPcUnreached(k) && EntryOk(k, top, stale) && IssueOk(k, top, a) && Divides(a)
    requires a.rpc != top.recvg && l in a.live
    ensures a.npc[l] != top.recvg
  {
    DividesAtBranch(k, top, a);
    Goes(k, top.pc, a.npc[l]);
    if stale { GoesBeyond(k, top, a, stale, l); }
    if Waits(k, top) {
      var b, r := BlockOf(k, top.pc), BlockOf(k, top.recvg);
      assert InCode(k, top.recvg, r, 0);
      if k.ipdom[b] != r { NoJumpPast(k, r, b); }
    }
  }

  // An entry that moves on, or a sibling that waits at the branch's target.
  lemma MovedEntryOk(k: Kernel, top: Entry, a: Issue, stale: bool, x: Entry, divides: bool)
    requires Valid(k) && EntryOk(k, top, stale) && IssueOk(k, top, a)
    requires divides ==> Divides(a)
    requires exists l :: l in a.live && a.npc[l] == x.pc
    requires x.recvg == (if divides then a.rpc else top.recvg) && x.pc != x.recvg
    ensures EntryOk(k, x, stale || (divides && Exits(k, top, a)))
  {
    var l :| l in a.live && a.npc[l] == x.pc;
    Goes(k, top.pc, x.pc);
    LeadsFurther(k, k.entry, top.pc, x.pc);
    var b := BlockOf(k, top.pc);
    if stale || (divides && Exits(k, top, a)) { GoesBeyond(k, top, a, stale, l); }
    if divides {
      DividesAtBranch(k, top, a);
      if Exits(k, top, a) {
        ExitsBeyond(k, top, a, l);
      } else {
        TargetIsStart(k, b);
        assert Immediate(k.graph, k.ipdom[b], b);
        StillWaits(k, top.pc, x);
      }
    } else if Waits(k, top) {
      StillWaits(k, top.pc, x);
    }
  }

  lemma StillWaits(k: Kernel, p: Pc, x: Entry)
    requires LayoutOk(k) && May(k, p, x.pc) && x.pc in k.loc && x.pc != x.recvg
    requires x.recvg in k.loc && StartOf(k, BlockOf(k, x.recvg), x.recvg) && BlockOf(k, x.recvg) != BlockOf(k, p)
    requires PostDom(k.graph, BlockOf(k, x.recvg), BlockOf(k, p))
    ensures Waits(k, x)
  {
    Goes(k, p, x.pc);
    var r := BlockOf(k, x.recvg);
    assert InCode(k, x.recvg, r, 0);
    if AtEnd(k, p) {
      assert InCode(k, x.pc, BlockOf(k, x.pc), 0);
      PostDomStep(k.graph, r, BlockOf(k, p), BlockOf(k, x.pc));
    }
  }

  // Lanes that divide for good belong to an entry that waits for no block.
  lemma ExitsWaitForNothing(k: Kernel, top: Entry, a: Issue, stale: bool)
    requires Valid(k) && EntryOk(k, top, stale) && IssueOk(k, top, a) && Exits(k, top, a)
    ensures a.rpc == k.ret && a.rpc != NULL_PC && top.recvg == if stale then k.ret else NULL_PC
  {
    DividesAtBranch(k, top, a);
    if Waits(k, top) {
      assert InCode(k, top.recvg, BlockOf(k, top.recvg), 0);
      NoFinishBefore(k, BlockOf(k, top.recvg), BlockOf(k, top.pc));
    }
  }

  // The old top as a reconvergence entry: at the return PC it can only be the bottom entry, which waits for nothing.
  lemma KeptEntryOk(k: Kernel, top: Entry, a: Issue, stale: bool)
    requires Valid(k) && EntryOk(k, top, stale) && IssueOk(k, top, a) && Divides(a) && a.rpc != top.recvg
    ensures Exits(k, top, a) ==> !stale && top.recvg == NULL_PC && a.rpc == k.ret
    ensures !Exits(k, top, a) ==> EntryOk(k, top.(pc := a.rpc), stale) && !a.finishes
  {
    DividesAtBranch(k, top, a);
    var b := BlockOf(k, top.pc);
    assert Immediate(k.graph, k.ipdom[b], b);
    if Exits(k, top, a) {
      ExitsWaitForNothing(k, top, a, stale);
    } else {
      TargetIsStart(k, b);
      TargetIsReached(k, k.entry, b);
      if a.finishes { FinishMeansExit(k, b); }
      if stale { BeyondTarget(k, top.pc); }
      if Waits(k, top) {
        assert InCode(k, top.recvg, BlockOf(k, top.recvg), 0);
        NoJumpPast(k, BlockOf(k, top.recvg), b);
      }
    }
  }

  // A lane that finishes belongs to an entry that waits for no block.
  lemma FinishWaitsForNothing(k: Kernel, top: Entry, a: Issue, stale: bool)
    requires Valid(k) && EntryOk(k, top, stale) && IssueOk(k, top, a) && a.finishes
    ensures top.recvg == if stale then k.ret else NULL_PC
  {
    if Waits(k, top) {
      assert InCode(k, top.recvg, BlockOf(k, top.recvg), 0) && InCode(k, top.pc, BlockOf(k, top.pc), k.loc[top.pc].1);
      NoFinishBefore(k, BlockOf(k, top.recvg), BlockOf(k, top.pc));
    }
  }

  // ---------------------------------------------------------------------------------------------
  // Runs of a warp

  ghost predicate Running(w: Warp, launched: set<Lane>) {
    exists l :: l in launched && l !in w.done
  }

  ghost function IssueOf(w: Warp, e: Event): Issue
    requires |w.stack| > 0
  {
    Issue(Live(w, e), e.npc, e.done != w.done, e.rpc)
  }

  /** One issue: the instruction at the top entry's PC is executed for all lanes of that entry. Each live one
      moves on as that instruction allows or finishes, and the table supplies the reconvergence PC. */
  ghost predicate Issues(k: Kernel, w: Warp, e: Event)
    requires Valid(k)
  {
    && |w.stack| > 0 && |e.npc| == |w.pcs| && e.op != CallOp
    && w.done <= e.done <= w.done + Top(w.stack).mask
    && (forall l | 0 <= l < |e.npc| && l !in Top(w.stack).mask :: e.npc[l] == w.pcs[l])
    && IssueOk(k, Top(w.stack), IssueOf(w, e))
  }

  // Entries are at instructions and hold live lanes only, but for a stale bottom entry.
  ghost predicate EntriesOk(k: Kernel, stack: seq<Entry>, done: set<Lane>, stale: bool)
    requires LayoutOk(k)
  {
    forall i | (if stale then 1 else 0) <= i < |stack| :: EntryOk(k, stack[i], stale) && stack[i].mask !! done
  }

  // All entries but the bottom one wait for something.
  ghost predicate AllWait(stack: seq<Entry>) {
    forall i | 0 <= i < |stack| :: (stack[i].recvg == NULL_PC <==> i == 0)
  }

  // Once lanes have split towards the exit, the bottom entry is stale: it waits at the return PC, where no lane
  // arrives.
  ghost predicate StaleOk(k: Kernel, w: Warp, launched: set<Lane>)
    requires LayoutOk(k)
  {
    && (|w.stack| > 0 ==> w.stack[0].pc == k.ret)
    && forall l | l in launched && l !in w.done :: l < |w.pcs| && Beyond(k, w.pcs[l])
  }

  /** The invariant of a kernel run. */
  ghost predicate KernelInv(k: Kernel, w: Warp, launched: set<Lane>, stale: bool)
    requires LayoutOk(k)
  {
    && Inv(w, launched)
    && (forall i | 0 <= i < |w.stack| :: w.stack[i].kind == Normal)
    && EntriesOk(k, w.stack, w.done, stale)
    && AllWait(w.stack)
    && (stale ==> StaleOk(k, w, launched))
  }

  // No live lane is at the return PC, so none is only in the stale entry.
  lemma AboveStale(k: Kernel, w: Warp, launched: set<Lane>, l: Lane, t: int)
    requires LayoutOk(k) && ReturnPcUnreached(k) && StaleOk(k, w, launched) && LockStep(w.stack, w.pcs, w.done)
    requires l in launched && l !in w.done && Topmost(w.stack, l, t)
    ensures t > 0
  {
  }

  // A live lane is in some entry above the stale one.
  lemma StackHolds(k: Kernel, w: Warp, launched: set<Lane>, stale: bool, l: Lane)
    requires LayoutOk(k) && ReturnPcUnreached(k) && (stale ==> StaleOk(k, w, launched))
    requires LockStep(w.stack, w.pcs, w.done) && NoneLost(w.stack, launched, w.done) && l in launched && l !in w.done
    ensures |w.stack| > if stale then 1 else 0
  {
    assert Held(w.stack, l);
    var j :| 0 <= j < |w.stack| && l in w.stack[j].mask;
    var t := TopmostExists(w.stack, l, j);
    if stale { AboveStale(k, w, launched, l, t); }
  }

  lemma TopEntryOk(k: Kernel, stack: seq<Entry>, done: set<Lane>, stale: bool)
    requires LayoutOk(k) && EntriesOk(k, stack, done, stale) && |stack| > if stale then 1 else 0
    ensures EntryOk(k, Top(stack), stale) && Top(stack).mask !! done
  {
  }

  lemma TopInStep(stack: seq<Entry>, pcs: seq<Pc>, done: set<Lane>)
    requires |stack| > 0 && LockStep(stack, pcs, done) && Top(stack).mask !! done
    ensures forall l | l in Top(stack).mask :: l < |pcs| && pcs[l] == Top(stack).pc
  {
    forall l | l in Top(stack).mask ensures l < |pcs| && pcs[l] == Top(stack).pc {
      assert Topmost(stack, l, |stack| - 1);
    }
  }

  /** While a lane lives, the top entry is not the stale one: its lanes are live and at its PC. */
  lemma TopIsIssuable(k: Kernel, w: Warp, launched: set<Lane>, stale: bool)
    requires LayoutOk(k) && ReturnPcUnreached(k) && KernelInv(k, w, launched, stale) && Running(w, launched)
    ensures |w.stack| > 0 && (stale ==> |w.stack| > 1)
    ensures EntryOk(k, Top(w.stack), stale) && Top(w.stack).mask !! w.done
    ensures forall l | l in Top(w.stack).mask :: l < |w.pcs| && w.pcs[l] == Top(w.stack).pc
  {
    var l :| l in launched && l !in w.done;
    StackHolds(k, w, launched, stale, l);
    TopEntryOk(k, w.stack, w.done, stale);
    TopInStep(w.stack, w.pcs, w.done);
  }

  lemma IssueIsLegal(k: Kernel, w: Warp, e: Event)
    requires Valid(k) && Issues(k, w, e) && Top(w.stack).kind == Normal
    ensures Legal(w, e) && OrdinaryStep(w, e)
  {
  }

  lemma SplitDivides(k: Kernel, w: Warp, e: Event)
    requires Legal(w, e) && Splits(Groups(Live(w, e), e.npc), Top(w.stack))
    ensures Divides(IssueOf(w, e))
  {
    GroupsPartition(Live(w, e), e.npc);
    var gs := Groups(Live(w, e), e.npc);
    assert |gs| >= 2;
    var x, y :| x in gs[0].mask && y in gs[1].mask;
    assert e.npc[x] != e.npc[y];
  }

  lemma TablePostDominates(k: Kernel, w: Warp, e: Event, stale: bool)
    requires Valid(k) && ReturnPcUnreached(k) && Issues(k, w, e) && Legal(w, e) && EntryOk(k, Top(w.stack), stale)
    ensures PostDominates(w, e)
  {
    if Splits(Groups(Live(w, e), e.npc), Top(w.stack)) && e.rpc != Top(w.stack).recvg {
      SplitDivides(k, w, e);
      forall l | l in Live(w, e) ensures e.npc[l] != Top(w.stack).recvg {
        TableHasNoShortcut(k, Top(w.stack), IssueOf(w, e), stale, l);
      }
    }
  }

  // ---------------------------------------------------------------------------------------------
  // Replacing the top keeps the kernel part of the invariant

  ghost predicate Replacement(k: Kernel, stack: seq<Entry>, s: seq<Entry>, c: Change, a: Issue, done: set<Lane>,
                              done': set<Lane>, stale: bool, stale': bool)
    requires Valid(k)
  {
    && ReplacesTop(stack, s, c) && EntryOk(k, Top(stack), stale) && IssueOk(k, Top(stack), a)
    && a.live == c.live && a.npc == c.npc && (c.split ==> Divides(a))
    && c.recvg == (if c.split then a.rpc else Top(stack).recvg) && c.kept == (c.split && a.rpc != Top(stack).recvg)
    && a.finishes == (done' != done) && done <= done' <= done + Top(stack).mask && c.live == Top(stack).mask - done'
    && Top(stack).mask !! done
    && stale' == (stale || (c.split && Exits(k, Top(stack), a)))
  }

  lemma SiblingsOk(k: Kernel, stack: seq<Entry>, s: seq<Entry>, c: Change, a: Issue, done: set<Lane>, done': set<Lane>,
                   stale: bool, stale': bool, i: int)
    requires Valid(k) && Replacement(k, stack, s, c, a, done, done', stale, stale')
    requires FirstSibling(stack, c) <= i < |s|
    ensures EntryOk(k, s[i], stale') && s[i].mask !! done'
    ensures s[i].recvg == NULL_PC ==> !c.split && Top(stack).recvg == NULL_PC
  {
    var l :| l in s[i].mask;
    MovedEntryOk(k, Top(stack), a, stale, s[i], c.split);
    if c.split { DividesAtBranch(k, Top(stack), a); }
  }

  lemma UpperEntryOk(k: Kernel, stack: seq<Entry>, s: seq<Entry>, c: Change, a: Issue, done: set<Lane>,
                     done': set<Lane>, stale: bool, stale': bool, i: int)
    requires Valid(k) && Replacement(k, stack, s, c, a, done, done', stale, stale') && AllWait(stack)
    requires (if stale' then 1 else 0) <= i < |s| && |stack| - 1 <= i
    ensures EntryOk(k, s[i], stale') && s[i].mask !! done'
  {
    if i < FirstSibling(stack, c) {
      KeptEntryOk(k, Top(stack), a, stale);
    } else {
      SiblingsOk(k, stack, s, c, a, done, done', stale, stale', i);
    }
  }

  lemma ReplaceEntries(k: Kernel, stack: seq<Entry>, s: seq<Entry>, c: Change, a: Issue, done: set<Lane>,
                       done': set<Lane>, stale: bool, stale': bool)
    requires Valid(k) && ReturnPcUnreached(k) && Replacement(k, stack, s, c, a, done, done', stale, stale')
    requires Linked(stack) && Top(stack).kind == Normal && EntriesOk(k, stack, done, stale) && AllWait(stack)
    requires stale' && !stale ==> |stack| == 1
    ensures EntriesOk(k, s, done', stale')
  {
    forall i | (if stale' then 1 else 0) <= i < |s| ensures EntryOk(k, s[i], stale') && s[i].mask !! done' {
      if i < |stack| - 1 {
        FinishedElsewhere(k, stack, a, done, done', stale, i);
      } else {
        UpperEntryOk(k, stack, s, c, a, done, done', stale, stale', i);
      }
    }
  }

  lemma ReplaceWaits(k: Kernel, stack: seq<Entry>, s: seq<Entry>, c: Change, a: Issue, done: set<Lane>,
                     done': set<Lane>, stale: bool, stale': bool)
    requires Valid(k) && Replacement(k, stack, s, c, a, done, done', stale, stale') && AllWait(stack)
    ensures AllWait(s)
  {
    forall i | 0 <= i < |s| ensures s[i].recvg == NULL_PC <==> i == 0 {
      if FirstSibling(stack, c) <= i { SiblingsOk(k, stack, s, c, a, done, done', stale, stale', i); }
      if c.split { DividesAtBranch(k, Top(stack), a); }
    }
  }

  lemma ReplaceKinds(stack: seq<Entry>, s: seq<Entry>, c: Change)
    requires ReplacesTop(stack, s, c) && forall i | 0 <= i < |stack| :: stack[i].kind == Normal
    ensures forall i | 0 <= i < |s| :: s[i].kind == Normal
  {
  }

  // Lanes finish only where no other entry with live lanes holds them.
  lemma FinishedElsewhere(k: Kernel, stack: seq<Entry>, a: Issue, done: set<Lane>, done': set<Lane>, stale: bool,
                          j: int)
    requires Valid(k) && ReturnPcUnreached(k) && |stack| > 0 && EntryOk(k, Top(stack), stale)
             && IssueOk(k, Top(stack), a)
    requires Linked(stack) && Top(stack).kind == Normal && AllWait(stack)
    requires a.finishes == (done' != done) && done <= done' <= done + Top(stack).mask
    requires EntriesOk(k, stack, done, stale)
    requires (if stale then 1 else 0) <= j < |stack| - 1
    ensures stack[j].mask !! done'
  {
    if a.finishes {
      FinishWaitsForNothing(k, Top(stack), a, stale);
      var t :| JoinsAt(stack, |stack| - 1, t);
      assert t == 0;
    }
  }

  lemma IssueReplaces(k: Kernel, w: Warp, e: Event, stale: bool) returns (c: Change, stale': bool)
    requires Valid(k) && OrdinaryStep(w, e) && Issues(k, w, e) && EntryOk(k, Top(w.stack), stale)
             && Top(w.stack).mask !! w.done
    ensures Replacement(k, w.stack, Next(w, e).stack, c, IssueOf(w, e), w.done, e.done, stale, stale')
  {
    c := OrdinaryReplacesTop(w, e);
    if c.split { SplitDivides(k, w, e); }
    stale' := stale || (c.split && Exits(k, Top(w.stack), IssueOf(w, e)));
  }

  // The bottom entry becomes stale in a split of all live lanes.
  lemma IssueStaleOk(k: Kernel, w: Warp, e: Event, launched: set<Lane>, stale: bool, c: Change, stale': bool)
    requires Valid(k) && KernelInv(k, w, launched, stale) && (stale ==> |w.stack| > 1) && Issues(k, w, e) && Legal(w, e)
    requires Replacement(k, w.stack, Next(w, e).stack, c, IssueOf(w, e), w.done, e.done, stale, stale') && stale'
    ensures StaleOk(k, Next(w, e), launched)
  {
    var top, a := Top(w.stack), IssueOf(w, e);
    if !stale {
      ExitsWaitForNothing(k, top, a, stale);
      assert |w.stack| == 1;
      forall l | l in launched && l !in e.done ensures l in top.mask { assert Held(w.stack, l); }
    }
    forall l | l in Live(w, e) ensures Beyond(k, e.npc[l]) { GoesBeyond(k, top, a, stale, l); }
  }

  /** One issue keeps the invariant of kernel runs. */
  lemma IssueKeepsKernelInv(k: Kernel, w: Warp, e: Event, launched: set<Lane>, stale: bool) returns (stale': bool)
    requires Valid(k) && ReturnPcUnreached(k) && KernelInv(k, w, launched, stale) && Running(w, launched)
             && Issues(k, w, e)
    ensures Legal(w, e) && KernelInv(k, Next(w, e), launched, stale')
  {
    TopIsIssuable(k, w, launched, stale);
    IssueIsLegal(k, w, e);
    TablePostDominates(k, w, e, stale);
    NextKeepsInv(w, e, launched);
    var c;
    c, stale' := IssueReplaces(k, w, e, stale);
    var s := Next(w, e).stack;
    ReplaceKinds(w.stack, s, c);
    if stale' && !stale { ExitsWaitForNothing(k, Top(w.stack), IssueOf(w, e), stale); }
    ReplaceEntries(k, w.stack, s, c, IssueOf(w, e), w.done, e.done, stale, stale');
    ReplaceWaits(k, w.stack, s, c, IssueOf(w, e), w.done, e.done, stale, stale');
    if stale' { IssueStaleOk(k, w, e, launched, stale, c, stale'); }
  }
}
