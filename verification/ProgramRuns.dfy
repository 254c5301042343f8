/**
  Programs with calls on the reconvergence stack. The stack falls into frames, one for each call in progress: the
  kernel's entries at the bottom, and on them, for each call, a CALL entry with the entries that its function has
  split off.
 */
module ProgramRuns {
  import opened SimtStack
  import opened WarpInvariants
  import opened PostDominators
  import opened Kernels
  import opened KernelRuns
  import opened WarpRuns
  import opened Programs

  // ---------------------------------------------------------------------------------------------
  // Issues

  /** One issue of a warp whose lanes have the call stacks cs: the instruction at the top entry's PC is executed for all
      lanes of that entry. Each moves on, calls, returns or finishes as the program allows. */
  ghost predicate IssuesIn(g: Program, f: nat, w: Warp, cs: seq<seq<Pc>>, launched: set<Lane>, e: Event,
                           cs': seq<seq<Pc>>) {
    && f < |g.funcs| && Valid(g.funcs[f]) && |w.stack| > 0 && Top(w.stack).pc in g.funcs[f].loc
    && |e.npc| == |w.pcs| == |cs| == |cs'|
    && w.done <= e.done <= w.done + Top(w.stack).mask
    && (forall l | 0 <= l < |e.npc| && l !in Top(w.stack).mask :: e.npc[l] == w.pcs[l] && cs'[l] == cs[l])
    && (forall l | l in Live(w, e) :: l < |cs| && MovesIn(g, g.funcs[f], Top(w.stack).pc, cs[l], e.npc[l], cs'[l]))
    && (forall l | l in e.done && l !in w.done :: l < |cs| && FinishesIn(g, g.funcs[f], Top(w.stack).pc, cs[l]))
    && e.op == OpOf(g, Top(w.stack).pc)
    && RpcOk(g, g.funcs[f], Top(w.stack).pc, launched - e.done, cs', e.rpc)
  }

  ghost predicate ProgramIssues(g: Program, w: Warp, cs: seq<seq<Pc>>, launched: set<Lane>, e: Event,
                                cs': seq<seq<Pc>>) {
    exists f :: IssuesIn(g, f, w, cs, launched, e, cs')
  }

  // ---------------------------------------------------------------------------------------------
  // Frames

  // The function and the entries of a frame.
  datatype Frame = Frame(f: nat, seg: seq<Entry>)

  ghost function StackOf(frames: seq<Frame>): seq<Entry> {
    if frames == [] then [] else StackOf(frames[..|frames| - 1]) + frames[|frames| - 1].seg
  }

  // The entries of a called function: a CALL entry that waits for nothing, and above it entries that wait for blocks.
  ghost predicate SegmentOk(k: Kernel, seg: seq<Entry>, done: set<Lane>)
    requires LayoutOk(k)
  {
    && |seg| > 0 && EntriesOk(k, seg, done, false) && AllWait(seg)
    && forall i | 0 <= i < |seg| :: seg[i].kind == (if i == 0 then Call else Normal) && seg[i].mask <= seg[0].mask
  }

  ghost predicate CalleeOk(g: Program, fr: Frame, done: set<Lane>)
    requires WellLinked(g)
  {
    1 <= fr.f < |g.funcs| && SegmentOk(g.funcs[fr.f], fr.seg, done)
  }

  // The j-th frame was called at the top of the one below, and its lanes know where to return.
  ghost predicate CalledBy(g: Program, caller: Frame, callee: Frame, cs: seq<seq<Pc>>, j: nat) {
    && |caller.seg| > 0 && |callee.seg| > 0 && j > 0
    && Top(caller.seg).pc in g.calls && g.calls[Top(caller.seg).pc].callee == callee.f
    && Top(caller.seg).mask == callee.seg[0].mask
    && forall l | l in callee.seg[0].mask ::
         l < |cs| && |cs[l]| >= j && cs[l][j - 1] == g.calls[Top(caller.seg).pc].after
  }

  ghost predicate CalleeAt(g: Program, frames: seq<Frame>, done: set<Lane>, j: int)
    requires WellLinked(g)
  {
    1 <= j < |frames| && CalleeOk(g, frames[j], done)
  }

  ghost predicate CalleesOk(g: Program, frames: seq<Frame>, done: set<Lane>)
    requires WellLinked(g)
  {
    forall j | 1 <= j < |frames| :: CalleeAt(g, frames, done, j)
  }

  ghost predicate CallAt(g: Program, frames: seq<Frame>, cs: seq<seq<Pc>>, j: int) {
    1 <= j < |frames| && CalledBy(g, frames[j - 1], frames[j], cs, j)
  }

  ghost predicate CallsLinked(g: Program, frames: seq<Frame>, cs: seq<seq<Pc>>) {
    forall j | 1 <= j < |frames| :: CallAt(g, frames, cs, j)
  }

  // Lane l is in the j-th frame and in none above it.
  ghost predicate InFrame(frames: seq<Frame>, j: int, l: Lane) {
    && 0 <= j < |frames|
    && (j > 0 ==> |frames[j].seg| > 0 && l in frames[j].seg[0].mask)
    && (j + 1 < |frames| ==> |frames[j + 1].seg| > 0 && l !in frames[j + 1].seg[0].mask)
  }

  // The call stack of a live lane is as deep as its frame.
  ghost predicate DepthOk(frames: seq<Frame>, cs: seq<seq<Pc>>, done: set<Lane>) {
    forall j, l: Lane | InFrame(frames, j, l) && 0 <= l < |cs| && l !in done :: |cs[l]| == j
  }

  ghost predicate MainOk(k: Kernel, seg: seq<Entry>, done: set<Lane>, stale: bool)
    requires LayoutOk(k)
  {
    && EntriesOk(k, seg, done, stale) && AllWait(seg)
    && (forall i | 0 <= i < |seg| :: seg[i].kind == Normal)
    && (stale && |seg| > 0 ==> seg[0].pc == k.ret)
  }

  // Where a lane is in the kernel itself: its PC, or the one it will return to.
  function InKernel(pc: Pc, cs: seq<Pc>): Pc {
    if cs == [] then pc else cs[0]
  }

  ghost predicate BaseOk(k: Kernel, w: Warp, cs: seq<seq<Pc>>, launched: set<Lane>)
    requires LayoutOk(k)
  {
    forall l | l in launched && l !in w.done :: l < |w.pcs| && l < |cs| && Beyond(k, InKernel(w.pcs[l], cs[l]))
  }

  /** The invariant of a run of a program. */
  ghost predicate ProgramInv(g: Program, w: Warp, cs: seq<seq<Pc>>, launched: set<Lane>, frames: seq<Frame>,
                             stale: bool)
    requires WellLinked(g)
  {
    && Inv(w, launched) && MasksLaunched(w.stack, launched) && |cs| == |w.pcs|
    && |frames| > 0 && w.stack == StackOf(frames)
    && MainOk(g.funcs[0], frames[0].seg, w.done, stale) && frames[0].f == 0
    && (stale && |frames| > 1 ==> |frames[0].seg| > 1)
    && CalleesOk(g, frames, w.done) && CallsLinked(g, frames, cs)
    && DepthOk(frames, cs, w.done)
    && (stale ==> BaseOk(g.funcs[0], w, cs, launched))
  }

  // ---------------------------------------------------------------------------------------------
  // The kernel alone

  lemma OneFrame(fr: Frame)
    ensures StackOf([fr]) == fr.seg
  {
    assert [fr][..0] == [];
  }

  lemma KernelAlone(g: Program, w: Warp, cs: seq<seq<Pc>>, launched: set<Lane>, frames: seq<Frame>, stale: bool)
    requires WellLinked(g) && ProgramInv(g, w, cs, launched, frames, stale) && |frames| == 1
    ensures KernelInv(g.funcs[0], w, launched, stale)
    ensures forall l | 0 <= l < |cs| && l !in w.done :: cs[l] == []
  {
    OneFrame(frames[0]);
    assert frames == [frames[0]];
    forall l | 0 <= l < |cs| && l !in w.done ensures cs[l] == [] { assert InFrame(frames, 0, l); }
  }

  lemma AloneInv(g: Program, w: Warp, cs: seq<seq<Pc>>, launched: set<Lane>, stale: bool)
    requires WellLinked(g) && KernelInv(g.funcs[0], w, launched, stale) && MasksLaunched(w.stack, launched)
    requires |cs| == |w.pcs|
    requires forall l | 0 <= l < |cs| && l !in w.done :: cs[l] == []
    ensures ProgramInv(g, w, cs, launched, [Frame(0, w.stack)], stale)
  {
    OneFrame(Frame(0, w.stack));
  }

  // ---------------------------------------------------------------------------------------------
  // The top frame

  lemma TopFrame(frames: seq<Frame>, below: seq<Entry>, last: Frame)
    requires |frames| > 0 && last == frames[|frames| - 1] && below == StackOf(frames[..|frames| - 1])
    ensures StackOf(frames) == below + last.seg
    ensures |last.seg| > 0 ==> |StackOf(frames)| > 0 && Top(StackOf(frames)) == Top(last.seg)
  {
  }

  // In lock step, the lanes of the top entry are at its PC.
  lemma TopInStep(w: Warp, launched: set<Lane>, l: Lane)
    requires Inv(w, launched) && |w.stack| > 0 && l in Top(w.stack).mask && l !in w.done
    ensures l < |w.pcs| && w.pcs[l] == Top(w.stack).pc
  {
    assert Topmost(w.stack, l, |w.stack| - 1);
  }

  // What is known of the top entry of a running warp: it is in function f, j calls deep.
  ghost predicate TopOk(g: Program, w: Warp, cs: seq<seq<Pc>>, f: nat, j: nat, stale: bool)
    requires WellLinked(g)
  {
    && |w.stack| > 0 && f < |g.funcs| && |cs| == |w.pcs| && EntryOk(g.funcs[f], Top(w.stack), stale)
    && Top(w.stack).mask !! w.done
    && forall l | l in Top(w.stack).mask :: l < |w.pcs| && w.pcs[l] == Top(w.stack).pc && |cs[l]| == j
  }

  lemma TopInKernel(g: Program, w: Warp, cs: seq<seq<Pc>>, launched: set<Lane>, frames: seq<Frame>, stale: bool)
    requires Sound(g) && ProgramInv(g, w, cs, launched, frames, stale) && Running(w, launched) && |frames| == 1
    ensures TopOk(g, w, cs, 0, 0, stale) && w.stack == frames[0].seg
    ensures stale ==> |frames[0].seg| > 1
  {
    KernelAlone(g, w, cs, launched, frames, stale);
    TopIsIssuable(g.funcs[0], w, launched, stale);
    OneFrame(frames[0]);
    assert frames == [frames[0]];
    forall l | l in Top(w.stack).mask ensures cs[l] == [] { assert l < |cs| && l !in w.done; }
  }

  lemma TopInCallee(g: Program, w: Warp, cs: seq<seq<Pc>>, launched: set<Lane>, frames: seq<Frame>, stale: bool,
                    fr: Frame)
    requires WellLinked(g) && ProgramInv(g, w, cs, launched, frames, stale) && |frames| > 1
             && fr == frames[|frames| - 1]
    ensures TopOk(g, w, cs, fr.f, |frames| - 1, false) && CalleeOk(g, fr, w.done) && Top(w.stack) == Top(fr.seg)
  {
    var j := |frames| - 1;
    TopFrame(frames, StackOf(frames[..j]), fr);
    assert CalleeAt(g, frames, w.done, j);
    var top := Top(fr.seg);
    assert EntryOk(g.funcs[fr.f], top, false) && top.mask !! w.done;
    forall l | l in top.mask ensures l < |w.pcs| && w.pcs[l] == top.pc && |cs[l]| == j {
      TopInStep(w, launched, l);
      assert InFrame(frames, j, l);
    }
  }

  /** While a lane lives, the top entry holds live lanes only, each at its PC, and each with as many calls in progress
      as there are frames above the kernel's. */
  lemma TopIsReady(g: Program, w: Warp, cs: seq<seq<Pc>>, launched: set<Lane>, frames: seq<Frame>, stale: bool)
    requires Sound(g) && ProgramInv(g, w, cs, launched, frames, stale) && Running(w, launched)
    ensures TopOk(g, w, cs, frames[|frames| - 1].f, |frames| - 1, stale && |frames| == 1)
    ensures |frames[|frames| - 1].seg| > 0 && Top(w.stack) == Top(frames[|frames| - 1].seg)
    ensures stale ==> |frames[0].seg| > 1
  {
    if |frames| == 1 {
      TopInKernel(g, w, cs, launched, frames, stale);
    } else {
      TopInCallee(g, w, cs, launched, frames, stale, frames[|frames| - 1]);
    }
  }

  // ---------------------------------------------------------------------------------------------
  // An ordinary instruction in the kernel

  // With no call in progress, the first live lane's return PC is that of a blank entry.
  lemma RpcInKernel(g: Program, p: Pc, live: set<Lane>, cs: seq<seq<Pc>>, rpc: Pc)
    requires WellLinked(g) && p in g.funcs[0].loc && RpcOk(g, g.funcs[0], p, live, cs, rpc)
    requires live != {} && forall l | l in live :: l < |cs| && cs[l] == []
    ensures rpc == Rpc(g.funcs[0], p)
  {
    if AsksForReturnPc(g.funcs[0], p) {
      AnswerIsReturnPc(g.funcs[0], p);
      var l := Lowest(live);
      assert First(live, |cs|, l);
    }
  }

  // Where nothing is on the call stack, lanes move as the kernel allows.
  lemma StaysInKernel(g: Program, w: Warp, cs: seq<seq<Pc>>, launched: set<Lane>, e: Event, cs': seq<seq<Pc>>)
    requires WellLinked(g) && IssuesIn(g, 0, w, cs, launched, e, cs') && Top(w.stack).pc !in g.calls
    requires forall l | 0 <= l < |cs| && l !in w.done :: cs[l] == []
    ensures forall l | l in Live(w, e) && l !in w.done :: l < |e.npc| && May(g.funcs[0], Top(w.stack).pc, e.npc[l])
    ensures e.done != w.done ==> MayFinish(g.funcs[0], Top(w.stack).pc)
    ensures forall l | 0 <= l < |cs'| && l !in e.done :: cs'[l] == []
  {
    forall l | 0 <= l < |cs'| && l !in e.done ensures cs'[l] == [] {
      if l in Top(w.stack).mask { assert l in Live(w, e); }
    }
    if e.done != w.done { var l :| l in e.done && l !in w.done; }
  }

  // With no call in progress, an issue of the program is one of the kernel.
  lemma IssueInKernel(g: Program, w: Warp, cs: seq<seq<Pc>>, launched: set<Lane>, e: Event, cs': seq<seq<Pc>>,
                      stale: bool)
    requires WellLinked(g) && IssuesIn(g, 0, w, cs, launched, e, cs') && TopOk(g, w, cs, 0, 0, stale)
    requires Inv(w, launched) && MasksLaunched(w.stack, launched)
    requires forall l | 0 <= l < |cs| && l !in w.done :: cs[l] == []
    requires Top(w.stack).pc !in g.calls
    ensures Issues(g.funcs[0], w, e)
    ensures forall l | 0 <= l < |cs'| && l !in e.done :: cs'[l] == []
  {
    StaysInKernel(g, w, cs, launched, e, cs');
    if Divides(IssueOf(w, e)) {
      var live := launched - e.done;
      forall l | l in live ensures l < |cs'| { assert Held(w.stack, l); }
      var x :| x in Live(w, e);
      assert x in live;
      RpcInKernel(g, Top(w.stack).pc, live, cs', e.rpc);
    }
  }

  lemma {:induction false} Lowest(s: set<Lane>) returns (l: Lane)
    requires s != {}
    ensures l in s && forall m | m in s :: l <= m
    decreases |s|
  {
    l :| l in s;
    var rest := s - {l};
    assert s == rest + {l};
    if rest == {} {
    } else {
      var m := Lowest(rest);
      if m < l { l := m; }
    }
  }

  lemma KernelStep(g: Program, w: Warp, cs: seq<seq<Pc>>, launched: set<Lane>, frames: seq<Frame>, stale: bool,
                   e: Event, cs': seq<seq<Pc>>) returns (stale': bool)
    requires Sound(g) && ProgramInv(g, w, cs, launched, frames, stale) && Running(w, launched) && |frames| == 1
    requires IssuesIn(g, 0, w, cs, launched, e, cs') && Top(w.stack).pc !in g.calls
    ensures Legal(w, e) && ProgramInv(g, Next(w, e), cs', launched, [Frame(0, Next(w, e).stack)], stale')
  {
    TopInKernel(g, w, cs, launched, frames, stale);
    KernelAlone(g, w, cs, launched, frames, stale);
    IssueInKernel(g, w, cs, launched, e, cs', stale);
    stale' := IssueKeepsKernelInv(g.funcs[0], w, e, launched, stale);
    NextMasksLaunched(w, e, launched);
    AloneInv(g, Next(w, e), cs', launched, stale');
  }

  // ---------------------------------------------------------------------------------------------
  // An ordinary instruction in a called function

  // In a called function nobody finishes.
  lemma NobodyFinishes(g: Program, w: Warp, cs: seq<seq<Pc>>, launched: set<Lane>, f: nat, j: nat, e: Event,
                       cs': seq<seq<Pc>>, stale: bool)
    requires Sound(g) && TopOk(g, w, cs, f, j, stale) && IssuesIn(g, f, w, cs, launched, e, cs')
    requires (j > 0 && f > 0) || Top(w.stack).pc in g.calls
    ensures e.done == w.done && Live(w, e) == Top(w.stack).mask
  {
    forall l | l in e.done ensures l in w.done {}
  }

  lemma LaneGoesOn(g: Program, k: Kernel, p: Pc, cs: seq<Pc>, q: Pc, cs': seq<Pc>)
    requires WellLinked(g) && LayoutOk(k) && p !in g.calls && p !in g.rets && MovesIn(g, k, p, cs, q, cs')
    ensures May(k, p, q) && cs' == cs
  {
  }

  lemma LaneReturns(g: Program, k: Kernel, p: Pc, cs: seq<Pc>, q: Pc, cs': seq<Pc>)
    requires WellLinked(g) && Valid(k) && NeverDividesForGood(k) && p !in g.calls && MayFinish(k, p)
             && MovesIn(g, k, p, cs, q, cs')
    ensures cs != [] && q == cs[|cs| - 1] && cs' == cs[..|cs| - 1]
  {
    RetIsTheOnlyWay(k, p, q);
  }

  lemma RetIsTheOnlyWay(k: Kernel, p: Pc, q: Pc)
    requires Valid(k) && NeverDividesForGood(k) && MayFinish(k, p)
    ensures !May(k, p, q)
  {
    if May(k, p, q) {
      GoesToStart(k, p, q);
      FinishMeansExit(k, BlockOf(k, p));
      assert false;
    }
  }

  lemma NeverExits(k: Kernel, top: Entry, a: Issue)
    requires Valid(k) && NeverDividesForGood(k) && forall l | l in a.live :: l < |a.npc| && May(k, top.pc, a.npc[l])
    ensures !Exits(k, top, a) && (Divides(a) ==> !AsksForReturnPc(k, top.pc))
  {
    if Divides(a) {
      var x, y :| x in a.live && y in a.live && x < |a.npc| && y < |a.npc| && a.npc[x] != a.npc[y];
      TwoWays(k, top.pc, a.npc[x], a.npc[y]);
    }
  }

  // An ordinary instruction there is an issue of that function.
  lemma IssueInCallee(g: Program, w: Warp, cs: seq<seq<Pc>>, launched: set<Lane>, f: nat, j: nat, e: Event,
                      cs': seq<seq<Pc>>)
    requires Sound(g) && TopOk(g, w, cs, f, j, false) && f > 0 && j > 0 && IssuesIn(g, f, w, cs, launched, e, cs')
    requires Top(w.stack).pc !in g.calls && !MayFinish(g.funcs[f], Top(w.stack).pc)
    ensures e.done == w.done && Live(w, e) == Top(w.stack).mask && e.op == OtherOp && cs' == cs
    ensures Issues(g.funcs[f], w, e) && !Exits(g.funcs[f], Top(w.stack), IssueOf(w, e))
  {
    var k, p, top := g.funcs[f], Top(w.stack).pc, Top(w.stack);
    NobodyFinishes(g, w, cs, launched, f, j, e, cs', false);
    forall l | l in top.mask ensures l < |e.npc| && May(k, p, e.npc[l]) && cs'[l] == cs[l] {
      LaneGoesOn(g, k, p, cs[l], e.npc[l], cs'[l]);
    }
    assert cs' == cs;
    NeverExits(k, top, IssueOf(w, e));
  }

  // What is done to the stack is done to its top frame.
  lemma SegmentReplaced(below: seq<Entry>, seg: seq<Entry>, stack: seq<Entry>, s: seq<Entry>, c: Change)
    returns (seg': seq<Entry>)
    requires |seg| > 0 && stack == below + seg && ReplacesTop(stack, s, c)
    ensures s == below + seg' && ReplacesTop(seg, seg', c)
  {
    var n := |below|;
    forall i | 0 <= i < n ensures s[i] == below[i] { assert s[i] == stack[i]; }
    assert s[..n] == below;
    seg' := s[n..];
    SameLower(seg, stack, s, seg', c, n);
    SameSiblings(seg, stack, s, seg', c, n);
    AllHaveSiblings(seg, stack, s, seg', c, n);
  }

  // seg is the upper part of stack, and seg' that of s.
  ghost predicate Upper(seg: seq<Entry>, stack: seq<Entry>, s: seq<Entry>, seg': seq<Entry>, c: Change, n: nat) {
    |seg| > 0 && ReplacesTop(stack, s, c) && n <= |s| && n <= |stack| && seg == stack[n..] && seg' == s[n..]
  }

  lemma SameLower(seg: seq<Entry>, stack: seq<Entry>, s: seq<Entry>, seg': seq<Entry>, c: Change, n: nat)
    requires Upper(seg, stack, s, seg', c, n)
    ensures Top(stack) == Top(seg) && FirstSibling(stack, c) == n + FirstSibling(seg, c)
            && FirstSibling(seg, c) <= |seg'|
    ensures forall i | 0 <= i < |seg| - 1 :: seg'[i] == seg[i]
    ensures c.kept ==> seg'[|seg| - 1] == Top(seg).(pc := c.recvg)
  {
    forall i | 0 <= i < |seg| - 1 ensures seg'[i] == seg[i] { assert s[n + i] == stack[n + i]; }
  }

  lemma SameSiblings(seg: seq<Entry>, stack: seq<Entry>, s: seq<Entry>, seg': seq<Entry>, c: Change, n: nat)
    requires Upper(seg, stack, s, seg', c, n)
    ensures forall i | FirstSibling(seg, c) <= i < |seg'| ::
              && IsSibling(seg'[i], Top(seg), c) && seg'[i].kind == (if i == |seg| - 1 then Top(seg).kind else Normal)
              && (c.split ==> seg'[i].mask != Top(seg).mask)
    ensures forall i, k | FirstSibling(seg, c) <= i < k < |seg'| :: seg'[i].pc != seg'[k].pc
  {
    assert forall i | FirstSibling(seg, c) <= i < |seg'| :: seg'[i] == s[n + i];
  }

  lemma AllHaveSiblings(seg: seq<Entry>, stack: seq<Entry>, s: seq<Entry>, seg': seq<Entry>, c: Change, n: nat)
    requires Upper(seg, stack, s, seg', c, n)
    ensures forall l | l in c.live && !Converges(c.npc[l], Top(seg)) && c.npc[l] != c.recvg ::
              exists i :: FirstSibling(seg, c) <= i < |seg'| && seg'[i].pc == c.npc[l]
  {
    forall l | l in c.live && !Converges(c.npc[l], Top(seg)) && c.npc[l] != c.recvg
      ensures exists i :: FirstSibling(seg, c) <= i < |seg'| && seg'[i].pc == c.npc[l] {
      var i :| FirstSibling(stack, c) <= i < |s| && s[i].pc == c.npc[l];
      assert seg'[i - n].pc == c.npc[l];
    }
  }

  // The CALL entry stays at the bottom of its frame, with all its lanes.
  lemma CallEntryStays(k: Kernel, seg: seq<Entry>, seg': seq<Entry>, c: Change, a: Issue, done: set<Lane>)
    requires Valid(k) && SegmentOk(k, seg, done) && Replacement(k, seg, seg', c, a, done, done, false, false)
    requires c.live == Top(seg).mask != {}
    ensures |seg'| > 0 && seg'[0].mask == seg[0].mask && seg'[0].kind == Call
  {
    if |seg| == 1 {
      var top := seg[0];
      if c.split { DividesAtBranch(k, top, a); }
      if !c.kept {
        var l :| l in c.live;
        assert !Converges(c.npc[l], top) && c.npc[l] != c.recvg;
        var i :| FirstSibling(seg, c) <= i < |seg'| && seg'[i].pc == c.npc[l];
        OneGroupStays(seg, seg', c);
      }
    }
  }

  lemma OneGroupStays(seg: seq<Entry>, seg': seq<Entry>, c: Change)
    requires |seg| == 1 && ReplacesTop(seg, seg', c) && !c.split && !c.kept && |seg'| == 1 && seg[0].kind == Call
    requires c.recvg == NULL_PC && c.live == seg[0].mask
    ensures seg'[0].mask == seg[0].mask
  {
    forall l | l in c.live ensures l in seg'[0].mask {
      var i :| FirstSibling(seg, c) <= i < |seg'| && seg'[i].pc == c.npc[l];
      assert IsSibling(seg'[0], seg[0], c);
    }
  }

  lemma SegmentKinds(seg: seq<Entry>, seg': seq<Entry>, c: Change)
    requires ReplacesTop(seg, seg', c) && |seg'| > 0 && seg'[0].mask == seg[0].mask
    requires forall i | 0 <= i < |seg| :: seg[i].kind == (if i == 0 then Call else Normal) && seg[i].mask <= seg[0].mask
    ensures forall i | 0 <= i < |seg'| ::
              seg'[i].kind == (if i == 0 then Call else Normal) && seg'[i].mask <= seg'[0].mask
  {
    forall i | 0 <= i < |seg'|
      ensures seg'[i].kind == (if i == 0 then Call else Normal) && seg'[i].mask <= seg'[0].mask {
      if i < |seg| - 1 { assert seg'[i] == seg[i]; } else { assert seg'[i].mask <= Top(seg).mask; }
    }
  }

  lemma SegmentEntries(k: Kernel, seg: seq<Entry>, seg': seq<Entry>, c: Change, a: Issue, done: set<Lane>)
    requires Valid(k) && Replacement(k, seg, seg', c, a, done, done, false, false)
    requires EntriesOk(k, seg, done, false) && AllWait(seg)
    ensures EntriesOk(k, seg', done, false)
  {
    forall i | 0 <= i < |seg'| ensures EntryOk(k, seg'[i], false) && seg'[i].mask !! done {
      if i < |seg| - 1 {
        assert seg'[i] == seg[i];
      } else {
        UpperEntryOk(k, seg, seg', c, a, done, done, false, false, i);
      }
    }
  }

  lemma SegmentStep(k: Kernel, seg: seq<Entry>, seg': seq<Entry>, c: Change, a: Issue, done: set<Lane>)
    requires Valid(k) && SegmentOk(k, seg, done) && Replacement(k, seg, seg', c, a, done, done, false, false)
    requires c.live == Top(seg).mask != {}
    ensures SegmentOk(k, seg', done) && seg'[0].mask == seg[0].mask
  {
    CallEntryStays(k, seg, seg', c, a, done);
    ReplaceWaits(k, seg, seg', c, a, done, done, false, false);
    SegmentEntries(k, seg, seg', c, a, done);
    SegmentKinds(seg, seg', c);
  }

  // All frames but the last are the same.
  lemma OtherCalleesOk(g: Program, frames: seq<Frame>, frames': seq<Frame>, done: set<Lane>)
    requires WellLinked(g) && CalleesOk(g, frames, done) && 0 < |frames'| <= |frames| + 1
    requires forall i | 0 <= i < |frames'| - 1 :: frames'[i] == frames[i]
    requires |frames'| > 1 ==> CalleeOk(g, frames'[|frames'| - 1], done)
    ensures CalleesOk(g, frames', done)
  {
    forall i | 1 <= i < |frames'| ensures CalleeAt(g, frames', done, i) {
      if i < |frames'| - 1 { assert CalleeAt(g, frames, done, i); }
    }
  }

  // The top frame changes, those below do not.
  lemma TopFrameChanges(g: Program, frames: seq<Frame>, cs: seq<seq<Pc>>, done: set<Lane>, seg': seq<Entry>,
                        frames': seq<Frame>)
    requires |frames| > 1 && CallsLinked(g, frames, cs) && DepthOk(frames, cs, done)
    requires frames' == frames[|frames| - 1 := Frame(frames[|frames| - 1].f, seg')]
    requires |seg'| > 0 && |frames[|frames| - 1].seg| > 0 && seg'[0].mask == frames[|frames| - 1].seg[0].mask
    ensures CallsLinked(g, frames', cs) && DepthOk(frames', cs, done)
    ensures StackOf(frames') == StackOf(frames[..|frames| - 1]) + seg'
  {
    assert frames'[..|frames| - 1] == frames[..|frames| - 1];
    forall i | 1 <= i < |frames'| ensures CallAt(g, frames', cs, i) { assert CallAt(g, frames, cs, i); }
    forall i, l: Lane | InFrame(frames', i, l) && 0 <= l < |cs| && l !in done ensures |cs[l]| == i {
      assert InFrame(frames, i, l);
    }
  }

  // Only Legal for what is neither a call nor a return.
  lemma OtherIsLegal(k: Kernel, w: Warp, e: Event)
    requires Valid(k) && Issues(k, w, e) && e.op == OtherOp
    ensures Legal(w, e) && OrdinaryStep(w, e)
  {
  }

  // The invariants of the stack as such.
  lemma CalleeStepInv(g: Program, w: Warp, cs: seq<seq<Pc>>, launched: set<Lane>, f: nat, j: nat, e: Event,
                      cs': seq<seq<Pc>>)
    requires Sound(g) && TopOk(g, w, cs, f, j, false) && f > 0 && j > 0 && IssuesIn(g, f, w, cs, launched, e, cs')
    requires Inv(w, launched) && MasksLaunched(w.stack, launched)
    requires Top(w.stack).pc !in g.calls && !MayFinish(g.funcs[f], Top(w.stack).pc)
    ensures OrdinaryStep(w, e) && Issues(g.funcs[f], w, e) && e.done == w.done && cs' == cs
    ensures Inv(Next(w, e), launched) && MasksLaunched(Next(w, e).stack, launched)
  {
    IssueInCallee(g, w, cs, launched, f, j, e, cs');
    OtherIsLegal(g.funcs[f], w, e);
    NeverDividesNeverReturnsThere(g.funcs[f]);
    TablePostDominates(g.funcs[f], w, e, false);
    NextKeepsInv(w, e, launched);
    NextMasksLaunched(w, e, launched);
  }

  lemma CalleeStepSegment(k: Kernel, w: Warp, e: Event, below: seq<Entry>, seg: seq<Entry>) returns (seg': seq<Entry>)
    requires Valid(k) && NeverDividesForGood(k) && SegmentOk(k, seg, w.done) && w.stack == below + seg
    requires OrdinaryStep(w, e) && Issues(k, w, e) && e.done == w.done && Top(seg).mask != {}
    ensures Next(w, e).stack == below + seg' && SegmentOk(k, seg', w.done) && seg'[0].mask == seg[0].mask
  {
    assert Top(w.stack) == Top(seg) && EntryOk(k, Top(seg), false) && Top(seg).mask !! w.done;
    NeverExits(k, Top(seg), IssueOf(w, e));
    var c, stale' := IssueReplaces(k, w, e, false);
    seg' := SegmentReplaced(below, seg, w.stack, Next(w, e).stack, c);
    assert Replacement(k, seg, seg', c, IssueOf(w, e), w.done, w.done, false, false);
    SegmentStep(k, seg, seg', c, IssueOf(w, e), w.done);
  }

  // The invariant with another top frame.
  lemma AnotherTopFrame(g: Program, w: Warp, cs: seq<seq<Pc>>, launched: set<Lane>, frames: seq<Frame>, stale: bool,
                        fr: Frame, w': Warp, seg': seq<Entry>, frames': seq<Frame>)
    requires WellLinked(g) && ProgramInv(g, w, cs, launched, frames, stale) && |frames| > 1
             && fr == frames[|frames| - 1]
    requires CalleeOk(g, fr, w.done) && SegmentOk(g.funcs[fr.f], seg', w.done) && seg'[0].mask == fr.seg[0].mask
    requires w'.done == w.done && |w'.pcs| == |w.pcs| && w'.stack == StackOf(frames[..|frames| - 1]) + seg'
    requires Inv(w', launched) && MasksLaunched(w'.stack, launched) && (stale ==> BaseOk(g.funcs[0], w', cs, launched))
    requires frames' == frames[|frames| - 1 := Frame(fr.f, seg')]
    ensures ProgramInv(g, w', cs, launched, frames', stale)
  {
    TopFrameChanges(g, frames, cs, w.done, seg', frames');
    OtherCalleesOk(g, frames, frames', w.done);
  }

  lemma CalleeStep(g: Program, w: Warp, cs: seq<seq<Pc>>, launched: set<Lane>, frames: seq<Frame>, stale: bool,
                   fr: Frame, e: Event, cs': seq<seq<Pc>>) returns (frames': seq<Frame>)
    requires Sound(g) && ProgramInv(g, w, cs, launched, frames, stale) && |frames| > 1 && fr == frames[|frames| - 1]
    requires IssuesIn(g, fr.f, w, cs, launched, e, cs') && Top(w.stack).pc !in g.calls
    requires !MayFinish(g.funcs[fr.f], Top(w.stack).pc)
    ensures Legal(w, e) && ProgramInv(g, Next(w, e), cs', launched, frames', stale)
  {
    var j, below := |frames| - 1, StackOf(frames[..|frames| - 1]);
    TopInCallee(g, w, cs, launched, frames, stale, fr);
    CalleeStepInv(g, w, cs, launched, fr.f, j, e, cs');
    TopFrame(frames, below, fr);
    var seg' := CalleeStepSegment(g.funcs[fr.f], w, e, below, fr.seg);
    if stale { CallStackKept(g.funcs[0], w, cs, launched, e, j); }
    frames' := frames[j := Frame(fr.f, seg')];
    AnotherTopFrame(g, w, cs, launched, frames, stale, fr, Next(w, e), seg', frames');
  }

  lemma CallStackKept(k: Kernel, w: Warp, cs: seq<seq<Pc>>, launched: set<Lane>, e: Event, j: nat)
    requires LayoutOk(k) && Legal(w, e) && e.done == w.done && BaseOk(k, w, cs, launched) && j > 0
    requires forall l | l in Top(w.stack).mask :: l < |cs| && |cs[l]| == j
    ensures BaseOk(k, Next(w, e), cs, launched)
  {
  }

  // ---------------------------------------------------------------------------------------------
  // A call

  ghost predicate Nests(frames: seq<Frame>, j: int) {
    1 < j < |frames| && |frames[j - 1].seg| > 0 && |frames[j].seg| > 0
      && frames[j].seg[0].mask <= frames[j - 1].seg[0].mask
  }

  lemma FrameNests(g: Program, frames: seq<Frame>, cs: seq<seq<Pc>>, done: set<Lane>, j: int)
    requires WellLinked(g) && 1 < j && CallAt(g, frames, cs, j) && CalleeAt(g, frames, done, j - 1)
    ensures Nests(frames, j)
  {
    assert Top(frames[j - 1].seg).mask <= frames[j - 1].seg[0].mask;
  }

  lemma {:induction false} FramesNest(frames: seq<Frame>, i: nat, j: nat)
    requires 1 <= i < j < |frames| && forall m | i < m <= j :: Nests(frames, m)
    ensures |frames[i].seg| > 0 && |frames[j].seg| > 0 && frames[j].seg[0].mask <= frames[i].seg[0].mask
    decreases j
  {
    assert Nests(frames, j);
    if j == i + 1 {
    } else {
      FramesNest(frames, i, j - 1);
    }
  }

  // A lane of the top frame is in no lower one.
  lemma NotInLower(g: Program, frames: seq<Frame>, cs: seq<seq<Pc>>, done: set<Lane>, i: nat, l: Lane)
    requires WellLinked(g) && CalleesOk(g, frames, done) && CallsLinked(g, frames, cs) && i + 1 < |frames|
    requires |frames[|frames| - 1].seg| > 0 && l in frames[|frames| - 1].seg[0].mask
    ensures !InFrame(frames, i, l)
  {
    var j := |frames| - 1;
    forall m | i + 1 < m <= j ensures Nests(frames, m) { FrameNests(g, frames, cs, done, m); }
    if i + 1 < j { FramesNest(frames, i + 1, j); }
  }

  // Whatever happens to lanes above, what the frames know of call stacks stays.
  lemma StillCalled(g: Program, caller: Frame, callee: Frame, cs: seq<seq<Pc>>, cs': seq<seq<Pc>>, j: nat)
    requires CalledBy(g, caller, callee, cs, j) && |cs'| == |cs|
    requires forall l | 0 <= l < |cs| && |cs[l]| >= j :: |cs'[l]| >= j && cs'[l][..j] == cs[l][..j]
    ensures CalledBy(g, caller, callee, cs', j)
  {
    forall l | l in callee.seg[0].mask ensures l < |cs'| && |cs'[l]| >= j && cs'[l][j - 1] == cs[l][j - 1] {
      assert cs'[l][..j][j - 1] == cs[l][..j][j - 1];
    }
  }

  // The frame of a call that has just been made.
  function NewFrame(g: Program, site: CallSite, mask: set<Lane>): Frame
    requires site.callee < |g.funcs|
  {
    Frame(site.callee, [Entry(g.funcs[site.callee].entry, mask, NULL_PC, Call)])
  }

  lemma NewFrameOk(g: Program, site: CallSite, mask: set<Lane>, done: set<Lane>)
    requires WellLinked(g) && 1 <= site.callee < |g.funcs| && mask !! done
    ensures CalleeOk(g, NewFrame(g, site, mask), done)
  {
    var k := g.funcs[site.callee];
    assert PcPath(k, [k.entry]);
  }

  lemma CallIsLegal(g: Program, w: Warp, cs: seq<seq<Pc>>, launched: set<Lane>, f: nat, j: nat, e: Event,
                    cs': seq<seq<Pc>>, stale: bool)
    requires Sound(g) && TopOk(g, w, cs, f, j, stale) && IssuesIn(g, f, w, cs, launched, e, cs')
    requires Inv(w, launched) && Top(w.stack).pc in g.calls
    ensures CallSiteOk(g.funcs[f], Top(w.stack).pc, g.calls[Top(w.stack).pc], |g.funcs|)
    ensures Legal(w, e) && e.op == CallOp && e.done == w.done && Live(w, e) == Top(w.stack).mask != {}
    ensures Next(w, e).stack == w.stack + NewFrame(g, g.calls[Top(w.stack).pc], Top(w.stack).mask).seg
    ensures forall l | l in Top(w.stack).mask :: l < |cs| && cs'[l] == cs[l] + [g.calls[Top(w.stack).pc].after]
  {
    var top, site := Top(w.stack), g.calls[Top(w.stack).pc];
    assert CallSiteOk(g.funcs[f], top.pc, site, |g.funcs|);
    NobodyFinishes(g, w, cs, launched, f, j, e, cs', stale);
    forall l | l in top.mask ensures l < |e.npc| && e.npc[l] == g.funcs[site.callee].entry != NULL_PC {
      assert MovesIn(g, g.funcs[f], top.pc, cs[l], e.npc[l], cs'[l]);
    }
    UniformOneGroup(top.mask, e.npc);
    GroupsPartition(top.mask, e.npc);
    var l :| l in top.mask;
    assert e.npc[l] == Groups(top.mask, e.npc)[0].pc;
  }

  // What the frames know when a call has been made.
  lemma CallLinksFrames(g: Program, frames: seq<Frame>, cs: seq<seq<Pc>>, site: CallSite, mask: set<Lane>,
                        cs': seq<seq<Pc>>, frames': seq<Frame>)
    requires |frames| > 0 && CallsLinked(g, frames, cs) && |cs'| == |cs|
    requires |frames[|frames| - 1].seg| > 0 && var top := Top(frames[|frames| - 1].seg);
             top.pc in g.calls && g.calls[top.pc] == site && top.mask == mask
    requires site.callee < |g.funcs| && frames' == frames + [NewFrame(g, site, mask)]
    requires forall l | l in mask :: l < |cs| && |cs[l]| == |frames| - 1 && cs'[l] == cs[l] + [site.after]
    requires forall l | 0 <= l < |cs| && l !in mask :: cs'[l] == cs[l]
    ensures CallsLinked(g, frames', cs')
  {
    forall i | 1 <= i < |frames'| ensures CallAt(g, frames', cs', i) {
      if i < |frames| {
        assert CallAt(g, frames, cs, i);
        forall l | 0 <= l < |cs| && |cs[l]| >= i ensures |cs'[l]| >= i && cs'[l][..i] == cs[l][..i] {}
        StillCalled(g, frames[i - 1], frames[i], cs, cs', i);
      }
    }
  }

  lemma CallDepths(g: Program, frames: seq<Frame>, cs: seq<seq<Pc>>, done: set<Lane>, fr: Frame, mask: set<Lane>,
                   cs': seq<seq<Pc>>, frames': seq<Frame>)
    requires WellLinked(g) && |frames| > 0 && CalleesOk(g, frames, done) && CallsLinked(g, frames, cs)
    requires DepthOk(frames, cs, done) && |cs'| == |cs|
    requires |fr.seg| > 0 && fr.seg[0].mask == mask && frames' == frames + [fr]
    requires |frames| > 1 ==> |frames[|frames| - 1].seg| > 0 && mask <= frames[|frames| - 1].seg[0].mask
    requires forall l | l in mask :: l < |cs| && |cs'[l]| == |frames|
    requires forall l | 0 <= l < |cs| && l !in mask :: cs'[l] == cs[l]
    ensures DepthOk(frames', cs', done)
  {
    forall i, l: Lane | InFrame(frames', i, l) && 0 <= l < |cs'| && l !in done ensures |cs'[l]| == i {
      if i < |frames| {
        assert InFrame(frames, i, l);
        if i + 1 < |frames| && l in mask { NotInLower(g, frames, cs, done, i, l); }
      }
    }
  }

  lemma CallBase(g: Program, w: Warp, cs: seq<seq<Pc>>, launched: set<Lane>, e: Event, cs': seq<seq<Pc>>, j: nat,
                 site: CallSite)
    requires WellLinked(g) && Legal(w, e) && e.done == w.done && BaseOk(g.funcs[0], w, cs, launched)
             && |cs'| == |cs| == |w.pcs|
    requires forall l | l in Top(w.stack).mask :: l < |cs| && |cs[l]| == j && cs'[l] == cs[l] + [site.after]
    requires forall l | 0 <= l < |cs| && l !in Top(w.stack).mask :: cs'[l] == cs[l]
    requires j == 0 ==> Beyond(g.funcs[0], site.after)
    ensures BaseOk(g.funcs[0], Next(w, e), cs', launched)
  {
    forall l | l in launched && l !in w.done ensures l < |cs'| && Beyond(g.funcs[0], InKernel(e.npc[l], cs'[l])) {
      assert Beyond(g.funcs[0], InKernel(w.pcs[l], cs[l]));
    }
  }

  // The top entry of a frame, and what its lanes know of it.
  ghost predicate Calls(g: Program, frames: seq<Frame>, w: Warp, cs: seq<seq<Pc>>, site: CallSite, cs': seq<seq<Pc>>) {
    && |frames| > 0 && |frames[|frames| - 1].seg| > 0 && |w.stack| > 0 && Top(w.stack) == Top(frames[|frames| - 1].seg)
    && Top(w.stack).pc in g.calls && g.calls[Top(w.stack).pc] == site && 1 <= site.callee < |g.funcs| && |cs'| == |cs|
    && Top(w.stack).mask !! w.done
    && (forall l | l in Top(w.stack).mask :: l < |cs| && |cs[l]| == |frames| - 1 && cs'[l] == cs[l] + [site.after])
    && (forall l | 0 <= l < |cs| && l !in Top(w.stack).mask :: cs'[l] == cs[l])
  }

  lemma CallFrames(g: Program, frames: seq<Frame>, w: Warp, cs: seq<seq<Pc>>, site: CallSite, cs': seq<seq<Pc>>,
                   frames': seq<Frame>)
    requires WellLinked(g) && Calls(g, frames, w, cs, site, cs')
             && frames' == frames + [NewFrame(g, site, Top(w.stack).mask)]
    requires CalleesOk(g, frames, w.done) && CallsLinked(g, frames, cs) && DepthOk(frames, cs, w.done)
    ensures CalleesOk(g, frames', w.done) && CallsLinked(g, frames', cs') && DepthOk(frames', cs', w.done)
    ensures StackOf(frames') == StackOf(frames) + NewFrame(g, site, Top(w.stack).mask).seg
  {
    var j, mask := |frames| - 1, Top(w.stack).mask;
    assert frames'[..|frames|] == frames;
    CallLinksFrames(g, frames, cs, site, mask, cs', frames');
    NewFrameOk(g, site, mask, w.done);
    OtherCalleesOk(g, frames, frames', w.done);
    if j > 0 { assert CalleeAt(g, frames, w.done, j); }
    CallDepths(g, frames, cs, w.done, NewFrame(g, site, mask), mask, cs', frames');
  }

  lemma CallIsMade(g: Program, w: Warp, cs: seq<seq<Pc>>, launched: set<Lane>, frames: seq<Frame>, stale: bool, f: nat,
                   e: Event, cs': seq<seq<Pc>>, site: CallSite)
    requires Sound(g) && ProgramInv(g, w, cs, launched, frames, stale) && Running(w, launched)
             && f == frames[|frames| - 1].f
    requires IssuesIn(g, f, w, cs, launched, e, cs') && Top(w.stack).pc in g.calls && site == g.calls[Top(w.stack).pc]
    ensures Legal(w, e) && e.op == CallOp && Live(w, e) != {} && e.done == w.done && Calls(g, frames, w, cs, site, cs')
    ensures Next(w, e).stack == w.stack + NewFrame(g, site, Top(w.stack).mask).seg
    ensures stale ==> |frames[0].seg| > 1 && (|frames| == 1 ==> Beyond(g.funcs[0], site.after))
  {
    TopIsReady(g, w, cs, launched, frames, stale);
    CallIsLegal(g, w, cs, launched, f, |frames| - 1, e, cs', stale && |frames| == 1);
    if stale && |frames| == 1 { BeyondStep(g.funcs[0], Top(w.stack).pc, site.after); }
  }

  lemma CallStep(g: Program, w: Warp, cs: seq<seq<Pc>>, launched: set<Lane>, frames: seq<Frame>, stale: bool, f: nat,
                 e: Event, cs': seq<seq<Pc>>) returns (frames': seq<Frame>)
    requires Sound(g) && ProgramInv(g, w, cs, launched, frames, stale) && Running(w, launched)
             && f == frames[|frames| - 1].f
    requires IssuesIn(g, f, w, cs, launched, e, cs') && Top(w.stack).pc in g.calls
    ensures Legal(w, e) && ProgramInv(g, Next(w, e), cs', launched, frames', stale)
  {
    var site := g.calls[Top(w.stack).pc];
    CallIsMade(g, w, cs, launched, frames, stale, f, e, cs', site);
    CallKeepsInv(w, e, launched);
    NextMasksLaunched(w, e, launched);
    frames' := frames + [NewFrame(g, site, Top(w.stack).mask)];
    CallFrames(g, frames, w, cs, site, cs', frames');
    if stale { CallBase(g, w, cs, launched, e, cs', |frames| - 1, site); }
  }

  // ---------------------------------------------------------------------------------------------
  // A return

  // Only the CALL entry gets to a ret: the others wait for a block before it.
  lemma OnlyCallReturns(k: Kernel, seg: seq<Entry>, done: set<Lane>)
    requires Valid(k) && SegmentOk(k, seg, done) && MayFinish(k, Top(seg).pc)
    ensures |seg| == 1
  {
    var top := Top(seg);
    if |seg| > 1 {
      assert EntryOk(k, top, false) && Waits(k, top);
      FinishWaitsForNothing(k, top, Issue({}, [], true, NULL_PC), false);
    }
  }

  // An entry moves on from a call.
  lemma EntryMoves(k: Kernel, x: Entry, p: Pc, stale: bool)
    requires Valid(k) && EntryOk(k, x, stale) && May(k, x.pc, p) && p != x.recvg
    ensures EntryOk(k, x.(pc := p), stale)
  {
    var a := Issue({0}, [p], false, NULL_PC);
    assert 0 in a.live && a.npc[0] == p;
    MovedEntryOk(k, x, a, stale, x.(pc := p), false);
  }

  lemma ReturnedShape(seg: seq<Entry>, p: Pc)
    requires AllWait(seg) && |seg| > 0 && p != NULL_PC
    ensures |Returned(seg, p)| > 0 && AllWait(Returned(seg, p)) && |Returned(seg, p)| <= |seg|
    ensures forall i | 0 <= i < |Returned(seg, p)| ::
              Returned(seg, p)[i].kind == seg[i].kind && Returned(seg, p)[i].mask == seg[i].mask
    ensures |seg| > 1 ==> Returned(seg, p)[0] == seg[0]
  {
  }

  lemma EntriesMove(k: Kernel, seg: seq<Entry>, done: set<Lane>, stale: bool, p: Pc)
    requires Valid(k) && EntriesOk(k, seg, done, stale) && AllWait(seg) && |seg| > 0 && (stale ==> |seg| > 1)
    requires May(k, Top(seg).pc, p) && p != NULL_PC && (Top(seg).kind == Call ==> |seg| == 1)
    ensures EntriesOk(k, Returned(seg, p), done, stale)
  {
    var n, s := |seg| - 1, Returned(seg, p);
    assert EntryOk(k, seg[n], stale);
    if p != seg[n].recvg { EntryMoves(k, seg[n], p, stale); }
    forall i | (if stale then 1 else 0) <= i < |s| ensures EntryOk(k, s[i], stale) && s[i].mask !! done {
      assert EntryOk(k, seg[i], stale) && seg[i].mask !! done;
    }
  }

  // The lanes of the top frame know where to return, and do.
  ghost predicate Returns(frames: seq<Frame>, w: Warp, cs: seq<seq<Pc>>, after: Pc, npc: seq<Pc>, cs': seq<seq<Pc>>) {
    && |frames| > 1 && |w.stack| > 0 && |frames[|frames| - 1].seg| == 1 && Top(w.stack) == frames[|frames| - 1].seg[0]
    && |cs'| == |cs| == |w.pcs| == |npc|
    && (forall l | l in Top(w.stack).mask ::
          l < |cs| && |cs[l]| == |frames| - 1 && npc[l] == after == cs[l][|frames| - 2]
            && cs'[l] == cs[l][..|frames| - 2])
    && (forall l | 0 <= l < |cs| && l !in Top(w.stack).mask :: cs'[l] == cs[l] && npc[l] == w.pcs[l])
  }

  lemma LanesReturn(g: Program, w: Warp, cs: seq<seq<Pc>>, launched: set<Lane>, f: nat, j: nat, e: Event,
                    cs': seq<seq<Pc>>)
    requires Sound(g) && TopOk(g, w, cs, f, j, false) && f > 0 && j > 0 && IssuesIn(g, f, w, cs, launched, e, cs')
    requires Top(w.stack).pc !in g.calls && MayFinish(g.funcs[f], Top(w.stack).pc)
    ensures e.op == RetOp && e.done == w.done && Live(w, e) == Top(w.stack).mask
    ensures forall l | l in Top(w.stack).mask :: l < |cs| && e.npc[l] == cs[l][j - 1] && cs'[l] == cs[l][..j - 1]
  {
    NobodyFinishes(g, w, cs, launched, f, j, e, cs', false);
    forall l | l in Top(w.stack).mask ensures l < |cs| && e.npc[l] == cs[l][j - 1] && cs'[l] == cs[l][..j - 1] {
      LaneReturns(g, g.funcs[f], Top(w.stack).pc, cs[l], e.npc[l], cs'[l]);
    }
  }

  lemma ReturnIsMade(g: Program, w: Warp, cs: seq<seq<Pc>>, launched: set<Lane>, frames: seq<Frame>, fr: Frame,
                     caller: Frame, e: Event, cs': seq<seq<Pc>>, after: Pc)
    requires Sound(g) && |frames| > 1 && fr == frames[|frames| - 1] && caller == frames[|frames| - 2]
    requires TopOk(g, w, cs, fr.f, |frames| - 1, false) && CalleeOk(g, fr, w.done) && Top(w.stack) == Top(fr.seg)
    requires IssuesIn(g, fr.f, w, cs, launched, e, cs') && Top(w.stack).pc !in g.calls
    requires MayFinish(g.funcs[fr.f], Top(w.stack).pc)
    requires CalledBy(g, caller, fr, cs, |frames| - 1) && after == g.calls[Top(caller.seg).pc].after
    ensures e.op == RetOp && e.done == w.done && Live(w, e) == Top(w.stack).mask
            && Returns(frames, w, cs, after, e.npc, cs')
    ensures Top(w.stack).kind == Call
  {
    OnlyCallReturns(g.funcs[fr.f], fr.seg, w.done);
    LanesReturn(g, w, cs, launched, fr.f, |frames| - 1, e, cs');
  }

  lemma ReturnIsLegal(w: Warp, e: Event, launched: set<Lane>, after: Pc)
    requires Inv(w, launched) && MasksLaunched(w.stack, launched) && |w.stack| > 1 && Top(w.stack).kind == Call
             && e.op == RetOp && e.done == w.done
    requires |e.npc| == |w.pcs| && Live(w, e) == Top(w.stack).mask && after != NULL_PC
    requires forall l | l in Top(w.stack).mask :: l < |e.npc| && e.npc[l] == after
    requires forall l | 0 <= l < |e.npc| && l !in Top(w.stack).mask :: e.npc[l] == w.pcs[l]
    ensures ReturnStep(w, e) && Next(w, e).stack == Returned(w.stack[..|w.stack| - 1], after)
    ensures Inv(Next(w, e), launched) && MasksLaunched(Next(w, e).stack, launched)
  {
    var top := Top(w.stack);
    assert top.mask != {};
    UniformOneGroup(top.mask, e.npc);
    GroupsPartition(top.mask, e.npc);
    var l :| l in top.mask;
    assert e.npc[l] == Groups(top.mask, e.npc)[0].pc;
    ReturnKeepsInv(w, e, launched);
    NextMasksLaunched(w, e, launched);
  }

  // ---------------------------------------------------------------------------------------------
  // The frames after a return

  lemma ReturnedOnTop(below: seq<Entry>, seg: seq<Entry>, p: Pc)
    requires |seg| > 0
    ensures Returned(below + seg, p) == below + Returned(seg, p)
  {
    var n := |seg| - 1;
    assert (below + seg)[..|below| + n] == below + seg[..n];
  }

  lemma ReturnLinksFrames(g: Program, frames: seq<Frame>, w: Warp, cs: seq<seq<Pc>>, after: Pc, npc: seq<Pc>,
                          cs': seq<seq<Pc>>, seg': seq<Entry>, frames': seq<Frame>)
    requires Returns(frames, w, cs, after, npc, cs') && CallsLinked(g, frames, cs)
    requires frames' == frames[..|frames| - 2] + [Frame(frames[|frames| - 2].f, seg')]
    requires |seg'| > 0 && |frames[|frames| - 2].seg| > 0 && seg'[0].mask == frames[|frames| - 2].seg[0].mask
    ensures CallsLinked(g, frames', cs')
  {
    forall i | 1 <= i < |frames'| ensures CallAt(g, frames', cs', i) {
      assert CallAt(g, frames, cs, i);
      forall l | 0 <= l < |cs| && |cs[l]| >= i ensures |cs'[l]| >= i && cs'[l][..i] == cs[l][..i] {}
      StillCalled(g, frames[i - 1], frames[i], cs, cs', i);
    }
  }

  lemma ReturnDepths(g: Program, frames: seq<Frame>, w: Warp, cs: seq<seq<Pc>>, after: Pc, npc: seq<Pc>,
                     cs': seq<seq<Pc>>, seg': seq<Entry>, frames': seq<Frame>)
    requires WellLinked(g) && Returns(frames, w, cs, after, npc, cs')
    requires CalleesOk(g, frames, w.done) && CallsLinked(g, frames, cs)
    requires DepthOk(frames, cs, w.done) && frames' == frames[..|frames| - 2] + [Frame(frames[|frames| - 2].f, seg')]
    requires |seg'| > 0 && |frames[|frames| - 2].seg| > 0 && seg'[0].mask == frames[|frames| - 2].seg[0].mask
    ensures DepthOk(frames', cs', w.done)
  {
    forall i: nat, l: Lane | i + 2 < |frames| && l in Top(w.stack).mask ensures !InFrame(frames, i, l) {
      NotInLower(g, frames, cs, w.done, i, l);
    }
    forall i, l: Lane | InFrame(frames', i, l) && 0 <= l < |cs'| && l !in w.done ensures |cs'[l]| == i {
      assert l in Top(w.stack).mask || InFrame(frames, i, l);
      assert i + 2 < |frames| ==> InFrame(frames, i, l);
    }
  }

  lemma ReturnBase(g: Program, frames: seq<Frame>, w: Warp, cs: seq<seq<Pc>>, launched: set<Lane>, after: Pc, w': Warp,
                   cs': seq<seq<Pc>>)
    requires WellLinked(g) && Returns(frames, w, cs, after, w'.pcs, cs') && w'.done == w.done
    requires BaseOk(g.funcs[0], w, cs, launched)
    ensures BaseOk(g.funcs[0], w', cs', launched)
  {
    forall l | l in launched && l !in w.done
      ensures l < |cs'| && InKernel(w'.pcs[l], cs'[l]) == InKernel(w.pcs[l], cs[l]) {}
  }

  // The caller's frame, sent to the instruction after the call.
  lemma CallerMoves(g: Program, frames: seq<Frame>, done: set<Lane>, stale: bool, caller: Frame, after: Pc)
    requires WellLinked(g) && |frames| > 1 && caller == frames[|frames| - 2] && CalleesOk(g, frames, done)
    requires MainOk(g.funcs[0], frames[0].seg, done, stale) && frames[0].f == 0 && (stale ==> |frames[0].seg| > 1)
    requires |caller.seg| > 0 && Top(caller.seg).pc in g.calls && after == g.calls[Top(caller.seg).pc].after
    ensures after != NULL_PC && |Returned(caller.seg, after)| > 0
            && Returned(caller.seg, after)[0].mask == caller.seg[0].mask
    ensures |frames| > 2 ==> CalleeOk(g, Frame(caller.f, Returned(caller.seg, after)), done)
    ensures |frames| == 2 ==> MainOk(g.funcs[0], Returned(caller.seg, after), done, stale)
  {
    var here := stale && |frames| == 2;
    if |frames| > 2 { assert CalleeAt(g, frames, done, |frames| - 2); }
    var k := g.funcs[caller.f];
    assert EntryOk(k, Top(caller.seg), here);
    assert CallSiteOk(k, Top(caller.seg).pc, g.calls[Top(caller.seg).pc], |g.funcs|);
    ReturnedShape(caller.seg, after);
    EntriesMove(k, caller.seg, done, here, after);
  }

  lemma ReturnedStack(frames: seq<Frame>, stack: seq<Entry>, fr: Frame, caller: Frame, after: Pc, frames': seq<Frame>)
    requires |frames| > 1 && fr == frames[|frames| - 1] && caller == frames[|frames| - 2] && stack == StackOf(frames)
    requires |fr.seg| == 1 && |caller.seg| > 0
    requires frames' == frames[..|frames| - 2] + [Frame(caller.f, Returned(caller.seg, after))]
    ensures |stack| > 1 && Returned(stack[..|stack| - 1], after) == StackOf(frames')
  {
    var j := |frames| - 1;
    var low := StackOf(frames[..j - 1]);
    assert frames[..j][..j - 1] == frames[..j - 1] == frames'[..j - 1];
    TopFrame(frames[..j], low, caller);
    TopFrame(frames', low, frames'[j - 1]);
    assert stack[..|stack| - 1] == low + caller.seg;
    ReturnedOnTop(low, caller.seg, after);
  }

  // The frames when a return has been made.
  lemma ReturnFrames(g: Program, frames: seq<Frame>, w: Warp, cs: seq<seq<Pc>>, stale: bool, after: Pc, npc: seq<Pc>,
                     cs': seq<seq<Pc>>, caller: Frame, frames': seq<Frame>)
    requires WellLinked(g) && Returns(frames, w, cs, after, npc, cs') && CalleesOk(g, frames, w.done)
    requires CallsLinked(g, frames, cs) && DepthOk(frames, cs, w.done)
    requires MainOk(g.funcs[0], frames[0].seg, w.done, stale) && frames[0].f == 0 && (stale ==> |frames[0].seg| > 1)
    requires caller == frames[|frames| - 2] && |caller.seg| > 0 && Top(caller.seg).pc in g.calls
    requires after == g.calls[Top(caller.seg).pc].after
    requires frames' == frames[..|frames| - 2] + [Frame(caller.f, Returned(caller.seg, after))]
    ensures CalleesOk(g, frames', w.done) && CallsLinked(g, frames', cs') && DepthOk(frames', cs', w.done)
    ensures MainOk(g.funcs[0], frames'[0].seg, w.done, stale) && frames'[0].f == 0 && after != NULL_PC
    ensures |frames'| > 1 ==> frames'[0] == frames[0]
  {
    var seg' := Returned(caller.seg, after);
    CallerMoves(g, frames, w.done, stale, caller, after);
    OtherCalleesOk(g, frames, frames', w.done);
    ReturnLinksFrames(g, frames, w, cs, after, npc, cs', seg', frames');
    ReturnDepths(g, frames, w, cs, after, npc, cs', seg', frames');
  }

  lemma ReturnFromCall(g: Program, w: Warp, cs: seq<seq<Pc>>, launched: set<Lane>, frames: seq<Frame>, stale: bool,
                       fr: Frame, e: Event, cs': seq<seq<Pc>>) returns (frames': seq<Frame>)
    requires Sound(g) && ProgramInv(g, w, cs, launched, frames, stale) && |frames| > 1 && fr == frames[|frames| - 1]
    requires IssuesIn(g, fr.f, w, cs, launched, e, cs') && Top(w.stack).pc !in g.calls
    requires MayFinish(g.funcs[fr.f], Top(w.stack).pc)
    ensures Legal(w, e) && ProgramInv(g, Next(w, e), cs', launched, frames', stale)
  {
    var j := |frames| - 1;
    var caller := frames[j - 1];
    TopInCallee(g, w, cs, launched, frames, stale, fr);
    assert CallAt(g, frames, cs, j);
    var after := g.calls[Top(caller.seg).pc].after;
    ReturnIsMade(g, w, cs, launched, frames, fr, caller, e, cs', after);
    frames' := frames[..j - 1] + [Frame(caller.f, Returned(caller.seg, after))];
    ReturnFrames(g, frames, w, cs, stale, after, e.npc, cs', caller, frames');
    ReturnedStack(frames, w.stack, fr, caller, after, frames');
    ReturnIsLegal(w, e, launched, after);
    if stale { ReturnBase(g, frames, w, cs, launched, after, Next(w, e), cs'); }
  }

  // ---------------------------------------------------------------------------------------------
  // Every issue, and whole runs

  // An instruction of a called function, other than a call.
  lemma IssueInside(g: Program, w: Warp, cs: seq<seq<Pc>>, launched: set<Lane>, frames: seq<Frame>, stale: bool,
                    fr: Frame, e: Event, cs': seq<seq<Pc>>) returns (frames': seq<Frame>)
    requires Sound(g) && ProgramInv(g, w, cs, launched, frames, stale) && |frames| > 1 && fr == frames[|frames| - 1]
    requires IssuesIn(g, fr.f, w, cs, launched, e, cs') && Top(w.stack).pc !in g.calls
    ensures Legal(w, e) && ProgramInv(g, Next(w, e), cs', launched, frames', stale)
  {
    if MayFinish(g.funcs[fr.f], Top(w.stack).pc) {
      frames' := ReturnFromCall(g, w, cs, launched, frames, stale, fr, e, cs');
    } else {
      frames' := CalleeStep(g, w, cs, launched, frames, stale, fr, e, cs');
    }
  }

  // The instruction issued is one of the top frame's function.
  lemma IssueInTopFrame(g: Program, w: Warp, cs: seq<seq<Pc>>, launched: set<Lane>, frames: seq<Frame>, stale: bool,
                        e: Event, cs': seq<seq<Pc>>)
    requires Sound(g) && ProgramInv(g, w, cs, launched, frames, stale) && Running(w, launched)
    requires ProgramIssues(g, w, cs, launched, e, cs')
    ensures IssuesIn(g, frames[|frames| - 1].f, w, cs, launched, e, cs')
  {
    var f :| IssuesIn(g, f, w, cs, launched, e, cs');
    TopIsReady(g, w, cs, launched, frames, stale);
    assert f == frames[|frames| - 1].f;
  }

  /** Every issue of a program, calls and returns included, keeps the invariant. */
  lemma IssueKeepsProgramInv(g: Program, w: Warp, cs: seq<seq<Pc>>, launched: set<Lane>, frames: seq<Frame>,
                             stale: bool, e: Event, cs': seq<seq<Pc>>) returns (frames': seq<Frame>, stale': bool)
    requires Sound(g) && ProgramInv(g, w, cs, launched, frames, stale) && Running(w, launched)
    requires ProgramIssues(g, w, cs, launched, e, cs')
    ensures Legal(w, e) && ProgramInv(g, Next(w, e), cs', launched, frames', stale')
  {
    var fr := frames[|frames| - 1];
    IssueInTopFrame(g, w, cs, launched, frames, stale, e, cs');
    stale' := stale;
    if Top(w.stack).pc in g.calls {
      frames' := CallStep(g, w, cs, launched, frames, stale, fr.f, e, cs');
    } else if |frames| == 1 {
      stale' := KernelStep(g, w, cs, launched, frames, stale, e, cs');
      frames' := [Frame(0, Next(w, e).stack)];
    } else {
      frames' := IssueInside(g, w, cs, launched, frames, stale, fr, e, cs');
    }
  }

  // An issue and the call stacks after it.
  datatype Issued = Issued(e: Event, cs: seq<seq<Pc>>)

  ghost function EventsOf(run: seq<Issued>): seq<Event> {
    if run == [] then [] else [run[0].e] + EventsOf(run[1..])
  }

  // Issues while some launched lane lives.
  ghost predicate ProgramRun(g: Program, w: Warp, cs: seq<seq<Pc>>, run: seq<Issued>, launched: set<Lane>)
    decreases |run|
  {
    run != [] ==>
      && Running(w, launched) && ProgramIssues(g, w, cs, launched, run[0].e, run[0].cs)
      && (Legal(w, run[0].e) ==> ProgramRun(g, Next(w, run[0].e), run[0].cs, run[1..], launched))
  }

  // The call stacks after a run.
  ghost function CallsAfter(cs: seq<seq<Pc>>, run: seq<Issued>): seq<seq<Pc>> {
    if run == [] then cs else run[|run| - 1].cs
  }

  lemma {:induction false} RunKeepsProgramInv(g: Program, w: Warp, cs: seq<seq<Pc>>, run: seq<Issued>, es: seq<Event>,
                                              launched: set<Lane>, frames: seq<Frame>, stale: bool)
    returns (frames': seq<Frame>, stale': bool)
    requires Sound(g) && ProgramInv(g, w, cs, launched, frames, stale) && ProgramRun(g, w, cs, run, launched)
    requires es == EventsOf(run)
    ensures LegalRun(w, es) && ProgramInv(g, After(w, es), CallsAfter(cs, run), launched, frames', stale')
    decreases |run|
  {
    if run == [] {
      frames', stale' := frames, stale;
    } else {
      var e, cs' := run[0].e, run[0].cs;
      frames', stale' := IssueKeepsProgramInv(g, w, cs, launched, frames, stale, e, cs');
      assert es[0] == e && es[1..] == EventsOf(run[1..]);
      frames', stale' := RunKeepsProgramInv(g, Next(w, e), cs', run[1..], es[1..], launched, frames', stale');
      assert CallsAfter(cs', run[1..]) == CallsAfter(cs, run);
    }
  }

  // No lane has called anything.
  ghost function NoCalls(n: nat): (cs: seq<seq<Pc>>)
    ensures |cs| == n && forall l | 0 <= l < n :: cs[l] == []
  {
    seq(n, _ => [])
  }

  lemma LaunchProgramInv(g: Program, launched: set<Lane>, n: nat)
    requires WellLinked(g) && launched != {} && Within(launched, n)
    ensures var w := Launched(g.funcs[0].entry, launched, n);
            ProgramInv(g, w, NoCalls(n), launched, [Frame(0, w.stack)], false)
  {
    LaunchKernelInv(g.funcs[0], launched, n);
    AloneInv(g, Launched(g.funcs[0].entry, launched, n), NoCalls(n), launched, false);
  }

  /** Every run of a sound program from the kernel's entry, calls and returns included: all updates are legal, and while
      a lane lives the top entry holds live lanes only, each at the PC that is fetched; the stack is empty only when
      every lane has finished. */
  lemma ProgramRunsInLockStep(g: Program, launched: set<Lane>, n: nat, run: seq<Issued>)
    requires Sound(g) && launched != {} && Within(launched, n)
    requires ProgramRun(g, Launched(g.funcs[0].entry, launched, n), NoCalls(n), run, launched)
    ensures LegalRun(Launched(g.funcs[0].entry, launched, n), EventsOf(run))
    ensures var w := After(Launched(g.funcs[0].entry, launched, n), EventsOf(run));
            && (|w.stack| == 0 ==> launched <= w.done)
            && (Running(w, launched) ==>
                 && |w.stack| > 0 && Top(w.stack).mask != {} && Top(w.stack).mask !! w.done
                 && forall l | l in Top(w.stack).mask :: l < |w.pcs| && w.pcs[l] == Top(w.stack).pc)
  {
    var w0 := Launched(g.funcs[0].entry, launched, n);
    LaunchProgramInv(g, launched, n);
    var frames, stale := RunKeepsProgramInv(g, w0, NoCalls(n), run, EventsOf(run), launched, [Frame(0, w0.stack)],
                                            false);
    var w := After(w0, EventsOf(run));
    if Running(w, launched) { TopIsReady(g, w, CallsAfter(NoCalls(n), run), launched, frames, stale); }
  }
}
