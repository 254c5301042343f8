/**
  What every update of the reconvergence stack keeps, calls and returns included.
  A warp is the stack together with the PC of each lane and the lanes that have finished; an event is
  what the executed instruction did to the lanes (`core_t::updateSIMTStack` reads it off the threads).
 */
module WarpInvariants {
  import opened SimtStack

  datatype Warp = Warp(stack: seq<Entry>, pcs: seq<Pc>, done: set<Lane>)

  datatype Event = Event(npc: seq<Pc>, done: set<Lane>, rpc: Pc, op: Op)

  function Top(stack: seq<Entry>): Entry
    requires |stack| > 0
  {
    stack[|stack| - 1]
  }

  ghost function Live(w: Warp, e: Event): set<Lane>
    requires |w.stack| > 0
  {
    Top(w.stack).mask - e.done
  }

  /** What any executed instruction satisfies: only the lanes of the top entry move or finish, no live
      lane is at the null PC, and calls and returns are uniform. */
  ghost predicate Legal(w: Warp, e: Event) {
    && |w.stack| > 0
    && |e.npc| == |w.pcs|
    && w.done <= e.done <= w.done + Top(w.stack).mask
    && (forall l | 0 <= l < |e.npc| && l !in Top(w.stack).mask :: e.npc[l] == w.pcs[l])
    && UpdateOk(w.stack, Live(w, e), e.npc, e.op)
  }

  ghost function Next(w: Warp, e: Event): Warp
    requires Legal(w, e)
  {
    Warp(Updated(w.stack, Live(w, e), e.npc, e.rpc, e.op), e.npc, e.done)
  }

  /** What the reconvergence PC must be good for: when the lanes split towards a reconvergence PC of their
      own, none of them goes straight to the one the top entry is waiting for. */
  ghost predicate PostDominates(w: Warp, e: Event)
    requires Legal(w, e)
  {
    var top := Top(w.stack);
    Splits(Groups(Live(w, e), e.npc), top) && e.rpc != top.recvg ==>
      forall l | l in Live(w, e) :: e.npc[l] != top.recvg
  }

  // ---------------------------------------------------------------------------------------------
  // The invariants

  // Entry k is the topmost entry that holds lane l.
  ghost predicate Topmost(stack: seq<Entry>, l: Lane, k: int) {
    && 0 <= k < |stack| && l in stack[k].mask
    && forall j | k < j < |stack| :: l !in stack[j].mask
  }

  ghost predicate Held(stack: seq<Entry>, l: Lane) {
    exists k :: 0 <= k < |stack| && l in stack[k].mask
  }

  /** Every live lane is at the PC of the topmost entry that holds it. */
  ghost predicate LockStep(stack: seq<Entry>, pcs: seq<Pc>, done: set<Lane>) {
    forall l: Lane, k: int | Topmost(stack, l, k) && l !in done :: l < |pcs| && pcs[l] == stack[k].pc
  }

  ghost predicate NoneLost(stack: seq<Entry>, launched: set<Lane>, done: set<Lane>) {
    forall l | l in launched && l !in done :: Held(stack, l)
  }

  ghost predicate MasksOk(stack: seq<Entry>, n: nat) {
    forall k | 0 <= k < |stack| :: stack[k].mask != {} && Within(stack[k].mask, n)
  }

  /** Entry k reconverges into entry j: j holds all its lanes, waits at k's reconvergence PC, and no entry
      in between shares a lane with k. */
  ghost predicate JoinsAt(stack: seq<Entry>, k: int, j: int) {
    && 0 <= j < k < |stack|
    && stack[k].mask <= stack[j].mask
    && stack[j].pc == stack[k].recvg
    && stack[j + 1].kind == Normal
    && forall i | j < i < k :: stack[i].mask !! stack[k].mask
  }

  ghost predicate Linked(stack: seq<Entry>) {
    forall k | 0 <= k < |stack| && stack[k].kind == Normal && stack[k].recvg != NULL_PC ::
      exists j :: JoinsAt(stack, k, j)
  }

  // A CALL entry sits on its caller, and above the caller are all the lanes of it that still live.
  ghost predicate CallOk(stack: seq<Entry>, done: set<Lane>, k: int)
    requires 0 <= k < |stack|
  {
    && stack[k].recvg == NULL_PC
    && k > 0 && stack[k].mask <= stack[k - 1].mask
    && forall l | l in stack[k - 1].mask && l !in done :: exists i :: k <= i < |stack| && l in stack[i].mask
  }

  ghost predicate CallsOk(stack: seq<Entry>, done: set<Lane>) {
    forall k | 0 <= k < |stack| && stack[k].kind == Call :: CallOk(stack, done, k)
  }

  ghost predicate Inv(w: Warp, launched: set<Lane>) {
    && MasksOk(w.stack, |w.pcs|)
    && LockStep(w.stack, w.pcs, w.done)
    && NoneLost(w.stack, launched, w.done)
    && Linked(w.stack)
    && CallsOk(w.stack, w.done)
  }

  lemma {:induction false} TopmostExists(stack: seq<Entry>, l: Lane, k: int) returns (t: int)
    requires 0 <= k < |stack| && l in stack[k].mask
    ensures k <= t && Topmost(stack, l, t)
    decreases |stack| - k
  {
    if j :| k < j < |stack| && l in stack[j].mask {
      t := TopmostExists(stack, l, j);
    } else {
      t := k;
    }
  }

  // ---------------------------------------------------------------------------------------------
  // Where the lanes of the top entry go in an ordinary update

  // What the pushed siblings are, in terms of the lanes and not of the order they were found in.
  ghost predicate SiblingsOf(ps: seq<Entry>, live: set<Lane>, npc: seq<Pc>, top: Entry, recvg: Pc)
    requires NextPcsOk(live, npc)
  {
    && (forall i | 0 <= i < |ps| ::
          && ps[i].mask != {} && ps[i].mask == SamePc(live, npc, ps[i].pc)
          && ps[i].recvg == recvg && ps[i].pc != recvg && !Converges(ps[i].pc, top))
    && (forall i, j | 0 <= i < j < |ps| :: ps[i].pc != ps[j].pc)
    && (forall l | l in live && !Converges(npc[l], top) && npc[l] != recvg ::
          exists i :: 0 <= i < |ps| && ps[i].pc == npc[l])
  }

  // Every sibling is one of the groups that stay, in order.
  lemma {:induction false} SiblingsAreGroups(gs: seq<Group>, top: Entry, recvg: Pc, kind: EntryKind, i: int)
    returns (k: int)
    requires 0 <= i < |Siblings(gs, top, recvg, kind)|
    ensures 0 <= k < |gs|
    ensures Siblings(gs, top, recvg, kind)[i] == Entry(gs[k].pc, gs[k].mask, recvg, if i == 0 then kind else Normal)
    ensures gs[k].pc != recvg && !Converges(gs[k].pc, top)
    decreases |gs|
  {
    if Converges(gs[0].pc, top) || gs[0].pc == recvg {
      k := SiblingsAreGroups(gs[1..], top, recvg, kind, i);
      k := k + 1;
    } else if i == 0 {
      k := 0;
    } else {
      k := SiblingsAreGroups(gs[1..], top, recvg, Normal, i - 1);
      k := k + 1;
    }
  }

  lemma {:induction false} SiblingsDistinct(gs: seq<Group>, top: Entry, recvg: Pc, kind: EntryKind, i: int, j: int)
    requires forall a, b | 0 <= a < b < |gs| :: gs[a].pc != gs[b].pc
    requires 0 <= i < j < |Siblings(gs, top, recvg, kind)|
    ensures Siblings(gs, top, recvg, kind)[i].pc != Siblings(gs, top, recvg, kind)[j].pc
    decreases |gs|
  {
    if Converges(gs[0].pc, top) || gs[0].pc == recvg {
      SiblingsDistinct(gs[1..], top, recvg, kind, i, j);
    } else if i == 0 {
      var k := SiblingsAreGroups(gs[1..], top, recvg, Normal, j - 1);
      assert gs[1..][k] == gs[k + 1];
    } else {
      SiblingsDistinct(gs[1..], top, recvg, Normal, i - 1, j - 1);
    }
  }

  lemma {:induction false} GroupsAreSiblings(gs: seq<Group>, top: Entry, recvg: Pc, kind: EntryKind, k: int)
    returns (i: int)
    requires 0 <= k < |gs| && !Converges(gs[k].pc, top) && gs[k].pc != recvg
    ensures 0 <= i < |Siblings(gs, top, recvg, kind)| && Siblings(gs, top, recvg, kind)[i].pc == gs[k].pc
    decreases |gs|
  {
    if k == 0 {
      i := 0;
    } else if Converges(gs[0].pc, top) || gs[0].pc == recvg {
      i := GroupsAreSiblings(gs[1..], top, recvg, kind, k - 1);
    } else {
      i := GroupsAreSiblings(gs[1..], top, recvg, Normal, k - 1);
      i := i + 1;
    }
  }

  lemma PushedShape(live: set<Lane>, npc: seq<Pc>, top: Entry, rpc: Pc)
    requires NextPcsOk(live, npc) && live <= top.mask
    ensures var gs := Groups(live, npc);
            var ps := Pushed(gs, top, rpc);
            && SiblingsOf(ps, live, npc, top, SiblingRecvg(gs, top, rpc))
            && (forall i | 0 <= i < |ps| ::
                  ps[i].kind == (if i == 0 && Kept(gs, top, rpc) == [] then top.kind else Normal))
  {
    var gs := Groups(live, npc);
    GroupsPartition(live, npc);
    var recvg := SiblingRecvg(gs, top, rpc);
    var kind := if Kept(gs, top, rpc) == [] then top.kind else Normal;
    SiblingsShape(live, npc, top, recvg, kind);
    forall i | 0 <= i < |Pushed(gs, top, rpc)|
      ensures Pushed(gs, top, rpc)[i].kind == (if i == 0 then kind else Normal)
    {
      var k := SiblingsAreGroups(gs, top, recvg, kind, i);
    }
  }

  lemma SiblingsShape(live: set<Lane>, npc: seq<Pc>, top: Entry, recvg: Pc, kind: EntryKind)
    requires NextPcsOk(live, npc)
    ensures SiblingsOf(Siblings(Groups(live, npc), top, recvg, kind), live, npc, top, recvg)
  {
    var gs := Groups(live, npc);
    GroupsPartition(live, npc);
    var ps := Siblings(gs, top, recvg, kind);
    forall i | 0 <= i < |ps|
      ensures ps[i].mask != {} && ps[i].mask == SamePc(live, npc, ps[i].pc)
      ensures ps[i].recvg == recvg && ps[i].pc != recvg && !Converges(ps[i].pc, top)
    {
      var k := SiblingsAreGroups(gs, top, recvg, kind, i);
    }
    forall i, j | 0 <= i < j < |ps| ensures ps[i].pc != ps[j].pc {
      SiblingsDistinct(gs, top, recvg, kind, i, j);
    }
    forall l | l in live && !Converges(npc[l], top) && npc[l] != recvg
      ensures exists i :: 0 <= i < |ps| && ps[i].pc == npc[l]
    {
      var k :| 0 <= k < |gs| && gs[k].pc == npc[l];
      var i := GroupsAreSiblings(gs, top, recvg, kind, k);
    }
  }

  // In a split every group is smaller than the top entry.
  lemma SplitIsStrict(live: set<Lane>, npc: seq<Pc>, top: Entry, rpc: Pc, i: int)
    requires NextPcsOk(live, npc) && live <= top.mask
    requires Splits(Groups(live, npc), top)
    requires 0 <= i < |Pushed(Groups(live, npc), top, rpc)|
    ensures Pushed(Groups(live, npc), top, rpc)[i].mask != top.mask
  {
    var gs := Groups(live, npc);
    GroupsPartition(live, npc);
    PushedShape(live, npc, top, rpc);
    var p := Pushed(gs, top, rpc)[i];
    assert |gs| >= 2;
    var g := if gs[0].pc == p.pc then gs[1] else gs[0];
    var l :| l in g.mask;
    assert l in live && npc[l] != p.pc;
  }

  // Without a split at most one group stays.
  lemma {:induction false} NoSplitOneSibling(gs: seq<Group>, top: Entry, recvg: Pc, kind: EntryKind)
    requires !Splits(gs, top)
    ensures |Siblings(gs, top, recvg, kind)| <= 1
    decreases |gs|
  {
    if |gs| == 1 {
      assert Siblings(gs[1..], top, recvg, Normal) == [];
    } else if |gs| > 1 {
      assert Converges(gs[0].pc, top);
      SplitsTail(gs, top);
      NoSplitOneSibling(gs[1..], top, recvg, kind);
    }
  }

  // ---------------------------------------------------------------------------------------------
  // What an ordinary update does to the stack

  // The lanes that go on, where to, whether they split, whether the old top stays, and where the new entries
  // reconverge.
  datatype Change = Change(live: set<Lane>, npc: seq<Pc>, split: bool, kept: bool, recvg: Pc)

  function FirstSibling(stack: seq<Entry>, c: Change): int {
    if c.kept then |stack| else |stack| - 1
  }

  ghost predicate IsSibling(x: Entry, top: Entry, c: Change)
    requires NextPcsOk(c.live, c.npc)
  {
    && x.mask != {} && x.mask == SamePc(c.live, c.npc, x.pc)
    && x.recvg == c.recvg && x.pc != c.recvg && !Converges(x.pc, top)
  }

  /** `s` is `stack` with the top entry replaced: by itself as a reconvergence entry, if the split has a
      reconvergence PC of its own, and by one entry for each next PC at which lanes go on. */
  ghost predicate ReplacesTop(stack: seq<Entry>, s: seq<Entry>, c: Change) {
    && |stack| > 0 && c.live <= Top(stack).mask && NextPcsOk(c.live, c.npc)
    && FirstSibling(stack, c) <= |s|
    && (forall k | 0 <= k < |stack| - 1 :: s[k] == stack[k])
    && (c.kept ==> c.split && s[|stack| - 1] == Top(stack).(pc := c.recvg) && c.recvg != Top(stack).recvg)
    && (!c.kept ==> c.recvg == Top(stack).recvg)
    && (forall k | FirstSibling(stack, c) <= k < |s| ::
          && IsSibling(s[k], Top(stack), c)
          && s[k].kind == (if k == |stack| - 1 then Top(stack).kind else Normal)
          && (c.split ==> s[k].mask != Top(stack).mask))
    && (!c.split ==> |s| <= |stack|)
    && (forall i, k | FirstSibling(stack, c) <= i < k < |s| :: s[i].pc != s[k].pc)
    && (forall l | l in c.live && !Converges(c.npc[l], Top(stack)) && c.npc[l] != c.recvg ::
          exists k :: FirstSibling(stack, c) <= k < |s| && s[k].pc == c.npc[l])
  }

  // No lane of a split jumps to the PC the old top waits for.
  ghost predicate NoShortcut(stack: seq<Entry>, c: Change)
    requires |stack| > 0 && NextPcsOk(c.live, c.npc)
  {
    c.kept ==> forall l | l in c.live :: c.npc[l] != Top(stack).recvg
  }

  ghost predicate OrdinaryStep(w: Warp, e: Event) {
    && Legal(w, e)
    && e.op != CallOp
    && !(e.op == RetOp && Top(w.stack).kind == Call)
  }

  /** An ordinary update replaces the top entry and keeps everything below it. */
  lemma OrdinaryReplacesTop(w: Warp, e: Event) returns (c: Change)
    requires OrdinaryStep(w, e)
    ensures ReplacesTop(w.stack, Next(w, e).stack, c)
    ensures c.live == Live(w, e) && c.npc == e.npc
    ensures c.split == Splits(Groups(Live(w, e), e.npc), Top(w.stack))
    ensures c.recvg == (if c.split then e.rpc else Top(w.stack).recvg)
    ensures PostDominates(w, e) ==> NoShortcut(w.stack, c)
  {
    var gs := Groups(Live(w, e), e.npc);
    var top := Top(w.stack);
    var kept, ps := Kept(gs, top, e.rpc), Pushed(gs, top, e.rpc);
    var s := Next(w, e).stack;
    assert s == w.stack[..|w.stack| - 1] + kept + ps;
    c := Change(Live(w, e), e.npc, Splits(gs, top), kept != [], SiblingRecvg(gs, top, e.rpc));
    PushedShape(Live(w, e), e.npc, top, e.rpc);
    PartsReplaceTop(w.stack, s, kept, ps, c) by {
      forall i | 0 <= i < |ps| && c.split ensures ps[i].mask != top.mask {
        SplitIsStrict(Live(w, e), e.npc, top, e.rpc, i);
      }
      if !c.split { NoSplitOneSibling(gs, top, top.recvg, top.kind); }
    }
  }

  lemma PartsReplaceTop(stack: seq<Entry>, s: seq<Entry>, kept: seq<Entry>, ps: seq<Entry>, c: Change)
    requires |stack| > 0 && c.live <= Top(stack).mask && NextPcsOk(c.live, c.npc)
    requires s == stack[..|stack| - 1] + kept + ps
    requires c.kept == (kept != [])
    requires c.kept ==> kept == [Top(stack).(pc := c.recvg)] && c.split && c.recvg != Top(stack).recvg
    requires !c.kept ==> c.recvg == Top(stack).recvg
    requires SiblingsOf(ps, c.live, c.npc, Top(stack), c.recvg)
    requires forall i | 0 <= i < |ps| :: ps[i].kind == (if i == 0 && !c.kept then Top(stack).kind else Normal)
    requires c.split ==> forall i | 0 <= i < |ps| :: ps[i].mask != Top(stack).mask
    requires !c.split ==> |ps| <= 1
    ensures ReplacesTop(stack, s, c)
  {
    var m := FirstSibling(stack, c);
    forall k | m <= k < |s| ensures s[k] == ps[k - m] {}
    forall l | l in c.live && !Converges(c.npc[l], Top(stack)) && c.npc[l] != c.recvg
      ensures exists k :: m <= k < |s| && s[k].pc == c.npc[l]
    {
      var i :| 0 <= i < |ps| && ps[i].pc == c.npc[l];
      assert s[m + i] == ps[i];
    }
  }

  // ---------------------------------------------------------------------------------------------
  // Replacing the top keeps the invariants

  /** A live lane of the top entry ends in a sibling at its own PC, waits in the old top at the new
      reconvergence PC, or has left a NORMAL entry at that entry's reconvergence PC. */
  lemma WhereTo(stack: seq<Entry>, s: seq<Entry>, c: Change, l: Lane)
    requires ReplacesTop(stack, s, c) && NoShortcut(stack, c) && l in c.live
    requires Top(stack).kind == Call ==> Top(stack).recvg == NULL_PC
    ensures || (exists k :: FirstSibling(stack, c) <= k < |s| && l in s[k].mask)
            || (c.kept && c.npc[l] == c.recvg)
            || (!c.kept && c.npc[l] == Top(stack).recvg && Top(stack).kind == Normal)
  {
    if !Converges(c.npc[l], Top(stack)) && c.npc[l] != c.recvg {
      var k :| FirstSibling(stack, c) <= k < |s| && s[k].pc == c.npc[l];
      assert l in s[k].mask;
    }
  }

  lemma ReplaceLockStep(stack: seq<Entry>, s: seq<Entry>, c: Change, pcs: seq<Pc>, done: set<Lane>, done': set<Lane>)
    requires ReplacesTop(stack, s, c) && NoShortcut(stack, c) && Linked(stack) && CallsOk(stack, done)
    requires LockStep(stack, pcs, done) && |c.npc| == |pcs| && done <= done' && c.live == Top(stack).mask - done'
    requires forall l | 0 <= l < |pcs| && l !in Top(stack).mask :: c.npc[l] == pcs[l]
    ensures LockStep(s, c.npc, done')
  {
    forall l: Lane, k: int | Topmost(s, l, k) && l !in done' ensures l < |c.npc| && c.npc[l] == s[k].pc {
      if l in c.live {
        MovedLane(stack, s, c, done, l, k);
      } else {
        assert Topmost(stack, l, k) && s[k] == stack[k];
      }
    }
  }

  lemma MovedLane(stack: seq<Entry>, s: seq<Entry>, c: Change, done: set<Lane>, l: Lane, k: int)
    requires ReplacesTop(stack, s, c) && NoShortcut(stack, c) && Linked(stack) && CallsOk(stack, done)
    requires l in c.live && Topmost(s, l, k)
    ensures c.npc[l] == s[k].pc
  {
    var n := |stack| - 1;
    assert stack[n].kind == Call ==> CallOk(stack, done, n);
    if k < FirstSibling(stack, c) {
      WhereTo(stack, s, c, l);
      if !c.kept { TopmostIsJoin(stack, n, l, k); }
    }
  }

  // Below a NORMAL entry k that reconverges, the topmost holder of its lanes is the entry it joins.
  lemma TopmostIsJoin(stack: seq<Entry>, k: int, l: Lane, t: int)
    requires Linked(stack) && 0 <= k < |stack| && stack[k].kind == Normal && stack[k].recvg != NULL_PC
    requires l in stack[k].mask && 0 <= t < k && l in stack[t].mask
    requires forall i | t < i < k :: l !in stack[i].mask
    ensures JoinsAt(stack, k, t) && stack[t].pc == stack[k].recvg
  {
    var j :| JoinsAt(stack, k, j);
    assert t == j;
  }

  lemma ReplaceNoneLost(stack: seq<Entry>, s: seq<Entry>, c: Change, launched: set<Lane>, done: set<Lane>,
                        done': set<Lane>)
    requires ReplacesTop(stack, s, c) && NoShortcut(stack, c) && Linked(stack) && CallsOk(stack, done)
    requires NoneLost(stack, launched, done) && done <= done' && c.live == Top(stack).mask - done'
    ensures NoneLost(s, launched, done')
  {
    var n := |stack| - 1;
    assert stack[n].kind == Call ==> CallOk(stack, done, n);
    forall l | l in launched && l !in done' ensures Held(s, l) {
      assert Held(stack, l);
      var k :| 0 <= k < |stack| && l in stack[k].mask;
      if k < n {
        assert l in s[k].mask;
      } else {
        WhereTo(stack, s, c, l);
        if c.kept {
          assert l in s[n].mask;
        } else if c.npc[l] == Top(stack).recvg && Top(stack).kind == Normal {
          var j :| JoinsAt(stack, n, j);
          assert l in s[j].mask;
        }
      }
    }
  }

  lemma ReplaceLinked(stack: seq<Entry>, s: seq<Entry>, c: Change, done: set<Lane>)
    requires ReplacesTop(stack, s, c) && Linked(stack) && CallsOk(stack, done)
    ensures Linked(s)
  {
    var n := |stack| - 1;
    assert stack[n].kind == Call ==> CallOk(stack, done, n);
    forall k | 0 <= k < |s| && s[k].kind == Normal && s[k].recvg != NULL_PC ensures exists j :: JoinsAt(s, k, j) {
      if k < n {
        var j :| JoinsAt(stack, k, j);
        assert JoinsAt(s, k, j);
      } else if k < FirstSibling(stack, c) {
        var j :| JoinsAt(stack, n, j);
        JoinsReplaced(stack, s, n, k, j);
      } else {
        SiblingLinked(stack, s, c, k);
      }
    }
  }

  lemma SiblingLinked(stack: seq<Entry>, s: seq<Entry>, c: Change, k: int)
    requires ReplacesTop(stack, s, c) && Linked(stack)
    requires Top(stack).kind == Call ==> Top(stack).recvg == NULL_PC
    requires FirstSibling(stack, c) <= k < |s| && s[k].recvg != NULL_PC
    ensures exists j :: JoinsAt(s, k, j)
  {
    var n := |stack| - 1;
    forall i | FirstSibling(stack, c) <= i < k ensures s[i].mask !! s[k].mask {}
    if c.kept {
      assert JoinsAt(s, k, n);
    } else {
      var j :| JoinsAt(stack, n, j);
      JoinsReplaced(stack, s, n, k, j);
    }
  }

  // The entries that replace the top join where the top would have joined.
  lemma JoinsReplaced(stack: seq<Entry>, s: seq<Entry>, n: int, k: int, j: int)
    requires JoinsAt(stack, n, j) && n <= k < |s|
    requires forall i | 0 <= i < n :: s[i] == stack[i]
    requires s[k].mask <= stack[n].mask && s[k].recvg == stack[n].recvg
    requires s[n].kind == Normal
    requires forall i | n <= i < k :: s[i].mask !! s[k].mask
    ensures JoinsAt(s, k, j)
  {
  }

  lemma ReplaceCalls(stack: seq<Entry>, s: seq<Entry>, c: Change, done: set<Lane>, done': set<Lane>)
    requires ReplacesTop(stack, s, c) && NoShortcut(stack, c) && Linked(stack) && CallsOk(stack, done)
    requires done <= done' && c.live == Top(stack).mask - done'
    ensures CallsOk(s, done')
  {
    forall k | 0 <= k < |s| && s[k].kind == Call ensures CallOk(s, done', k) {
      assert k < |stack| && stack[k].kind == Call;
      assert CallOk(stack, done, k);
      forall l | l in s[k - 1].mask && l !in done' ensures exists i :: k <= i < |s| && l in s[i].mask {
        var i := StaysAbove(stack, s, c, done, done', k, l);
      }
    }
  }

  lemma StaysAbove(stack: seq<Entry>, s: seq<Entry>, c: Change, done: set<Lane>, done': set<Lane>, k: int, l: Lane)
    returns (i: int)
    requires ReplacesTop(stack, s, c) && NoShortcut(stack, c) && Linked(stack) && CallsOk(stack, done)
    requires done <= done' && c.live == Top(stack).mask - done'
    requires 0 < k < |stack| && stack[k].kind == Call && l in stack[k - 1].mask && l !in done'
    ensures k <= i < |s| && l in s[i].mask
  {
    var n := |stack| - 1;
    assert CallOk(stack, done, k);
    assert stack[n].kind == Call ==> CallOk(stack, done, n);
    i :| k <= i < |stack| && l in stack[i].mask;
    if i == n {
      WhereTo(stack, s, c, l);
      if x :| FirstSibling(stack, c) <= x < |s| && l in s[x].mask {
        i := x;
      } else if !c.kept {
        i := JoinAboveCall(stack, n, k, l);
      }
    }
  }

  // No entry reconverges across a call: what entry t joins is above the caller.
  lemma JoinAboveCall(stack: seq<Entry>, t: int, k: int, l: Lane) returns (j: int)
    requires Linked(stack) && 0 <= t < |stack| && stack[t].kind == Normal && stack[t].recvg != NULL_PC
    requires 0 < k <= t && stack[k].kind == Call && l in stack[k - 1].mask && l in stack[t].mask
    ensures k <= j < t && l in stack[j].mask
  {
    j :| JoinsAt(stack, t, j);
    assert k - 1 < j;
    assert l in stack[j].mask;
  }

  lemma OrdinaryKeepsInv(w: Warp, e: Event, launched: set<Lane>)
    requires OrdinaryStep(w, e) && PostDominates(w, e) && Inv(w, launched)
    ensures Inv(Next(w, e), launched)
  {
    var c := OrdinaryReplacesTop(w, e);
    var s := Next(w, e).stack;
    ReplaceLockStep(w.stack, s, c, w.pcs, w.done, e.done);
    ReplaceNoneLost(w.stack, s, c, launched, w.done, e.done);
    ReplaceLinked(w.stack, s, c, w.done);
    ReplaceCalls(w.stack, s, c, w.done, e.done);
  }

  lemma JoinsPrefix(stack: seq<Entry>, s: seq<Entry>, k: int, j: int)
    requires JoinsAt(stack, k, j) && k < |s| && s[..k + 1] == stack[..k + 1]
    ensures JoinsAt(s, k, j)
  {
  }

  // ---------------------------------------------------------------------------------------------
  // Calls and returns keep the invariants

  lemma CallKeepsInv(w: Warp, e: Event, launched: set<Lane>)
    requires Legal(w, e) && Inv(w, launched) && e.op == CallOp && Live(w, e) != {}
    ensures Inv(Next(w, e), launched)
  {
    var live := Live(w, e);
    var gs := Groups(live, e.npc);
    UniformOneGroup(live, e.npc);
    var s := Next(w, e).stack;
    var n := |w.stack|;
    assert s == w.stack + [Entry(gs[0].pc, live, NULL_PC, Call)];
    forall l: Lane, k: int | Topmost(s, l, k) && l !in e.done ensures l < |e.npc| && e.npc[l] == s[k].pc {
      if k < n {
        assert l !in s[n].mask;
        assert Topmost(w.stack, l, k) by {
          forall j | k < j < n ensures l !in w.stack[j].mask { assert s[j] == w.stack[j]; }
        }
      } else {
        GroupsPartition(live, e.npc);
      }
    }
    forall l | l in launched && l !in e.done ensures Held(s, l) {
      var k :| 0 <= k < n && l in w.stack[k].mask;
      assert s[k] == w.stack[k];
    }
    forall k | 0 <= k < |s| && s[k].kind == Normal && s[k].recvg != NULL_PC ensures exists j :: JoinsAt(s, k, j) {
      var j :| JoinsAt(w.stack, k, j);
      JoinsPrefix(w.stack, s, k, j);
    }
    forall k | 0 <= k < |s| && s[k].kind == Call ensures CallOk(s, e.done, k) {
      if k < n {
        assert CallOk(w.stack, w.done, k);
        forall l | l in s[k - 1].mask && l !in e.done ensures exists i :: k <= i < |s| && l in s[i].mask {
          var i :| k <= i < n && l in w.stack[i].mask;
          assert s[i] == w.stack[i];
        }
      } else {
        forall l | l in s[k - 1].mask && l !in e.done ensures exists i :: k <= i < |s| && l in s[i].mask {
          assert l in s[n].mask;
        }
      }
    }
  }

  ghost predicate ReturnStep(w: Warp, e: Event) {
    Legal(w, e) && e.op == RetOp && Top(w.stack).kind == Call && Live(w, e) != {}
  }

  // The caller, entry c, has become the top at the return PC p, or has reconverged there with an entry below.
  ghost predicate ReturnsTo(stack: seq<Entry>, s: seq<Entry>, c: int, p: Pc) {
    && c == |stack| - 2 >= 0 && p != NULL_PC && stack[c + 1].kind == Call
    && c <= |s| <= c + 1
    && (forall k | 0 <= k < c :: s[k] == stack[k])
    && (if |s| > c then s[c] == stack[c].(pc := p) else stack[c].kind == Normal && stack[c].recvg == p)
  }

  // The lanes that return: all the caller's that live, and all of them are at the return PC.
  ghost predicate Returning(stack: seq<Entry>, c: int, p: Pc, live: set<Lane>, npc: seq<Pc>, done: set<Lane>)
    requires 0 <= c < |stack| - 1
  {
    && NextPcsOk(live, npc)
    && (forall l | l in live :: npc[l] == p)
    && (forall l | l in stack[c].mask && l !in done :: l in live)
    && stack[c + 1].mask <= stack[c].mask
  }

  lemma ReturnParts(w: Warp, e: Event, launched: set<Lane>) returns (c: int, p: Pc)
    requires ReturnStep(w, e) && Inv(w, launched)
    ensures ReturnsTo(w.stack, Next(w, e).stack, c, p) && Returning(w.stack, c, p, Live(w, e), e.npc, e.done)
  {
    var live := Live(w, e);
    UniformOneGroup(live, e.npc);
    GroupsPartition(live, e.npc);
    p := Groups(live, e.npc)[0].pc;
    var n := |w.stack| - 1;
    c := n - 1;
    assert CallOk(w.stack, w.done, n);
    forall l | l in w.stack[c].mask && l !in e.done ensures l in live {
      var i :| n <= i < |w.stack| && l in w.stack[i].mask;
    }
    var l :| l in live;
    assert e.npc[l] == p;
    assert Next(w, e).stack == Returned(w.stack[..n], p);
  }

  lemma ReturnLockStep(stack: seq<Entry>, s: seq<Entry>, c: int, p: Pc, live: set<Lane>, pcs: seq<Pc>, npc: seq<Pc>,
                       done: set<Lane>, done': set<Lane>)
    requires ReturnsTo(stack, s, c, p) && Returning(stack, c, p, live, npc, done')
    requires Linked(stack) && LockStep(stack, pcs, done) && done <= done' && |npc| == |pcs|
    requires forall l | 0 <= l < |npc| && l !in stack[c + 1].mask :: npc[l] == pcs[l]
    ensures LockStep(s, npc, done')
  {
    forall l: Lane, k: int | Topmost(s, l, k) && l !in done' ensures l < |npc| && npc[l] == s[k].pc {
      if k < c {
        if l in stack[c].mask {
          TopmostIsJoin(stack, c, l, k);
        } else {
          assert Topmost(stack, l, k) by {
            forall j | k < j < |stack| ensures l !in stack[j].mask { if j < c { assert s[j] == stack[j]; } }
          }
        }
      }
    }
  }

  lemma ReturnNoneLost(stack: seq<Entry>, s: seq<Entry>, c: int, p: Pc, launched: set<Lane>, done: set<Lane>)
    requires ReturnsTo(stack, s, c, p) && stack[c + 1].mask <= stack[c].mask
    requires Linked(stack) && NoneLost(stack, launched, done)
    ensures NoneLost(s, launched, done)
  {
    forall l | l in launched && l !in done ensures Held(s, l) {
      var k :| 0 <= k < |stack| && l in stack[k].mask;
      if k < c {
        assert s[k] == stack[k];
      } else if |s| > c {
        assert l in s[c].mask;
      } else {
        var j :| JoinsAt(stack, c, j);
        assert s[j] == stack[j];
      }
    }
  }

  lemma ReturnLinked(stack: seq<Entry>, s: seq<Entry>, c: int, p: Pc)
    requires ReturnsTo(stack, s, c, p) && Linked(stack)
    ensures Linked(s)
  {
    forall k | 0 <= k < |s| && s[k].kind == Normal && s[k].recvg != NULL_PC ensures exists j :: JoinsAt(s, k, j) {
      assert stack[k].kind == Normal && stack[k].recvg != NULL_PC;
      var j :| JoinsAt(stack, k, j);
      if k < c {
        JoinsPrefix(stack, s, k, j);
      } else {
        JoinsReplaced(stack, s, c, c, j);
      }
    }
  }

  lemma ReturnStaysAbove(stack: seq<Entry>, s: seq<Entry>, c: int, p: Pc, done: set<Lane>, k: int, l: Lane)
    returns (i: int)
    requires ReturnsTo(stack, s, c, p) && stack[c + 1].mask <= stack[c].mask && Linked(stack)
    requires 0 < k < |s| && stack[k].kind == Call && CallOk(stack, done, k) && l in stack[k - 1].mask && l !in done
    ensures k <= i < |s| && l in s[i].mask
  {
    i :| k <= i < |stack| && l in stack[i].mask;
    if i < c {
      assert s[i] == stack[i];
    } else if c < |s| {
      i := c;
    } else {
      i := JoinAboveCall(stack, c, k, l);
      assert s[i] == stack[i];
    }
  }

  lemma ReturnCalls(stack: seq<Entry>, s: seq<Entry>, c: int, p: Pc, done: set<Lane>, done': set<Lane>)
    requires ReturnsTo(stack, s, c, p) && stack[c + 1].mask <= stack[c].mask && Linked(stack)
    requires CallsOk(stack, done) && done <= done'
    ensures CallsOk(s, done')
  {
    forall k | 0 <= k < |s| && s[k].kind == Call ensures CallOk(s, done', k) {
      assert stack[k].kind == Call && CallOk(stack, done, k) && s[k - 1] == stack[k - 1];
      forall l | l in s[k - 1].mask && l !in done' ensures exists i :: k <= i < |s| && l in s[i].mask {
        var i := ReturnStaysAbove(stack, s, c, p, done, k, l);
      }
    }
  }

  lemma ReturnKeepsInv(w: Warp, e: Event, launched: set<Lane>)
    requires ReturnStep(w, e) && Inv(w, launched)
    ensures Inv(Next(w, e), launched)
  {
    var c, p := ReturnParts(w, e, launched);
    var s := Next(w, e).stack;
    ReturnLockStep(w.stack, s, c, p, Live(w, e), w.pcs, e.npc, w.done, e.done);
    ReturnNoneLost(w.stack, s, c, p, launched, e.done);
    ReturnLinked(w.stack, s, c, p);
    ReturnCalls(w.stack, s, c, p, w.done, e.done);
  }

  /** Every update keeps the invariants: live lanes are at the PC of their topmost entry, none is lost, and
      every NORMAL entry with a reconvergence PC has its lanes in a lower entry waiting at that PC. */
  lemma NextKeepsInv(w: Warp, e: Event, launched: set<Lane>)
    requires Legal(w, e) && PostDominates(w, e) && Inv(w, launched)
    ensures Inv(Next(w, e), launched)
  {
    if e.op == CallOp && Live(w, e) != {} {
      CallKeepsInv(w, e, launched);
    } else if e.op == RetOp && Top(w.stack).kind == Call && Live(w, e) != {} {
      ReturnKeepsInv(w, e, launched);
    } else {
      var f := if OrdinaryStep(w, e) then e else e.(op := OtherOp);
      assert Next(w, f) == Next(w, e);
      OrdinaryKeepsInv(w, f, launched);
    }
  }
}
