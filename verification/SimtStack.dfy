/**
  The SIMT reconvergence stack of one warp: `simt_stack::launch` and `simt_stack::update`
  in gpgpu-sim/abstract_hardware_model.cc.

  `update` is modelled three times, from code to meaning:
    - `Stack.Update` keeps the source's nested loops over an edited stack;
    - `Drain` is one pass of the outer loop, as a recursion over the groups still to come;
    - `Ordinary` says what the whole loop leaves behind, without a loop.
 */
module SimtStack {

  type Pc = nat
  type Lane = nat

  // (address_type)-1 on 64 bits
  const NULL_PC: Pc := 0xFFFF_FFFF_FFFF_FFFF

  datatype EntryKind = Normal | Call

  datatype Entry = Entry(pc: Pc, mask: set<Lane>, recvg: Pc, kind: EntryKind)

  const BLANK: Entry := Entry(NULL_PC, {}, NULL_PC, Normal)

  // The only distinction `update` makes between instructions.
  datatype Op = CallOp | RetOp | OtherOp

  // Lanes that leave the top entry for the same next PC.
  datatype Group = Group(pc: Pc, mask: set<Lane>)

  predicate Within(mask: set<Lane>, n: nat) {
    forall l | l in mask :: l < n
  }

  // ---------------------------------------------------------------------------------------------
  // Groups: the lanes of a mask by next PC, the group of the highest lane first

  ghost function Highest(s: set<Lane>): (m: Lane)
    requires s != {}
    ensures m in s && forall x | x in s :: x <= m
  {
    var x :| x in s;
    if s == {x} then x else
      var rest := s - {x};
      assert s == rest + {x};
      var m := Highest(rest);
      if x <= m then m else x
  }

  ghost predicate NextPcsOk(live: set<Lane>, npc: seq<Pc>) {
    forall l | l in live :: l < |npc| && npc[l] != NULL_PC
  }

  ghost function SamePc(live: set<Lane>, npc: seq<Pc>, p: Pc): set<Lane>
    requires NextPcsOk(live, npc)
  {
    set l | l in live && npc[l] == p
  }

  ghost function Groups(live: set<Lane>, npc: seq<Pc>): (gs: seq<Group>)
    requires NextPcsOk(live, npc)
    ensures gs == [] <==> live == {}
    decreases |live|
  {
    if live == {} then [] else
      var p := npc[Highest(live)];
      var g := SamePc(live, npc, p);
      assert Highest(live) in g;
      assert live - g < live;
      SubsetSmaller(live - g, live);
      [Group(p, g)] + Groups(live - g, npc)
  }

  lemma SubsetSmaller<T>(a: set<T>, b: set<T>)
    requires a < b
    ensures |a| < |b|
  {
    assert b == a + (b - a);
    assert b - a != {};
  }

  // Every group is a whole non-empty class of "same next PC", no PC has two groups, and every lane's PC has one.
  ghost predicate Partitions(gs: seq<Group>, live: set<Lane>, npc: seq<Pc>)
    requires NextPcsOk(live, npc)
  {
    && (forall i | 0 <= i < |gs| :: gs[i].mask != {} && gs[i].mask == SamePc(live, npc, gs[i].pc))
    && (forall i, j | 0 <= i < j < |gs| :: gs[i].pc != gs[j].pc)
    && (forall l | l in live :: exists i :: 0 <= i < |gs| && gs[i].pc == npc[l])
  }

  lemma OneMoreGroup(live: set<Lane>, npc: seq<Pc>, g: Group, rest: seq<Group>, gs: seq<Group>)
    requires NextPcsOk(live, npc) && g.mask != {} && g.mask == SamePc(live, npc, g.pc)
    requires Partitions(rest, live - g.mask, npc) && gs == [g] + rest
    ensures Partitions(gs, live, npc)
  {
    forall i | 0 <= i < |gs|
      ensures gs[i].mask != {} && gs[i].mask == SamePc(live, npc, gs[i].pc) && (i > 0 ==> gs[i].pc != g.pc) {
      if 0 < i {
        assert gs[i] == rest[i - 1];
        var l :| l in rest[i - 1].mask;
        assert npc[l] == rest[i - 1].pc && l !in g.mask;
      }
    }
    forall l | l in live ensures exists i :: 0 <= i < |gs| && gs[i].pc == npc[l] {
      if l in g.mask {
        assert gs[0].pc == npc[l];
      } else {
        var i :| 0 <= i < |rest| && rest[i].pc == npc[l];
        assert gs[i + 1].pc == npc[l];
      }
    }
  }

  /** The groups found by the inner loop partition the live lanes by their next PC. */
  lemma {:induction false} GroupsPartition(live: set<Lane>, npc: seq<Pc>)
    requires NextPcsOk(live, npc)
    ensures Partitions(Groups(live, npc), live, npc)
    decreases |live|
  {
    if live == {} {
    } else {
      var p := npc[Highest(live)];
      var g := SamePc(live, npc, p);
      assert Highest(live) in g;
      SubsetSmaller(live - g, live);
      GroupsPartition(live - g, npc);
      OneMoreGroup(live, npc, Group(p, g), Groups(live - g, npc), Groups(live, npc));
    }
  }

  // ---------------------------------------------------------------------------------------------
  // One update

  // A group that reaches the top entry's reconvergence PC leaves the entry; a CALL entry never reconverges.
  predicate Converges(p: Pc, top: Entry) {
    p == top.recvg && top.kind != Call
  }

  /** The rest of the outer loop and the final pop, from a stack whose last entry is the one to fill in. */
  ghost function Drain(stack: seq<Entry>, diverged: bool, top: Entry, gs: seq<Group>, rpc: Pc): seq<Entry>
    requires |stack| > 0
    decreases |gs|
  {
    var n := |stack| - 1;
    if gs == [] then stack[..n]
    else
      var g := gs[0];
      if Converges(g.pc, top) then Drain(stack, diverged, top, gs[1..], rpc)
      else
        var splitsNow := |gs| > 1 && !diverged;
        var d := diverged || splitsNow;
        var s := if splitsNow && rpc != top.recvg then stack[n := stack[n].(pc := rpc)] + [BLANK] else stack;
        if d && g.pc == rpc then Drain(s, d, top, gs[1..], rpc)
        else
          var m := |s| - 1;
          var filled := s[m].(pc := g.pc, mask := g.mask, recvg := if d then rpc else top.recvg);
          Drain(s[m := filled] + [BLANK], d, top, gs[1..], rpc)
  }

  // The warp diverges when some group that stays is not the last one found.
  predicate Splits(gs: seq<Group>, top: Entry) {
    exists i :: 0 <= i < |gs| - 1 && !Converges(gs[i].pc, top)
  }

  // One entry for each group that neither leaves at the top's reconvergence PC nor waits at `recvg`.
  function Siblings(gs: seq<Group>, top: Entry, recvg: Pc, kind: EntryKind): seq<Entry> {
    if gs == [] then []
    else if Converges(gs[0].pc, top) || gs[0].pc == recvg then Siblings(gs[1..], top, recvg, kind)
    else [Entry(gs[0].pc, gs[0].mask, recvg, kind)] + Siblings(gs[1..], top, recvg, Normal)
  }

  // The old top as a reconvergence entry, when the split has a reconvergence PC of its own.
  function Kept(gs: seq<Group>, top: Entry, rpc: Pc): seq<Entry> {
    if Splits(gs, top) && rpc != top.recvg then [top.(pc := rpc)] else []
  }

  function SiblingRecvg(gs: seq<Group>, top: Entry, rpc: Pc): Pc {
    if Splits(gs, top) then rpc else top.recvg
  }

  function Pushed(gs: seq<Group>, top: Entry, rpc: Pc): seq<Entry> {
    Siblings(gs, top, SiblingRecvg(gs, top, rpc), if Kept(gs, top, rpc) == [] then top.kind else Normal)
  }

  /** What one update leaves for an instruction that is neither a call nor a return from a call. */
  function Ordinary(stack: seq<Entry>, gs: seq<Group>, rpc: Pc): seq<Entry>
    requires |stack| > 0
  {
    var n := |stack| - 1;
    stack[..n] + Kept(gs, stack[n], rpc) + Pushed(gs, stack[n], rpc)
  }

  // Pop the CALL entry, send its caller to the return PC and reconverge the caller there if that is due.
  function Returned(base: seq<Entry>, p: Pc): seq<Entry>
    requires |base| > 0
  {
    var n := |base| - 1;
    if p == base[n].recvg && base[n].kind != Call then base[..n] else base[n := base[n].(pc := p)]
  }

  // The new stack after the instruction `op`, when `live` of the top entry's lanes go on to `npc`.
  ghost function Updated(stack: seq<Entry>, live: set<Lane>, npc: seq<Pc>, rpc: Pc, op: Op): seq<Entry>
    requires UpdateOk(stack, live, npc, op)
  {
    var n := |stack| - 1;
    var gs := Groups(live, npc);
    if gs == [] then stack[..n]
    else if op == CallOp then stack + [Entry(gs[0].pc, gs[0].mask, NULL_PC, Call)]
    else if op == RetOp && stack[n].kind == Call then Returned(stack[..n], gs[0].pc)
    else Ordinary(stack, gs, rpc)
  }

  ghost predicate Uniform(live: set<Lane>, npc: seq<Pc>)
    requires NextPcsOk(live, npc)
  {
    forall a, b | a in live && b in live :: npc[a] == npc[b]
  }

  // What the asserts in `update` demand: calls and returns are uniform, and a CALL entry has a caller below it.
  ghost predicate UpdateOk(stack: seq<Entry>, live: set<Lane>, npc: seq<Pc>, op: Op) {
    && |stack| > 0
    && live <= stack[|stack| - 1].mask
    && NextPcsOk(live, npc)
    && (op == CallOp || (op == RetOp && stack[|stack| - 1].kind == Call) ==> Uniform(live, npc))
    && (op == RetOp && stack[|stack| - 1].kind == Call ==> |stack| > 1)
  }

  lemma UniformOneGroup(live: set<Lane>, npc: seq<Pc>)
    requires NextPcsOk(live, npc) && Uniform(live, npc) && live != {}
    ensures |Groups(live, npc)| == 1 && Groups(live, npc)[0].mask == live
  {
  }

  // ---------------------------------------------------------------------------------------------
  // The loop computes the closed form

  // From the moment the warp has diverged, the loop appends siblings with the new reconvergence PC.
  lemma {:induction false} DrainDiverged(stack: seq<Entry>, top: Entry, gs: seq<Group>, rpc: Pc)
    requires |stack| > 0
    ensures Drain(stack, true, top, gs, rpc)
         == stack[..|stack| - 1] + Siblings(gs, top, rpc, stack[|stack| - 1].kind)
    decreases |gs|
  {
    if gs == [] {
    } else {
      var g := gs[0];
      if Converges(g.pc, top) || g.pc == rpc {
        DrainDiverged(stack, top, gs[1..], rpc);
      } else {
        var m := |stack| - 1;
        var next := stack[m := stack[m].(pc := g.pc, mask := g.mask, recvg := rpc)] + [BLANK];
        DrainDiverged(next, top, gs[1..], rpc);
        assert next[..|next| - 1] == stack[..m] + [Entry(g.pc, g.mask, rpc, stack[m].kind)];
      }
    }
  }

  lemma SplitsTail(gs: seq<Group>, top: Entry)
    requires |gs| > 0 && Converges(gs[0].pc, top)
    ensures Splits(gs, top) == Splits(gs[1..], top)
  {
    if Splits(gs, top) {
      var i :| 0 <= i < |gs| - 1 && !Converges(gs[i].pc, top);
      assert gs[1..][i - 1] == gs[i];
    }
    if Splits(gs[1..], top) {
      var i :| 0 <= i < |gs[1..]| - 1 && !Converges(gs[1..][i].pc, top);
      assert gs[i + 1] == gs[1..][i];
    }
  }

  /** The in-place loop of `update` and its final pop leave exactly `Ordinary`. */
  lemma {:induction false} DrainIsOrdinary(stack: seq<Entry>, gs: seq<Group>, rpc: Pc)
    requires |stack| > 0
    requires forall i | 0 <= i < |gs| :: gs[i].pc != NULL_PC
    requires stack[|stack| - 1].kind == Call ==> stack[|stack| - 1].recvg == NULL_PC
    ensures Drain(stack, false, stack[|stack| - 1], gs, rpc) == Ordinary(stack, gs, rpc)
    decreases |gs|
  {
    var n := |stack| - 1;
    var top := stack[n];
    if gs == [] {
    } else if Converges(gs[0].pc, top) {
      SplitsTail(gs, top);
      DrainIsOrdinary(stack, gs[1..], rpc);
    } else if |gs| == 1 {
      DrainLast(stack, gs, rpc);
    } else {
      assert Splits(gs, top) by { assert !Converges(gs[0].pc, top); }
      if rpc != top.recvg {
        var s := stack[n := top.(pc := rpc)] + [BLANK];
        DrainDiverged(s, top, gs, rpc);
        assert s[..|s| - 1] == stack[..n] + [top.(pc := rpc)];
      } else {
        DrainDiverged(stack, top, gs, rpc);
      }
    }
  }

  lemma DrainGroups(stack: seq<Entry>, live: set<Lane>, npc: seq<Pc>, rpc: Pc, gs: seq<Group>)
    requires |stack| > 0 && NextPcsOk(live, npc) && gs == Groups(live, npc)
    requires stack[|stack| - 1].kind == Call ==> stack[|stack| - 1].recvg == NULL_PC
    ensures Drain(stack, false, stack[|stack| - 1], gs, rpc) == Ordinary(stack, gs, rpc)
  {
    GroupsPartition(live, npc);
    forall i | 0 <= i < |gs| ensures gs[i].pc != NULL_PC { var l :| l in gs[i].mask; }
    DrainIsOrdinary(stack, gs, rpc);
  }

  lemma DrainLast(stack: seq<Entry>, gs: seq<Group>, rpc: Pc)
    requires |stack| > 0 && |gs| == 1
    requires gs[0].pc != NULL_PC
    requires stack[|stack| - 1].kind == Call ==> stack[|stack| - 1].recvg == NULL_PC
    requires !Converges(gs[0].pc, stack[|stack| - 1])
    ensures Drain(stack, false, stack[|stack| - 1], gs, rpc) == Ordinary(stack, gs, rpc)
  {
    var n := |stack| - 1;
    var top := stack[n];
    var filled := top.(pc := gs[0].pc, mask := gs[0].mask);
    var s := stack[n := filled] + [BLANK];
    assert Drain(s, false, top, gs[1..], rpc) == s[..|s| - 1] == stack[..n] + [filled];
    assert !Splits(gs, top);
    assert Siblings(gs[1..], top, top.recvg, Normal) == [];
    assert Pushed(gs, top, rpc) == [filled];
  }

  // ---------------------------------------------------------------------------------------------
  // The stack object

  class Stack {
    const warpSize: nat
    var stack: seq<Entry>

    constructor (warpSize: nat)
      ensures this.warpSize == warpSize && stack == []
    {
      this.warpSize := warpSize;
      stack := [];
    }

    method Launch(start: Pc, active: set<Lane>)
      modifies this
      ensures stack == [Entry(start, active, NULL_PC, Normal)]
    {
      stack := [];
      stack := stack + [BLANK.(pc := start, mask := active)];
    }

    /** The inner loop: one group of lanes with the same next PC, taken from the highest lane down.
        Finished lanes are dropped on the way. */
    method TakeGroup(active: set<Lane>, done: set<Lane>, npc: seq<Pc>)
      returns (p: Pc, group: set<Lane>, rest: set<Lane>)
      requires Within(active, warpSize) && |npc| == warpSize
      requires NextPcsOk(active - done, npc)
      ensures p == NULL_PC <==> active - done == {}
      ensures rest <= active - done && (active != {} ==> rest < active)
      ensures p == NULL_PC ==> rest == {}
      ensures p != NULL_PC ==> Groups(active - done, npc) == [Group(p, group)] + Groups(rest, npc)
    {
      p, group, rest := NULL_PC, {}, active;
      ghost var live := active - done;
      var i := warpSize;
      while i > 0
        invariant 0 <= i <= warpSize
        invariant p == NULL_PC <==> forall l | l in live :: l < i
        invariant p != NULL_PC ==> p == npc[Highest(live)]
        invariant group == set l | l in live && i <= l && npc[l] == p
        invariant rest == set l | l in active && (l < i || (l in live && npc[l] != p))
      {
        i := i - 1;
        if i in rest {
          if i in done {
            rest := rest - {i};
          } else if p == NULL_PC {
            assert i in live;
            assert Highest(live) == i;
            p := npc[i];
            group := group + {i};
            rest := rest - {i};
          } else if p == npc[i] {
            group := group + {i};
            rest := rest - {i};
          }
        }
      }
      if live != {} {
        assert group == SamePc(live, npc, p) && Highest(live) in group;
        assert rest == live - group;
      }
    }

    /** The ordinary part of the outer loop's body: what becomes of one group. `gs` are the groups left, this one
        first. */
    method Place(top: Entry, wasDiverged: bool, p: Pc, group: set<Lane>, more: bool, rpc: Pc, ghost gs: seq<Group>)
      returns (diverged: bool)
      requires |stack| > 0 && |gs| > 0 && gs[0] == Group(p, group) && more == (|gs| > 1)
      modifies this
      ensures |stack| > 0
      ensures Drain(stack, diverged, top, gs[1..], rpc) == Drain(old(stack), wasDiverged, top, gs, rpc)
    {
      diverged := wasDiverged;
      if p == top.recvg && top.kind != Call { return; }
      if more && !diverged {
        diverged := true;
        if rpc != top.recvg {
          stack := stack[|stack| - 1 := stack[|stack| - 1].(pc := rpc)] + [BLANK];
        }
      }
      if diverged && p == rpc { return; }
      var m := |stack| - 1;
      stack := stack[m := stack[m].(pc := p, mask := group, recvg := if diverged then rpc else top.recvg)] + [BLANK];
    }

    // The call and return branches of the loop's body.
    method CallOrReturn(p: Pc, group: set<Lane>, isCall: bool)
      requires |stack| > 0 && (!isCall ==> |stack| > 1)
      modifies this
      ensures isCall ==> stack == old(stack) + [Entry(p, group, NULL_PC, Call)]
      ensures !isCall ==> stack == Returned(old(stack)[..old(|stack|) - 1], p)
    {
      if isCall {
        stack := stack + [BLANK.(pc := p, mask := group, kind := Call)];
      } else {
        stack := stack[..|stack| - 1];
        stack := stack[|stack| - 1 := stack[|stack| - 1].(pc := p)];
        if p == stack[|stack| - 1].recvg && stack[|stack| - 1].kind != Call {
          stack := stack[..|stack| - 1];
        }
      }
    }

    /** `simt_stack::update`. */
    method Update(done: set<Lane>, npc: seq<Pc>, rpc: Pc, op: Op)
      requires |stack| > 0
      requires stack[|stack| - 1].mask != {} && Within(stack[|stack| - 1].mask, warpSize)
      requires |npc| == warpSize
      requires UpdateOk(stack, stack[|stack| - 1].mask - done, npc, op)
      requires stack[|stack| - 1].kind == Call ==> stack[|stack| - 1].recvg == NULL_PC
      modifies this
      ensures stack == Updated(old(stack), old(stack[|stack| - 1].mask) - done, npc, rpc, op)
    {
      var top := stack[|stack| - 1];
      var active := top.mask;
      var diverged := false;
      ghost var live := top.mask - done;
      ghost var all := Groups(live, npc);
      var special := op == CallOp || (op == RetOp && top.kind == Call);
      if live != {} && special { UniformOneGroup(live, npc); }
      DrainGroups(stack, live, npc, rpc, all);
      while active != {}
        invariant |stack| > 0
        invariant active == top.mask ==> stack == old(stack) && !diverged
        invariant active == top.mask || (active <= live && (special ==> live == {}))
        invariant Drain(stack, diverged, top, Groups(active - done, npc), rpc) ==
                  Drain(old(stack), false, top, all, rpc)
        decreases active
      {
        ghost var before := Groups(active - done, npc);
        var p, group, rest := TakeGroup(active, done, npc);
        assert rest - done == rest;
        active := rest;
        if p == NULL_PC { continue; }
        assert before[1..] == Groups(rest, npc);
        if special {
          assert active == {};
          CallOrReturn(p, group, op == CallOp);
          return;
        }
        diverged := Place(top, diverged, p, group, active != {}, rpc, before);
      }
      stack := stack[..|stack| - 1];
    }
  }
}
