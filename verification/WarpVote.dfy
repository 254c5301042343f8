/**
  `vote.any`, `vote.all`, `vote.uni` and `vote.ballot`: `vote_impl` in gpgpu-sim/cuda-sim/instructions.cc keeps static
  accumulators, and is called lane by lane in ascending order by `core_t::execute_warp_inst_t` in
  gpgpu-sim/abstract_hardware_model.cc for the active lanes whose guard passes. Warps have 32 lanes.
 */
module WarpVote {

  const WARP: nat := 32

  datatype Mode = Any | All | Uni | Ballot

  datatype Result = Pred(value: bool) | Bits(lanes: set<nat>)

  // The static variables, and the registers that results are written to, by thread.
  datatype State = State(first: bool, andAll: bool, orAll: bool, ballot: set<nat>, threads: seq<nat>, last: nat,
                         regs: map<nat, Result>)

  predicate MaskOk(mask: seq<bool>) {
    |mask| == WARP && exists j :: 0 <= j < WARP && mask[j]
  }

  function Highest(mask: seq<bool>, n: nat): (h: nat)
    requires n <= |mask| && exists j :: 0 <= j < n && mask[j]
    ensures h < n && mask[h] && forall j | h < j < n :: !mask[j]
  {
    if mask[n - 1] then n - 1 else Highest(mask, n - 1)
  }

  function Outcome(s: State, mode: Mode): Result {
    match mode
    case Any => Pred(s.orAll)
    case All => Pred(s.andAll)
    case Uni => Pred(s.orAll != s.andAll)
    case Ballot => Bits(s.ballot)
  }

  // One call of `vote_impl`, by a thread with this operand: the first of a warp resets the accumulators, each adds its
  // operand, and the last, in lane h, hands out the result.
  function Opened(s: State, tid: nat, h: nat): State {
    if s.first then State(false, true, false, {}, [], tid - tid % WARP + h, s.regs) else s
  }

  function Cast(t: State, tid: nat, value: bool): State {
    t.(threads := t.threads + [tid], andAll := t.andAll && value, orAll := t.orAll || value,
       ballot := if value then t.ballot + {tid % WARP} else t.ballot)
  }

  function HandedOut(regs: map<nat, Result>, threads: seq<nat>, r: Result): map<nat, Result> {
    regs + map t | t in threads :: r
  }

  function Closed(u: State, tid: nat, mode: Mode): State {
    if tid == u.last then u.(first := true, regs := HandedOut(u.regs, u.threads, Outcome(u, mode))) else u
  }

  function Voted(s: State, tid: nat, mask: seq<bool>, value: bool, mode: Mode): State
    requires MaskOk(mask)
  {
    Closed(Cast(Opened(s, tid, Highest(mask, WARP)), tid, value), tid, mode)
  }

  // The warp of threads base .. base + 31, after its first n lanes.
  function After(s: State, base: nat, mask: seq<bool>, guard: seq<bool>, values: seq<bool>, mode: Mode, n: nat): State
    requires MaskOk(mask) && |guard| == |values| == WARP && n <= WARP
  {
    if n == 0 then s
    else
      var t := After(s, base, mask, guard, values, mode, n - 1);
      if mask[n - 1] && guard[n - 1] then Voted(t, base + n - 1, mask, values[n - 1], mode) else t
  }

  // ---------------------------------------------------------------------------------------------
  // What a vote means

  // The lanes among the first n that execute the vote, and those of them whose operand is true.
  function Voters(mask: seq<bool>, guard: seq<bool>, n: nat): set<nat>
    requires |mask| == |guard| == WARP && n <= WARP
  {
    set j: nat | 0 <= j < n && mask[j] && guard[j]
  }

  function InFavour(voters: set<nat>, values: seq<bool>): set<nat> {
    set j | j in voters && j < |values| && values[j]
  }

  // The result over a set of voters: some are in favour, all are, exactly one of these, or the set of those who are.
  function Tally(voters: set<nat>, values: seq<bool>, mode: Mode): Result {
    match mode
    case Any => Pred(InFavour(voters, values) != {})
    case All => Pred(InFavour(voters, values) == voters)
    case Uni => Pred((InFavour(voters, values) != {}) != (InFavour(voters, values) == voters))
    case Ballot => Bits(InFavour(voters, values))
  }

  // The accumulators hold the tally of the voters so far.
  ghost predicate Counting(t: State, regs: map<nat, Result>, base: nat, h: nat, values: seq<bool>, voters: set<nat>) {
    && !t.first && t.last == base + h && t.regs == regs
    && (forall x :: x in t.threads <==> x >= base && x - base in voters)
    && t.orAll == (InFavour(voters, values) != {})
    && t.andAll == (InFavour(voters, values) == voters)
    && t.ballot == InFavour(voters, values)
  }

  // The result has gone to every voter.
  ghost predicate Delivered(t: State, regs: map<nat, Result>, base: nat, voters: set<nat>, r: Result) {
    && t.first
    && (forall x :: x in t.regs <==> x in regs || (x >= base && x - base in voters))
    && (forall x | x in t.regs :: t.regs[x] == if x >= base && x - base in voters then r else regs[x])
  }

  lemma OpenedCounts(s: State, base: nat, n: nat, h: nat, values: seq<bool>)
    requires s.first && base % WARP == 0 && n < WARP
    ensures Counting(Opened(s, base + n, h), s.regs, base, h, values, {})
  {
  }

  lemma CastCounts(t: State, regs: map<nat, Result>, base: nat, h: nat, values: seq<bool>, before: set<nat>, n: nat,
                   voters: set<nat>)
    requires n < WARP && |values| == WARP && base % WARP == 0 && n !in before && voters == before + {n}
    requires Counting(t, regs, base, h, values, before)
    ensures Counting(Cast(t, base + n, values[n]), regs, base, h, values, voters)
  {
    assert (base + n) % WARP == n;
    var was, now := InFavour(before, values), InFavour(voters, values);
    assert now == if values[n] then was + {n} else was;
    assert n !in was;
    if values[n] && was == before { assert now == voters; }
    if now == voters { assert was == now - {n} == voters - {n} == before; }
  }

  lemma ClosedDelivers(u: State, regs: map<nat, Result>, base: nat, h: nat, values: seq<bool>, voters: set<nat>,
                       mode: Mode)
    requires Counting(u, regs, base, h, values, voters)
    ensures Delivered(Closed(u, base + h, mode), regs, base, voters, Tally(voters, values, mode))
  {
  }

  // Where the vote stands after these voters.
  ghost predicate Stands(t: State, s: State, base: nat, h: nat, values: seq<bool>, mode: Mode, voters: set<nat>) {
    if h in voters then Delivered(t, s.regs, base, voters, Tally(voters, values, mode))
    else if voters == {} then t == s
    else Counting(t, s.regs, base, h, values, voters)
  }

  lemma VoterCounts(t: State, s: State, base: nat, h: nat, values: seq<bool>, mode: Mode, n: nat,
                    before: set<nat>, voters: set<nat>, u: State)
    requires |values| == WARP && n < WARP && base % WARP == 0 && n !in before && h !in before && voters == before + {n}
    requires s.first && Stands(t, s, base, h, values, mode, before)
    requires u == Closed(Cast(Opened(t, base + n, h), base + n, values[n]), base + n, mode)
    ensures Stands(u, s, base, h, values, mode, voters)
  {
    if before == {} { OpenedCounts(s, base, n, h, values); }
    var v := Opened(t, base + n, h);
    CastCounts(v, s.regs, base, h, values, before, n, voters);
    ClosedDelivers(Cast(v, base + n, values[n]), s.regs, base, h, values, voters, mode);
  }

  /** Whatever the mask, the guards and the operands: if the highest active lane executes the vote, every lane that does
      receives the tally, and the accumulators are ready for the next warp. If it does not but some lane does, nobody
      receives anything, and the accumulators are left counting. */
  lemma {:induction false} VoteExact(s: State, base: nat, mask: seq<bool>, guard: seq<bool>, values: seq<bool>,
                                     mode: Mode, n: nat, t: State)
    requires MaskOk(mask) && |guard| == |values| == WARP && n <= WARP && base % WARP == 0 && s.first
    requires t == After(s, base, mask, guard, values, mode, n)
    ensures Stands(t, s, base, Highest(mask, WARP), values, mode, Voters(mask, guard, n))
  {
    if n == 0 {
    } else {
      var h, before, voters := Highest(mask, WARP), Voters(mask, guard, n - 1), Voters(mask, guard, n);
      var u := After(s, base, mask, guard, values, mode, n - 1);
      VoteExact(s, base, mask, guard, values, mode, n - 1, u);
      if mask[n - 1] && guard[n - 1] {
        assert voters == before + {n - 1};
        VoterCounts(u, s, base, h, values, mode, n - 1, before, voters, t);
      } else {
        assert voters == before;
      }
    }
  }

  /** An unguarded vote is always delivered. */
  lemma UnguardedVote(s: State, base: nat, mask: seq<bool>, guard: seq<bool>, values: seq<bool>, mode: Mode)
    requires MaskOk(mask) && |guard| == |values| == WARP && base % WARP == 0 && s.first
    requires forall j | 0 <= j < WARP :: guard[j]
    ensures var t, voters := After(s, base, mask, guard, values, mode, WARP), Voters(mask, guard, WARP);
            Delivered(t, s.regs, base, voters, Tally(voters, values, mode))
  {
    VoteExact(s, base, mask, guard, values, mode, WARP, After(s, base, mask, guard, values, mode, WARP));
  }

  /** A guarded vote is ready for the next warp exactly if the highest active lane passes its guard, or no active lane
      does. */
  lemma ReadyForNext(s: State, base: nat, mask: seq<bool>, guard: seq<bool>, values: seq<bool>, mode: Mode)
    requires MaskOk(mask) && |guard| == |values| == WARP && base % WARP == 0 && s.first
    ensures After(s, base, mask, guard, values, mode, WARP).first <==>
            guard[Highest(mask, WARP)] || Voters(mask, guard, WARP) == {}
  {
    VoteExact(s, base, mask, guard, values, mode, WARP, After(s, base, mask, guard, values, mode, WARP));
  }

  // All voters agree, which is what the PTX instruction set defines vote.uni to ask.
  ghost predicate Agree(voters: set<nat>, values: seq<bool>) {
    forall i, j | i in voters && j in voters && i < |values| && j < |values| :: values[i] == values[j]
  }

  /** `vote.uni` answers the opposite: true exactly if the voters disagree. */
  lemma UniIsInverted(voters: set<nat>, values: seq<bool>)
    requires voters != {} && forall j | j in voters :: j < |values|
    ensures Tally(voters, values, Uni) == Pred(!Agree(voters, values))
  {
    var favour := InFavour(voters, values);
    if Agree(voters, values) {
      if i :| i in favour { assert favour == voters; } else { assert favour == {}; }
    } else {
      var i, j :| i in voters && j in voters && values[i] != values[j];
      assert favour != voters && favour != {} by {
        var yes, no := if values[i] then i else j, if values[i] then j else i;
        assert yes in favour && no !in favour;
      }
    }
  }

  // ---------------------------------------------------------------------------------------------
  // The instruction

  class VoteUnit {
    var first: bool
    var andAll: bool
    var orAll: bool
    var ballot: set<nat>
    var threads: seq<nat>
    var last: nat
    var regs: map<nat, Result>

    ghost function View(): State
      reads this
    {
      State(first, andAll, orAll, ballot, threads, last, regs)
    }

    /** `vote_impl`. */
    method Vote(tid: nat, mask: seq<bool>, value: bool, mode: Mode)
      requires MaskOk(mask)
      modifies this
      ensures View() == Voted(old(View()), tid, mask, value, mode)
    {
      var h := HighestActive(mask);
      if first {
        first, threads, andAll, orAll, ballot := false, [], true, false, {};
        last := tid - tid % WARP + h;
      }
      ghost var afterOpening := View();
      assert afterOpening == Opened(old(View()), tid, h);
      threads := threads + [tid];
      andAll, orAll := andAll && value, orAll || value;
      if value { ballot := ballot + {tid % WARP}; }
      ghost var cast := View();
      assert cast == Cast(afterOpening, tid, value);
      if tid == last {
        var r := match mode case Any => Pred(orAll) case All => Pred(andAll) case Uni => Pred(orAll != andAll)
                 case Ballot => Bits(ballot);
        regs := HandedOut(regs, threads, r);
        first := true;
      }
    }

    // The loop that looks for the highest active lane.
    static method HighestActive(mask: seq<bool>) returns (offset: nat)
      requires MaskOk(mask)
      ensures offset == Highest(mask, WARP)
    {
      offset := 31;
      while !mask[offset]
        invariant offset < WARP && forall j | offset < j < WARP :: !mask[j]
        decreases offset
      {
        offset := offset - 1;
      }
    }

    /** The active lanes of a warp whose guard passes, in ascending order. */
    method VoteWarp(base: nat, mask: seq<bool>, guard: seq<bool>, values: seq<bool>, mode: Mode)
      requires MaskOk(mask) && |guard| == |values| == WARP
      modifies this
      ensures View() == After(old(View()), base, mask, guard, values, mode, WARP)
    {
      for t := 0 to WARP
        invariant View() == After(old(View()), base, mask, guard, values, mode, t)
      {
        if mask[t] && guard[t] { Vote(base + t, mask, values[t], mode); }
      }
    }
  }
}
