/**
  The functional simulator's CTA scheduler: `functionalCoreSim::execute` and `executeWarp` in
  gpgpu-sim/cuda-sim/cuda-sim.cc. Round robin over the warps of a thread block, each with a barrier flag and a
  count of live threads.

  What a warp will do is given as a script: one element for each warp instruction it executes until its threads have
  finished. `log` records what was executed, in order.
 */
module BarrierScheduler {

  // One warp instruction: whether it is a barrier (bar or membar), and how many threads finish in it.
  datatype Instr = Instr(barrier: bool, exits: nat)

  datatype Event = Event(warp: nat, instr: Instr)

  // The script of a warp with n live threads ends with the instruction in which the last of them finishes.
  predicate Finishes(script: seq<Instr>, n: nat) {
    if script == [] then n == 0
    else n > 0 && script[0].exits <= n && Finishes(script[1..], n - script[0].exits)
  }

  // ---------------------------------------------------------------------------------------------
  // What barriers promise

  // Barriers warp v has arrived at, threads of it that have finished, and what it has executed.
  function Arrived(log: seq<Event>, v: nat): nat {
    if log == [] then 0
    else Arrived(log[..|log| - 1], v) + if log[|log| - 1].warp == v && log[|log| - 1].instr.barrier then 1 else 0
  }

  function Exited(log: seq<Event>, v: nat): nat {
    if log == [] then 0
    else Exited(log[..|log| - 1], v) + if log[|log| - 1].warp == v then log[|log| - 1].instr.exits else 0
  }

  function Executed(log: seq<Event>, v: nat): seq<Instr> {
    if log == [] then []
    else Executed(log[..|log| - 1], v) + if log[|log| - 1].warp == v then [log[|log| - 1].instr] else []
  }

  predicate Lives(threads: seq<nat>, log: seq<Event>, v: nat) {
    v < |threads| && Exited(log, v) < threads[v]
  }

  // Warp w may execute next: it lives, and every warp that lives has arrived at as many barriers as w.
  ghost predicate NoneBehind(threads: seq<nat>, log: seq<Event>, w: nat) {
    Lives(threads, log, w) && forall v | Lives(threads, log, v) :: Arrived(log, w) <= Arrived(log, v)
  }

  // Each instruction of the log was one that could go.
  ghost predicate BarrierSafe(threads: seq<nat>, log: seq<Event>) {
    log != [] ==>
      && BarrierSafe(threads, log[..|log| - 1])
      && NoneBehind(threads, log[..|log| - 1], log[|log| - 1].warp)
  }

  /** No warp goes past a barrier that a live warp has not reached: at every instruction of a safe log, a warp that has
      passed n barriers finds every warp that still lives at its n-th barrier or past it. */
  lemma {:induction false} NeverPastABarrier(threads: seq<nat>, log: seq<Event>, k: nat, v: nat)
    requires BarrierSafe(threads, log) && k < |log|
    ensures Lives(threads, log[..k], log[k].warp)
    ensures Lives(threads, log[..k], v) ==> Arrived(log[..k], log[k].warp) <= Arrived(log[..k], v)
  {
    var n := |log| - 1;
    if k == n {
    } else {
      NeverPastABarrier(threads, log[..n], k, v);
      assert log[..n][..k] == log[..k];
    }
  }

  // ---------------------------------------------------------------------------------------------
  // States of a thread block and their invariant

  // What each warp still has to do, its flag and its live threads; the log and the number of releases are history.
  datatype State = State(rest: seq<seq<Instr>>, atBarrier: seq<bool>, live: seq<nat>, log: seq<Event>, releases: nat)

  predicate Sized(c: State, n: nat) {
    |c.rest| == |c.atBarrier| == |c.live| == n
  }

  ghost predicate WarpOk(script: seq<Instr>, threads: nat, c: State, i: nat)
    requires i < |c.rest| && Sized(c, |c.rest|)
  {
    && Executed(c.log, i) + c.rest[i] == script
    && Finishes(c.rest[i], c.live[i])
    && c.live[i] == threads - Exited(c.log, i)
    // A live warp has arrived at one barrier more than were released exactly when its flag is set.
    && (c.live[i] > 0 ==> Arrived(c.log, i) == c.releases + if c.atBarrier[i] then 1 else 0)
  }

  ghost predicate Good(scripts: seq<seq<Instr>>, threads: seq<nat>, c: State) {
    && Sized(c, |scripts|) && |scripts| == |threads|
    && (forall i | 0 <= i < |scripts| :: WarpOk(scripts[i], threads[i], c, i))
    && BarrierSafe(threads, c.log)
  }

  predicate CanIssue(c: State, i: nat)
    requires i < |c.rest| && Sized(c, |c.rest|)
  {
    !c.atBarrier[i] && c.live[i] != 0
  }

  // The next instruction of warp i, if it can issue.
  function Turn(c: State, i: nat): State
    requires i < |c.rest| && Sized(c, |c.rest|)
  {
    if CanIssue(c, i) && c.rest[i] != [] && c.rest[i][0].exits <= c.live[i] then
      State(c.rest[i := c.rest[i][1..]], c.atBarrier[i := c.atBarrier[i] || c.rest[i][0].barrier],
            c.live[i := c.live[i] - c.rest[i][0].exits], c.log + [Event(i, c.rest[i][0])], c.releases)
    else c
  }

  // The turns of the first n warps.
  function Turns(c: State, n: nat): (d: State)
    requires Sized(c, |c.rest|) && n <= |c.rest|
    ensures Sized(d, |c.rest|)
  {
    if n == 0 then c else Turn(Turns(c, n - 1), n - 1)
  }

  function Release(c: State): State {
    c.(atBarrier := seq(|c.atBarrier|, _ => false), releases := c.releases + 1)
  }

  // A warp with live threads has an instruction to execute, and none is behind it if it is not waiting.
  lemma MayGo(scripts: seq<seq<Instr>>, threads: seq<nat>, c: State, i: nat)
    requires Good(scripts, threads, c) && i < |scripts| && CanIssue(c, i)
    ensures c.rest[i] != [] && c.rest[i][0].exits <= c.live[i] && NoneBehind(threads, c.log, i)
  {
    assert WarpOk(scripts[i], threads[i], c, i);
    forall v: nat | Lives(threads, c.log, v) ensures Arrived(c.log, i) <= Arrived(c.log, v) {
      assert WarpOk(scripts[v], threads[v], c, v);
    }
  }

  /** A turn keeps the arrivals counted and the log safe. */
  lemma TurnKeepsGood(scripts: seq<seq<Instr>>, threads: seq<nat>, c: State, i: nat)
    requires Good(scripts, threads, c) && i < |scripts|
    ensures Good(scripts, threads, Turn(c, i))
  {
    if CanIssue(c, i) {
      MayGo(scripts, threads, c, i);
      var d := Turn(c, i);
      assert d.log[..|c.log|] == c.log;
      forall v | 0 <= v < |scripts| ensures WarpOk(scripts[v], threads[v], d, v) {
        assert WarpOk(scripts[v], threads[v], c, v);
        if v == i { assert c.rest[i] == [c.rest[i][0]] + c.rest[i][1..]; }
      }
    }
  }

  // It executes one instruction if the warp can issue.
  lemma TurnLogs(scripts: seq<seq<Instr>>, threads: seq<nat>, c: State, i: nat)
    requires Good(scripts, threads, c) && i < |scripts|
    ensures |Turn(c, i).log| == |c.log| + if CanIssue(c, i) then 1 else 0
  {
    if CanIssue(c, i) { MayGo(scripts, threads, c, i); }
  }

  // Of the first n warps: some live; all that live wait.
  ghost predicate SomeLive(c: State, n: nat)
    requires Sized(c, |c.rest|) && n <= |c.rest|
  {
    exists i :: 0 <= i < n && c.live[i] > 0
  }

  ghost predicate AllWait(c: State, n: nat)
    requires Sized(c, |c.rest|) && n <= |c.rest|
  {
    forall i | 0 <= i < n :: c.atBarrier[i] || c.live[i] == 0
  }

  // A turn of warp n concerns warp n only.
  lemma OneMoreWarp(c: State, n: nat)
    requires Sized(c, |c.rest|) && n < |c.rest|
    ensures var d := Turn(c, n);
            && SomeLive(d, n + 1) == (SomeLive(c, n) || d.live[n] > 0)
            && AllWait(d, n + 1) == (AllWait(c, n) && (d.atBarrier[n] || d.live[n] == 0))
  {
    var d := Turn(c, n);
    forall j | 0 <= j < n ensures d.live[j] == c.live[j] && d.atBarrier[j] == c.atBarrier[j] {}
    if SomeLive(c, n) {
      var j :| 0 <= j < n && c.live[j] > 0;
      assert d.live[j] > 0;
    }
    if AllWait(d, n + 1) {
      forall j | 0 <= j < n ensures c.atBarrier[j] || c.live[j] == 0 { assert d.atBarrier[j] || d.live[j] == 0; }
    }
  }

  // The turns of the first n warps leave the others alone, and change nothing if all n wait.
  lemma {:induction false} TurnsLeave(c: State, n: nat, j: nat)
    requires Sized(c, |c.rest|) && n <= j < |c.rest|
    ensures Turns(c, n).live[j] == c.live[j] && Turns(c, n).atBarrier[j] == c.atBarrier[j]
    ensures Turns(c, n).rest[j] == c.rest[j]
  {
    if n == 0 {
    } else {
      TurnsLeave(c, n - 1, j);
    }
  }

  lemma {:induction false} TurnsIdle(c: State, n: nat)
    requires Sized(c, |c.rest|) && n <= |c.rest| && AllWait(c, n)
    ensures Turns(c, n) == c
  {
    if n == 0 {
    } else {
      TurnsIdle(c, n - 1);
    }
  }

  /** The turns keep the invariant, and execute something if a live warp was free to go. */
  lemma {:induction false} TurnsKeepGood(scripts: seq<seq<Instr>>, threads: seq<nat>, c: State, n: nat, d: State)
    requires Good(scripts, threads, c) && n <= |scripts| && d == Turns(c, n)
    ensures Good(scripts, threads, d)
  {
    if n == 0 {
    } else {
      var e := Turns(c, n - 1);
      TurnsKeepGood(scripts, threads, c, n - 1, e);
      TurnKeepsGood(scripts, threads, e, n - 1);
    }
  }

  lemma {:induction false} TurnsProgress(scripts: seq<seq<Instr>>, threads: seq<nat>, c: State, n: nat, d: State)
    requires Good(scripts, threads, c) && n <= |scripts| && d == Turns(c, n)
    ensures |d.log| >= |c.log| + if AllWait(c, n) then 0 else 1
  {
    if n == 0 {
    } else {
      var e := Turns(c, n - 1);
      TurnsProgress(scripts, threads, c, n - 1, e);
      TurnsKeepGood(scripts, threads, c, n - 1, e);
      TurnsLeave(c, n - 1, n - 1);
      TurnLogs(scripts, threads, e, n - 1);
    }
  }

  // Warp i has executed its next instruction at position k of the log.
  ghost predicate WentAt(c: State, log: seq<Event>, i: nat, k: nat)
    requires i < |c.rest|
  {
    |c.log| <= k < |log| && c.rest[i] != [] && log[k] == Event(i, c.rest[i][0])
  }

  /** What the log has gained since c: of the first n warps, those that lived and did not wait have executed one
      instruction each, their next, in the order of the warps. */
  ghost predicate OneEach(c: State, log: seq<Event>, n: nat)
    requires Sized(c, |c.rest|) && n <= |c.rest|
  {
    && c.log <= log && (forall j, k | |c.log| <= j < k < |log| :: log[j].warp < log[k].warp)
    && (forall k | |c.log| <= k < |log| :: log[k].warp < n && !c.atBarrier[log[k].warp] && c.live[log[k].warp] > 0)
    && (forall i | 0 <= i < n && !c.atBarrier[i] && c.live[i] > 0 :: exists k: nat :: WentAt(c, log, i, k))
  }

  lemma OneMoreWent(c: State, log: seq<Event>, n: nat, more: seq<Event>)
    requires Sized(c, |c.rest|) && n < |c.rest| && OneEach(c, log, n)
    requires if !c.atBarrier[n] && c.live[n] > 0 then c.rest[n] != [] && more == log + [Event(n, c.rest[n][0])]
             else more == log
    ensures OneEach(c, more, n + 1)
  {
    forall i | 0 <= i < n + 1 && !c.atBarrier[i] && c.live[i] > 0 ensures exists k: nat :: WentAt(c, more, i, k) {
      if i < n {
        var k: nat :| WentAt(c, log, i, k);
        assert WentAt(c, more, i, k);
      } else {
        assert WentAt(c, more, i, |log|);
      }
    }
  }

  /** The turns are one for each warp that is free to go, in order. */
  lemma {:induction false} TurnsOneEach(scripts: seq<seq<Instr>>, threads: seq<nat>, c: State, n: nat, d: State)
    requires Good(scripts, threads, c) && n <= |scripts| && d == Turns(c, n)
    ensures OneEach(c, d.log, n)
  {
    if n == 0 {
    } else {
      var e := Turns(c, n - 1);
      TurnsOneEach(scripts, threads, c, n - 1, e);
      TurnsKeepGood(scripts, threads, c, n - 1, e);
      TurnsLeave(c, n - 1, n - 1);
      if CanIssue(e, n - 1) { MayGo(scripts, threads, e, n - 1); }
      OneMoreWent(c, e.log, n - 1, d.log);
    }
  }

  // Some live warp is free to go, unless none lives.
  ghost predicate NotStuck(c: State)
    requires Sized(c, |c.rest|)
  {
    SomeLive(c, |c.rest|) ==> !AllWait(c, |c.rest|)
  }

  /** When every live warp waits, the release keeps the arrivals counted and frees them all. */
  lemma ReleaseKeepsGood(scripts: seq<seq<Instr>>, threads: seq<nat>, c: State)
    requires Good(scripts, threads, c) && AllWait(c, |scripts|)
    ensures Good(scripts, threads, Release(c)) && NotStuck(Release(c))
    ensures SomeLive(Release(c), |scripts|) == SomeLive(c, |scripts|)
  {
    var d := Release(c);
    forall v | 0 <= v < |scripts| ensures WarpOk(scripts[v], threads[v], d, v) {
      assert WarpOk(scripts[v], threads[v], c, v);
    }
    if SomeLive(c, |scripts|) {
      var j :| 0 <= j < |scripts| && c.live[j] > 0;
      assert !(d.atBarrier[j] || d.live[j] == 0);
    }
  }

  ghost function Rounded(c: State): State
    requires Sized(c, |c.rest|)
  {
    var d := Turns(c, |c.rest|);
    if SomeLive(d, |c.rest|) && AllWait(d, |c.rest|) then Release(d) else d
  }

  /** A round keeps the invariant and leaves a live warp free to go, if any lives. If some live warp was free to go, the
      round executes at least one instruction. */
  lemma RoundKeepsGood(scripts: seq<seq<Instr>>, threads: seq<nat>, c: State, d: State, e: State)
    requires Good(scripts, threads, c) && NotStuck(c) && d == Turns(c, |scripts|) && e == Rounded(c)
    ensures Good(scripts, threads, e) && NotStuck(e) && SomeLive(e, |scripts|) == SomeLive(d, |scripts|)
    ensures SomeLive(c, |scripts|) ==> |e.log| > |c.log|
    ensures !SomeLive(c, |scripts|) ==> !SomeLive(e, |scripts|) && e.log == c.log
  {
    TurnsKeepGood(scripts, threads, c, |scripts|, d);
    TurnsProgress(scripts, threads, c, |scripts|, d);
    if !SomeLive(c, |scripts|) { TurnsIdle(c, |scripts|); }
    if AllWait(d, |scripts|) { ReleaseKeepsGood(scripts, threads, d); }
  }

  ghost predicate RoundAt(rounds: seq<State>, n: nat, k: nat) {
    k + 1 < |rounds| && Sized(rounds[k], n) && OneEach(rounds[k], rounds[k + 1].log, n)
  }

  // Each of these states is the one before it after a round.
  ghost predicate InRounds(rounds: seq<State>, n: nat) {
    rounds != [] && forall k: nat | k + 1 < |rounds| :: RoundAt(rounds, n, k)
  }

  lemma OneMoreRound(rounds: seq<State>, n: nat, d: State)
    requires InRounds(rounds, n) && Sized(rounds[|rounds| - 1], n) && OneEach(rounds[|rounds| - 1], d.log, n)
    ensures InRounds(rounds + [d], n)
  {
    var more := rounds + [d];
    forall k: nat | k + 1 < |more| ensures RoundAt(more, n, k) {
      if k + 1 < |rounds| { assert RoundAt(rounds, n, k); }
    }
  }

  // ---------------------------------------------------------------------------------------------
  // How much can be executed

  function Total(scripts: seq<seq<Instr>>): nat {
    if scripts == [] then 0 else Total(scripts[..|scripts| - 1]) + |scripts[|scripts| - 1]|
  }

  function Counts(log: seq<Event>, n: nat): nat {
    if n == 0 then 0 else Counts(log, n - 1) + |Executed(log, n - 1)|
  }

  lemma {:induction false} CountsGrow(log: seq<Event>, e: Event, n: nat)
    ensures Counts(log + [e], n) == Counts(log, n) + if e.warp < n then 1 else 0
  {
    if n == 0 {
    } else {
      CountsGrow(log, e, n - 1);
      assert (log + [e])[..|log|] == log;
    }
  }

  lemma {:induction false} CountsAll(threads: seq<nat>, log: seq<Event>)
    requires BarrierSafe(threads, log)
    ensures Counts(log, |threads|) == |log|
  {
    if log == [] {
      CountsNone(|threads|);
    } else {
      var n := |log| - 1;
      CountsAll(threads, log[..n]);
      CountsGrow(log[..n], log[n], |threads|);
      assert log[..n] + [log[n]] == log;
    }
  }

  lemma {:induction false} CountsNone(n: nat)
    ensures Counts([], n) == 0
  {
    if n == 0 {
    } else {
      CountsNone(n - 1);
    }
  }

  lemma {:induction false} CountsBounded(scripts: seq<seq<Instr>>, log: seq<Event>)
    requires forall i | 0 <= i < |scripts| :: |Executed(log, i)| <= |scripts[i]|
    ensures Counts(log, |scripts|) <= Total(scripts)
  {
    if scripts == [] {
    } else {
      CountsBounded(scripts[..|scripts| - 1], log);
    }
  }

  // No log is longer than all scripts together.
  lemma LogBounded(scripts: seq<seq<Instr>>, threads: seq<nat>, c: State)
    requires Good(scripts, threads, c)
    ensures |c.log| <= Total(scripts)
  {
    forall i | 0 <= i < |scripts| ensures |Executed(c.log, i)| <= |scripts[i]| {
      assert WarpOk(scripts[i], threads[i], c, i);
    }
    CountsBounded(scripts, c.log);
    CountsAll(threads, c.log);
  }

  lemma AllDone(scripts: seq<seq<Instr>>, threads: seq<nat>, c: State)
    requires Good(scripts, threads, c) && !SomeLive(c, |scripts|)
    ensures forall i | 0 <= i < |scripts| :: Executed(c.log, i) == scripts[i]
  {
  }

  // ---------------------------------------------------------------------------------------------
  // The scheduler

  class FunctionalCore {
    const scripts: seq<seq<Instr>>
    const threads: seq<nat>
    var rest: seq<seq<Instr>>
    var atBarrier: seq<bool>
    var live: seq<nat>
    ghost var log: seq<Event>
    ghost var releases: nat

    ghost function View(): State
      reads this
    {
      State(rest, atBarrier, live, log, releases)
    }

    // `initializeCTA` and `createWarp`.
    constructor (scripts: seq<seq<Instr>>, threads: seq<nat>)
      requires |scripts| == |threads|
      requires forall i | 0 <= i < |scripts| :: threads[i] > 0 && Finishes(scripts[i], threads[i])
      ensures this.scripts == scripts && this.threads == threads
      ensures Good(scripts, threads, View()) && NotStuck(View()) && log == []
    {
      this.scripts, this.threads := scripts, threads;
      atBarrier := seq(|threads|, _ => false);
      live := threads;
      rest := scripts;
      log := [];
      releases := 0;
    }

    /** `executeWarp`: one instruction of warp i, if it has live threads and is not waiting. */
    method ExecuteWarp(i: nat, allAtBarrier: bool, someOneLive: bool) returns (all: bool, some: bool)
      requires Good(scripts, threads, View()) && i < |scripts|
      modifies this
      ensures View() == Turn(old(View()), i)
      ensures all == (allAtBarrier && (atBarrier[i] || live[i] == 0))
      ensures some == (someOneLive || live[i] > 0)
    {
      if !atBarrier[i] && live[i] != 0 {
        MayGo(scripts, threads, View(), i);
        var instr := rest[i][0];
        log := log + [Event(i, instr)];
        rest := rest[i := rest[i][1..]];
        live := live[i := live[i] - instr.exits];
        if instr.barrier { atBarrier := atBarrier[i := true]; }
      }
      some := someOneLive || live[i] > 0;
      all := allAtBarrier && !(!atBarrier[i] && live[i] > 0);
    }

    // The loop over the warps.
    method Sweep() returns (all: bool, some: bool)
      requires Good(scripts, threads, View())
      modifies this
      ensures View() == Turns(old(View()), |scripts|)
      ensures OneEach(old(View()), log, |scripts|)
      ensures all == AllWait(View(), |scripts|) && some == SomeLive(View(), |scripts|)
    {
      some, all := false, true;
      for i := 0 to |scripts|
        invariant View() == Turns(old(View()), i)
        invariant all == AllWait(View(), i) && some == SomeLive(View(), i)
      {
        TurnsKeepGood(scripts, threads, old(View()), i, View());
        OneMoreWarp(View(), i);
        all, some := ExecuteWarp(i, all, some);
      }
      TurnsOneEach(scripts, threads, old(View()), |scripts|, View());
    }

    /** One round over the warps and the release that may end it. */
    method Round() returns (some: bool)
      requires Good(scripts, threads, View())
      modifies this
      ensures View() == Rounded(old(View())) && some == SomeLive(Turns(old(View()), |scripts|), |scripts|)
      ensures OneEach(old(View()), log, |scripts|)
    {
      var all;
      all, some := Sweep();
      if some && all {
        releases := releases + 1;
        atBarrier := seq(|atBarrier|, _ => false);
      }
    }

    /** `execute`: terminates whatever the scripts, with every script executed to its end, and no warp ever past a
        barrier that a live one had not reached. It goes in rounds, each with a turn for every warp that was free to go
        at its start. */
    method Execute() returns (ghost rounds: seq<State>)
      requires Good(scripts, threads, View()) && NotStuck(View())
      modifies this
      ensures forall i | 0 <= i < |scripts| :: Executed(log, i) == scripts[i]
      ensures BarrierSafe(threads, log)
      ensures InRounds(rounds, |scripts|) && rounds[0] == old(View()) && rounds[|rounds| - 1] == View()
    {
      var running := true;
      rounds := [View()];
      while running
        invariant Good(scripts, threads, View()) && NotStuck(View())
        invariant InRounds(rounds, |scripts|) && rounds[0] == old(View()) && rounds[|rounds| - 1] == View()
        invariant !running ==> !SomeLive(View(), |scripts|)
        decreases Total(scripts) - |log|, running
      {
        ghost var c := View();
        running := Round();
        RoundKeepsGood(scripts, threads, c, Turns(c, |scripts|), View());
        OneMoreRound(rounds, |scripts|, View());
        rounds := rounds + [View()];
        LogBounded(scripts, threads, View());
      }
      AllDone(scripts, threads, View());
    }
  }
}
