/**
  The tick event that drives the stream manager: `streamTick` and `scheduleStreamEvent` in
  gem5-gpu/src/gpu/gpgpu-sim/cuda_gpu.cc, and the part of gem5's event queue that they use
  (gem5/src/sim/eventq_impl.hh, gem5/src/sim/eventq.cc). Scheduling an event that is scheduled already fails an
  assertion, and starting a kernel or transfer while another runs makes the GPU panic.
 */
module StreamTick {
  import opened Options
  import opened StreamManager

  // The manager, the flag `streamScheduled`, whether the event is in the queue, and whether an operation runs on the
  // GPU.
  datatype System = System(m: State, scheduled: bool, queued: bool, running: bool)

  datatype Outcome = GoesOn(y: System) | Asserts | Panics

  datatype Cause = Adds(s: nat) | Destroys(s: nat) | Pushes(s: nat, op: Op) | Finishes(s: nat) | Ends(uid: nat) | Tick

  const START := System(INITIAL, false, false, false)

  // ---------------------------------------------------------------------------------------------
  // What happens

  // `EventQueue::schedule`, after which the flag is set.
  function Scheduled(y: System): Outcome {
    if y.queued then Asserts else GoesOn(y.(scheduled := true, queued := true))
  }

  function EventScheduled(y: System): Outcome {
    if y.scheduled then GoesOn(y) else Scheduled(y)
  }

  // The operation that `front` chooses is an event. It is over at once, and schedules the tick itself.
  predicate ChoosesEvent(c: State)
    requires Listed(c)
  {
    Chosen(c).Some? && c.streams[Chosen(c).value].ops[0].Event?
  }

  // The manager when the operation has been started.
  function Operated(c: State): State
    requires Inv(c)
  {
    if ChoosesEvent(c) then Finish(Fronted(c), Chosen(c).value) else Fronted(c)
  }

  lemma OperatedKeepsInv(c: State)
    requires Inv(c)
    ensures Inv(Operated(c))
  {
    FrontKeepsInv(c);
    if Chosen(c).Some? { FinishKeepsInv(Fronted(c), Chosen(c).value); }
  }

  // `beginStreamOperation`.
  function Begun(y: System): Outcome {
    if y.running then Panics else GoesOn(y.(running := true))
  }

  function Started(y: System): Outcome
    requires Inv(y.m)
  {
    var z := y.(m := Operated(y.m));
    if ChoosesEvent(y.m) then EventScheduled(z) else if Chosen(y.m).Some? then Begun(z) else GoesOn(z)
  }

  // The event queue takes the event out before it is processed.
  function Ticked(y: System): Outcome
    requires Inv(y.m)
  {
    match Started(y.(scheduled := false, queued := false))
    case Asserts => Asserts
    case Panics => Panics
    case GoesOn(z) =>
      OperatedKeepsInv(y.m);
      var looked := z.(m := Look(z.m));
      if MayIssue(z.m) then Scheduled(looked) else GoesOn(looked)
  }

  predicate Allowed(y: System, e: Cause) {
    match e
    case Adds(s) => Legal(y.m, AddStream(s))
    case Destroys(s) => Legal(y.m, DestroyStream(s))
    case Pushes(s, op) => Legal(y.m, Push(s, op))
    case Finishes(s) => Legal(y.m, Complete(s)) && y.m.streams[s].ops[0].Transfer?
    case Ends(u) => u > 0 && Legal(y.m, KernelFinished(u))
    case Tick => y.queued
  }

  function React(y: System, e: Cause): Outcome
    requires Inv(y.m) && Allowed(y, e)
  {
    match e
    case Adds(s) => GoesOn(y.(m := Apply(y.m, AddStream(s))))
    case Destroys(s) => GoesOn(y.(m := Apply(y.m, DestroyStream(s))))
    case Pushes(s, op) =>
      EnqueueKeepsInv(y.m, s, op);
      var z := y.(m := Apply(y.m, Push(s, op)));
      if MayIssue(Enqueue(y.m, s, op)) then EventScheduled(z) else GoesOn(z)
    case Finishes(s) => EventScheduled(y.(m := Apply(y.m, Complete(s)), running := false))
    case Ends(u) => EventScheduled(y.(m := Apply(y.m, KernelFinished(u)), running := false))
    case Tick => Ticked(y)
  }

  // ---------------------------------------------------------------------------------------------
  // When it fails

  /** The assertion fails exactly in a tick that issues an event while something else may be issued after it: the event
      has scheduled the tick, and the tick schedules itself again. */
  lemma AssertsExactly(y: System, e: Cause)
    requires Inv(y.m) && Allowed(y, e) && y.scheduled == y.queued
    ensures React(y, e).Asserts? <==> e.Tick? && ChoosesEvent(y.m) && MayIssue((OperatedKeepsInv(y.m); Operated(y.m)))
  {
    OperatedKeepsInv(y.m);
  }

  /** When the tick is in the event queue: after a push if it was or something may be issued, after the end of an
      operation always, and after a tick if that issued an event or something more may be issued. */
  lemma QueuedExactly(y: System, e: Cause)
    requires Inv(y.m) && Allowed(y, e) && y.scheduled == y.queued && React(y, e).GoesOn?
    ensures React(y, e).y.queued <==>
            match e
            case Adds(_) => y.queued
            case Destroys(_) => y.queued
            case Pushes(s, op) => y.queued || (EnqueueKeepsInv(y.m, s, op); MayIssue(Enqueue(y.m, s, op)))
            case Finishes(_) => true
            case Ends(_) => true
            case Tick => ChoosesEvent(y.m) || (OperatedKeepsInv(y.m); MayIssue(Operated(y.m)))
  {
    if e.Tick? { OperatedKeepsInv(y.m); }
  }

  // The streams with an operation in flight.
  ghost function InFlight(c: State): set<nat> {
    set s | s in c.streams && c.streams[s].pending
  }

  // At most one operation is in flight, and the GPU knows.
  ghost predicate OneInFlight(y: System) {
    (forall s, t | s in InFlight(y.m) && t in InFlight(y.m) :: s == t) && (y.running <==> InFlight(y.m) != {})
  }

  /** The GPU panics exactly in a tick that chooses a kernel or transfer while another is in flight. */
  lemma PanicsExactly(y: System, e: Cause)
    requires Inv(y.m) && Allowed(y, e) && OneInFlight(y)
    ensures React(y, e).Panics? <==> e.Tick? && Chosen(y.m).Some? && !ChoosesEvent(y.m) && InFlight(y.m) != {}
  {
    OperatedKeepsInv(y.m);
  }

  lemma EnqueueInFlight(c: State, s: nat, op: Op)
    requires s in c.streams
    ensures InFlight(Enqueue(c, s, op)) == InFlight(c)
  {
  }

  lemma FinishInFlight(c: State, s: nat)
    requires s in c.streams && c.streams[s].ops != []
    ensures InFlight(Finish(c, s)) == InFlight(c) - {s}
  {
  }

  lemma FrontInFlight(c: State)
    requires Listed(c)
    ensures InFlight(Fronted(c)) == InFlight(c) + if Chosen(c).Some? then {Chosen(c).value} else {}
  {
  }

  // An event is over at once, anything else is now in flight.
  lemma OperatedInFlight(c: State)
    requires Inv(c)
    ensures InFlight(Operated(c)) == InFlight(c) + if Chosen(c).Some? && !ChoosesEvent(c) then {Chosen(c).value} else {}
  {
    FrontInFlight(c);
    if ChoosesEvent(c) {
      assert Chosen(c).value !in InFlight(c);
      FinishInFlight(Fronted(c), Chosen(c).value);
    }
  }

  lemma StartedLeaves(y: System, z: System)
    requires Inv(y.m) && Started(y) == GoesOn(z)
    ensures z.m == Operated(y.m)
    ensures if Chosen(y.m).Some? && !ChoosesEvent(y.m) then !y.running && z.running else z.running == y.running
  {
  }

  // What a tick that goes on leaves.
  lemma TickLeaves(y: System, z: System)
    requires Inv(y.m) && Ticked(y) == GoesOn(z)
    ensures z.m.streams == Operated(y.m).streams
    ensures if Chosen(y.m).Some? && !ChoosesEvent(y.m) then !y.running && z.running else z.running == y.running
  {
    var x := y.(scheduled := false, queued := false);
    StartedLeaves(x, Started(x).y);
    OperatedKeepsInv(y.m);
  }

  lemma OneStarts(c: State, d: State, was: bool, running: bool, starts: set<nat>)
    requires OneInFlight(System(c, false, false, was)) && InFlight(d) == InFlight(c) + starts
    requires if starts == {} then running == was else !was && running && exists s :: starts == {s}
    ensures OneInFlight(System(d, false, false, running))
  {
  }

  lemma TickKeepsOne(y: System, z: System)
    requires Inv(y.m) && OneInFlight(y) && Ticked(y) == GoesOn(z)
    ensures OneInFlight(z)
  {
    TickLeaves(y, z);
    OperatedInFlight(y.m);
    assert InFlight(z.m) == InFlight(Operated(y.m));
    var starts := if Chosen(y.m).Some? && !ChoosesEvent(y.m) then {Chosen(y.m).value} else {};
    OneStarts(y.m, z.m, y.running, z.running, starts);
  }

  lemma ReactKeepsOne(y: System, e: Cause)
    requires Inv(y.m) && Allowed(y, e) && OneInFlight(y) && React(y, e).GoesOn?
    ensures OneInFlight(React(y, e).y)
  {
    match e
    case Adds(s) => assert InFlight(Add(y.m, s)) == InFlight(y.m);
    case Destroys(s) => assert InFlight(Destroy(y.m, s)) == InFlight(y.m);
    case Pushes(s, op) => PushKeepsOne(y, s, op);
    case Finishes(s) =>
      assert s in InFlight(y.m);
      FinishInFlight(y.m, s);
    case Ends(u) =>
      IndexFinds(y.m, u);
      assert y.m.grid[u] in InFlight(y.m);
      FinishInFlight(y.m, y.m.grid[u]);
    case Tick => TickKeepsOne(y, React(y, e).y);
  }

  lemma PushKeepsOne(y: System, s: nat, op: Op)
    requires Inv(y.m) && Allowed(y, Pushes(s, op)) && OneInFlight(y) && React(y, Pushes(s, op)).GoesOn?
    ensures OneInFlight(React(y, Pushes(s, op)).y)
  {
    EnqueueKeepsInv(y.m, s, op);
    EnqueueInFlight(y.m, s, op);
    assert InFlight(Look(Enqueue(y.m, s, op))) == InFlight(Enqueue(y.m, s, op));
  }

  ghost predicate Run(y: System, es: seq<Cause>)
    decreases |es|
  {
    es != [] ==> Inv(y.m) && Allowed(y, es[0]) && (React(y, es[0]).GoesOn? ==> Run(React(y, es[0]).y, es[1..]))
  }

  // What a run comes to: it stops where it fails.
  ghost function Finally(y: System, es: seq<Cause>): Outcome
    requires Run(y, es)
    decreases |es|
  {
    if es == [] then GoesOn(y)
    else match React(y, es[0])
      case GoesOn(z) => Finally(z, es[1..])
      case failed => failed
  }

  // Stream 0 alone, with these operations.
  function Queue(ops: seq<Op>): State {
    State([], map[0 := Stream(ops, false)], true, map[], map[])
  }

  lemma PushFirst(op: Op)
    requires !op.Kernel?
    ensures Inv(INITIAL) && Legal(INITIAL, Push(0, op))
            && React(START, Pushes(0, op)) == GoesOn(System(Queue([op]), true, true, false))
  {
    assert [] + [op] == [op];
    assert Enqueue(INITIAL, 0, op).streams == map[0 := Stream([op], false)];
  }

  lemma PushSecond(x: Op, op: Op)
    requires !x.Kernel? && !op.Kernel?
    ensures Inv(Queue([x])) && Legal(Queue([x]), Push(0, op))
    ensures React(System(Queue([x]), true, true, false), Pushes(0, op)) ==
            GoesOn(System(Queue([x, op]), true, true, false))
  {
    assert [x] + [op] == [x, op];
    assert Enqueue(Queue([x]), 0, op).streams == map[0 := Stream([x, op], false)];
  }

  lemma TickFails(x: Op, op: Op)
    requires x.Event? && !op.Kernel?
    ensures Inv(Queue([x, op])) && React(System(Queue([x, op]), true, true, false), Tick).Asserts?
  {
    var c := Queue([x, op]);
    AssertsExactly(System(c, true, true, false), Tick);
    assert Operated(c).streams[0].ops == [op];
  }

  /** Two pushes to stream 0, an event and a transfer, and the next tick fails. */
  lemma EventBeforeTransferAsserts(x: Op, op: Op, es: seq<Cause>)
    requires x.Event? && op.Transfer? && es == [Pushes(0, x), Pushes(0, op), Tick]
    ensures Run(START, es) && Finally(START, es).Asserts?
  {
    PushFirst(x);
    PushSecond(x, op);
    TickFails(x, op);
    var y, z := System(Queue([x]), true, true, false), System(Queue([x, op]), true, true, false);
    RunFirst(y, Pushes(0, op), z, [Tick], [Pushes(0, op), Tick]);
    RunFirst(START, Pushes(0, x), y, [Pushes(0, op), Tick], es);
  }

  lemma RunFirst(y: System, e: Cause, z: System, fs: seq<Cause>, es: seq<Cause>)
    requires Inv(y.m) && Allowed(y, e) && React(y, e) == GoesOn(z) && Run(z, fs) && es == [e] + fs
    ensures Run(y, es) && Finally(y, es) == Finally(z, fs)
  {
    assert es[0] == e && es[1..] == fs;
  }

  // Two streams besides stream 0.
  function Pair(x: Stream, z: Stream): State {
    State([1, 2], map[0 := BLANK, 1 := x, 2 := z], false, map[], map[])
  }

  // One operation, waiting or in flight.
  function OneOp(op: Op, pending: bool): Stream {
    Stream([op], pending)
  }

  lemma AddTwo(y: System)
    requires y == System(State([1], map[0 := BLANK, 1 := BLANK], false, map[], map[]), false, false, false)
    ensures Inv(START.m) && Legal(START.m, AddStream(1)) && React(START, Adds(1)) == GoesOn(y)
    ensures Inv(y.m) && Legal(y.m, AddStream(2))
            && React(y, Adds(2)) == GoesOn(System(Pair(BLANK, BLANK), false, false, false))
  {
    assert [] + [1] == [1] && [1] + [2] == [1, 2];
    assert Add(y.m, 2).streams == map[0 := BLANK, 1 := BLANK, 2 := BLANK];
  }

  ghost predicate OneOrNone(q: Stream) {
    q == BLANK || exists op: Op, pending :: op.Transfer? && q == OneOp(op, pending)
  }

  lemma PairOk(x: Stream, z: Stream)
    requires OneOrNone(x) && OneOrNone(z)
    ensures Inv(Pair(x, z))
  {
  }

  lemma PairIssues(x: Stream, z: Stream)
    requires OneOrNone(x) && OneOrNone(z) && (x.ops != [] || z.ops != [])
    ensures Inv(Pair(x, z)) && !Serves(Pair(x, z)) && Look(Pair(x, z)) == Pair(x, z)
    ensures MayIssue(Pair(x, z)) <==> Idle(x) || Idle(z)
    ensures Chosen(Pair(x, z)) == if Idle(x) then Some(1) else if Idle(z) then Some(2) else None
  {
    PairOk(x, z);
    var c := Pair(x, z);
    assert 1 in c.order && 2 in c.order;
    assert FirstIdle(c, 2) == None;
    assert FirstIdle(c, 1) == if Idle(z) then Some(2) else None;
  }

  lemma EnqueueOne(x: Op, z: Op)
    requires x.Transfer? && z.Transfer?
    ensures Enqueue(Pair(BLANK, BLANK), 1, x) == Pair(OneOp(x, false), BLANK)
    ensures Enqueue(Pair(OneOp(x, false), BLANK), 2, z) == Pair(OneOp(x, false), OneOp(z, false))
  {
    assert [] + [x] == [x] && [] + [z] == [z];
  }

  lemma IssueOne(x: Op, z: Op)
    requires x.Transfer? && z.Transfer?
    ensures Issue(Pair(OneOp(x, false), OneOp(z, false)), 1) == Pair(OneOp(x, true), OneOp(z, false))
  {
    assert [] + [x] == [x];
  }

  // A push that leaves work to be issued, on a manager that d is after it.
  lemma PushedTo(y: System, s: nat, op: Op, d: State)
    requires Inv(y.m) && Legal(y.m, Push(s, op)) && d == Enqueue(y.m, s, op) && Inv(d) && Look(d) == d && MayIssue(d)
    requires y.scheduled == y.queued
    ensures React(y, Pushes(s, op)) == GoesOn(System(d, true, true, y.running))
  {
  }

  lemma PushFirstOfTwo(x: Op)
    requires x.Transfer?
    ensures Inv(Pair(BLANK, BLANK)) && Legal(Pair(BLANK, BLANK), Push(1, x))
    ensures React(System(Pair(BLANK, BLANK), false, false, false), Pushes(1, x))
         == GoesOn(System(Pair(OneOp(x, false), BLANK), true, true, false))
  {
    PairOk(BLANK, BLANK);
    PairIssues(OneOp(x, false), BLANK);
    EnqueueOne(x, x);
    PushedTo(System(Pair(BLANK, BLANK), false, false, false), 1, x, Pair(OneOp(x, false), BLANK));
  }

  lemma PushSecondOfTwo(x: Op, z: Op)
    requires x.Transfer? && z.Transfer?
    ensures Inv(Pair(OneOp(x, false), BLANK)) && Legal(Pair(OneOp(x, false), BLANK), Push(2, z))
    ensures React(System(Pair(OneOp(x, false), BLANK), true, true, false), Pushes(2, z))
         == GoesOn(System(Pair(OneOp(x, false), OneOp(z, false)), true, true, false))
  {
    PairOk(OneOp(x, false), BLANK);
    PairIssues(OneOp(x, false), OneOp(z, false));
    EnqueueOne(x, z);
    PushedTo(System(Pair(OneOp(x, false), BLANK), true, true, false), 2, z, Pair(OneOp(x, false), OneOp(z, false)));
  }

  // A tick that starts an operation and leaves another to be issued.
  lemma TickStarts(y: System, d: State)
    requires Inv(y.m) && !y.running && Chosen(y.m).Some? && !ChoosesEvent(y.m) && d == Fronted(y.m)
    requires Inv(d) && Look(d) == d && MayIssue(d)
    ensures Ticked(y) == GoesOn(System(d, true, true, true))
  {
  }

  lemma TickPanics(y: System)
    requires Inv(y.m) && y.running && Chosen(y.m).Some? && !ChoosesEvent(y.m)
    ensures Ticked(y).Panics?
  {
  }

  lemma FrontOne(x: Op, z: Op, c: State)
    requires x.Transfer? && z.Transfer? && c == Pair(OneOp(x, false), OneOp(z, false))
    ensures Inv(c) && Chosen(c) == Some(1) && !ChoosesEvent(c) && Fronted(c) == Pair(OneOp(x, true), OneOp(z, false))
  {
    PairIssues(OneOp(x, false), OneOp(z, false));
    IssueOne(x, z);
  }

  lemma FirstTick(x: Op, z: Op, y: System)
    requires x.Transfer? && z.Transfer? && y == System(Pair(OneOp(x, false), OneOp(z, false)), true, true, false)
    ensures Inv(y.m) && React(y, Tick) == GoesOn(System(Pair(OneOp(x, true), OneOp(z, false)), true, true, true))
  {
    FrontOne(x, z, y.m);
    PairIssues(OneOp(x, true), OneOp(z, false));
    TickStarts(y, Pair(OneOp(x, true), OneOp(z, false)));
  }

  lemma SecondTick(x: Op, z: Op, y: System)
    requires x.Transfer? && z.Transfer? && y == System(Pair(OneOp(x, true), OneOp(z, false)), true, true, true)
    ensures Inv(y.m) && React(y, Tick).Panics?
  {
    PairIssues(OneOp(x, true), OneOp(z, false));
    assert Chosen(y.m) == Some(2) && !ChoosesEvent(y.m);
    TickPanics(y);
  }

  // A run that panics, one step earlier.
  lemma PanicsLater(y: System, e: Cause, z: System, fs: seq<Cause>) returns (es: seq<Cause>)
    requires Inv(y.m) && Allowed(y, e) && React(y, e) == GoesOn(z) && Run(z, fs) && Finally(z, fs).Panics?
    ensures es == [e] + fs && Run(y, es) && Finally(y, es).Panics?
  {
    es := [e] + fs;
    RunFirst(y, e, z, fs, es);
  }

  lemma TicksPanic(x: Op, z: Op, y: System) returns (es: seq<Cause>)
    requires x.Transfer? && z.Transfer? && y == System(Pair(OneOp(x, false), OneOp(z, false)), true, true, false)
    ensures Run(y, es) && Finally(y, es).Panics? && es == [Tick, Tick]
  {
    var next := System(Pair(OneOp(x, true), OneOp(z, false)), true, true, true);
    SecondTick(x, z, next);
    assert Run(next, [Tick]) && Finally(next, [Tick]).Panics?;
    FirstTick(x, z, y);
    es := PanicsLater(y, Tick, next, [Tick]);
  }

  lemma SecondPushPanics(x: Op, z: Op, y: System) returns (es: seq<Cause>)
    requires x.Transfer? && z.Transfer? && y == System(Pair(OneOp(x, false), BLANK), true, true, false)
    ensures Run(y, es) && Finally(y, es).Panics? && es == [Pushes(2, z), Tick, Tick]
  {
    var next := System(Pair(OneOp(x, false), OneOp(z, false)), true, true, false);
    es := TicksPanic(x, z, next);
    PushSecondOfTwo(x, z);
    es := PanicsLater(y, Pushes(2, z), next, es);
  }

  lemma PushesPanic(x: Op, z: Op, y: System) returns (es: seq<Cause>)
    requires x.Transfer? && z.Transfer? && y == System(Pair(BLANK, BLANK), false, false, false)
    ensures Run(y, es) && Finally(y, es).Panics? && es == [Pushes(1, x), Pushes(2, z), Tick, Tick]
  {
    var next := System(Pair(OneOp(x, false), BLANK), true, true, false);
    es := SecondPushPanics(x, z, next);
    PushFirstOfTwo(x);
    es := PanicsLater(y, Pushes(1, x), next, es);
  }

  /** Two streams with a transfer each, and the second tick panics. */
  lemma TwoStreamsPanic(x: Op, z: Op) returns (es: seq<Cause>)
    requires x.Transfer? && z.Transfer?
    ensures |es| == 6 && es[0] == Adds(1) && es[1] == Adds(2) && es[2..] == [Pushes(1, x), Pushes(2, z), Tick, Tick]
    ensures Run(START, es) && Finally(START, es).Panics?
  {
    var y1 := System(State([1], map[0 := BLANK, 1 := BLANK], false, map[], map[]), false, false, false);
    var y2 := System(Pair(BLANK, BLANK), false, false, false);
    es := PushesPanic(x, z, y2);
    AddTwo(y1);
    es := PanicsLater(y1, Adds(2), y2, es);
    var fs := PanicsLater(START, Adds(1), y1, es);
    assert fs[2..] == es[1..];
    es := fs;
  }

  // ---------------------------------------------------------------------------------------------
  // No wake-up is lost

  // The flag is right, and unless the tick is scheduled nothing may be issued and the service flag is not left over.
  predicate Awake(y: System)
    requires Listed(y.m)
  {
    y.scheduled == y.queued && (y.queued || (!MayIssue(y.m) && (y.m.service ==> y.m.streams[0].ops != [])))
  }

  // Looking twice is looking once, unless the first look cleared a flag that was left over.
  lemma LookTwice(c: State)
    requires Inv(c) && (c.service ==> c.streams[0].ops != [])
    ensures Listed(Look(c)) && MayIssue(Look(c)) == MayIssue(c) && (Look(c).service ==> c.streams[0].ops != [])
  {
  }

  lemma FrontLeavesNoFlag(c: State)
    requires Inv(c) && !ChoosesEvent(c)
    ensures Operated(c).service ==> Operated(c).streams[0].ops != []
  {
  }

  lemma DestroyChangesNothing(c: State, s: nat)
    requires Inv(c) && s in c.streams && c.streams[s].ops == []
    ensures Listed(Destroy(c, s)) && MayIssue(Destroy(c, s)) ==> MayIssue(c)
  {
    var d := Destroy(c, s);
    forall t: nat ensures (t in d.order ==> t in c.order) && (t in c.order && t != s ==> t in d.order) {
      WithoutIsRest(c.order, s, t);
    }
    assert ConcurrentEmpty(d) ==> ConcurrentEmpty(c);
  }

  lemma AddChangesNothing(c: State, s: nat)
    requires Inv(c) && s !in c.streams
    ensures Listed(Add(c, s)) && MayIssue(Add(c, s)) ==> MayIssue(c)
  {
    var d := Add(c, s);
    forall t | t in c.order ensures t in d.order && d.streams[t] == c.streams[t] {}
    assert ConcurrentEmpty(d) ==> ConcurrentEmpty(c);
  }

  /** Every cause keeps the system awake, if it does not fail. */
  lemma ReactKeepsAwake(y: System, e: Cause)
    requires Inv(y.m) && Awake(y) && Allowed(y, e) && React(y, e).GoesOn?
    ensures Inv(React(y, e).y.m) && Awake(React(y, e).y)
  {
    match e
    case Adds(s) => AddKeepsInv(y.m, s); AddChangesNothing(y.m, s);
    case Destroys(s) => DestroyKeepsInv(y.m, s); DestroyChangesNothing(y.m, s);
    case Pushes(s, op) =>
      ApplyKeepsInv(y.m, Push(s, op));
      EnqueueKeepsInv(y.m, s, op);
      if !y.queued { LookTwice(Enqueue(y.m, s, op)); }
    case Finishes(s) => ApplyKeepsInv(y.m, Complete(s));
    case Ends(u) => ApplyKeepsInv(y.m, KernelFinished(u));
    case Tick => TickKeepsAwake(y);
  }

  lemma TickKeepsAwake(y: System)
    requires Inv(y.m) && Awake(y) && Ticked(y).GoesOn?
    ensures Inv(Ticked(y).y.m) && Awake(Ticked(y).y)
  {
    OperatedKeepsInv(y.m);
    LookKeepsInv(Operated(y.m));
    if !ChoosesEvent(y.m) { FrontLeavesNoFlag(y.m); LookTwice(Operated(y.m)); }
  }

  lemma {:induction false} RunKeepsAwake(y: System, es: seq<Cause>)
    requires Inv(y.m) && Awake(y) && Run(y, es) && Finally(y, es).GoesOn?
    ensures Inv(Finally(y, es).y.m) && Awake(Finally(y, es).y)
    decreases |es|
  {
    if es == [] {
    } else {
      ReactKeepsAwake(y, es[0]);
      RunKeepsAwake(React(y, es[0]).y, es[1..]);
    }
  }

  /** No wake-up is lost: in every run in which the assertion does not fail, whenever work is queued and nothing is in
      flight, the tick is scheduled. */
  lemma NoLostWakeup(es: seq<Cause>)
    requires Run(START, es) && Finally(START, es).GoesOn?
    ensures var y := Finally(START, es).y;
            Work(y.m) && Quiet(y.m) ==> y.queued
  {
    RunKeepsAwake(START, es);
    var y := Finally(START, es).y;
    if Work(y.m) && Quiet(y.m) {
      IssuedWithinTwo(y.m);
      ReadyExactly(y.m);
    }
  }

  // ---------------------------------------------------------------------------------------------
  // Runs without events

  ghost predicate Eventless(q: Stream) {
    forall i | 0 <= i < |q.ops| :: !q.ops[i].Event?
  }

  ghost predicate NoEvents(c: State) {
    forall s | s in c.streams :: Eventless(c.streams[s])
  }

  lemma FinishKeepsNoEvents(c: State, s: nat)
    requires s in c.streams && c.streams[s].ops != [] && NoEvents(c)
    ensures NoEvents(Finish(c, s))
  {
    var ops := c.streams[s].ops;
    assert Eventless(c.streams[s]);
    assert forall i | 0 <= i < |ops[1..]| :: ops[1..][i] == ops[i + 1];
  }

  lemma EnqueueKeepsNoEvents(c: State, s: nat, op: Op)
    requires s in c.streams && NoEvents(c) && !op.Event?
    ensures NoEvents(Enqueue(c, s, op))
  {
    assert Eventless(c.streams[s]);
  }

  lemma OperatedKeepsNoEvents(c: State)
    requires Inv(c) && NoEvents(c)
    ensures !ChoosesEvent(c) && NoEvents(Operated(c))
  {
    if Chosen(c).Some? { assert Eventless(c.streams[Chosen(c).value]); }
  }

  lemma ReactKeepsNoEvents(y: System, e: Cause)
    requires Inv(y.m) && Allowed(y, e) && NoEvents(y.m) && (e.Pushes? ==> !e.op.Event?) && y.scheduled == y.queued
    ensures !React(y, e).Asserts? && (React(y, e).GoesOn? ==> NoEvents(React(y, e).y.m))
  {
    match e
    case Adds(s) =>
    case Destroys(s) =>
    case Pushes(s, op) => EnqueueKeepsNoEvents(y.m, s, op);
    case Finishes(s) => FinishKeepsNoEvents(y.m, s);
    case Ends(u) => IndexFinds(y.m, u); FinishKeepsNoEvents(y.m, y.m.grid[u]);
    case Tick => OperatedKeepsNoEvents(y.m);
  }

  /** Without events the assertion never fails, on however many streams. */
  lemma {:induction false} NoEventsNeverAsserts(y: System, es: seq<Cause>)
    requires Inv(y.m) && Awake(y) && NoEvents(y.m) && Run(y, es)
    requires forall i | 0 <= i < |es| && es[i].Pushes? :: !es[i].op.Event?
    ensures !Finally(y, es).Asserts?
    decreases |es|
  {
    if es == [] {
    } else {
      ReactKeepsNoEvents(y, es[0]);
      if React(y, es[0]).GoesOn? {
        ReactKeepsAwake(y, es[0]);
        NoEventsNeverAsserts(React(y, es[0]).y, es[1..]);
      }
    }
  }

  // ---------------------------------------------------------------------------------------------
  // Runs on stream 0

  // Nothing is queued or in flight outside stream 0.
  ghost predicate OnlyStreamZero(c: State) {
    forall s | s in c.streams && s != 0 :: c.streams[s].ops == [] && !c.streams[s].pending
  }

  lemma OperatedKeepsOnly(c: State)
    requires Inv(c) && OnlyStreamZero(c)
    ensures OnlyStreamZero(Operated(c)) && (Chosen(c).Some? ==> InFlight(c) == {})
  {
    if Chosen(c).Some? {
      assert Chosen(c).value == 0;
      forall s ensures s !in InFlight(c) {}
    }
  }

  // Nothing but kernels and transfers is pushed, and only to stream 0.
  predicate ToStreamZero(e: Cause) {
    e.Pushes? ==> e.s == 0 && !e.op.Event?
  }

  lemma ReactKeepsOnly(y: System, e: Cause)
    requires Inv(y.m) && Allowed(y, e) && OnlyStreamZero(y.m) && ToStreamZero(e) && OneInFlight(y)
    ensures !React(y, e).Panics? && (React(y, e).GoesOn? ==> OnlyStreamZero(React(y, e).y.m))
  {
    match e
    case Adds(s) =>
    case Destroys(s) =>
    case Pushes(s, op) =>
    case Finishes(s) =>
    case Ends(u) => IndexFinds(y.m, u);
    case Tick => OperatedKeepsOnly(y.m);
  }

  /** A run that pushes kernels and transfers to stream 0 only never fails. */
  lemma {:induction false} StreamZeroGoesOn(y: System, es: seq<Cause>)
    requires Inv(y.m) && Awake(y) && OneInFlight(y) && OnlyStreamZero(y.m) && NoEvents(y.m) && Run(y, es)
    requires forall i | 0 <= i < |es| :: ToStreamZero(es[i])
    ensures Finally(y, es).GoesOn?
    decreases |es|
  {
    if es == [] {
    } else {
      ReactKeepsOnly(y, es[0]);
      ReactKeepsNoEvents(y, es[0]);
      ReactKeepsOne(y, es[0]);
      ReactKeepsAwake(y, es[0]);
      StreamZeroGoesOn(React(y, es[0]).y, es[1..]);
    }
  }

  lemma StartIsReady()
    ensures Inv(START.m) && Awake(START) && OneInFlight(START) && OnlyStreamZero(START.m) && NoEvents(START.m)
  {
  }

  // ---------------------------------------------------------------------------------------------
  // The GPU's side

  datatype Verdict = Went | Asserted | Panicked

  function VerdictOf(o: Outcome): Verdict {
    match o
    case GoesOn(_) => Went
    case Asserts => Asserted
    case Panics => Panicked
  }

  class CudaGpu {
    const manager: Manager
    var scheduled: bool
    var queued: bool
    var running: bool

    ghost function View(): System
      reads this, manager
    {
      System(manager.View(), scheduled, queued, running)
    }

    constructor (blocking: bool)
      ensures View() == START && fresh(manager)
    {
      manager := new Manager(blocking);
      scheduled, queued, running := false, false, false;
    }

    method Schedule() returns (v: Verdict)
      modifies this
      ensures v == VerdictOf(Scheduled(old(View())))
      ensures v == Went ==> View() == Scheduled(old(View())).y
    {
      v := if queued then Asserted else Went;
      if v == Went { scheduled, queued := true, true; }
    }

    method ScheduleStreamEvent() returns (v: Verdict)
      modifies this
      ensures v == VerdictOf(EventScheduled(old(View())))
      ensures v == Went ==> View() == EventScheduled(old(View())).y
    {
      v := Went;
      if !scheduled { v := Schedule(); }
    }

    method BeginStreamOperation() returns (v: Verdict)
      modifies this
      ensures v == VerdictOf(Begun(old(View())))
      ensures v == Went ==> View() == Begun(old(View())).y
    {
      v := if running then Panicked else Went;
      running := true;
    }

    // Kernels and transfers finish later, an event at once.
    method DoOperation() returns (v: Verdict)
      requires Inv(manager.View())
      modifies this, manager
      ensures v == VerdictOf(Started(old(View())))
      ensures v == Went ==> View() == Started(old(View())).y
    {
      v := Went;
      FrontKeepsInv(manager.View());
      var op, stream := manager.Front();
      if op.Some? && op.value.Event? {
        manager.RecordNextDone(stream);
        v := ScheduleStreamEvent();
      } else if op.Some? {
        v := BeginStreamOperation();
      }
    }

    /** `streamTick`. */
    method Process() returns (v: Verdict)
      requires Inv(manager.View())
      modifies this, manager
      ensures v == VerdictOf(Ticked(old(View())))
      ensures v == Went ==> View() == Ticked(old(View())).y
    {
      OperatedKeepsInv(manager.View());
      scheduled, queued := false, false;
      v := DoOperation();
      if v == Went {
        var ready := manager.Ready();
        if ready { v := Schedule(); }
      }
    }
  }
}
