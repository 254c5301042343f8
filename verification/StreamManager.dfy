/**
  CUDA streams: `CUstream_st` and `stream_manager` in gpgpu-sim/stream_manager.cc.

  Streams are named by numbers; 0 is the default stream, which excludes all others. What an operation does is foreign to
  the manager: it is issued by `Front` and finishes later, or at once for an event.
 */
module StreamManager {
  import opened Options

  datatype Op = Kernel(uid: nat) | Event(id: nat) | Transfer(id: nat)

  // The operations left and whether the first of them is in flight.
  datatype Stream = Stream(ops: seq<Op>, pending: bool)

  const BLANK := Stream([], false)

  // `order` lists the streams other than 0, `grid` is the index from kernel to stream. A destroyed stream is no longer
  // listed. `owner` is history: the stream a kernel was pushed to.
  datatype State = State(order: seq<nat>, streams: map<nat, Stream>, service: bool, grid: map<nat, nat>,
                         owner: map<nat, nat>)

  const INITIAL := State([], map[0 := BLANK], false, map[], map[])

  // ---------------------------------------------------------------------------------------------
  // The invariant

  // The kernel in flight is uid.
  predicate Runs(q: Stream, uid: nat) {
    q.pending && q.ops != [] && q.ops[0] == Kernel(uid)
  }

  predicate OwnedBy(owner: map<nat, nat>, op: Op, s: nat) {
    op.Kernel? ==> op.uid > 0 && op.uid in owner && owner[op.uid] == s
  }

  predicate StreamOk(c: State, s: nat)
    requires s in c.streams
  {
    var q := c.streams[s];
    && (q.pending ==> q.ops != [])
    && (s == 0 || s in c.order || q.ops == [])
    // Stream 0 is in flight only while it is serviced, the others only while it is not.
    && (q.pending ==> c.service == (s == 0))
    && (forall i | 0 <= i < |q.ops| :: OwnedBy(c.owner, q.ops[i], s))
    && (q.pending && q.ops != [] && q.ops[0].Kernel? ==> q.ops[0].uid in c.grid && c.grid[q.ops[0].uid] == s)
  }

  predicate Listed(c: State) {
    0 in c.streams && forall s | s in c.order :: s != 0 && s in c.streams
  }

  predicate Indexed(c: State) {
    forall u | u in c.grid :: c.grid[u] in c.streams && Runs(c.streams[c.grid[u]], u)
  }

  predicate Inv(c: State) {
    && Listed(c)
    && Indexed(c)
    && forall s | s in c.streams :: StreamOk(c, s)
  }

  // ---------------------------------------------------------------------------------------------
  // What the manager does

  predicate Idle(q: Stream) {
    !q.pending && q.ops != []
  }

  predicate ConcurrentEmpty(c: State)
    requires Listed(c)
  {
    forall s | s in c.order :: c.streams[s].ops == []
  }

  predicate Serves(c: State)
    requires Listed(c)
  {
    c.service || ConcurrentEmpty(c)
  }

  // Some operation may be issued.
  predicate MayIssue(c: State)
    requires Listed(c)
  {
    if Serves(c) then Idle(c.streams[0]) else exists s | s in c.order :: Idle(c.streams[s])
  }

  // From position i on, the first idle stream is the one at j.
  predicate IsFirstIdle(c: State, i: nat, j: int)
    requires Listed(c)
  {
    i <= j < |c.order| && Idle(c.streams[c.order[j]]) && forall k | i <= k < j :: !Idle(c.streams[c.order[k]])
  }

  // The first idle stream from position i on.
  function FirstIdle(c: State, i: nat): (r: Option<nat>)
    requires Listed(c) && i <= |c.order|
    ensures r.Some? ==> r.value in c.order && Idle(c.streams[r.value])
    ensures r.Some? ==> exists j :: IsFirstIdle(c, i, j) && c.order[j] == r.value
    ensures r.None? ==> forall j | i <= j < |c.order| :: !Idle(c.streams[c.order[j]])
    decreases |c.order| - i
  {
    if i == |c.order| then None
    else if Idle(c.streams[c.order[i]]) then assert IsFirstIdle(c, i, i); Some(c.order[i])
    else
      var r := FirstIdle(c, i + 1);
      assert forall j | IsFirstIdle(c, i + 1, j) :: IsFirstIdle(c, i, j);
      r
  }

  // The stream that `front` issues from.
  function Chosen(c: State): (r: Option<nat>)
    requires Listed(c)
    ensures r.Some? ==> r.value in c.streams && Idle(c.streams[r.value])
    ensures r.Some? ==> (r.value == 0) == Serves(c)
  {
    if Serves(c) then (if Idle(c.streams[0]) then Some(0) else None) else FirstIdle(c, 0)
  }

  function Enqueue(c: State, s: nat, op: Op): State
    requires s in c.streams
  {
    var q := c.streams[s];
    c.(streams := c.streams[s := q.(ops := q.ops + [op])],
       owner := if op.Kernel? then c.owner[op.uid := s] else c.owner)
  }

  function Issue(c: State, s: nat): State
    requires s in c.streams && c.streams[s].ops != []
  {
    var q := c.streams[s];
    c.(streams := c.streams[s := q.(pending := true)],
       grid := if q.ops[0].Kernel? then c.grid[q.ops[0].uid := s] else c.grid)
  }

  // `record_next_done`; a kernel also leaves the index.
  function Finish(c: State, s: nat): State
    requires s in c.streams && c.streams[s].ops != []
  {
    var q := c.streams[s];
    c.(streams := c.streams[s := Stream(q.ops[1..], false)],
       grid := if q.ops[0].Kernel? then c.grid - {q.ops[0].uid} else c.grid)
  }

  // What a look at the streams does to the service flag.
  function Look(c: State): State
    requires Listed(c)
  {
    c.(service := Serves(c) && c.streams[0].ops != [])
  }

  function Fronted(c: State): State
    requires Listed(c)
  {
    if Chosen(c).Some? then Issue(Look(c), Chosen(c).value) else Look(c)
  }

  function Add(c: State, s: nat): State {
    c.(order := c.order + [s], streams := c.streams[s := BLANK])
  }

  function Without(order: seq<nat>, s: nat): seq<nat> {
    if order == [] then [] else if order[0] == s then order[1..] else [order[0]] + Without(order[1..], s)
  }

  function Destroy(c: State, s: nat): State {
    c.(order := Without(c.order, s))
  }

  // ---------------------------------------------------------------------------------------------
  // Each change keeps the invariant

  lemma EnqueueKeepsStream(c: State, s: nat, op: Op, t: nat)
    requires Inv(c) && s in c.streams && t in c.streams && (s == 0 || s in c.order)
    requires op.Kernel? ==> op.uid > 0 && op.uid !in c.owner
    ensures StreamOk(Enqueue(c, s, op), t)
  {
    var d := Enqueue(c, s, op);
    assert StreamOk(c, t);
    forall i | 0 <= i < |d.streams[t].ops| ensures OwnedBy(d.owner, d.streams[t].ops[i], t) {
      if i < |c.streams[t].ops| { assert OwnedBy(c.owner, c.streams[t].ops[i], t); }
    }
  }

  lemma EnqueueKeepsInv(c: State, s: nat, op: Op)
    requires Inv(c) && s in c.streams && (s == 0 || s in c.order)
    requires op.Kernel? ==> op.uid > 0 && op.uid !in c.owner
    ensures Inv(Enqueue(c, s, op))
  {
    forall t | t in c.streams ensures StreamOk(Enqueue(c, s, op), t) { EnqueueKeepsStream(c, s, op, t); }
  }

  lemma LookKeepsInv(c: State)
    requires Inv(c)
    ensures Inv(Look(c))
  {
    forall t | t in c.streams ensures StreamOk(Look(c), t) {
      assert StreamOk(c, t);
      assert StreamOk(c, 0);
    }
  }

  lemma IssueKeepsStream(c: State, s: nat, t: nat)
    requires Inv(c) && s in c.streams && Idle(c.streams[s]) && (s == 0) == c.service && t in c.streams
    ensures StreamOk(Issue(c, s), t)
  {
  }

  lemma IssueKeepsInv(c: State, s: nat)
    requires Inv(c) && s in c.streams && Idle(c.streams[s]) && (s == 0) == c.service
    ensures Inv(Issue(c, s))
  {
    var d := Issue(c, s);
    forall t | t in c.streams ensures StreamOk(d, t) { IssueKeepsStream(c, s, t); }
    forall u | u in d.grid ensures d.grid[u] in d.streams && Runs(d.streams[d.grid[u]], u) {
      if c.streams[s].ops[0] != Kernel(u) { assert Runs(c.streams[c.grid[u]], u); }
    }
  }

  lemma FinishKeepsStream(c: State, s: nat, t: nat)
    requires Inv(c) && s in c.streams && c.streams[s].pending && c.streams[s].ops != [] && t in c.streams
    ensures StreamOk(Finish(c, s), t)
  {
    assert StreamOk(c, t) && StreamOk(c, s);
    var q := c.streams[s];
    assert q.ops == [q.ops[0]] + q.ops[1..];
    if t == s {
      forall i | 0 <= i < |q.ops[1..]| ensures OwnedBy(c.owner, q.ops[1..][i], t) {
        assert OwnedBy(c.owner, q.ops[i + 1], t);
      }
    }
  }

  lemma FinishKeepsInv(c: State, s: nat)
    requires Inv(c) && s in c.streams && c.streams[s].pending
    ensures c.streams[s].ops != [] && Inv(Finish(c, s))
  {
    assert StreamOk(c, s);
    var d := Finish(c, s);
    forall t | t in c.streams ensures StreamOk(d, t) { FinishKeepsStream(c, s, t); }
    forall u | u in d.grid ensures d.grid[u] in d.streams && Runs(d.streams[d.grid[u]], u) {
      assert Runs(c.streams[c.grid[u]], u);
    }
  }

  lemma AddKeepsInv(c: State, s: nat)
    requires Inv(c) && s !in c.streams
    ensures Inv(Add(c, s))
  {
  }

  lemma {:induction false} WithoutIsRest(order: seq<nat>, s: nat, t: nat)
    ensures t in Without(order, s) ==> t in order
    ensures t in order && t != s ==> t in Without(order, s)
  {
    if order == [] {
    } else {
      WithoutIsRest(order[1..], s, t);
    }
  }

  lemma DestroyKeepsInv(c: State, s: nat)
    requires Inv(c) && s in c.streams && c.streams[s].ops == []
    ensures Inv(Destroy(c, s))
  {
    var d := Destroy(c, s);
    forall t: nat ensures (t in d.order ==> t in c.order) && (t in c.order && t != s ==> t in d.order) {
      WithoutIsRest(c.order, s, t);
    }
    forall t | t in c.streams ensures StreamOk(d, t) { assert StreamOk(c, t); }
  }

  lemma FrontKeepsInv(c: State)
    requires Inv(c)
    ensures Inv(Fronted(c))
  {
    LookKeepsInv(c);
    if Chosen(c).Some? { IssueKeepsInv(Look(c), Chosen(c).value); }
  }

  // ---------------------------------------------------------------------------------------------
  // Runs

  datatype Step =
    | AddStream(s: nat)
    | DestroyStream(s: nat)
    | Push(s: nat, op: Op)
    | FrontStep
    | ReadyStep
    | Complete(s: nat)
    | KernelFinished(uid: nat)

  // What the callers may do: streams are added once and destroyed when empty, kernel numbers are positive and used
  // once, and what finishes is in flight.
  predicate Legal(c: State, e: Step) {
    match e
    case AddStream(s) => s !in c.streams
    case DestroyStream(s) => s in c.order && s in c.streams && c.streams[s].ops == []
    case Push(s, op) => s in c.streams && (s == 0 || s in c.order) && (op.Kernel? ==> op.uid > 0 && op.uid !in c.owner)
    case FrontStep => true
    case ReadyStep => true
    case Complete(s) => s in c.streams && c.streams[s].pending && c.streams[s].ops != [] && !c.streams[s].ops[0].Kernel?
    case KernelFinished(u) => u == 0 || exists s :: s in c.streams && Runs(c.streams[s], u)
  }

  // The index knows every kernel that runs, at the front of the stream that runs it: the assertion on its number holds.
  lemma IndexFinds(c: State, u: nat)
    requires Inv(c) && u > 0 && Legal(c, KernelFinished(u))
    ensures u in c.grid && c.grid[u] in c.streams && Runs(c.streams[c.grid[u]], u)
  {
  }

  function Apply(c: State, e: Step): State
    requires Inv(c) && Legal(c, e)
  {
    match e
    case AddStream(s) => Add(c, s)
    case DestroyStream(s) => Destroy(c, s)
    case Push(s, op) => EnqueueKeepsInv(c, s, op); Look(Enqueue(c, s, op))
    case FrontStep => Fronted(c)
    case ReadyStep => Look(c)
    case Complete(s) => Finish(c, s)
    case KernelFinished(u) => if u == 0 then c else IndexFinds(c, u); Finish(c, c.grid[u])
  }

  lemma ApplyKeepsInv(c: State, e: Step)
    requires Inv(c) && Legal(c, e)
    ensures Inv(Apply(c, e))
  {
    match e
    case AddStream(s) => AddKeepsInv(c, s);
    case DestroyStream(s) => DestroyKeepsInv(c, s);
    case Push(s, op) => EnqueueKeepsInv(c, s, op); LookKeepsInv(Enqueue(c, s, op));
    case FrontStep => FrontKeepsInv(c);
    case ReadyStep => LookKeepsInv(c);
    case Complete(s) => FinishKeepsInv(c, s);
    case KernelFinished(u) => if u != 0 { IndexFinds(c, u); FinishKeepsInv(c, c.grid[u]); }
  }

  ghost predicate LegalRun(c: State, es: seq<Step>)
    decreases |es|
  {
    es != [] ==> Inv(c) && Legal(c, es[0]) && LegalRun(Apply(c, es[0]), es[1..])
  }

  ghost function After(c: State, es: seq<Step>): State
    requires LegalRun(c, es)
    decreases |es|
  {
    if es == [] then c else After(Apply(c, es[0]), es[1..])
  }

  lemma {:induction false} RunKeepsInv(c: State, es: seq<Step>)
    requires Inv(c) && LegalRun(c, es)
    ensures Inv(After(c, es))
    decreases |es|
  {
    if es == [] {
    } else {
      ApplyKeepsInv(c, es[0]);
      RunKeepsInv(Apply(c, es[0]), es[1..]);
    }
  }

  // ---------------------------------------------------------------------------------------------
  // What a run says of the streams

  // What was pushed to stream s.
  function PushedIn(es: seq<Step>, s: nat): seq<Op> {
    if es == [] then []
    else (if es[0].Push? && es[0].s == s then [es[0].op] else []) + PushedIn(es[1..], s)
  }

  // `front` hands out an operation of stream s.
  predicate IssuesFrom(c: State, e: Step, s: nat)
    requires Listed(c)
  {
    e.FrontStep? && Chosen(c) == Some(s)
  }

  // What was handed out of stream s.
  ghost function IssuedIn(c: State, es: seq<Step>, s: nat): seq<Op>
    requires LegalRun(c, es)
    decreases |es|
  {
    if es == [] then []
    else (if IssuesFrom(c, es[0], s) then [c.streams[s].ops[0]] else []) + IssuedIn(Apply(c, es[0]), es[1..], s)
  }

  // An operation of stream s is reported as finished.
  predicate EndsIn(c: State, e: Step, s: nat) {
    e == Complete(s) || (e.KernelFinished? && e.uid > 0 && s in c.streams && Runs(c.streams[s], e.uid))
  }

  ghost function EndedIn(c: State, es: seq<Step>, s: nat): nat
    requires LegalRun(c, es)
    decreases |es|
  {
    if es == [] then 0
    else (if EndsIn(c, es[0], s) then 1 else 0) + EndedIn(Apply(c, es[0]), es[1..], s)
  }

  function StreamAt(c: State, s: nat): Stream {
    if s in c.streams then c.streams[s] else BLANK
  }

  // What is known of stream s before and after a step.
  predicate StepsTo(c: State, e: Step, s: nat, q: Stream, r: Stream)
    requires Listed(c)
  {
    if e.Push? && e.s == s then r == Stream(q.ops + [e.op], q.pending)
    else if IssuesFrom(c, e, s) then q.ops != [] && !q.pending && r == Stream(q.ops, true)
    else if EndsIn(c, e, s) then q.ops != [] && q.pending && r == Stream(q.ops[1..], false)
    else r == q
  }

  // A kernel runs in one stream.
  lemma RunsOnce(c: State, u: nat, s: nat)
    requires Inv(c) && u in c.grid
    ensures s in c.streams && Runs(c.streams[s], u) <==> c.grid[u] == s
  {
    if s in c.streams { assert StreamOk(c, s); }
  }

  lemma KernelOnStream(c: State, u: nat, s: nat)
    requires Inv(c) && u > 0 && Legal(c, KernelFinished(u))
    ensures StepsTo(c, KernelFinished(u), s, StreamAt(c, s), StreamAt(Apply(c, KernelFinished(u)), s))
  {
    IndexFinds(c, u);
    RunsOnce(c, u, s);
  }

  lemma StepOnStream(c: State, e: Step, s: nat)
    requires Inv(c) && Legal(c, e)
    ensures StepsTo(c, e, s, StreamAt(c, s), StreamAt(Apply(c, e), s))
  {
    if e.KernelFinished? && e.uid > 0 { KernelOnStream(c, e.uid, s); }
  }

  // Of the operations `all`, in order, n are done, those issued come after the first p, and the rest is left.
  predicate InOrder(all: seq<Op>, p: nat, issued: seq<Op>, n: nat, left: Stream) {
    && n <= |all| && left.ops == all[n..]
    && p + |issued| == n + (if left.pending then 1 else 0) <= |all|
    && issued == all[p..p + |issued|]
  }

  lemma BeforePush(ops: seq<Op>, op: Op, more: seq<Op>, p: nat, issued: seq<Op>, n: nat, left: Stream)
    requires InOrder(ops + [op] + more, p, issued, n, left)
    ensures InOrder(ops + ([op] + more), p, issued, n, left)
  {
    assert ops + [op] + more == ops + ([op] + more);
  }

  lemma BeforeIssue(ops: seq<Op>, more: seq<Op>, issued: seq<Op>, n: nat, left: Stream)
    requires ops != [] && InOrder(ops + more, 1, issued, n, left)
    ensures InOrder(ops + more, 0, [ops[0]] + issued, n, left)
  {
    var all := ops + more;
    assert [all[0]] + all[1..1 + |issued|] == all[..1 + |issued|];
  }

  lemma BeforeEnd(ops: seq<Op>, more: seq<Op>, issued: seq<Op>, n: nat, left: Stream)
    requires ops != [] && InOrder(ops[1..] + more, 0, issued, n, left)
    ensures InOrder(ops + more, 1, issued, n + 1, left)
  {
    var all := ops + more;
    assert all[1..] == ops[1..] + more;
  }

  function One(b: bool): nat {
    if b then 1 else 0
  }

  lemma BeforeStep(c: State, e: Step, s: nat, q: Stream, r: Stream, more: seq<Op>, issued: seq<Op>, n: nat,
                   left: Stream)
    requires Listed(c) && q == StreamAt(c, s) && StepsTo(c, e, s, q, r)
    requires InOrder(r.ops + more, One(r.pending), issued, n, left)
    ensures InOrder(q.ops + ((if e.Push? && e.s == s then [e.op] else []) + more), One(q.pending),
                    (if IssuesFrom(c, e, s) then [c.streams[s].ops[0]] else []) + issued,
                    (if EndsIn(c, e, s) then 1 else 0) + n, left)
  {
    if e.Push? && e.s == s {
      BeforePush(q.ops, e.op, more, One(q.pending), issued, n, left);
      assert [] + issued == issued;
    } else {
      assert [] + more == more;
      if IssuesFrom(c, e, s) {
        BeforeIssue(q.ops, more, issued, n, left);
      } else {
        assert [] + issued == issued;
        if EndsIn(c, e, s) { BeforeEnd(q.ops, more, issued, n, left); }
      }
    }
  }

  lemma {:induction false} RunInOrder(c: State, es: seq<Step>, s: nat)
    requires Inv(c) && LegalRun(c, es)
    ensures InOrder(StreamAt(c, s).ops + PushedIn(es, s), One(StreamAt(c, s).pending), IssuedIn(c, es, s),
                    EndedIn(c, es, s), StreamAt(After(c, es), s))
    decreases |es|
  {
    var q := StreamAt(c, s);
    if es == [] {
      if s in c.streams { assert StreamOk(c, s); }
      assert q.ops + [] == q.ops;
    } else {
      var e, d := es[0], Apply(c, es[0]);
      ApplyKeepsInv(c, e);
      StepOnStream(c, e, s);
      RunInOrder(d, es[1..], s);
      BeforeStep(c, e, s, q, StreamAt(d, s), PushedIn(es[1..], s), IssuedIn(d, es[1..], s), EndedIn(d, es[1..], s),
                 StreamAt(After(d, es[1..]), s));
    }
  }

  /** Whatever the interleaving: a stream hands out what was pushed to it, each operation once and in the order of the
      pushes. What is left are those not yet reported as finished, and at most the first of them is in flight. */
  lemma StreamsAreFifo(es: seq<Step>, s: nat)
    requires LegalRun(INITIAL, es) && s in After(INITIAL, es).streams
    ensures var q, pushed := After(INITIAL, es).streams[s], PushedIn(es, s);
            var issued, ended := IssuedIn(INITIAL, es, s), EndedIn(INITIAL, es, s);
            && issued <= pushed && ended <= |pushed| && q.ops == pushed[ended..]
            && |issued| == ended + (if q.pending then 1 else 0)
  {
    RunInOrder(INITIAL, es, s);
    assert [] + PushedIn(es, s) == PushedIn(es, s);
  }

  // The streams added and those destroyed.
  function AddedIn(es: seq<Step>): seq<nat> {
    if es == [] then [] else (if es[0].AddStream? then [es[0].s] else []) + AddedIn(es[1..])
  }

  function DestroyedIn(es: seq<Step>): set<nat> {
    if es == [] then {} else (if es[0].DestroyStream? then {es[0].s} else {}) + DestroyedIn(es[1..])
  }

  function Except(order: seq<nat>, gone: set<nat>): seq<nat> {
    if order == [] then [] else (if order[0] in gone then [] else [order[0]]) + Except(order[1..], gone)
  }

  predicate Distinct(order: seq<nat>) {
    forall i, j | 0 <= i < j < |order| :: order[i] != order[j]
  }

  lemma {:induction false} ExceptAppends(a: seq<nat>, b: seq<nat>, gone: set<nat>)
    ensures Except(a + b, gone) == Except(a, gone) + Except(b, gone)
  {
    if a == [] {
      assert a + b == b;
    } else {
      assert (a + b)[1..] == a[1..] + b;
      ExceptAppends(a[1..], b, gone);
    }
  }

  lemma {:induction false} ExceptAbsent(order: seq<nat>, gone: set<nat>, s: nat)
    requires s !in order
    ensures Except(order, gone + {s}) == Except(order, gone)
  {
    if order == [] {
    } else {
      ExceptAbsent(order[1..], gone, s);
    }
  }

  lemma {:induction false} ExceptWithout(order: seq<nat>, gone: set<nat>, s: nat)
    requires Distinct(order)
    ensures Except(Without(order, s), gone) == Except(order, gone + {s})
  {
    if order == [] {
    } else if order[0] == s {
      ExceptAbsent(order[1..], gone, s);
    } else {
      ExceptWithout(order[1..], gone, s);
      assert Without(order, s)[1..] == Without(order[1..], s);
    }
  }

  lemma {:induction false} WithoutDistinct(order: seq<nat>, s: nat)
    requires Distinct(order)
    ensures Distinct(Without(order, s))
  {
    if order == [] || order[0] == s {
    } else {
      WithoutDistinct(order[1..], s);
      var rest := Without(order[1..], s);
      forall i | 0 <= i < |rest| ensures rest[i] != order[0] { WithoutIsRest(order[1..], s, rest[i]); }
    }
  }

  // A stream is added once.
  lemma {:induction false} NotAddedAgain(c: State, es: seq<Step>, s: nat)
    requires Inv(c) && LegalRun(c, es) && s in c.streams
    ensures s !in AddedIn(es)
    decreases |es|
  {
    if es == [] {
    } else {
      ApplyKeepsInv(c, es[0]);
      NotAddedAgain(Apply(c, es[0]), es[1..], s);
    }
  }

  lemma ListedWithout(order: seq<nat>, s: nat, added: seq<nat>, gone: set<nat>)
    requires Distinct(order) && s !in added
    ensures Except(Without(order, s) + added, gone) == Except(order + added, gone + {s})
  {
    ExceptAppends(Without(order, s), added, gone);
    ExceptAppends(order, added, gone + {s});
    ExceptWithout(order, gone, s);
    ExceptAbsent(added, gone, s);
  }

  function Relisted(order: seq<nat>, e: Step): seq<nat> {
    match e
    case AddStream(s) => order + [s]
    case DestroyStream(s) => Without(order, s)
    case _ => order
  }

  lemma StepListed(c: State, e: Step)
    requires Inv(c) && Legal(c, e) && Distinct(c.order)
    ensures Apply(c, e).order == Relisted(c.order, e) && Distinct(Apply(c, e).order)
  {
    if e.DestroyStream? { WithoutDistinct(c.order, e.s); }
  }

  lemma BeforeListed(order: seq<nat>, e: Step, added: seq<nat>, gone: set<nat>)
    requires Distinct(order) && (e.DestroyStream? ==> e.s !in added)
    ensures Except(Relisted(order, e) + added, gone) ==
            Except(order + ((if e.AddStream? then [e.s] else []) + added),
                   (if e.DestroyStream? then {e.s} else {}) + gone)
  {
    if e.DestroyStream? {
      ListedWithout(order, e.s, added, gone);
      assert [] + added == added && {e.s} + gone == gone + {e.s};
    } else {
      assert Relisted(order, e) + added == order + ((if e.AddStream? then [e.s] else []) + added);
      assert {} + gone == gone;
    }
  }

  lemma {:induction false} RunListed(c: State, es: seq<Step>)
    requires Inv(c) && LegalRun(c, es) && Distinct(c.order)
    ensures After(c, es).order == Except(c.order + AddedIn(es), DestroyedIn(es))
    decreases |es|
  {
    if es == [] {
      KeepsAll(c.order);
    } else {
      var e, d := es[0], Apply(c, es[0]);
      ApplyKeepsInv(c, e);
      StepListed(c, e);
      RunListed(d, es[1..]);
      if e.DestroyStream? { NotAddedAgain(d, es[1..], e.s); }
      BeforeListed(c.order, e, AddedIn(es[1..]), DestroyedIn(es[1..]));
    }
  }

  lemma {:induction false} KeepsAll(order: seq<nat>)
    ensures Except(order + [], {}) == order
  {
    assert order + [] == order;
    if order == [] {
    } else {
      KeepsAll(order[1..]);
      assert order[1..] + [] == order[1..];
    }
  }

  /** The manager lists the streams that were added and not destroyed, in the order in which they were added. */
  lemma ListedAsAdded(es: seq<Step>)
    requires LegalRun(INITIAL, es)
    ensures After(INITIAL, es).order == Except(AddedIn(es), DestroyedIn(es))
  {
    RunListed(INITIAL, es);
    assert [] + AddedIn(es) == AddedIn(es);
  }

  /** An operation of stream 0 is never in flight together with one of another stream. */
  lemma StreamZeroExcludes(es: seq<Step>, s: nat)
    requires LegalRun(INITIAL, es) && s in After(INITIAL, es).streams
    ensures var c := After(INITIAL, es); 0 in c.streams && (c.streams[0].pending && s != 0 ==> !c.streams[s].pending)
  {
    RunKeepsInv(INITIAL, es);
    assert StreamOk(After(INITIAL, es), s) && StreamOk(After(INITIAL, es), 0);
  }

  /** The index holds exactly the kernels in flight, each with its stream. */
  lemma IndexIsExact(es: seq<Step>, u: nat, s: nat)
    requires LegalRun(INITIAL, es)
    ensures var c := After(INITIAL, es);
            u in c.grid && c.grid[u] == s <==> s in c.streams && Runs(c.streams[s], u)
  {
    RunKeepsInv(INITIAL, es);
    if s in After(INITIAL, es).streams { assert StreamOk(After(INITIAL, es), s); }
  }

  // ---------------------------------------------------------------------------------------------
  // Progress

  /** While stream 0 is serviced `front` issues from no other stream. Otherwise it issues from the idle stream that is
      listed first, and only from stream 0 if no other stream has work. */
  lemma ChosenIsFirst(c: State)
    requires Listed(c) && Chosen(c).Some?
    ensures Chosen(c).value == 0 <==> c.service || forall s | s in c.order :: c.streams[s].ops == []
    ensures Chosen(c).value != 0 ==> exists j :: IsFirstIdle(c, 0, j) && c.order[j] == Chosen(c).value
  {
  }

  /** `ready` says exactly whether `front` would issue. */
  lemma ReadyExactly(c: State)
    requires Listed(c)
    ensures MayIssue(c) <==> Chosen(c).Some?
  {
  }

  ghost predicate Quiet(c: State) {
    forall s | s in c.streams :: !c.streams[s].pending
  }

  ghost predicate Work(c: State) {
    exists s :: s in c.streams && c.streams[s].ops != []
  }

  /** With work queued and nothing in flight, `front` issues, except in one case: the flag was left set by the last
      operation of stream 0 and the work is elsewhere. Then it only clears the flag, and the next call issues. */
  lemma IssuedWithinTwo(c: State)
    requires Inv(c) && Work(c) && Quiet(c)
    ensures Chosen(c).None? <==> c.service && c.streams[0].ops == [] && !ConcurrentEmpty(c)
    ensures Chosen(c).None? ==> Inv(Fronted(c)) && Chosen(Fronted(c)).Some?
  {
    FrontKeepsInv(c);
    var s :| s in c.streams && c.streams[s].ops != [];
    assert StreamOk(c, s);
    if !ConcurrentEmpty(c) {
      var t :| t in c.order && c.streams[t].ops != [];
      assert Idle(c.streams[t]);
      var i :| 0 <= i < |c.order| && c.order[i] == t;
    }
  }

  // ---------------------------------------------------------------------------------------------
  // The manager itself

  // Erases the first occurrence.
  method Erase(order: seq<nat>, s: nat) returns (r: seq<nat>)
    ensures r == Without(order, s)
  {
    for i := 0 to |order|
      invariant Without(order, s) == order[..i] + Without(order[i..], s)
    {
      assert order[i..][1..] == order[i + 1..];
      if order[i] == s { return order[..i] + order[i + 1..]; }
    }
    return order;
  }

  class Manager {
    const blocking: bool
    var order: seq<nat>
    var streams: map<nat, Stream>
    var service: bool
    var grid: map<nat, nat>
    ghost var owner: map<nat, nat>

    ghost function View(): State
      reads this
    {
      State(order, streams, service, grid, owner)
    }

    constructor (blocking: bool)
      ensures View() == INITIAL && this.blocking == blocking
    {
      this.blocking := blocking;
      order, streams, service, grid, owner := [], map[0 := BLANK], false, map[], map[];
    }

    method ConcurrentStreamsEmpty() returns (result: bool)
      requires Inv(View())
      ensures result == ConcurrentEmpty(View())
    {
      result := true;
      for i := 0 to |order|
        invariant result == forall j | 0 <= j < i :: streams[order[j]].ops == []
      {
        if streams[order[i]].ops != [] { result := false; }
      }
    }

    // `CUstream_st::next` and the entry of a kernel in the index.
    method Next(s: nat) returns (op: Op)
      requires Inv(View()) && s in streams && streams[s].ops != []
      modifies this`streams, this`grid
      ensures View() == Issue(old(View()), s) && op == old(streams[s].ops[0])
    {
      var q := streams[s];
      op := q.ops[0];
      streams := streams[s := q.(pending := true)];
      if op.Kernel? { grid := grid[op.uid := s]; }
    }

    /** `front`: issues from stream 0 while it is serviced, otherwise from the first idle stream. */
    method Front() returns (op: Option<Op>, stream: nat)
      requires Inv(View())
      modifies this
      ensures View() == Fronted(old(View()))
      ensures op == if Chosen(old(View())).Some? then Some(old(streams)[Chosen(old(View())).value].ops[0]) else None
      ensures Chosen(old(View())).Some? ==> stream == Chosen(old(View())).value
    {
      op, stream := None, 0;
      LookKeepsInv(View());
      var empty := ConcurrentStreamsEmpty();
      if empty { service := true; }
      if service {
        if streams[0].ops != [] {
          if !streams[0].pending {
            var next := Next(0);
            op := Some(next);
          }
        } else {
          service := false;
        }
      } else {
        var i := 0;
        while i < |order|
          invariant i <= |order| && FirstIdle(View(), 0) == FirstIdle(View(), i)
          invariant View() == old(View()) && op == None
        {
          if Idle(streams[order[i]]) {
            var next := Next(order[i]);
            op, stream := Some(next), order[i];
            break;
          }
          i := i + 1;
        }
      }
    }

    /** `ready`: whether `front` would issue. */
    method Ready() returns (ready: bool)
      requires Inv(View())
      modifies this`service
      ensures View() == Look(old(View()))
      ensures ready == MayIssue(old(View()))
    {
      ready := false;
      var empty := ConcurrentStreamsEmpty();
      if empty { service := true; }
      if service {
        if streams[0].ops != [] {
          if !streams[0].pending { ready := true; }
        } else {
          service := false;
        }
      } else {
        for i := 0 to |order|
          invariant ready == exists j :: 0 <= j < i && Idle(streams[order[j]])
        {
          if Idle(streams[order[i]]) { ready := true; }
        }
      }
    }

    /** `push`: to the stream named, or to stream 0 if none is or if launches block. */
    method Push(stream: Option<nat>, op: Op) returns (scheduled: bool)
      requires Inv(View()) && Legal(View(), Step.Push(Target(stream), op))
      modifies this
      ensures View() == Apply(old(View()), Step.Push(Target(stream), op))
      ensures stream.None? || blocking ==> streams == old(streams[0 := streams[0].(ops := streams[0].ops + [op])])
      ensures stream.Some? && !blocking ==>
                streams == old(streams[stream.value := streams[stream.value].(ops := streams[stream.value].ops + [op])])
      ensures scheduled == (EnqueueKeepsInv(old(View()), Target(stream), op);
                            MayIssue(Enqueue(old(View()), Target(stream), op)))
    {
      EnqueueKeepsInv(View(), Target(stream), op);
      var s := 0;
      if stream.Some? && !blocking { s := stream.value; }
      var q := streams[s];
      streams := streams[s := q.(ops := q.ops + [op])];
      if op.Kernel? { owner := owner[op.uid := s]; }
      scheduled := Ready();
    }

    function Target(stream: Option<nat>): nat {
      if stream.Some? && !blocking then stream.value else 0
    }

    method AddStream(s: nat)
      requires Inv(View()) && Legal(View(), Step.AddStream(s))
      modifies this
      ensures View() == Apply(old(View()), Step.AddStream(s))
    {
      order, streams := order + [s], streams[s := BLANK];
    }

    /** `destroy_stream`, of a stream that has become empty. */
    method DestroyStream(s: nat)
      requires Inv(View()) && Legal(View(), Step.DestroyStream(s))
      modifies this`order
      ensures View() == Apply(old(View()), Step.DestroyStream(s))
    {
      order := Erase(order, s);
    }

    // `record_next_done`.
    method RecordNextDone(s: nat)
      requires Inv(View()) && s in streams && streams[s].pending && streams[s].ops != []
      modifies this`streams
      ensures streams == Finish(old(View()), s).streams
    {
      var q := streams[s];
      streams := streams[s := Stream(q.ops[1..], false)];
    }

    /** `register_finished_kernel`: the stream is found through the index, and its front is the kernel that finished. */
    method RegisterFinishedKernel(uid: nat) returns (found: bool)
      requires Inv(View()) && Legal(View(), KernelFinished(uid))
      modifies this`streams, this`grid
      ensures View() == Apply(old(View()), KernelFinished(uid)) && found == (uid > 0)
    {
      if uid > 0 {
        IndexFinds(View(), uid);
        var s := grid[uid];
        assert streams[s].ops[0] == Kernel(uid);
        RecordNextDone(s);
        grid := grid - {uid};
        return true;
      }
      return false;
    }
  }
}
