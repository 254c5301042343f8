/**
  The pipeline viewer's streaming sort: `queue_inst` and `print_insts` in gem5/util/o3-pipeview.py. Instructions arrive
  nearly in the order of their sequence numbers; they are printed in that order from a queue of bounded length.
 */
module PipeView {

  datatype Inst = Inst(sn: nat, fetch: nat, retire: nat)

  // Bounds of zero mean no bound.
  datatype Filter = Filter(snStart: nat, snStop: nat, tickStart: nat, tickStop: nat, onlyCommitted: bool)

  predicate Passes(f: Filter, i: Inst) {
    && !(f.snStart > 0 && i.sn < f.snStart)
    && !(f.snStop > 0 && i.sn > f.snStop)
    && !(f.tickStart > 0 && i.fetch < f.tickStart)
    && !(f.tickStop > 0 && i.fetch > f.tickStop)
    && !(f.onlyCommitted && i.retire == 0)
  }

  /** The bounds are inclusive, and a bound of zero lets everything pass. */
  lemma PassesWithin(f: Filter, i: Inst)
    ensures Passes(f, i) <==>
            && (f.snStart == 0 || f.snStart <= i.sn) && (f.snStop == 0 || i.sn <= f.snStop)
            && (f.tickStart == 0 || f.tickStart <= i.fetch) && (f.tickStop == 0 || i.fetch <= f.tickStop)
            && (f.onlyCommitted ==> i.retire != 0)
  {
  }

  function Passing(f: Filter, s: seq<Inst>): seq<Inst> {
    if s == [] then []
    else Passing(f, s[..|s| - 1]) + if Passes(f, s[|s| - 1]) then [s[|s| - 1]] else []
  }

  // ---------------------------------------------------------------------------------------------
  // Sorting

  predicate Sorted(s: seq<Inst>) {
    forall i, j | 0 <= i < j < |s| :: s[i].sn <= s[j].sn
  }

  function Insert(s: seq<Inst>, e: Inst): (r: seq<Inst>)
    ensures |r| == |s| + 1
  {
    if s == [] || s[|s| - 1].sn <= e.sn then s + [e] else Insert(s[..|s| - 1], e) + [s[|s| - 1]]
  }

  // `sort` by sequence number.
  function Sort(s: seq<Inst>): (r: seq<Inst>)
    ensures |r| == |s|
  {
    if s == [] then [] else Insert(Sort(s[..|s| - 1]), s[|s| - 1])
  }

  lemma {:induction false} InsertKeeps(s: seq<Inst>, e: Inst)
    ensures multiset(Insert(s, e)) == multiset(s) + multiset{e}
  {
    if s == [] || s[|s| - 1].sn <= e.sn {
    } else {
      assert s == s[..|s| - 1] + [s[|s| - 1]];
      InsertKeeps(s[..|s| - 1], e);
    }
  }

  lemma SortedThen(s: seq<Inst>, e: Inst)
    requires Sorted(s) && forall x | x in multiset(s) :: x.sn <= e.sn
    ensures Sorted(s + [e])
  {
  }

  lemma {:induction false} InsertSorts(s: seq<Inst>, e: Inst)
    requires Sorted(s)
    ensures Sorted(Insert(s, e))
  {
    if s == [] || s[|s| - 1].sn <= e.sn {
    } else {
      var front, last := s[..|s| - 1], s[|s| - 1];
      InsertSorts(front, e);
      InsertKeeps(front, e);
      SortedThen(Insert(front, e), last);
    }
  }

  lemma {:induction false} SortSorts(s: seq<Inst>)
    ensures Sorted(Sort(s)) && multiset(Sort(s)) == multiset(s)
  {
    if s == [] {
    } else {
      var front, last := s[..|s| - 1], s[|s| - 1];
      assert s == front + [last];
      SortSorts(front);
      InsertSorts(Sort(front), last);
      InsertKeeps(Sort(front), last);
    }
  }

  // Those with sequence number n, in order.
  function Numbered(s: seq<Inst>, n: nat): seq<Inst> {
    if s == [] then [] else Numbered(s[..|s| - 1], n) + if s[|s| - 1].sn == n then [s[|s| - 1]] else []
  }

  lemma NumberedMore(s: seq<Inst>, e: Inst, n: nat)
    ensures Numbered(s + [e], n) == Numbered(s, n) + if e.sn == n then [e] else []
  {
    assert (s + [e])[..|s|] == s;
  }

  lemma {:induction false} InsertIsStable(s: seq<Inst>, e: Inst, n: nat)
    ensures Numbered(Insert(s, e), n) == Numbered(s, n) + if e.sn == n then [e] else []
  {
    if s == [] || s[|s| - 1].sn <= e.sn {
      NumberedMore(s, e, n);
    } else {
      InsertIsStable(s[..|s| - 1], e, n);
      NumberedMore(Insert(s[..|s| - 1], e), s[|s| - 1], n);
    }
  }

  /** Instructions with the same sequence number stay in the order of their arrival. */
  lemma {:induction false} SortIsStable(s: seq<Inst>, n: nat)
    ensures Numbered(Sort(s), n) == Numbered(s, n)
  {
    if s == [] {
    } else {
      SortIsStable(s[..|s| - 1], n);
      InsertIsStable(Sort(s[..|s| - 1]), s[|s| - 1], n);
    }
  }

  lemma {:induction false} SortedIsFixed(s: seq<Inst>)
    requires Sorted(s)
    ensures Sort(s) == s
  {
    if s == [] {
    } else {
      SortedIsFixed(s[..|s| - 1]);
      assert s == s[..|s| - 1] + [s[|s| - 1]];
    }
  }

  // ---------------------------------------------------------------------------------------------
  // The queue

  // The instructions waiting, and those taken out, in order, whether they pass the filter or not.
  datatype View = View(queue: seq<Inst>, popped: seq<Inst>)

  function Flushed(v: View, lower: nat): View {
    var q := Sort(v.queue);
    if |q| > lower then View(q[|q| - lower..], v.popped + q[..|q| - lower]) else View(q, v.popped)
  }

  function Queued(v: View, i: Inst, max: nat, min: nat): View {
    var w := View(v.queue + [i], v.popped);
    if |w.queue| > max then Flushed(w, min) else w
  }

  function Run(trace: seq<Inst>, n: nat, max: nat, min: nat): View
    requires n <= |trace|
  {
    if n == 0 then View([], []) else Queued(Run(trace, n - 1, max, min), trace[n - 1], max, min)
  }

  function Output(trace: seq<Inst>, max: nat, min: nat): seq<Inst> {
    Flushed(Run(trace, |trace|, max, min), 0).popped
  }

  // ---------------------------------------------------------------------------------------------
  // Nothing is lost

  lemma FlushKeeps(v: View, lower: nat)
    ensures multiset(Flushed(v, lower).queue) + multiset(Flushed(v, lower).popped) ==
            multiset(v.queue) + multiset(v.popped)
    ensures v.popped <= Flushed(v, lower).popped
    ensures lower == 0 ==> Flushed(v, lower).queue == []
  {
    SortSorts(v.queue);
    var q := Sort(v.queue);
    if |q| > lower { assert q == q[..|q| - lower] + q[|q| - lower..]; }
  }

  lemma QueuedKeeps(v: View, i: Inst, max: nat, min: nat, w: View)
    requires w == Queued(v, i, max, min)
    ensures multiset(w.queue) + multiset(w.popped) == multiset(v.queue) + multiset(v.popped) + multiset{i}
  {
    FlushKeeps(View(v.queue + [i], v.popped), min);
  }

  lemma OneMoreArrival(trace: seq<Inst>, n: nat)
    requires n < |trace|
    ensures multiset(trace[..n + 1]) == multiset(trace[..n]) + multiset{trace[n]}
  {
    assert trace[..n + 1] == trace[..n] + [trace[n]];
  }

  lemma {:induction false} RunKeeps(trace: seq<Inst>, n: nat, max: nat, min: nat, w: View)
    requires n <= |trace| && w == Run(trace, n, max, min)
    ensures multiset(w.queue) + multiset(w.popped) == multiset(trace[..n])
  {
    if n == 0 {
      assert trace[..n] == [];
    } else {
      var v, before := Run(trace, n - 1, max, min), trace[..n - 1];
      RunKeeps(trace, n - 1, max, min, v);
      assert multiset(v.queue) + multiset(v.popped) == multiset(before);
      QueuedKeeps(v, trace[n - 1], max, min, w);
      OneMoreArrival(trace, n - 1);
    }
  }

  lemma {:induction false} PassingCount(f: Filter, s: seq<Inst>, e: Inst)
    ensures multiset(Passing(f, s))[e] == if Passes(f, e) then multiset(s)[e] else 0
  {
    if s == [] {
    } else {
      assert s == s[..|s| - 1] + [s[|s| - 1]];
      PassingCount(f, s[..|s| - 1], e);
    }
  }

  /** Every instruction that passes the filter is printed exactly once, whatever the trace. */
  lemma PrintedOnce(f: Filter, trace: seq<Inst>, max: nat, min: nat)
    ensures multiset(Output(trace, max, min)) == multiset(trace)
    ensures multiset(Passing(f, Output(trace, max, min))) == multiset(Passing(f, trace))
  {
    RunKeeps(trace, |trace|, max, min, Run(trace, |trace|, max, min));
    FlushKeeps(Run(trace, |trace|, max, min), 0);
    assert trace[..|trace|] == trace;
    forall e ensures multiset(Passing(f, Output(trace, max, min)))[e] == multiset(Passing(f, trace))[e] {
      PassingCount(f, Output(trace, max, min), e);
      PassingCount(f, trace, e);
    }
  }

  // ---------------------------------------------------------------------------------------------
  // Order

  // How many of s come after x.
  function Above(s: seq<Inst>, x: Inst): nat {
    if s == [] then 0 else Above(s[..|s| - 1], x) + if s[|s| - 1].sn > x.sn then 1 else 0
  }

  lemma {:induction false} AboveSum(a: seq<Inst>, b: seq<Inst>, x: Inst)
    ensures Above(a + b, x) == Above(a, x) + Above(b, x)
  {
    if b == [] {
      assert a + b == a;
    } else {
      assert (a + b)[..|a + b| - 1] == a + b[..|b| - 1];
      AboveSum(a, b[..|b| - 1], x);
    }
  }

  lemma WithoutOne(b: seq<Inst>, i: nat, x: Inst)
    requires i < |b|
    ensures var rest := b[..i] + b[i + 1..];
            && multiset(b) == multiset(rest) + multiset{b[i]}
            && Above(b, x) == Above(rest, x) + Above([b[i]], x)
  {
    var left, right := b[..i], b[i + 1..];
    assert b == left + [b[i]] + right;
    AboveSum(left + [b[i]], right, x);
    AboveSum(left, [b[i]], x);
    AboveSum(left, right, x);
  }

  // The order does not matter to the count.
  lemma {:induction false} AbovePermuted(a: seq<Inst>, b: seq<Inst>, x: Inst)
    requires multiset(a) == multiset(b)
    ensures Above(a, x) == Above(b, x)
    decreases |a|
  {
    if a == [] {
      assert |b| == |multiset(b)|;
    } else {
      var n := |a| - 1;
      assert a[n] in multiset(a);
      var i :| 0 <= i < |b| && b[i] == a[n];
      WithoutOne(a, n, x);
      WithoutOne(b, i, x);
      var c, d := a[..n] + a[n + 1..], b[..i] + b[i + 1..];
      assert multiset(c) == multiset(a) - multiset{a[n]} == multiset(d);
      AbovePermuted(c, d, x);
    }
  }

  lemma {:induction false} AllAbove(s: seq<Inst>, x: Inst)
    requires forall e | e in s :: e.sn > x.sn
    ensures Above(s, x) == |s|
  {
    if s == [] {
    } else {
      AllAbove(s[..|s| - 1], x);
    }
  }

  lemma {:induction false} AbovePrefix(trace: seq<Inst>, n: nat, m: nat, x: Inst)
    requires n <= m <= |trace|
    ensures Above(trace[..n], x) <= Above(trace[..m], x)
  {
    assert trace[..m] == trace[..n] + trace[n..m];
    AboveSum(trace[..n], trace[n..m], x);
  }

  // Each instruction is preceded by at most min arrivals that come after it.
  ghost predicate Bounded(trace: seq<Inst>, min: nat) {
    forall i | 0 <= i < |trace| :: Above(trace[..i], trace[i]) <= min
  }

  // Nothing in a comes after anything in b.
  predicate NotAfter(a: seq<Inst>, b: seq<Inst>) {
    forall p, e | p in a && e in b :: p.sn <= e.sn
  }

  // What was taken out is in order, and not after anything that is waiting or still to come.
  ghost predicate InOrder(v: View, trace: seq<Inst>, n: nat)
    requires n <= |trace|
  {
    Sorted(v.popped) && NotAfter(v.popped, v.queue) && NotAfter(v.popped, trace[n..])
  }

  lemma NotAfterPermuted(a: seq<Inst>, b: seq<Inst>, c: seq<Inst>)
    requires NotAfter(a, b) && multiset(b) == multiset(c)
    ensures NotAfter(a, c)
  {
    forall e | e in c ensures e in b { assert e in multiset(c); }
  }

  lemma SortedJoin(a: seq<Inst>, b: seq<Inst>)
    requires Sorted(a) && Sorted(b) && NotAfter(a, b)
    ensures Sorted(a + b)
  {
  }

  // The halves of a sorted queue, put behind what is not after it.
  lemma SplitJoin(a: seq<Inst>, q: seq<Inst>, k: nat)
    requires Sorted(a) && Sorted(q) && NotAfter(a, q) && k <= |q|
    ensures Sorted(a + q[..k]) && NotAfter(a + q[..k], q[k..])
  {
    SortedJoin(a, q[..k]);
    forall p, e | p in a + q[..k] && e in q[k..] ensures p.sn <= e.sn {
      var j :| k <= j < |q| && q[j] == e;
      if p !in a { var i :| 0 <= i < k && q[i] == p; }
    }
  }

  // In a sorted queue, what follows something larger than x is larger than x.
  lemma RestAbove(q: seq<Inst>, j: nat, x: Inst)
    requires Sorted(q) && j < |q| && q[j].sn > x.sn
    ensures Above(q, x) >= |q| - j
  {
    var rest := q[j..];
    forall e | e in rest ensures e.sn > x.sn {
      var l :| 0 <= l < |rest| && rest[l] == e;
      assert q[j + l] == e;
    }
    AllAbove(rest, x);
    assert q == q[..j] + rest;
    AboveSum(q[..j], rest, x);
  }

  // What is taken out is not after any later arrival: it and the min instructions left in the queue would be too many.
  lemma TakenIsNotAfter(q: seq<Inst>, popped: seq<Inst>, trace: seq<Inst>, n: nat, min: nat, j: nat, i: nat)
    requires Sorted(q) && j + min < |q| && Bounded(trace, min) && n <= i < |trace|
    requires multiset(q) + multiset(popped) == multiset(trace[..n])
    ensures q[j].sn <= trace[i].sn
  {
    var x := trace[i];
    if q[j].sn > x.sn {
      RestAbove(q, j, x);
      AboveSum(q, popped, x);
      AbovePermuted(q + popped, trace[..n], x);
      AbovePrefix(trace, n, i, x);
    }
  }

  lemma TakenNotAfter(q: seq<Inst>, popped: seq<Inst>, trace: seq<Inst>, n: nat, min: nat, k: nat, taken: seq<Inst>)
    requires Sorted(q) && k + min == |q| && n <= |trace| && Bounded(trace, min) && taken == q[..k]
    requires multiset(q) + multiset(popped) == multiset(trace[..n])
    ensures NotAfter(taken, trace[n..])
  {
    forall p, x | p in taken && x in trace[n..] ensures p.sn <= x.sn {
      var j :| 0 <= j < k && q[j] == p;
      var i :| n <= i < |trace| && trace[i] == x;
      TakenIsNotAfter(q, popped, trace, n, min, j, i);
    }
  }

  lemma NotAfterJoin(a: seq<Inst>, b: seq<Inst>, c: seq<Inst>)
    requires NotAfter(a, c) && NotAfter(b, c)
    ensures NotAfter(a + b, c)
  {
  }

  lemma FlushInOrder(v: View, trace: seq<Inst>, n: nat, min: nat)
    requires n <= |trace| && InOrder(v, trace, n) && Bounded(trace, min)
    requires multiset(v.queue) + multiset(v.popped) == multiset(trace[..n])
    ensures InOrder(Flushed(v, min), trace, n)
  {
    SortSorts(v.queue);
    var q := Sort(v.queue);
    NotAfterPermuted(v.popped, v.queue, q);
    if |q| > min {
      var k := |q| - min;
      SplitJoin(v.popped, q, k);
      TakenNotAfter(q, v.popped, trace, n, min, k, q[..k]);
      NotAfterJoin(v.popped, q[..k], trace[n..]);
    }
  }

  lemma ArrivesInOrder(v: View, trace: seq<Inst>, n: nat)
    requires n < |trace| && InOrder(v, trace, n)
    ensures InOrder(View(v.queue + [trace[n]], v.popped), trace, n + 1)
  {
  }

  lemma QueuedInOrder(v: View, trace: seq<Inst>, n: nat, max: nat, min: nat, w: View)
    requires n < |trace| && Bounded(trace, min) && InOrder(v, trace, n) && w == Queued(v, trace[n], max, min)
    requires multiset(v.queue) + multiset(v.popped) == multiset(trace[..n])
    ensures InOrder(w, trace, n + 1)
  {
    var u := View(v.queue + [trace[n]], v.popped);
    ArrivesInOrder(v, trace, n);
    OneMoreArrival(trace, n);
    if |u.queue| > max { FlushInOrder(u, trace, n + 1, min); }
  }

  lemma {:induction false} RunInOrder(trace: seq<Inst>, n: nat, max: nat, min: nat, w: View)
    requires n <= |trace| && Bounded(trace, min) && w == Run(trace, n, max, min)
    ensures InOrder(w, trace, n)
  {
    if n == 0 {
    } else {
      var v := Run(trace, n - 1, max, min);
      RunInOrder(trace, n - 1, max, min, v);
      RunKeeps(trace, n - 1, max, min, v);
      QueuedInOrder(v, trace, n - 1, max, min, w);
    }
  }

  lemma {:induction false} PassingSorted(f: Filter, s: seq<Inst>)
    requires Sorted(s)
    ensures Sorted(Passing(f, s))
  {
    if s == [] {
    } else {
      var front, last := s[..|s| - 1], s[|s| - 1];
      PassingSorted(f, front);
      forall x | x in multiset(Passing(f, front)) ensures x.sn <= last.sn {
        PassingCount(f, front, x);
        assert x in multiset(front);
      }
      SortedThen(Passing(f, front), last);
    }
  }

  /** If no instruction is preceded by more than min that come after it, everything is printed in order. */
  lemma PrintedInOrder(f: Filter, trace: seq<Inst>, max: nat, min: nat)
    requires Bounded(trace, min)
    ensures Sorted(Passing(f, Output(trace, max, min)))
  {
    var v := Run(trace, |trace|, max, min);
    RunInOrder(trace, |trace|, max, min, v);
    SortSorts(v.queue);
    var q := Sort(v.queue);
    NotAfterPermuted(v.popped, v.queue, q);
    SortedJoin(v.popped, q);
    assert Output(trace, max, min) == v.popped + q;
    PassingSorted(f, v.popped + q);
  }

  // ---------------------------------------------------------------------------------------------
  // The bound is tight

  // max + 1 instructions in order, but for one number left out.
  function Prefix(max: nat, min: nat): (s: seq<Inst>)
    requires min <= max
    ensures |s| == max + 1
    ensures forall i | 0 <= i <= max :: s[i] == Inst(if i < max - min then i else i + 1, 0, 0)
  {
    seq(max + 1, i requires 0 <= i => Inst(if i < max - min then i else i + 1, 0, 0))
  }

  // The one that was left out arrives last.
  function Late(max: nat, min: nat): seq<Inst>
    requires min <= max
  {
    Prefix(max, min) + [Inst(max - min, 0, 0)]
  }

  lemma {:induction false} NoneAbove(s: seq<Inst>, x: Inst)
    requires forall e | e in s :: e.sn <= x.sn
    ensures Above(s, x) == 0
  {
    if s == [] {
    } else {
      NoneAbove(s[..|s| - 1], x);
    }
  }

  lemma {:induction false} AboveAtMost(s: seq<Inst>, x: Inst)
    ensures Above(s, x) <= |s|
  {
    if s == [] {
    } else {
      AboveAtMost(s[..|s| - 1], x);
    }
  }

  lemma LateIsBounded(max: nat, min: nat)
    requires min <= max
    ensures Bounded(Late(max, min), min + 1)
  {
    var trace, pre := Late(max, min), Prefix(max, min);
    forall i | 0 <= i < |trace| ensures Above(trace[..i], trace[i]) <= min + 1 {
      if i <= max {
        NoneAbove(trace[..i], trace[i]);
      } else {
        var k := max - min;
        assert trace[..i] == pre[..k] + pre[k..];
        NoneAbove(pre[..k], trace[i]);
        AboveAtMost(pre[k..], trace[i]);
        AboveSum(pre[..k], pre[k..], trace[i]);
      }
    }
  }

  lemma {:induction false} RunFills(trace: seq<Inst>, n: nat, max: nat, min: nat)
    requires n <= |trace| && n <= max
    ensures Run(trace, n, max, min) == View(trace[..n], [])
  {
    if n == 0 {
    } else {
      RunFills(trace, n - 1, max, min);
      assert trace[..n] == trace[..n - 1] + [trace[n - 1]];
    }
  }

  lemma FirstFlush(q: seq<Inst>, min: nat)
    requires Sorted(q) && |q| > min
    ensures Flushed(View(q, []), min).popped == q[..|q| - min]
  {
    SortedIsFixed(q);
  }

  lemma QueuedGrows(v: View, i: Inst, max: nat, min: nat)
    ensures v.popped <= Queued(v, i, max, min).popped
  {
  }

  // The queue overflows for the first time.
  lemma FirstOverflow(q: seq<Inst>, i: Inst, max: nat, min: nat, pre: seq<Inst>)
    requires |q| == max >= min && pre == q + [i] && Sorted(pre)
    ensures Queued(View(q, []), i, max, min).popped == pre[..max + 1 - min]
  {
    FirstFlush(pre, min);
  }

  lemma LateFlushed(trace: seq<Inst>, pre: seq<Inst>, max: nat, min: nat, u: View)
    requires |trace| > max >= min && pre == trace[..max] + [trace[max]] && Sorted(pre)
             && u == Run(trace, max + 1, max, min)
    ensures u.popped == pre[..max + 1 - min]
  {
    RunFills(trace, max, max, min);
    FirstOverflow(trace[..max], trace[max], max, min, pre);
  }

  lemma LatePopped(max: nat, min: nat)
    requires min <= max
    ensures Prefix(max, min)[..max + 1 - min] <= Output(Late(max, min), max, min)
  {
    var trace, pre := Late(max, min), Prefix(max, min);
    assert trace[..max] + [trace[max]] == pre;
    var u := Run(trace, max + 1, max, min);
    LateFlushed(trace, pre, max, min, u);
    QueuedGrows(u, trace[max + 1], max, min);
    FlushKeeps(Run(trace, max + 2, max, min), 0);
  }

  // Something smaller that is not in the beginning comes later.
  lemma OutOfOrder(p: seq<Inst>, out: seq<Inst>, x: Inst, k: nat)
    requires p <= out && k < |p| && p[k].sn > x.sn && x !in p && x in multiset(out)
    ensures !Sorted(out)
  {
  }

  /** One more does not do: whatever the thresholds, some trace in which no instruction is preceded by more than min + 1
      that come after it is printed out of order. */
  lemma BoundIsTight(max: nat, min: nat)
    requires min <= max
    ensures Bounded(Late(max, min), min + 1) && !Sorted(Output(Late(max, min), max, min))
  {
    LateIsBounded(max, min);
    LatePopped(max, min);
    var trace, p := Late(max, min), Prefix(max, min)[..max + 1 - min];
    PrintedOnce(Filter(0, 0, 0, 0, false), trace, max, min);
    assert trace[max + 1] in multiset(trace);
    OutOfOrder(p, Output(trace, max, min), trace[max + 1], max - min);
  }

  // ---------------------------------------------------------------------------------------------
  // The viewer

  // The front of the queue is taken out until `lower` are left.
  function Taken(v: View, lower: nat): View
    decreases |v.queue|
  {
    if |v.queue| > lower then Taken(View(v.queue[1..], v.popped + [v.queue[0]]), lower) else v
  }

  lemma {:induction false} TakenOut(v: View, lower: nat)
    ensures Taken(v, lower) ==
            if |v.queue| > lower then View(v.queue[|v.queue| - lower..], v.popped + v.queue[..|v.queue| - lower]) else v
    decreases |v.queue|
  {
    if |v.queue| <= lower {
    } else {
      var k := |v.queue| - lower;
      TakenOut(View(v.queue[1..], v.popped + [v.queue[0]]), lower);
      assert v.queue[1..][k - 1..] == v.queue[k..];
      assert [v.queue[0]] + v.queue[1..][..k - 1] == v.queue[..k];
    }
  }

  lemma TakenIsFlushed(v: View, lower: nat)
    ensures Taken(View(Sort(v.queue), v.popped), lower) == Flushed(v, lower)
  {
    TakenOut(View(Sort(v.queue), v.popped), lower);
  }

  lemma PassingMore(f: Filter, s: seq<Inst>, i: Inst)
    ensures Passing(f, s + [i]) == if Passes(f, i) then Passing(f, s) + [i] else Passing(f, s)
  {
  }

  // The lines of a trace that matter: an instruction is fetched, an instruction is complete.
  datatype Line = Fetch(tick: nat, sn: nat) | Retire(inst: Inst)

  // Something is fetched so far past a bound that nothing of interest can follow.
  predicate Stops(f: Filter, drift: nat, max: nat, line: Line) {
    line.Fetch? && ((f.tickStop > 0 && line.tick > f.tickStop + drift) || (f.snStop > 0 && line.sn > f.snStop + max))
  }

  // Line n is the first that stops, or the end.
  ghost predicate ReadTo(f: Filter, drift: nat, max: nat, lines: seq<Line>, n: nat) {
    && n <= |lines| && (forall k | 0 <= k < n :: !Stops(f, drift, max, lines[k]))
    && (n < |lines| ==> Stops(f, drift, max, lines[n]))
  }

  function Retired(lines: seq<Line>, n: nat): seq<Inst>
    requires n <= |lines|
  {
    if n == 0 then [] else Retired(lines, n - 1) + if lines[n - 1].Retire? then [lines[n - 1].inst] else []
  }

  lemma {:induction false} RetiredGrows(lines: seq<Line>, m: nat, n: nat)
    requires m <= n <= |lines|
    ensures Retired(lines, m) <= Retired(lines, n)
  {
    if m == n {
    } else {
      RetiredGrows(lines, m, n - 1);
    }
  }

  /** Every instruction that retires is queued, once for each time, in the order of the lines: line k gives the one
      after those of the lines before it. */
  lemma RetiredInOrder(lines: seq<Line>, k: nat, n: nat)
    requires k < n <= |lines|
    ensures lines[k].Retire? ==>
              && |Retired(lines, k)| < |Retired(lines, n)|
              && Retired(lines, n)[|Retired(lines, k)|] == lines[k].inst
  {
    RetiredGrows(lines, k + 1, n);
  }

  /** And nothing else is. */
  lemma {:induction false} RetiredFrom(lines: seq<Line>, n: nat, j: nat) returns (k: nat)
    requires n <= |lines| && j < |Retired(lines, n)|
    ensures k < n && lines[k].Retire? && |Retired(lines, k)| == j
  {
    if j < |Retired(lines, n - 1)| {
      k := RetiredFrom(lines, n - 1, j);
    } else {
      k := n - 1;
    }
  }

  // The queue after n lines.
  function RunLines(lines: seq<Line>, n: nat, max: nat, min: nat): View
    requires n <= |lines|
  {
    if n == 0 then View([], [])
    else if lines[n - 1].Retire? then Queued(RunLines(lines, n - 1, max, min), lines[n - 1].inst, max, min)
    else RunLines(lines, n - 1, max, min)
  }

  lemma {:induction false} RunLinesIsRun(lines: seq<Line>, n: nat, max: nat, min: nat, t: seq<Inst>)
    requires n <= |lines| && t == Retired(lines, n)
    ensures RunLines(lines, n, max, min) == Run(t, |t|, max, min)
  {
    if n == 0 {
    } else {
      var u := Retired(lines, n - 1);
      RunLinesIsRun(lines, n - 1, max, min, u);
      if lines[n - 1].Retire? {
        assert t == u + [lines[n - 1].inst];
        RunMore(u, lines[n - 1].inst, max, min);
      } else {
        assert t == u;
      }
    }
  }

  lemma {:induction false} RunPrefix(a: seq<Inst>, b: seq<Inst>, n: nat, max: nat, min: nat)
    requires n <= |a| && n <= |b| && a[..n] == b[..n]
    ensures Run(a, n, max, min) == Run(b, n, max, min)
  {
    if n == 0 {
    } else {
      assert a[n - 1] == a[..n][n - 1] && b[n - 1] == b[..n][n - 1];
      assert a[..n - 1] == a[..n][..n - 1] && b[..n - 1] == b[..n][..n - 1];
      RunPrefix(a, b, n - 1, max, min);
    }
  }

  lemma RunMore(trace: seq<Inst>, inst: Inst, max: nat, min: nat)
    ensures Run(trace + [inst], |trace| + 1, max, min) == Queued(Run(trace, |trace|, max, min), inst, max, min)
  {
    RunPrefix(trace + [inst], trace, |trace|, max, min);
  }

  class Viewer {
    const max: nat
    const min: nat
    const drift: nat
    const filter: Filter
    var queue: seq<Inst>
    var printed: seq<Inst>
    ghost var popped: seq<Inst>

    ghost predicate Valid()
      reads this
    {
      printed == Passing(filter, popped)
    }

    ghost function Seen(): View
      reads this
    {
      View(queue, popped)
    }

    constructor (max: nat, min: nat, drift: nat, filter: Filter)
      ensures Valid() && Seen() == View([], [])
      ensures this.max == max && this.min == min && this.drift == drift && this.filter == filter
    {
      this.max, this.min, this.drift, this.filter := max, min, drift, filter;
      queue, printed, popped := [], [], [];
    }

    /** `print_insts`. */
    method PrintInsts(lower: nat)
      requires Valid()
      modifies this
      ensures Valid() && Seen() == Flushed(old(Seen()), lower)
    {
      ghost var after := Flushed(Seen(), lower);
      TakenIsFlushed(Seen(), lower);
      queue := Sort(queue);
      while |queue| > lower
        invariant Taken(Seen(), lower) == after && Valid()
      {
        var item := queue[0];
        PassingMore(filter, popped, item);
        queue, popped := queue[1..], popped + [item];
        if Passes(filter, item) { printed := printed + [item]; }
      }
    }

    /** `queue_inst`. */
    method QueueInst(inst: Inst)
      requires Valid()
      modifies this
      ensures Valid() && Seen() == Queued(old(Seen()), inst, max, min)
    {
      queue := queue + [inst];
      if |queue| > max { PrintInsts(min); }
    }

    // The main loop, up to the first line that stops it.
    method QueueLines(lines: seq<Line>) returns (n: nat)
      requires Valid() && Seen() == View([], [])
      modifies this
      ensures ReadTo(filter, drift, max, lines, n)
      ensures Valid() && Seen() == RunLines(lines, n, max, min)
    {
      n := 0;
      while n < |lines| && !Stops(filter, drift, max, lines[n])
        invariant n <= |lines| && forall k | 0 <= k < n :: !Stops(filter, drift, max, lines[k])
        invariant Valid() && Seen() == RunLines(lines, n, max, min)
      {
        if lines[n].Retire? { QueueInst(lines[n].inst); }
        n := n + 1;
      }
    }

    /** A trace: through to its end, every instruction that passes the filter is printed exactly once, and in order if
        none is preceded by more than min that come after it. It does not get there exactly if something is fetched too
        far past a bound: then `print_insts` is called with an argument missing, and what is queued is never printed. */
    method Process(lines: seq<Line>) returns (n: nat)
      requires Valid() && Seen() == View([], [])
      modifies this
      ensures ReadTo(filter, drift, max, lines, n) && Valid()
      ensures n == |lines| ==> multiset(printed) == multiset(Passing(filter, Retired(lines, n)))
      ensures n == |lines| && Bounded(Retired(lines, n), min) ==> Sorted(printed)
      ensures n < |lines| ==> Seen() == Run(Retired(lines, n), |Retired(lines, n)|, max, min)
    {
      n := QueueLines(lines);
      RunLinesIsRun(lines, n, max, min, Retired(lines, n));
      if n == |lines| {
        PrintInsts(0);
        ghost var trace := Retired(lines, n);
        PrintedOnce(filter, trace, max, min);
        if Bounded(trace, min) { PrintedInOrder(filter, trace, max, min); }
      }
    }
  }
}
