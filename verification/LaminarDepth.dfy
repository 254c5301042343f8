/**
  Depth of the reconvergence stack, for arbitrary next PCs: the masks are laminar, and a laminar family of
  non-empty sets over n lanes has at most 2n - 1 members.
 */
module LaminarDepth {
  import opened SimtStack
  import opened WarpInvariants

  // ---------------------------------------------------------------------------------------------
  // Laminar families

  ghost predicate Family(f: set<set<Lane>>) {
    && (forall a | a in f :: a != {})
    && forall a, b | a in f && b in f :: a !! b || a <= b || b <= a
  }

  // Removing lane x from every member merges at most one pair: a member and the same member with x.
  lemma MergesOnce(f: set<set<Lane>>, x: Lane, a: set<Lane>, b: set<Lane>)
    requires Family(f) && a in f && b in f && x !in a && x !in b && a + {x} in f && b + {x} in f
    ensures a == b
  {
    var ax, bx := a + {x}, b + {x};
    assert x in ax && x in bx;
    assert ax <= bx || bx <= ax;
    if ax <= bx { SmallerIsEqual(f, x, a, b); } else { SmallerIsEqual(f, x, b, a); }
  }

  lemma SmallerIsEqual(f: set<set<Lane>>, x: Lane, a: set<Lane>, b: set<Lane>)
    requires Family(f) && a in f && b in f && x !in a && x !in b && a + {x} in f && a + {x} <= b + {x}
    ensures a == b
  {
    var y :| y in a;
    assert y in b && y in a + {x};
    assert b <= a + {x};
  }

  ghost function Without(f: set<set<Lane>>, x: Lane): set<set<Lane>> {
    set a | a in f :: a - {x}
  }

  lemma {:induction false} InjectiveImage(f: set<set<Lane>>, x: Lane)
    requires forall a, b | a in f && b in f && a - {x} == b - {x} :: a == b
    ensures |Without(f, x)| == |f|
    decreases |f|
  {
    if f == {} {
      assert Without(f, x) == {};
    } else {
      var a :| a in f;
      InjectiveImage(f - {a}, x);
      assert a - {x} !in Without(f - {a}, x);
      assert Without(f, x) == Without(f - {a}, x) + {a - {x}};
    }
  }

  /** At most 2n - 1 sets. */
  lemma {:induction false} FamilyBound(f: set<set<Lane>>, u: set<Lane>)
    requires Family(f) && u != {}
    requires forall a | a in f :: a <= u
    ensures |f| <= 2 * |u| - 1
    decreases |u|
  {
    var x :| x in u;
    var v := u - {x};
    assert u == v + {x};
    var doubled := set a | a in f && x in a && a - {x} in f;
    var g := f - {{x}} - doubled;
    if v == {} {
      OnlyOneLane(f, x);
    } else {
      DoubledAtMostOne(f, x, doubled);
      CardinalityOfUnion(g, {x}, doubled, f);
      InjectiveOnRest(f, x, doubled, g);
      InjectiveImage(g, x);
      WithoutIsFamily(g, x);
      FamilyBound(Without(g, x), v);
    }
  }

  lemma OnlyOneLane(f: set<set<Lane>>, x: Lane)
    requires Family(f) && forall a | a in f :: a <= {x}
    ensures |f| <= 1
  {
    forall a | a in f ensures a == {x} {}
    assert f <= {{x}};
    if f != {{x}} { SubsetSmaller(f, {{x}}); }
  }

  lemma InjectiveOnRest(f: set<set<Lane>>, x: Lane, doubled: set<set<Lane>>, g: set<set<Lane>>)
    requires doubled == (set a | a in f && x in a && a - {x} in f) && g == f - {{x}} - doubled
    ensures forall a, b | a in g && b in g && a - {x} == b - {x} :: a == b
  {
    forall a, b | a in g && b in g && a - {x} == b - {x} ensures a == b {
      assert x !in b ==> b - {x} == b;
      assert x !in a ==> a - {x} == a;
      forall y ensures y in a <==> y in b {
        assert y != x ==> (y in a <==> y in a - {x}) && (y in b <==> y in b - {x});
      }
    }
  }

  lemma WithoutIsFamily(g: set<set<Lane>>, x: Lane)
    requires Family(g) && {x} !in g
    ensures Family(Without(g, x))
  {
    forall c | c in Without(g, x) ensures c != {} {
      var a :| a in g && c == a - {x};
      assert a != {} && a != {x};
      var y :| y in a && y != x;
      assert y in c;
    }
  }

  lemma DoubledAtMostOne(f: set<set<Lane>>, x: Lane, doubled: set<set<Lane>>)
    requires Family(f) && doubled == set a | a in f && x in a && a - {x} in f
    ensures |doubled| <= 1
  {
    if doubled != {} {
      var a :| a in doubled;
      forall b | b in doubled ensures b == a {
        assert (a - {x}) + {x} == a && (b - {x}) + {x} == b;
        MergesOnce(f, x, a - {x}, b - {x});
      }
      assert doubled == {a};
    }
  }

  lemma CardinalityOfUnion(g: set<set<Lane>>, single: set<Lane>, doubled: set<set<Lane>>, f: set<set<Lane>>)
    requires f <= g + {single} + doubled && |doubled| <= 1
    ensures |f| <= |g| + 2
  {
    var all := g + {single} + doubled;
    assert |all| <= |g| + 2 by {
      assert |g + {single}| <= |g| + 1;
      assert |(g + {single}) + doubled| <= |g + {single}| + |doubled|;
    }
    if f != all { SubsetSmaller(f, all); }
  }

  // ---------------------------------------------------------------------------------------------
  // Every update keeps the masks laminar

  // Two masks are disjoint or the higher is inside the lower, strictly so unless the higher is a CALL entry.
  ghost predicate Nested(low: Entry, high: Entry) {
    high.mask !! low.mask || (high.mask <= low.mask && (high.kind == Normal ==> high.mask != low.mask))
  }

  ghost predicate Laminar(stack: seq<Entry>) {
    forall i, j | 0 <= i < j < |stack| :: Nested(stack[i], stack[j])
  }

  ghost predicate CallsBare(stack: seq<Entry>) {
    forall k | 0 <= k < |stack| && stack[k].kind == Call :: stack[k].recvg == NULL_PC
  }

  ghost predicate Shape(w: Warp) {
    MasksOk(w.stack, |w.pcs|) && Laminar(w.stack) && CallsBare(w.stack)
  }

  /** No assumption on where the lanes go: not even the reconvergence PC need make sense. */
  lemma NextKeepsShape(w: Warp, e: Event)
    requires Legal(w, e) && Shape(w)
    ensures Shape(Next(w, e))
  {
    if e.op == CallOp && Live(w, e) != {} {
      UniformOneGroup(Live(w, e), e.npc);
      var s := Next(w, e).stack;
      var n := |w.stack|;
      forall i, j | 0 <= i < j < |s| ensures Nested(s[i], s[j]) {
        if j == n { assert i < n - 1 ==> Nested(w.stack[i], w.stack[n - 1]); }
      }
    } else if e.op == RetOp && Top(w.stack).kind == Call && Live(w, e) != {} {
      var s := Next(w, e).stack;
      forall i | 0 <= i < |s|
        ensures s[i].mask == w.stack[i].mask && s[i].kind == w.stack[i].kind && s[i].recvg == w.stack[i].recvg
      {}
      forall i, j | 0 <= i < j < |s| ensures Nested(s[i], s[j]) {
        assert Nested(w.stack[i], w.stack[j]);
      }
    } else {
      var f := if OrdinaryStep(w, e) then e else e.(op := OtherOp);
      assert Next(w, f) == Next(w, e);
      OrdinaryShape(w, f);
    }
  }

  lemma OrdinaryShape(w: Warp, e: Event)
    requires OrdinaryStep(w, e) && Shape(w)
    ensures Shape(Next(w, e))
  {
    var c := OrdinaryReplacesTop(w, e);
    ReplaceLaminar(w.stack, Next(w, e).stack, c);
  }

  lemma ReplaceLaminar(stack: seq<Entry>, s: seq<Entry>, c: Change)
    requires ReplacesTop(stack, s, c) && Laminar(stack) && forall k | 0 <= k < |stack| :: stack[k].mask != {}
    ensures Laminar(s)
  {
    var n := |stack| - 1;
    forall i, j | 0 <= i < j < |s| ensures Nested(s[i], s[j]) {
      if i < n {
        assert Nested(stack[i], stack[if j < n then j else n]);
      }
    }
  }

  // ---------------------------------------------------------------------------------------------
  // The bound

  function Count(stack: seq<Entry>, kind: EntryKind): nat {
    if stack == [] then 0
    else Count(stack[..|stack| - 1], kind) + if stack[|stack| - 1].kind == kind then 1 else 0
  }

  lemma {:induction false} CountBoth(stack: seq<Entry>)
    ensures Count(stack, Normal) + Count(stack, Call) == |stack|
  {
    if stack == [] {
    } else {
      CountBoth(stack[..|stack| - 1]);
    }
  }

  ghost function NormalMasks(stack: seq<Entry>): set<set<Lane>> {
    set k | 0 <= k < |stack| && stack[k].kind == Normal :: stack[k].mask
  }

  lemma {:induction false} NormalMasksDistinct(stack: seq<Entry>)
    requires Laminar(stack) && forall k | 0 <= k < |stack| :: stack[k].mask != {}
    ensures |NormalMasks(stack)| == Count(stack, Normal)
  {
    if stack == [] {
      assert NormalMasks(stack) == {};
    } else {
      var n := |stack| - 1;
      var low := stack[..n];
      NormalMasksDistinct(low);
      forall k | 0 <= k < |low| ensures low[k] == stack[k] {}
      if stack[n].kind == Normal {
        forall k | 0 <= k < n ensures stack[k].mask != stack[n].mask { assert Nested(stack[k], stack[n]); }
        assert stack[n].mask !in NormalMasks(low);
        assert NormalMasks(stack) == NormalMasks(low) + {stack[n].mask};
      } else {
        assert NormalMasks(stack) == NormalMasks(low);
      }
    }
  }

  lemma {:induction false} LanesBelow(n: nat) returns (u: set<Lane>)
    ensures |u| == n && forall l: Lane :: l in u <==> l < n
  {
    if n == 0 {
      u := {};
    } else {
      var v := LanesBelow(n - 1);
      assert n - 1 !in v;
      u := v + {n - 1};
    }
  }

  /** A stack over n lanes never holds more than 2n - 1 entries besides its CALL entries. */
  lemma DepthBound(w: Warp)
    requires Shape(w) && |w.stack| > 0
    ensures |w.stack| <= 2 * |w.pcs| - 1 + Count(w.stack, Call)
  {
    var u := LanesBelow(|w.pcs|);
    NormalMasksDistinct(w.stack);
    CountBoth(w.stack);
    var f := NormalMasks(w.stack);
    forall a, b | a in f && b in f ensures a !! b || a <= b || b <= a {
      var i :| 0 <= i < |w.stack| && w.stack[i].mask == a;
      var j :| 0 <= j < |w.stack| && w.stack[j].mask == b;
      assert i < j ==> Nested(w.stack[i], w.stack[j]);
      assert j < i ==> Nested(w.stack[j], w.stack[i]);
    }
    assert u != {} by { var l :| l in w.stack[0].mask; assert l in u; }
    FamilyBound(f, u);
  }
}
