/**
  Bank conflicts in shared memory: the shared-space case of `warp_inst_t::generate_mem_accesses` in
  gpgpu-sim/abstract_hardware_model.cc. A warp is given lane by lane: the address a lane accesses, or none if it is not
  active. The words a bank is asked for, with their counts, are a multiset.
 */
module BankConflicts {
  import Arithmetic
  import Coalescing
  import opened Options

  // ---------------------------------------------------------------------------------------------
  // One sub-warp

  function BankOf(addr: nat, banks: nat): nat
    requires banks > 0
  {
    addr / 4 % banks
  }

  function WordOf(addr: nat): nat {
    addr - addr % 4
  }

  // The words that the first n lanes ask bank b for.
  function Asked(lanes: seq<Option<nat>>, banks: nat, n: nat, b: nat): multiset<nat>
    requires banks > 0 && n <= |lanes|
  {
    if n == 0 then multiset{}
    else
      var rest := Asked(lanes, banks, n - 1, b);
      if lanes[n - 1].Some? && BankOf(lanes[n - 1].value, banks) == b
      then rest + multiset{WordOf(lanes[n - 1].value)}
      else rest
  }

  // How many different words there are.
  function Distinct(words: multiset<nat>): nat {
    |set w | w in words|
  }

  // With full broadcast a bank serves each word once. With limited broadcast it serves every lane, but the lanes of one
  // word of one bank together.
  function Cost(words: multiset<nat>, broadcast: Option<nat>): int {
    match broadcast
    case None => |words|
    case Some(w) => |words| - words[w] + 1
  }

  lemma {:induction false} DistinctAtMost(words: multiset<nat>)
    ensures Distinct(words) <= |words|
    decreases |words|
  {
    if words == multiset{} {
    } else {
      var w :| w in words;
      var rest := words[w := 0];
      DistinctAtMost(rest);
      assert (set v | v in words) == (set v | v in rest) + {w};
    }
  }

  /** A bank serves at least as many accesses with limited broadcast as with full. */
  lemma LimitedCostsMore(words: multiset<nat>, broadcast: Option<nat>)
    requires broadcast.Some? ==> broadcast.value in words
    ensures Distinct(words) <= Cost(words, broadcast) <= |words|
  {
    DistinctAtMost(words);
    if broadcast.Some? {
      var w := broadcast.value;
      var once := words[w := 1];
      assert (set v | v in words) == (set v | v in once);
      DistinctAtMost(once);
      assert |once| == |words| - words[w] + 1;
    }
  }

  lemma {:induction false} AskedAtMost(lanes: seq<Option<nat>>, banks: nat, n: nat, b: nat)
    requires banks > 0 && n <= |lanes|
    ensures |Asked(lanes, banks, n, b)| <= n
  {
    if n == 0 {
    } else {
      AskedAtMost(lanes, banks, n - 1, b);
    }
  }

  lemma {:induction false} AskedOfActive(lanes: seq<Option<nat>>, banks: nat, n: nat, i: nat)
    requires banks > 0 && i < n <= |lanes| && lanes[i].Some?
    ensures WordOf(lanes[i].value) in Asked(lanes, banks, n, BankOf(lanes[i].value, banks))
  {
    if i == n - 1 {
    } else {
      AskedOfActive(lanes, banks, n - 1, i);
    }
  }

  // Step 1.
  method Tally(lanes: seq<Option<nat>>, banks: nat) returns (m: map<nat, multiset<nat>>)
    requires banks > 0
    ensures Tallied(m, lanes, banks, |lanes|)
  {
    m := map[];
    for n := 0 to |lanes|
      invariant Tallied(m, lanes, banks, n)
    {
      if lanes[n].Some? {
        var b, w := BankOf(lanes[n].value, banks), WordOf(lanes[n].value);
        m := m[b := (if b in m then m[b] else multiset{}) + multiset{w}];
      }
    }
  }

  ghost predicate Tallied(m: map<nat, multiset<nat>>, lanes: seq<Option<nat>>, banks: nat, n: nat)
    requires banks > 0 && n <= |lanes|
  {
    && (forall b: nat :: b in m <==> Asked(lanes, banks, n, b) != multiset{})
    && (forall b | b in m :: m[b] == Asked(lanes, banks, n, b))
  }

  // r is the largest number of different words that a bank is asked for.
  ghost predicate IsFullCount(lanes: seq<Option<nat>>, banks: nat, r: nat)
    requires banks > 0
  {
    && (forall b: nat :: Distinct(Asked(lanes, banks, |lanes|, b)) <= r)
    && (r == 0 || exists b: nat :: Distinct(Asked(lanes, banks, |lanes|, b)) == r)
  }

  // The word that bank b broadcasts.
  function At(broadcast: Option<(nat, nat)>, b: nat): Option<nat> {
    if broadcast.Some? && broadcast.value.0 == b then Some(broadcast.value.1) else None
  }

  // No word is asked for by several lanes.
  ghost predicate NoneRepeated(words: multiset<nat>) {
    forall w :: words[w] <= 1
  }

  // w is the first word that several lanes ask for.
  ghost predicate IsFirstRepeated(words: multiset<nat>, w: nat) {
    words[w] > 1 && forall v: nat | v < w :: words[v] <= 1
  }

  // The word broadcast is the first, by bank and address, that several lanes ask for.
  ghost predicate IsBroadcast(lanes: seq<Option<nat>>, banks: nat, broadcast: Option<(nat, nat)>)
    requires banks > 0
  {
    match broadcast
    case None => forall b: nat :: NoneRepeated(Asked(lanes, banks, |lanes|, b))
    case Some((b, w)) =>
      && IsFirstRepeated(Asked(lanes, banks, |lanes|, b), w)
      && forall c: nat | c < b :: NoneRepeated(Asked(lanes, banks, |lanes|, c))
  }

  // r is the largest cost of a bank, with one word broadcast.
  ghost predicate IsLimitedCount(lanes: seq<Option<nat>>, banks: nat, broadcast: Option<(nat, nat)>, r: nat)
    requires banks > 0
  {
    && (forall b: nat :: Cost(Asked(lanes, banks, |lanes|, b), At(broadcast, b)) <= r)
    && (r == 0 || exists b: nat :: Cost(Asked(lanes, banks, |lanes|, b), At(broadcast, b)) == r)
  }

  lemma BankOrdered(lanes: seq<Option<nat>>, banks: nat, broadcast: Option<(nat, nat)>, b: nat)
    requires banks > 0 && IsBroadcast(lanes, banks, broadcast)
    ensures var words := Asked(lanes, banks, |lanes|, b);
            Distinct(words) <= Cost(words, At(broadcast, b)) <= |words| <= |lanes|
  {
    LimitedCostsMore(Asked(lanes, banks, |lanes|, b), At(broadcast, b));
    AskedAtMost(lanes, banks, |lanes|, b);
  }

  // The bank of an active lane is asked for a word.
  lemma SomeWord(lanes: seq<Option<nat>>, banks: nat, i: nat)
    requires banks > 0 && i < |lanes| && lanes[i].Some?
    ensures Distinct(Asked(lanes, banks, |lanes|, BankOf(lanes[i].value, banks))) >= 1
  {
    AskedOfActive(lanes, banks, |lanes|, i);
    var words := Asked(lanes, banks, |lanes|, BankOf(lanes[i].value, banks));
    var different := set w | w in words;
    assert WordOf(lanes[i].value) in different;
    assert Distinct(words) == |different|;
  }

  lemma FullCountPositive(lanes: seq<Option<nat>>, banks: nat, full: nat, i: nat)
    requires banks > 0 && IsFullCount(lanes, banks, full) && i < |lanes| && lanes[i].Some?
    ensures full >= 1
  {
    SomeWord(lanes, banks, i);
  }

  /** The counts of a sub-warp: at most one access for each lane, and no fewer with limited than with full broadcast. */
  lemma CountsOrdered(lanes: seq<Option<nat>>, banks: nat, broadcast: Option<(nat, nat)>, full: nat, limited: nat)
    requires banks > 0 && IsFullCount(lanes, banks, full)
    requires IsBroadcast(lanes, banks, broadcast) && IsLimitedCount(lanes, banks, broadcast, limited)
    ensures full <= limited <= |lanes|
  {
    if full > 0 {
      var b: nat :| Distinct(Asked(lanes, banks, |lanes|, b)) == full;
      BankOrdered(lanes, banks, broadcast, b);
      assert Cost(Asked(lanes, banks, |lanes|, b), At(broadcast, b)) <= limited;
    }
    if limited > 0 {
      var b: nat :| Cost(Asked(lanes, banks, |lanes|, b), At(broadcast, b)) == limited;
      BankOrdered(lanes, banks, broadcast, b);
    }
  }

  method FullCount(m: map<nat, multiset<nat>>, ghost lanes: seq<Option<nat>>, ghost banks: nat) returns (r: nat)
    requires banks > 0 && Tallied(m, lanes, banks, |lanes|)
    ensures IsFullCount(lanes, banks, r)
  {
    var keys := Coalescing.InOrder(m.Keys);
    r := 0;
    for i := 0 to |keys|
      invariant forall j | 0 <= j < i :: Distinct(m[keys[j]]) <= r
      invariant r == 0 || exists j :: 0 <= j < i && Distinct(m[keys[j]]) == r
    {
      if Distinct(m[keys[i]]) > r { r := Distinct(m[keys[i]]); }
    }
    forall b: nat ensures Distinct(Asked(lanes, banks, |lanes|, b)) <= r {
      if b in m { assert b in keys; }
    }
  }

  // The words of a bank in order, and the first of them with a count above one.
  method FirstRepeated(words: multiset<nat>) returns (r: Option<nat>)
    ensures r.None? ==> NoneRepeated(words)
    ensures r.Some? ==> IsFirstRepeated(words, r.value)
  {
    var keys := Coalescing.InOrder(set w | w in words);
    for i := 0 to |keys|
      invariant forall j | 0 <= j < i :: words[keys[j]] <= 1
    {
      if words[keys[i]] > 1 {
        forall v: nat | v < keys[i] ensures words[v] <= 1 {
          if v in words {
            assert v in keys;
            var j :| 0 <= j < |keys| && keys[j] == v;
          }
        }
        return Some(keys[i]);
      }
    }
    forall w ensures words[w] <= 1 {
      if w in words { assert w in keys; }
    }
    return None;
  }

  // The banks before those at position i of the keys ask for no word twice.
  lemma EarlierBanks(m: map<nat, multiset<nat>>, lanes: seq<Option<nat>>, banks: nat, keys: seq<nat>, i: nat, c: nat)
    requires banks > 0 && Tallied(m, lanes, banks, |lanes|)
    requires Coalescing.Increasing(keys) && forall k :: k in keys <==> k in m
    requires i <= |keys| && forall j | 0 <= j < i :: NoneRepeated(m[keys[j]])
    requires i < |keys| ==> c < keys[i]
    ensures NoneRepeated(Asked(lanes, banks, |lanes|, c))
  {
    if c in m {
      var j :| 0 <= j < |keys| && keys[j] == c;
      assert j < i && NoneRepeated(m[keys[j]]);
    }
  }

  // Step 2 with limited broadcast.
  method FindBroadcast(m: map<nat, multiset<nat>>, ghost lanes: seq<Option<nat>>, ghost banks: nat)
    returns (r: Option<(nat, nat)>)
    requires banks > 0 && Tallied(m, lanes, banks, |lanes|)
    ensures IsBroadcast(lanes, banks, r) && (r.Some? ==> r.value.0 in m)
  {
    var keys := Coalescing.InOrder(m.Keys);
    for i := 0 to |keys|
      invariant forall j | 0 <= j < i :: NoneRepeated(m[keys[j]])
    {
      var w := FirstRepeated(m[keys[i]]);
      if w.Some? {
        forall c: nat | c < keys[i] ensures NoneRepeated(Asked(lanes, banks, |lanes|, c)) {
          EarlierBanks(m, lanes, banks, keys, i, c);
        }
        return Some((keys[i], w.value));
      }
    }
    forall b: nat ensures NoneRepeated(Asked(lanes, banks, |lanes|, b)) {
      EarlierBanks(m, lanes, banks, keys, |keys|, b);
    }
    return None;
  }

  // Step 3 with limited broadcast.
  method LimitedCount(m: map<nat, multiset<nat>>, broadcast: Option<(nat, nat)>, ghost lanes: seq<Option<nat>>,
                      ghost banks: nat)
    returns (r: nat)
    requires banks > 0 && Tallied(m, lanes, banks, |lanes|) && (broadcast.Some? ==> broadcast.value.0 in m)
    ensures IsLimitedCount(lanes, banks, broadcast, r)
  {
    var keys := Coalescing.InOrder(m.Keys);
    r := 0;
    for i := 0 to |keys|
      invariant forall j | 0 <= j < i :: Cost(m[keys[j]], At(broadcast, keys[j])) <= r
      invariant r == 0 || exists j :: 0 <= j < i && Cost(m[keys[j]], At(broadcast, keys[j])) == r
    {
      var cost := Cost(m[keys[i]], At(broadcast, keys[i]));
      if cost > r { r := cost; }
    }
    forall b: nat ensures Cost(Asked(lanes, banks, |lanes|, b), At(broadcast, b)) <= r {
      if b in m { assert b in keys; }
    }
  }

  // What is counted for a sub-warp.
  ghost predicate IsCount(lanes: seq<Option<nat>>, banks: nat, limited: bool, r: nat)
    requires banks > 0
  {
    if limited then exists c :: IsBroadcast(lanes, banks, c) && IsLimitedCount(lanes, banks, c, r)
    else IsFullCount(lanes, banks, r)
  }

  // ---------------------------------------------------------------------------------------------
  // What is counted, by addresses

  /** Words of four bytes go round the banks: word k is in bank k modulo their number. */
  lemma BankOfWord(k: nat, r: nat, banks: nat)
    requires r < 4 && banks > 0
    ensures BankOf(4 * k + r, banks) == k % banks && WordOf(4 * k + r) == 4 * k
  {
    Arithmetic.Quotient(4, k, r);
  }

  /** Two addresses are in one word exactly if they are in the same four bytes. */
  lemma SameWord(a: nat, b: nat)
    ensures WordOf(a) == WordOf(b) <==> a / 4 == b / 4
  {
  }

  // Lane i accesses word k.
  predicate AtWord(lanes: seq<Option<nat>>, i: int, k: nat) {
    0 <= i < |lanes| && lanes[i].Some? && lanes[i].value / 4 == k
  }

  predicate InBank(lanes: seq<Option<nat>>, banks: nat, i: int, b: nat)
    requires banks > 0
  {
    0 <= i < |lanes| && lanes[i].Some? && lanes[i].value / 4 % banks == b
  }

  // The lanes among the first n that access bank b, and the words they access.
  function LanesOf(lanes: seq<Option<nat>>, banks: nat, n: nat, b: nat): set<nat>
    requires banks > 0 && n <= |lanes|
  {
    set i: nat | 0 <= i < n && InBank(lanes, banks, i, b)
  }

  function WordsOf(lanes: seq<Option<nat>>, banks: nat, n: nat, b: nat): set<nat>
    requires banks > 0 && n <= |lanes|
  {
    set i | i in LanesOf(lanes, banks, n, b) :: lanes[i].value / 4
  }

  // The lanes of bank b at word k.
  function LanesAt(lanes: seq<Option<nat>>, banks: nat, n: nat, b: nat, k: nat): set<nat>
    requires banks > 0 && n <= |lanes|
  {
    set i | i in LanesOf(lanes, banks, n, b) && AtWord(lanes, i, k)
  }

  // The words given at the first n places.
  function Bag(s: seq<Option<nat>>, n: nat): multiset<nat>
    requires n <= |s|
  {
    if n == 0 then multiset{} else Bag(s, n - 1) + if s[n - 1].Some? then multiset{s[n - 1].value} else multiset{}
  }

  function Filled(s: seq<Option<nat>>, n: nat): set<nat>
    requires n <= |s|
  {
    set i: nat | i < n && s[i].Some?
  }

  function Holding(s: seq<Option<nat>>, n: nat, w: nat): set<nat>
    requires n <= |s|
  {
    set i: nat | i < n && s[i] == Some(w)
  }

  lemma FilledMore(s: seq<Option<nat>>, n: nat)
    requires 0 < n <= |s|
    ensures |Filled(s, n)| == |Filled(s, n - 1)| + if s[n - 1].Some? then 1 else 0
  {
    assert Filled(s, n) == Filled(s, n - 1) + if s[n - 1].Some? then {n - 1} else {};
  }

  lemma {:induction false} BagSize(s: seq<Option<nat>>, n: nat)
    requires n <= |s|
    ensures |Bag(s, n)| == |Filled(s, n)|
  {
    if n == 0 {
    } else {
      BagSize(s, n - 1);
      FilledMore(s, n);
    }
  }

  lemma HoldingMore(s: seq<Option<nat>>, n: nat, w: nat)
    requires 0 < n <= |s|
    ensures |Holding(s, n, w)| == |Holding(s, n - 1, w)| + if s[n - 1] == Some(w) then 1 else 0
  {
    assert Holding(s, n, w) == Holding(s, n - 1, w) + if s[n - 1] == Some(w) then {n - 1} else {};
  }

  lemma BagMore(s: seq<Option<nat>>, n: nat, w: nat)
    requires 0 < n <= |s|
    ensures Bag(s, n)[w] == Bag(s, n - 1)[w] + if s[n - 1] == Some(w) then 1 else 0
  {
  }

  lemma {:induction false} BagCount(s: seq<Option<nat>>, n: nat, w: nat)
    requires n <= |s|
    ensures Bag(s, n)[w] == |Holding(s, n, w)|
  {
    if n == 0 {
    } else {
      BagCount(s, n - 1, w);
      HoldingMore(s, n, w);
      BagMore(s, n, w);
    }
  }

  // What bank b is asked for by a lane.
  function Asks(lane: Option<nat>, banks: nat, b: nat): Option<nat>
    requires banks > 0
  {
    if lane.Some? && BankOf(lane.value, banks) == b then Some(WordOf(lane.value)) else None
  }

  function Selected(lanes: seq<Option<nat>>, banks: nat, b: nat): (s: seq<Option<nat>>)
    requires banks > 0
    ensures |s| == |lanes| && forall i | 0 <= i < |lanes| :: s[i] == Asks(lanes[i], banks, b)
  {
    seq(|lanes|, i requires 0 <= i < |lanes| => Asks(lanes[i], banks, b))
  }

  lemma {:induction false} AskedIsBag(lanes: seq<Option<nat>>, banks: nat, n: nat, b: nat, s: seq<Option<nat>>)
    requires banks > 0 && n <= |lanes| && s == Selected(lanes, banks, b)
    ensures Asked(lanes, banks, n, b) == Bag(s, n)
  {
    if n == 0 {
    } else {
      AskedIsBag(lanes, banks, n - 1, b, s);
      assert s[n - 1] == Asks(lanes[n - 1], banks, b);
    }
  }

  // In these places there are these words.
  ghost predicate Places(s: seq<Option<nat>>, mine: set<nat>, ks: seq<nat>) {
    |s| == |ks| && forall i | 0 <= i < |s| :: s[i] == if i in mine then Some(4 * ks[i]) else None
  }

  function PlacesIn(mine: set<nat>, ks: seq<nat>): set<nat> {
    set i | i in mine && i < |ks|
  }

  function PlacesAt(mine: set<nat>, ks: seq<nat>, k: nat): set<nat> {
    set i | i in mine && i < |ks| && ks[i] == k
  }

  lemma BagByPlace(s: seq<Option<nat>>, mine: set<nat>, ks: seq<nat>, k: nat)
    requires Places(s, mine, ks)
    ensures |Bag(s, |s|)| == |PlacesIn(mine, ks)| && Bag(s, |s|)[4 * k] == |PlacesAt(mine, ks, k)|
  {
    BagSize(s, |s|);
    BagCount(s, |s|, 4 * k);
    assert Filled(s, |s|) == PlacesIn(mine, ks);
    assert Holding(s, |s|, 4 * k) == PlacesAt(mine, ks, k);
  }

  lemma DistinctIs(words: multiset<nat>, ws: set<nat>)
    requires forall w: nat :: w in ws <==> w in words
    ensures Distinct(words) == |ws|
  {
    assert ws == set w | w in words;
  }

  lemma BagWords(s: seq<Option<nat>>, mine: set<nat>, ks: seq<nat>, words: set<nat>)
    requires Places(s, mine, ks) && words == set i | i in mine && i < |s| :: ks[i]
    ensures Distinct(Bag(s, |s|)) == |words|
  {
    var ws := set w | w in Bag(s, |s|);
    forall w: nat ensures w in ws <==> w % 4 == 0 && w / 4 in words {
      BagCount(s, |s|, w);
      if w in ws {
        var i :| i in Holding(s, |s|, w);
        assert ks[i] in words && w == 4 * ks[i];
      }
      if w % 4 == 0 && w / 4 in words {
        var i :| i in mine && i < |s| && ks[i] == w / 4;
        assert i in Holding(s, |s|, w);
      }
    }
    FourTimes(words, ws);
    DistinctIs(Bag(s, |s|), ws);
  }

  lemma {:induction false} FourTimes(ks: set<nat>, ws: set<nat>)
    requires forall w: nat :: w in ws <==> w % 4 == 0 && w / 4 in ks
    ensures |ws| == |ks|
    decreases |ks|
  {
    if ks == {} {
      assert ws == {};
    } else {
      var k :| k in ks;
      assert 4 * k in ws;
      FourTimes(ks - {k}, ws - {4 * k});
      assert ws == ws - {4 * k} + {4 * k} && ks == ks - {k} + {k};
    }
  }

  // The number of the word that each lane accesses.
  function Numbers(lanes: seq<Option<nat>>): (ks: seq<nat>)
    ensures |ks| == |lanes| && forall i | 0 <= i < |lanes| && lanes[i].Some? :: ks[i] == lanes[i].value / 4
  {
    seq(|lanes|, i requires 0 <= i < |lanes| => if lanes[i].Some? then lanes[i].value / 4 else 0)
  }

  lemma AsksForNumber(lane: Option<nat>, banks: nat, b: nat)
    requires banks > 0
    ensures Asks(lane, banks, b) ==
            if lane.Some? && lane.value / 4 % banks == b then Some(4 * (lane.value / 4)) else None
  {
  }

  lemma SelectedPlaces(lanes: seq<Option<nat>>, banks: nat, b: nat)
    requires banks > 0
    ensures Places(Selected(lanes, banks, b), LanesOf(lanes, banks, |lanes|, b), Numbers(lanes))
  {
    forall i | 0 <= i < |lanes|
      ensures Selected(lanes, banks, b)[i] ==
              if i in LanesOf(lanes, banks, |lanes|, b) then Some(4 * Numbers(lanes)[i]) else None {
      AsksForNumber(lanes[i], banks, b);
    }
  }

  lemma AskedIsLanes(lanes: seq<Option<nat>>, banks: nat, b: nat, k: nat)
    requires banks > 0
    ensures |Asked(lanes, banks, |lanes|, b)| == |LanesOf(lanes, banks, |lanes|, b)|
    ensures Asked(lanes, banks, |lanes|, b)[4 * k] == |LanesAt(lanes, banks, |lanes|, b, k)|
  {
    var s, mine, ks := Selected(lanes, banks, b), LanesOf(lanes, banks, |lanes|, b), Numbers(lanes);
    AskedIsBag(lanes, banks, |lanes|, b, s);
    SelectedPlaces(lanes, banks, b);
    BagByPlace(s, mine, ks, k);
    assert mine == PlacesIn(mine, ks) && LanesAt(lanes, banks, |lanes|, b, k) == PlacesAt(mine, ks, k);
  }

  lemma DistinctIsWords(lanes: seq<Option<nat>>, banks: nat, b: nat)
    requires banks > 0
    ensures Distinct(Asked(lanes, banks, |lanes|, b)) == |WordsOf(lanes, banks, |lanes|, b)|
  {
    var s, mine, ks := Selected(lanes, banks, b), LanesOf(lanes, banks, |lanes|, b), Numbers(lanes);
    AskedIsBag(lanes, banks, |lanes|, b, s);
    SelectedPlaces(lanes, banks, b);
    assert WordsOf(lanes, banks, |lanes|, b) == set i | i in mine && i < |s| :: ks[i];
    BagWords(s, mine, ks, WordsOf(lanes, banks, |lanes|, b));
  }

  lemma OthersCounted(a: set<nat>, b: set<nat>)
    requires a <= b
    ensures |b| - |a| == |b - a|
  {
    assert b == a + (b - a);
  }

  /** With full broadcast a bank serves each word of four bytes that its lanes access once. Otherwise it serves every
      lane; but with one word broadcast it serves the lanes of that word together. */
  lemma CostsByAddress(lanes: seq<Option<nat>>, banks: nat, b: nat, k: nat)
    requires banks > 0
    ensures var words, n := Asked(lanes, banks, |lanes|, b), |lanes|;
            && Distinct(words) == |WordsOf(lanes, banks, n, b)|
            && Cost(words, None) == |LanesOf(lanes, banks, n, b)|
            && Cost(words, Some(4 * k)) == |LanesOf(lanes, banks, n, b) - LanesAt(lanes, banks, n, b, k)| + 1
  {
    DistinctIsWords(lanes, banks, b);
    AskedIsLanes(lanes, banks, b, k);
    OthersCounted(LanesAt(lanes, banks, |lanes|, b, k), LanesOf(lanes, banks, |lanes|, b));
  }

  lemma AtMostOne(s: set<nat>)
    requires forall x, y | x in s && y in s :: x == y
    ensures |s| <= 1
  {
    if s != {} {
      var x :| x in s;
      assert s == {x};
    }
  }

  /** Lanes that access different banks cost one access, in either mode. */
  lemma NoConflict(lanes: seq<Option<nat>>, banks: nat, limited: bool, r: nat)
    requires banks > 0 && IsCount(lanes, banks, limited, r) && exists i :: 0 <= i < |lanes| && lanes[i].Some?
    requires forall i, j, b: nat | InBank(lanes, banks, i, b) && InBank(lanes, banks, j, b) :: i == j
    ensures r == 1
  {
    forall b: nat ensures |Asked(lanes, banks, |lanes|, b)| <= 1 {
      AskedIsLanes(lanes, banks, b, 0);
      AtMostOne(LanesOf(lanes, banks, |lanes|, b));
    }
    var i :| 0 <= i < |lanes| && lanes[i].Some?;
    CountBounds(lanes, banks, limited, r, i, 1);
  }

  // A count is positive if a lane is active, and no larger than what any bank is asked for.
  lemma CountBounds(lanes: seq<Option<nat>>, banks: nat, limited: bool, r: nat, i: nat, most: nat)
    requires banks > 0 && IsCount(lanes, banks, limited, r) && i < |lanes| && lanes[i].Some?
    requires forall b: nat :: |Asked(lanes, banks, |lanes|, b)| <= most
    ensures 1 <= r <= most
  {
    SomeWord(lanes, banks, i);
    var c := BankOf(lanes[i].value, banks);
    var words := Asked(lanes, banks, |lanes|, c);
    if limited {
      var x :| IsBroadcast(lanes, banks, x) && IsLimitedCount(lanes, banks, x, r);
      BankOrdered(lanes, banks, x, c);
      assert Cost(words, At(x, c)) <= r;
      if r > 0 {
        var b: nat :| Cost(Asked(lanes, banks, |lanes|, b), At(x, b)) == r;
        BankOrdered(lanes, banks, x, b);
      }
    } else {
      assert Distinct(words) <= r;
      if r > 0 {
        var b: nat :| Distinct(Asked(lanes, banks, |lanes|, b)) == r;
        DistinctAtMost(Asked(lanes, banks, |lanes|, b));
      }
    }
  }

  /** Lanes that access different words of one bank cost one access each, in either mode. */
  lemma AllConflict(lanes: seq<Option<nat>>, banks: nat, limited: bool, r: nat, b: nat)
    requires banks > 0 && IsCount(lanes, banks, limited, r)
    requires forall i | 0 <= i < |lanes| :: InBank(lanes, banks, i, b)
    requires forall i, j, k: nat | AtWord(lanes, i, k) && AtWord(lanes, j, k) :: i == j
    ensures r == |lanes|
  {
    var words, n := Asked(lanes, banks, |lanes|, b), |lanes|;
    AllLanes(lanes, banks, n, b);
    CostsByAddress(lanes, banks, b, 0);
    WordsApart(lanes, banks, n, b);
    if limited {
      var x :| IsBroadcast(lanes, banks, x) && IsLimitedCount(lanes, banks, x, r);
      BankOrdered(lanes, banks, x, b);
      assert Cost(words, At(x, b)) <= r;
      if r > 0 {
        var c: nat :| Cost(Asked(lanes, banks, |lanes|, c), At(x, c)) == r;
        BankOrdered(lanes, banks, x, c);
      }
    } else {
      assert Distinct(words) <= r;
      if r > 0 {
        var c: nat :| Distinct(Asked(lanes, banks, |lanes|, c)) == r;
        DistinctAtMost(Asked(lanes, banks, |lanes|, c));
        AskedAtMost(lanes, banks, |lanes|, c);
      }
    }
  }

  lemma {:induction false} AllLanes(lanes: seq<Option<nat>>, banks: nat, n: nat, b: nat)
    requires banks > 0 && n <= |lanes| && forall i | 0 <= i < |lanes| :: InBank(lanes, banks, i, b)
    ensures |LanesOf(lanes, banks, n, b)| == n
  {
    if n == 0 {
    } else {
      AllLanes(lanes, banks, n - 1, b);
      assert LanesOf(lanes, banks, n, b) == LanesOf(lanes, banks, n - 1, b) + {n - 1};
    }
  }

  lemma {:induction false} WordsApart(lanes: seq<Option<nat>>, banks: nat, n: nat, b: nat)
    requires banks > 0 && n <= |lanes| && forall i | 0 <= i < |lanes| :: InBank(lanes, banks, i, b)
    requires forall i, j, k: nat | AtWord(lanes, i, k) && AtWord(lanes, j, k) :: i == j
    ensures |WordsOf(lanes, banks, n, b)| == n
  {
    if n == 0 {
    } else {
      WordsApart(lanes, banks, n - 1, b);
      assert LanesOf(lanes, banks, n, b) == LanesOf(lanes, banks, n - 1, b) + {n - 1};
      var k := lanes[n - 1].value / 4;
      assert AtWord(lanes, n - 1, k);
      forall i | i in LanesOf(lanes, banks, n - 1, b) ensures lanes[i].value / 4 != k {
        if lanes[i].value / 4 == k { assert AtWord(lanes, i, k); }
      }
      assert WordsOf(lanes, banks, n, b) == WordsOf(lanes, banks, n - 1, b) + {k};
    }
  }

  // Lane i accesses word base + i * step.
  ghost predicate Strided(lanes: seq<Option<nat>>, base: nat, step: nat) {
    forall i | 0 <= i < |lanes| :: AtWord(lanes, i, base + i * step)
  }

  lemma ApartModulo(base: nat, i: nat, j: nat, m: nat)
    requires i < j < i + m
    ensures (base + i) % m != (base + j) % m
  {
    var x, y := base + i, base + j;
    if x % m == y % m {
      assert x == x / m * m + x % m && y == y / m * m + y % m;
      assert (y / m - x / m) * m == j - i;
      Arithmetic.Multiple(y / m - x / m, m);
    }
  }

  /** Lanes at consecutive words, no more of them than banks: one access, in either mode. */
  lemma ConsecutiveWords(lanes: seq<Option<nat>>, banks: nat, limited: bool, r: nat, base: nat)
    requires 0 < |lanes| <= banks && Strided(lanes, base, 1) && IsCount(lanes, banks, limited, r)
    ensures r == 1
  {
    assert AtWord(lanes, 0, base + 0 * 1);
    forall i, j, b: nat | InBank(lanes, banks, i, b) && InBank(lanes, banks, j, b) ensures i == j {
      assert AtWord(lanes, i, base + i * 1) && AtWord(lanes, j, base + j * 1);
      if i < j { ApartModulo(base, i, j, banks); }
      if j < i { ApartModulo(base, j, i, banks); }
    }
    NoConflict(lanes, banks, limited, r);
  }

  lemma StrideBank(base: nat, i: nat, banks: nat)
    requires banks > 0
    ensures (base + i * banks) % banks == base % banks
  {
    var q, r := base / banks, base % banks;
    assert base + i * banks == (q + i) * banks + r;
    Arithmetic.Quotient(banks, q + i, r);
  }

  /** Lanes at words that are as far apart as there are banks: as many accesses as lanes, in either mode. */
  lemma BankStride(lanes: seq<Option<nat>>, banks: nat, limited: bool, r: nat, base: nat)
    requires banks > 0 && Strided(lanes, base, banks) && IsCount(lanes, banks, limited, r)
    ensures r == |lanes|
  {
    forall i | 0 <= i < |lanes| ensures InBank(lanes, banks, i, base % banks) {
      assert AtWord(lanes, i, base + i * banks);
      StrideBank(base, i, banks);
    }
    forall i, j, k: nat | AtWord(lanes, i, k) && AtWord(lanes, j, k) ensures i == j {
      assert AtWord(lanes, i, base + i * banks) && AtWord(lanes, j, base + j * banks);
      assert (j - i) * banks == 0;
      Arithmetic.Multiple(j - i, banks);
    }
    AllConflict(lanes, banks, limited, r, base % banks);
  }

  // ---------------------------------------------------------------------------------------------
  // The warp

  function Sum(counts: seq<nat>): nat {
    if counts == [] then 0 else Sum(counts[..|counts| - 1]) + counts[|counts| - 1]
  }

  // Sub-warp k.
  function Part(warp: seq<Option<nat>>, parts: nat, k: nat): (r: seq<Option<nat>>)
    requires k < parts
    ensures |r| == |warp| / parts
  {
    var size := |warp| / parts;
    PartInside(|warp|, parts, k);
    warp[k * size..(k + 1) * size]
  }

  lemma PartInside(n: nat, parts: nat, k: nat)
    requires k < parts
    ensures k * (n / parts) <= (k + 1) * (n / parts) == k * (n / parts) + n / parts <= parts * (n / parts) <= n
  {
    var size := n / parts;
    assert n == parts * size + n % parts;
    Arithmetic.Below(k, parts, size);
  }

  ghost predicate AreCounts(subwarps: seq<seq<Option<nat>>>, banks: nat, limited: bool, counts: seq<nat>)
    requires banks > 0
  {
    |counts| <= |subwarps| && forall k | 0 <= k < |counts| :: IsCount(subwarps[k], banks, limited, counts[k])
  }

  function Subwarps(warp: seq<Option<nat>>, parts: nat): (r: seq<seq<Option<nat>>>)
    requires parts > 0
    ensures |r| == parts && forall k | 0 <= k < parts :: r[k] == Part(warp, parts, k)
  {
    seq(parts, k requires 0 <= k < parts => Part(warp, parts, k))
  }

  method CountPart(lanes: seq<Option<nat>>, banks: nat, limited: bool) returns (r: nat)
    requires banks > 0
    ensures IsCount(lanes, banks, limited, r)
  {
    var m := Tally(lanes, banks);
    if limited {
      var c := FindBroadcast(m, lanes, banks);
      r := LimitedCount(m, c, lanes, banks);
    } else {
      r := FullCount(m, lanes, banks);
    }
  }

  lemma OneMoreCount(subwarps: seq<seq<Option<nat>>>, banks: nat, limited: bool, counts: seq<nat>, r: nat,
                     more: seq<nat>)
    requires banks > 0 && |counts| < |subwarps| && AreCounts(subwarps, banks, limited, counts)
    requires IsCount(subwarps[|counts|], banks, limited, r) && more == counts + [r]
    ensures AreCounts(subwarps, banks, limited, more) && Sum(more) == Sum(counts) + r
  {
    assert more[..|counts|] == counts;
    forall k | 0 <= k < |more| ensures IsCount(subwarps[k], banks, limited, more[k]) {
      if k < |counts| { assert IsCount(subwarps[k], banks, limited, counts[k]); }
    }
  }

  /** The accesses counted for a warp, sub-warp by sub-warp, in either mode. */
  method TotalAccesses(warp: seq<Option<nat>>, parts: nat, banks: nat, limited: bool)
    returns (total: nat, counts: seq<nat>)
    requires parts > 0 && banks > 0
    ensures |counts| == parts && AreCounts(Subwarps(warp, parts), banks, limited, counts) && total == Sum(counts)
  {
    var subwarps := Subwarps(warp, parts);
    total, counts := 0, [];
    for k := 0 to parts
      invariant |counts| == k && AreCounts(subwarps, banks, limited, counts) && total == Sum(counts)
    {
      var r := CountPart(subwarps[k], banks, limited);
      OneMoreCount(subwarps, banks, limited, counts, r, counts + [r]);
      total := total + r;
      counts := counts + [r];
    }
  }

  // The sum of two lists of counts one after the other.
  lemma {:induction false} SumAppends(a: seq<nat>, b: seq<nat>)
    ensures Sum(a + b) == Sum(a) + Sum(b) && forall x: nat :: Sum([x]) == x
  {
    if b == [] {
      assert a + b == a;
    } else {
      assert (a + b)[..|a + b| - 1] == a + b[..|b| - 1];
      SumAppends(a, b[..|b| - 1]);
    }
  }

  /** Lane i is in the sub-warp that its number divided by the size of sub-warps says. */
  lemma PartOfWarp(warp: seq<Option<nat>>, parts: nat, k: nat, j: nat)
    requires k < parts && j < |warp| / parts
    ensures k * (|warp| / parts) + j < |warp|
    ensures Subwarps(warp, parts)[k][j] == warp[k * (|warp| / parts) + j]
  {
    PartInside(|warp|, parts, k);
  }

  lemma {:induction false} SumOrdered(a: seq<nat>, b: seq<nat>)
    requires |a| == |b| && forall k | 0 <= k < |a| :: a[k] <= b[k]
    ensures Sum(a) <= Sum(b)
  {
    if a == [] {
    } else {
      SumOrdered(a[..|a| - 1], b[..|b| - 1]);
    }
  }

  lemma {:induction false} SumAtMost(a: seq<nat>, bound: nat)
    requires forall k | 0 <= k < |a| :: a[k] <= bound
    ensures Sum(a) <= |a| * bound
  {
    if a == [] {
    } else {
      SumAtMost(a[..|a| - 1], bound);
      assert |a| * bound == (|a| - 1) * bound + bound;
    }
  }

  lemma {:induction false} SumAtLeast(a: seq<nat>, k: nat)
    requires k < |a|
    ensures Sum(a) >= a[k]
  {
    if k == |a| - 1 {
    } else {
      SumAtLeast(a[..|a| - 1], k);
    }
  }

  lemma PartsOrdered(subwarps: seq<seq<Option<nat>>>, banks: nat, full: seq<nat>, limited: seq<nat>, k: nat)
    requires banks > 0 && |full| == |limited| == |subwarps| && k < |subwarps|
    requires AreCounts(subwarps, banks, false, full) && AreCounts(subwarps, banks, true, limited)
    ensures full[k] <= limited[k] <= |subwarps[k]|
  {
    var lanes := subwarps[k];
    assert IsCount(lanes, banks, false, full[k]) && IsCount(lanes, banks, true, limited[k]);
    var c :| IsBroadcast(lanes, banks, c) && IsLimitedCount(lanes, banks, c, limited[k]);
    CountsOrdered(lanes, banks, c, full[k], limited[k]);
  }

  /** Limited broadcast never costs less than full broadcast, and neither exceeds one access for each lane. */
  lemma TotalsOrdered(warp: seq<Option<nat>>, parts: nat, banks: nat, full: seq<nat>, limited: seq<nat>)
    requires parts > 0 && banks > 0 && |full| == |limited| == parts
    requires AreCounts(Subwarps(warp, parts), banks, false, full)
             && AreCounts(Subwarps(warp, parts), banks, true, limited)
    ensures Sum(full) <= Sum(limited) <= |warp|
  {
    var subwarps := Subwarps(warp, parts);
    forall k | 0 <= k < parts ensures full[k] <= limited[k] <= |warp| / parts {
      PartsOrdered(subwarps, banks, full, limited, k);
    }
    SumOrdered(full, limited);
    SumAtMost(limited, |warp| / parts);
    PartInside(|warp|, parts, 0);
  }

  /** If sub-warps divide the warp evenly and a lane is active, there is an access. */
  lemma TotalPositive(warp: seq<Option<nat>>, parts: nat, banks: nat, full: seq<nat>, i: nat)
    requires parts > 0 && banks > 0 && |full| == parts && AreCounts(Subwarps(warp, parts), banks, false, full)
    requires |warp| % parts == 0 && i < |warp| && warp[i].Some?
    ensures Sum(full) >= 1
  {
    var k, j := LaneInPart(warp, parts, i);
    var lanes := Subwarps(warp, parts)[k];
    assert IsCount(lanes, banks, false, full[k]);
    FullCountPositive(lanes, banks, full[k], j);
    SumAtLeast(full, k);
  }

  lemma LaneInPart(warp: seq<Option<nat>>, parts: nat, i: nat) returns (k: nat, j: nat)
    requires parts > 0 && |warp| % parts == 0 && i < |warp|
    ensures k < parts && j < |Part(warp, parts, k)| && Part(warp, parts, k)[j] == warp[i]
  {
    k, j := PartOfLane(|warp|, parts, i);
    PartInside(|warp|, parts, k);
  }

  lemma PartOfLane(n: nat, parts: nat, i: nat) returns (k: nat, j: nat)
    requires parts > 0 && n % parts == 0 && i < n
    ensures k < parts && j < n / parts && i == k * (n / parts) + j
  {
    var size := n / parts;
    assert n == parts * size && size > 0;
    k, j := i / size, i % size;
    assert i == k * size + j;
    assert k >= parts ==> k * size >= parts * size;
  }
}
