/** Fault shrinking against a well-behaved oracle: the run is a descent that takes the first accepted
    candidate at each schedule, which settles what one call returns and how many questions it asks. */
module FaultDescent {
  import opened Common
  import opened Subsequence
  import opened Shrink

  /** The candidates of a schedule in the order they are tried: the halves, then the single removals. */
  function Candidate<E>(s: seq<E>, c: nat): (r: seq<E>)
    requires |s| >= 2 && c < |s| + 2
    ensures 0 < |r| < |s|
  {
    if c < 2 then Half(s, c) else Without(s, c - 2)
  }

  /** The first accepted candidate from number c on; |s| + 2 if there is none. */
  function Next<E>(accepts: seq<E> -> bool, s: seq<E>, c: nat): (r: nat)
    requires |s| >= 2 && c <= |s| + 2
    ensures c <= r <= |s| + 2 && (r < |s| + 2 ==> accepts(Candidate(s, r)))
    ensures forall d: nat :: c <= d < r ==> !accepts(Candidate(s, d))
    decreases |s| + 2 - c
  {
    if c == |s| + 2 || accepts(Candidate(s, c)) then c else Next(accepts, s, c + 1)
  }

  /** The descent from s: where it ends and how many candidates it tries. */
  function Descent<E>(accepts: seq<E> -> bool, s: seq<E>): (r: (seq<E>, nat))
    requires s != []
    ensures r.0 != []
    decreases |s|
  {
    if |s| == 1 then (s, 0)
    else
      var c := Next(accepts, s, 0);
      if c == |s| + 2 then (s, c)
      else
        var below := Descent(accepts, Candidate(s, c));
        (below.0, c + 1 + below.1)
  }

  /** The run that has tried the candidates before c. */
  function RunFrom<E>(oracle: Oracle<seq<E>>, s: seq<E>, c: nat, k: nat): (seq<E>, nat)
    requires |s| >= 2 && c <= |s| + 2
  {
    if c < 2 then HalvesFrom(oracle, s, c, k) else RemovalsFrom(oracle, s, c - 2, k)
  }

  /** One candidate: accepted, it is descended into; refused, the next one is tried. */
  lemma RunTries<E>(oracle: Oracle<seq<E>>, s: seq<E>, c: nat, k: nat)
    requires |s| >= 2 && c < |s| + 2 && !oracle.cancelled(k)
    ensures RunFrom(oracle, s, c, k) ==
      if oracle.answer(k, Candidate(s, c)) == Yes then DdminFrom(oracle, Candidate(s, c), k + 1)
      else RunFrom(oracle, s, c + 1, k + 1)
  {
    if c == 1 {
      assert HalvesFrom(oracle, s, 2, k + 1) == RemovalsFrom(oracle, s, 0, k + 1);
    }
  }

  lemma {:induction false} RunReachesNext<E(!new)>(oracle: Oracle<seq<E>>, accepts: seq<E> -> bool,
                                                   s: seq<E>, c: nat, k: nat, d: nat)
    requires |s| >= 2 && c <= |s| + 2 && Deterministic(oracle, accepts) && d == Next(accepts, s, c)
    ensures RunFrom(oracle, s, c, k) ==
      if d == |s| + 2 then (s, k + d - c) else DdminFrom(oracle, Candidate(s, d), k + d - c + 1)
    decreases |s| + 2 - c
  {
    if c < |s| + 2 {
      RunTries(oracle, s, c, k);
      if !accepts(Candidate(s, c)) {
        RunReachesNext(oracle, accepts, s, c + 1, k + 1, d);
      }
    }
  }

  lemma RunStep<E(!new)>(oracle: Oracle<seq<E>>, accepts: seq<E> -> bool, s: seq<E>, k: nat, c: nat)
    requires |s| >= 2 && Deterministic(oracle, accepts) && c == Next(accepts, s, 0)
    ensures c == |s| + 2 ==> DdminFrom(oracle, s, k) == (s, k + c)
    ensures c < |s| + 2 ==> DdminFrom(oracle, s, k) == DdminFrom(oracle, Candidate(s, c), k + c + 1)
  {
    RunReachesNext(oracle, accepts, s, 0, k, c);
    assert DdminFrom(oracle, s, k) == RunFrom(oracle, s, 0, k);
  }

  lemma {:induction false} RunIsDescent<E(!new)>(oracle: Oracle<seq<E>>, accepts: seq<E> -> bool, s: seq<E>, k: nat)
    requires s != [] && Deterministic(oracle, accepts)
    ensures var r, d := DdminFrom(oracle, s, k), Descent(accepts, s);
      r.0 == d.0 && r.1 == k + d.1
    decreases |s|
  {
    if |s| > 1 {
      var c := Next(accepts, s, 0);
      RunStep(oracle, accepts, s, k, c);
      if c < |s| + 2 {
        RunIsDescent(oracle, accepts, Candidate(s, c), k + c + 1);
      }
    }
  }

  /** What one call on a well-behaved oracle returns and how many questions it asks. */
  lemma CallIsDescent<E(!new)>(oracle: Oracle<seq<E>>, accepts: seq<E> -> bool, faults: seq<E>)
    requires faults != [] && Deterministic(oracle, accepts)
    ensures MinimalFaults(oracle, faults) ==
      if accepts(faults) then (Descent(accepts, faults).0, 1 + Descent(accepts, faults).1) else (faults, 1)
  {
    RunIsDescent(oracle, accepts, faults, 1);
  }

  // ---------------------------------------------------------------- schedules that are always minimised

  /** No proper subsequence of the result that has an event in it reproduces. */
  ghost predicate Irreducible<E(!new)>(accepts: seq<E> -> bool, r: seq<E>) {
    forall s: seq<E> :: IsSubsequence(s, r) && s != [] && |s| < |r| ==> !accepts(s)
  }

  ghost predicate AlwaysIrreducible<E(!new)>(faults: seq<E>) {
    forall oracle: Oracle<seq<E>>, accepts: seq<E> -> bool :: Deterministic(oracle, accepts) && accepts(faults) ==>
      Irreducible(accepts, MinimalFaults(oracle, faults).0)
  }

  /** At most two events, or three times the same one. */
  ghost predicate Tiny<E>(s: seq<E>) { |s| <= 2 || (|s| == 3 && s[0] == s[1] == s[2]) }

  lemma {:induction false} ElementsInherited<E>(s: seq<E>, t: seq<E>, x: E)
    requires IsSubsequence(s, t) && forall i :: 0 <= i < |t| ==> t[i] == x
    ensures forall i :: 0 <= i < |s| ==> s[i] == x
    decreases |t|
  {
    if s != [] {
      if s[0] == t[0] && IsSubsequence(s[1..], t[1..]) {
        ElementsInherited(s[1..], t[1..], x);
        assert forall i :: 0 < i < |s| ==> s[i] == s[1..][i - 1];
      } else {
        ElementsInherited(s, t[1..], x);
      }
    }
  }

  lemma {:induction false} SingleWithin<E>(s: seq<E>, i: nat)
    requires i < |s|
    ensures IsSubsequence([s[i]], s)
  {
    Reductions(s, i);
    Reductions(s[i..], 1);
    assert s[i..][..1] == [s[i]];
    Transitive([s[i]], s[i..], s);
  }

  /** A tiny schedule at which the minimiser is stuck is irreducible. */
  lemma TinyStuck<E(!new)>(accepts: seq<E> -> bool, r: seq<E>)
    requires r != [] && Tiny(r) && Stuck(accepts, r)
    ensures Irreducible(accepts, r)
  {
    forall s: seq<E> | IsSubsequence(s, r) && s != [] && |s| < |r|
      ensures !accepts(s)
    {
      var i := ProperFactors(s, r);
      Length(s, Without(r, i));
      if |s| < |r| - 1 {
        ElementsInherited(s, r, r[0]);
        assert s == Half(r, 0);
      }
    }
  }

  lemma TinyBelow<E>(r: seq<E>, faults: seq<E>)
    requires IsSubsequence(r, faults) && Tiny(faults)
    ensures Tiny(r)
  {
    Length(r, faults);
  }

  /** An event that alone is no candidate of a schedule that is not tiny. */
  lemma LoneEvent<E>(faults: seq<E>) returns (i: nat)
    requires faults != [] && !Tiny(faults)
    ensures i < |faults| && forall c: nat :: c < |faults| + 2 ==> Candidate(faults, c) != [faults[i]]
  {
    i := if |faults| > 3 || faults[1] == faults[0] then 2 else 1;
    forall c: nat | c < |faults| + 2
      ensures Candidate(faults, c) != [faults[i]]
    {
      if |faults| > 3 {
        assert |Candidate(faults, c)| >= 2;
      } else if c > 0 {
        assert |Candidate(faults, c)| == 2;
      } else {
        assert Candidate(faults, c)[0] == faults[0];
      }
    }
  }

  /** An oracle that accepts the whole schedule and one of its events traps the minimiser. */
  lemma LoneEventTraps<E(!new)>(faults: seq<E>)
    requires faults != [] && !Tiny(faults)
    ensures !AlwaysIrreducible(faults)
  {
    var i := LoneEvent(faults);
    var lone := [faults[i]];
    var accepts := (s: seq<E>) => s == faults || s == lone;
    var oracle := Oracle((k: nat, s: seq<E>) => if accepts(s) then Yes else No, (k: nat) => false);
    assert Candidate(faults, 0) != lone && Candidate(faults, 1) != lone;
    assert forall j: nat :: j < |faults| ==> Candidate(faults, j + 2) == Without(faults, j);
    SingleWithin(faults, i);
    assert IsSubsequence(lone, faults) && accepts(lone);
    assert Trap(accepts, faults);
    assert Deterministic(oracle, accepts);
    TrapIsKept(oracle, accepts, faults);
    assert !Irreducible(accepts, MinimalFaults(oracle, faults).0);
  }

  /** Which schedules are minimised whatever the oracle: exactly the tiny ones. */
  lemma AlwaysIrreducibleIff<E(!new)>(faults: seq<E>)
    requires faults != []
    ensures AlwaysIrreducible(faults) <==> |faults| <= 2 || (|faults| == 3 && faults[0] == faults[1] == faults[2])
  {
    if Tiny(faults) {
      forall oracle: Oracle<seq<E>>, accepts: seq<E> -> bool | Deterministic(oracle, accepts) && accepts(faults)
        ensures Irreducible(accepts, MinimalFaults(oracle, faults).0)
      {
        DdminStuck(oracle, accepts, faults, 1);
        DdminSound(oracle, faults, 1);
        TinyBelow(MinimalFaults(oracle, faults).0, faults);
        TinyStuck(accepts, MinimalFaults(oracle, faults).0);
      }
    } else {
      LoneEventTraps(faults);
    }
  }

  // ---------------------------------------------------------------- the most questions

  /** Successive schedules of a descent, one event removed at each step after both halves were refused. */
  ghost predicate Chain<E>(accepts: seq<E> -> bool, chain: seq<seq<E>>, removed: seq<nat>) {
    && |chain| == |removed| + 1
    && (forall t: nat :: t < |chain| ==> accepts(chain[t]) && |chain[t]| == |chain[0]| - t && chain[t] != [])
    && (forall t: nat :: t < |removed| ==> Removes(accepts, chain[t], removed[t], chain[t + 1]))
  }

  ghost predicate Removes<E>(accepts: seq<E> -> bool, s: seq<E>, r: nat, next: seq<E>) {
    |s| >= 2 && r < |s| && !accepts(Half(s, 0)) && next == Without(s, r)
  }

  /** The removals that each step was spared, starting from n events. */
  function Spared(n: nat, removed: seq<nat>): int {
    if removed == [] then 0
    else
      var t := |removed| - 1;
      Spared(n, removed[..t]) + n - t - 1 - removed[t]
  }

  /** The numbers strictly between a and b. */
  function Between(a: int, b: nat): (r: set<nat>)
    ensures forall j: nat :: j in r <==> a < j < b
    ensures -1 <= a < b ==> |r| == b - a - 1
    decreases b
  {
    if b == 0 || b - 1 <= a then {} else Between(a, b - 1) + {b - 1}
  }

  /** The sizes that lie between the event removed and the size it was removed from, for some step. */
  function Passed(n: nat, removed: seq<nat>): set<nat>
    requires |removed| <= n
  {
    if removed == [] then {}
    else
      var t := |removed| - 1;
      Passed(n, removed[..t]) + Between(removed[t], n - t)
  }

  lemma {:induction false} PassedAtMostSpared(n: nat, removed: seq<nat>)
    requires |removed| <= n && forall t: nat :: t < |removed| ==> removed[t] < n - t
    ensures |Passed(n, removed)| <= Spared(n, removed)
    decreases |removed|
  {
    if removed != [] {
      var t := |removed| - 1;
      PassedAtMostSpared(n, removed[..t]);
      assert |Between(removed[t], n - t)| == n - t - 1 - removed[t];
    }
  }

  lemma {:induction false} PassedMeaning(n: nat, removed: seq<nat>, t: nat, j: nat)
    requires t < |removed| <= n && removed[t] < j < n - t
    ensures j in Passed(n, removed)
    decreases |removed|
  {
    var last := |removed| - 1;
    if t < last {
      PassedMeaning(n, removed[..last], t, j);
    }
  }

  /** Steps that remove nothing among the first j events leave those events in place. */
  lemma {:induction false} PrefixStays<E>(accepts: seq<E> -> bool, chain: seq<seq<E>>, removed: seq<nat>,
                                          a: nat, b: nat, j: nat)
    requires Chain(accepts, chain, removed) && a <= b < |chain| && j <= |chain[0]| - b
    ensures j <= |chain[a]| && j <= |chain[b]|
    ensures chain[b][..j] == chain[a][..j] || exists t: nat :: a <= t < b && removed[t] < j
    decreases b
  {
    if a < b && j <= removed[b - 1] {
      PrefixStays(accepts, chain, removed, a, b - 1, j);
      assert Removes(accepts, chain[b - 1], removed[b - 1], chain[b]);
    }
  }

  /** A size reached from its double was passed on the way: else it would be the left half refused there. */
  lemma ReachedSizesPassed<E>(accepts: seq<E> -> bool, chain: seq<seq<E>>, removed: seq<nat>, j: nat)
    requires Chain(accepts, chain, removed) && |removed| <= |chain[0]|
    requires |chain[0]| - |removed| <= j && 2 * j <= |chain[0]|
    ensures j in Passed(|chain[0]|, removed)
  {
    var n := |chain[0]|;
    var a, b := n - 2 * j, n - j;
    assert chain[|removed|] != [] && accepts(chain[b]);
    PrefixStays(accepts, chain, removed, a, b, j);
    assert Removes(accepts, chain[a], removed[a], chain[a + 1]);
    assert chain[a][..j] == Half(chain[a], 0) && chain[b][..j] == chain[b];
    var t: nat :| a <= t < b && removed[t] < j;
    PassedMeaning(n, removed, t, j);
  }

  lemma SparedAtLeast<E>(accepts: seq<E> -> bool, chain: seq<seq<E>>, removed: seq<nat>)
    requires Chain(accepts, chain, removed)
    ensures Spared(|chain[0]|, removed) >= 0
    ensures Spared(|chain[0]|, removed) >= |chain[0]| / 2 + 1 - (|chain[0]| - |removed|)
  {
    assert chain[|removed|] != [];
    var n, e := |chain[0]|, |chain[0]| - |removed|;
    forall t: nat | t < |removed|
      ensures removed[t] < n - t
    {
      assert Removes(accepts, chain[t], removed[t], chain[t + 1]);
    }
    PassedAtMostSpared(n, removed);
    if e <= n / 2 {
      var sizes := Between(e - 1, n / 2 + 1);
      forall j | j in sizes
        ensures j in Passed(n, removed)
      {
        ReachedSizesPassed(accepts, chain, removed, j);
      }
      SubsetSize(sizes, Passed(n, removed));
    }
  }

  lemma {:induction false} BudgetGrows(m: nat)
    requires m >= 1
    ensures CallBudget(m) >= m - 1
  {
    if m > 1 { BudgetGrows(m - 1); }
  }

  lemma {:induction false} DescentBound<E(!new)>(accepts: seq<E> -> bool, s: seq<E>)
    requires s != []
    ensures Descent(accepts, s).1 <= CallBudget(|s|)
    decreases |s|
  {
    if |s| > 1 {
      var c := Next(accepts, s, 0);
      if c < |s| + 2 {
        DescentBound(accepts, Candidate(s, c));
        CallBudgetStep(|Candidate(s, c)|, |s|);
      }
    }
  }

  /** The questions left below the end of a chain, given what its steps were spared. */
  lemma {:induction false} ChainBound<E(!new)>(accepts: seq<E> -> bool, chain: seq<seq<E>>, removed: seq<nat>)
    requires Chain(accepts, chain, removed)
    ensures var n, s := |chain[0]|, chain[|removed|];
      Descent(accepts, s).1 <= CallBudget(|s|) + Spared(n, removed) - (n / 2 - 1)
    decreases |chain[|removed|]|
  {
    var n, s := |chain[0]|, chain[|removed|];
    SparedAtLeast(accepts, chain, removed);
    if |s| > 1 {
      var c := Next(accepts, s, 0);
      if c == |s| + 2 {
        BudgetGrows(|s| - 1);
      } else if c < 2 {
        DescentBound(accepts, Half(s, c));
        CallBudgetStep(|Half(s, c)|, |s|);
      } else {
        ChainStep(accepts, chain, removed, c - 2);
        ChainBound(accepts, chain + [Without(s, c - 2)], removed + [c - 2]);
      }
    }
  }

  lemma ChainStep<E(!new)>(accepts: seq<E> -> bool, chain: seq<seq<E>>, removed: seq<nat>, r: nat)
    requires Chain(accepts, chain, removed)
    requires var s := chain[|removed|];
      |s| >= 2 && r < |s| && !accepts(Half(s, 0)) && accepts(Without(s, r))
    ensures Chain(accepts, chain + [Without(chain[|removed|], r)], removed + [r])
    ensures Spared(|chain[0]|, removed + [r]) == Spared(|chain[0]|, removed) + |chain[|removed|]| - 1 - r
  {
    assert (removed + [r])[..|removed|] == removed;
    var s := chain[|removed|];
    var longer := chain + [Without(s, r)];
    forall t: nat | t < |removed| + 1
      ensures Removes(accepts, longer[t], (removed + [r])[t], longer[t + 1])
    {
      if t < |removed| {
        assert Removes(accepts, chain[t], removed[t], chain[t + 1]);
      }
    }
  }

  /** A well-behaved oracle is asked at least n/2 - 1 questions fewer than a flaky one can be. */
  lemma DeterministicBound<E(!new)>(oracle: Oracle<seq<E>>, accepts: seq<E> -> bool, faults: seq<E>)
    requires |faults| >= 2 && Deterministic(oracle, accepts)
    ensures var n := |faults|;
      2 * (MinimalFaults(oracle, faults).1 - 1) <= n * n + 5 * n - 6 - 2 * (n / 2 - 1)
  {
    CallIsDescent(oracle, accepts, faults);
    CallBudgetClosed(|faults|);
    BudgetGrows(|faults|);
    if accepts(faults) {
      ChainBound(accepts, [faults], []);
    }
  }

  // ---------------------------------------------------------------- and some oracle is asked that many

  /** One schedule of each size m: the first m events, with event n/2 kept as the last one from size n/2 down. */
  function Link<E>(f: seq<E>, m: nat): (s: seq<E>)
    requires 2 <= m <= |f|
    ensures |s| == m
  {
    if m > |f| / 2 then f[..m] else f[..m - 1] + [f[|f| / 2]]
  }

  function Links<E(==)>(f: seq<E>): seq<E> -> bool {
    (s: seq<E>) => 2 <= |s| <= |f| && s == Link(f, |s|)
  }

  /** The event whose removal leads from one size to the next. */
  function Target(n: nat, m: nat): nat
    requires m >= 2
  {
    if m > n / 2 + 1 then m - 1 else m - 2
  }

  lemma LinkHalves<E(!new)>(f: seq<E>, m: nat)
    requires Distinct(f) && 2 <= m <= |f|
    ensures !Links(f)(Half(Link(f, m), 0)) && !Links(f)(Half(Link(f, m), 1))
  {
    var s, h := Link(f, m), m / 2;
    if h >= 2 {
      assert Half(s, 0)[h - 1] == f[h - 1] && Link(f, h)[h - 1] == f[|f| / 2];
    }
    var right := Half(s, 1);
    assert right[0] == s[h] && s[h] != f[0];
    assert |right| >= 2 ==> Link(f, |right|)[0] == f[0];
  }

  lemma LinkRemovals<E(!new)>(f: seq<E>, m: nat, i: nat)
    requires Distinct(f) && 2 <= m <= |f| && i < m
    ensures i < Target(|f|, m) || m == 2 ==> !Links(f)(Without(Link(f, m), i))
    ensures i == Target(|f|, m) && m >= 3 ==> Without(Link(f, m), i) == Link(f, m - 1)
  {
    var s := Link(f, m);
    if m >= 3 && i < Target(|f|, m) {
      assert Without(s, i)[i] == f[i + 1] && Link(f, m - 1)[i] == f[i];
    }
  }

  /** The candidates tried below size m, when the event to remove is the last one, or the one before it
      from size n/2 + 1 down. */
  function Asked(n: nat, m: nat): nat
    requires m >= 2
  {
    if m == 2 then 4 else Target(n, m) + 3 + Asked(n, m - 1)
  }

  lemma {:induction false} AskedClosed(n: nat, m: nat)
    requires n >= 2 && m >= 2
    ensures Asked(n, m) == CallBudget(m) - if m <= n / 2 + 1 then m - 2 else n / 2 - 1
  {
    if m > 2 {
      AskedClosed(n, m - 1);
    } else {
      assert CallBudget(2) == 4 + CallBudget(1);
    }
  }

  lemma LinkRefuses<E(!new)>(f: seq<E>, m: nat, c: nat)
    requires Distinct(f) && 2 <= m <= |f| && c < if m == 2 then 4 else Target(|f|, m) + 2
    ensures !Links(f)(Candidate(Link(f, m), c))
  {
    if c < 2 {
      LinkHalves(f, m);
    } else {
      LinkRemovals(f, m, c - 2);
    }
  }

  /** The first candidate of a link that is taken: the removal that leads to the next link. */
  lemma LinkNext<E(!new)>(f: seq<E>, m: nat, accepts: seq<E> -> bool, first: nat)
    requires Distinct(f) && 2 <= m <= |f| && accepts == Links(f)
    requires first == if m == 2 then 4 else Target(|f|, m) + 2
    ensures Next(accepts, Link(f, m), 0) == first
    ensures m > 2 ==> Candidate(Link(f, m), first) == Link(f, m - 1)
  {
    var s, r := Link(f, m), Next(accepts, Link(f, m), 0);
    if m > 2 {
      LinkRemovals(f, m, first - 2);
      assert accepts(Candidate(s, first));
    }
    if r < first {
      LinkRefuses(f, m, r);
    }
  }

  lemma {:induction false} DescentCount<E>(accepts: seq<E> -> bool, s: seq<E>, c: nat)
    requires |s| >= 2 && c == Next(accepts, s, 0)
    ensures Descent(accepts, s).1 == if c == |s| + 2 then c else c + 1 + Descent(accepts, Candidate(s, c)).1
  {
  }

  lemma LinkStep<E(!new)>(f: seq<E>, m: nat, accepts: seq<E> -> bool)
    requires Distinct(f) && 2 < m <= |f| && accepts == Links(f)
    ensures Descent(accepts, Link(f, m)).1 == Target(|f|, m) + 3 + Descent(accepts, Link(f, m - 1)).1
  {
    var s, c := Link(f, m), Target(|f|, m) + 2;
    LinkNext(f, m, accepts, c);
    DescentCount(accepts, s, c);
  }

  lemma LinkBase<E(!new)>(f: seq<E>, accepts: seq<E> -> bool)
    requires Distinct(f) && 2 <= |f| && accepts == Links(f)
    ensures Descent(accepts, Link(f, 2)).1 == 4
  {
    LinkNext(f, 2, accepts, 4);
    DescentCount(accepts, Link(f, 2), 4);
  }

  lemma {:induction false} AskedSums(n: nat, tried: seq<nat>, m: nat)
    requires 2 <= m < |tried| && tried[2] == 4
    requires forall i :: 2 < i < |tried| ==> tried[i] == Target(n, i) + 3 + tried[i - 1]
    ensures tried[m] == Asked(n, m)
  {
    if m > 2 {
      AskedSums(n, tried, m - 1);
    }
  }

  /** The candidates tried below each link. */
  function Tries<E>(f: seq<E>, accepts: seq<E> -> bool): (r: seq<nat>)
    ensures |r| == |f| + 1 && forall i :: 2 <= i <= |f| ==> r[i] == Descent(accepts, Link(f, i)).1
  {
    seq(|f| + 1, i requires 0 <= i <= |f| => if i < 2 then 0 else Descent(accepts, Link(f, i)).1)
  }

  lemma TriesStep<E(!new)>(f: seq<E>, accepts: seq<E> -> bool, tried: seq<nat>, i: nat)
    requires Distinct(f) && 2 < i <= |f| && accepts == Links(f) && tried == Tries(f, accepts)
    ensures tried[i] == Target(|f|, i) + 3 + tried[i - 1]
  {
    LinkStep(f, i, accepts);
  }

  lemma LinkDescent<E(!new)>(f: seq<E>, accepts: seq<E> -> bool, tried: seq<nat>)
    requires Distinct(f) && 2 <= |f| && accepts == Links(f) && tried == Tries(f, accepts)
    ensures tried[|f|] == Asked(|f|, |f|)
  {
    LinkBase(f, accepts);
    forall i | 2 < i <= |f|
      ensures tried[i] == Target(|f|, i) + 3 + tried[i - 1]
    {
      TriesStep(f, accepts, tried, i);
    }
    AskedSums(|f|, tried, |f|);
  }

  predicate AsksMost<E>(oracle: Oracle<seq<E>>, faults: seq<E>) {
    var n := |faults|;
    2 * (MinimalFaults(oracle, faults).1 - 1) == n * n + 5 * n - 6 - 2 * (n / 2 - 1)
  }

  lemma LinksAskMost<E(!new)>(faults: seq<E>, oracle: Oracle<seq<E>>, accepts: seq<E> -> bool)
    requires |faults| >= 2 && Distinct(faults) && accepts == Links(faults) && Deterministic(oracle, accepts)
    ensures AsksMost(oracle, faults)
  {
    var n, tried := |faults|, Tries(faults, accepts);
    assert Link(faults, n) == faults && accepts(faults);
    CallIsDescent(oracle, accepts, faults);
    LinkDescent(faults, accepts, tried);
    AskedClosed(n, n);
    CallBudgetClosed(n);
  }

  /** The bound for well-behaved oracles is reached too, on every schedule of distinct events. */
  lemma DeterministicBoundTight<E(!new)>(faults: seq<E>)
    requires |faults| >= 2 && Distinct(faults)
    ensures exists oracle: Oracle<seq<E>>, accepts: seq<E> -> bool ::
      Deterministic(oracle, accepts) && AsksMost(oracle, faults)
  {
    var accepts := Links(faults);
    var oracle := Oracle((k: nat, s: seq<E>) => if accepts(s) then Yes else No, (k: nat) => false);
    assert Deterministic(oracle, accepts);
    LinksAskMost(faults, oracle, accepts);
  }
}
