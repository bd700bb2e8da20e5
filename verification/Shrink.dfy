/** Violation shrinking: binary search over a snapshot ancestry chain and delta debugging
    over a fault schedule.

    An oracle is asked a numbered sequence of questions.  Its answer and the state of the
    cancellation context may depend on the number of questions already asked, so one
    `Oracle` value stands for one arbitrary run: flaky answers, errors and a cancellation
    at any moment included. */
module Shrink {
  import opened Common
  import opened Subsequence

  type Id = nat

  datatype Answer = Yes | No | Err

  datatype Oracle<!T> = Oracle(answer: (nat, T) -> Answer, cancelled: nat -> bool)

  /** A well-behaved run: no error, no cancellation, one fixed verdict per question. */
  ghost predicate Deterministic<T(!new)>(oracle: Oracle<T>, accepts: T -> bool) {
    && (forall k: nat, x: T :: oracle.answer(k, x) == if accepts(x) then Yes else No)
    && (forall k: nat :: !oracle.cancelled(k))
  }

  class ShrinkResult {
    var originalPath: seq<Id>
    var minimalSnapshotId: Id
    var originalFaultCount: nat
    var minimalFaultCount: nat
    var rounds: nat

    constructor (path: seq<Id>, minimal: Id, faultCount: nat)
      ensures originalPath == path && minimalSnapshotId == minimal
      ensures originalFaultCount == faultCount && minimalFaultCount == 0 && rounds == 0
    {
      originalPath, minimalSnapshotId := path, minimal;
      originalFaultCount, minimalFaultCount, rounds := faultCount, 0, 0;
    }
  }

  // ---------------------------------------------------------------- ancestry search

  datatype PathOutcome = PathOutcome(index: nat, rounds: nat, oracleFailed: bool)

  /** The bisection loop, entered with bounds lo and hi after k oracle calls. */
  function Bisect(path: seq<Id>, oracle: Oracle<Id>, lo: nat, hi: nat, k: nat): PathOutcome
    requires lo <= hi < |path|
    decreases hi - lo
  {
    if lo == hi || oracle.cancelled(k) then PathOutcome(hi, k, false)
    else
      var mid := (lo + hi) / 2;
      if oracle.answer(k, path[mid]) == Yes then Bisect(path, oracle, lo, mid, k + 1)
      else Bisect(path, oracle, mid + 1, hi, k + 1)
  }

  function PathSearch(path: seq<Id>, oracle: Oracle<Id>): PathOutcome
    requires path != []
  {
    var last := |path| - 1;
    if last == 0 then PathOutcome(0, 0, false)
    else match oracle.answer(0, path[last])
      case Err => PathOutcome(last, 1, true)
      case No => PathOutcome(last, 1, false)
      case Yes => Bisect(path, oracle, 0, last, 1)
  }

  method ShrinkPath(path: seq<Id>, oracle: Oracle<Id>) returns (result: ShrinkResult?, failed: bool)
    ensures path == [] ==> result == null && failed
    ensures path != [] ==>
              && result != null && result.originalPath == path
              && PathSearch(path, oracle).index < |path|
              && result.minimalSnapshotId == path[PathSearch(path, oracle).index]
              && result.rounds == PathSearch(path, oracle).rounds
              && failed == PathSearch(path, oracle).oracleFailed
  {
    if |path| == 0 {
      return null, true;
    }
    if |path| == 1 {
      result := new ShrinkResult(path, path[0], 0);
      return result, false;
    }
    var res := new ShrinkResult(path, path[|path| - 1], 0);
    var first := oracle.answer(0, path[|path| - 1]);
    res.rounds := res.rounds + 1;
    if first == Err {
      return res, true;
    }
    if first == No {
      return res, false;
    }
    var lo, hi := 0, |path| - 1;
    while lo < hi
      invariant 0 <= lo <= hi < |path|
      invariant res.originalPath == path && res.minimalSnapshotId == path[hi]
      invariant Bisect(path, oracle, lo, hi, res.rounds) == PathSearch(path, oracle)
    {
      if oracle.cancelled(res.rounds) {
        break;
      }
      var mid := (lo + hi) / 2;
      var ok := oracle.answer(res.rounds, path[mid]);
      res.rounds := res.rounds + 1;
      if ok == Err {
        lo := mid + 1;
        continue;
      }
      if ok == Yes {
        hi := mid;
        res.minimalSnapshotId := path[mid];
      } else {
        lo := mid + 1;
      }
    }
    return res, false;
  }

  function Pow2(e: nat): nat { if e == 0 then 1 else 2 * Pow2(e - 1) }

  /** ceil(log2(n)). */
  function CeilLog2(n: nat): nat
    requires n > 0
  {
    if n == 1 then 0 else CeilLog2((n + 1) / 2) + 1
  }

  /** The least exponent whose power of two reaches n. */
  lemma {:induction false} CeilLog2Meaning(n: nat)
    requires n > 0
    ensures var e := CeilLog2(n); n <= Pow2(e) && (e > 0 ==> Pow2(e - 1) < n)
  {
    if n > 1 {
      CeilLog2Meaning((n + 1) / 2);
    }
  }

  lemma {:induction false} BisectRange(path: seq<Id>, oracle: Oracle<Id>, lo: nat, hi: nat, k: nat)
    requires lo <= hi < |path|
    ensures var r := Bisect(path, oracle, lo, hi, k); lo <= r.index <= hi && !r.oracleFailed
    decreases hi - lo
  {
    if lo < hi && !oracle.cancelled(k) {
      var mid := (lo + hi) / 2;
      if oracle.answer(k, path[mid]) == Yes {
        BisectRange(path, oracle, lo, mid, k + 1);
      } else {
        BisectRange(path, oracle, mid + 1, hi, k + 1);
      }
    }
  }

  lemma {:induction false} BisectRounds(path: seq<Id>, oracle: Oracle<Id>, lo: nat, hi: nat, k: nat, e: nat)
    requires lo <= hi < |path| && hi - lo + 1 <= Pow2(e)
    ensures k <= Bisect(path, oracle, lo, hi, k).rounds <= k + e
    decreases hi - lo
  {
    if lo < hi && !oracle.cancelled(k) {
      var mid := (lo + hi) / 2;
      if oracle.answer(k, path[mid]) == Yes {
        BisectRounds(path, oracle, lo, mid, k + 1, e - 1);
      } else {
        BisectRounds(path, oracle, mid + 1, hi, k + 1, e - 1);
      }
    }
  }

  ghost predicate Confirmed(path: seq<Id>, oracle: Oracle<Id>, i: nat, rounds: nat)
    requires i < |path|
  {
    exists j: nat :: j < rounds && oracle.answer(j, path[i]) == Yes
  }

  lemma {:induction false} BisectConfirmed(path: seq<Id>, oracle: Oracle<Id>, lo: nat, hi: nat, k: nat)
    requires lo <= hi < |path| && Confirmed(path, oracle, hi, k)
    ensures var r := Bisect(path, oracle, lo, hi, k);
      r.index < |path| && Confirmed(path, oracle, r.index, r.rounds)
    decreases hi - lo
  {
    if lo < hi && !oracle.cancelled(k) {
      var mid := (lo + hi) / 2;
      if oracle.answer(k, path[mid]) == Yes {
        BisectConfirmed(path, oracle, lo, mid, k + 1);
      } else {
        BisectConfirmed(path, oracle, mid + 1, hi, k + 1);
      }
    }
  }

  /** On every run, whatever the oracle does: an answer other than the original snapshot
      was confirmed by the oracle, and the probes are logarithmic in the depth. */
  lemma PathSearchSafe(path: seq<Id>, oracle: Oracle<Id>)
    requires path != []
    ensures var r := PathSearch(path, oracle);
      && r.index < |path|
      && (r.index != |path| - 1 ==> Confirmed(path, oracle, r.index, r.rounds))
      && r.rounds <= 1 + CeilLog2(|path|)
      && (r.oracleFailed <==> |path| > 1 && oracle.answer(0, path[|path| - 1]) == Err)
  {
    if |path| > 1 && oracle.answer(0, path[|path| - 1]) == Yes {
      BisectRange(path, oracle, 0, |path| - 1, 1);
      CeilLog2Meaning(|path|);
      BisectRounds(path, oracle, 0, |path| - 1, 1, CeilLog2(|path|));
      BisectConfirmed(path, oracle, 0, |path| - 1, 1);
    }
  }

  /** Along the probes a bisection aiming at f makes, every probe from f on is accepted. */
  ghost predicate ProbesAgree(path: seq<Id>, accepts: Id -> bool, lo: nat, hi: nat, f: nat)
    requires lo <= hi < |path|
    decreases hi - lo
  {
    lo == hi ||
    var mid := (lo + hi) / 2;
    if mid < f then ProbesAgree(path, accepts, mid + 1, hi, f)
    else accepts(path[mid]) && ProbesAgree(path, accepts, lo, mid, f)
  }

  ghost predicate FirstAccepted(path: seq<Id>, accepts: Id -> bool, f: nat) {
    f < |path| && accepts(path[f]) && forall j: nat :: j < f ==> !accepts(path[j])
  }

  lemma {:induction false} BisectFinds(path: seq<Id>, oracle: Oracle<Id>, accepts: Id -> bool,
                                       lo: nat, hi: nat, k: nat, f: nat)
    requires lo <= f <= hi < |path|
    requires Deterministic(oracle, accepts) && FirstAccepted(path, accepts, f)
    ensures Bisect(path, oracle, lo, hi, k).index == f <==> ProbesAgree(path, accepts, lo, hi, f)
    decreases hi - lo
  {
    if lo < hi {
      var mid := (lo + hi) / 2;
      if mid < f {
        BisectFinds(path, oracle, accepts, mid + 1, hi, k + 1, f);
      } else if accepts(path[mid]) {
        BisectFinds(path, oracle, accepts, lo, mid, k + 1, f);
      } else {
        BisectRange(path, oracle, mid + 1, hi, k + 1);
      }
    }
  }

  lemma {:induction false} MonotoneAgrees(path: seq<Id>, accepts: Id -> bool, lo: nat, hi: nat, f: nat)
    requires lo <= f <= hi < |path|
    requires forall j: nat :: f <= j < |path| ==> accepts(path[j])
    ensures ProbesAgree(path, accepts, lo, hi, f)
    decreases hi - lo
  {
    if lo < hi {
      var mid := (lo + hi) / 2;
      if mid < f {
        MonotoneAgrees(path, accepts, mid + 1, hi, f);
      } else {
        MonotoneAgrees(path, accepts, lo, mid, f);
      }
    }
  }

  /** The search returns the earliest reproducing snapshot exactly when the probes it makes
      beyond that snapshot are all accepted; an oracle monotone along the path guarantees it. */
  lemma EarliestIff(path: seq<Id>, oracle: Oracle<Id>, accepts: Id -> bool, f: nat)
    requires |path| > 1 && Deterministic(oracle, accepts) && FirstAccepted(path, accepts, f)
    ensures PathSearch(path, oracle).index == f <==>
            f == |path| - 1 || (accepts(path[|path| - 1]) && ProbesAgree(path, accepts, 0, |path| - 1, f))
    ensures (forall j: nat :: f <= j < |path| ==> accepts(path[j])) ==> PathSearch(path, oracle).index == f
  {
    var last := |path| - 1;
    if accepts(path[last]) {
      BisectFinds(path, oracle, accepts, 0, last, 1, f);
    }
    if forall j: nat :: f <= j < |path| ==> accepts(path[j]) {
      MonotoneAgrees(path, accepts, 0, last, f);
    }
  }

  lemma {:induction false} BisectBoundary(path: seq<Id>, oracle: Oracle<Id>, accepts: Id -> bool,
                                          lo: nat, hi: nat, k: nat)
    requires lo <= hi < |path| && Deterministic(oracle, accepts) && accepts(path[hi])
    requires lo > 0 ==> !accepts(path[lo - 1])
    ensures var i := Bisect(path, oracle, lo, hi, k).index;
      i <= hi && accepts(path[i]) && (i > 0 ==> !accepts(path[i - 1]))
    decreases hi - lo
  {
    if lo < hi {
      var mid := (lo + hi) / 2;
      if accepts(path[mid]) {
        BisectBoundary(path, oracle, accepts, lo, mid, k + 1);
      } else {
        BisectBoundary(path, oracle, accepts, mid + 1, hi, k + 1);
      }
    }
  }

  /** Without monotonicity the answer is still a boundary: it reproduces and its parent does not. */
  lemma PathBoundary(path: seq<Id>, oracle: Oracle<Id>, accepts: Id -> bool)
    requires |path| > 1 && Deterministic(oracle, accepts) && accepts(path[|path| - 1])
    ensures var i := PathSearch(path, oracle).index;
      i < |path| && accepts(path[i]) && (i > 0 ==> !accepts(path[i - 1]))
  {
    BisectBoundary(path, oracle, accepts, 0, |path| - 1, 1);
  }

  /** A verdict with a gap between two reproducing snapshots. */
  predicate GapAccepts(x: Id) { x != 11 }

  function GapOracle(): Oracle<Id> {
    Oracle((k: nat, x: Id) => if GapAccepts(x) then Yes else No, (k: nat) => false)
  }

  /** "Earliest" is not guaranteed in general: here snapshot 10 reproduces and 12 is returned. */
  lemma EarliestCanBeMissed()
    ensures FirstAccepted([10, 11, 12], GapAccepts, 0) && PathSearch([10, 11, 12], GapOracle()).index == 2
  {
    var path := [10, 11, 12];
    assert Bisect(path, GapOracle(), 0, 2, 1) == Bisect(path, GapOracle(), 2, 2, 2);
  }

  // ---------------------------------------------------------------- fault schedules

  /** The minimiser on a non-empty schedule, entered after k oracle calls: the schedule it
      returns and the number of calls made by then. */
  function DdminFrom<E>(oracle: Oracle<seq<E>>, faults: seq<E>, k: nat): (seq<E>, nat)
    requires faults != []
    decreases |faults|, |faults| + 4
  {
    if |faults| == 1 then (faults, k) else HalvesFrom(oracle, faults, 0, k)
  }

  function Half<E>(faults: seq<E>, j: nat): (s: seq<E>)
    requires |faults| >= 2 && j < 2
    ensures 0 < |s| < |faults|
  {
    if j == 0 then faults[..|faults| / 2] else faults[|faults| / 2..]
  }

  /** The halves make up the schedule, and the second is at most one event longer. */
  lemma HalvesSplit<E>(faults: seq<E>)
    requires |faults| >= 2
    ensures Half(faults, 0) + Half(faults, 1) == faults
    ensures |Half(faults, 0)| <= |Half(faults, 1)| <= |Half(faults, 0)| + 1
  {
  }

  function HalvesFrom<E>(oracle: Oracle<seq<E>>, faults: seq<E>, j: nat, k: nat): (seq<E>, nat)
    requires |faults| >= 2 && j <= 2
    decreases |faults|, |faults| + 3 - j
  {
    if j == 2 then RemovalsFrom(oracle, faults, 0, k)
    else if oracle.cancelled(k) then (faults, k)
    else if oracle.answer(k, Half(faults, j)) == Yes then DdminFrom(oracle, Half(faults, j), k + 1)
    else HalvesFrom(oracle, faults, j + 1, k + 1)
  }

  function RemovalsFrom<E>(oracle: Oracle<seq<E>>, faults: seq<E>, i: nat, k: nat): (seq<E>, nat)
    requires |faults| >= 2 && i <= |faults|
    decreases |faults|, |faults| - i
  {
    if i == |faults| || oracle.cancelled(k) then (faults, k)
    else if oracle.answer(k, Without(faults, i)) == Yes then DdminFrom(oracle, Without(faults, i), k + 1)
    else RemovalsFrom(oracle, faults, i + 1, k + 1)
  }

  /** The whole fault-shrinking run: the returned schedule and the total number of oracle calls. */
  function MinimalFaults<E>(oracle: Oracle<seq<E>>, faults: seq<E>): (seq<E>, nat) {
    if faults == [] then ([], 0)
    else if oracle.answer(0, faults) != Yes then (faults, 1)
    else DdminFrom(oracle, faults, 1)
  }

  method Ddmin<E>(faults: seq<E>, oracle: Oracle<seq<E>>, stats: ShrinkResult) returns (minimal: seq<E>)
    requires faults != []
    modifies stats`rounds
    ensures (minimal, stats.rounds) == DdminFrom(oracle, faults, old(stats.rounds))
    decreases |faults|
  {
    var n := |faults|;
    if n == 1 {
      return faults;
    }
    var half := n / 2;
    var subsets := [faults[..half], faults[half..]];
    for j := 0 to 2
      invariant HalvesFrom(oracle, faults, j, stats.rounds) == DdminFrom(oracle, faults, old(stats.rounds))
    {
      if oracle.cancelled(stats.rounds) {
        return faults;
      }
      var answer := oracle.answer(stats.rounds, subsets[j]);
      stats.rounds := stats.rounds + 1;
      if answer == Yes {
        minimal := Ddmin(subsets[j], oracle, stats);
        return;
      }
    }
    for i := 0 to n
      invariant RemovalsFrom(oracle, faults, i, stats.rounds) == DdminFrom(oracle, faults, old(stats.rounds))
    {
      if oracle.cancelled(stats.rounds) {
        return faults;
      }
      var reduced := faults[..i] + faults[i+1..];
      var answer := oracle.answer(stats.rounds, reduced);
      stats.rounds := stats.rounds + 1;
      if answer == Yes {
        minimal := Ddmin(reduced, oracle, stats);
        return;
      }
    }
    return faults;
  }

  method ShrinkFaults<E>(base: Id, faults: seq<E>, oracle: Oracle<seq<E>>)
    returns (minimal: seq<E>, result: ShrinkResult)
    ensures (minimal, result.rounds) == MinimalFaults(oracle, faults)
    ensures result.minimalSnapshotId == base
    ensures result.originalFaultCount == |faults| && result.minimalFaultCount == |minimal|
  {
    result := new ShrinkResult([], base, |faults|);
    if |faults| == 0 {
      return [], result;
    }
    var answer := oracle.answer(0, faults);
    result.rounds := result.rounds + 1;
    if answer != Yes {
      result.minimalFaultCount := |faults|;
      return faults, result;
    }
    minimal := Ddmin(faults, oracle, result);
    result.minimalFaultCount := |minimal|;
  }

  /** Upper bound on the calls below a schedule of n events. */
  function CallBudget(n: nat): nat { if n <= 1 then 0 else n + 2 + CallBudget(n - 1) }

  lemma {:induction false} CallBudgetClosed(n: nat)
    requires n > 0
    ensures 2 * CallBudget(n) == n * n + 5 * n - 6
  {
    if n > 1 {
      CallBudgetClosed(n - 1);
    }
  }

  lemma {:induction false} CallBudgetStep(m: nat, n: nat)
    requires 0 < m < n
    ensures CallBudget(m) + n + 2 <= CallBudget(n)
  {
    if m < n - 1 {
      CallBudgetStep(m, n - 1);
    }
  }

  /** What a run entered after k calls on `faults` may return, whatever the oracle does. */
  ghost predicate SoundRun<E>(oracle: Oracle<seq<E>>, faults: seq<E>, k: nat, r: (seq<E>, nat), calls: nat) {
    && IsSubsequence(r.0, faults) && r.0 != []
    && k <= r.1 <= k + calls
    && (r.0 == faults || exists j: nat :: k <= j < r.1 && oracle.answer(j, r.0) == Yes)
  }

  lemma Descend<E>(oracle: Oracle<seq<E>>, faults: seq<E>, k: nat, s: seq<E>, r: (seq<E>, nat), calls: nat)
    requires IsSubsequence(s, faults) && oracle.answer(k, s) == Yes
    requires SoundRun(oracle, s, k + 1, r, calls)
    ensures SoundRun(oracle, faults, k, r, calls + 1)
  {
    Transitive(r.0, s, faults);
  }

  lemma {:induction false} DdminSound<E>(oracle: Oracle<seq<E>>, faults: seq<E>, k: nat)
    requires faults != []
    ensures SoundRun(oracle, faults, k, DdminFrom(oracle, faults, k), CallBudget(|faults|))
    decreases |faults|, |faults| + 4
  {
    Reflexive(faults);
    if |faults| > 1 {
      HalvesSound(oracle, faults, 0, k);
      CallBudgetStep(|faults| - 1, |faults|);
    }
  }

  lemma {:induction false} HalvesSound<E>(oracle: Oracle<seq<E>>, faults: seq<E>, j: nat, k: nat)
    requires |faults| >= 2 && j <= 2
    ensures SoundRun(oracle, faults, k, HalvesFrom(oracle, faults, j, k), CallBudget(|faults| - 1) + |faults| + 2 - j)
    decreases |faults|, |faults| + 3 - j
  {
    Reflexive(faults);
    if j == 2 {
      RemovalsSound(oracle, faults, 0, k);
    } else if !oracle.cancelled(k) {
      var s := Half(faults, j);
      if oracle.answer(k, s) == Yes {
        Reductions(faults, |faults| / 2);
        DdminSound(oracle, s, k + 1);
        if |s| < |faults| - 1 { CallBudgetStep(|s|, |faults| - 1); }
        Descend(oracle, faults, k, s, DdminFrom(oracle, s, k + 1), CallBudget(|s|));
      } else {
        HalvesSound(oracle, faults, j + 1, k + 1);
      }
    }
  }

  lemma {:induction false} RemovalsSound<E>(oracle: Oracle<seq<E>>, faults: seq<E>, i: nat, k: nat)
    requires |faults| >= 2 && i <= |faults|
    ensures SoundRun(oracle, faults, k, RemovalsFrom(oracle, faults, i, k), CallBudget(|faults| - 1) + |faults| - i)
    decreases |faults|, |faults| - i
  {
    Reflexive(faults);
    if i < |faults| && !oracle.cancelled(k) {
      var s := Without(faults, i);
      if oracle.answer(k, s) == Yes {
        Reductions(faults, i);
        DdminSound(oracle, s, k + 1);
        Descend(oracle, faults, k, s, DdminFrom(oracle, s, k + 1), CallBudget(|s|));
      } else {
        RemovalsSound(oracle, faults, i + 1, k + 1);
      }
    }
  }

  /** On every run, errors and cancellation included: the result is an order-preserving
      subsequence, it is the original schedule or one the oracle accepted, and the number of
      oracle calls is at most 1 + (n*n + 5n - 6) / 2. */
  lemma ShrinkFaultsSound<E>(oracle: Oracle<seq<E>>, faults: seq<E>)
    ensures var (minimal, rounds) := MinimalFaults(oracle, faults);
      && IsSubsequence(minimal, faults)
      && (minimal == [] <==> faults == [])
      && (minimal == faults || exists j: nat :: j < rounds && oracle.answer(j, minimal) == Yes)
      && (faults != [] ==> 2 * (rounds - 1) <= |faults| * |faults| + 5 * |faults| - 6)
  {
    Reflexive(faults);
    if faults != [] {
      CallBudgetClosed(|faults|);
      DdminSound(oracle, faults, 1);
    }
  }

  /** An oracle that accepts a candidate of m events only at one chosen call. */
  function LateOracle<E>(n: nat): Oracle<seq<E>>
  {
    Oracle((k: nat, s: seq<E>) => if k + CallBudget(|s|) == CallBudget(n) then Yes else No, (k: nat) => false)
  }

  lemma {:induction false} LateRemovals<E>(n: nat, faults: seq<E>, i: nat, k: nat)
    requires 2 <= |faults| <= n && i < |faults|
    requires k + CallBudget(|faults|) == 1 + CallBudget(n) + 2 + i
    ensures RemovalsFrom(LateOracle(n), faults, i, k).1 == 1 + CallBudget(n)
    decreases |faults|, |faults| - i
  {
    if i == |faults| - 1 {
      LateDdmin(n, Without(faults, i), k + 1);
    } else {
      LateRemovals(n, faults, i + 1, k + 1);
    }
  }

  lemma {:induction false} LateDdmin<E>(n: nat, faults: seq<E>, k: nat)
    requires 1 <= |faults| <= n
    requires k + CallBudget(|faults|) == 1 + CallBudget(n)
    ensures DdminFrom(LateOracle(n), faults, k).1 == 1 + CallBudget(n)
    decreases |faults|, |faults| + 1
  {
    if |faults| >= 2 {
      var oracle := LateOracle<E>(n);
      CallBudgetStep(|Half(faults, 0)|, |faults|);
      CallBudgetStep(|Half(faults, 1)|, |faults|);
      assert HalvesFrom(oracle, faults, 0, k) == HalvesFrom(oracle, faults, 1, k + 1);
      assert HalvesFrom(oracle, faults, 1, k + 1) == HalvesFrom(oracle, faults, 2, k + 2);
      LateRemovals(n, faults, 0, k + 2);
    }
  }

  /** The bound over all runs cannot be lowered: for every schedule some run reaches it, with answers that
      change from call to call.  The smaller bound for well-behaved oracles is in FaultDescent. */
  lemma CallBoundTight<E>(faults: seq<E>)
    requires faults != []
    ensures exists oracle: Oracle<seq<E>> ::
      2 * (MinimalFaults(oracle, faults).1 - 1) == |faults| * |faults| + 5 * |faults| - 6
  {
    var oracle := LateOracle<E>(|faults|);
    CallBudgetClosed(|faults|);
    LateDdmin(|faults|, faults, 1);
    assert 2 * (MinimalFaults(oracle, faults).1 - 1) == |faults| * |faults| + 5 * |faults| - 6;
  }

  // ---------------------------------------------------------------- minimality

  /** No candidate the minimiser derives from s reproduces the violation. */
  ghost predicate Stuck<E>(accepts: seq<E> -> bool, s: seq<E>)
    requires s != []
  {
    |s| >= 2 ==>
      && !accepts(Half(s, 0)) && !accepts(Half(s, 1))
      && forall i: nat :: i < |s| ==> !accepts(Without(s, i))
  }

  lemma {:induction false} DdminStuck<E(!new)>(oracle: Oracle<seq<E>>, accepts: seq<E> -> bool,
                                               faults: seq<E>, k: nat)
    requires faults != [] && Deterministic(oracle, accepts) && accepts(faults)
    ensures var r := DdminFrom(oracle, faults, k).0;
      r != [] && accepts(r) && Stuck(accepts, r)
    decreases |faults|, |faults| + 4
  {
    if |faults| > 1 {
      if accepts(Half(faults, 0)) {
        DdminStuck(oracle, accepts, Half(faults, 0), k + 1);
      } else if accepts(Half(faults, 1)) {
        DdminStuck(oracle, accepts, Half(faults, 1), k + 2);
        assert HalvesFrom(oracle, faults, 0, k) == HalvesFrom(oracle, faults, 1, k + 1);
      } else {
        RemovalsStuck(oracle, accepts, faults, 0, k + 2);
        assert HalvesFrom(oracle, faults, 0, k) == HalvesFrom(oracle, faults, 1, k + 1);
        assert HalvesFrom(oracle, faults, 1, k + 1) == HalvesFrom(oracle, faults, 2, k + 2);
      }
    }
  }

  lemma {:induction false} RemovalsStuck<E(!new)>(oracle: Oracle<seq<E>>, accepts: seq<E> -> bool,
                                                  faults: seq<E>, i: nat, k: nat)
    requires |faults| >= 2 && i <= |faults| && Deterministic(oracle, accepts) && accepts(faults)
    requires !accepts(Half(faults, 0)) && !accepts(Half(faults, 1))
    requires forall j: nat :: j < i ==> !accepts(Without(faults, j))
    ensures var r := RemovalsFrom(oracle, faults, i, k).0;
      r != [] && accepts(r) && Stuck(accepts, r)
    decreases |faults|, |faults| - i
  {
    if i < |faults| {
      if accepts(Without(faults, i)) {
        DdminStuck(oracle, accepts, Without(faults, i), k + 1);
      } else {
        RemovalsStuck(oracle, accepts, faults, i + 1, k + 1);
      }
    }
  }

  /** 1-minimality: on a well-behaved run that accepts the full schedule, the result
      reproduces and removing any one event from a result of two or more does not. */
  lemma OneMinimal<E(!new)>(oracle: Oracle<seq<E>>, accepts: seq<E> -> bool, faults: seq<E>)
    requires faults != [] && Deterministic(oracle, accepts) && accepts(faults)
    ensures var r := MinimalFaults(oracle, faults).0;
      accepts(r) && (|r| >= 2 ==> forall i: nat :: i < |r| ==> !accepts(Without(r, i)))
  {
    DdminStuck(oracle, accepts, faults, 1);
  }

  /** The documented goal: no proper subset of the result, the empty one included, reproduces. */
  ghost predicate NoProperSubsetReproduces<E(!new)>(accepts: seq<E> -> bool, r: seq<E>) {
    forall s: seq<E> :: IsSubsequence(s, r) && |s| < |r| ==> !accepts(s)
  }

  /** A schedule that can be reduced, but by no single step the minimiser takes. */
  ghost predicate Trap<E(!new)>(accepts: seq<E> -> bool, s: seq<E>) {
    && s != [] && accepts(s) && Stuck(accepts, s)
    && !NoProperSubsetReproduces(accepts, s)
  }

  ghost predicate AlwaysMinimal<E(!new)>(oracle: Oracle<seq<E>>, accepts: seq<E> -> bool, faults: seq<E>) {
    forall t: seq<E> :: IsSubsequence(t, faults) && t != [] && accepts(t) ==>
      NoProperSubsetReproduces(accepts, MinimalFaults(oracle, t).0)
  }

  ghost predicate TrapFree<E(!new)>(accepts: seq<E> -> bool, faults: seq<E>) {
    forall t: seq<E> :: IsSubsequence(t, faults) ==> !Trap(accepts, t)
  }

  lemma {:induction false} RemovalsKeep<E(!new)>(oracle: Oracle<seq<E>>, accepts: seq<E> -> bool,
                                                 s: seq<E>, i: nat, k: nat)
    requires |s| >= 2 && i <= |s| && Deterministic(oracle, accepts) && Stuck(accepts, s)
    ensures RemovalsFrom(oracle, s, i, k).0 == s
    decreases |s| - i
  {
    if i < |s| {
      RemovalsKeep(oracle, accepts, s, i + 1, k + 1);
    }
  }

  /** A trap is returned unchanged. */
  lemma TrapIsKept<E(!new)>(oracle: Oracle<seq<E>>, accepts: seq<E> -> bool, s: seq<E>)
    requires Deterministic(oracle, accepts) && Trap(accepts, s)
    ensures MinimalFaults(oracle, s).0 == s
  {
    if |s| >= 2 {
      RemovalsKeep(oracle, accepts, s, 0, 3);
      assert HalvesFrom(oracle, s, 0, 1) == HalvesFrom(oracle, s, 1, 2);
      assert HalvesFrom(oracle, s, 1, 2) == HalvesFrom(oracle, s, 2, 3);
    }
  }

  /** The documented goal is met on a schedule and everything below it exactly when there is
      no trap there. */
  lemma MinimalIffTrapFree<E(!new)>(oracle: Oracle<seq<E>>, accepts: seq<E> -> bool, faults: seq<E>)
    requires Deterministic(oracle, accepts)
    ensures AlwaysMinimal(oracle, accepts, faults) <==> TrapFree(accepts, faults)
  {
    forall t: seq<E> | IsSubsequence(t, faults) && t != [] && accepts(t) && TrapFree(accepts, faults)
      ensures NoProperSubsetReproduces(accepts, MinimalFaults(oracle, t).0)
    {
      var r := MinimalFaults(oracle, t).0;
      DdminStuck(oracle, accepts, t, 1);
      DdminSound(oracle, t, 1);
      Transitive(r, t, faults);
      assert !Trap(accepts, r);
    }
    forall t: seq<E> | IsSubsequence(t, faults) && AlwaysMinimal(oracle, accepts, faults)
      ensures !Trap(accepts, t)
    {
      if Trap(accepts, t) {
        TrapIsKept(oracle, accepts, t);
      }
    }
  }

  /** Adding events never hides the violation. */
  ghost predicate Monotone<E(!new)>(accepts: seq<E> -> bool, faults: seq<E>) {
    forall s: seq<E>, t: seq<E> :: s != [] && accepts(s) && IsSubsequence(s, t) && IsSubsequence(t, faults) ==> accepts(t)
  }

  /** For a monotone oracle the only accepted proper subsequence of the result can be the
      empty schedule, which is never tried; the documented goal then holds below `faults`
      exactly when the empty schedule does not reproduce. */
  lemma MonotoneMinimal<E(!new)>(oracle: Oracle<seq<E>>, accepts: seq<E> -> bool, faults: seq<E>)
    requires faults != [] && Deterministic(oracle, accepts) && Monotone(accepts, faults) && accepts(faults)
    ensures var r := MinimalFaults(oracle, faults).0;
      && (forall s: seq<E> :: IsSubsequence(s, r) && s != [] && |s| < |r| ==> !accepts(s))
      && (NoProperSubsetReproduces(accepts, r) <==> !accepts([]))
  {
    var r := MinimalFaults(oracle, faults).0;
    DdminStuck(oracle, accepts, faults, 1);
    DdminSound(oracle, faults, 1);
    forall s: seq<E> | IsSubsequence(s, r) && s != [] && |s| < |r|
      ensures !accepts(s)
    {
      var i := ProperFactors(s, r);
      Reductions(r, i);
      Transitive(Without(r, i), r, faults);
    }
    assert IsSubsequence<E>([], r);
  }

  /** A concrete trap: the full schedule of four and the single third event reproduce, and nothing in
      between does. */
  predicate TrapAccepts(s: seq<int>) { s == [1, 2, 3, 4] || s == [3] }

  function TrapOracle(): Oracle<seq<int>> {
    Oracle((k: nat, s: seq<int>) => if TrapAccepts(s) then Yes else No, (k: nat) => false)
  }

  /** The whole schedule is returned although one event suffices. */
  lemma TrapExample()
    ensures MinimalFaults(TrapOracle(), [1, 2, 3, 4]).0 == [1, 2, 3, 4]
    ensures IsSubsequence([3], [1, 2, 3, 4]) && TrapAccepts([3])
    ensures !NoProperSubsetReproduces(TrapAccepts, [1, 2, 3, 4])
  {
    var s := [1, 2, 3, 4];
    assert |Half(s, 0)| == 2 && |Half(s, 1)| == 2;
    Reflexive([3]);
    Keep([3], [], [4]);
    Skip([3], [1, 2], [3, 4]);
    assert [1, 2] + [3, 4] == s && [3] + [] == [3] && [3] + [4] == [3, 4];
    assert IsSubsequence([3], s);
    assert Trap(TrapAccepts, s) && Deterministic(TrapOracle(), TrapAccepts);
    TrapIsKept(TrapOracle(), TrapAccepts, s);
  }
}
