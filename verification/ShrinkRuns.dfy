/** What cancellation and oracle errors do to a shrinking run, for every oracle. */
module ShrinkRuns {
  import opened Subsequence
  import opened Shrink
  import opened FaultDescent

  /** The same answers, never cancelled. */
  function Uncancelled<T>(oracle: Oracle<T>): Oracle<T> { Oracle(oracle.answer, (k: nat) => false) }

  /** The same run with every error answered by a plain no. */
  function Silenced<T>(oracle: Oracle<T>): Oracle<T> {
    Oracle((k: nat, x: T) => if oracle.answer(k, x) == Yes then Yes else No, oracle.cancelled)
  }

  /** c is the first question from k on that the context does not allow. */
  ghost predicate FirstCancel<T>(oracle: Oracle<T>, k: nat, c: nat) {
    k <= c && oracle.cancelled(c) && forall j: nat :: k <= j < c ==> !oracle.cancelled(j)
  }

  function Min(a: nat, b: nat): nat { if a < b then a else b }

  // ---------------------------------------------------------------- ancestry search

  lemma {:induction false} BisectHeeds(path: seq<Id>, oracle: Oracle<Id>, lo: nat, hi: nat, k: nat)
    requires lo <= hi < |path|
    ensures var n := Bisect(path, oracle, lo, hi, k).rounds;
      k <= n && forall j: nat :: k <= j < n ==> !oracle.cancelled(j)
    decreases hi - lo
  {
    if lo < hi && !oracle.cancelled(k) {
      var mid := (lo + hi) / 2;
      if oracle.answer(k, path[mid]) == Yes {
        BisectHeeds(path, oracle, lo, mid, k + 1);
      } else {
        BisectHeeds(path, oracle, mid + 1, hi, k + 1);
      }
    }
  }

  lemma {:induction false} BisectCut(path: seq<Id>, oracle: Oracle<Id>, lo: nat, hi: nat, k: nat, c: nat)
    requires lo <= hi < |path| && FirstCancel(oracle, k, c)
    ensures var r, full := Bisect(path, oracle, lo, hi, k), Bisect(path, Uncancelled(oracle), lo, hi, k);
      r.rounds == Min(c, full.rounds) && full.index <= r.index && (full.rounds <= c ==> r == full)
    decreases hi - lo
  {
    BisectRange(path, Uncancelled(oracle), lo, hi, k);
    BisectHeeds(path, Uncancelled(oracle), lo, hi, k);
    if lo < hi && k < c {
      var mid := (lo + hi) / 2;
      if oracle.answer(k, path[mid]) == Yes {
        BisectCut(path, oracle, lo, mid, k + 1, c);
      } else {
        BisectCut(path, oracle, mid + 1, hi, k + 1, c);
      }
    } else if lo < hi {
      BisectAsks(path, Uncancelled(oracle), lo, hi, k);
    }
  }

  /** An undecided bisection that may ask, asks. */
  lemma BisectAsks(path: seq<Id>, oracle: Oracle<Id>, lo: nat, hi: nat, k: nat)
    requires lo < hi < |path| && !oracle.cancelled(k)
    ensures Bisect(path, oracle, lo, hi, k).rounds > k
  {
    var mid := (lo + hi) / 2;
    if oracle.answer(k, path[mid]) == Yes {
      BisectHeeds(path, oracle, lo, mid, k + 1);
    } else {
      BisectHeeds(path, oracle, mid + 1, hi, k + 1);
    }
  }

  lemma {:induction false} BisectSilent(path: seq<Id>, oracle: Oracle<Id>, lo: nat, hi: nat, k: nat)
    requires lo <= hi < |path|
    ensures Bisect(path, oracle, lo, hi, k) == Bisect(path, Silenced(oracle), lo, hi, k)
    decreases hi - lo
  {
    if lo < hi && !oracle.cancelled(k) {
      var mid := (lo + hi) / 2;
      if oracle.answer(k, path[mid]) == Yes {
        BisectSilent(path, oracle, lo, mid, k + 1);
      } else {
        BisectSilent(path, oracle, mid + 1, hi, k + 1);
      }
    }
  }

  /** A cancelled search asks the questions of the full search up to the cancellation and no more, and
      stops at a snapshot the full search has not yet gone before. */
  lemma PathCancelled(path: seq<Id>, oracle: Oracle<Id>, c: nat)
    requires path != [] && FirstCancel(oracle, 1, c)
    ensures var r, full := PathSearch(path, oracle), PathSearch(path, Uncancelled(oracle));
      r.rounds == Min(c, full.rounds) && full.index <= r.index && (full.rounds <= c ==> r == full)
  {
    if |path| > 1 && oracle.answer(0, path[|path| - 1]) == Yes {
      BisectCut(path, oracle, 0, |path| - 1, 1, c);
    }
  }

  /** No snapshot is tried once the context is cancelled, nor after a first answer other than yes; a path of
      one snapshot is not tried at all. */
  lemma PathHeeds(path: seq<Id>, oracle: Oracle<Id>)
    requires path != []
    ensures var n := PathSearch(path, oracle).rounds;
      && (forall j: nat :: 1 <= j < n ==> !oracle.cancelled(j))
      && (n > 1 ==> oracle.answer(0, path[|path| - 1]) == Yes) && (n == 0 <==> |path| == 1)
  {
    if |path| > 1 && oracle.answer(0, path[|path| - 1]) == Yes {
      BisectHeeds(path, oracle, 0, |path| - 1, 1);
    }
  }

  /** Errors only count as failures to reproduce. */
  lemma PathErrors(path: seq<Id>, oracle: Oracle<Id>)
    requires path != []
    ensures var r, s := PathSearch(path, oracle), PathSearch(path, Silenced(oracle));
      r.index == s.index && r.rounds == s.rounds
  {
    if |path| > 1 && oracle.answer(0, path[|path| - 1]) == Yes {
      BisectSilent(path, oracle, 0, |path| - 1, 1);
    }
  }

  // ---------------------------------------------------------------- fault schedules

  /** A run that may not ask, or has no candidate left, returns its schedule. */
  lemma RunRests<E>(oracle: Oracle<seq<E>>, s: seq<E>, c: nat, k: nat)
    requires |s| >= 2 && c <= |s| + 2 && (c == |s| + 2 || oracle.cancelled(k))
    ensures RunFrom(oracle, s, c, k) == (s, k)
  {
  }

  lemma {:induction false} RunHeeds<E>(oracle: Oracle<seq<E>>, s: seq<E>, c: nat, k: nat, r: (seq<E>, nat))
    requires |s| >= 2 && c <= |s| + 2 && r == RunFrom(oracle, s, c, k)
    ensures k <= r.1 && forall j: nat :: k <= j < r.1 ==> !oracle.cancelled(j)
    decreases |s|, |s| + 2 - c
  {
    if c == |s| + 2 || oracle.cancelled(k) {
      RunRests(oracle, s, c, k);
    } else {
      RunTries(oracle, s, c, k);
      if oracle.answer(k, Candidate(s, c)) != Yes {
        RunHeeds(oracle, s, c + 1, k + 1, r);
      } else if |Candidate(s, c)| > 1 {
        RunHeeds(oracle, Candidate(s, c), 0, k + 1, r);
      }
    }
  }

  /** The cut run against the full one. */
  ghost predicate CutAt<E>(r: (seq<E>, nat), full: (seq<E>, nat), c: nat) {
    r.1 == Min(c, full.1) && IsSubsequence(full.0, r.0) && (full.1 <= c ==> r == full)
  }

  lemma {:induction false} RunCut<E>(oracle: Oracle<seq<E>>, s: seq<E>, c: nat, k: nat, stop: nat,
                                     r: (seq<E>, nat), full: (seq<E>, nat))
    requires |s| >= 2 && c <= |s| + 2 && FirstCancel(oracle, k, stop)
    requires r == RunFrom(oracle, s, c, k) && full == RunFrom(Uncancelled(oracle), s, c, k)
    ensures CutAt(r, full, stop)
    decreases |s|, |s| + 2 - c
  {
    if c == |s| + 2 {
      RunRests(oracle, s, c, k);
      RunRests(Uncancelled(oracle), s, c, k);
      Reflexive(s);
    } else {
      RunTries(Uncancelled(oracle), s, c, k);
      if k == stop {
        RunRests(oracle, s, c, k);
        RunAsks(Uncancelled(oracle), s, c, k, full);
        RunBelow(Uncancelled(oracle), s, c, k);
      } else {
        RunTries(oracle, s, c, k);
        var t := Candidate(s, c);
        if oracle.answer(k, t) != Yes {
          RunCut(oracle, s, c + 1, k + 1, stop, r, full);
        } else if |t| > 1 {
          RunCut(oracle, t, 0, k + 1, stop, r, full);
        } else {
          Reflexive(t);
        }
      }
    }
  }

  /** A run with a candidate left asks. */
  lemma RunAsks<E>(oracle: Oracle<seq<E>>, s: seq<E>, c: nat, k: nat, r: (seq<E>, nat))
    requires |s| >= 2 && c < |s| + 2 && !oracle.cancelled(k) && r == RunFrom(oracle, s, c, k)
    ensures r.1 > k
  {
    RunTries(oracle, s, c, k);
    var t := Candidate(s, c);
    if oracle.answer(k, t) != Yes {
      RunHeeds(oracle, s, c + 1, k + 1, r);
    } else if |t| > 1 {
      RunHeeds(oracle, t, 0, k + 1, r);
    }
  }

  /** It ends below its schedule. */
  lemma RunBelow<E>(oracle: Oracle<seq<E>>, s: seq<E>, c: nat, k: nat)
    requires |s| >= 2 && c < |s| + 2
    ensures IsSubsequence(RunFrom(oracle, s, c, k).0, s)
  {
    if c < 2 {
      HalvesSound(oracle, s, c, k);
    } else {
      RemovalsSound(oracle, s, c - 2, k);
    }
  }

  lemma {:induction false} RunSilent<E>(oracle: Oracle<seq<E>>, s: seq<E>, c: nat, k: nat)
    requires |s| >= 2 && c <= |s| + 2
    ensures RunFrom(oracle, s, c, k) == RunFrom(Silenced(oracle), s, c, k)
    decreases |s|, |s| + 2 - c
  {
    if c == |s| + 2 || oracle.cancelled(k) {
      RunRests(oracle, s, c, k);
      RunRests(Silenced(oracle), s, c, k);
    } else {
      RunTries(oracle, s, c, k);
      RunTries(Silenced(oracle), s, c, k);
      if oracle.answer(k, Candidate(s, c)) != Yes {
        RunSilent(oracle, s, c + 1, k + 1);
      } else if |Candidate(s, c)| > 1 {
        RunSilent(oracle, Candidate(s, c), 0, k + 1);
      }
    }
  }

  /** No schedule is tried once the context is cancelled, nor after a first answer other than yes; a
      context cancelled after the first question leaves the schedule as it is. */
  lemma FaultsHeed<E>(oracle: Oracle<seq<E>>, faults: seq<E>)
    ensures var r := MinimalFaults(oracle, faults);
      && (forall j: nat :: 1 <= j < r.1 ==> !oracle.cancelled(j))
      && (r.1 > 1 ==> oracle.answer(0, faults) == Yes) && (r.1 == 0 <==> faults == [])
      && (|faults| == 1 ==> r == (faults, 1))
      && (faults != [] && (oracle.cancelled(1) || oracle.answer(0, faults) != Yes) ==> r == (faults, 1))
  {
    if |faults| >= 2 && oracle.answer(0, faults) == Yes {
      RunHeeds(oracle, faults, 0, 1, MinimalFaults(oracle, faults));
    }
  }

  /** A cancelled run asks the questions of the full run up to the cancellation and no more, and returns a
      schedule the full run reduces further; if the full run needs no more questions, the result is its own. */
  lemma FaultsCancelled<E>(oracle: Oracle<seq<E>>, faults: seq<E>, c: nat)
    requires FirstCancel(oracle, 1, c)
    ensures CutAt(MinimalFaults(oracle, faults), MinimalFaults(Uncancelled(oracle), faults), c)
  {
    Reflexive(faults);
    if |faults| >= 2 && oracle.answer(0, faults) == Yes {
      RunCut(oracle, faults, 0, 1, c, MinimalFaults(oracle, faults), MinimalFaults(Uncancelled(oracle), faults));
    }
  }

  /** Errors only count as failures to reproduce. */
  lemma FaultErrors<E>(oracle: Oracle<seq<E>>, faults: seq<E>)
    ensures MinimalFaults(oracle, faults) == MinimalFaults(Silenced(oracle), faults)
  {
    if |faults| >= 2 && oracle.answer(0, faults) == Yes {
      RunSilent(oracle, faults, 0, 1);
    }
  }
}
