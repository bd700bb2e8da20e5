/** Adaptive fault selection: a bandit with one arm per fault kind. The exploration bonus is an
    arbitrary real function of the total and the arm's pulls. */
module Adaptive {
  import opened Common
  import opened Subsequence

  type Kind = string

  datatype Arm = Arm(pulls: nat, reward: real, baseRate: real)

  datatype Saved = Saved(kind: Kind, pulls: nat, avgReward: real)

  datatype Bandit = Bandit(kinds: seq<Kind>, arms: map<Kind, Arm>, total: nat, maxAvg: real)

  /** One arm for each listed kind. */
  ghost predicate Formed(b: Bandit) { Distinct(b.kinds) && forall k :: k in b.kinds <==> k in b.arms }

  function Average(arm: Arm): real
    requires arm.pulls > 0
  {
    Mean(arm.reward, arm.pulls)
  }

  function Mean(reward: real, pulls: nat): real
    requires pulls > 0
  {
    reward / (pulls as real)
  }

  function SumPulls(kinds: seq<Kind>, arms: map<Kind, Arm>): nat
    requires forall k :: k in kinds ==> k in arms
  {
    if kinds == [] then 0 else arms[kinds[0]].pulls + SumPulls(kinds[1..], arms)
  }

  // ---------------------------------------------------------------- operations

  function Record(b: Bandit, kind: Kind, reward: real): Bandit {
    if kind !in b.arms then b
    else
      var arm := b.arms[kind].(pulls := b.arms[kind].pulls + 1, reward := b.arms[kind].reward + reward);
      var avg := Average(arm);
      b.(arms := b.arms[kind := arm], total := b.total + 1, maxAvg := if avg > b.maxAvg then avg else b.maxAvg)
  }

  /** A saved record takes effect if it has pulls and its kind is known. */
  predicate Effective(b: Bandit, s: Saved) { s.pulls != 0 && s.kind in b.arms }

  /** Half of the saved pulls, at least one. */
  function Scaled(pulls: nat): nat { if pulls / 2 == 0 then 1 else pulls / 2 }

  /** The total reward that gives n pulls the saved average. */
  function TotalFor(avg: real, n: nat): real { avg * (n as real) }

  function Seed(b: Bandit, s: Saved): Bandit {
    if !Effective(b, s) then b
    else
      var n := Scaled(s.pulls);
      b.(arms := b.arms[s.kind := b.arms[s.kind].(pulls := n, reward := TotalFor(s.avgReward, n))],
         total := b.total + n,
         maxAvg := if s.avgReward > b.maxAvg then s.avgReward else b.maxAvg)
  }

  function Warm(b: Bandit, saved: seq<Saved>): Bandit {
    if saved == [] then b else Seed(Warm(b, saved[..|saved| - 1]), saved[|saved| - 1])
  }

  function ZeroKinds(kinds: seq<Kind>, arms: map<Kind, Arm>): (r: seq<Kind>)
    requires forall k :: k in kinds ==> k in arms
    ensures forall k :: k in r <==> k in kinds && arms[k].pulls == 0
  {
    if kinds == [] then []
    else
      var n := |kinds| - 1;
      assert kinds == kinds[..n] + [kinds[n]];
      var rest := ZeroKinds(kinds[..n], arms);
      if arms[kinds[n]].pulls == 0 then rest + [kinds[n]] else rest
  }

  function Scale(maxAvg: real): real { if maxAvg <= 0.0 then 1.0 else maxAvg }

  type Bonus = (nat, nat) -> real

  function Score(b: Bandit, bonus: Bonus, k: Kind): real
    requires k in b.arms && b.arms[k].pulls > 0
  {
    Average(b.arms[k]) / Scale(b.maxAvg) + bonus(b.total, b.arms[k].pulls)
  }

  /** The first kind with the highest score among fully explored arms. */
  ghost predicate IsBest(b: Bandit, bonus: Bonus, i: nat) {
    && i < |b.kinds|
    && (forall k :: k in b.kinds ==> k in b.arms && b.arms[k].pulls > 0)
    && (forall j :: 0 <= j < |b.kinds| ==> Score(b, bonus, b.kinds[j]) <= Score(b, bonus, b.kinds[i]))
    && (forall j :: 0 <= j < i ==> Score(b, bonus, b.kinds[j]) < Score(b, bonus, b.kinds[i]))
  }

  /** The kind selected for a draw of the generator. */
  ghost predicate Selects(b: Bandit, bonus: Bonus, draw: nat, k: Kind)
    requires Formed(b)
  {
    var zero := ZeroKinds(b.kinds, b.arms);
    if zero != [] then k == zero[draw % |zero|] else exists i: nat :: IsBest(b, bonus, i) && k == b.kinds[i]
  }

  class FaultSelector {
    const kinds: seq<Kind>
    const bonus: Bonus
    var arms: map<Kind, Arm>
    var total: nat
    var maxAvg: real

    ghost function View(): Bandit
      reads this
    {
      Bandit(kinds, arms, total, maxAvg)
    }

    constructor (kinds: seq<Kind>, rates: map<Kind, real>, bonus: Bonus)
      requires Distinct(kinds) && forall k :: k in kinds <==> k in rates
      ensures Formed(View()) && this.kinds == kinds && this.bonus == bonus && total == 0 && maxAvg == 0.0
      ensures forall k :: k in arms ==> arms[k] == Arm(0, 0.0, rates[k])
    {
      this.kinds, this.bonus := kinds, bonus;
      arms := map k | k in rates :: Arm(0, 0.0, rates[k]);
      total, maxAvg := 0, 0.0;
    }

    method Select(draw: nat) returns (kind: Kind)
      requires Formed(View())
      ensures kinds == [] ==> kind == ""
      ensures kinds != [] ==> kind in kinds && Selects(View(), bonus, draw, kind)
    {
      if |kinds| == 0 {
        return "";
      }
      var unvisited := ZeroKinds(kinds, arms);
      if |unvisited| > 0 {
        return unvisited[draw % |unvisited|];
      }
      kind := BestKind();
    }

    /** The first kind of highest score, once every arm has been pulled. */
    method BestKind() returns (kind: Kind)
      requires Formed(View()) && kinds != [] && ZeroKinds(kinds, arms) == []
      ensures kind in kinds && exists i: nat :: IsBest(View(), bonus, i) && kind == kinds[i]
    {
      var b := Bandit(kinds, arms, total, maxAvg);
      assert forall k :: k in kinds ==> k in arms && k !in ZeroKinds(kinds, arms);
      var best := 0;
      var bestScore := Score(b, bonus, kinds[0]);
      for i := 1 to |kinds|
        invariant best < i && bestScore == Score(b, bonus, kinds[best])
        invariant forall j :: 0 <= j < i ==> Score(b, bonus, kinds[j]) <= bestScore
        invariant forall j :: 0 <= j < best ==> Score(b, bonus, kinds[j]) < bestScore
      {
        var score := Score(b, bonus, kinds[i]);
        if score > bestScore {
          best, bestScore := i, score;
        }
      }
      assert IsBest(b, bonus, best);
      return kinds[best];
    }

    method RecordReward(kind: Kind, reward: real)
      modifies this
      ensures View() == Record(old(View()), kind, reward)
    {
      if kind !in arms {
        return;
      }
      var arm := arms[kind];
      arm := arm.(pulls := arm.pulls + 1, reward := arm.reward + reward);
      arms := arms[kind := arm];
      total := total + 1;
      var avg := arm.reward / (arm.pulls as real);
      if avg > maxAvg {
        maxAvg := avg;
      }
    }

    method SeedArm(s: Saved)
      modifies this
      ensures View() == Seed(old(View()), s)
    {
      if s.pulls == 0 || s.kind !in arms {
        return;
      }
      var scaledPulls := s.pulls / 2;
      if scaledPulls == 0 {
        scaledPulls := 1;
      }
      assert scaledPulls == Scaled(s.pulls);
      arms := arms[s.kind := arms[s.kind].(pulls := scaledPulls, reward := TotalFor(s.avgReward, scaledPulls))];
      total := total + scaledPulls;
      if s.avgReward > maxAvg {
        maxAvg := s.avgReward;
      }
    }

    method WarmStart(saved: seq<Saved>)
      modifies this
      ensures View() == Warm(old(View()), saved)
    {
      for i := 0 to |saved|
        invariant View() == Warm(old(View()), saved[..i])
      {
        assert saved[..i + 1][..i] == saved[..i];
        SeedArm(saved[i]);
      }
      assert saved[..|saved|] == saved;
    }
  }

  // ---------------------------------------------------------------- totals and the reward bound

  ghost predicate Counts(b: Bandit)
    requires Formed(b)
  {
    b.total == SumPulls(b.kinds, b.arms)
  }

  ghost predicate Bounded(b: Bandit) {
    b.maxAvg >= 0.0 && forall k :: k in b.arms && b.arms[k].pulls > 0 ==> Average(b.arms[k]) <= b.maxAvg
  }

  lemma {:induction false} SumUpdate(kinds: seq<Kind>, arms: map<Kind, Arm>, k: Kind, arm: Arm)
    requires Distinct(kinds) && (forall x :: x in kinds ==> x in arms) && k in kinds
    ensures SumPulls(kinds, arms[k := arm]) == SumPulls(kinds, arms) - arms[k].pulls + arm.pulls
  {
    if k == kinds[0] {
      SumSame(kinds[1..], arms, arms[k := arm]);
    } else {
      SumUpdate(kinds[1..], arms, k, arm);
    }
  }

  lemma {:induction false} SumSame(kinds: seq<Kind>, a: map<Kind, Arm>, b: map<Kind, Arm>)
    requires forall x :: x in kinds ==> x in a && x in b && a[x] == b[x]
    ensures SumPulls(kinds, a) == SumPulls(kinds, b)
  {
    if kinds != [] {
      SumSame(kinds[1..], a, b);
    }
  }

  /** With the bound, an arm's normalised average is at most one. */
  lemma NormalisedAtMostOne(b: Bandit, k: Kind)
    requires Bounded(b) && k in b.arms && b.arms[k].pulls > 0
    ensures Average(b.arms[k]) / Scale(b.maxAvg) <= 1.0
  {
    var avg, scale := Average(b.arms[k]), Scale(b.maxAvg);
    assert avg <= scale;
  }

  // ---------------------------------------------------------------- warm starts

  lemma SeedAverage(avg: real, n: nat)
    requires n > 0
    ensures avg * (n as real) / (n as real) == avg
  {
  }

  /** A record that takes effect gives its arm exactly the saved average. */
  lemma SeedSets(b: Bandit, s: Saved)
    requires Effective(b, s)
    ensures var arm := Seed(b, s).arms[s.kind];
      arm.pulls == Scaled(s.pulls) > 0 && Average(arm) == s.avgReward
  {
    SeedAverage(s.avgReward, Scaled(s.pulls));
  }

  lemma SeedBounded(b: Bandit, s: Saved)
    requires Bounded(b)
    ensures Bounded(Seed(b, s))
  {
    if Effective(b, s) {
      var r := Seed(b, s);
      SeedSets(b, s);
      forall k | k in r.arms && r.arms[k].pulls > 0
        ensures Average(r.arms[k]) <= r.maxAvg
      {
        if k != s.kind {
          assert r.arms[k] == b.arms[k] && Average(b.arms[k]) <= b.maxAvg;
        }
      }
    }
  }

  /** The pulls by which the total exceeds the sum: those of overwritten arms. */
  function Excess(b: Bandit): int
    requires forall k :: k in b.kinds ==> k in b.arms
  {
    b.total - SumPulls(b.kinds, b.arms)
  }

  lemma SeedExcess(b: Bandit, s: Saved)
    requires Formed(b)
    ensures Formed(Seed(b, s))
    ensures Excess(Seed(b, s)) == Excess(b) + (if Effective(b, s) then b.arms[s.kind].pulls else 0)
  {
    if Effective(b, s) {
      SumUpdate(b.kinds, b.arms, s.kind, Seed(b, s).arms[s.kind]);
    }
  }

  /** The records that count: known kinds with pulls, each kind once, each on an arm not yet pulled. */
  ghost predicate CleanSeed(b: Bandit, saved: seq<Saved>) {
    && (forall i :: 0 <= i < |saved| && Effective(b, saved[i]) ==> b.arms[saved[i].kind].pulls == 0)
    && (forall i, j :: 0 <= i < j < |saved| && Effective(b, saved[i]) && Effective(b, saved[j]) ==>
          saved[i].kind != saved[j].kind)
  }

  /** An arm has pulls after a warm start if it had some or some effective record names it. */
  lemma {:induction false} PulledAfterWarm(b: Bandit, saved: seq<Saved>, k: Kind)
    requires k in b.arms
    ensures var r := Warm(b, saved);
      && r.arms.Keys == b.arms.Keys && r.kinds == b.kinds
      && (r.arms[k].pulls > 0 <==>
            b.arms[k].pulls > 0 || exists i :: 0 <= i < |saved| && Effective(b, saved[i]) && saved[i].kind == k)
    decreases |saved|
  {
    if saved != [] {
      PulledAfterWarm(b, saved[..|saved| - 1], k);
      assert saved == saved[..|saved| - 1] + [saved[|saved| - 1]];
    }
  }

  lemma {:induction false} WarmExcess(b: Bandit, saved: seq<Saved>)
    requires Formed(b) && Excess(b) == 0
    ensures Formed(Warm(b, saved)) && Excess(Warm(b, saved)) >= 0
    ensures Excess(Warm(b, saved)) == 0 <==> CleanSeed(b, saved)
    decreases |saved|
  {
    if saved != [] {
      var init, s := saved[..|saved| - 1], saved[|saved| - 1];
      WarmExcess(b, init);
      SeedExcess(Warm(b, init), s);
      WarmKeys(b, init);
      CleanSnoc(b, init, s);
      assert saved == init + [s];
    }
  }

  lemma {:induction false} WarmBounded(b: Bandit, saved: seq<Saved>)
    requires Bounded(b)
    ensures Bounded(Warm(b, saved))
    decreases |saved|
  {
    if saved != [] {
      WarmBounded(b, saved[..|saved| - 1]);
      SeedBounded(Warm(b, saved[..|saved| - 1]), saved[|saved| - 1]);
    }
  }

  /** A warm start keeps the bound on averages always, and keeps the total equal to the sum of
      pulls exactly for a clean seed; otherwise the total is too large. */
  lemma WarmStartCounts(b: Bandit, saved: seq<Saved>)
    requires Formed(b) && Counts(b) && Bounded(b)
    ensures var r := Warm(b, saved);
      && Formed(r) && Bounded(r) && r.total >= SumPulls(r.kinds, r.arms)
      && (Counts(r) <==> CleanSeed(b, saved))
  {
    WarmExcess(b, saved);
    WarmBounded(b, saved);
  }

  lemma {:induction false} WarmKeys(b: Bandit, saved: seq<Saved>)
    ensures Warm(b, saved).arms.Keys == b.arms.Keys
    decreases |saved|
  {
    if saved != [] {
      WarmKeys(b, saved[..|saved| - 1]);
    }
  }

  lemma CleanSnoc(b: Bandit, init: seq<Saved>, s: Saved)
    requires Warm(b, init).arms.Keys == b.arms.Keys
    ensures CleanSeed(b, init + [s]) <==>
            CleanSeed(b, init) && (Effective(b, s) ==> Warm(b, init).arms[s.kind].pulls == 0)
  {
    var all := init + [s];
    assert forall i :: 0 <= i < |init| ==> all[i] == init[i];
    assert all[|init|] == s;
    if Effective(b, s) {
      PulledAfterWarm(b, init, s.kind);
    }
  }

  /** After a clean seed each named arm has exactly its saved average. */
  lemma {:induction false} WarmStartAverages(b: Bandit, saved: seq<Saved>, i: nat)
    requires i < |saved| && Effective(b, saved[i]) && CleanSeed(b, saved)
    ensures var r := Warm(b, saved);
      && saved[i].kind in r.arms && r.arms[saved[i].kind].pulls > 0
      && r.arms[saved[i].kind].pulls == Scaled(saved[i].pulls) && Average(r.arms[saved[i].kind]) == saved[i].avgReward
    decreases |saved|
  {
    var n := |saved| - 1;
    var init := saved[..n];
    var w := Warm(b, init);
    WarmKeys(b, init);
    if i == n {
      SeedSets(w, saved[n]);
    } else {
      assert init[i] == saved[i];
      WarmStartAverages(b, init, i);
      assert Effective(w, saved[n]) ==> Effective(b, saved[n]) && saved[n].kind != saved[i].kind;
    }
  }

  function Rewards(b: Bandit, rewards: seq<(Kind, real)>): Bandit {
    if rewards == [] then b
    else
      var last := rewards[|rewards| - 1];
      Record(Rewards(b, rewards[..|rewards| - 1]), last.0, last.1)
  }

  lemma {:induction false} RewardsKeep(b: Bandit, rewards: seq<(Kind, real)>)
    requires Formed(b) && Bounded(b)
    ensures var r := Rewards(b, rewards); Formed(r) && Bounded(r) && Excess(r) == Excess(b)
    decreases |rewards|
  {
    if rewards != [] {
      var prev, last := Rewards(b, rewards[..|rewards| - 1]), rewards[|rewards| - 1];
      RewardsKeep(b, rewards[..|rewards| - 1]);
      if last.0 in prev.arms {
        SumUpdate(prev.kinds, prev.arms, last.0, Record(prev, last.0, last.1).arms[last.0]);
      }
    }
  }

  // ---------------------------------------------------------------- what is recorded

  /** The rewards of the list that name kind k: how many, and their sum. */
  function Named(rewards: seq<(Kind, real)>, k: Kind): nat {
    if rewards == [] then 0
    else Named(rewards[..|rewards| - 1], k) + if rewards[|rewards| - 1].0 == k then 1 else 0
  }

  function Earned(rewards: seq<(Kind, real)>, k: Kind): real {
    if rewards == [] then 0.0
    else Earned(rewards[..|rewards| - 1], k) + if rewards[|rewards| - 1].0 == k then rewards[|rewards| - 1].1 else 0.0
  }

  function KnownOnes(b: Bandit, rewards: seq<(Kind, real)>): nat {
    if rewards == [] then 0
    else KnownOnes(b, rewards[..|rewards| - 1]) + if rewards[|rewards| - 1].0 in b.arms then 1 else 0
  }

  /** Every reward of a known kind is one pull of its arm and is added to that arm; nothing else changes. */
  lemma {:induction false} RewardsRecorded(b: Bandit, rewards: seq<(Kind, real)>)
    ensures var r := Rewards(b, rewards);
      && r.kinds == b.kinds && r.arms.Keys == b.arms.Keys && r.total == b.total + KnownOnes(b, rewards)
      && forall k :: k in b.arms ==>
           var arm := b.arms[k];
           r.arms[k] == Arm(arm.pulls + Named(rewards, k), arm.reward + Earned(rewards, k), arm.baseRate)
    decreases |rewards|
  {
    if rewards != [] {
      RewardsRecorded(b, rewards[..|rewards| - 1]);
    }
  }

  /** The arm named by the last reward as it is after it, from the list alone. */
  function LastArm(b: Bandit, rewards: seq<(Kind, real)>): (arm: Arm)
    requires rewards != [] && rewards[|rewards| - 1].0 in b.arms
    ensures arm.pulls > 0
  {
    var k := rewards[|rewards| - 1].0;
    Arm(b.arms[k].pulls + Named(rewards, k), b.arms[k].reward + Earned(rewards, k), b.arms[k].baseRate)
  }

  /** Some arm's average is avg right after the n-th reward. */
  ghost predicate ReachedAt(b: Bandit, rewards: seq<(Kind, real)>, n: nat, avg: real) {
    0 < n <= |rewards| && rewards[..n][n - 1].0 in b.arms && avg == Average(LastArm(b, rewards[..n]))
  }

  lemma ReachedSnoc(b: Bandit, rewards: seq<(Kind, real)>, n: nat, avg: real)
    requires rewards != [] && n < |rewards|
    ensures ReachedAt(b, rewards, n, avg) <==> ReachedAt(b, rewards[..|rewards| - 1], n, avg)
  {
    if n > 0 {
      assert rewards[..|rewards| - 1][..n] == rewards[..n];
    }
  }

  lemma RecordedMaximum(b: Bandit, k: Kind, reward: real, arm: Arm)
    requires k in b.arms && arm == Record(b, k, reward).arms[k]
    ensures arm.pulls > 0
    ensures Record(b, k, reward).maxAvg == if Average(arm) > b.maxAvg then Average(arm) else b.maxAvg
  {
  }

  lemma LastArmReached(b: Bandit, rewards: seq<(Kind, real)>, k: Kind, arms: map<Kind, Arm>)
    requires rewards != [] && k == rewards[|rewards| - 1].0 && k in b.arms && arms == Rewards(b, rewards).arms
    ensures k in arms && arms[k] == LastArm(b, rewards)
  {
    RewardsRecorded(b, rewards);
  }

  lemma KeepsArms(b: Bandit, rewards: seq<(Kind, real)>, k: Kind)
    requires k in b.arms
    ensures k in Rewards(b, rewards).arms
  {
    RewardsRecorded(b, rewards);
  }

  /** What the last reward does to the running maximum. */
  lemma LastReached(b: Bandit, rewards: seq<(Kind, real)>, prev: Bandit, r: Bandit)
    requires rewards != [] && prev == Rewards(b, rewards[..|rewards| - 1]) && r == Rewards(b, rewards)
    requires rewards[|rewards| - 1].0 in b.arms
    ensures var avg := Average(LastArm(b, rewards)); r.maxAvg == if avg > prev.maxAvg then avg else prev.maxAvg
  {
    var (k, reward) := rewards[|rewards| - 1];
    KeepsArms(b, rewards[..|rewards| - 1], k);
    LastArmReached(b, rewards, k, r.arms);
    RecordedMaximum(prev, k, reward, r.arms[k]);
  }

  /** The running maximum is the larger of its start value and the greatest average any arm reached. */
  lemma {:induction false} MaximumReached(b: Bandit, rewards: seq<(Kind, real)>)
    ensures var m := Rewards(b, rewards).maxAvg;
      && m >= b.maxAvg && (forall n: nat, avg :: ReachedAt(b, rewards, n, avg) ==> avg <= m)
      && (m == b.maxAvg || exists n: nat :: ReachedAt(b, rewards, n, m))
    decreases |rewards|
  {
    if rewards != [] {
      var init := rewards[..|rewards| - 1];
      MaximumReached(b, init);
      RewardsRecorded(b, init);
      if rewards[|rewards| - 1].0 in b.arms {
        LastReached(b, rewards, Rewards(b, init), Rewards(b, rewards));
      }
      assert rewards[..|rewards|] == rewards;
      forall n: nat, avg: real | n < |rewards|
        ensures ReachedAt(b, rewards, n, avg) <==> ReachedAt(b, init, n, avg)
      {
        ReachedSnoc(b, rewards, n, avg);
      }
      var m, was := Rewards(b, rewards).maxAvg, Rewards(b, init).maxAvg;
      if m == was != b.maxAvg {
        var n: nat :| ReachedAt(b, init, n, was);
        assert ReachedAt(b, rewards, n, m);
      } else if m != was {
        assert ReachedAt(b, rewards, |rewards|, m);
      }
    }
  }

  /** Record i is the last one with an effect on kind k. */
  ghost predicate LastEffective(b: Bandit, saved: seq<Saved>, k: Kind, i: nat) {
    && i < |saved| && Effective(b, saved[i]) && saved[i].kind == k
    && forall j :: i < j < |saved| ==> !(Effective(b, saved[j]) && saved[j].kind == k)
  }

  /** An arm that no record names is as before; base rates never change. */
  lemma {:induction false} WarmKeepsOthers(b: Bandit, saved: seq<Saved>, k: Kind)
    requires k in b.arms
    ensures var r := Warm(b, saved);
      && k in r.arms && r.arms[k].baseRate == b.arms[k].baseRate
      && ((forall i :: 0 <= i < |saved| ==> !(Effective(b, saved[i]) && saved[i].kind == k)) ==> r.arms[k] == b.arms[k])
    decreases |saved|
  {
    if saved != [] {
      WarmKeepsOthers(b, saved[..|saved| - 1], k);
      WarmKeys(b, saved[..|saved| - 1]);
    }
  }

  lemma {:induction false} WarmLast(b: Bandit, saved: seq<Saved>, k: Kind, i: nat)
    requires LastEffective(b, saved, k, i)
    ensures var r, n := Warm(b, saved), Scaled(saved[i].pulls);
      k in r.arms && r.arms[k].pulls == n && r.arms[k].reward == TotalFor(saved[i].avgReward, n)
    decreases |saved|
  {
    var n := |saved| - 1;
    WarmKeys(b, saved[..n]);
    if i < n {
      WarmLast(b, saved[..n], k, i);
    }
  }

  /** A warm start leaves in an arm half the pulls of the last record that names it, at least one, with
      that record's average. */
  lemma WarmArm(b: Bandit, saved: seq<Saved>, k: Kind, i: nat)
    requires LastEffective(b, saved, k, i)
    ensures var r, p := Warm(b, saved), saved[i].pulls;
      && k in r.arms && r.arms[k].pulls == (if p < 2 then 1 else p / 2)
      && r.arms[k].reward == TotalFor(saved[i].avgReward, r.arms[k].pulls) && Average(r.arms[k]) == saved[i].avgReward
  {
    WarmLast(b, saved, k, i);
    TotalAverages(saved[i].avgReward, Warm(b, saved).arms[k]);
  }

  lemma TotalAverages(avg: real, arm: Arm)
    requires arm.pulls > 0 && arm.reward == TotalFor(avg, arm.pulls)
    ensures Average(arm) == avg
  {
    SeedAverage(avg, arm.pulls);
  }

  ghost predicate SavedAt(b: Bandit, saved: seq<Saved>, i: nat, avg: real) {
    i < |saved| && Effective(b, saved[i]) && saved[i].avgReward == avg
  }

  /** After a warm start the maximum is the larger of its start value and the greatest effective saved average. */
  lemma {:induction false} WarmMaximum(b: Bandit, saved: seq<Saved>)
    ensures var m := Warm(b, saved).maxAvg;
      && m >= b.maxAvg && (forall i: nat, avg :: SavedAt(b, saved, i, avg) ==> avg <= m)
      && (m == b.maxAvg || exists i: nat :: SavedAt(b, saved, i, m))
    decreases |saved|
  {
    if saved != [] {
      var n := |saved| - 1;
      var init := saved[..n];
      WarmMaximum(b, init);
      WarmKeys(b, init);
      assert forall i: nat, avg :: i < n ==> (SavedAt(b, saved, i, avg) <==> SavedAt(b, init, i, avg));
      var m, was := Warm(b, saved).maxAvg, Warm(b, init).maxAvg;
      if m == was != b.maxAvg {
        var i: nat :| SavedAt(b, init, i, was);
        assert SavedAt(b, saved, i, m);
      } else if m != was {
        assert SavedAt(b, saved, n, m);
      }
    }
  }

  // ---------------------------------------------------------------- what is selected

  /** The bonus a kind gets. */
  function BonusOf(b: Bandit, bonus: Bonus, k: Kind): real
    requires k in b.arms
  {
    bonus(b.total, b.arms[k].pulls)
  }

  /** x leads y by at least the given number of units. */
  predicate Leads(x: real, y: real, unit: real, lead: real) { x - y >= unit * lead }

  /** The selected arm against any other: with equal pulls its reward is at least as large; in general its
      lead in average, in units of the maximum, is at least the other's lead in bonus. */
  lemma BestByReward(b: Bandit, bonus: Bonus, i: nat, k: Kind)
    requires IsBest(b, bonus, i) && k in b.kinds
    ensures var best, other := b.arms[b.kinds[i]], b.arms[k];
      && (other.pulls == best.pulls ==> other.reward <= best.reward)
      && (b.maxAvg > 0.0 ==> Leads(Mean(best.reward, best.pulls), Mean(other.reward, other.pulls), b.maxAvg,
                                   BonusOf(b, bonus, k) - BonusOf(b, bonus, b.kinds[i])))
  {
    var best, other := b.arms[b.kinds[i]], b.arms[k];
    var x, y, scale := Average(best), Average(other), Scale(b.maxAvg);
    var lead := BonusOf(b, bonus, k) - BonusOf(b, bonus, b.kinds[i]);
    BestScore(b, bonus, i, k, x / scale, y / scale, lead);
    Scaling(x, y, scale, lead);
    if other.pulls == best.pulls {
      EqualPulls(x, y, scale, lead);
      Unscaling(other.reward, best.reward, other.pulls as real);
    }
  }

  lemma BestScore(b: Bandit, bonus: Bonus, i: nat, k: Kind, x: real, y: real, lead: real)
    requires IsBest(b, bonus, i) && k in b.kinds && lead == BonusOf(b, bonus, k) - BonusOf(b, bonus, b.kinds[i])
    requires x == Average(b.arms[b.kinds[i]]) / Scale(b.maxAvg) && y == Average(b.arms[k]) / Scale(b.maxAvg)
    ensures x - y >= lead
  {
    var j :| 0 <= j < |b.kinds| && b.kinds[j] == k;
    assert Score(b, bonus, b.kinds[j]) <= Score(b, bonus, b.kinds[i]);
  }

  lemma EqualPulls(x: real, y: real, scale: real, lead: real)
    requires Leads(x, y, scale, lead) && lead == 0.0
    ensures y <= x
  {
  }

  lemma Scaling(x: real, y: real, scale: real, lead: real)
    requires scale > 0.0 && x / scale - y / scale >= lead
    ensures Leads(x, y, scale, lead)
  {
    var a, c := x / scale, y / scale;
    Unscaled(x, scale, a);
    Unscaled(y, scale, c);
    NonNegative(a - c - lead, scale);
    assert scale * (a - c - lead) == scale * a - scale * c - scale * lead;
  }

  lemma Unscaled(x: real, scale: real, a: real)
    requires scale > 0.0 && a == x / scale
    ensures scale * a == x
  {
  }

  lemma NonNegative(a: real, c: real)
    requires a >= 0.0 && c > 0.0
    ensures c * a >= 0.0
  {
  }

  lemma Unscaling(a: real, c: real, n: real)
    requires n > 0.0 && a / n <= c / n
    ensures a <= c
  {
    Unscaled(a, n, a / n);
    Unscaled(c, n, c / n);
    NonNegative(c / n - a / n, n);
    assert n * (c / n - a / n) == n * (c / n) - n * (a / n);
  }

  /** Under the bound a score is at most one plus the bonus, and the best average scores exactly that; without
      a positive maximum the average counts as it is. */
  lemma ScoreNormalised(b: Bandit, bonus: Bonus, k: Kind)
    requires Bounded(b) && k in b.arms && b.arms[k].pulls > 0
    ensures Score(b, bonus, k) <= 1.0 + BonusOf(b, bonus, k)
    ensures b.maxAvg > 0.0 && b.arms[k].reward == b.maxAvg * (b.arms[k].pulls as real) ==>
            Score(b, bonus, k) == 1.0 + BonusOf(b, bonus, k)
    ensures b.maxAvg <= 0.0 ==> Score(b, bonus, k) == Mean(b.arms[k].reward, b.arms[k].pulls) + BonusOf(b, bonus, k)
  {
    NormalisedAtMostOne(b, k);
    if b.maxAvg > 0.0 && b.arms[k].reward == b.maxAvg * (b.arms[k].pulls as real) {
      SeedAverage(b.maxAvg, b.arms[k].pulls);
      assert Average(b.arms[k]) == b.maxAvg;
      assert b.maxAvg / b.maxAvg == 1.0;
    }
  }

  /** Each unpulled kind is selected by some draw. */
  lemma EveryZeroKindDrawn(b: Bandit, bonus: Bonus, k: Kind) returns (draw: nat)
    requires Formed(b) && k in b.kinds && b.arms[k].pulls == 0
    ensures Selects(b, bonus, draw, k)
  {
    var zero := ZeroKinds(b.kinds, b.arms);
    assert k in zero;
    draw :| 0 <= draw < |zero| && zero[draw] == k;
    SmallMod(draw, |zero|);
  }

  /** They are listed in the order of the kinds. */
  lemma {:induction false} ZeroKindsInOrder(kinds: seq<Kind>, arms: map<Kind, Arm>)
    requires forall k :: k in kinds ==> k in arms
    ensures IsSubsequence(ZeroKinds(kinds, arms), kinds)
    decreases |kinds|
  {
    if kinds != [] {
      var n := |kinds| - 1;
      ZeroKindsInOrder(kinds[..n], arms);
      SubsequenceSnoc(ZeroKinds(kinds[..n], arms), kinds[..n], kinds[n]);
      assert kinds == kinds[..n] + [kinds[n]];
    }
  }

  /** Over a whole run, a warm start followed by any rewards: no average exceeds the recorded maximum,
      and the total equals the sum of pulls exactly when the warm start was a clean seed. */
  lemma RunTotals(b: Bandit, saved: seq<Saved>, rewards: seq<(Kind, real)>)
    requires Formed(b) && Counts(b) && Bounded(b)
    ensures var r := Rewards(Warm(b, saved), rewards);
      && Formed(r) && Bounded(r) && (Counts(r) <==> CleanSeed(b, saved))
  {
    WarmStartCounts(b, saved);
    RewardsKeep(Warm(b, saved), rewards);
  }

  // ---------------------------------------------------------------- rounds

  ghost function ZeroArms(b: Bandit): set<Kind>
  {
    set k | k in b.arms && b.arms[k].pulls == 0
  }

  /** Round j: Select, then RecordReward of the selected kind. */
  ghost predicate RoundAt(bonus: Bonus, states: seq<Bandit>, chosen: seq<Kind>, j: nat)
    requires j < |chosen| && |states| == |chosen| + 1
  {
    && Formed(states[j]) && states[j].kinds != []
    && (exists draw: nat :: Selects(states[j], bonus, draw, chosen[j]))
    && (exists reward: real :: states[j + 1] == Record(states[j], chosen[j], reward))
  }

  ghost predicate IsRun(bonus: Bonus, states: seq<Bandit>, chosen: seq<Kind>) {
    && |states| == |chosen| + 1
    && forall j {:trigger RoundAt(bonus, states, chosen, j)} :: 0 <= j < |chosen| ==> RoundAt(bonus, states, chosen, j)
  }

  /** One round: an unpulled arm is chosen as long as there is one, and it leaves that set. */
  lemma RoundTakesZero(b: Bandit, bonus: Bonus, draw: nat, k: Kind, reward: real)
    requires Formed(b) && b.kinds != [] && Selects(b, bonus, draw, k)
    ensures k in b.arms && (k in ZeroArms(b) <==> ZeroArms(b) != {})
    ensures ZeroArms(Record(b, k, reward)) == ZeroArms(b) - {k}
  {
    var zero := ZeroKinds(b.kinds, b.arms);
    if zero != [] {
      assert zero[draw % |zero|] in zero;
      assert k in ZeroArms(b);
    } else {
      var i: nat :| IsBest(b, bonus, i) && k == b.kinds[i];
      assert k in b.kinds;
      assert forall x :: x in b.arms ==> x in b.kinds && x !in zero;
    }
  }

  ghost function Taken(chosen: seq<Kind>): set<Kind> { set k | k in chosen }

  lemma TakenSnoc(chosen: seq<Kind>, n: nat)
    requires n < |chosen|
    ensures Taken(chosen[..n + 1]) == Taken(chosen[..n]) + {chosen[n]}
  {
    assert chosen[..n + 1] == chosen[..n] + [chosen[n]];
  }

  lemma RoundEffect(bonus: Bonus, states: seq<Bandit>, chosen: seq<Kind>, j: nat)
    requires IsRun(bonus, states, chosen) && j < |chosen|
    ensures chosen[j] in states[j].arms
    ensures chosen[j] in ZeroArms(states[j]) <==> ZeroArms(states[j]) != {}
    ensures ZeroArms(states[j + 1]) == ZeroArms(states[j]) - {chosen[j]}
  {
    assert RoundAt(bonus, states, chosen, j);
    var draw: nat :| Selects(states[j], bonus, draw, chosen[j]);
    var reward: real :| states[j + 1] == Record(states[j], chosen[j], reward);
    RoundTakesZero(states[j], bonus, draw, chosen[j], reward);
  }

  lemma SizeLeft(z: set<Kind>, k: Kind)
    ensures |z - {k}| == if k in z then |z| - 1 else |z|
  {
    if k in z {
      assert z == (z - {k}) + {k};
    } else {
      assert z - {k} == z;
    }
  }

  /** Round j takes an element of its set while there is one. */
  ghost predicate DrainAt(zs: seq<set<Kind>>, chosen: seq<Kind>, j: nat)
    requires j < |chosen| && |zs| == |chosen| + 1
  {
    (chosen[j] in zs[j] <==> zs[j] != {}) && zs[j + 1] == zs[j] - {chosen[j]}
  }

  ghost predicate Drains(zs: seq<set<Kind>>, chosen: seq<Kind>) {
    && |zs| == |chosen| + 1
    && forall j {:trigger DrainAt(zs, chosen, j)} :: 0 <= j < |chosen| ==> DrainAt(zs, chosen, j)
  }

  lemma {:induction false} DrainSets(zs: seq<set<Kind>>, chosen: seq<Kind>, n: nat)
    requires Drains(zs, chosen) && n <= |chosen|
    ensures zs[n] == zs[0] - Taken(chosen[..n])
    decreases n
  {
    if n > 0 {
      DrainSets(zs, chosen, n - 1);
      assert DrainAt(zs, chosen, n - 1);
      TakenSnoc(chosen, n - 1);
    }
  }

  lemma {:induction false} DrainSizes(zs: seq<set<Kind>>, chosen: seq<Kind>, n: nat)
    requires Drains(zs, chosen) && n <= |chosen|
    ensures |zs[n]| == if n < |zs[0]| then |zs[0]| - n else 0
    decreases n
  {
    if n > 0 {
      DrainSizes(zs, chosen, n - 1);
      assert DrainAt(zs, chosen, n - 1);
      SizeLeft(zs[n - 1], chosen[n - 1]);
    }
  }

  lemma DrainFirst(zs: seq<set<Kind>>, chosen: seq<Kind>, j: nat)
    requires Drains(zs, chosen) && j < |chosen|
    ensures j < |zs[0]| ==> chosen[j] in zs[0] && chosen[j] !in chosen[..j]
    ensures j >= |zs[0]| ==> zs[0] <= Taken(chosen[..j]) && chosen[j] !in zs[j]
  {
    DrainSets(zs, chosen, j);
    DrainSizes(zs, chosen, j);
    assert DrainAt(zs, chosen, j);
    assert chosen[j] in chosen[..j] ==> chosen[j] in Taken(chosen[..j]);
    if j >= |zs[0]| {
      forall k | k in zs[0]
        ensures k in Taken(chosen[..j])
      {
        assert k !in zs[j];
      }
    }
  }

  /** In alternating rounds the unpulled arms are taken first, each exactly once: while one is left
      the next choice is an unpulled arm not chosen before, and afterwards every choice is a pulled arm. */
  lemma ZeroArmsFirst(bonus: Bonus, states: seq<Bandit>, chosen: seq<Kind>, j: nat)
    requires IsRun(bonus, states, chosen) && j < |chosen|
    ensures var z := ZeroArms(states[0]);
      && (j < |z| ==> chosen[j] in z && chosen[j] !in chosen[..j])
      && (j >= |z| ==> z <= Taken(chosen[..j]) && chosen[j] in states[j].arms && states[j].arms[chosen[j]].pulls > 0)
  {
    var zs := seq(|states|, i requires 0 <= i < |states| => ZeroArms(states[i]));
    forall i | 0 <= i < |chosen|
      ensures DrainAt(zs, chosen, i)
    {
      RoundEffect(bonus, states, chosen, i);
    }
    DrainFirst(zs, chosen, j);
    RoundEffect(bonus, states, chosen, j);
  }
}
