/** The coverage tracker's state and its operations on values, with the invariants every
    mixture of operations keeps. */
module Coverage {
  import opened Common
  import KeyOrder

  /** What is hashed into a bitmap slot besides raw edges. */
  datatype Signal = Explore(name: string, value: int) | Maximum(name: string, bucket: int)
                  | Branch(chosen: int, choices: int) | Assertion(key: string)

  datatype Cov = Cov(
    bitmap: seq<Byte>, virgin: seq<Byte>, edgeHits: seq<nat>,
    totalEdges: nat, newEdges: nat, corpusEdges: nat,
    maxMap: map<string, int>, seenAsserts: set<string>, assertionCount: nat,
    stepNewMax: nat, stepNewExplore: nat, stepNewAsserts: nat, stepEdgeRarity: real)

  datatype Corpus = Corpus(version: nat, totalEdges: nat, corpusEdges: nat,
                           bitmap: seq<Byte>, maxMap: map<string, int>, seenAsserts: seq<string>)

  function Bytes(n: nat, x: Byte): (s: seq<Byte>)
    ensures |s| == n && forall i :: 0 <= i < n ==> s[i] == x
  {
    seq(n, _ => x)
  }

  function NoHits(n: nat): (s: seq<nat>)
    ensures |s| == n && forall i :: 0 <= i < n ==> s[i] == 0
  {
    seq(n, _ => 0)
  }

  function Fresh(size: nat): Cov {
    Cov(Bytes(size, 0), Bytes(size, 255), NoHits(size), 0, 0, 0, map[], {}, 0, 0, 0, 0, 0.0)
  }

  // ---------------------------------------------------------------- arithmetic of slots

  /** Saturating addition of hit counts. */
  function AddSat(a: Byte, b: Byte): Byte { if a + b > 255 then 255 else a + b }

  function HitBucket(count: Byte): nat {
    if count <= 3 then count else if count <= 7 then 4 else if count <= 15 then 5
    else if count <= 31 then 6 else if count <= 127 then 7 else 8
  }

  function BucketOf(v: int): int {
    if v <= 0 then 0 else if v <= 10 then v else if v <= 100 then v / 10 * 10
    else if v <= 1000 then v / 100 * 100 else if v <= 10000 then v / 1000 * 1000 else v / 10000 * 10000
  }

  /** The bucket grows by one exactly where a count reaches 1, 2, 3, 4, 8, 16, 32 or 128. */
  lemma HitBucketSteps(n: Byte)
    requires n < 255
    ensures HitBucket(0) == 0
    ensures HitBucket(n + 1) == HitBucket(n) + if n + 1 in {1, 2, 3, 4, 8, 16, 32, 128} then 1 else 0
  {
  }

  /** A positive value lies in its bucket: buckets hold one value up to 10, then ten, a hundred, a thousand and
      from 10000 on ten thousand, and start at a multiple of their size. */
  lemma BucketHolds(v: int)
    requires v > 0
    ensures var size := if v <= 10 then 1 else if v <= 100 then 10 else if v <= 1000 then 100
                        else if v <= 10000 then 1000 else 10000;
      BucketOf(v) % size == 0 && BucketOf(v) <= v < BucketOf(v) + size
  {
  }

  function NonZero(s: seq<Byte>): nat {
    if s == [] then 0 else NonZero(s[..|s| - 1]) + (if s[|s| - 1] != 0 then 1 else 0)
  }

  /** 1/hits; a 32-bit hit count that wrapped to zero has no reciprocal and contributes nothing here. */
  function Reciprocal(hits: nat): real { if hits == 0 then 0.0 else 1.0 / (hits as real) }

  // ---------------------------------------------------------------- operations

  /** The invariant shape: parallel arrays of one positive size. */
  predicate Sized(c: Cov) { |c.bitmap| == |c.virgin| == |c.edgeHits| > 0 }

  /** Whether a report of v hits on slot i counts as new coverage. */
  predicate NewAt(c: Cov, i: nat, v: Byte)
    requires Sized(c) && i < |c.bitmap|
  {
    var seen := c.bitmap[i];
    v != 0 && c.virgin[i] != 0 && (HitBucket(seen) != HitBucket(AddSat(seen, v)) || seen == 0)
  }

  /** One reported edge. */
  function HitSlot(c: Cov, i: nat, v: Byte): (r: Cov)
    requires Sized(c) && i < |c.bitmap|
    ensures Sized(r) && |r.bitmap| == |c.bitmap|
  {
    if v == 0 then c
    else
      var hits := (c.edgeHits[i] + 1) % 0x1_0000_0000;
      var counted := c.(
        bitmap := c.bitmap[i := AddSat(c.bitmap[i], v)],
        edgeHits := c.edgeHits[i := hits],
        totalEdges := c.totalEdges + if c.bitmap[i] == 0 then 1 else 0);
      if NewAt(c, i, v)
      then counted.(virgin := c.virgin[i := 0], newEdges := c.newEdges + 1,
                    stepEdgeRarity := c.stepEdgeRarity + Reciprocal(hits))
      else counted
  }

  function InRange(c: Cov, edges: seq<Byte>): nat { if |edges| < |c.bitmap| then |edges| else |c.bitmap| }

  /** The first n reported edges. */
  function HitSlots(c: Cov, edges: seq<Byte>, n: nat): (r: Cov)
    requires Sized(c) && n <= InRange(c, edges)
    ensures Sized(r) && |r.bitmap| == |c.bitmap|
  {
    if n == 0 then c else HitSlot(HitSlots(c, edges, n - 1), n - 1, edges[n - 1])
  }

  function Update(c: Cov, edges: seq<Byte>): (r: Cov)
    requires Sized(c)
    ensures Sized(r) && |r.bitmap| == |c.bitmap|
  {
    HitSlots(c, edges, InRange(c, edges))
  }

  function FoundNew(c: Cov, edges: seq<Byte>, n: nat): bool
    requires Sized(c) && n <= InRange(c, edges)
  {
    n > 0 && (FoundNew(c, edges, n - 1) || NewAt(HitSlots(c, edges, n - 1), n - 1, edges[n - 1]))
  }

  predicate HasNewEdge(c: Cov, edges: seq<Byte>)
    requires Sized(c)
  {
    exists i :: 0 <= i < InRange(c, edges) && edges[i] != 0 &&
      (c.bitmap[i] == 0 || HitBucket(c.bitmap[i]) != HitBucket(AddSat(c.bitmap[i], edges[i])))
  }

  /** A hashed signal marks its slot if the slot has never been hit. */
  function Mark(c: Cov, pos: nat): (r: Cov)
    requires Sized(c) && pos < |c.bitmap|
    ensures Sized(r) && |r.bitmap| == |c.bitmap|
  {
    if c.virgin[pos] == 255
    then c.(virgin := c.virgin[pos := 0], bitmap := c.bitmap[pos := 1],
            totalEdges := c.totalEdges + 1, newEdges := c.newEdges + 1)
    else c
  }

  type Hash = Signal -> nat

  function SlotOf(c: Cov, hash: Hash, s: Signal): (i: nat)
    requires Sized(c)
    ensures i < |c.bitmap|
  {
    hash(s) % |c.bitmap|
  }

  function ExploreSignal(c: Cov, hash: Hash, s: Signal): (r: Cov)
    requires Sized(c)
    ensures Sized(r) && |r.bitmap| == |c.bitmap|
  {
    var pos := SlotOf(c, hash, s);
    if c.virgin[pos] == 255 then Mark(c, pos).(stepNewExplore := c.stepNewExplore + 1) else c
  }

  function Maximize(c: Cov, hash: Hash, name: string, value: int): (r: Cov)
    requires Sized(c)
    ensures Sized(r) && |r.bitmap| == |c.bitmap|
  {
    if name in c.maxMap && value <= c.maxMap[name] then c
    else
      Mark(c.(maxMap := c.maxMap[name := value], stepNewMax := c.stepNewMax + 1),
           SlotOf(c, hash, Maximum(name, BucketOf(value))))
  }

  /** A guidance signal; one of an unknown type changes nothing. */
  function Guide(c: Cov, hash: Hash, guidanceType: string, name: string, value: int): (r: Cov)
    requires Sized(c)
    ensures Sized(r) && |r.bitmap| == |c.bitmap|
  {
    if guidanceType == "explore" then ExploreSignal(c, hash, Explore(name, value))
    else if guidanceType == "maximize" then Maximize(c, hash, name, value)
    else c
  }

  function SeeAssertion(c: Cov, hash: Hash, key: string): (r: Cov)
    requires Sized(c)
    ensures Sized(r) && |r.bitmap| == |c.bitmap|
  {
    if key in c.seenAsserts then c
    else
      Mark(c.(seenAsserts := c.seenAsserts + {key}, stepNewAsserts := c.stepNewAsserts + 1,
              assertionCount := c.assertionCount + 1),
           SlotOf(c, hash, Assertion(key)))
  }

  function ResetStep(c: Cov): Cov {
    c.(stepNewMax := 0, stepNewExplore := 0, stepNewAsserts := 0, stepEdgeRarity := 0.0)
  }

  function ResetBitmap(c: Cov): (r: Cov)
    requires Sized(c)
    ensures Sized(r) && |r.bitmap| == |c.bitmap|
  {
    ResetStep(c.(bitmap := Bytes(|c.bitmap|, 0), virgin := Bytes(|c.bitmap|, 255),
                 edgeHits := NoHits(|c.bitmap|), totalEdges := 0, newEdges := 0))
  }

  /** One slot of an imported corpus: counted, but never new. */
  function ImportSlot(c: Cov, i: nat, v: Byte): (r: Cov)
    requires Sized(c) && i < |c.bitmap|
    ensures Sized(r) && |r.bitmap| == |c.bitmap|
  {
    if v == 0 then c
    else c.(bitmap := c.bitmap[i := AddSat(c.bitmap[i], v)], virgin := c.virgin[i := 0],
            totalEdges := c.totalEdges + if c.bitmap[i] == 0 then 1 else 0)
  }

  function ImportSlots(c: Cov, bm: seq<Byte>, n: nat): (r: Cov)
    requires Sized(c) && n <= InRange(c, bm)
    ensures Sized(r) && |r.bitmap| == |c.bitmap|
  {
    if n == 0 then c else ImportSlot(ImportSlots(c, bm, n - 1), n - 1, bm[n - 1])
  }

  function MergeMax(m: map<string, int>, other: map<string, int>): map<string, int> {
    map k | k in m.Keys + other.Keys ::
      if k !in other then m[k] else if k in m && other[k] <= m[k] then m[k] else other[k]
  }

  lemma OneFewer(other: map<string, int>, rest: set<string>, k: string)
    requires k in rest && rest <= other.Keys
    ensures k !in other - rest && other - (rest - {k}) == (other - rest)[k := other[k]]
  {
  }

  lemma MergeMaxStep(m: map<string, int>, other: map<string, int>, k: string, v: int)
    requires k !in other
    ensures var r := MergeMax(m, other);
      MergeMax(m, other[k := v]) == if k in r && v <= r[k] then r else r[k := v]
  {
  }

  function Import(c: Cov, corpus: Corpus): (r: Cov)
    requires Sized(c)
    ensures Sized(r) && |r.bitmap| == |c.bitmap|
  {
    var b := ImportSlots(c, corpus.bitmap, InRange(c, corpus.bitmap));
    b.(maxMap := MergeMax(c.maxMap, corpus.maxMap),
       seenAsserts := c.seenAsserts + (set k | k in corpus.seenAsserts),
       corpusEdges := b.totalEdges)
  }

  // ---------------------------------------------------------------- the invariant

  ghost predicate SlotOk(c: Cov, i: nat)
    requires Sized(c) && i < |c.bitmap|
  {
    && (c.virgin[i] == 0 || c.virgin[i] == 255)
    && (c.virgin[i] == 255 <==> c.bitmap[i] == 0)
    && (c.edgeHits[i] > 0 ==> c.bitmap[i] > 0)
  }

  ghost predicate Inv(c: Cov) {
    && Sized(c) && (forall i :: 0 <= i < |c.bitmap| ==> SlotOk(c, i))
    && c.totalEdges == NonZero(c.bitmap) && c.newEdges <= c.totalEdges
  }

  lemma {:induction false} NonZeroUpdate(s: seq<Byte>, i: nat, b: Byte)
    requires i < |s|
    ensures NonZero(s[i := b]) == NonZero(s) + (if b != 0 then 1 else 0) - (if s[i] != 0 then 1 else 0)
    ensures NonZero(s) <= |s|
    decreases |s|
  {
    var t := s[i := b];
    if i == |s| - 1 {
      assert t[..|s| - 1] == s[..|s| - 1];
      NonZeroBound(s[..|s| - 1]);
    } else {
      assert t[..|s| - 1] == s[..|s| - 1][i := b];
      NonZeroUpdate(s[..|s| - 1], i, b);
    }
  }

  lemma {:induction false} NonZeroBound(s: seq<Byte>)
    ensures NonZero(s) <= |s|
    decreases |s|
  {
    if s != [] {
      NonZeroBound(s[..|s| - 1]);
    }
  }

  lemma {:induction false} NonZeroNone(n: nat)
    ensures NonZero(Bytes(n, 0)) == 0
  {
    if n > 0 {
      var s: seq<Byte> := Bytes(n, 0);
      assert s[..n - 1] == Bytes(n - 1, 0);
      NonZeroNone(n - 1);
    }
  }

  lemma FreshInv(size: nat)
    requires size > 0
    ensures Inv(Fresh(size))
  {
    NonZeroNone(size);
  }

  /** One reported edge under the invariant: it is new exactly when the slot was never hit, and a
      new edge always adds exactly one to the rarity score. */
  lemma HitSlotKeeps(c: Cov, i: nat, v: Byte, r: Cov)
    requires Inv(c) && i < |c.bitmap| && r == HitSlot(c, i, v)
    ensures var first := v != 0 && c.bitmap[i] == 0;
      && Inv(r) && Advances(c, r) && (NewAt(c, i, v) <==> first)
      && r.totalEdges == c.totalEdges + (if first then 1 else 0)
  {
    assert SlotOk(c, i);
    NonZeroUpdate(c.bitmap, i, AddSat(c.bitmap[i], v));
    forall j | 0 <= j < |r.bitmap|
      ensures SlotOk(r, j)
    {
      assert SlotOk(c, j);
    }
  }

  /** Each slot receives its own report and no other. */
  lemma {:induction false} HitSlotsBitmap(c: Cov, edges: seq<Byte>, n: nat, i: nat)
    requires Sized(c) && n <= InRange(c, edges) && i < |c.bitmap|
    ensures HitSlots(c, edges, n).bitmap[i] == if i < n then AddSat(c.bitmap[i], edges[i]) else c.bitmap[i]
    ensures HitSlots(c, edges, n).corpusEdges == c.corpusEdges
    decreases n
  {
    if n > 0 {
      HitSlotsBitmap(c, edges, n - 1, i);
    }
  }

  /** What reported edges do to the counters: they move together. */
  ghost predicate Advances(c: Cov, r: Cov) {
    && r.newEdges - c.newEdges == r.totalEdges - c.totalEdges >= 0
    && r.stepEdgeRarity == c.stepEdgeRarity + (r.totalEdges - c.totalEdges) as real
  }

  lemma {:induction false} HitSlotsKeep(c: Cov, edges: seq<Byte>, n: nat, r: Cov)
    requires Inv(c) && n <= InRange(c, edges) && r == HitSlots(c, edges, n)
    ensures Inv(r) && Advances(c, r)
    decreases n
  {
    if n > 0 {
      var prev := HitSlots(c, edges, n - 1);
      HitSlotsKeep(c, edges, n - 1, prev);
      HitSlotKeeps(prev, n - 1, edges[n - 1], r);
    }
  }

  /** The report for slot i is the slot's first hit. */
  predicate FirstHitAt(c: Cov, edges: seq<Byte>, i: int) {
    0 <= i < |edges| && i < |c.bitmap| && edges[i] != 0 && c.bitmap[i] == 0
  }

  lemma {:induction false} FoundNewMeans(c: Cov, edges: seq<Byte>, n: nat)
    requires Inv(c) && n <= InRange(c, edges)
    ensures FoundNew(c, edges, n) <==> exists i :: i < n && FirstHitAt(c, edges, i)
    decreases n
  {
    if n > 0 {
      FoundNewMeans(c, edges, n - 1);
      NewAtMeans(c, edges, n - 1);
    }
  }

  lemma NewAtMeans(c: Cov, edges: seq<Byte>, n: nat)
    requires Inv(c) && n < InRange(c, edges)
    ensures NewAt(HitSlots(c, edges, n), n, edges[n]) <==> FirstHitAt(c, edges, n)
  {
    HitSlotsKeep(c, edges, n, HitSlots(c, edges, n));
    HitSlotsBitmap(c, edges, n, n);
    assert SlotOk(HitSlots(c, edges, n), n);
  }

  lemma UpdateFinds(c: Cov, edges: seq<Byte>)
    requires Inv(c)
    ensures FoundNew(c, edges, InRange(c, edges)) <==> exists i :: FirstHitAt(c, edges, i)
  {
    var n := InRange(c, edges);
    FoundNewMeans(c, edges, n);
    assert (exists i :: FirstHitAt(c, edges, i)) <==> exists i :: i < n && FirstHitAt(c, edges, i);
  }

  lemma UpdateStep(c: Cov, edges: seq<Byte>, n: nat)
    requires Sized(c) && n < InRange(c, edges)
    ensures HitSlots(c, edges, n + 1) == HitSlot(HitSlots(c, edges, n), n, edges[n])
    ensures FoundNew(c, edges, n + 1) == (FoundNew(c, edges, n) || NewAt(HitSlots(c, edges, n), n, edges[n]))
  {
  }

  /** Update reports new coverage exactly when an in-range edge hits a slot never hit before, and
      then HasNewEdge was true; the two disagree exactly when no slot is first hit but some hit
      slot changes bucket. */
  lemma UpdateAnswer(c: Cov, edges: seq<Byte>)
    requires Inv(c)
    ensures var found := FoundNew(c, edges, InRange(c, edges));
      && (found <==> exists i :: FirstHitAt(c, edges, i))
      && (found ==> HasNewEdge(c, edges))
      && (found == HasNewEdge(c, edges) <==>
            found || forall i :: 0 <= i < InRange(c, edges) && edges[i] != 0 ==>
                       HitBucket(c.bitmap[i]) == HitBucket(AddSat(c.bitmap[i], edges[i])))
  {
    UpdateFinds(c, edges);
  }

  // ---------------------------------------------------------------- what newEdges counts

  function FirstHitSlots(c: Cov, edges: seq<Byte>): set<int> {
    set i | 0 <= i < |edges| && FirstHitAt(c, edges, i)
  }

  /** The report moves slot i to another bucket. */
  predicate ChangesBucketAt(c: Cov, edges: seq<Byte>, i: int) {
    0 <= i < |edges| && i < |c.bitmap| && edges[i] != 0 &&
    HitBucket(c.bitmap[i]) != HitBucket(AddSat(c.bitmap[i], edges[i]))
  }

  /** The bucket transitions of one update. */
  function Transitions(c: Cov, edges: seq<Byte>): set<int> {
    set i | 0 <= i < |edges| && ChangesBucketAt(c, edges, i)
  }

  ghost function FirstBelow(c: Cov, edges: seq<Byte>, n: nat): set<int> {
    set i | 0 <= i < n && FirstHitAt(c, edges, i)
  }

  lemma FirstBelowStep(c: Cov, edges: seq<Byte>, n: nat)
    ensures |FirstBelow(c, edges, n + 1)| == |FirstBelow(c, edges, n)| + (if FirstHitAt(c, edges, n) then 1 else 0)
  {
    if FirstHitAt(c, edges, n) {
      assert FirstBelow(c, edges, n + 1) == FirstBelow(c, edges, n) + {n};
    } else {
      assert FirstBelow(c, edges, n + 1) == FirstBelow(c, edges, n);
    }
  }

  lemma {:induction false} HitSlotsCount(c: Cov, edges: seq<Byte>, n: nat, r: Cov)
    requires Inv(c) && n <= InRange(c, edges) && r == HitSlots(c, edges, n)
    ensures r.totalEdges == c.totalEdges + |FirstBelow(c, edges, n)|
    decreases n
  {
    if n > 0 {
      var prev := HitSlots(c, edges, n - 1);
      HitSlotsCount(c, edges, n - 1, prev);
      OneMoreSlot(c, edges, n - 1, prev, r);
      FirstBelowStep(c, edges, n - 1);
    }
  }

  lemma OneMoreSlot(c: Cov, edges: seq<Byte>, n: nat, prev: Cov, r: Cov)
    requires Inv(c) && n < InRange(c, edges) && prev == HitSlots(c, edges, n) && r == HitSlots(c, edges, n + 1)
    ensures r.totalEdges == prev.totalEdges + (if FirstHitAt(c, edges, n) then 1 else 0)
  {
    HitSlotsKeep(c, edges, n, prev);
    HitSlotsBitmap(c, edges, n, n);
    HitSlotKeeps(prev, n, edges[n], r);
  }

  /** An update raises both edge counters and the rarity score by the number of slots it hits first. */
  lemma UpdateCounts(c: Cov, edges: seq<Byte>)
    requires Inv(c)
    ensures var r, k := Update(c, edges), |FirstHitSlots(c, edges)|;
      r.totalEdges == c.totalEdges + k && r.newEdges == c.newEdges + k && r.stepEdgeRarity == c.stepEdgeRarity + k as real
  {
    var n := InRange(c, edges);
    HitSlotsCount(c, edges, n, Update(c, edges));
    HitSlotsKeep(c, edges, n, Update(c, edges));
    assert FirstHitSlots(c, edges) == FirstBelow(c, edges, n);
  }

  lemma FirstHitsAreTransitions(c: Cov, edges: seq<Byte>)
    ensures FirstHitSlots(c, edges) <= Transitions(c, edges)
    ensures |FirstHitSlots(c, edges)| <= |Transitions(c, edges)|
    ensures |FirstHitSlots(c, edges)| == |Transitions(c, edges)| <==>
            forall i :: ChangesBucketAt(c, edges, i) ==> c.bitmap[i] == 0
  {
    var a, b := FirstHitSlots(c, edges), Transitions(c, edges);
    assert forall i :: FirstHitAt(c, edges, i) ==> ChangesBucketAt(c, edges, i);
    assert b == a + (b - a);
    assert |b| == |a| <==> b - a == {};
    assert forall i :: i in b <==> ChangesBucketAt(c, edges, i);
    assert forall i :: ChangesBucketAt(c, edges, i) ==> (i in a <==> c.bitmap[i] == 0);
    if b - a == {} {
      forall i | ChangesBucketAt(c, edges, i)
        ensures c.bitmap[i] == 0
      {
        assert i in b && i !in b - a;
      }
    }
  }

  /** newEdges is documented as the number of bucket transitions: one update counts its transitions
      exactly when it changes the bucket of no slot hit before. */
  lemma NewEdgesAreTransitionsIff(c: Cov, edges: seq<Byte>)
    requires Inv(c)
    ensures Update(c, edges).newEdges - c.newEdges <= |Transitions(c, edges)|
    ensures Update(c, edges).newEdges - c.newEdges == |Transitions(c, edges)| <==>
            forall i :: ChangesBucketAt(c, edges, i) ==> c.bitmap[i] == 0
  {
    UpdateCounts(c, edges);
    FirstHitsAreTransitions(c, edges);
  }

  /** One slot hit twice, once each time: two transitions, one counted. */
  lemma TransitionNotCounted()
    ensures var once := Update(Fresh(1), [1]);
      var twice := Update(once, [1]);
      && once.newEdges == 1 && twice.newEdges == 1 && Transitions(once, [1]) == {0}
      && HitBucket(once.bitmap[0]) == 1 && HitBucket(twice.bitmap[0]) == 2
  {
    var once := Update(Fresh(1), [1]);
    FreshInv(1);
    HitSlotsKeep(Fresh(1), [1], 1, once);
    HitSlotsBitmap(Fresh(1), [1], 1, 0);
    HitSlotsBitmap(once, [1], 1, 0);
    UpdateCounts(Fresh(1), [1]);
    UpdateCounts(once, [1]);
    assert FirstHitAt(Fresh(1), [1], 0) && FirstHitSlots(Fresh(1), [1]) == {0};
    assert FirstHitSlots(once, [1]) == {};
    assert ChangesBucketAt(once, [1], 0);
  }

  lemma MarkKeeps(c: Cov, pos: nat)
    requires Inv(c) && pos < |c.bitmap|
    ensures var r := Mark(c, pos);
      && Inv(r) && r.newEdges - c.newEdges == r.totalEdges - c.totalEdges >= 0
      && r.corpusEdges == c.corpusEdges && r.stepEdgeRarity == c.stepEdgeRarity
  {
    assert SlotOk(c, pos);
    NonZeroUpdate(c.bitmap, pos, 1);
    var r := Mark(c, pos);
    forall j | 0 <= j < |r.bitmap|
      ensures SlotOk(r, j)
    {
      assert SlotOk(c, j);
    }
  }

  /** Counters outside the arrays do not matter to the invariant. */
  lemma SameArrays(c: Cov, r: Cov)
    requires Inv(c) && r.bitmap == c.bitmap && r.virgin == c.virgin && r.edgeHits == c.edgeHits
    requires r.totalEdges == c.totalEdges && r.newEdges == c.newEdges
    ensures Inv(r)
  {
    forall j | 0 <= j < |r.bitmap|
      ensures SlotOk(r, j)
    {
      assert SlotOk(c, j);
    }
  }

  lemma ResetBitmapKeeps(c: Cov)
    requires Sized(c)
    ensures Inv(ResetBitmap(c))
  {
    NonZeroNone(|c.bitmap|);
  }

  lemma ImportSlotKeeps(c: Cov, i: nat, v: Byte, r: Cov)
    requires Inv(c) && i < |c.bitmap| && r == ImportSlot(c, i, v)
    ensures Inv(r)
  {
    assert SlotOk(c, i);
    NonZeroUpdate(c.bitmap, i, AddSat(c.bitmap[i], v));
    forall j | 0 <= j < |r.bitmap|
      ensures SlotOk(r, j)
    {
      assert SlotOk(c, j);
    }
  }

  lemma {:induction false} ImportSlotsKeep(c: Cov, bm: seq<Byte>, n: nat, r: Cov)
    requires Inv(c) && n <= InRange(c, bm) && r == ImportSlots(c, bm, n)
    ensures Inv(r) && r.totalEdges >= c.totalEdges
    decreases n
  {
    if n > 0 {
      var prev := ImportSlots(c, bm, n - 1);
      ImportSlotsKeep(c, bm, n - 1, prev);
      ImportSlotKeeps(prev, n - 1, bm[n - 1], r);
    }
  }

  lemma {:induction false} ImportSlotsBitmap(c: Cov, bm: seq<Byte>, n: nat, i: nat)
    requires Sized(c) && n <= InRange(c, bm) && i < |c.bitmap|
    ensures ImportSlots(c, bm, n).bitmap[i] == if i < n then AddSat(c.bitmap[i], bm[i]) else c.bitmap[i]
    decreases n
  {
    if n > 0 {
      ImportSlotsBitmap(c, bm, n - 1, i);
    }
  }

  /** Importing slots touches nothing but the bitmap, the virgin map and the total. */
  lemma {:induction false} ImportSlotsRest(c: Cov, bm: seq<Byte>, n: nat)
    requires Sized(c) && n <= InRange(c, bm)
    ensures var r := ImportSlots(c, bm, n); r == c.(bitmap := r.bitmap, virgin := r.virgin, totalEdges := r.totalEdges)
    decreases n
  {
    if n > 0 {
      ImportSlotsRest(c, bm, n - 1);
    }
  }

  // ---------------------------------------------------------------- every run

  datatype Op = UpdateOp(edges: seq<Byte>) | GuideOp(guidanceType: string, name: string, value: int)
              | BranchOp(chosen: int, choices: int) | AssertionOp(key: string)
              | ClearAssertsOp | ResetStepOp | ResetBitmapOp | ImportOp(corpus: Corpus)

  function Apply(c: Cov, hash: Hash, op: Op): (r: Cov)
    requires Sized(c)
    ensures Sized(r) && |r.bitmap| == |c.bitmap|
  {
    match op
    case UpdateOp(edges) => Update(c, edges)
    case GuideOp(guidanceType, name, value) => Guide(c, hash, guidanceType, name, value)
    case BranchOp(chosen, choices) => ExploreSignal(c, hash, Branch(chosen, choices))
    case AssertionOp(key) => SeeAssertion(c, hash, key)
    case ClearAssertsOp => c.(stepNewAsserts := 0)
    case ResetStepOp => ResetStep(c)
    case ResetBitmapOp => ResetBitmap(c)
    case ImportOp(corpus) => Import(c, corpus)
  }

  function Run(c: Cov, hash: Hash, ops: seq<Op>): (r: Cov)
    requires Sized(c)
    ensures Sized(r) && |r.bitmap| == |c.bitmap|
  {
    if ops == [] then c else Apply(Run(c, hash, ops[..|ops| - 1]), hash, ops[|ops| - 1])
  }

  /** The change of the counters in one step. */
  lemma ApplyKeeps(c: Cov, hash: Hash, op: Op)
    requires Inv(c)
    ensures var r := Apply(c, hash, op);
      && Inv(r)
      && (!op.ResetBitmapOp? && !op.ImportOp? ==> r.newEdges - c.newEdges == r.totalEdges - c.totalEdges >= 0)
      && (op.ResetBitmapOp? ==> r.totalEdges == 0 && r.newEdges == 0)
      && (op.ImportOp? ==> r.newEdges == c.newEdges && r.corpusEdges == r.totalEdges >= c.totalEdges)
      && (!op.ImportOp? ==> r.corpusEdges == c.corpusEdges)
      && r.stepEdgeRarity == (if op.ResetStepOp? || op.ResetBitmapOp? then 0.0
                              else if op.UpdateOp? then c.stepEdgeRarity + (r.totalEdges - c.totalEdges) as real
                              else c.stepEdgeRarity)
  {
    match op
    case UpdateOp(edges) =>
      HitSlotsKeep(c, edges, InRange(c, edges), Update(c, edges));
      HitSlotsBitmap(c, edges, InRange(c, edges), 0);
    case GuideOp(guidanceType, name, value) =>
      ExploreKeeps(c, hash, Explore(name, value));
      MaximizeKeeps(c, hash, name, value);
    case BranchOp(chosen, choices) => ExploreKeeps(c, hash, Branch(chosen, choices));
    case AssertionOp(key) => AssertionKeeps(c, hash, key);
    case ClearAssertsOp => SameArrays(c, c.(stepNewAsserts := 0));
    case ResetStepOp => SameArrays(c, ResetStep(c));
    case ResetBitmapOp => ResetBitmapKeeps(c);
    case ImportOp(corpus) =>
      ImportSlotsKeep(c, corpus.bitmap, InRange(c, corpus.bitmap),
                      ImportSlots(c, corpus.bitmap, InRange(c, corpus.bitmap)));
      ImportSlotsRest(c, corpus.bitmap, InRange(c, corpus.bitmap));
      SameArrays(ImportSlots(c, corpus.bitmap, InRange(c, corpus.bitmap)), Import(c, corpus));
  }

  lemma ExploreKeeps(c: Cov, hash: Hash, s: Signal)
    requires Inv(c)
    ensures var r := ExploreSignal(c, hash, s);
      && Inv(r) && r.newEdges - c.newEdges == r.totalEdges - c.totalEdges >= 0
      && r.corpusEdges == c.corpusEdges && r.stepEdgeRarity == c.stepEdgeRarity
  {
    var pos := SlotOf(c, hash, s);
    MarkKeeps(c, pos);
    SameArrays(Mark(c, pos), Mark(c, pos).(stepNewExplore := c.stepNewExplore + 1));
  }

  lemma MaximizeKeeps(c: Cov, hash: Hash, name: string, value: int)
    requires Inv(c)
    ensures var r := Maximize(c, hash, name, value);
      && Inv(r) && r.newEdges - c.newEdges == r.totalEdges - c.totalEdges >= 0
      && r.corpusEdges == c.corpusEdges && r.stepEdgeRarity == c.stepEdgeRarity
  {
    var d := c.(maxMap := c.maxMap[name := value], stepNewMax := c.stepNewMax + 1);
    SameArrays(c, d);
    MarkKeeps(d, SlotOf(c, hash, Maximum(name, BucketOf(value))));
  }

  lemma AssertionKeeps(c: Cov, hash: Hash, key: string)
    requires Inv(c)
    ensures var r := SeeAssertion(c, hash, key);
      && Inv(r) && r.newEdges - c.newEdges == r.totalEdges - c.totalEdges >= 0
      && r.corpusEdges == c.corpusEdges && r.stepEdgeRarity == c.stepEdgeRarity
  {
    var d := c.(seenAsserts := c.seenAsserts + {key}, stepNewAsserts := c.stepNewAsserts + 1,
                assertionCount := c.assertionCount + 1);
    SameArrays(c, d);
    MarkKeeps(d, SlotOf(c, hash, Assertion(key)));
  }

  /** The invariant holds in every state reachable by any mix of operations. */
  lemma {:induction false} RunKeeps(size: nat, hash: Hash, ops: seq<Op>)
    requires size > 0
    ensures Inv(Run(Fresh(size), hash, ops))
    decreases |ops|
  {
    if ops == [] {
      FreshInv(size);
    } else {
      RunKeeps(size, hash, ops[..|ops| - 1]);
      ApplyKeeps(Run(Fresh(size), hash, ops[..|ops| - 1]), hash, ops[|ops| - 1]);
    }
  }

  /** Slots first hit by an Update since the last step or bitmap reset, update by update. */
  function FirstHits(size: nat, hash: Hash, ops: seq<Op>): nat
    requires size > 0
  {
    if ops == [] then 0
    else
      var init := ops[..|ops| - 1];
      match ops[|ops| - 1]
      case ResetStepOp => 0
      case ResetBitmapOp => 0
      case UpdateOp(edges) => FirstHits(size, hash, init) + |FirstHitSlots(Run(Fresh(size), hash, init), edges)|
      case _ => FirstHits(size, hash, init)
  }

  /** The rarity score is the plain number of slots first hit by an Update since the last reset. */
  lemma {:induction false} RarityIsFirstHits(size: nat, hash: Hash, ops: seq<Op>)
    requires size > 0
    ensures Run(Fresh(size), hash, ops).stepEdgeRarity == FirstHits(size, hash, ops) as real
    decreases |ops|
  {
    if ops != [] {
      var init, op := ops[..|ops| - 1], ops[|ops| - 1];
      var c := Run(Fresh(size), hash, init);
      RarityIsFirstHits(size, hash, init);
      RunKeeps(size, hash, init);
      ApplyKeeps(c, hash, op);
      if op.UpdateOp? {
        UpdateCounts(c, op.edges);
      }
    }
  }

  // ---------------------------------------------------------------- order of reports

  /** Total hits reported for slot i. */
  function Reported(calls: seq<seq<Byte>>, i: nat): nat {
    if calls == [] then 0
    else Reported(calls[..|calls| - 1], i) +
         (if i < |calls[|calls| - 1]| then calls[|calls| - 1][i] else 0)
  }

  function Updates(c: Cov, calls: seq<seq<Byte>>): (r: Cov)
    requires Sized(c)
    ensures Sized(r) && |r.bitmap| == |c.bitmap|
  {
    if calls == [] then c else Update(Updates(c, calls[..|calls| - 1]), calls[|calls| - 1])
  }

  /** After any list of updates on a fresh tracker a slot holds the total reported for it,
      saturated at 255, and both edge counters count the slots hit. */
  lemma {:induction false} UpdatesClosed(size: nat, calls: seq<seq<Byte>>, i: nat)
    requires i < size
    ensures var r := Updates(Fresh(size), calls);
      && r.bitmap[i] == (if Reported(calls, i) > 255 then 255 else Reported(calls, i))
      && Inv(r) && r.newEdges == r.totalEdges == NonZero(r.bitmap)
    decreases |calls|
  {
    if calls == [] {
      FreshInv(size);
    } else {
      var init, last := calls[..|calls| - 1], calls[|calls| - 1];
      var c := Updates(Fresh(size), init);
      UpdatesClosed(size, init, i);
      HitSlotsBitmap(c, last, InRange(c, last), i);
      HitSlotsKeep(c, last, InRange(c, last), Update(c, last));
    }
  }

  /** Bucket transitions over a list of updates. */
  function TotalTransitions(c: Cov, calls: seq<seq<Byte>>): nat
    requires Sized(c)
  {
    if calls == [] then 0
    else
      var init := calls[..|calls| - 1];
      TotalTransitions(c, init) + |Transitions(Updates(c, init), calls[|calls| - 1])|
  }

  /** The k-th update changes the bucket of a slot hit before it. */
  ghost predicate Rehits(c: Cov, calls: seq<seq<Byte>>, k: nat)
    requires Sized(c) && k < |calls|
  {
    var before := Updates(c, calls[..k]);
    exists i :: ChangesBucketAt(before, calls[k], i) && before.bitmap[i] != 0
  }

  ghost predicate NeverRehits(c: Cov, calls: seq<seq<Byte>>)
    requires Sized(c)
  {
    forall k {:trigger Rehits(c, calls, k)} :: 0 <= k < |calls| ==> !Rehits(c, calls, k)
  }

  lemma NeverRehitsSnoc(c: Cov, calls: seq<seq<Byte>>)
    requires Sized(c) && calls != []
    ensures var n := |calls| - 1;
      NeverRehits(c, calls) <==> NeverRehits(c, calls[..n]) && !Rehits(c, calls, n)
  {
    var n := |calls| - 1;
    forall k | 0 <= k < n
      ensures Rehits(c, calls, k) == Rehits(c, calls[..n], k)
    {
      assert calls[..n][..k] == calls[..k];
    }
  }

  /** Over any updates of a fresh tracker, newEdges never exceeds the bucket transitions and equals them
      exactly when no update changed the bucket of a slot hit before. */
  lemma {:induction false} NewEdgesOverRun(size: nat, calls: seq<seq<Byte>>)
    requires size > 0
    ensures var r := Updates(Fresh(size), calls).newEdges;
      && r <= TotalTransitions(Fresh(size), calls)
      && (r == TotalTransitions(Fresh(size), calls) <==> NeverRehits(Fresh(size), calls))
    decreases |calls|
  {
    if calls != [] {
      var n := |calls| - 1;
      var c := Updates(Fresh(size), calls[..n]);
      NewEdgesOverRun(size, calls[..n]);
      UpdatesClosed(size, calls[..n], 0);
      NewEdgesAreTransitionsIff(c, calls[n]);
      NeverRehitsSnoc(Fresh(size), calls);
    }
  }

  lemma ReportedSnoc(calls: seq<seq<Byte>>, call: seq<Byte>, i: nat)
    ensures Reported(calls + [call], i) == Reported(calls, i) + if i < |call| then call[i] else 0
  {
    assert (calls + [call])[..|calls|] == calls;
  }

  lemma {:induction false} ReportedRemove(calls: seq<seq<Byte>>, k: nat, i: nat)
    requires k < |calls|
    ensures Reported(calls, i) == Reported(Without(calls, k), i) + if i < |calls[k]| then calls[k][i] else 0
    decreases |calls|
  {
    var n := |calls| - 1;
    var init, last := calls[..n], calls[n];
    assert calls == init + [last];
    WithoutSnoc(init, last, k);
    if k < n {
      ReportedRemove(init, k, i);
      ReportedSnoc(Without(init, k), last, i);
    }
  }

  /** An element common to both can be taken out of both. */
  lemma TakeOut(a: seq<seq<Byte>>, b: seq<seq<Byte>>) returns (k: nat)
    requires a != [] && multiset(a) == multiset(b)
    ensures k < |b| && b[k] == a[|a| - 1]
    ensures multiset(a[..|a| - 1]) == multiset(Without(b, k))
  {
    var last := |a| - 1;
    assert a[last] in multiset(b);
    k :| 0 <= k < |b| && b[k] == a[last];
    TakeOne(a, last);
    TakeOne(b, k);
    assert Without(a, last) == a[..last];
    Cancel(multiset(a[..last]), multiset(Without(b, k)), a[last]);
  }

  lemma {:induction false} ReportedPermutes(a: seq<seq<Byte>>, b: seq<seq<Byte>>, i: nat)
    requires multiset(a) == multiset(b)
    ensures Reported(a, i) == Reported(b, i)
    decreases |a|
  {
    if a == [] {
      assert |multiset(b)| == 0;
    } else {
      var k := TakeOut(a, b);
      ReportedPermutes(a[..|a| - 1], Without(b, k), i);
      ReportedRemove(b, k, i);
    }
  }

  /** The bitmap, and so any hash of it, and both edge counters do not depend on the order of the updates. */
  lemma OrderIrrelevant(size: nat, a: seq<seq<Byte>>, b: seq<seq<Byte>>)
    requires size > 0 && multiset(a) == multiset(b)
    ensures var r, s := Updates(Fresh(size), a), Updates(Fresh(size), b);
      r.bitmap == s.bitmap && r.totalEdges == s.totalEdges && r.newEdges == s.newEdges
  {
    var r, s := Updates(Fresh(size), a), Updates(Fresh(size), b);
    forall i | 0 <= i < size
      ensures r.bitmap[i] == s.bitmap[i]
    {
      UpdatesClosed(size, a, i);
      UpdatesClosed(size, b, i);
      ReportedPermutes(a, b, i);
    }
    UpdatesClosed(size, a, 0);
    UpdatesClosed(size, b, 0);
    assert r.bitmap == s.bitmap;
  }

  // ---------------------------------------------------------------- corpus persistence

  /** What Export writes: both edge counts, the bitmap, the maxima and the seen assertions in ascending order. */
  ghost predicate IsExport(c: Cov, corpus: Corpus) {
    && corpus.version == 1 && corpus.totalEdges == c.totalEdges && corpus.corpusEdges == c.corpusEdges
    && corpus.bitmap == c.bitmap && corpus.maxMap == c.maxMap && KeyOrder.Lists(corpus.seenAsserts, c.seenAsserts)
  }

  /** Equal trackers export equal corpora: there is one export of a state. */
  lemma ExportDetermined(c: Cov, a: Corpus, b: Corpus)
    requires IsExport(c, a) && IsExport(c, b)
    ensures a == b
  {
    KeyOrder.ListingUnique(a.seenAsserts, b.seenAsserts, c.seenAsserts);
  }

  /** Importing an export into a fresh tracker of the same size restores what the corpus carries,
      marks exactly the carried slots as seen, and counts nothing as new. */
  lemma ImportExport(c: Cov, corpus: Corpus)
    requires Inv(c) && IsExport(c, corpus)
    ensures var r := Import(Fresh(|c.bitmap|), corpus);
      && Inv(r) && r.bitmap == c.bitmap && r.virgin == c.virgin && r.totalEdges == c.totalEdges
      && r.maxMap == c.maxMap && r.seenAsserts == c.seenAsserts
      && r.newEdges == 0 && r.corpusEdges == r.totalEdges
  {
    var n := |c.bitmap|;
    var f := Fresh(n);
    FreshInv(n);
    ImportSlotsKeep(f, c.bitmap, n, ImportSlots(f, c.bitmap, n));
    ImportSlotsRest(f, c.bitmap, n);
    var b := ImportSlots(f, c.bitmap, n);
    var r := Import(f, corpus);
    SameArrays(b, r);
    forall i | 0 <= i < n
      ensures r.bitmap[i] == c.bitmap[i] && r.virgin[i] == c.virgin[i]
    {
      ImportSlotsBitmap(f, c.bitmap, n, i);
      assert SlotOk(c, i) && SlotOk(r, i);
    }
    assert r.bitmap == c.bitmap && r.virgin == c.virgin;
    assert MergeMax(map[], c.maxMap) == c.maxMap;
  }

  /** From an import until the next bitmap reset or import, the edges beyond the corpus are the growth of
      the new edges.  The documented difference newEdges - corpusEdges gives that number exactly when the
      baseline equals the new edges counted before the import. */
  lemma {:induction false} EdgesBeyondCorpus(c: Cov, corpus: Corpus, hash: Hash, ops: seq<Op>)
    requires Inv(c) && forall k :: 0 <= k < |ops| ==> !ops[k].ResetBitmapOp? && !ops[k].ImportOp?
    ensures var start := Import(c, corpus);
      var r := Run(start, hash, ops);
      && Inv(r) && r.corpusEdges == start.corpusEdges
      && r.totalEdges - r.corpusEdges == r.newEdges - c.newEdges
      && (r.newEdges - r.corpusEdges == r.totalEdges - r.corpusEdges <==> r.corpusEdges == c.newEdges)
    decreases |ops|
  {
    ApplyKeeps(c, hash, ImportOp(corpus));
    if ops == [] {
      ImportSlotsKeep(c, corpus.bitmap, InRange(c, corpus.bitmap),
                      ImportSlots(c, corpus.bitmap, InRange(c, corpus.bitmap)));
      ImportSlotsRest(c, corpus.bitmap, InRange(c, corpus.bitmap));
    } else {
      EdgesBeyondCorpus(c, corpus, hash, ops[..|ops| - 1]);
      ApplyKeeps(Run(Import(c, corpus), hash, ops[..|ops| - 1]), hash, ops[|ops| - 1]);
    }
  }
}
