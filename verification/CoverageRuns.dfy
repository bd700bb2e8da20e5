/** What a tracker holds after any run of operations, read off the list of operations: the value of each slot
    and its hit count, the maxima, the seen assertions and the step counters. */
module CoverageRuns {
  import opened Common
  import opened Coverage

  // ---------------------------------------------------------------- frames

  /** Reported edges touch the arrays, the edge counters and the rarity score only. */
  lemma {:induction false} UpdateRest(c: Cov, edges: seq<Byte>, n: nat, r: Cov)
    requires Sized(c) && n <= InRange(c, edges) && r == HitSlots(c, edges, n)
    ensures r.maxMap == c.maxMap && r.seenAsserts == c.seenAsserts && r.assertionCount == c.assertionCount
    ensures r.stepNewMax == c.stepNewMax && r.stepNewExplore == c.stepNewExplore && r.stepNewAsserts == c.stepNewAsserts
    decreases n
  {
    if n > 0 {
      UpdateRest(c, edges, n - 1, HitSlots(c, edges, n - 1));
    }
  }

  lemma ImportRest(c: Cov, corpus: Corpus, r: Cov)
    requires Sized(c) && r == Import(c, corpus)
    ensures r.edgeHits == c.edgeHits && r.assertionCount == c.assertionCount
    ensures r.stepNewMax == c.stepNewMax && r.stepNewExplore == c.stepNewExplore && r.stepNewAsserts == c.stepNewAsserts
    ensures r.maxMap == MergeMax(c.maxMap, corpus.maxMap)
    ensures r.seenAsserts == c.seenAsserts + set k | k in corpus.seenAsserts
  {
    ImportSlotsRest(c, corpus.bitmap, InRange(c, corpus.bitmap));
  }

  // ---------------------------------------------------------------- maxima

  /** The operation reports, or its corpus carries, v as a value of the name. */
  predicate Carries(op: Op, name: string, v: int) {
    match op
    case GuideOp(guidanceType, n, value) => guidanceType == "maximize" && n == name && value == v
    case ImportOp(corpus) => name in corpus.maxMap && corpus.maxMap[name] == v
    case _ => false
  }

  ghost predicate CarriedAt(ops: seq<Op>, k: nat, name: string, v: int) { k < |ops| && Carries(ops[k], name, v) }

  /** v is above every value the operations carry for the name. */
  ghost predicate Exceeds(ops: seq<Op>, name: string, v: int) {
    forall k: nat, u :: CarriedAt(ops, k, name, u) ==> u < v
  }

  ghost predicate Novel(c: Cov, name: string, v: int) { name !in c.maxMap || v > c.maxMap[name] }

  lemma ApplyMaxima(c: Cov, hash: Hash, op: Op, name: string, r: Cov)
    requires Sized(c) && r == Apply(c, hash, op)
    ensures forall v :: Carries(op, name, v) ==> name in r.maxMap && v <= r.maxMap[name]
    ensures name in c.maxMap ==> name in r.maxMap && c.maxMap[name] <= r.maxMap[name]
    ensures name in r.maxMap ==>
      (name in c.maxMap && r.maxMap[name] == c.maxMap[name]) || Carries(op, name, r.maxMap[name])
  {
    match op
    case UpdateOp(edges) => UpdateRest(c, edges, InRange(c, edges), r);
    case ImportOp(corpus) => ImportRest(c, corpus, r);
    case _ =>
  }

  lemma CarriedSnoc(ops: seq<Op>, k: nat, name: string, v: int)
    requires ops != []
    ensures CarriedAt(ops, k, name, v) <==>
            CarriedAt(ops[..|ops| - 1], k, name, v) || (k == |ops| - 1 && Carries(ops[|ops| - 1], name, v))
  {
  }

  /** A name has a maximum exactly when some operation carried it, and then the greatest value carried;
      no reset takes it away. */
  lemma {:induction false} MaximaOverRun(size: nat, hash: Hash, ops: seq<Op>, name: string, m: map<string, int>)
    requires size > 0 && m == Run(Fresh(size), hash, ops).maxMap
    ensures name in m ==> exists k: nat :: CarriedAt(ops, k, name, m[name])
    ensures forall k: nat, v :: CarriedAt(ops, k, name, v) ==> name in m && v <= m[name]
    decreases |ops|
  {
    if ops != [] {
      var n := |ops| - 1;
      var init, c := ops[..n], Run(Fresh(size), hash, ops[..n]);
      MaximaOverRun(size, hash, init, name, c.maxMap);
      ApplyMaxima(c, hash, ops[n], name, Run(Fresh(size), hash, ops));
      forall k: nat, v | CarriedAt(ops, k, name, v)
        ensures name in m && v <= m[name]
      {
        CarriedSnoc(ops, k, name, v);
      }
      if name in m {
        if Carries(ops[n], name, m[name]) {
          assert CarriedAt(ops, n, name, m[name]);
        } else {
          var k: nat :| CarriedAt(init, k, name, c.maxMap[name]);
          CarriedSnoc(ops, k, name, m[name]);
        }
      }
    }
  }

  /** A value is novel exactly when it is above every earlier one of its name, imported ones included. */
  lemma NovelIffExceeds(size: nat, hash: Hash, ops: seq<Op>, name: string, v: int)
    requires size > 0
    ensures Novel(Run(Fresh(size), hash, ops), name, v) <==> Exceeds(ops, name, v)
  {
    var m := Run(Fresh(size), hash, ops).maxMap;
    MaximaOverRun(size, hash, ops, name, m);
    if name in m {
      var k: nat :| CarriedAt(ops, k, name, m[name]);
    }
  }

  // ---------------------------------------------------------------- assertions

  predicate Mentions(op: Op, key: string) {
    match op
    case AssertionOp(k) => k == key
    case ImportOp(corpus) => key in corpus.seenAsserts
    case _ => false
  }

  ghost predicate MentionedAt(ops: seq<Op>, k: nat, key: string) { k < |ops| && Mentions(ops[k], key) }

  ghost predicate Unseen(ops: seq<Op>, key: string) { forall k: nat :: !MentionedAt(ops, k, key) }

  lemma ApplyAssertions(c: Cov, hash: Hash, op: Op, key: string, r: Cov)
    requires Sized(c) && r == Apply(c, hash, op)
    ensures key in r.seenAsserts <==> key in c.seenAsserts || Mentions(op, key)
  {
    match op
    case UpdateOp(edges) => UpdateRest(c, edges, InRange(c, edges), r);
    case ImportOp(corpus) => ImportRest(c, corpus, r);
    case _ =>
  }

  lemma MentionedSnoc(ops: seq<Op>, k: nat, key: string)
    requires ops != []
    ensures MentionedAt(ops, k, key) <==>
            MentionedAt(ops[..|ops| - 1], k, key) || (k == |ops| - 1 && Mentions(ops[|ops| - 1], key))
  {
  }

  lemma UnseenSnoc(ops: seq<Op>, key: string)
    requires ops != []
    ensures Unseen(ops, key) <==> Unseen(ops[..|ops| - 1], key) && !Mentions(ops[|ops| - 1], key)
  {
    var n := |ops| - 1;
    forall k: nat
      ensures MentionedAt(ops, k, key) <==> MentionedAt(ops[..n], k, key) || (k == n && Mentions(ops[n], key))
    {
      MentionedSnoc(ops, k, key);
    }
    if Mentions(ops[n], key) {
      assert MentionedAt(ops, n, key);
    }
  }

  /** An assertion is seen exactly when some operation reported or imported it. */
  lemma {:induction false} AssertionsOverRun(size: nat, hash: Hash, ops: seq<Op>, key: string)
    requires size > 0
    ensures key !in Run(Fresh(size), hash, ops).seenAsserts <==> Unseen(ops, key)
    decreases |ops|
  {
    if ops != [] {
      var n := |ops| - 1;
      AssertionsOverRun(size, hash, ops[..n], key);
      ApplyAssertions(Run(Fresh(size), hash, ops[..n]), hash, ops[n], key, Run(Fresh(size), hash, ops));
      UnseenSnoc(ops, key);
    }
  }

  // ---------------------------------------------------------------- slots

  function Saturated(n: nat): nat { if n > 255 then 255 else n }

  function ByteAt(s: seq<Byte>, i: nat): nat { if i < |s| then s[i] else 0 }

  /** A hashed signal whose slot is pos gives an untouched slot the value 1. */
  function Marked(was: nat, i: nat, pos: nat): nat { if i == pos && was == 0 then 1 else was }

  /** The value of slot i after the operations: reports and imports add up since the last bitmap reset, and a
      novel signal hashed to it marks it. */
  ghost function SlotValue(size: nat, hash: Hash, ops: seq<Op>, i: nat): nat
    requires size > 0
  {
    if ops == [] then 0
    else
      var init := ops[..|ops| - 1];
      var was := SlotValue(size, hash, init, i);
      match ops[|ops| - 1]
      case UpdateOp(edges) => Saturated(was + ByteAt(edges, i))
      case ImportOp(corpus) => Saturated(was + ByteAt(corpus.bitmap, i))
      case GuideOp(guidanceType, name, v) =>
        if guidanceType == "explore" then Marked(was, i, hash(Explore(name, v)) % size)
        else if guidanceType == "maximize" && Exceeds(init, name, v)
        then Marked(was, i, hash(Maximum(name, BucketOf(v))) % size)
        else was
      case BranchOp(chosen, choices) => Marked(was, i, hash(Branch(chosen, choices)) % size)
      case AssertionOp(key) => if Unseen(init, key) then Marked(was, i, hash(Assertion(key)) % size) else was
      case ResetBitmapOp => 0
      case _ => was
  }

  lemma MarkValue(c: Cov, pos: nat, i: nat)
    requires Inv(c) && pos < |c.bitmap| && i < |c.bitmap|
    ensures Mark(c, pos).bitmap[i] == Marked(c.bitmap[i], i, pos)
  {
    assert SlotOk(c, pos);
  }

  /** One operation's effect on slot i, with novelty read off the state. */
  lemma ApplySlot(c: Cov, hash: Hash, op: Op, i: nat, r: Cov)
    requires Inv(c) && i < |c.bitmap| && r == Apply(c, hash, op)
    ensures r.bitmap[i] == match op
      case UpdateOp(edges) => Saturated(c.bitmap[i] + ByteAt(edges, i))
      case ImportOp(corpus) => Saturated(c.bitmap[i] + ByteAt(corpus.bitmap, i))
      case GuideOp(guidanceType, name, v) =>
        if guidanceType == "explore" then Marked(c.bitmap[i], i, hash(Explore(name, v)) % |c.bitmap|)
        else if guidanceType == "maximize" && Novel(c, name, v)
        then Marked(c.bitmap[i], i, hash(Maximum(name, BucketOf(v))) % |c.bitmap|)
        else c.bitmap[i]
      case BranchOp(chosen, choices) => Marked(c.bitmap[i], i, hash(Branch(chosen, choices)) % |c.bitmap|)
      case AssertionOp(key) =>
        if key !in c.seenAsserts then Marked(c.bitmap[i], i, hash(Assertion(key)) % |c.bitmap|) else c.bitmap[i]
      case ResetBitmapOp => 0
      case _ => c.bitmap[i]
  {
    match op
    case UpdateOp(edges) => HitSlotsBitmap(c, edges, InRange(c, edges), i);
    case ImportOp(corpus) => ImportSlotsBitmap(c, corpus.bitmap, InRange(c, corpus.bitmap), i);
    case GuideOp(guidanceType, name, v) =>
      if guidanceType == "explore" {
        MarkValue(c, SlotOf(c, hash, Explore(name, v)), i);
      } else if guidanceType == "maximize" && Novel(c, name, v) {
        var d := c.(maxMap := c.maxMap[name := v], stepNewMax := c.stepNewMax + 1);
        SameArrays(c, d);
        MarkValue(d, SlotOf(c, hash, Maximum(name, BucketOf(v))), i);
      }
    case BranchOp(chosen, choices) => MarkValue(c, SlotOf(c, hash, Branch(chosen, choices)), i);
    case AssertionOp(key) =>
      if key !in c.seenAsserts {
        var d := c.(seenAsserts := c.seenAsserts + {key}, stepNewAsserts := c.stepNewAsserts + 1,
                    assertionCount := c.assertionCount + 1);
        SameArrays(c, d);
        MarkValue(d, SlotOf(c, hash, Assertion(key)), i);
      }
    case _ =>
  }

  /** After any run every slot holds its value, and is virgin exactly when that is zero. */
  lemma {:induction false} SlotsOverRun(size: nat, hash: Hash, ops: seq<Op>, i: nat)
    requires i < size
    ensures var r := Run(Fresh(size), hash, ops);
      r.bitmap[i] == SlotValue(size, hash, ops, i) && (r.virgin[i] == 255 <==> SlotValue(size, hash, ops, i) == 0)
    decreases |ops|
  {
    RunKeeps(size, hash, ops);
    assert SlotOk(Run(Fresh(size), hash, ops), i);
    if ops != [] {
      var n := |ops| - 1;
      var init, op := ops[..n], ops[n];
      var c := Run(Fresh(size), hash, init);
      RunKeeps(size, hash, init);
      SlotsOverRun(size, hash, init, i);
      ApplySlot(c, hash, op, i, Run(Fresh(size), hash, ops));
      NoveltyFromList(size, hash, init, op);
    }
  }

  /** The state's view of novelty is the list's. */
  lemma NoveltyFromList(size: nat, hash: Hash, init: seq<Op>, op: Op)
    requires size > 0
    ensures var c := Run(Fresh(size), hash, init);
      && (op.GuideOp? ==> (Novel(c, op.name, op.value) <==> Exceeds(init, op.name, op.value)))
      && (op.AssertionOp? ==> (op.key !in c.seenAsserts <==> Unseen(init, op.key)))
  {
    if op.GuideOp? {
      NovelIffExceeds(size, hash, init, op.name, op.value);
    } else if op.AssertionOp? {
      AssertionsOverRun(size, hash, init, op.key);
    }
  }

  // ---------------------------------------------------------------- hit counts

  /** The updates since the last bitmap reset that report slot i. */
  function HitCount(ops: seq<Op>, i: nat): nat {
    if ops == [] then 0
    else
      var was := HitCount(ops[..|ops| - 1], i);
      match ops[|ops| - 1]
      case UpdateOp(edges) => was + if ByteAt(edges, i) != 0 then 1 else 0
      case ResetBitmapOp => 0
      case _ => was
  }

  lemma {:induction false} HitSlotsHits(c: Cov, edges: seq<Byte>, n: nat, i: nat)
    requires Sized(c) && n <= InRange(c, edges) && i < |c.bitmap|
    ensures HitSlots(c, edges, n).edgeHits[i] ==
            if i < n && edges[i] != 0 then (c.edgeHits[i] + 1) % 0x1_0000_0000 else c.edgeHits[i]
    decreases n
  {
    if n > 0 {
      HitSlotsHits(c, edges, n - 1, i);
    }
  }

  lemma ApplyHits(c: Cov, hash: Hash, op: Op, i: nat, r: Cov)
    requires Sized(c) && i < |c.bitmap| && r == Apply(c, hash, op)
    ensures r.edgeHits[i] ==
      if op.ResetBitmapOp? then 0
      else if op.UpdateOp? && ByteAt(op.edges, i) != 0 then (c.edgeHits[i] + 1) % 0x1_0000_0000
      else c.edgeHits[i]
  {
    match op
    case UpdateOp(edges) => HitSlotsHits(c, edges, InRange(c, edges), i);
    case ImportOp(corpus) => ImportRest(c, corpus, r);
    case _ =>
  }

  lemma OneMore(n: nat)
    ensures (n % 0x1_0000_0000 + 1) % 0x1_0000_0000 == (n + 1) % 0x1_0000_0000
  {
  }

  /** A slot's hit count is the number of updates that reported it, as a 32-bit number. */
  lemma {:induction false} HitsOverRun(size: nat, hash: Hash, ops: seq<Op>, i: nat)
    requires i < size
    ensures Run(Fresh(size), hash, ops).edgeHits[i] == HitCount(ops, i) % 0x1_0000_0000
    decreases |ops|
  {
    if ops != [] {
      var n := |ops| - 1;
      HitsOverRun(size, hash, ops[..n], i);
      ApplyHits(Run(Fresh(size), hash, ops[..n]), hash, ops[n], i, Run(Fresh(size), hash, ops));
      OneMore(HitCount(ops[..n], i));
    }
  }

  // ---------------------------------------------------------------- step counters

  predicate ResetsStep(op: Op) { op.ResetStepOp? || op.ResetBitmapOp? }

  /** Maximize signals since the last reset that exceeded everything before them. */
  ghost function NewMaxima(ops: seq<Op>): nat {
    if ops == [] then 0
    else
      var init, op := ops[..|ops| - 1], ops[|ops| - 1];
      if ResetsStep(op) then 0
      else NewMaxima(init) +
           if op.GuideOp? && op.guidanceType == "maximize" && Exceeds(init, op.name, op.value) then 1 else 0
  }

  /** Explore signals and branches since the last reset whose slot had no value. */
  ghost function NewExplores(size: nat, hash: Hash, ops: seq<Op>): nat
    requires size > 0
  {
    if ops == [] then 0
    else
      var init, op := ops[..|ops| - 1], ops[|ops| - 1];
      if ResetsStep(op) then 0
      else NewExplores(size, hash, init) +
           match op
           case GuideOp(g, name, v) =>
             if g == "explore" && SlotValue(size, hash, init, hash(Explore(name, v)) % size) == 0 then 1 else 0
           case BranchOp(a, b) => if SlotValue(size, hash, init, hash(Branch(a, b)) % size) == 0 then 1 else 0
           case _ => 0
  }

  /** Assertions first reported: since the last reset or clearing, or ever. */
  ghost function NewAssertions(ops: seq<Op>, ever: bool): nat {
    if ops == [] then 0
    else
      var init, op := ops[..|ops| - 1], ops[|ops| - 1];
      if !ever && (ResetsStep(op) || op.ClearAssertsOp?) then 0
      else NewAssertions(init, ever) + if op.AssertionOp? && Unseen(init, op.key) then 1 else 0
  }

  ghost predicate NovelMaximum(c: Cov, op: Op) {
    op.GuideOp? && op.guidanceType == "maximize" && Novel(c, op.name, op.value)
  }

  ghost predicate NovelExplore(c: Cov, hash: Hash, op: Op)
    requires Sized(c)
  {
    match op
    case GuideOp(g, name, v) => g == "explore" && c.virgin[hash(Explore(name, v)) % |c.bitmap|] == 255
    case BranchOp(a, b) => c.virgin[hash(Branch(a, b)) % |c.bitmap|] == 255
    case _ => false
  }

  ghost predicate NovelAssertion(c: Cov, op: Op) { op.AssertionOp? && op.key !in c.seenAsserts }

  function Added(n: nat, more: bool): nat { if more then n + 1 else n }

  /** One operation's effect on the step counters, with novelty read off the state. */
  lemma ApplyCounters(c: Cov, hash: Hash, op: Op, r: Cov)
    requires Sized(c) && r == Apply(c, hash, op)
    ensures r.stepNewMax == if ResetsStep(op) then 0 else Added(c.stepNewMax, NovelMaximum(c, op))
    ensures r.stepNewExplore == if ResetsStep(op) then 0 else Added(c.stepNewExplore, NovelExplore(c, hash, op))
    ensures r.stepNewAsserts ==
            if ResetsStep(op) || op.ClearAssertsOp? then 0 else Added(c.stepNewAsserts, NovelAssertion(c, op))
    ensures r.assertionCount == Added(c.assertionCount, NovelAssertion(c, op))
  {
    match op
    case UpdateOp(edges) => UpdateRest(c, edges, InRange(c, edges), r);
    case ImportOp(corpus) => ImportRest(c, corpus, r);
    case _ =>
  }

  /** The step counters count the novel signals since the last reset, the assertion count all first reports. */
  lemma {:induction false} CountersOverRun(size: nat, hash: Hash, ops: seq<Op>, r: Cov)
    requires size > 0 && r == Run(Fresh(size), hash, ops)
    ensures r.stepNewMax == NewMaxima(ops) && r.stepNewExplore == NewExplores(size, hash, ops)
    ensures r.stepNewAsserts == NewAssertions(ops, false) && r.assertionCount == NewAssertions(ops, true)
    decreases |ops|
  {
    if ops != [] {
      var n := |ops| - 1;
      var init, op := ops[..n], ops[n];
      var c := Run(Fresh(size), hash, init);
      CountersOverRun(size, hash, init, c);
      ApplyCounters(c, hash, op, r);
      NoveltyFromList(size, hash, init, op);
      match op
      case GuideOp(g, name, v) => SlotsOverRun(size, hash, init, hash(Explore(name, v)) % size);
      case BranchOp(a, b) => SlotsOverRun(size, hash, init, hash(Branch(a, b)) % size);
      case _ =>
    }
  }
}
