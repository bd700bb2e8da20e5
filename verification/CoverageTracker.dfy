/** The coverage tracker object: three parallel arrays, two maps and the counters, updated in
    place, each method proved to perform the operation of the same name on its view. */
module CoverageTracking {
  import opened Common
  import opened Coverage
  import KeyOrder

  class CoverageTracker {
    const hash: Hash
    var bitmap: array<Byte>
    var virgin: array<Byte>
    var edgeHits: array<nat>
    var totalEdges: nat
    var newEdges: nat
    var corpusEdges: nat
    var maxMap: map<string, int>
    var seenAsserts: set<string>
    var assertionCount: nat
    var stepNewMax: nat
    var stepNewExplore: nat
    var stepNewAsserts: nat
    var stepEdgeRarity: real

    ghost function View(): Cov
      reads this, bitmap, virgin, edgeHits
    {
      Cov(bitmap[..], virgin[..], edgeHits[..], totalEdges, newEdges, corpusEdges, maxMap, seenAsserts,
          assertionCount, stepNewMax, stepNewExplore, stepNewAsserts, stepEdgeRarity)
    }

    ghost predicate Valid()
      reads this, bitmap, virgin, edgeHits
    {
      bitmap != virgin && Inv(View())
    }

    constructor (size: nat, hash: Hash)
      requires size > 0
      ensures Valid() && View() == Fresh(size) && this.hash == hash
      ensures fresh(bitmap) && fresh(virgin) && fresh(edgeHits)
    {
      this.hash := hash;
      bitmap := new Byte[size](_ => 0);
      virgin := new Byte[size](_ => 255);
      edgeHits := new nat[size](_ => 0);
      totalEdges, newEdges, corpusEdges := 0, 0, 0;
      maxMap, seenAsserts, assertionCount := map[], {}, 0;
      stepNewMax, stepNewExplore, stepNewAsserts, stepEdgeRarity := 0, 0, 0, 0.0;
      new;
      assert bitmap[..] == Fresh(size).bitmap && virgin[..] == Fresh(size).virgin && edgeHits[..] == Fresh(size).edgeHits;
      FreshInv(size);
    }

    method HitOne(i: nat, v: Byte, ghost next: Cov) returns (isNew: bool)
      requires Valid() && i < bitmap.Length && next == HitSlot(View(), i, v)
      modifies this`totalEdges, this`newEdges, this`stepEdgeRarity, bitmap, virgin, edgeHits
      ensures View() == next && isNew == NewAt(old(View()), i, v)
      ensures Valid()
    {
      HitSlotKeeps(View(), i, v, next);
      if v == 0 {
        return false;
      }
      var seen := bitmap[i];
      if seen == 0 {
        totalEdges := totalEdges + 1;
      }
      var sum := seen + v;
      bitmap[i] := if sum > 255 then 255 else sum;
      edgeHits[i] := (edgeHits[i] + 1) % 0x1_0000_0000;
      isNew := false;
      if virgin[i] != 0 {
        if HitBucket(seen) != HitBucket(bitmap[i]) || seen == 0 {
          virgin[i] := 0;
          newEdges := newEdges + 1;
          isNew := true;
          stepEdgeRarity := stepEdgeRarity + Reciprocal(edgeHits[i]);
        }
      }
    }

    method HitNext(ghost c: Cov, edges: seq<Byte>, i: nat, found: bool) returns (foundNew: bool)
      requires Valid() && Sized(c) && i < InRange(c, edges) && i < bitmap.Length
      requires View() == HitSlots(c, edges, i) && found == FoundNew(c, edges, i)
      modifies this`totalEdges, this`newEdges, this`stepEdgeRarity, bitmap, virgin, edgeHits
      ensures View() == HitSlots(c, edges, i + 1) && foundNew == FoundNew(c, edges, i + 1) && Valid()
    {
      UpdateStep(c, edges, i);
      var isNew := HitOne(i, edges[i], HitSlots(c, edges, i + 1));
      foundNew := found || isNew;
    }

    method HitAll(edges: seq<Byte>) returns (foundNew: bool)
      requires Valid()
      modifies this`totalEdges, this`newEdges, this`stepEdgeRarity, bitmap, virgin, edgeHits
      ensures View() == Update(old(View()), edges) && Valid()
      ensures foundNew == FoundNew(old(View()), edges, InRange(old(View()), edges))
    {
      ghost var c := View();
      foundNew := false;
      var i := 0;
      while i < |edges| && i < bitmap.Length
        invariant 0 <= i <= InRange(c, edges) && Valid()
        invariant View() == HitSlots(c, edges, i) && foundNew == FoundNew(c, edges, i)
      {
        foundNew := HitNext(c, edges, i, foundNew);
        i := i + 1;
      }
    }

    method UpdateEdges(edges: seq<Byte>) returns (foundNew: bool)
      requires Valid()
      modifies this`totalEdges, this`newEdges, this`stepEdgeRarity, bitmap, virgin, edgeHits
      ensures View() == Update(old(View()), edges) && Valid()
      ensures foundNew <==> exists i :: FirstHitAt(old(View()), edges, i)
    {
      UpdateFinds(View(), edges);
      foundNew := HitAll(edges);
    }

    method AnyNewEdge(edges: seq<Byte>) returns (found: bool)
      requires Valid()
      ensures found <==> HasNewEdge(View(), edges)
    {
      var i := 0;
      while i < |edges| && i < bitmap.Length
        invariant 0 <= i <= InRange(View(), edges)
        invariant forall k :: 0 <= k < i && edges[k] != 0 ==>
          bitmap[k] != 0 && HitBucket(bitmap[k]) == HitBucket(AddSat(bitmap[k], edges[k]))
      {
        if edges[i] != 0 {
          if bitmap[i] == 0 {
            return true;
          }
          if HitBucket(bitmap[i]) != HitBucket(AddSat(bitmap[i], edges[i])) {
            return true;
          }
        }
        i := i + 1;
      }
      return false;
    }

    method MarkSlot(pos: nat) returns (marked: bool)
      requires Valid() && pos < bitmap.Length
      modifies this`totalEdges, this`newEdges, bitmap, virgin
      ensures View() == Mark(old(View()), pos) && marked == (old(virgin[pos]) == 255) && Valid()
    {
      MarkKeeps(View(), pos);
      marked := virgin[pos] == 255;
      if marked {
        virgin[pos] := 0;
        bitmap[pos] := 1;
        totalEdges := totalEdges + 1;
        newEdges := newEdges + 1;
      }
    }

    /** Explore guidance and random branches. */
    method RecordSignal(s: Signal) returns (novel: bool)
      requires Valid()
      modifies this, bitmap, virgin
      ensures unchanged(this`bitmap) && unchanged(this`virgin) && unchanged(this`edgeHits)
      ensures View() == ExploreSignal(old(View()), hash, s) && Valid()
      ensures novel == (old(View()).virgin[SlotOf(old(View()), hash, s)] == 255)
    {
      ExploreKeeps(View(), hash, s);
      var pos := hash(s) % bitmap.Length;
      novel := MarkSlot(pos);
      if novel {
        stepNewExplore := stepNewExplore + 1;
      }
    }

    method RecordMaximum(name: string, value: int) returns (novel: bool)
      requires Valid()
      modifies this, bitmap, virgin
      ensures unchanged(this`bitmap) && unchanged(this`virgin) && unchanged(this`edgeHits)
      ensures View() == Maximize(old(View()), hash, name, value) && Valid()
      ensures novel <==> name !in old(maxMap) || value > old(maxMap)[name]
    {
      MaximizeKeeps(View(), hash, name, value);
      if name in maxMap && value <= maxMap[name] {
        return false;
      }
      SameArrays(View(), View().(maxMap := maxMap[name := value], stepNewMax := stepNewMax + 1));
      maxMap := maxMap[name := value];
      stepNewMax := stepNewMax + 1;
      var pos := hash(Maximum(name, BucketOf(value))) % bitmap.Length;
      var _ := MarkSlot(pos);
      return true;
    }

    method UpdateGuidance(guidanceType: string, name: string, value: int) returns (novel: bool)
      requires Valid()
      modifies this, bitmap, virgin
      ensures unchanged(this`bitmap) && unchanged(this`virgin) && unchanged(this`edgeHits) && Valid()
      ensures View() == Guide(old(View()), hash, guidanceType, name, value)
      ensures novel <==>
        || (guidanceType == "explore" && old(View()).virgin[SlotOf(old(View()), hash, Explore(name, value))] == 255)
        || (guidanceType == "maximize" && (name !in old(maxMap) || value > old(maxMap)[name]))
    {
      if guidanceType == "explore" {
        novel := RecordSignal(Explore(name, value));
      } else if guidanceType == "maximize" {
        novel := RecordMaximum(name, value);
      } else {
        novel := false;
      }
    }

    method RecordAssertionNovelty(key: string) returns (novel: bool)
      requires Valid()
      modifies this, bitmap, virgin
      ensures unchanged(this`bitmap) && unchanged(this`virgin) && unchanged(this`edgeHits)
      ensures View() == SeeAssertion(old(View()), hash, key) && Valid()
      ensures novel <==> key !in old(seenAsserts)
    {
      AssertionKeeps(View(), hash, key);
      if key in seenAsserts {
        return false;
      }
      SameArrays(View(), View().(seenAsserts := seenAsserts + {key}, stepNewAsserts := stepNewAsserts + 1,
                                 assertionCount := assertionCount + 1));
      seenAsserts := seenAsserts + {key};
      stepNewAsserts := stepNewAsserts + 1;
      assertionCount := assertionCount + 1;
      var pos := hash(Assertion(key)) % bitmap.Length;
      var _ := MarkSlot(pos);
      return true;
    }

    method ResetStepNovelty()
      requires Valid()
      modifies this`stepNewMax, this`stepNewExplore, this`stepNewAsserts, this`stepEdgeRarity
      ensures View() == ResetStep(old(View())) && Valid()
    {
      SameArrays(View(), ResetStep(View()));
      stepNewMax, stepNewExplore, stepNewAsserts, stepEdgeRarity := 0, 0, 0, 0.0;
    }

    method ClearVirgin()
      modifies virgin
      ensures virgin[..] == Bytes(virgin.Length, 255)
    {
      for i := 0 to virgin.Length
        invariant forall k :: 0 <= k < i ==> virgin[k] == 255
      {
        virgin[i] := 255;
      }
    }

    method ClearCounts()
      modifies this`bitmap, this`edgeHits
      ensures fresh(bitmap) && fresh(edgeHits)
      ensures bitmap[..] == Bytes(virgin.Length, 0) && edgeHits[..] == NoHits(virgin.Length)
    {
      bitmap := new Byte[virgin.Length](_ => 0);
      edgeHits := new nat[virgin.Length](_ => 0);
    }

    method ResetCoverage()
      requires Valid()
      modifies this, virgin
      ensures View() == ResetBitmap(old(View())) && Valid()
      ensures virgin == old(virgin) && fresh(bitmap) && fresh(edgeHits)
    {
      ghost var c := View();
      ClearCounts();
      ClearVirgin();
      totalEdges, newEdges := 0, 0;
      stepNewMax, stepNewExplore, stepNewAsserts, stepEdgeRarity := 0, 0, 0, 0.0;
      ResetBitmapKeeps(c);
    }

    method ImportOne(i: nat, v: Byte)
      requires Valid() && i < bitmap.Length
      modifies this`totalEdges, bitmap, virgin
      ensures View() == ImportSlot(old(View()), i, v) && Valid()
    {
      ImportSlotKeeps(View(), i, v, ImportSlot(View(), i, v));
      if v == 0 {
        return;
      }
      if bitmap[i] == 0 {
        totalEdges := totalEdges + 1;
      }
      var sum := bitmap[i] + v;
      bitmap[i] := if sum > 255 then 255 else sum;
      virgin[i] := 0;
    }

    method ImportMaxima(other: map<string, int>)
      modifies this`maxMap
      ensures maxMap == MergeMax(old(maxMap), other)
    {
      var rest := other.Keys;
      ghost var done: map<string, int> := map[];
      while rest != {}
        invariant rest <= other.Keys && done == other - rest
        invariant maxMap == MergeMax(old(maxMap), done)
        decreases |rest|
      {
        var k :| k in rest;
        MergeMaxStep(old(maxMap), done, k, other[k]);
        if k !in maxMap || other[k] > maxMap[k] {
          maxMap := maxMap[k := other[k]];
        }
        OneFewer(other, rest, k);
        rest, done := rest - {k}, done[k := other[k]];
      }
      assert other - {} == other;
    }

    method ImportBitmap(bm: seq<Byte>)
      requires Valid()
      modifies this`totalEdges, bitmap, virgin
      ensures View() == ImportSlots(old(View()), bm, InRange(old(View()), bm)) && Valid()
    {
      ghost var c := View();
      var i := 0;
      while i < |bm| && i < bitmap.Length
        invariant 0 <= i <= InRange(c, bm) && Valid()
        invariant View() == ImportSlots(c, bm, i)
      {
        ImportOne(i, bm[i]);
        i := i + 1;
      }
    }

    method ImportAsserts(keys: seq<string>)
      modifies this`seenAsserts
      ensures seenAsserts == old(seenAsserts) + set k | k in keys
    {
      for i := 0 to |keys|
        invariant seenAsserts == old(seenAsserts) + set k | k in keys[..i]
      {
        seenAsserts := seenAsserts + {keys[i]};
      }
      assert keys[..|keys|] == keys;
    }

    method ImportCorpus(corpus: Corpus)
      requires Valid()
      modifies this`totalEdges, this`maxMap, this`seenAsserts, this`corpusEdges, bitmap, virgin
      ensures View() == Import(old(View()), corpus) && Valid()
    {
      ghost var c := View();
      ImportBitmap(corpus.bitmap);
      ghost var b := View();
      ImportSlotsRest(c, corpus.bitmap, InRange(c, corpus.bitmap));
      ImportMaxima(corpus.maxMap);
      ImportAsserts(corpus.seenAsserts);
      corpusEdges := totalEdges;
      SameArrays(b, View());
    }

    method Export() returns (corpus: Corpus)
      requires Valid()
      ensures IsExport(View(), corpus)
    {
      var listing := KeyOrder.SortKeys(seenAsserts);
      corpus := Corpus(1, totalEdges, corpusEdges, bitmap[..], maxMap, listing);
    }
  }
}
