/** The read-only shrink endpoint: ancestry paths over recorded parent links, the
    reachability oracle over the same links, and their composition with the path search. */
module Ancestry {
  import opened Common
  import opened ParentLinks
  import opened Shrink

  datatype NodeInfo = NodeInfo(id: Id, parentId: Id, depth: nat)

  type Index = map<Id, NodeInfo>

  /** The snapshot index; a later record of the same id replaces an earlier one. */
  function IndexById(moments: seq<NodeInfo>): Index {
    if moments == [] then map[]
    else IndexById(moments[..|moments| - 1])[moments[|moments| - 1].id := moments[|moments| - 1]]
  }

  /** Record i is the last one with its id. */
  ghost predicate IsLast(moments: seq<NodeInfo>, id: Id, i: nat) {
    i < |moments| && moments[i].id == id && forall j :: i < j < |moments| ==> moments[j].id != id
  }

  /** An id is indexed exactly when it is recorded, and then by its last record. */
  lemma {:induction false} IndexHoldsLast(moments: seq<NodeInfo>, id: Id)
    ensures id in IndexById(moments) <==> exists i: nat :: IsLast(moments, id, i)
    ensures forall i: nat :: IsLast(moments, id, i) ==> id in IndexById(moments) && IndexById(moments)[id] == moments[i]
  {
    if moments != [] {
      var last := |moments| - 1;
      var init := moments[..last];
      IndexHoldsLast(init, id);
      if moments[last].id == id {
        assert IsLast(moments, id, last);
      } else {
        assert forall i: nat :: IsLast(moments, id, i) <==> IsLast(init, id, i);
      }
    }
  }

  /** The links followed by the reachability walk that looks for s: it stops at s and at a self-parent. */
  function UpTo(byId: Index, s: Id): Links {
    map id | id in byId && id != s && byId[id].parentId != id :: byId[id].parentId
  }

  /** The links followed when building the path, which also stops at a zero parent. */
  function PathLinks(byId: Index): Links {
    map id | id in byId && byId[id].parentId != id && byId[id].parentId != 0 :: byId[id].parentId
  }

  /** The path from the root to the target. */
  function PathTo(byId: Index, target: Id): seq<Id>
    requires Ends(PathLinks(byId), target)
    decreases Steps(PathLinks(byId), target)
  {
    if target !in byId then []
    else
      var parent := byId[target].parentId;
      if parent == target || parent == 0 then [target]
      else EndsNext(PathLinks(byId), target); PathTo(byId, parent) + [target]
  }

  /** Whether s is met when walking parent links from v. */
  predicate Meets(byId: Index, v: Id, s: Id)
    requires Ends(UpTo(byId, s), v)
    decreases Steps(UpTo(byId, s), v)
  {
    v == s ||
    (v in byId && byId[v].parentId != v && (EndsNext(UpTo(byId, s), v); Meets(byId, byId[v].parentId, s)))
  }

  /** The walks from all violating snapshots that look for s end. */
  predicate AllSettle(byId: Index, violating: set<Id>, s: Id) {
    forall v :: v in violating ==> Ends(UpTo(byId, s), v)
  }

  predicate Reachable(byId: Index, violating: set<Id>, s: Id)
    requires AllSettle(byId, violating, s)
  {
    exists v :: v in violating && Meets(byId, v, s)
  }

  method BuildIndex(moments: seq<NodeInfo>) returns (byId: Index)
    ensures byId == IndexById(moments)
    ensures forall id, i: nat :: IsLast(moments, id, i) ==> id in byId && byId[id] == moments[i]
    ensures forall id :: id in byId ==> exists i: nat :: IsLast(moments, id, i)
  {
    byId := map[];
    for i := 0 to |moments|
      invariant byId == IndexById(moments[..i])
    {
      byId := byId[moments[i].id := moments[i]];
      assert moments[..i + 1][..i] == moments[..i];
    }
    assert moments[..|moments|] == moments;
    forall id {
      IndexHoldsLast(moments, id);
    }
  }

  function Reversed(s: seq<Id>): (r: seq<Id>)
    ensures |r| == |s| && forall i :: 0 <= i < |s| ==> r[i] == s[|s| - 1 - i]
  {
    if s == [] then [] else Reversed(s[1..]) + [s[0]]
  }

  method Reverse(walked: seq<Id>) returns (path: seq<Id>)
    ensures path == Reversed(walked)
  {
    path := walked;
    var i, j := 0, |path| - 1;
    while i < j
      invariant 0 <= i <= j + 1 && i + j == |walked| - 1 && |path| == |walked|
      invariant forall k :: 0 <= k < i ==> path[k] == walked[|walked| - 1 - k] && path[|walked| - 1 - k] == walked[k]
      invariant forall k :: i <= k <= j ==> path[k] == walked[k]
    {
      path := path[i := path[j]][j := path[i]];
      i, j := i + 1, j - 1;
    }
  }

  method BuildAncestryPath(moments: seq<NodeInfo>, target: Id) returns (path: seq<Id>)
    requires Ends(PathLinks(IndexById(moments)), target)
    ensures path == PathTo(IndexById(moments), target)
  {
    var byId := BuildIndex(moments);
    path := [];
    var cur := target;
    while true
      invariant Ends(PathLinks(byId), cur)
      invariant PathTo(byId, target) == PathTo(byId, cur) + Reversed(path)
      decreases Steps(PathLinks(byId), cur)
    {
      if cur !in byId {
        break;
      }
      ghost var before := path;
      path := path + [cur];
      assert Reversed(path) == [cur] + Reversed(before);
      if byId[cur].parentId == cur || byId[cur].parentId == 0 {
        assert PathTo(byId, target) == Reversed(path);
        break;
      }
      EndsNext(PathLinks(byId), cur);
      cur := byId[cur].parentId;
    }
    path := Reverse(path);
  }

  method IsViolationReachableFrom(moments: seq<NodeInfo>, violating: set<Id>, s: Id) returns (found: bool)
    requires AllSettle(IndexById(moments), violating, s)
    ensures found <==> Reachable(IndexById(moments), violating, s)
  {
    var byId := BuildIndex(moments);
    var rest := violating;
    while rest != {}
      invariant rest <= violating
      invariant forall v :: v in violating - rest ==> !Meets(byId, v, s)
      decreases |rest|
    {
      var v :| v in rest;
      var cur := v;
      while true
        invariant Ends(UpTo(byId, s), cur)
        invariant Meets(byId, v, s) <==> Meets(byId, cur, s)
        decreases Steps(UpTo(byId, s), cur)
      {
        if cur == s {
          return true;
        }
        if cur !in byId || byId[cur].parentId == cur {
          break;
        }
        EndsNext(UpTo(byId, s), cur);
        cur := byId[cur].parentId;
      }
      rest := rest - {v};
    }
    return false;
  }

  // ---------------------------------------------------------------- what the oracle means

  /** A chain of parent links, descendant first. */
  ghost predicate IsChain(byId: Index, c: seq<Id>) {
    && c != []
    && forall i :: 0 <= i < |c| - 1 ==> c[i] in byId && c[i + 1] == byId[c[i]].parentId && c[i + 1] != c[i]
  }

  ghost predicate IsAncestorOrSelf(byId: Index, s: Id, v: Id) {
    exists c :: IsChain(byId, c) && c[0] == v && c[|c| - 1] == s
  }

  lemma {:induction false} MeetsHasChain(byId: Index, v: Id, s: Id) returns (c: seq<Id>)
    requires Ends(UpTo(byId, s), v) && Meets(byId, v, s)
    ensures IsChain(byId, c) && c[0] == v && c[|c| - 1] == s
    decreases Steps(UpTo(byId, s), v)
  {
    if v == s {
      c := [v];
    } else {
      EndsNext(UpTo(byId, s), v);
      var tail := MeetsHasChain(byId, byId[v].parentId, s);
      c := [v] + tail;
    }
  }

  lemma {:induction false} ChainMeets(byId: Index, c: seq<Id>, s: Id)
    requires IsChain(byId, c) && c[|c| - 1] == s && Ends(UpTo(byId, s), c[0])
    ensures Meets(byId, c[0], s)
    decreases |c|
  {
    if c[0] != s {
      assert c[1] == byId[c[0]].parentId;
      EndsNext(UpTo(byId, s), c[0]);
      ChainMeets(byId, c[1..], s);
    }
  }

  /** Nothing before the end of the chain is s. */
  ghost predicate LooksFor(c: seq<Id>, s: Id) { forall i :: 0 <= i < |c| - 1 ==> c[i] != s }

  lemma ChainIsWalk(byId: Index, c: seq<Id>, s: Id)
    ensures IsChain(byId, c) && LooksFor(c, s) <==> IsWalk(UpTo(byId, s), c)
  {
    if IsChain(byId, c) && LooksFor(c, s) {
      forall i | 0 <= i < |c| - 1
        ensures c[i] in UpTo(byId, s) && c[i + 1] == UpTo(byId, s)[c[i]]
      {
        assert c[i] in byId && c[i + 1] == byId[c[i]].parentId && c[i + 1] != c[i];
      }
    }
    if IsWalk(UpTo(byId, s), c) {
      assert forall i :: 0 <= i < |c| - 1 ==> c[i] in byId && c[i + 1] == byId[c[i]].parentId && c[i + 1] != c[i];
    }
  }

  /** The walk from v that looks for s ends exactly when no chain of parent links from v comes back to a
      snapshot before it has met s: only self-parents may close a loop. */
  lemma WalkEndsIff(byId: Index, v: Id, s: Id)
    ensures Ends(UpTo(byId, s), v) <==>
            forall c: seq<Id> :: IsChain(byId, c) && c[0] == v && LooksFor(c, s) ==> Distinct(c)
  {
    EndsIff(UpTo(byId, s), v);
    forall c: seq<Id>
      ensures IsChain(byId, c) && LooksFor(c, s) <==> IsWalk(UpTo(byId, s), c)
    {
      ChainIsWalk(byId, c, s);
    }
  }

  /** Recorded depths that grow from parent to child make every walk end. */
  lemma GrowingDepthsEnd(byId: Index, v: Id, s: Id)
    requires forall id :: id in byId && byId[id].parentId != id && byId[id].parentId in byId ==>
      byId[byId[id].parentId].depth < byId[id].depth
    ensures Ends(UpTo(byId, s), v) && Ends(PathLinks(byId), v)
  {
    var height := (id: nat) => if id in byId then byId[id].depth + 1 else 0;
    FallingRankEnds(UpTo(byId, s), height, v);
    FallingRankEnds(PathLinks(byId), height, v);
  }

  /** The oracle answers yes exactly when some violating snapshot has s as itself or an ancestor. */
  lemma OracleMeaning(byId: Index, violating: set<Id>, s: Id)
    requires AllSettle(byId, violating, s)
    ensures Reachable(byId, violating, s) <==> exists v :: v in violating && IsAncestorOrSelf(byId, s, v)
  {
    forall v | v in violating
      ensures Meets(byId, v, s) <==> IsAncestorOrSelf(byId, s, v)
    {
      if Meets(byId, v, s) {
        var c := MeetsHasChain(byId, v, s);
      }
      if IsAncestorOrSelf(byId, s, v) {
        var c :| IsChain(byId, c) && c[0] == v && c[|c| - 1] == s;
        ChainMeets(byId, c, s);
      }
    }
  }

  lemma {:induction false} MeetsTransitive(byId: Index, v: Id, t: Id, s: Id)
    requires Ends(UpTo(byId, t), v) && Meets(byId, v, t)
    requires Ends(UpTo(byId, s), v) && Ends(UpTo(byId, s), t) && Meets(byId, t, s)
    ensures Meets(byId, v, s)
    decreases Steps(UpTo(byId, t), v)
  {
    if v != t && v != s {
      EndsNext(UpTo(byId, t), v);
      EndsNext(UpTo(byId, s), v);
      MeetsTransitive(byId, byId[v].parentId, t, s);
    }
  }

  /** From the target every element of its path is met. */
  lemma {:induction false} PathMeets(byId: Index, target: Id, i: nat)
    requires Ends(PathLinks(byId), target) && i < |PathTo(byId, target)|
    ensures var s := PathTo(byId, target)[i];
      Ends(UpTo(byId, s), target) && Meets(byId, target, s)
    decreases Steps(PathLinks(byId), target)
  {
    var parent, s := byId[target].parentId, PathTo(byId, target)[i];
    if s != target {
      EndsNext(PathLinks(byId), target);
      PathMeets(byId, parent, i);
      EndsBack(UpTo(byId, s), target);
    }
  }

  /** Every element of the built path inherits reachability from the target. */
  lemma ReachabilityInherited(byId: Index, violating: set<Id>, target: Id, i: nat)
    requires Ends(PathLinks(byId), target) && i < |PathTo(byId, target)|
    requires AllSettle(byId, violating, target) && AllSettle(byId, violating, PathTo(byId, target)[i])
    requires Reachable(byId, violating, target)
    ensures Reachable(byId, violating, PathTo(byId, target)[i])
  {
    var v :| v in violating && Meets(byId, v, target);
    PathMeets(byId, target, i);
    MeetsTransitive(byId, v, target, PathTo(byId, target)[i]);
  }

  /** The path really is a chain of links: it ends in the target, each element is the recorded
      parent of the next, and its head is a root (a self-parent, a zero parent, or a snapshot
      whose parent was not recorded).  No other element is a self-parent or has a zero parent. */
  lemma {:induction false} PathShape(byId: Index, target: Id)
    requires Ends(PathLinks(byId), target)
    ensures var p := PathTo(byId, target);
      && (p == [] <==> target !in byId)
      && (forall i :: 0 <= i < |p| ==> p[i] in byId)
      && (forall i :: 0 <= i < |p| - 1 ==> p[i] == byId[p[i + 1]].parentId)
      && (forall i :: 0 < i < |p| ==> byId[p[i]].parentId != p[i] && byId[p[i]].parentId != 0)
      && (p != [] ==> p[|p| - 1] == target &&
                      (byId[p[0]].parentId == p[0] || byId[p[0]].parentId == 0 || byId[p[0]].parentId !in byId))
    decreases Steps(PathLinks(byId), target)
  {
    if target in byId && byId[target].parentId != target && byId[target].parentId != 0 {
      EndsNext(PathLinks(byId), target);
      PathShape(byId, byId[target].parentId);
    }
  }

  // ---------------------------------------------------------------- the endpoint

  /** The walks for s end and reach it. */
  predicate Reproduces(byId: Index, violating: set<Id>, s: Id) {
    AllSettle(byId, violating, s) && Reachable(byId, violating, s)
  }

  function ReadOnlyOracle(byId: Index, violating: set<Id>, cancelled: nat -> bool): Oracle<Id> {
    Oracle((k: nat, s: Id) => if Reproduces(byId, violating, s) then Yes else No, cancelled)
  }

  /** Every snapshot a bisection asks about can be answered. */
  predicate BisectSettles(byId: Index, violating: set<Id>, path: seq<Id>, cancelled: nat -> bool,
                          lo: nat, hi: nat, k: nat)
    requires lo <= hi < |path|
    decreases hi - lo
  {
    lo == hi || cancelled(k) ||
    var mid := (lo + hi) / 2;
    && AllSettle(byId, violating, path[mid])
    && if Reproduces(byId, violating, path[mid]) then BisectSettles(byId, violating, path, cancelled, lo, mid, k + 1)
       else BisectSettles(byId, violating, path, cancelled, mid + 1, hi, k + 1)
  }

  /** Every snapshot the endpoint asks about can be answered: exactly then its search ends. */
  predicate SearchSettles(byId: Index, violating: set<Id>, target: Id, cancelled: nat -> bool)
    requires Ends(PathLinks(byId), target)
  {
    var path := PathTo(byId, target);
    |path| <= 1 ||
    (&& AllSettle(byId, violating, path[|path| - 1])
     && (Reproduces(byId, violating, path[|path| - 1]) ==>
           BisectSettles(byId, violating, path, cancelled, 0, |path| - 1, 1)))
  }

  datatype Response = NoPath | Shrunk(minimal: Id, originalDepth: nat, rounds: nat)

  lemma {:induction false} AcyclicBisectSettles(byId: Index, violating: set<Id>, path: seq<Id>, cancelled: nat -> bool,
                                                lo: nat, hi: nat, k: nat)
    requires lo <= hi < |path| && forall i :: 0 <= i < |path| ==> AllSettle(byId, violating, path[i])
    ensures BisectSettles(byId, violating, path, cancelled, lo, hi, k)
    decreases hi - lo
  {
    if lo < hi {
      var mid := (lo + hi) / 2;
      if Reproduces(byId, violating, path[mid]) {
        AcyclicBisectSettles(byId, violating, path, cancelled, lo, mid, k + 1);
      } else {
        AcyclicBisectSettles(byId, violating, path, cancelled, mid + 1, hi, k + 1);
      }
    }
  }

  /** Violating snapshots whose parent chains never come back settle every search. */
  lemma AcyclicSettles(byId: Index, violating: set<Id>, target: Id, cancelled: nat -> bool)
    requires Ends(PathLinks(byId), target)
    requires forall v, c: seq<Id> :: v in violating && IsChain(byId, c) && c[0] == v ==> Distinct(c)
    ensures SearchSettles(byId, violating, target, cancelled)
  {
    var path := PathTo(byId, target);
    forall i | 0 <= i < |path|
      ensures AllSettle(byId, violating, path[i])
    {
      forall v | v in violating
        ensures Ends(UpTo(byId, path[i]), v)
      {
        WalkEndsIff(byId, v, path[i]);
      }
    }
    if |path| > 1 {
      AcyclicBisectSettles(byId, violating, path, cancelled, 0, |path| - 1, 1);
    }
  }

  /** Uncancelled, the bisection of a reproducing target goes all the way to the head. */
  lemma {:induction false} BisectToHead(byId: Index, violating: set<Id>, target: Id, cancelled: nat -> bool,
                                        hi: nat, k: nat)
    requires Ends(PathLinks(byId), target) && hi < |PathTo(byId, target)|
    requires Reproduces(byId, violating, target) && forall j: nat :: !cancelled(j)
    requires BisectSettles(byId, violating, PathTo(byId, target), cancelled, 0, hi, k)
    ensures Bisect(PathTo(byId, target), ReadOnlyOracle(byId, violating, cancelled), 0, hi, k).index == 0
    decreases hi
  {
    if hi > 0 {
      ReachabilityInherited(byId, violating, target, hi / 2);
      BisectToHead(byId, violating, target, cancelled, hi / 2, k + 1);
    }
  }

  /** Whatever stops the search, a last element that does not reproduce is returned, and for one that does
      the answer reproduces. */
  lemma SearchReproduces(byId: Index, violating: set<Id>, path: seq<Id>, cancelled: nat -> bool)
    requires path != []
    ensures var r, last := PathSearch(path, ReadOnlyOracle(byId, violating, cancelled)), path[|path| - 1];
      && r.index < |path|
      && (Reproduces(byId, violating, last) ==> Reproduces(byId, violating, path[r.index]))
      && (!Reproduces(byId, violating, last) ==> path[r.index] == last)
  {
    var oracle := ReadOnlyOracle(byId, violating, cancelled);
    var r := PathSearch(path, oracle);
    PathSearchSafe(path, oracle);
    if r.index != |path| - 1 {
      var j: nat :| j < r.rounds && oracle.answer(j, path[r.index]) == Yes;
    }
  }

  lemma HeadFound(byId: Index, violating: set<Id>, target: Id, cancelled: nat -> bool)
    requires target in byId && Ends(PathLinks(byId), target) && SearchSettles(byId, violating, target, cancelled)
    requires Reproduces(byId, violating, target) && forall j: nat :: !cancelled(j)
    ensures var path := PathTo(byId, target);
      path != [] && PathSearch(path, ReadOnlyOracle(byId, violating, cancelled)).index == 0
  {
    var path := PathTo(byId, target);
    PathShape(byId, target);
    if |path| > 1 {
      BisectToHead(byId, violating, target, cancelled, |path| - 1, 1);
    }
  }

  /** The composed search: a target that does not reproduce is returned as it is; one that
      does is shrunk to the head of its path, whatever the path looks like, because the
      oracle holds on all of it.  Cancellation can only stop the search earlier. */
  lemma EndpointAnswer(byId: Index, violating: set<Id>, target: Id, cancelled: nat -> bool)
    requires target in byId && Ends(PathLinks(byId), target) && SearchSettles(byId, violating, target, cancelled)
    ensures var path := PathTo(byId, target);
      && path != []
      && var r := PathSearch(path, ReadOnlyOracle(byId, violating, cancelled));
      && r.index < |path|
      && (Reproduces(byId, violating, target) ==> Reproduces(byId, violating, path[r.index]))
      && (!Reproduces(byId, violating, target) ==> path[r.index] == target)
      && ((forall k: nat :: !cancelled(k)) && Reproduces(byId, violating, target) ==> r.index == 0)
  {
    var path := PathTo(byId, target);
    PathShape(byId, target);
    SearchReproduces(byId, violating, path, cancelled);
    if Reproduces(byId, violating, target) && forall k: nat :: !cancelled(k) {
      HeadFound(byId, violating, target, cancelled);
    }
  }

  /** The endpoint: with the read-only oracle, a reproducing target is always reported at the
      head of its path and any other target at itself; a cancelled request may stop earlier
      but still reports a snapshot that reproduces whenever the target does. */
  method HandleSessionShrink(moments: seq<NodeInfo>, violating: set<Id>, target: Id, cancelled: nat -> bool)
    returns (response: Response)
    requires Ends(PathLinks(IndexById(moments)), target)
    requires SearchSettles(IndexById(moments), violating, target, cancelled)
    ensures response.NoPath? <==> target !in IndexById(moments)
    ensures response.Shrunk? ==>
      var byId := IndexById(moments);
      var path := PathTo(byId, target);
      && path != [] && response.originalDepth == |path| && response.minimal in path
      && response.rounds <= 1 + CeilLog2(|path|)
      && (Reproduces(byId, violating, target) ==> Reproduces(byId, violating, response.minimal))
      && (!Reproduces(byId, violating, target) ==> response.minimal == target)
      && ((forall k: nat :: !cancelled(k)) && Reproduces(byId, violating, target) ==> response.minimal == path[0])
  {
    var path := BuildAncestryPath(moments, target);
    ghost var byId0 := IndexById(moments);
    PathShape(byId0, target);
    if |path| == 0 {
      return NoPath;
    }
    var byId := BuildIndex(moments);
    var oracle := ReadOnlyOracle(byId, violating, cancelled);
    var result, failed := ShrinkPath(path, oracle);
    PathSearchSafe(path, oracle);
    EndpointAnswer(byId, violating, target, cancelled);
    return Shrunk(result.minimalSnapshotId, |path|, result.rounds);
  }
}
