/** Dependency ordering of compose services: a depth-first post-order with a visited set. */
module Compose {

  datatype Service = Service(name: string, dependsOn: seq<string>)

  type Catalog = map<string, Service>

  /** Services by name; a later service of the same name replaces an earlier one. */
  function ByName(services: seq<Service>): Catalog {
    if services == [] then map[]
    else ByName(services[..|services| - 1])[services[|services| - 1].name := services[|services| - 1]]
  }

  /** The catalog holds services of the list under their own names, and every name of the list. */
  lemma {:induction false} CatalogNames(services: seq<Service>)
    ensures var g := ByName(services);
      && (forall n :: n in g ==> g[n].name == n && g[n] in services)
      && (forall s :: s in services ==> s.name in g)
  {
    if services != [] {
      var last := |services| - 1;
      CatalogNames(services[..last]);
      assert services == services[..last] + [services[last]];
    }
  }

  /** Service i is the last one of its name. */
  ghost predicate IsLast(services: seq<Service>, name: string, i: nat) {
    i < |services| && services[i].name == name && forall j :: i < j < |services| ==> services[j].name != name
  }

  lemma {:induction false} LastInCatalog(services: seq<Service>, name: string, i: nat)
    requires IsLast(services, name, i)
    ensures name in ByName(services) && ByName(services)[name] == services[i]
  {
    var last := |services| - 1;
    if i < last {
      LastInCatalog(services[..last], name, i);
    }
  }

  lemma {:induction false} CatalogHasLast(services: seq<Service>, name: string) returns (i: nat)
    requires name in ByName(services)
    ensures IsLast(services, name, i)
  {
    var last := |services| - 1;
    if services[last].name == name {
      i := last;
    } else {
      i := CatalogHasLast(services[..last], name);
    }
  }

  /** A name is in the catalog exactly when some service has it, and then with the last such service. */
  lemma CatalogHoldsLast(services: seq<Service>, name: string)
    ensures name in ByName(services) <==> exists i: nat :: IsLast(services, name, i)
    ensures forall i: nat :: IsLast(services, name, i) ==>
      name in ByName(services) && ByName(services)[name] == services[i]
  {
    forall i: nat | IsLast(services, name, i)
      ensures name in ByName(services) && ByName(services)[name] == services[i]
    {
      LastInCatalog(services, name, i);
    }
    if name in ByName(services) {
      var i := CatalogHasLast(services, name);
    }
  }

  datatype State = State(visited: set<string>, result: seq<Service>)

  function Visit(g: Catalog, name: string, st: State): (r: State)
    ensures st.visited <= r.visited
    decreases g.Keys - st.visited, 0
  {
    if name in st.visited then st
    else
      var entered := State(st.visited + {name}, st.result);
      if name !in g then entered
      else
        var left := VisitAll(g, g[name].dependsOn, entered);
        State(left.visited, left.result + [g[name]])
  }

  function VisitAll(g: Catalog, names: seq<string>, st: State): (r: State)
    ensures st.visited <= r.visited
    decreases g.Keys - st.visited, |names|
  {
    if names == [] then st
    else
      var next := Visit(g, names[0], st);
      assert next.visited == st.visited || g.Keys - next.visited <= g.Keys - st.visited;
      VisitAll(g, names[1..], next)
  }

  function Names(services: seq<Service>): (names: seq<string>)
    ensures |names| == |services| && forall i :: 0 <= i < |names| ==> names[i] == services[i].name
  {
    seq(|services|, i requires 0 <= i < |services| => services[i].name)
  }

  function Sorted(services: seq<Service>): seq<Service> {
    VisitAll(ByName(services), Names(services), State({}, [])).result
  }

  /** The state shared by the recursive visits. */
  class Sorter {
    const byName: Catalog
    var visited: set<string>
    var result: seq<Service>

    constructor (byName: Catalog)
      ensures this.byName == byName && visited == {} && result == []
    {
      this.byName, visited, result := byName, {}, [];
    }

    method VisitName(name: string)
      modifies this
      ensures State(visited, result) == Visit(byName, name, old(State(visited, result)))
      decreases byName.Keys - visited
    {
      if name in visited {
        return;
      }
      visited := visited + {name};
      if name !in byName {
        return;
      }
      ghost var entered := State(visited, result);
      var deps := byName[name].dependsOn;
      for i := 0 to |deps|
        invariant old(visited) + {name} <= visited
        invariant VisitAll(byName, deps[i..], State(visited, result)) == VisitAll(byName, deps, entered)
      {
        assert deps[i..][1..] == deps[i + 1..];
        VisitName(deps[i]);
      }
      result := result + [byName[name]];
    }
  }

  method IndexByName(services: seq<Service>) returns (byName: Catalog)
    ensures byName == ByName(services)
    ensures forall n, i: nat :: IsLast(services, n, i) ==> n in byName && byName[n] == services[i]
    ensures forall n :: n in byName ==> exists i: nat :: IsLast(services, n, i)
  {
    byName := map[];
    for i := 0 to |services|
      invariant byName == ByName(services[..i])
    {
      assert services[..i + 1][..i] == services[..i];
      byName := byName[services[i].name := services[i]];
    }
    assert services[..|services|] == services;
    forall n {
      CatalogHoldsLast(services, n);
    }
  }

  method TopologicalSort(services: seq<Service>) returns (result: seq<Service>)
    ensures result == Sorted(services)
  {
    var byName := IndexByName(services);
    var sorter := new Sorter(byName);
    ghost var names := Names(services);
    for i := 0 to |services|
      invariant sorter.byName == byName
      invariant VisitAll(byName, names[i..], State(sorter.visited, sorter.result))
                == VisitAll(byName, names, State({}, []))
    {
      assert names[i..][1..] == names[i + 1..] && names[i..][0] == services[i].name;
      sorter.VisitName(services[i].name);
    }
    return sorter.result;
  }

  // ---------------------------------------------------------------- dependencies

  ghost predicate IsPath(g: Catalog, p: seq<string>) {
    p != [] && forall i :: 0 <= i < |p| - 1 ==> p[i] in g && p[i + 1] in g[p[i]].dependsOn
  }

  /** a depends on b, directly or transitively. */
  ghost predicate Reaches(g: Catalog, a: string, b: string) {
    exists p :: IsPath(g, p) && |p| >= 2 && p[0] == a && p[|p| - 1] == b
  }

  ghost predicate Acyclic(g: Catalog) { forall a :: a in g ==> !Reaches(g, a, a) }

  lemma ReachesEdge(g: Catalog, a: string, b: string)
    requires a in g && b in g[a].dependsOn
    ensures Reaches(g, a, b)
  {
    assert IsPath(g, [a, b]);
  }

  lemma ReachesStep(g: Catalog, a: string, b: string, c: string)
    requires Reaches(g, a, b) && b in g && c in g[b].dependsOn
    ensures Reaches(g, a, c)
  {
    var p :| IsPath(g, p) && |p| >= 2 && p[0] == a && p[|p| - 1] == b;
    assert IsPath(g, p + [c]);
  }

  // ---------------------------------------------------------------- what a visit keeps

  ghost function Listed(result: seq<Service>): set<string> { set i | 0 <= i < |result| :: result[i].name }

  /** Known services entered but not yet listed: those on the recursion stack. */
  ghost function Open(g: Catalog, st: State): set<string> { g.Keys * st.visited - Listed(st.result) }

  ghost predicate Inv(g: Catalog, st: State) {
    && (forall n :: n in g ==> g[n].name == n)
    && (forall i :: 0 <= i < |st.result| ==> st.result[i].name in g && st.result[i] == g[st.result[i].name])
    && (forall i, j :: 0 <= i < j < |st.result| ==> st.result[i].name != st.result[j].name)
    && Listed(st.result) <= st.visited
  }

  /** Every known dependency of the j-th service is listed before it, or the two lie on a cycle. */
  ghost predicate EdgesFrom(g: Catalog, result: seq<Service>, j: nat)
    requires j < |result|
  {
    forall d :: d in result[j].dependsOn && d in g ==>
      d in Listed(result[..j]) || Reaches(g, d, result[j].name)
  }

  ghost predicate Extends(g: Catalog, st: State, r: State) {
    && Inv(g, r) && st.visited <= r.visited && st.result <= r.result && Open(g, r) == Open(g, st)
    && forall j :: |st.result| <= j < |r.result| ==> EdgesFrom(g, r.result, j)
  }

  lemma ExtendsTransitive(g: Catalog, a: State, b: State, c: State)
    requires Extends(g, a, b) && Extends(g, b, c)
    ensures Extends(g, a, c)
  {
    forall j | |a.result| <= j < |c.result|
      ensures EdgesFrom(g, c.result, j)
    {
      if j < |b.result| {
        assert EdgesFrom(g, b.result, j);
        assert c.result[..j] == b.result[..j];
      }
    }
  }

  lemma ListedSnoc(result: seq<Service>, s: Service)
    ensures Listed(result + [s]) == Listed(result) + {s.name}
  {
    var r := result + [s];
    assert forall n :: n in Listed(result) ==> n in Listed(r) by {
      forall n | n in Listed(result) ensures n in Listed(r) {
        var i :| 0 <= i < |result| && result[i].name == n;
        assert r[i].name == n;
      }
    }
    assert r[|result|].name == s.name;
  }

  /** Visiting a name that every open service depends on. */
  lemma {:induction false} VisitKeeps(g: Catalog, name: string, st: State)
    requires Inv(g, st) && (name in g ==> forall x :: x in Open(g, st) ==> Reaches(g, x, name))
    ensures Extends(g, st, Visit(g, name, st)) && name in Visit(g, name, st).visited
    decreases g.Keys - st.visited, 0
  {
    if name in st.visited {
    } else {
      var entered := State(st.visited + {name}, st.result);
      if name !in g {
        assert Open(g, entered) == Open(g, st);
      } else {
        var deps := g[name].dependsOn;
        assert Open(g, entered) == Open(g, st) + {name};
        forall d, x | d in deps && d in g && x in Open(g, entered)
          ensures Reaches(g, x, d)
        {
          if x == name { ReachesEdge(g, name, d); } else { ReachesStep(g, x, name, d); }
        }
        VisitAllKeeps(g, deps, entered);
        CloseKeeps(g, name, st, VisitAll(g, deps, entered));
      }
    }
  }

  /** Listing a service once all its dependencies have been visited. */
  lemma CloseKeeps(g: Catalog, name: string, st: State, left: State)
    requires Inv(g, st) && name in g && name !in st.visited
    requires forall x :: x in Open(g, st) ==> Reaches(g, x, name)
    requires Extends(g, State(st.visited + {name}, st.result), left)
    requires forall d :: d in g[name].dependsOn ==> d in left.visited
    ensures Extends(g, st, State(left.visited, left.result + [g[name]]))
  {
    var entered := State(st.visited + {name}, st.result);
    var r := State(left.visited, left.result + [g[name]]);
    assert Open(g, entered) == Open(g, st) + {name};
    assert name in Open(g, left);
    ListedSnoc(left.result, g[name]);
    assert Open(g, r) == Open(g, st);
    forall j | |st.result| <= j < |r.result|
      ensures EdgesFrom(g, r.result, j)
    {
      assert r.result[..j] == left.result[..j];
      if j < |left.result| {
        assert EdgesFrom(g, left.result, j);
      } else {
        assert left.result[..j] == left.result;
        forall d | d in g[name].dependsOn && d in g && d !in Listed(left.result)
          ensures Reaches(g, d, name)
        {
          assert d in Open(g, left);
          if d == name { ReachesEdge(g, name, name); }
        }
      }
    }
    forall i | 0 <= i < |left.result|
      ensures left.result[i].name != name
    {
      assert left.result[i].name in Listed(left.result);
    }
  }

  lemma {:induction false} VisitAllKeeps(g: Catalog, names: seq<string>, st: State)
    requires Inv(g, st)
    requires forall n, x :: n in names && n in g && x in Open(g, st) ==> Reaches(g, x, n)
    ensures Extends(g, st, VisitAll(g, names, st))
    ensures forall n :: n in names ==> n in VisitAll(g, names, st).visited
    decreases g.Keys - st.visited, |names|
  {
    if names != [] {
      var next := Visit(g, names[0], st);
      assert names[0] in names;
      VisitKeeps(g, names[0], st);
      assert next.visited == st.visited || g.Keys - next.visited <= g.Keys - st.visited;
      assert forall n :: n in names[1..] ==> n in names;
      VisitAllKeeps(g, names[1..], next);
      ExtendsTransitive(g, st, next, VisitAll(g, names, st));
    }
  }

  // ---------------------------------------------------------------- the theorems

  /** On any graph, cycles and unknown dependencies included: every service name is listed
      exactly once with its own record, and each known dependency precedes its dependent
      unless the two lie on a common cycle. */
  lemma SortedComplete(services: seq<Service>)
    ensures var g, r := ByName(services), Sorted(services);
      && Listed(r) == g.Keys
      && (forall i, j :: 0 <= i < j < |r| ==> r[i].name != r[j].name)
      && (forall i :: 0 <= i < |r| ==> r[i].name in g && r[i] == g[r[i].name])
      && (forall j :: 0 <= j < |r| ==> EdgesFrom(g, r, j))
  {
    var g := ByName(services);
    CatalogNames(services);
    var start := State({}, []);
    assert Open(g, start) == {};
    VisitAllKeeps(g, Names(services), start);
    var end := VisitAll(g, Names(services), start);
    forall n | n in g
      ensures n in Listed(end.result)
    {
      var i :| 0 <= i < |services| && services[i] == g[n];
      assert Names(services)[i] == n;
      assert n !in Open(g, end);
    }
    forall n | n in Listed(end.result)
      ensures n in g
    {
    }
  }

  /** With distinct names the result is a permutation of the services. */
  lemma SortedIsPermutation(services: seq<Service>)
    requires forall i, j :: 0 <= i < j < |services| ==> services[i].name != services[j].name
    ensures multiset(Sorted(services)) == multiset(services)
  {
    var g, r := ByName(services), Sorted(services);
    CatalogNames(services);
    SortedComplete(services);
    forall s: Service
      ensures multiset(r)[s] == multiset(services)[s]
    {
      CountDistinct(r, s);
      CountDistinct(services, s);
      if s in services {
        assert s.name in Listed(r);
        var i :| 0 <= i < |r| && r[i].name == s.name;
        var k :| 0 <= k < |services| && services[k] == g[s.name];
        var m :| 0 <= m < |services| && services[m] == s;
        assert k == m;
        assert r[i] == s;
      }
    }
  }

  lemma {:induction false} CountDistinct(ss: seq<Service>, s: Service)
    requires forall i, j :: 0 <= i < j < |ss| ==> ss[i].name != ss[j].name
    ensures multiset(ss)[s] == if s in ss then 1 else 0
    decreases |ss|
  {
    if ss != [] {
      assert ss == [ss[0]] + ss[1..];
      CountDistinct(ss[1..], s);
      assert s in ss <==> s == ss[0] || s in ss[1..];
    }
  }

  ghost predicate DependencyOrder(g: Catalog, result: seq<Service>) {
    forall j, d :: 0 <= j < |result| && d in result[j].dependsOn && d in g ==> d in Listed(result[..j])
  }

  lemma {:induction false} PathDescends(g: Catalog, r: seq<Service>, p: seq<string>, j: nat) returns (i: nat)
    requires DependencyOrder(g, r) && forall k :: 0 <= k < |r| ==> r[k].name in g && r[k] == g[r[k].name]
    requires IsPath(g, p) && p[|p| - 1] in g && j < |r| && r[j].name == p[0]
    ensures i < |r| && r[i].name == p[|p| - 1] && i <= j && (|p| > 1 ==> i < j)
    decreases |p|
  {
    if |p| == 1 {
      i := j;
    } else {
      assert p[1] in g[p[0]].dependsOn;
      assert p[1] in g by { if |p| > 2 { assert p[1] in g && p[2] in g[p[1]].dependsOn; } }
      assert p[1] in Listed(r[..j]);
      var k :| 0 <= k < j && r[..j][k].name == p[1];
      i := PathDescends(g, r, p[1..], k);
    }
  }

  /** The result is a dependency order exactly when the known services have no dependency cycle. */
  lemma OrderIffAcyclic(services: seq<Service>)
    ensures DependencyOrder(ByName(services), Sorted(services)) <==> Acyclic(ByName(services))
  {
    var g, r := ByName(services), Sorted(services);
    SortedComplete(services);
    if Acyclic(g) {
      forall j, d | 0 <= j < |r| && d in r[j].dependsOn && d in g
        ensures d in Listed(r[..j])
      {
        assert EdgesFrom(g, r, j);
        if Reaches(g, d, r[j].name) {
          ReachesStep(g, d, r[j].name, d);
        }
      }
    }
    if DependencyOrder(g, r) {
      forall a | a in g
        ensures !Reaches(g, a, a)
      {
        if Reaches(g, a, a) {
          var p :| IsPath(g, p) && |p| >= 2 && p[0] == a && p[|p| - 1] == a;
          assert a in Listed(r);
          var j :| 0 <= j < |r| && r[j].name == a;
          var i := PathDescends(g, r, p, j);
        }
      }
    }
  }

  /** Without cycles every known direct or transitive dependency comes first. */
  lemma TransitiveOrder(services: seq<Service>)
    requires Acyclic(ByName(services))
    ensures var g, r := ByName(services), Sorted(services);
      forall i, j :: 0 <= i < |r| && 0 <= j < |r| && Reaches(g, r[j].name, r[i].name) ==> i < j
  {
    var g, r := ByName(services), Sorted(services);
    SortedComplete(services);
    OrderIffAcyclic(services);
    forall i, j | 0 <= i < |r| && 0 <= j < |r| && Reaches(g, r[j].name, r[i].name)
      ensures i < j
    {
      var p :| IsPath(g, p) && |p| >= 2 && p[0] == r[j].name && p[|p| - 1] == r[i].name;
      var k := PathDescends(g, r, p, j);
      assert k == i;
    }
  }
}
