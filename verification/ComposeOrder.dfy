/** The order among services that dependencies leave open: a reference definition of the sorted list without a
    visited set, and what it means for lists that are already in order. */
module ComposeOrder {
  import opened Compose

  /** Dependencies rank below their dependents. */
  ghost predicate Ranked(g: Catalog, rank: string -> nat) {
    forall n, d :: n in g && d in g[n].dependsOn && d in g ==> rank(d) < rank(n)
  }

  /** The known names among `names` rank below the bound. */
  ghost predicate Below(g: Catalog, names: seq<string>, rank: string -> nat, bound: nat) {
    forall n :: n in names && n in g ==> rank(n) < bound
  }

  /** Each known name written out after the expansions of its dependencies, repetitions included. */
  ghost function Expand(g: Catalog, names: seq<string>, rank: string -> nat, bound: nat): seq<string>
    requires Ranked(g, rank) && Below(g, names, rank, bound)
    decreases bound, |names|
  {
    if names == [] then []
    else
      assert names[0] in names;
      var first :=
        if names[0] in g then Expand(g, g[names[0]].dependsOn, rank, rank(names[0])) + [names[0]] else [];
      first + Expand(g, names[1..], rank, bound)
  }

  /** `listed` followed by the names of `more` that are not there yet, in order. */
  function AppendNew(listed: seq<string>, more: seq<string>): seq<string>
    decreases |more|
  {
    if more == [] then listed
    else AppendNew(if more[0] in listed then listed else listed + [more[0]], more[1..])
  }

  lemma {:induction false} AppendConcat(listed: seq<string>, a: seq<string>, b: seq<string>)
    ensures AppendNew(listed, a + b) == AppendNew(AppendNew(listed, a), b)
    decreases |a|
  {
    if a == [] {
      assert a + b == b;
    } else {
      assert (a + b)[1..] == a[1..] + b;
      AppendConcat(if a[0] in listed then listed else listed + [a[0]], a[1..], b);
    }
  }

  lemma {:induction false} AppendKnown(listed: seq<string>, more: seq<string>)
    requires forall n :: n in more ==> n in listed
    ensures AppendNew(listed, more) == listed
    decreases |more|
  {
    if more != [] {
      assert more[0] in more;
      AppendKnown(listed, more[1..]);
    }
  }

  // ---------------------------------------------------------------- a visit against the reference

  /** What holds while names ranking below the bound are visited: such names are listed once visited, and the
      known dependencies of listed services are listed. */
  ghost predicate Good(g: Catalog, st: State, rank: string -> nat, bound: nat) {
    && (forall n :: n in g ==> g[n].name == n)
    && (forall n :: n in Names(st.result) ==> n in g && n in st.visited)
    && (forall n :: n in st.visited && n in g && rank(n) < bound ==> n in Names(st.result))
    && (forall n, d :: n in Names(st.result) && n in g && d in g[n].dependsOn && d in g ==> d in Names(st.result))
  }

  /** Visited and listed names are kept, and the known ones added rank below the bound. */
  ghost predicate Grows(g: Catalog, st: State, r: State, rank: string -> nat, bound: nat) {
    && st.visited <= r.visited && (forall n :: n in Names(st.result) ==> n in Names(r.result))
    && (forall n :: n in r.visited && n in g ==> n in st.visited || rank(n) < bound)
    && (forall n :: n in Names(r.result) ==> n in Names(st.result) || rank(n) < bound)
  }

  lemma {:induction false} ExpandListed(g: Catalog, names: seq<string>, st: State, rank: string -> nat, bound: nat)
    requires Ranked(g, rank) && Below(g, names, rank, bound)
    requires forall n, d :: n in Names(st.result) && n in g && d in g[n].dependsOn && d in g ==> d in Names(st.result)
    requires forall n :: n in names && n in g ==> n in Names(st.result)
    ensures forall n :: n in Expand(g, names, rank, bound) ==> n in Names(st.result)
    decreases bound, |names|
  {
    if names != [] {
      assert names[0] in names;
      if names[0] in g {
        ExpandListed(g, g[names[0]].dependsOn, st, rank, rank(names[0]));
      }
      ExpandListed(g, names[1..], st, rank, bound);
    }
  }

  lemma NamesSnoc(result: seq<Service>, s: Service)
    ensures Names(result + [s]) == Names(result) + [s.name]
  {
  }

  lemma {:induction false} VisitExpands(g: Catalog, name: string, st: State, rank: string -> nat, bound: nat, r: State)
    requires Ranked(g, rank) && (name in g ==> rank(name) < bound) && Good(g, st, rank, bound)
    requires r == Visit(g, name, st)
    ensures Good(g, r, rank, bound) && Grows(g, st, r, rank, bound) && name in r.visited
    ensures Names(r.result) == AppendNew(Names(st.result), Expand(g, [name], rank, bound))
    decreases bound, 0
  {
    OneExpansion(g, name, rank, bound);
    if name in st.visited {
      ExpandListed(g, [name], st, rank, bound);
      AppendKnown(Names(st.result), Expand(g, [name], rank, bound));
    } else if name in g {
      var deps, entered := g[name].dependsOn, State(st.visited + {name}, st.result);
      var left := VisitAll(g, deps, entered);
      VisitAllExpands(g, deps, entered, rank, rank(name), left);
      CloseGood(g, name, st, left, rank, bound);
      NamesSnoc(left.result, g[name]);
      AppendConcat(Names(st.result), Expand(g, deps, rank, rank(name)), [name]);
      assert [name][1..] == [];
    }
  }

  /** Listing a service once its dependencies have been visited. */
  lemma CloseGood(g: Catalog, name: string, st: State, left: State, rank: string -> nat, bound: nat)
    requires Ranked(g, rank) && name in g && rank(name) < bound && name !in st.visited && Good(g, st, rank, bound)
    requires Good(g, left, rank, rank(name))
    requires Grows(g, State(st.visited + {name}, st.result), left, rank, rank(name))
    requires forall d :: d in g[name].dependsOn ==> d in left.visited
    ensures var r := State(left.visited, left.result + [g[name]]);
      Good(g, r, rank, bound) && Grows(g, st, r, rank, bound) && name in r.visited
    ensures name !in Names(left.result)
  {
    NamesSnoc(left.result, g[name]);
    var listed := Names(left.result) + [name];
    assert forall n :: n in listed <==> n in Names(left.result) || n == name;
  }

  lemma OneExpansion(g: Catalog, name: string, rank: string -> nat, bound: nat)
    requires Ranked(g, rank) && (name in g ==> rank(name) < bound)
    ensures Expand(g, [name], rank, bound) ==
            if name in g then Expand(g, g[name].dependsOn, rank, rank(name)) + [name] else []
  {
    assert [name][1..] == [];
    assert Expand(g, [], rank, bound) == [];
  }

  lemma {:induction false} VisitAllExpands(g: Catalog, names: seq<string>, st: State, rank: string -> nat, bound: nat,
                                           r: State)
    requires Ranked(g, rank) && Below(g, names, rank, bound) && Good(g, st, rank, bound)
    requires r == VisitAll(g, names, st)
    ensures Good(g, r, rank, bound) && Grows(g, st, r, rank, bound) && forall n :: n in names ==> n in r.visited
    ensures Names(r.result) == AppendNew(Names(st.result), Expand(g, names, rank, bound))
    decreases bound, |names| + 1
  {
    if names != [] {
      assert names[0] in names;
      var next := Visit(g, names[0], st);
      VisitExpands(g, names[0], st, rank, bound, next);
      VisitAllExpands(g, names[1..], next, rank, bound, r);
      OneExpansion(g, names[0], rank, bound);
      AppendConcat(Names(st.result), Expand(g, [names[0]], rank, bound), Expand(g, names[1..], rank, bound));
    }
  }

  // ---------------------------------------------------------------- the theorems

  /** The sorted list is the expansion of the list of services with later repetitions dropped. */
  lemma SortedIsExpansion(services: seq<Service>, rank: string -> nat, bound: nat)
    requires Ranked(ByName(services), rank) && Below(ByName(services), Names(services), rank, bound)
    ensures Names(Sorted(services)) == AppendNew([], Expand(ByName(services), Names(services), rank, bound))
  {
    CatalogNames(services);
    var g, start := ByName(services), State({}, []);
    VisitAllExpands(g, Names(services), start, rank, bound, VisitAll(g, Names(services), start));
  }

  function IndexOf(services: seq<Service>, name: string): nat {
    if services == [] || services[0].name == name then 0 else 1 + IndexOf(services[1..], name)
  }

  lemma {:induction false} IndexOfAt(services: seq<Service>, i: nat)
    requires i < |services| && forall j, k :: 0 <= j < k < |services| ==> services[j].name != services[k].name
    ensures IndexOf(services, services[i].name) == i
    decreases i
  {
    if i > 0 {
      IndexOfAt(services[1..], i - 1);
    }
  }

  lemma IndexFound(r: seq<Service>, n: string)
    requires n in Listed(r) && forall j, k :: 0 <= j < k < |r| ==> r[j].name != r[k].name
    ensures IndexOf(r, n) < |r| && r[IndexOf(r, n)].name == n
  {
    var i :| 0 <= i < |r| && r[i].name == n;
    IndexOfAt(r, i);
  }

  lemma IndexFalls(g: Catalog, r: seq<Service>, n: string, d: string)
    requires forall j, k :: 0 <= j < k < |r| ==> r[j].name != r[k].name
    requires n in Listed(r) && n in g && (forall k :: 0 <= k < |r| ==> r[k].name in g && r[k] == g[r[k].name])
    requires DependencyOrder(g, r) && d in g[n].dependsOn && d in g
    ensures IndexOf(r, d) < IndexOf(r, n)
  {
    IndexFound(r, n);
    var j := IndexOf(r, n);
    assert d in r[j].dependsOn;
    var i :| 0 <= i < |r[..j]| && r[..j][i].name == d;
    IndexOfAt(r, i);
  }

  /** Services without a dependency cycle have such a ranking, so the expansion exists. */
  lemma AcyclicRanked(services: seq<Service>) returns (rank: string -> nat, bound: nat)
    requires Acyclic(ByName(services))
    ensures Ranked(ByName(services), rank) && Below(ByName(services), Names(services), rank, bound)
  {
    var g, r := ByName(services), Sorted(services);
    SortedComplete(services);
    OrderIffAcyclic(services);
    rank, bound := (n: string) => IndexOf(r, n), |r|;
    forall n | n in g
      ensures rank(n) < bound
    {
      IndexFound(r, n);
    }
    forall n, d | n in g && d in g[n].dependsOn && d in g
      ensures rank(d) < rank(n)
    {
      IndexFalls(g, r, n, d);
    }
  }

  /** The services stand after the known services they depend on. */
  ghost predicate InOrder(services: seq<Service>) {
    && (forall i, j :: 0 <= i < j < |services| ==> services[i].name != services[j].name)
    && forall j, d :: 0 <= j < |services| && d in services[j].dependsOn && d in Names(services) ==>
         d in Names(services[..j])
  }

  lemma {:induction false} NothingMoves(services: seq<Service>, i: nat, rank: string -> nat, bound: nat)
    requires InOrder(services) && i <= |services|
    requires Ranked(ByName(services), rank) && Below(ByName(services), Names(services)[i..], rank, bound)
    ensures AppendNew(Names(services[..i]), Expand(ByName(services), Names(services)[i..], rank, bound))
            == Names(services)
    decreases |services| - i
  {
    var g, names := ByName(services), Names(services);
    if i == |services| {
      assert services[..i] == services;
    } else {
      var name, listed := names[i], Names(services[..i]);
      assert names[i..][0] == name && names[i..][1..] == names[i + 1..] && name in names[i..];
      OwnRecord(services, i);
      AppendPrefix(services, i, rank);
      assert Expand(g, names[i..], rank, bound) == Expand(g, g[name].dependsOn, rank, rank(name)) + [name] +
             Expand(g, names[i + 1..], rank, bound);
      AppendConcat(listed, Expand(g, g[name].dependsOn, rank, rank(name)) + [name],
                   Expand(g, names[i + 1..], rank, bound));
      NothingMoves(services, i + 1, rank, bound);
    }
  }

  lemma OwnRecord(services: seq<Service>, i: nat)
    requires InOrder(services) && i < |services|
    ensures services[i].name in ByName(services) && ByName(services)[services[i].name] == services[i]
  {
    LastInCatalog(services, services[i].name, i);
  }

  /** The known dependencies of a service stand before it. */
  lemma DependencyBefore(services: seq<Service>, i: nat, d: string)
    requires InOrder(services) && i < |services| && d in services[i].dependsOn && d in ByName(services)
    ensures d in Names(services[..i])
  {
    KnownIsNamed(services, d);
  }

  lemma PrefixClosed(services: seq<Service>, i: nat, n: string, d: string)
    requires InOrder(services) && i <= |services| && n in Names(services[..i]) && n in ByName(services)
    requires d in ByName(services)[n].dependsOn && d in ByName(services)
    ensures d in Names(services[..i])
  {
    var j :| 0 <= j < i && Names(services[..i])[j] == n;
    OwnRecord(services, j);
    DependencyBefore(services, j, d);
    PrefixNames(services, j, i, d);
  }

  lemma ExpansionListed(services: seq<Service>, i: nat, rank: string -> nat)
    requires InOrder(services) && i < |services| && Ranked(ByName(services), rank)
    ensures var g, s := ByName(services), services[i];
      && s.name in g && g[s.name] == s
      && forall n :: n in Expand(g, s.dependsOn, rank, rank(s.name)) ==> n in Names(services[..i])
  {
    var g, s, before := ByName(services), services[i], State({}, services[..i]);
    OwnRecord(services, i);
    forall n, d | n in Names(before.result) && n in g && d in g[n].dependsOn && d in g
      ensures d in Names(before.result)
    {
      PrefixClosed(services, i, n, d);
    }
    forall d | d in s.dependsOn && d in g
      ensures d in Names(before.result)
    {
      DependencyBefore(services, i, d);
    }
    ExpandListed(g, s.dependsOn, before, rank, rank(s.name));
  }

  /** With everything before it listed, the next service is all its expansion adds. */
  lemma AppendPrefix(services: seq<Service>, i: nat, rank: string -> nat)
    requires InOrder(services) && i < |services| && Ranked(ByName(services), rank)
    ensures var g, s := ByName(services), services[i];
      && s.name in g && g[s.name] == s
      && AppendNew(Names(services[..i]), Expand(g, s.dependsOn, rank, rank(s.name)) + [s.name])
         == Names(services[..i + 1])
  {
    ExpansionListed(services, i, rank);
    var s, listed := services[i], Names(services[..i]);
    AddsItself(listed, Expand(ByName(services), s.dependsOn, rank, rank(s.name)), s.name);
    assert services[..i + 1] == services[..i] + [s];
    NamesSnoc(services[..i], s);
  }

  lemma AddsItself(listed: seq<string>, deps: seq<string>, name: string)
    requires name !in listed && forall n :: n in deps ==> n in listed
    ensures AppendNew(listed, deps + [name]) == listed + [name]
  {
    AppendKnown(listed, deps);
    AppendConcat(listed, deps, [name]);
    assert [name][1..] == [];
  }

  lemma KnownIsNamed(services: seq<Service>, name: string)
    requires name in ByName(services)
    ensures name in Names(services)
  {
    var i := CatalogHasLast(services, name);
    assert Names(services)[i] == name;
  }

  lemma PrefixNames(services: seq<Service>, j: nat, i: nat, name: string)
    requires j <= i <= |services| && name in Names(services[..j])
    ensures name in Names(services[..i])
  {
    var k :| 0 <= k < j && Names(services[..j])[k] == name;
    assert Names(services[..i])[k] == name;
  }

  lemma EarlierIndex(services: seq<Service>, n: string, d: string)
    requires InOrder(services) && n in ByName(services) && d in ByName(services)[n].dependsOn && d in ByName(services)
    ensures IndexOf(services, d) < IndexOf(services, n)
  {
    KnownIsNamed(services, n);
    var j :| 0 <= j < |services| && Names(services)[j] == n;
    OwnRecord(services, j);
    IndexOfAt(services, j);
    DependencyBefore(services, j, d);
    var i :| 0 <= i < j && Names(services[..j])[i] == d;
    IndexOfAt(services, i);
  }

  /** The positions of a list in order are a ranking. */
  lemma PositionsRank(services: seq<Service>, rank: string -> nat)
    requires InOrder(services) && forall n :: rank(n) == IndexOf(services, n)
    ensures Ranked(ByName(services), rank) && Below(ByName(services), Names(services), rank, |services|)
  {
    var g := ByName(services);
    forall n, d | n in g && d in g[n].dependsOn && d in g
      ensures rank(d) < rank(n)
    {
      EarlierIndex(services, n, d);
    }
    forall n | n in Names(services)
      ensures rank(n) < |services|
    {
      var j :| 0 <= j < |services| && Names(services)[j] == n;
      IndexOfAt(services, j);
    }
  }

  lemma SameNamesSameServices(services: seq<Service>)
    requires InOrder(services) && Names(Sorted(services)) == Names(services)
    ensures Sorted(services) == services
  {
    SortedComplete(services);
    forall i | 0 <= i < |services|
      ensures Sorted(services)[i] == services[i]
    {
      assert Names(Sorted(services))[i] == Names(services)[i];
      OwnRecord(services, i);
    }
  }

  /** A list already in dependency order is left as it is; so services without dependencies keep their order. */
  lemma InOrderIsFixed(services: seq<Service>)
    requires InOrder(services)
    ensures Sorted(services) == services
  {
    var rank := (n: string) => IndexOf(services, n);
    PositionsRank(services, rank);
    SortedIsExpansion(services, rank, |services|);
    assert Names(services)[0..] == Names(services) && services[..0] == [] && Names([]) == [];
    NothingMoves(services, 0, rank, |services|);
    SameNamesSameServices(services);
  }
}
