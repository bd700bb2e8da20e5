/** The search tree over snapshots: registration, UCB1 selection and backpropagation.
    The score of a child is an arbitrary real function of the child and its parent's visits. */
module Mcts {
  import opened Common
  import opened ParentLinks
  import opened Subsequence

  type Id = nat

  datatype Node = Node(parent: Id, children: seq<Id>, visits: nat, reward: real, depth: nat)

  /** The tree with two pieces of history used only to state properties: the registration number of
      each node and the backpropagations that took effect, in order. */
  datatype World = World(root: Id, nodes: map<Id, Node>, rank: map<Id, nat>, hist: seq<(Id, real)>)

  function Fresh(root: Id): World {
    World(root, map[root := Node(root, [], 0, 0.0, 0)], map[root := 0], [])
  }

  // ---------------------------------------------------------------- well-formed trees

  /** A node other than the root was registered after its parent, which lists it. */
  ghost predicate UpOk(w: World, n: Id)
    requires n in w.nodes && w.rank.Keys == w.nodes.Keys
  {
    w.rank[n] < |w.nodes| &&
    (n == w.root ||
     var p := w.nodes[n].parent; p in w.nodes && w.rank[p] < w.rank[n] && n in w.nodes[p].children)
  }

  /** A node lists each of its children once. */
  ghost predicate DownOk(w: World, n: Id)
    requires n in w.nodes
  {
    && Distinct(w.nodes[n].children)
    && forall c :: c in w.nodes[n].children ==> c in w.nodes && c != w.root && w.nodes[c].parent == n
  }

  ghost predicate Linked(w: World) {
    && w.root in w.nodes && w.rank.Keys == w.nodes.Keys
    && (forall n {:trigger UpOk(w, n)} :: n in w.nodes ==> UpOk(w, n))
    && (forall n {:trigger DownOk(w, n)} :: n in w.nodes ==> DownOk(w, n))
  }

  /** The nodes from id up to the root. */
  ghost function Lineage(w: World, id: Id): set<Id>
    requires Linked(w) && id in w.nodes
    decreases w.rank[id]
  {
    assert UpOk(w, id);
    if id == w.root then {id} else {id} + Lineage(w, w.nodes[id].parent)
  }

  lemma {:induction false} LineageFacts(w: World, id: Id)
    requires Linked(w) && id in w.nodes
    ensures var a := Lineage(w, id);
      && id in a && w.root in a && a <= w.nodes.Keys
      && (forall n :: n in a ==> n in w.nodes && w.rank[n] <= w.rank[id])
      && (forall n :: n in a && n != w.root ==> w.nodes[n].parent in a)
    decreases w.rank[id]
  {
    assert UpOk(w, id);
    if id != w.root {
      LineageFacts(w, w.nodes[id].parent);
    }
  }

  /** A lineage passes through at most one child of any node. */
  lemma {:induction false} OneChild(w: World, id: Id, c: Id, d: Id)
    requires Linked(w) && id in w.nodes && c in Lineage(w, id) && d in Lineage(w, id)
    requires c != w.root && d != w.root && c in w.nodes && d in w.nodes && w.nodes[c].parent == w.nodes[d].parent
    ensures c == d
    decreases w.rank[id]
  {
    assert UpOk(w, id);
    if id != w.root {
      var p := w.nodes[id].parent;
      LineageFacts(w, p);
      assert UpOk(w, c) && UpOk(w, d);
      if c != id && d != id {
        OneChild(w, p, c, d);
      }
    }
  }

  /** Below every proper ancestor the lineage passes through some child. */
  lemma {:induction false} SomeChild(w: World, id: Id, n: Id) returns (c: Id)
    requires Linked(w) && id in w.nodes && n in Lineage(w, id) && n != id
    ensures n in w.nodes && c in Lineage(w, id) && c in w.nodes && c in w.nodes[n].children
    decreases w.rank[id]
  {
    assert UpOk(w, id);
    var p := w.nodes[id].parent;
    if n == p {
      c := id;
    } else {
      c := SomeChild(w, p, n);
    }
  }

  // ---------------------------------------------------------------- the operations

  /** Registration; a known id is left alone, and an unknown parent is not told of its child. */
  function Register(w: World, id: Id, parent: Id, depth: nat): World {
    if id in w.nodes then w
    else
      var nodes := w.nodes[id := Node(parent, [], 0, 0.0, depth)];
      w.(nodes := if parent in nodes then nodes[parent := nodes[parent].(children := nodes[parent].children + [id])]
                  else nodes,
         rank := w.rank[id := |w.nodes|])
  }

  function Visited(n: Node, reward: real): Node { n.(visits := n.visits + 1, reward := n.reward + reward) }

  /** The given nodes credited with one visit and the reward. */
  function Credit(nodes: map<Id, Node>, path: set<Id>, reward: real): map<Id, Node> {
    map n | n in nodes :: if n in path then Visited(nodes[n], reward) else nodes[n]
  }

  /** The links a backpropagation climbs: it stops at the root and at an unknown id. */
  function ClimbLinks(w: World): Links { map n | n in w.nodes && n != w.root :: w.nodes[n].parent }

  /** The nodes a backpropagation started at id passes. */
  ghost function Climb(w: World, id: Id): set<Id>
    requires Ends(ClimbLinks(w), id)
    decreases Steps(ClimbLinks(w), id)
  {
    if id !in w.nodes then {}
    else if id == w.root then {id}
    else EndsNext(ClimbLinks(w), id); {id} + Climb(w, w.nodes[id].parent)
  }

  /** The climb goes on from each node it passes, and never comes back to one. */
  lemma {:induction false} ClimbFacts(w: World, id: Id)
    requires Ends(ClimbLinks(w), id)
    ensures var a := Climb(w, id);
      && (forall n :: n in a ==> n in w.nodes && Ends(ClimbLinks(w), n))
      && (forall n :: n in a ==> Steps(ClimbLinks(w), n) <= Steps(ClimbLinks(w), id))
      && (forall n :: n in a && n != w.root && w.nodes[n].parent in w.nodes ==> w.nodes[n].parent in a)
      && (id in w.nodes ==> id in a)
    decreases Steps(ClimbLinks(w), id)
  {
    if id in w.nodes && id != w.root {
      EndsNext(ClimbLinks(w), id);
      ClimbFacts(w, w.nodes[id].parent);
    }
  }

  lemma ClimbStep(w: World, id: Id)
    requires Ends(ClimbLinks(w), id) && id in w.nodes && id != w.root
    ensures var p := w.nodes[id].parent;
      && Ends(ClimbLinks(w), p) && Steps(ClimbLinks(w), p) < Steps(ClimbLinks(w), id)
      && Climb(w, id) == {id} + Climb(w, p) && id !in Climb(w, p)
  {
    EndsNext(ClimbLinks(w), id);
    ClimbFacts(w, w.nodes[id].parent);
  }

  /** The climb from id has credited `done` and stands at `current`. */
  ghost predicate Halfway(w: World, id: Id, reward: real, done: set<Id>, current: Id, nodes: map<Id, Node>) {
    && Ends(ClimbLinks(w), id) && Ends(ClimbLinks(w), current)
    && done + Climb(w, current) == Climb(w, id) && done !! Climb(w, current)
    && nodes == Credit(w.nodes, done, reward)
  }

  lemma HalfwayStep(w: World, id: Id, reward: real, done: set<Id>, current: Id, nodes: map<Id, Node>)
    requires Halfway(w, id, reward, done, current, nodes) && current in nodes
    ensures var next := nodes[current := Visited(nodes[current], reward)];
      if current == w.root then next == Credit(w.nodes, Climb(w, id), reward)
      else
        var p := nodes[current].parent;
        && Halfway(w, id, reward, done + {current}, p, next)
        && Steps(ClimbLinks(w), p) < Steps(ClimbLinks(w), current)
  {
    var next := nodes[current := Visited(nodes[current], reward)];
    assert current !in done;
    assert next == Credit(w.nodes, done + {current}, reward);
    if current != w.root {
      ClimbStep(w, current);
    }
  }

  /** In a tree every climb ends, and passes the lineage. */
  lemma {:induction false} ClimbIsLineage(w: World, id: Id)
    requires Linked(w)
    ensures Ends(ClimbLinks(w), id)
    ensures id in w.nodes ==> Climb(w, id) == Lineage(w, id)
    decreases if id in w.nodes then w.rank[id] + 1 else 0
  {
    var next := ClimbLinks(w);
    var rank := (n: nat) => if n in w.rank then w.rank[n] else 0;
    forall n | n in next
      ensures rank(next[n]) < rank(n)
    {
      assert UpOk(w, n);
    }
    FallingRankEnds(next, rank, id);
    if id in w.nodes && id != w.root {
      assert UpOk(w, id);
      ClimbIsLineage(w, w.nodes[id].parent);
    }
  }

  ghost function Backprop(w: World, id: Id, reward: real): World
    requires Ends(ClimbLinks(w), id)
  {
    if id !in w.nodes then w
    else w.(nodes := Credit(w.nodes, Climb(w, id), reward), hist := w.hist + [(id, reward)])
  }

  /** Ids registered before their parents can close a loop that a backpropagation never leaves. */
  lemma OrphansCanLoop()
    ensures !Ends(ClimbLinks(Register(Register(Fresh(0), 1, 2, 1), 2, 1, 2)), 1)
  {
    var w := Register(Register(Fresh(0), 1, 2, 1), 2, 1, 2);
    assert ClimbLinks(w) == map[1 := 2, 2 := 1];
    assert |ClimbLinks(w)| == 2;
  }

  /** Children without a visit, in order. */
  function Unvisited(nodes: map<Id, Node>, children: seq<Id>): (r: seq<Id>)
    ensures forall c :: c in r <==> c in children && c in nodes && nodes[c].visits == 0
  {
    if children == [] then []
    else
      var rest := Unvisited(nodes, children[..|children| - 1]);
      var c := children[|children| - 1];
      assert children == children[..|children| - 1] + [c];
      if c in nodes && nodes[c].visits == 0 then rest + [c] else rest
  }

  type Score = (Node, nat) -> real

  /** The i-th child scores at least as much as every child, and more than every earlier one. */
  ghost predicate BestChild(nodes: map<Id, Node>, n: Id, score: Score, i: nat) {
    && n in nodes && i < |nodes[n].children|
    && (forall k :: 0 <= k < |nodes[n].children| ==> nodes[n].children[k] in nodes)
    && var v := nodes[n].visits;
    && (forall k :: 0 <= k < |nodes[n].children| ==>
          score(nodes[nodes[n].children[k]], v) <= score(nodes[nodes[n].children[i]], v))
    && (forall k :: 0 <= k < i ==>
          score(nodes[nodes[n].children[k]], v) < score(nodes[nodes[n].children[i]], v))
  }

  /** At step j every child has been visited and the walk takes the best one. */
  ghost predicate DescentAt(w: World, score: Score, trail: seq<Id>, j: nat)
    requires j < |trail| - 1
  {
    && trail[j] in w.nodes && w.nodes[trail[j]].visits > 0
    && Unvisited(w.nodes, w.nodes[trail[j]].children) == []
    && exists i: nat :: BestChild(w.nodes, trail[j], score, i) && trail[j + 1] == w.nodes[trail[j]].children[i]
  }

  /** Descent through fully visited levels by best score, from the root. */
  ghost predicate IsDescent(w: World, score: Score, trail: seq<Id>) {
    && trail != [] && trail[0] == w.root && trail[|trail| - 1] in w.nodes
    && forall j {:trigger DescentAt(w, score, trail, j)} :: 0 <= j < |trail| - 1 ==> DescentAt(w, score, trail, j)
  }

  /** Where a descent ends: at a childless node, or at the drawn one of the unvisited children. */
  ghost predicate SelectedFrom(w: World, last: Id, draw: nat, id: Id)
    requires last in w.nodes
  {
    var children := w.nodes[last].children;
    var untried := Unvisited(w.nodes, children);
    if children == [] then id == last else untried != [] && id == untried[draw % |untried|]
  }

  class Selector {
    const root: Id
    var nodes: map<Id, Node>
    ghost var rank: map<Id, nat>
    ghost var hist: seq<(Id, real)>

    ghost function View(): World
      reads this
    {
      World(root, nodes, rank, hist)
    }

    constructor (rootId: Id)
      ensures View() == Fresh(rootId) && Inv(View()) && Sound(View())
    {
      root, nodes, rank, hist := rootId, map[rootId := Node(rootId, [], 0, 0.0, 0)], map[rootId := 0], [];
      new;
      FreshInv(rootId);
      InvSound(View());
    }

    method RegisterNode(id: Id, parent: Id, depth: nat)
      modifies this
      ensures View() == Register(old(View()), id, parent, depth)
      ensures old(Inv(View()) && (id in nodes || parent in nodes)) ==> Inv(View())
      ensures old(Sound(View())) ==> Sound(View())
    {
      if Sound(View()) {
        RegisterSound(View(), id, parent, depth);
      }
      if Inv(View()) && (id in nodes || parent in nodes) {
        RegisterInv(View(), id, parent, depth);
      }
      if id in nodes {
        return;
      }
      rank := rank[id := |nodes|];
      nodes := nodes[id := Node(parent, [], 0, 0.0, depth)];
      if parent in nodes {
        nodes := nodes[parent := nodes[parent].(children := nodes[parent].children + [id])];
      }
    }

    method CreditPath(id: Id, reward: real)
      requires Ends(ClimbLinks(View()), id)
      modifies this`nodes
      ensures nodes == Credit(old(nodes), Climb(old(View()), id), reward)
    {
      ghost var w := View();
      ghost var done: set<Id> := {};
      var current := id;
      assert nodes == Credit(w.nodes, {}, reward);
      while current in nodes
        invariant Halfway(w, id, reward, done, current, nodes)
        decreases Steps(ClimbLinks(w), current)
      {
        HalfwayStep(w, id, reward, done, current, nodes);
        var node := nodes[current];
        nodes := nodes[current := Visited(node, reward)];
        done := done + {current};
        if current == root {
          break;
        }
        current := node.parent;
      }
    }

    /** Terminates whenever the climb from id ends, orphans included. */
    method Backpropagate(id: Id, reward: real)
      requires Ends(ClimbLinks(View()), id)
      modifies this
      ensures View() == Backprop(old(View()), id, reward)
      ensures old(Inv(View())) ==> Inv(View())
      ensures old(Sound(View())) ==> Sound(View())
    {
      if Inv(View()) {
        BackpropInv(View(), id, reward);
      }
      if Sound(View()) {
        BackpropSound(View(), id, reward);
      }
      if id in nodes {
        CreditPath(id, reward);
        hist := hist + [(id, reward)];
      }
    }

    /** Index of the first child with the highest score. */
    method ArgMax(n: Id, score: Score) returns (best: nat)
      requires n in nodes && nodes[n].children != []
      requires forall c :: c in nodes[n].children ==> c in nodes
      ensures BestChild(nodes, n, score, best)
      ensures forall c :: c in nodes[n].children ==>
        score(nodes[c], nodes[n].visits) <= score(nodes[nodes[n].children[best]], nodes[n].visits)
    {
      var children, visits := nodes[n].children, nodes[n].visits;
      best := 0;
      for i := 1 to |children|
        invariant best < i
        invariant forall k :: 0 <= k < i ==> score(nodes[children[k]], visits) <= score(nodes[children[best]], visits)
        invariant forall k :: 0 <= k < best ==> score(nodes[children[k]], visits) < score(nodes[children[best]], visits)
      {
        if score(nodes[children[i]], visits) > score(nodes[children[best]], visits) {
          best := i;
        }
      }
    }

    /** The walk from the root: `trail` is the part descended by score. */
    method Select(draw: nat, score: Score) returns (id: Id, ghost trail: seq<Id>)
      requires Sound(View())
      ensures id in nodes && IsDescent(View(), score, trail)
      ensures SelectedFrom(View(), trail[|trail| - 1], draw, id)
    {
      ghost var w := View();
      var current := root;
      trail := [root];
      while |nodes[current].children| > 0
        invariant current in nodes && IsDescent(w, score, trail) && trail[|trail| - 1] == current
        invariant NotOwnParent(w, current)
        decreases |nodes| - rank[current]
      {
        assert SoundAt(w, current);
        var unvisited := Unvisited(nodes, nodes[current].children);
        if |unvisited| > 0 {
          id := unvisited[draw % |unvisited|];
          return;
        }
        // The guard that replaces zero parent visits by one never fires here.
        VisitedParent(w, current);
        var best := ArgMax(current, score);
        DescentStep(w, score, trail, best);
        current := nodes[current].children[best];
        trail := trail + [current];
      }
      id := current;
    }
  }

  ghost predicate NotOwnParent(w: World, n: Id)
    requires n in w.nodes
  {
    n == w.root || w.nodes[n].parent != n
  }

  lemma DescentStep(w: World, score: Score, trail: seq<Id>, best: nat)
    requires Sound(w) && IsDescent(w, score, trail)
    requires var last := trail[|trail| - 1];
      && Unvisited(w.nodes, w.nodes[last].children) == [] && w.nodes[last].visits > 0
      && BestChild(w.nodes, last, score, best) && NotOwnParent(w, last)
    ensures var last := trail[|trail| - 1];
      var next := w.nodes[last].children[best];
      && next in w.nodes && IsDescent(w, score, trail + [next]) && NotOwnParent(w, next)
      && w.rank[last] < w.rank[next] < |w.nodes|
  {
    var last := trail[|trail| - 1];
    var next := w.nodes[last].children[best];
    assert SoundAt(w, last) && next in w.nodes[last].children;
    assert SoundAt(w, next);
    var trail' := trail + [next];
    forall j | 0 <= j < |trail'| - 1
      ensures DescentAt(w, score, trail', j)
    {
      if j < |trail| - 1 {
        assert DescentAt(w, score, trail, j);
      }
    }
  }

  // ---------------------------------------------------------------- what every world keeps, orphans included

  /** Children link back, were registered later unless a node is its own child, and have no more visits. */
  ghost predicate SoundAt(w: World, n: Id)
    requires n in w.nodes && w.rank.Keys == w.nodes.Keys
  {
    && w.rank[n] < |w.nodes|
    && forall c :: c in w.nodes[n].children ==>
         && c in w.nodes && c != w.root && w.nodes[c].parent == n
         && (c == n || w.rank[n] < w.rank[c]) && w.nodes[c].visits <= w.nodes[n].visits
  }

  ghost predicate Sound(w: World) {
    && w.root in w.nodes && w.rank.Keys == w.nodes.Keys
    && forall n {:trigger SoundAt(w, n)} :: n in w.nodes ==> SoundAt(w, n)
  }

  lemma RegisterSoundAt(w: World, id: Id, parent: Id, depth: nat, w': World, n: Id)
    requires Sound(w) && id !in w.nodes && w' == Register(w, id, parent, depth) && n in w'.nodes
    requires w'.rank.Keys == w'.nodes.Keys && |w'.nodes| == |w.nodes| + 1
    ensures SoundAt(w', n)
  {
    if n != id {
      assert SoundAt(w, n);
    }
  }

  lemma RegisterSound(w: World, id: Id, parent: Id, depth: nat)
    requires Sound(w)
    ensures Sound(Register(w, id, parent, depth))
  {
    var w' := Register(w, id, parent, depth);
    if id !in w.nodes {
      assert w'.nodes.Keys == w.nodes.Keys + {id};
      assert |w'.nodes.Keys| == |w.nodes.Keys| + 1;
      forall n | n in w'.nodes
        ensures SoundAt(w', n)
      {
        RegisterSoundAt(w, id, parent, depth, w', n);
      }
    }
  }

  lemma BackpropSound(w: World, id: Id, reward: real)
    requires Sound(w) && Ends(ClimbLinks(w), id)
    ensures Sound(Backprop(w, id, reward))
  {
    var w' := Backprop(w, id, reward);
    assert w'.nodes.Keys == w.nodes.Keys;
    ClimbFacts(w, id);
    forall n | n in w'.nodes
      ensures SoundAt(w', n)
    {
      assert SoundAt(w, n);
    }
  }

  lemma InvSound(w: World)
    requires Inv(w)
    ensures Sound(w)
  {
    forall n | n in w.nodes
      ensures SoundAt(w, n)
    {
      assert UpOk(w, n) && DownOk(w, n) && NodeConserved(w, n);
      forall c | c in w.nodes[n].children
        ensures w.rank[n] < w.rank[c] && w.nodes[c].visits <= w.nodes[n].visits
      {
        assert UpOk(w, c);
        SumAtLeast(w.nodes, w.nodes[n].children, c);
      }
    }
  }

  // ---------------------------------------------------------------- conservation

  ghost function SumVisits(nodes: map<Id, Node>, cs: seq<Id>): nat
    requires forall c :: c in cs ==> c in nodes
  {
    if cs == [] then 0 else nodes[cs[0]].visits + SumVisits(nodes, cs[1..])
  }

  ghost function SumRewards(nodes: map<Id, Node>, cs: seq<Id>): real
    requires forall c :: c in cs ==> c in nodes
  {
    if cs == [] then 0.0 else nodes[cs[0]].reward + SumRewards(nodes, cs[1..])
  }

  /** Backpropagations started at n. */
  ghost function Starts(hist: seq<(Id, real)>, n: Id): nat {
    if hist == [] then 0 else Starts(hist[..|hist| - 1], n) + (if hist[|hist| - 1].0 == n then 1 else 0)
  }

  ghost function StartRewards(hist: seq<(Id, real)>, n: Id): real {
    if hist == [] then 0.0
    else StartRewards(hist[..|hist| - 1], n) + (if hist[|hist| - 1].0 == n then hist[|hist| - 1].1 else 0.0)
  }

  ghost predicate NodeConserved(w: World, n: Id)
    requires n in w.nodes && DownOk(w, n)
  {
    && w.nodes[n].visits == Starts(w.hist, n) + SumVisits(w.nodes, w.nodes[n].children)
    && w.nodes[n].reward == StartRewards(w.hist, n) + SumRewards(w.nodes, w.nodes[n].children)
  }

  /** Every node's statistics are its own backpropagations plus its children's statistics. */
  ghost predicate Conserved(w: World) {
    forall n {:trigger NodeConserved(w, n)} :: n in w.nodes && DownOk(w, n) ==> NodeConserved(w, n)
  }

  ghost predicate HistKnown(w: World, hist: seq<(Id, real)>) { forall k :: 0 <= k < |hist| ==> hist[k].0 in w.nodes }

  /** Backpropagations started at n or anywhere below it. */
  ghost function StartsBelow(w: World, hist: seq<(Id, real)>, n: Id): nat
    requires Linked(w) && HistKnown(w, hist)
  {
    if hist == [] then 0
    else StartsBelow(w, hist[..|hist| - 1], n) + (if n in Lineage(w, hist[|hist| - 1].0) then 1 else 0)
  }

  ghost function RewardsBelow(w: World, hist: seq<(Id, real)>, n: Id): real
    requires Linked(w) && HistKnown(w, hist)
  {
    if hist == [] then 0.0
    else RewardsBelow(w, hist[..|hist| - 1], n) +
         (if n in Lineage(w, hist[|hist| - 1].0) then hist[|hist| - 1].1 else 0.0)
  }

  ghost predicate NodeCredited(w: World, n: Id)
    requires n in w.nodes && Linked(w) && HistKnown(w, w.hist)
  {
    w.nodes[n].visits == StartsBelow(w, w.hist, n) && w.nodes[n].reward == RewardsBelow(w, w.hist, n)
  }

  /** Every node's statistics are those of the backpropagations started in its subtree. */
  ghost predicate Credited(w: World)
    requires Linked(w)
  {
    HistKnown(w, w.hist) && forall n {:trigger NodeCredited(w, n)} :: n in w.nodes ==> NodeCredited(w, n)
  }

  ghost predicate Inv(w: World) { Linked(w) && Conserved(w) && Credited(w) }

  lemma FreshInv(root: Id)
    ensures Inv(Fresh(root))
  {
  }

  // ---------------------------------------------------------------- sums over children

  lemma {:induction false} SumSame(nodes: map<Id, Node>, nodes': map<Id, Node>, cs: seq<Id>)
    requires forall c :: c in cs ==> c in nodes && c in nodes'
    requires forall c :: c in cs ==> nodes'[c].visits == nodes[c].visits && nodes'[c].reward == nodes[c].reward
    ensures SumVisits(nodes', cs) == SumVisits(nodes, cs) && SumRewards(nodes', cs) == SumRewards(nodes, cs)
  {
    if cs != [] {
      SumSame(nodes, nodes', cs[1..]);
    }
  }

  lemma {:induction false} SumSnoc(nodes: map<Id, Node>, cs: seq<Id>, c: Id)
    requires forall x :: x in cs + [c] ==> x in nodes
    ensures forall x :: x in cs ==> x in nodes
    ensures SumVisits(nodes, cs + [c]) == SumVisits(nodes, cs) + nodes[c].visits
    ensures SumRewards(nodes, cs + [c]) == SumRewards(nodes, cs) + nodes[c].reward
  {
    assert forall x :: x in cs ==> x in cs + [c];
    if cs == [] {
      assert [] + [c] == [c];
    } else {
      assert (cs + [c])[1..] == cs[1..] + [c];
      SumSnoc(nodes, cs[1..], c);
    }
  }

  /** Crediting a path changes the sums by one child's share if the path meets one child, else not. */
  lemma {:induction false} SumCredit(nodes: map<Id, Node>, path: set<Id>, reward: real, cs: seq<Id>, hit: bool)
    requires forall c :: c in cs ==> c in nodes
    requires forall i, j :: 0 <= i < j < |cs| ==> cs[i] != cs[j]
    requires forall c, d :: c in cs && d in cs && c in path && d in path ==> c == d
    requires hit <==> exists c :: c in cs && c in path
    ensures SumVisits(Credit(nodes, path, reward), cs) == SumVisits(nodes, cs) + (if hit then 1 else 0)
    ensures SumRewards(Credit(nodes, path, reward), cs) == SumRewards(nodes, cs) + (if hit then reward else 0.0)
  {
    var nodes' := Credit(nodes, path, reward);
    if cs != [] {
      if cs[0] in path {
        forall c | c in cs[1..]
          ensures c !in path
        {
        }
        SumSame(nodes, nodes', cs[1..]);
      } else {
        SumCredit(nodes, path, reward, cs[1..], hit);
      }
    }
  }

  // ---------------------------------------------------------------- steps keep the invariant

  /** Lineages depend only on the parent links of the nodes that were there. */
  lemma {:induction false} LineageSame(w: World, w': World, id: Id)
    requires Linked(w) && Linked(w') && w'.root == w.root && id in w.nodes
    requires forall n :: n in w.nodes ==> n in w'.nodes && w'.nodes[n].parent == w.nodes[n].parent
    ensures Lineage(w', id) == Lineage(w, id)
    decreases w.rank[id]
  {
    assert UpOk(w, id);
    if id != w.root {
      LineageSame(w, w', w.nodes[id].parent);
    }
  }

  lemma {:induction false} BelowSame(w: World, w': World, hist: seq<(Id, real)>, n: Id)
    requires Linked(w) && Linked(w') && w'.root == w.root && HistKnown(w, hist) && HistKnown(w', hist)
    requires forall n :: n in w.nodes ==> n in w'.nodes && w'.nodes[n].parent == w.nodes[n].parent
    ensures StartsBelow(w', hist, n) == StartsBelow(w, hist, n)
    ensures RewardsBelow(w', hist, n) == RewardsBelow(w, hist, n)
    decreases |hist|
  {
    if hist != [] {
      BelowSame(w, w', hist[..|hist| - 1], n);
      LineageSame(w, w', hist[|hist| - 1].0);
    }
  }

  lemma {:induction false} NoStarts(w: World, hist: seq<(Id, real)>, n: Id)
    requires Linked(w) && HistKnown(w, hist) && n !in w.nodes
    ensures Starts(hist, n) == 0 && StartRewards(hist, n) == 0.0
    ensures StartsBelow(w, hist, n) == 0 && RewardsBelow(w, hist, n) == 0.0
    decreases |hist|
  {
    if hist != [] {
      NoStarts(w, hist[..|hist| - 1], n);
      LineageFacts(w, hist[|hist| - 1].0);
    }
  }

  lemma RegisterUp(w: World, id: Id, parent: Id, depth: nat, n: Id)
    requires Linked(w) && id !in w.nodes && parent in w.nodes && n in Register(w, id, parent, depth).nodes
    ensures var w' := Register(w, id, parent, depth);
      w'.rank.Keys == w'.nodes.Keys && UpOk(w', n)
  {
    var w' := Register(w, id, parent, depth);
    assert w'.nodes.Keys == w.nodes.Keys + {id};
    if n == id {
      var kids := w.nodes[parent].children;
      assert UpOk(w, parent) && (kids + [id])[|kids|] == id;
    } else {
      assert UpOk(w, n);
    }
  }

  lemma RegisterDown(w: World, id: Id, parent: Id, depth: nat, n: Id)
    requires Linked(w) && id !in w.nodes && parent in w.nodes && n in Register(w, id, parent, depth).nodes
    ensures DownOk(Register(w, id, parent, depth), n)
  {
    if n != id {
      assert DownOk(w, n);
    }
  }

  /** Registering a new node keeps the tree a tree exactly when its parent is already there. */
  lemma RegisterLinked(w: World, id: Id, parent: Id, depth: nat)
    requires Linked(w) && id !in w.nodes
    ensures Linked(Register(w, id, parent, depth)) <==> parent in w.nodes
  {
    var w' := Register(w, id, parent, depth);
    if parent in w.nodes {
      assert w'.nodes.Keys == w.nodes.Keys + {id};
      forall n | n in w'.nodes
        ensures UpOk(w', n) && DownOk(w', n)
      {
        RegisterUp(w, id, parent, depth, n);
        RegisterDown(w, id, parent, depth, n);
      }
    } else {
      assert w'.nodes.Keys == w.nodes.Keys + {id};
      assert !UpOk(w', id);
    }
  }

  /** A new childless, unvisited node changes no sum over children. */
  lemma RegisterSums(w: World, id: Id, parent: Id, depth: nat, n: Id)
    requires Linked(w) && id !in w.nodes && parent in w.nodes && n in w.nodes
    requires DownOk(w, n) && DownOk(Register(w, id, parent, depth), n)
    ensures var w' := Register(w, id, parent, depth);
      && SumVisits(w'.nodes, w'.nodes[n].children) == SumVisits(w.nodes, w.nodes[n].children)
      && SumRewards(w'.nodes, w'.nodes[n].children) == SumRewards(w.nodes, w.nodes[n].children)
  {
    var w' := Register(w, id, parent, depth);
    SumSame(w.nodes, w'.nodes, w.nodes[n].children);
    if n == parent {
      SumSnoc(w'.nodes, w.nodes[n].children, id);
    }
  }

  lemma RegisterConserved(w: World, id: Id, parent: Id, depth: nat)
    requires Inv(w) && id !in w.nodes && parent in w.nodes
    ensures Conserved(Register(w, id, parent, depth))
  {
    var w' := Register(w, id, parent, depth);
    NoStarts(w, w.hist, id);
    forall n | n in w'.nodes && DownOk(w', n)
      ensures NodeConserved(w', n)
    {
      if n != id {
        assert DownOk(w, n) && NodeConserved(w, n);
        RegisterSums(w, id, parent, depth, n);
      }
    }
  }

  lemma RegisterCredited(w: World, id: Id, parent: Id, depth: nat)
    requires Inv(w) && id !in w.nodes && parent in w.nodes
    requires Linked(Register(w, id, parent, depth))
    ensures Credited(Register(w, id, parent, depth))
  {
    var w' := Register(w, id, parent, depth);
    NoStarts(w, w.hist, id);
    forall n | n in w'.nodes
      ensures NodeCredited(w', n)
    {
      BelowSame(w, w', w.hist, n);
      if n != id {
        assert NodeCredited(w, n);
      }
    }
  }

  lemma RegisterInv(w: World, id: Id, parent: Id, depth: nat)
    requires Inv(w) && (id in w.nodes || parent in w.nodes)
    ensures Inv(Register(w, id, parent, depth))
  {
    if id !in w.nodes {
      RegisterLinked(w, id, parent, depth);
      RegisterCredited(w, id, parent, depth);
      RegisterConserved(w, id, parent, depth);
    }
  }

  lemma BackpropLinked(w: World, id: Id, reward: real)
    requires Linked(w) && id in w.nodes && Ends(ClimbLinks(w), id)
    ensures Linked(Backprop(w, id, reward))
  {
    var w' := Backprop(w, id, reward);
    assert w'.nodes.Keys == w.nodes.Keys;
    forall n | n in w.nodes
      ensures UpOk(w', n) && DownOk(w', n)
    {
      assert UpOk(w, n) && DownOk(w, n);
    }
  }

  /** A lineage meets the children of exactly the proper ancestors, one child each. */
  lemma ChildMet(w: World, id: Id, n: Id)
    requires Linked(w) && id in w.nodes && n in w.nodes && DownOk(w, n)
    ensures var a, cs := Lineage(w, id), w.nodes[n].children;
      && ((exists c :: c in cs && c in a) <==> n in a && n != id)
      && (forall c, d :: c in cs && d in cs && c in a && d in a ==> c == d)
  {
    var a, cs := Lineage(w, id), w.nodes[n].children;
    LineageFacts(w, id);
    forall c, d | c in cs && d in cs && c in a && d in a
      ensures c == d
    {
      OneChild(w, id, c, d);
    }
    if n in a && n != id {
      var c := SomeChild(w, id, n);
    }
    forall c | c in cs && c in a
      ensures n in a && n != id
    {
      assert UpOk(w, c);
    }
  }

  /** One node's share of a backpropagation: itself, or the one child the path came through. */
  lemma ChildShare(w: World, id: Id, reward: real, n: Id)
    requires Linked(w) && id in w.nodes && n in w.nodes && DownOk(w, n)
    ensures var a, cs := Lineage(w, id), w.nodes[n].children;
      && SumVisits(Credit(w.nodes, a, reward), cs) == SumVisits(w.nodes, cs) + (if n in a && n != id then 1 else 0)
      && SumRewards(Credit(w.nodes, a, reward), cs) ==
         SumRewards(w.nodes, cs) + (if n in a && n != id then reward else 0.0)
  {
    var a := Lineage(w, id);
    ChildMet(w, id, n);
    SumCredit(w.nodes, a, reward, w.nodes[n].children, n in a && n != id);
  }

  lemma BackpropCredited(w: World, id: Id, reward: real)
    requires Linked(w) && Credited(w) && id in w.nodes && Ends(ClimbLinks(w), id) && Linked(Backprop(w, id, reward))
    ensures Credited(Backprop(w, id, reward))
  {
    ClimbIsLineage(w, id);
    var w' := Backprop(w, id, reward);
    assert w'.hist[..|w.hist|] == w.hist;
    LineageSame(w, w', id);
    forall n | n in w'.nodes
      ensures NodeCredited(w', n)
    {
      assert NodeCredited(w, n);
      BelowSame(w, w', w.hist, n);
    }
  }

  lemma BackpropConserved(w: World, id: Id, reward: real)
    requires Linked(w) && Conserved(w) && id in w.nodes && Ends(ClimbLinks(w), id)
    ensures Conserved(Backprop(w, id, reward))
  {
    ClimbIsLineage(w, id);
    var w' := Backprop(w, id, reward);
    assert w'.hist[..|w.hist|] == w.hist;
    LineageFacts(w, id);
    forall n | n in w'.nodes && DownOk(w', n)
      ensures NodeConserved(w', n)
    {
      assert DownOk(w, n) && NodeConserved(w, n);
      ChildShare(w, id, reward, n);
    }
  }

  lemma BackpropInv(w: World, id: Id, reward: real)
    requires Inv(w) && Ends(ClimbLinks(w), id)
    ensures Inv(Backprop(w, id, reward))
  {
    if id in w.nodes {
      BackpropLinked(w, id, reward);
      BackpropCredited(w, id, reward);
      BackpropConserved(w, id, reward);
    }
  }

  // ---------------------------------------------------------------- every run

  datatype Step = RegisterStep(id: Id, parent: Id, depth: nat) | BackpropStep(id: Id, reward: real)

  /** Any registration; a backpropagation whose climb ends. */
  ghost predicate Legal(w: World, step: Step) {
    step.BackpropStep? ==> Ends(ClimbLinks(w), step.id)
  }

  /** A registration under a node registered before it. */
  ghost predicate Parented(w: World, step: Step) {
    step.RegisterStep? ==> step.id in w.nodes || step.parent in w.nodes
  }

  ghost function Apply(w: World, step: Step): World
    requires Legal(w, step)
  {
    match step
    case RegisterStep(id, parent, depth) => Register(w, id, parent, depth)
    case BackpropStep(id, reward) => Backprop(w, id, reward)
  }

  /** w is reached by the steps; `parented` tells whether every registration must name a known parent. */
  ghost predicate Reachable(root: Id, steps: seq<Step>, w: World, parented: bool)
    decreases |steps|
  {
    if steps == [] then w == Fresh(root)
    else
      var init, last := steps[..|steps| - 1], steps[|steps| - 1];
      exists v: World :: Reachable(root, init, v, parented) && Takes(v, last, w, parented)
  }

  ghost predicate Takes(v: World, step: Step, w: World, parented: bool) {
    Legal(v, step) && w == Apply(v, step) && (parented ==> Parented(v, step))
  }

  /** Over every run, orphans included, the tree stays fit for selection. */
  lemma {:induction false} RunSound(root: Id, steps: seq<Step>, w: World, parented: bool)
    requires Reachable(root, steps, w, parented)
    ensures Sound(w) && w.root == root
    decreases |steps|
  {
    if steps != [] {
      var step := steps[|steps| - 1];
      var v: World :| Reachable(root, steps[..|steps| - 1], v, parented) && Takes(v, step, w, parented);
      RunSound(root, steps[..|steps| - 1], v, parented);
      match step
      case RegisterStep(id, parent, depth) => RegisterSound(v, id, parent, depth);
      case BackpropStep(id, reward) => BackpropSound(v, id, reward);
    }
  }

  /** Over every run that registers nodes under known parents the statistics are conserved, and no
      backpropagation can fail to end. */
  lemma {:induction false} RunConserves(root: Id, steps: seq<Step>, w: World)
    requires Reachable(root, steps, w, true)
    ensures Inv(w) && w.root == root && forall id: Id :: Ends(ClimbLinks(w), id)
    decreases |steps|
  {
    if steps == [] {
      FreshInv(root);
    } else {
      var step := steps[|steps| - 1];
      var v: World :| Reachable(root, steps[..|steps| - 1], v, true) && Takes(v, step, w, true);
      RunConserves(root, steps[..|steps| - 1], v);
      match step
      case RegisterStep(id, parent, depth) => RegisterInv(v, id, parent, depth);
      case BackpropStep(id, reward) => BackpropInv(v, id, reward);
    }
    forall id: Id
      ensures Ends(ClimbLinks(w), id)
    {
      ClimbIsLineage(w, id);
    }
  }

  /** The parent and depth given by the first step that registers id. */
  function FirstRecord(steps: seq<Step>, id: Id): Option<(Id, nat)> {
    if steps == [] then None
    else
      var first, last := FirstRecord(steps[..|steps| - 1], id), steps[|steps| - 1];
      if first.None? && last.RegisterStep? && last.id == id then Some((last.parent, last.depth)) else first
  }

  /** One step adds at most the node it registers, and changes no parent and no depth. */
  lemma StepRecords(v: World, step: Step, w: World, id: Id)
    requires Legal(v, step) && w == Apply(v, step)
    ensures id in v.nodes ==> id in w.nodes
    ensures id in v.nodes ==> w.nodes[id].parent == v.nodes[id].parent && w.nodes[id].depth == v.nodes[id].depth
    ensures id !in v.nodes ==> (id in w.nodes <==> step.RegisterStep? && step.id == id)
    ensures id !in v.nodes && id in w.nodes ==> w.nodes[id].parent == step.parent && w.nodes[id].depth == step.depth
  {
  }

  /** Over every run a node other than the root is there exactly when it was registered, with the parent and the
      depth of its first registration; the root stays its own parent at depth zero. */
  lemma {:induction false} RunRegisters(root: Id, steps: seq<Step>, w: World, parented: bool, id: Id)
    requires Reachable(root, steps, w, parented)
    ensures id == root ==> id in w.nodes && w.nodes[id].parent == root && w.nodes[id].depth == 0
    ensures id != root ==> (id in w.nodes <==> FirstRecord(steps, id).Some?)
    ensures id != root && id in w.nodes ==> FirstRecord(steps, id) == Some((w.nodes[id].parent, w.nodes[id].depth))
    decreases |steps|
  {
    if steps != [] {
      var init, step := steps[..|steps| - 1], steps[|steps| - 1];
      var v: World :| Reachable(root, init, v, parented) && Takes(v, step, w, parented);
      RunRegisters(root, init, v, parented, id);
      StepRecords(v, step, w, id);
    }
  }

  ghost function TotalReward(hist: seq<(Id, real)>): real {
    if hist == [] then 0.0 else TotalReward(hist[..|hist| - 1]) + hist[|hist| - 1].1
  }

  lemma {:induction false} RootBelow(w: World, hist: seq<(Id, real)>)
    requires Linked(w) && HistKnown(w, hist)
    ensures StartsBelow(w, hist, w.root) == |hist| && RewardsBelow(w, hist, w.root) == TotalReward(hist)
    decreases |hist|
  {
    if hist != [] {
      RootBelow(w, hist[..|hist| - 1]);
      LineageFacts(w, hist[|hist| - 1].0);
    }
  }

  /** The root has seen every backpropagation that took effect. */
  lemma RootTotals(root: Id, steps: seq<Step>, w: World)
    requires Reachable(root, steps, w, true)
    ensures root in w.nodes && w.nodes[root].visits == |w.hist| && w.nodes[root].reward == TotalReward(w.hist)
  {
    RunConserves(root, steps, w);
    assert NodeCredited(w, root);
    RootBelow(w, w.hist);
  }

  // ---------------------------------------------------------------- selection

  lemma {:induction false} SumAtLeast(nodes: map<Id, Node>, cs: seq<Id>, c: Id)
    requires (forall x :: x in cs ==> x in nodes) && c in cs
    ensures nodes[c].visits <= SumVisits(nodes, cs)
  {
    if c != cs[0] {
      SumAtLeast(nodes, cs[1..], c);
    }
  }

  /** Once every child has been visited, so has the parent. */
  lemma VisitedParent(w: World, n: Id)
    requires Sound(w) && n in w.nodes && w.nodes[n].children != [] && Unvisited(w.nodes, w.nodes[n].children) == []
    ensures w.nodes[n].visits > 0
  {
    var c := w.nodes[n].children[0];
    assert SoundAt(w, n) && c in w.nodes[n].children;
    assert c !in Unvisited(w.nodes, w.nodes[n].children);
  }

  /** A line of descent: each node lists the next as a child. */
  ghost predicate IsLine(w: World, line: seq<Id>) {
    && line != [] && (forall i :: 0 <= i < |line| ==> line[i] in w.nodes)
    && forall i :: 0 <= i < |line| - 1 ==> line[i + 1] in w.nodes[line[i]].children
  }

  lemma {:induction false} LineVisits(w: World, line: seq<Id>, i: nat)
    requires Sound(w) && IsLine(w, line) && i < |line|
    ensures w.nodes[line[i]].visits <= w.nodes[line[0]].visits
  {
    if i > 0 {
      LineVisits(w, line, i - 1);
      assert SoundAt(w, line[i - 1]) && line[i - 1 + 1] in w.nodes[line[i - 1]].children;
    }
  }

  /** Visits never grow from a node to its descendants. */
  lemma {:induction false} VisitsDecrease(w: World, n: Id, m: Id)
    requires Inv(w) && m in w.nodes && n in Lineage(w, m)
    ensures n in w.nodes && w.nodes[m].visits <= w.nodes[n].visits
    decreases w.rank[m]
  {
    LineageFacts(w, m);
    if m != n {
      assert UpOk(w, m);
      var p := w.nodes[m].parent;
      assert DownOk(w, p) && NodeConserved(w, p);
      SumAtLeast(w.nodes, w.nodes[p].children, m);
      VisitsDecrease(w, n, p);
    }
  }

  /** Below an unvisited node nothing has been visited. */
  lemma UnvisitedSubtree(w: World, n: Id)
    requires Inv(w) && n in w.nodes && w.nodes[n].visits == 0
    ensures forall m :: m in w.nodes && n in Lineage(w, m) ==> w.nodes[m].visits == 0
  {
    forall m | m in w.nodes && n in Lineage(w, m)
      ensures w.nodes[m].visits == 0
    {
      VisitsDecrease(w, n, m);
    }
  }

  /** Each unvisited child is selected by some draw. */
  lemma EveryUnvisitedDrawn(w: World, last: Id, c: Id) returns (draw: nat)
    requires last in w.nodes && c in w.nodes[last].children && c in w.nodes && w.nodes[c].visits == 0
    ensures SelectedFrom(w, last, draw, c)
  {
    var untried := Unvisited(w.nodes, w.nodes[last].children);
    assert c in untried;
    draw :| 0 <= draw < |untried| && untried[draw] == c;
    SmallMod(draw, |untried|);
  }

  /** They are listed in registration order. */
  lemma {:induction false} UnvisitedInOrder(nodes: map<Id, Node>, children: seq<Id>)
    ensures IsSubsequence(Unvisited(nodes, children), children)
    decreases |children|
  {
    if children != [] {
      var n := |children| - 1;
      UnvisitedInOrder(nodes, children[..n]);
      SubsequenceSnoc(Unvisited(nodes, children[..n]), children[..n], children[n]);
      assert children == children[..n] + [children[n]];
    }
  }

  /** What a selection returns: a childless node, or a node below which nothing has been visited. */
  lemma SelectedMeaning(w: World, score: Score, trail: seq<Id>, draw: nat, id: Id)
    requires Sound(w) && IsDescent(w, score, trail) && SelectedFrom(w, trail[|trail| - 1], draw, id)
    ensures id in w.nodes
    ensures w.nodes[id].children != [] ==>
      forall line: seq<Id> :: IsLine(w, line) && line[0] == id ==> w.nodes[line[|line| - 1]].visits == 0
    ensures Inv(w) && w.nodes[id].children != [] ==>
      forall m :: m in w.nodes && id in Lineage(w, m) ==> w.nodes[m].visits == 0
  {
    var last := trail[|trail| - 1];
    if w.nodes[last].children != [] {
      assert id in Unvisited(w.nodes, w.nodes[last].children);
      forall line: seq<Id> | IsLine(w, line) && line[0] == id
        ensures w.nodes[line[|line| - 1]].visits == 0
      {
        LineVisits(w, line, |line| - 1);
      }
      if Inv(w) {
        UnvisitedSubtree(w, id);
      }
    }
  }
}
