/** Walking parent links: when the walk from a node ends, and how far it goes. */
module ParentLinks {
  import opened Common

  type Links = map<nat, nat>

  /** The walk from v stops after at most n steps. */
  predicate EndsWithin(next: Links, v: nat, n: nat)
    decreases n
  {
    v !in next || (n > 0 && EndsWithin(next, next[v], n - 1))
  }

  /** The walk from v stops; as many steps as there are links decide it. */
  predicate Ends(next: Links, v: nat) { EndsWithin(next, v, |next|) }

  function StepsWithin(next: Links, v: nat, n: nat): nat
    requires EndsWithin(next, v, n)
    decreases n
  {
    if v !in next then 0 else 1 + StepsWithin(next, next[v], n - 1)
  }

  /** The length of the walk from v. */
  function Steps(next: Links, v: nat): nat
    requires Ends(next, v)
  {
    StepsWithin(next, v, |next|)
  }

  lemma {:induction false} MoreSteps(next: Links, v: nat, n: nat)
    requires EndsWithin(next, v, n)
    ensures EndsWithin(next, v, n + 1) && StepsWithin(next, v, n + 1) == StepsWithin(next, v, n)
    decreases n
  {
    if v in next {
      MoreSteps(next, next[v], n - 1);
    }
  }

  /** A walk that ends still ends after one step, and is one step shorter. */
  lemma EndsNext(next: Links, v: nat)
    requires Ends(next, v) && v in next
    ensures Ends(next, next[v]) && Steps(next, v) == Steps(next, next[v]) + 1
  {
    MoreSteps(next, next[v], |next| - 1);
  }

  // ---------------------------------------------------------------- exactly the walks without a cycle

  ghost predicate IsWalk(next: Links, c: seq<nat>) {
    c != [] && forall i :: 0 <= i < |c| - 1 ==> c[i] in next && c[i + 1] == next[c[i]]
  }

  lemma {:induction false} WalkShortens(next: Links, c: seq<nat>, i: nat)
    requires IsWalk(next, c) && Ends(next, c[0]) && i < |c|
    ensures Ends(next, c[i]) && Steps(next, c[i]) == Steps(next, c[0]) - i
  {
    if i > 0 {
      WalkShortens(next, c, i - 1);
      EndsNext(next, c[i - 1]);
    }
  }

  lemma {:induction false} LongWalk(next: Links, v: nat, n: nat) returns (c: seq<nat>)
    requires !EndsWithin(next, v, n)
    ensures IsWalk(next, c) && c[0] == v && |c| == n + 2
    decreases n
  {
    if n == 0 {
      c := [v, next[v]];
    } else {
      var tail := LongWalk(next, next[v], n - 1);
      c := [v] + tail;
    }
  }

  lemma {:induction false} Pigeonhole(c: seq<nat>, holes: set<nat>)
    requires forall i :: 0 <= i < |c| ==> c[i] in holes
    ensures Distinct(c) ==> |c| <= |holes|
    decreases |c|
  {
    if c != [] && Distinct(c) {
      var last := |c| - 1;
      Pigeonhole(c[..last], holes - {c[last]});
    }
  }

  /** The walk from v ends exactly when no walk from v comes back to a node. */
  lemma EndsIff(next: Links, v: nat)
    ensures Ends(next, v) <==> forall c: seq<nat> :: IsWalk(next, c) && c[0] == v ==> Distinct(c)
  {
    forall c: seq<nat> | IsWalk(next, c) && c[0] == v && Ends(next, v)
      ensures Distinct(c)
    {
      forall i, j | 0 <= i < j < |c|
        ensures c[i] != c[j]
      {
        WalkShortens(next, c, i);
        WalkShortens(next, c, j);
      }
    }
    if !Ends(next, v) {
      var c := LongWalk(next, v, |next|);
      var inner := c[..|next| + 1];
      Pigeonhole(inner, next.Keys);
      assert |next.Keys| == |next|;
      assert !Distinct(inner) && !Distinct(c);
    }
  }

  /** A walk ends if it does from its second node. */
  lemma EndsBack(next: Links, v: nat)
    requires v in next && Ends(next, next[v])
    ensures Ends(next, v)
  {
    if !Ends(next, v) {
      forall c: seq<nat> | IsWalk(next, c) && c[0] == v
        ensures Distinct(c)
      {
        TailDistinct(next, c);
      }
      EndsIff(next, v);
    }
  }

  lemma TailDistinct(next: Links, c: seq<nat>)
    requires IsWalk(next, c) && c[0] in next && Ends(next, next[c[0]]) && !Ends(next, c[0])
    ensures Distinct(c)
  {
    var tail := c[1..];
    if tail != [] {
      assert IsWalk(next, tail) && tail[0] == next[c[0]];
      EndsIff(next, tail[0]);
      forall j | 0 < j < |c|
        ensures c[j] != c[0]
      {
        WalkShortens(next, tail, j - 1);
      }
      assert forall i, j :: 0 < i < j < |c| ==> c[i] == tail[i - 1] && c[j] == tail[j - 1];
    }
  }

  /** A rank that falls along every link suffices. */
  lemma FallingRankEnds(next: Links, rank: nat -> nat, v: nat)
    requires forall u :: u in next ==> rank(next[u]) < rank(u)
    ensures Ends(next, v)
  {
    forall c: seq<nat> | IsWalk(next, c) && c[0] == v
      ensures Distinct(c)
    {
      forall i, j | 0 <= i < j < |c|
        ensures c[i] != c[j]
      {
        RankFalls(next, rank, c, i, j);
      }
    }
    EndsIff(next, v);
  }

  lemma {:induction false} RankFalls(next: Links, rank: nat -> nat, c: seq<nat>, i: nat, j: nat)
    requires forall u :: u in next ==> rank(next[u]) < rank(u)
    requires IsWalk(next, c) && i < j < |c|
    ensures rank(c[j]) < rank(c[i])
    decreases j
  {
    if i < j - 1 {
      RankFalls(next, rank, c, i, j - 1);
    }
    assert c[j - 1] in next && c[j] == next[c[j - 1]];
  }
}
