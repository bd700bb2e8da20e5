/** Directed enumeration of random choices: which choice to force next from a snapshot. */
module InputTree {
  import opened Common

  datatype Choice = Choice(chosen: int, total: int, valueType: string)

  type Sequence = seq<Choice>

  /** Index idx has been taken at position pos in some recorded sequence. */
  predicate Tried(seqs: seq<Sequence>, pos: nat, idx: int) {
    exists k :: 0 <= k < |seqs| && pos < |seqs[k]| && seqs[k][pos].chosen == idx
  }

  /** Untried indices of a position of the reference (first) sequence with more than one choice. */
  function Untried(seqs: seq<Sequence>, pos: nat): set<int>
    requires seqs != [] && pos < |seqs[0]|
  {
    if seqs[0][pos].total <= 1 then {}
    else set idx | 0 <= idx < seqs[0][pos].total && !Tried(seqs, pos, idx)
  }

  /** The branch to force next: the least position with an untried index, and its least such index. */
  ghost predicate IsNext(seqs: seq<Sequence>, pos: nat, idx: nat) {
    && seqs != [] && pos < |seqs[0]| && idx in Untried(seqs, pos)
    && (forall q: nat :: q < pos ==> Untried(seqs, q) == {})
    && (forall i: nat :: i < idx ==> i !in Untried(seqs, pos))
  }

  /** Every multi-way position of the reference has had all its indices tried. */
  ghost predicate Exhausted(seqs: seq<Sequence>) {
    seqs == [] || forall pos: nat :: pos < |seqs[0]| ==> Untried(seqs, pos) == {}
  }

  /** An override slice that forces one position and leaves the others to the generator. */
  function Forced(n: nat, pos: nat, idx: nat): (ov: seq<int>)
    requires pos < n
    ensures |ov| == n && ov[pos] == idx && forall i :: 0 <= i < n && i != pos ==> ov[i] == -1
  {
    seq(n, _ => -1)[pos := idx]
  }

  class Tracker {
    var history: map<string, seq<Sequence>>

    function Of(snap: string): seq<Sequence>
      reads this
    {
      if snap in history then history[snap] else []
    }

    constructor ()
      ensures history == map[]
    {
      history := map[];
    }

    method RecordFromSnapshot(snap: string, s: Sequence)
      modifies this
      ensures Of(snap) == old(Of(snap)) + (if s == [] then [] else [s])
      ensures forall other :: other != snap ==> Of(other) == old(Of(other))
    {
      if |s| == 0 {
        return;
      }
      history := history[snap := Of(snap) + [s]];
    }

    method NextOverrides(snap: string) returns (r: Option<seq<int>>)
      ensures r.None? <==> Exhausted(Of(snap))
      ensures r.Some? ==> exists pos: nat, idx: nat ::
                IsNext(Of(snap), pos, idx) && r.value == Forced(|Of(snap)[0]|, pos, idx)
    {
      var seqs := Of(snap);
      if |seqs| == 0 {
        return None;
      }
      var tried := CollectTried(seqs);
      var ref := seqs[0];
      for pos := 0 to |ref|
        invariant forall q: nat :: q < pos ==> Untried(seqs, q) == {}
      {
        if ref[pos].total > 1 {
          for idx := 0 to ref[pos].total
            invariant forall i: nat :: i < idx ==> i !in Untried(seqs, pos)
          {
            if (pos, idx) !in tried {
              assert IsNext(seqs, pos, idx);
              return Some(Forced(|ref|, pos, idx));
            }
          }
          assert Untried(seqs, pos) == {};
        }
      }
      return None;
    }

    /** The positions and indices seen in any recorded sequence. */
    method CollectTried(seqs: seq<Sequence>) returns (tried: set<(int, int)>)
      ensures forall pos: nat, idx: int :: (pos, idx) in tried <==> Tried(seqs, pos, idx)
    {
      tried := {};
      for k := 0 to |seqs|
        invariant forall pos: nat, idx: int :: (pos, idx) in tried <==> Tried(seqs[..k], pos, idx)
      {
        ghost var before := tried;
        for p := 0 to |seqs[k]|
          invariant forall pos: nat, idx: int :: (pos, idx) in tried <==>
            (pos, idx) in before || (pos < p && seqs[k][pos].chosen == idx)
        {
          tried := tried + {(p, seqs[k][p].chosen)};
        }
        assert seqs[..k + 1] == seqs[..k] + [seqs[k]];
        forall pos: nat, idx: int
          ensures (pos, idx) in tried <==> Tried(seqs[..k + 1], pos, idx)
        {
          TriedSnoc(seqs[..k], seqs[k], pos, idx);
        }
      }
      assert seqs[..|seqs|] == seqs;
    }
  }

  lemma TriedSnoc(seqs: seq<Sequence>, s: Sequence, pos: nat, idx: int)
    ensures Tried(seqs + [s], pos, idx) <==> Tried(seqs, pos, idx) || (pos < |s| && s[pos].chosen == idx)
  {
    var all := seqs + [s];
    if Tried(seqs, pos, idx) {
      var k :| 0 <= k < |seqs| && pos < |seqs[k]| && seqs[k][pos].chosen == idx;
      assert all[k] == seqs[k];
    }
    assert all[|seqs|] == s;
  }

  // ---------------------------------------------------------------- the directed loop

  /** Untried indices over the first n positions. */
  ghost function Missing(seqs: seq<Sequence>, n: nat): nat
    requires seqs != [] && n <= |seqs[0]|
  {
    if n == 0 then 0 else Missing(seqs, n - 1) + |Untried(seqs, n - 1)|
  }

  /** Alternatives beyond the one taken, over the first n positions. */
  function Budget(ref: Sequence, n: nat): nat
    requires n <= |ref|
  {
    if n == 0 then 0 else Budget(ref, n - 1) + (if ref[n - 1].total > 1 then ref[n - 1].total - 1 else 0)
  }

  ghost predicate ChoicesInRange(ref: Sequence) {
    forall pos :: 0 <= pos < |ref| && ref[pos].total > 1 ==> 0 <= ref[pos].chosen < ref[pos].total
  }

  /** In round j the override asked for was honoured and the sequence recorded. */
  ghost predicate Honoured(seqs: seq<Sequence>, j: nat)
    requires 1 <= j < |seqs|
  {
    exists pos: nat, idx: nat :: IsNext(seqs[..j], pos, idx) && pos < |seqs[j]| && seqs[j][pos].chosen == idx
  }

  /** The indices below n. */
  ghost function Below(n: nat): (r: set<int>)
    ensures |r| == n && forall i :: i in r <==> 0 <= i < n
  {
    if n == 0 then {} else Below(n - 1) + {n - 1}
  }

  lemma UntriedAtStart(ref: Sequence, pos: nat)
    requires ChoicesInRange(ref) && pos < |ref|
    ensures |Untried([ref], pos)| == if ref[pos].total > 1 then ref[pos].total - 1 else 0
  {
    var n := ref[pos].total;
    if n > 1 {
      assert Untried([ref], pos) == Below(n) - {ref[pos].chosen} by {
        forall idx: int
          ensures Tried([ref], pos, idx) <==> ref[pos].chosen == idx
        {
          TriedSnoc([], ref, pos, idx);
          assert [] + [ref] == [ref];
        }
      }
    }
  }

  lemma {:induction false} MissingAtStart(ref: Sequence, n: nat)
    requires ChoicesInRange(ref) && n <= |ref|
    ensures Missing([ref], n) == Budget(ref, n)
  {
    if n > 0 {
      MissingAtStart(ref, n - 1);
      UntriedAtStart(ref, n - 1);
    }
  }

  lemma UntriedShrinks(seqs: seq<Sequence>, s: Sequence, pos: nat)
    requires seqs != [] && pos < |seqs[0]|
    ensures Untried(seqs + [s], pos) <= Untried(seqs, pos)
    ensures |Untried(seqs + [s], pos)| <= |Untried(seqs, pos)|
  {
    assert (seqs + [s])[0] == seqs[0];
    forall idx | idx in Untried(seqs + [s], pos)
      ensures idx in Untried(seqs, pos)
    {
      TriedSnoc(seqs, s, pos, idx);
    }
    SubsetSize(Untried(seqs + [s], pos), Untried(seqs, pos));
  }

  lemma {:induction false} MissingShrinks(seqs: seq<Sequence>, s: Sequence, n: nat, pos: nat, idx: nat)
    requires seqs != [] && n <= |seqs[0]| && pos < |seqs[0]| && idx in Untried(seqs, pos)
    requires pos < |s| && s[pos].chosen == idx
    ensures (seqs + [s])[0] == seqs[0]
    ensures Missing(seqs + [s], n) + (if pos < n then 1 else 0) <= Missing(seqs, n)
    decreases n
  {
    assert (seqs + [s])[0] == seqs[0];
    if n > 0 {
      MissingShrinks(seqs, s, n - 1, pos, idx);
      UntriedShrinks(seqs, s, n - 1);
      if pos == n - 1 {
        TriedSnoc(seqs, s, pos, idx);
        SubsetSize(Untried(seqs + [s], pos), Untried(seqs, pos));
      }
    }
  }

  /** Every honoured round pays for one untried branch. */
  lemma {:induction false} RoundsPay(seqs: seq<Sequence>)
    requires seqs != [] && ChoicesInRange(seqs[0])
    requires forall j: nat :: 1 <= j < |seqs| ==> Honoured(seqs, j)
    ensures |seqs| - 1 + Missing(seqs, |seqs[0]|) <= Budget(seqs[0], |seqs[0]|)
    decreases |seqs|
  {
    var n := |seqs|;
    if n == 1 {
      assert seqs == [seqs[0]];
      MissingAtStart(seqs[0], |seqs[0]|);
    } else {
      var init := seqs[..n - 1];
      assert seqs == init + [seqs[n - 1]] && seqs[..n - 1] == init;
      forall j: nat | 1 <= j < n - 1
        ensures Honoured(init, j)
      {
        assert Honoured(seqs, j) && init[..j] == seqs[..j];
      }
      RoundsPay(init);
      assert Honoured(seqs, n - 1);
      var pos: nat, idx: nat :| IsNext(init, pos, idx) && pos < |seqs[n - 1]| && seqs[n - 1][pos].chosen == idx;
      MissingShrinks(init, seqs[n - 1], |seqs[0]|, pos, idx);
    }
  }

  lemma {:induction false} NothingMissing(seqs: seq<Sequence>, n: nat)
    requires seqs != [] && n <= |seqs[0]|
    ensures Missing(seqs, n) == 0 <==> forall pos: nat :: pos < n ==> Untried(seqs, pos) == {}
  {
    if n > 0 {
      NothingMissing(seqs, n - 1);
    }
  }

  /** Exhausted means that every index of every multi-way position of the reference occurs there in some
      recorded sequence. */
  lemma ExhaustedMeaning(seqs: seq<Sequence>)
    requires seqs != []
    ensures Exhausted(seqs) <==>
      forall pos: nat, idx :: pos < |seqs[0]| && seqs[0][pos].total > 1 && 0 <= idx < seqs[0][pos].total ==>
        Tried(seqs, pos, idx)
  {
    forall pos: nat, idx | pos < |seqs[0]| && seqs[0][pos].total > 1 && 0 <= idx < seqs[0][pos].total
      ensures idx in Untried(seqs, pos) <==> !Tried(seqs, pos, idx)
    {
    }
    if !Exhausted(seqs) {
      var pos: nat :| pos < |seqs[0]| && Untried(seqs, pos) != {};
      var idx :| idx in Untried(seqs, pos);
    }
  }

  /** The directed loop ends: with the overrides honoured and the reference choices in range, at most
      sum(total - 1) rounds are asked for, and a run that uses them all has exhausted every branch. */
  lemma DirectedLoopEnds(seqs: seq<Sequence>)
    requires seqs != [] && ChoicesInRange(seqs[0])
    requires forall j: nat :: 1 <= j < |seqs| ==> Honoured(seqs, j)
    ensures |seqs| - 1 <= Budget(seqs[0], |seqs[0]|)
    ensures |seqs| - 1 == Budget(seqs[0], |seqs[0]|) ==> Exhausted(seqs)
  {
    RoundsPay(seqs);
    NothingMissing(seqs, |seqs[0]|);
  }

  /** A run that ignores the override and shows nothing new is asked for the same branch again. */
  lemma IgnoredOverrideRepeats(seqs: seq<Sequence>, s: Sequence, pos: nat, idx: nat)
    requires IsNext(seqs, pos, idx)
    requires forall q: nat :: q < |s| ==> Tried(seqs, q, s[q].chosen)
    ensures IsNext(seqs + [s], pos, idx)
  {
    assert (seqs + [s])[0] == seqs[0];
    forall q: nat | q < |seqs[0]|
      ensures Untried(seqs + [s], q) == Untried(seqs, q)
    {
      forall i: int
        ensures Tried(seqs + [s], q, i) <==> Tried(seqs, q, i)
      {
        TriedSnoc(seqs, s, q, i);
      }
    }
  }
}
