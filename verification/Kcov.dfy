/** The guest's kernel-coverage fold: a stream of program counters is folded, burst by burst,
    into a bitmap of saturating edge counters. The shared bitmap is present. */
module Kcov {
  import opened Common

  const BITMAP_SIZE := 0x1_0000
  const KCOV_ENTRIES := 524288

  /** A 64-bit word: a program counter, or the buffer's count word. */
  type Pc = x: int | 0 <= x < 0x1_0000_0000_0000_0000

  /** The edge from one program counter to the next, as one word. */
  function Edge(prev: bv64, cur: bv64): bv64 { (prev >> 1) ^ cur }

  /** The slot of that edge. */
  function Slot(prev: Pc, cur: Pc): (s: nat)
    ensures s < BITMAP_SIZE
  {
    Edge(prev as bv64, cur as bv64) as nat % BITMAP_SIZE
  }

  /** The word and the earlier counter give back the later one. */
  lemma EdgeGivesNext(prev: bv64, cur: bv64)
    ensures Edge(prev, Edge(prev, cur)) == cur
  {
  }

  /** The word and the later counter give back the earlier one, but for its lowest bit. */
  lemma EdgeGivesPrevious(prev: bv64, cur: bv64)
    ensures Edge(prev, cur) ^ cur == prev >> 1
  {
  }

  function Bump(x: Byte): Byte { if x < 255 then x + 1 else x }

  datatype State = State(bitmap: seq<Byte>, lastPc: Pc)

  /** One step: the edge from the previous program counter, if there is one, is counted. */
  function Step(st: State, cur: Pc): (r: State)
    requires |st.bitmap| == BITMAP_SIZE
    ensures |r.bitmap| == BITMAP_SIZE
  {
    var slot := Slot(st.lastPc, cur);
    State(if st.lastPc != 0 then st.bitmap[slot := Bump(st.bitmap[slot])] else st.bitmap, cur)
  }

  function Fold(st: State, trace: seq<Pc>): (r: State)
    requires |st.bitmap| == BITMAP_SIZE
    ensures |r.bitmap| == BITMAP_SIZE
  {
    if trace == [] then st else Step(Fold(st, trace[..|trace| - 1]), trace[|trace| - 1])
  }

  /** What a trace buffer of fixed capacity hands to one flush. */
  function Delivered(burst: seq<Pc>): seq<Pc> {
    if |burst| <= KCOV_ENTRIES - 1 then burst else burst[..KCOV_ENTRIES - 1]
  }

  function FlushAll(st: State, bursts: seq<seq<Pc>>): (r: State)
    requires |st.bitmap| == BITMAP_SIZE
    ensures |r.bitmap| == BITMAP_SIZE
  {
    if bursts == [] then st else Fold(FlushAll(st, bursts[..|bursts| - 1]), Delivered(bursts[|bursts| - 1]))
  }

  /** The count word, limited to the entries the buffer has beside it. */
  function Clamped(word: Pc): (n: nat)
    ensures n == word || KCOV_ENTRIES - 1 == n < word
    ensures n < KCOV_ENTRIES
  {
    if word > KCOV_ENTRIES - 1 then KCOV_ENTRIES - 1 else word
  }

  /** The buffer of a guest that traced `burst`: the count word counts all of it, and the entries hold as
      much of it as there is room for. */
  ghost predicate Holds(buf: seq<Pc>, burst: seq<Pc>) {
    && |buf| == KCOV_ENTRIES && buf[0] == |burst|
    && forall k :: 0 <= k < |burst| && k < KCOV_ENTRIES - 1 ==> buf[k + 1] == burst[k]
  }

  /** What the buffer announces of a burst is what the burst delivers. */
  lemma AnnouncedIsDelivered(buf: seq<Pc>, burst: seq<Pc>)
    requires Holds(buf, burst)
    ensures buf[1..Clamped(buf[0]) + 1] == Delivered(burst)
  {
    var a, d := buf[1..Clamped(buf[0]) + 1], Delivered(burst);
    assert |a| == |d|;
    assert forall k :: 0 <= k < |d| ==> a[k] == buf[k + 1] && d[k] == burst[k];
  }

  lemma FlushOne(st: State, burst: seq<Pc>)
    requires |st.bitmap| == BITMAP_SIZE
    ensures FlushAll(st, [burst]) == Fold(st, Delivered(burst))
  {
    assert [burst][..0] == [];
  }

  lemma BurstAnnounced(st: State, buf: seq<Pc>)
    requires |st.bitmap| == BITMAP_SIZE && |buf| == KCOV_ENTRIES
    ensures forall burst :: Holds(buf, burst) ==> FlushAll(st, [burst]) == Fold(st, buf[1..Clamped(buf[0]) + 1])
  {
    forall burst | Holds(buf, burst)
      ensures FlushAll(st, [burst]) == Fold(st, buf[1..Clamped(buf[0]) + 1])
    {
      AnnouncedIsDelivered(buf, burst);
      FlushOne(st, burst);
    }
  }

  function Zeros(): seq<Byte> { seq(BITMAP_SIZE, _ => 0) }

  class KcovState {
    const bitmap: array<Byte>
    const buf: array<Pc>
    var lastPc: Pc

    constructor ()
      ensures Valid() && View() == State(Zeros(), 0) && fresh(bitmap) && fresh(buf) && buf[0] == 0
    {
      bitmap := new Byte[BITMAP_SIZE](_ => 0);
      buf := new Pc[KCOV_ENTRIES](_ => 0);
      lastPc := 0;
      new;
      assert bitmap[..] == Zeros();
    }

    ghost predicate Valid()
    {
      bitmap.Length == BITMAP_SIZE && buf.Length == KCOV_ENTRIES
    }

    ghost function View(): State
      reads this, bitmap
    {
      State(bitmap[..], lastPc)
    }

    /** The program counters the buffer announces, clamped to its capacity. */
    ghost function Announced(): seq<Pc>
      requires Valid()
      reads buf
    {
      buf[1..Clamped(buf[0]) + 1]
    }

    method CountEdge(prev: Pc, cur: Pc)
      requires Valid()
      modifies bitmap
      ensures State(bitmap[..], cur) == Step(State(old(bitmap[..]), prev), cur)
    {
      if prev != 0 {
        var slot := Slot(prev, cur);
        var seen := bitmap[slot];
        if seen < 255 {
          bitmap[slot] := seen + 1;
        }
      }
    }

    method FlushTrace()
      requires Valid()
      modifies this`lastPc, bitmap, buf
      ensures View() == Fold(old(View()), old(Announced()))
      ensures forall burst :: Holds(old(buf[..]), burst) ==> View() == FlushAll(old(View()), [burst])
      ensures buf[0] == 0 && buf[1..] == old(buf[1..])
    {
      BurstAnnounced(View(), buf[..]);
      assert buf[..][1..Clamped(buf[0]) + 1] == Announced();
      ghost var st, trace := View(), Announced();
      var count := Clamped(buf[0]);
      buf[0] := 0;
      assert forall k :: 1 <= k < buf.Length ==> buf[k] == old(buf[k]);
      assert |trace| == count && forall k :: 0 <= k < count ==> trace[k] == buf[k + 1];
      if count >= 1 {
        FoldBuffer(count, st, trace);
      }
    }

    method FoldBuffer(count: nat, ghost st: State, ghost trace: seq<Pc>)
      requires Valid() && 1 <= count < KCOV_ENTRIES && trace == buf[1..count + 1] && st == View()
      modifies this`lastPc, bitmap
      ensures View() == Fold(st, trace)
    {
      var prev := lastPc;
      for i := 0 to count
        invariant lastPc == st.lastPc && State(bitmap[..], prev) == Fold(st, trace[..i])
      {
        var cur := buf[i + 1];
        assert cur == trace[i] && trace[..i + 1][..i] == trace[..i];
        CountEdge(prev, cur);
        prev := cur;
      }
      assert trace[..count] == trace;
      lastPc := buf[count];
    }

    method Reset()
      requires Valid()
      modifies this`lastPc, bitmap, buf
      ensures View() == State(Zeros(), 0) && buf[0] == 0
    {
      buf[0] := 0;
      for i := 0 to bitmap.Length
        invariant buf[0] == 0 && forall k :: 0 <= k < i ==> bitmap[k] == 0
      {
        bitmap[i] := 0;
      }
      lastPc := 0;
    }
  }

  // ---------------------------------------------------------------- burst boundaries

  lemma {:induction false} FoldConcat(st: State, a: seq<Pc>, b: seq<Pc>)
    requires |st.bitmap| == BITMAP_SIZE
    ensures Fold(st, a + b) == Fold(Fold(st, a), b)
    decreases |b|
  {
    if b == [] {
      assert a + b == a;
    } else {
      assert (a + b)[..|a + b| - 1] == a + b[..|b| - 1];
      FoldConcat(st, a, b[..|b| - 1]);
    }
  }

  function Concat(bursts: seq<seq<Pc>>): seq<Pc> {
    if bursts == [] then [] else Concat(bursts[..|bursts| - 1]) + bursts[|bursts| - 1]
  }

  ghost predicate Fit(bursts: seq<seq<Pc>>) { forall k :: 0 <= k < |bursts| ==> |bursts[k]| <= KCOV_ENTRIES - 1 }

  /** Flushing a trace in bursts, cut anywhere, equals one fold over the whole trace. */
  lemma {:induction false} BoundariesVanish(st: State, bursts: seq<seq<Pc>>)
    requires |st.bitmap| == BITMAP_SIZE && Fit(bursts)
    ensures FlushAll(st, bursts) == Fold(st, Concat(bursts))
    decreases |bursts|
  {
    if bursts != [] {
      var init := bursts[..|bursts| - 1];
      BoundariesVanish(st, init);
      FoldConcat(st, Concat(init), bursts[|bursts| - 1]);
    }
  }

  /** Two ways of cutting one trace into bursts leave the same bitmap and bridging counter. */
  lemma SameTraceSameCoverage(st: State, a: seq<seq<Pc>>, b: seq<seq<Pc>>)
    requires |st.bitmap| == BITMAP_SIZE && Fit(a) && Fit(b) && Concat(a) == Concat(b)
    ensures FlushAll(st, a) == FlushAll(st, b)
  {
    BoundariesVanish(st, a);
    BoundariesVanish(st, b);
  }

  // ---------------------------------------------------------------- what the bitmap counts

  /** Adjacent pairs of the trace, with a first counter that is not zero, that map to slot i. */
  function Edges(trace: seq<Pc>, i: nat): nat {
    if |trace| < 2 then 0
    else
      var n := |trace|;
      Edges(trace[..n - 1], i) + (if trace[n - 2] != 0 && Slot(trace[n - 2], trace[n - 1]) == i then 1 else 0)
  }

  function Saturated(n: nat): Byte { if n > 255 then 255 else n }

  /** After a reset each slot holds its edge count, saturated at 255, and the bridge is the
      last program counter. */
  lemma {:induction false} SlotsCountEdges(trace: seq<Pc>, i: nat)
    requires i < BITMAP_SIZE
    ensures var r := Fold(State(Zeros(), 0), trace);
      && r.bitmap[i] == Saturated(Edges(trace, i))
      && r.lastPc == if trace == [] then 0 else trace[|trace| - 1]
    decreases |trace|
  {
    if trace != [] {
      SlotsCountEdges(trace[..|trace| - 1], i);
    }
  }

  /** Any bursts of one boot: the reset state, the bursts, and the edge counts of the joined trace. */
  lemma BurstsCountEdges(bursts: seq<seq<Pc>>, i: nat)
    requires Fit(bursts) && i < BITMAP_SIZE
    ensures FlushAll(State(Zeros(), 0), bursts).bitmap[i] == Saturated(Edges(Concat(bursts), i))
  {
    BoundariesVanish(State(Zeros(), 0), bursts);
    SlotsCountEdges(Concat(bursts), i);
  }

  /** A burst beyond the buffer's capacity loses its tail, and the next burst then bridges from
      the last delivered counter. */
  lemma OverflowTruncates(st: State, burst: seq<Pc>, next: seq<Pc>)
    requires |st.bitmap| == BITMAP_SIZE && |burst| >= KCOV_ENTRIES && |next| <= KCOV_ENTRIES - 1
    ensures FlushAll(st, [burst, next]) == Fold(st, burst[..KCOV_ENTRIES - 1] + next)
  {
    assert [burst, next][..1] == [burst] && [burst][..0] == [];
    assert FlushAll(st, [burst]) == Fold(FlushAll(st, []), Delivered(burst));
    FoldConcat(st, burst[..KCOV_ENTRIES - 1], next);
  }
}
