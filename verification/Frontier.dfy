/** The exploration frontier: a binary heap of candidates with index back-pointers, trimming, and
    the staleness-decaying pop. Sifting follows the heap package of the Go library. */
module Frontier {
  import opened Common

  const WORD := 0x1_0000_0000_0000_0000

  datatype Item = Item(id: nat, score: real, createdAt: nat)

  /** A heap slot: the candidate and the index it believes to be at. */
  datatype Entry = Entry(item: Item, index: int)

  /** Descending score, then ascending id. */
  predicate Before(a: Item, b: Item) {
    if a.score != b.score then a.score > b.score else a.id < b.id
  }

  /** a ranks no later than b. */
  predicate Ranks(a: Item, b: Item) { !Before(b, a) }

  function Parent(i: nat): nat
    requires i > 0
  {
    (i - 1) / 2
  }

  /** The heap relation between slot k and its parent. */
  predicate LinkOk(h: seq<Entry>, k: nat)
    requires 0 < k < |h|
  {
    Ranks(h[Parent(k)].item, h[k].item)
  }

  ghost predicate HeapOk(h: seq<Entry>) {
    forall k {:trigger LinkOk(h, k)} :: 0 < k < |h| ==> LinkOk(h, k)
  }

  ghost predicate IndexOk(h: seq<Entry>) { forall i :: 0 <= i < |h| ==> h[i].index == i }

  function Items(h: seq<Entry>): (s: seq<Item>)
    ensures |s| == |h| && forall i :: 0 <= i < |h| ==> s[i] == h[i].item
  {
    seq(|h|, i requires 0 <= i < |h| => h[i].item)
  }

  function Swapped(h: seq<Entry>, i: nat, j: nat): (r: seq<Entry>)
    requires i < |h| && j < |h|
    ensures |r| == |h|
  {
    h[i := Entry(h[j].item, i)][j := Entry(h[i].item, j)]
  }

  lemma SwapKeeps(h: seq<Entry>, i: nat, j: nat)
    requires i < |h| && j < |h| && IndexOk(h)
    ensures IndexOk(Swapped(h, i, j)) && multiset(Items(Swapped(h, i, j))) == multiset(Items(h))
  {
    var s := Items(h);
    assert Items(Swapped(h, i, j)) == s[i := s[j]][j := s[i]];
  }

  // ---------------------------------------------------------------- sifting up

  /** A heap except that slot j may rank before its parent. */
  ghost predicate UpInv(h: seq<Entry>, j: nat) {
    && j < |h|
    && (forall k {:trigger LinkOk(h, k)} :: 0 < k < |h| && k != j ==> LinkOk(h, k))
    && (forall k {:trigger LinkOk(h, k)} :: 0 < k < |h| && Parent(k) == j && j > 0 ==>
          Ranks(h[Parent(j)].item, h[k].item))
  }

  lemma UpStep(h: seq<Entry>, j: nat)
    requires UpInv(h, j) && j > 0 && Before(h[j].item, h[Parent(j)].item)
    ensures UpInv(Swapped(h, Parent(j), j), Parent(j))
  {
    var p := Parent(j);
    var r := Swapped(h, p, j);
    forall k | 0 < k < |r|
      ensures k != p ==> LinkOk(r, k)
      ensures Parent(k) == p && p > 0 ==> Ranks(r[Parent(p)].item, r[k].item)
    {
      assert k != j ==> LinkOk(h, k);
      if p > 0 {
        assert LinkOk(h, p);
      }
    }
  }

  // ---------------------------------------------------------------- sifting down

  /** Among the first n slots every link below a parent numbered lo or more holds, except below i,
      whose children still rank after i's own parent. */
  ghost predicate DownInv(h: seq<Entry>, lo: nat, i: nat, n: nat) {
    && lo <= i && n <= |h|
    && (forall k {:trigger LinkOk(h, k)} :: 0 < k < n && lo <= Parent(k) != i ==> LinkOk(h, k))
    && (forall k {:trigger LinkOk(h, k)} :: 0 < k < n && Parent(k) == i && i > 0 && lo <= Parent(i) ==>
          Ranks(h[Parent(i)].item, h[k].item))
  }

  ghost predicate SubHeap(h: seq<Entry>, lo: nat, n: nat) {
    n <= |h| && forall k {:trigger LinkOk(h, k)} :: 0 < k < n && lo <= Parent(k) ==> LinkOk(h, k)
  }

  /** Slot j is a child of i that ranks no later than either child of i. */
  ghost predicate BestChild(h: seq<Entry>, i: nat, j: nat, n: nat) {
    && n <= |h| && (j == 2 * i + 1 || j == 2 * i + 2) && j < n
    && Ranks(h[j].item, h[2 * i + 1].item) && (2 * i + 2 < n ==> Ranks(h[j].item, h[2 * i + 2].item))
  }

  lemma DownStep(h: seq<Entry>, lo: nat, i: nat, j: nat, n: nat)
    requires DownInv(h, lo, i, n) && BestChild(h, i, j, n) && Before(h[j].item, h[i].item)
    ensures DownInv(Swapped(h, i, j), lo, j, n)
  {
    var r := Swapped(h, i, j);
    forall k | 0 < k < n
      ensures lo <= Parent(k) != j ==> LinkOk(r, k)
      ensures Parent(k) == j ==> Ranks(r[i].item, r[k].item)
    {
      assert lo <= Parent(k) != i ==> LinkOk(h, k);
      assert Parent(k) == i ==> k == 2 * i + 1 || k == 2 * i + 2;
      if k == i && lo <= Parent(i) {
        assert Parent(j) == i;
        assert LinkOk(h, j) || !LinkOk(h, j);
      }
    }
  }

  lemma DownDone(h: seq<Entry>, lo: nat, i: nat, n: nat)
    requires DownInv(h, lo, i, n)
    requires 2 * i + 1 >= n || exists j: nat :: BestChild(h, i, j, n) && !Before(h[j].item, h[i].item)
    ensures SubHeap(h, lo, n)
  {
    forall k | 0 < k < n && lo <= Parent(k)
      ensures LinkOk(h, k)
    {
      if Parent(k) == i {
        assert k == 2 * i + 1 || k == 2 * i + 2;
      }
    }
  }

  /** The root of a heap ranks first. */
  lemma {:induction false} RootIsTop(h: seq<Entry>, i: nat)
    requires HeapOk(h) && i < |h|
    ensures Ranks(h[0].item, h[i].item)
    decreases i
  {
    if i > 0 {
      assert LinkOk(h, i);
      RootIsTop(h, Parent(i));
    }
  }

  // ---------------------------------------------------------------- ranking and sorting

  /** No entry of m has a higher score than x, and none of the same score a smaller id. */
  ghost predicate IsTop(m: multiset<Item>, x: Item) {
    x in m && forall y :: y in m ==> y.score < x.score || (y.score == x.score && x.id <= y.id)
  }

  /** Scores fall, and ids grow among equal scores. */
  ghost predicate RankedSeq(s: seq<Item>) {
    forall i, j :: 0 <= i < j < |s| ==> s[j].score < s[i].score || (s[j].score == s[i].score && s[i].id <= s[j].id)
  }

  function Insert(s: seq<Item>, x: Item): seq<Item> {
    if s == [] || Ranks(x, s[0]) then [x] + s else [s[0]] + Insert(s[1..], x)
  }

  /** The entries in ranking order. */
  function Sort(s: seq<Item>): seq<Item> {
    if s == [] then [] else Insert(Sort(s[1..]), s[0])
  }

  ghost predicate InOrder(s: seq<Item>) { forall i, j :: 0 <= i < j < |s| ==> Ranks(s[i], s[j]) }

  lemma {:induction false} InsertRanked(s: seq<Item>, x: Item)
    requires InOrder(s)
    ensures InOrder(Insert(s, x)) && multiset(Insert(s, x)) == multiset(s) + multiset{x}
  {
    if s == [] || Ranks(x, s[0]) {
    } else {
      InsertRanked(s[1..], x);
      var t := Insert(s[1..], x);
      assert s == [s[0]] + s[1..];
      forall y | y in t
        ensures Ranks(s[0], y)
      {
        assert y in multiset(t);
        if y != x {
          assert y in s[1..];
        }
      }
    }
  }

  lemma {:induction false} SortInOrder(s: seq<Item>)
    ensures InOrder(Sort(s)) && multiset(Sort(s)) == multiset(s)
  {
    if s != [] {
      SortInOrder(s[1..]);
      InsertRanked(Sort(s[1..]), s[0]);
      assert s == [s[0]] + s[1..];
    }
  }

  lemma SortRanked(s: seq<Item>)
    ensures RankedSeq(Sort(s)) && multiset(Sort(s)) == multiset(s)
  {
    SortInOrder(s);
    var t := Sort(s);
    forall i, j | 0 <= i < j < |t|
      ensures t[j].score < t[i].score || (t[j].score == t[i].score && t[i].id <= t[j].id)
    {
      assert Ranks(t[i], t[j]);
    }
  }

  function Ids(s: seq<Item>): seq<nat> { seq(|s|, i requires 0 <= i < |s| => s[i].id) }

  /** Entries numbered by position. */
  function Placed(s: seq<Item>): (h: seq<Entry>)
    ensures |h| == |s| && IndexOk(h) && Items(h) == s
  {
    seq(|s|, i requires 0 <= i < |s| => Entry(s[i], i))
  }

  // ---------------------------------------------------------------- the frontier

  class Heap {
    var h: seq<Entry>

    ghost predicate Valid()
      reads this
    {
      HeapOk(h) && IndexOk(h)
    }

    ghost function Content(): multiset<Item>
      reads this
    {
      multiset(Items(h))
    }

    constructor ()
      ensures Valid() && Content() == multiset{}
    {
      h := [];
      new;
      assert Items(h) == [];
    }

    method Swap(i: nat, j: nat)
      requires i < |h| && j < |h| && IndexOk(h)
      modifies this
      ensures h == Swapped(old(h), i, j) && IndexOk(h) && Content() == old(Content())
    {
      SwapKeeps(h, i, j);
      h := Swapped(h, i, j);
    }

    method Up(start: nat)
      requires UpInv(h, start) && IndexOk(h)
      modifies this
      ensures Valid() && |h| == |old(h)| && Content() == old(Content())
    {
      var j := start;
      while true
        invariant UpInv(h, j) && IndexOk(h) && |h| == |old(h)| && Content() == old(Content())
        decreases j
      {
        if j == 0 || !Before(h[j].item, h[Parent(j)].item) {
          break;
        }
        UpStep(h, j);
        Swap(Parent(j), j);
        j := Parent(j);
      }
      forall k | 0 < k < |h|
        ensures LinkOk(h, k)
      {
      }
    }

    /** Restores the links from parent `start` on, among the first n slots. */
    method Down(start: nat, n: nat)
      requires n <= |h| && SubHeap(h, start + 1, n) && IndexOk(h)
      modifies this
      ensures SubHeap(h, start, n) && IndexOk(h) && |h| == |old(h)| && Content() == old(Content())
      ensures h[n..] == old(h)[n..]
    {
      var i := start;
      assert start > 0 ==> Parent(start) < start;
      while 2 * i + 1 < n
        invariant DownInv(h, start, i, n) && IndexOk(h) && |h| == |old(h)| && Content() == old(Content())
        invariant h[n..] == old(h)[n..]
        decreases n - i
      {
        var j := 2 * i + 1;
        if j + 1 < n && Before(h[j + 1].item, h[j].item) {
          j := j + 1;
        }
        assert BestChild(h, i, j, n);
        if !Before(h[j].item, h[i].item) {
          DownDone(h, start, i, n);
          return;
        }
        DownStep(h, start, i, j, n);
        Swap(i, j);
        i := j;
      }
      DownDone(h, start, i, n);
    }

    method Init()
      requires IndexOk(h)
      modifies this
      ensures Valid() && |h| == |old(h)| && Content() == old(Content())
    {
      var n := |h|;
      var i := n / 2;
      while i > 0
        invariant 0 <= i && |h| == n && SubHeap(h, i, n) && IndexOk(h) && Content() == old(Content())
      {
        i := i - 1;
        Down(i, n);
      }
      forall k | 0 < k < |h|
        ensures LinkOk(h, k)
      {
        assert 0 <= Parent(k);
      }
    }

    method Push(x: Item)
      requires Valid()
      modifies this
      ensures Valid() && |h| == |old(h)| + 1 && Content() == old(Content()) + multiset{x}
    {
      ghost var before := h;
      h := h + [Entry(x, |h|)];
      assert Items(h) == Items(before) + [x];
      PushInv(before, h[|before|]);
      Up(|h| - 1);
    }

    /** Removes and returns the entry that ranks first; its back-pointer is cleared. */
    method Pop() returns (r: Option<Entry>)
      requires Valid()
      modifies this
      ensures Valid()
      ensures r.None? <==> |old(h)| == 0
      ensures r.None? ==> h == old(h)
      ensures r.Some? ==> r.value.index == -1 && IsTop(old(Content()), r.value.item)
      ensures r.Some? ==> |h| == |old(h)| - 1 && Content() + multiset{r.value.item} == old(Content())
    {
      if |h| == 0 {
        return None;
      }
      ghost var before := h;
      var n := |h| - 1;
      RootTop(before);
      Swap(0, n);
      ghost var swapped := h;
      PopInv(before);
      Down(0, n);
      var e := h[n];
      assert e == h[n..][0] && e == swapped[n..][0];
      ghost var full := h;
      h := h[..n];
      assert Items(full) == Items(h) + [e.item];
      forall k | 0 < k < |h|
        ensures LinkOk(h, k)
      {
        assert LinkOk(full, k);
      }
      return Some(Entry(e.item, -1));
    }

    /** Keeps the n entries that rank first and returns the ids of the others in ranking order. */
    method Trim(n: nat) returns (dropped: seq<nat>, ghost kept: seq<Item>, ghost rest: seq<Item>)
      requires Valid()
      modifies this
      ensures Valid()
      ensures |old(h)| <= n ==> h == old(h) && dropped == []
      ensures |old(h)| > n ==>
        && |h| == |kept| == n && Content() == multiset(kept) && dropped == Ids(rest)
        && multiset(kept) + multiset(rest) == old(Content())
        && RankedSeq(kept + rest)
        && (forall x, y :: x in kept && y in rest ==> y.score < x.score || (y.score == x.score && x.id <= y.id))
    {
      kept, rest := [], [];
      if |h| <= n {
        return [], [], [];
      }
      var all := Sort(Items(h));
      SortRanked(Items(h));
      assert |all| == |multiset(all)| == |multiset(Items(h))| == |h|;
      kept, rest := all[..n], all[n..];
      assert all == kept + rest;
      KeptRanksFirst(kept, rest);
      dropped := Ids(all[n..]);
      h := Placed(all[..n]);
      Init();
    }
  }

  lemma KeptRanksFirst(kept: seq<Item>, rest: seq<Item>)
    requires RankedSeq(kept + rest)
    ensures forall x, y :: x in kept && y in rest ==> y.score < x.score || (y.score == x.score && x.id <= y.id)
  {
    forall x, y | x in kept && y in rest
      ensures y.score < x.score || (y.score == x.score && x.id <= y.id)
    {
      var i :| 0 <= i < |kept| && kept[i] == x;
      var j :| 0 <= j < |rest| && rest[j] == y;
      assert (kept + rest)[i] == x && (kept + rest)[|kept| + j] == y;
    }
  }

  lemma PushInv(h: seq<Entry>, e: Entry)
    requires HeapOk(h)
    ensures UpInv(h + [e], |h|)
  {
    var r := h + [e];
    forall k | 0 < k < |r|
      ensures k != |h| ==> LinkOk(r, k)
      ensures Parent(k) != |h|
    {
      if k != |h| {
        assert LinkOk(h, k);
      }
    }
  }

  lemma RootTop(h: seq<Entry>)
    requires HeapOk(h) && h != []
    ensures IsTop(multiset(Items(h)), h[0].item)
  {
    assert Items(h)[0] == h[0].item;
    forall y | y in multiset(Items(h))
      ensures Ranks(h[0].item, y)
    {
      var i :| 0 <= i < |Items(h)| && Items(h)[i] == y;
      RootIsTop(h, i);
    }
  }

  /** With root and last exchanged, every link among the others not below the root still holds. */
  lemma PopInv(h: seq<Entry>)
    requires HeapOk(h) && h != []
    ensures SubHeap(Swapped(h, 0, |h| - 1), 1, |h| - 1)
  {
    var r := Swapped(h, 0, |h| - 1);
    forall k | 0 < k < |h| - 1 && 1 <= Parent(k)
      ensures LinkOk(r, k)
    {
      assert LinkOk(h, k);
    }
  }

  // ---------------------------------------------------------------- staleness decay

  /** Steps since creation, as a 64-bit unsigned difference. */
  function Age(now: nat, x: Item): nat { (now - x.createdAt) % WORD }

  predicate Stale(now: nat, x: Item) { Age(now, x) > 50 }

  function Decayed(x: Item): Item { x.(score := x.score * 0.9) }

  /** With 64-bit step numbers, an entry is stale once it is more than 50 steps old; one created after `now`
      has a wrapped age and is stale too, unless it lies almost a whole range ahead. */
  lemma StaleMeaning(now: nat, x: Item)
    requires now < WORD && x.createdAt < WORD
    ensures Stale(now, x) <==>
            if x.createdAt <= now then now - x.createdAt > 50 else x.createdAt - now < WORD - 50
  {
    var age := now - x.createdAt;
    if age < 0 {
      assert age % WORD == (age + WORD) % WORD;
    }
  }

  /** Decay moves a score a tenth of the way to zero and changes nothing else. */
  lemma DecayMeaning(x: Item)
    ensures Decayed(x).id == x.id && Decayed(x).createdAt == x.createdAt
    ensures 10.0 * (x.score - Decayed(x).score) == x.score
    ensures x.score > 0.0 ==> 0.0 < Decayed(x).score < x.score
  {
  }

  /** The content after the given entries, one after the other, were decayed and put back. */
  ghost function AfterDecays(m: multiset<Item>, ds: seq<Item>): multiset<Item> {
    if ds == [] then m
    else
      var d := ds[|ds| - 1];
      AfterDecays(m, ds[..|ds| - 1]) - multiset{d} + multiset{Decayed(d)}
  }

  /** Each decayed entry ranked first at its turn, was stale, and was not alone. */
  ghost predicate DecaysOk(now: nat, m: multiset<Item>, ds: seq<Item>) {
    ds == [] ||
    (DecaysOk(now, m, ds[..|ds| - 1]) &&
     var at := AfterDecays(m, ds[..|ds| - 1]);
     IsTop(at, ds[|ds| - 1]) && Stale(now, ds[|ds| - 1]) && |at| > 1)
  }

  /** One turn: pop; a stale entry that is not alone is decayed and put back. */
  method PopOrDecay(f: Heap, now: nat) returns (r: Option<Entry>, again: bool)
    requires f.Valid()
    modifies f
    ensures f.Valid() && (again ==> r.Some?) && (r.None? <==> |old(f.h)| == 0) && (r.None? ==> f.h == old(f.h))
    ensures r.Some? ==> IsTop(old(f.Content()), r.value.item)
    ensures again ==> Stale(now, r.value.item) && |old(f.Content())| > 1 && |f.h| == |old(f.h)|
    ensures again ==> f.Content() == old(f.Content()) - multiset{r.value.item} + multiset{Decayed(r.value.item)}
    ensures r.Some? && !again ==> (Stale(now, r.value.item) ==> |old(f.h)| == 1)
    ensures r.Some? && !again ==> |f.h| == |old(f.h)| - 1 && f.Content() + multiset{r.value.item} == old(f.Content())
  {
    assert |f.Content()| == |Items(f.h)|;
    r := f.Pop();
    again := r.Some? && Stale(now, r.value.item) && |f.h| > 0;
    if again {
      f.Push(Decayed(r.value.item));
    }
  }

  /** Up to three stale entries are decayed and put back; then the entry that ranks first is removed.
      Nothing else leaves or changes: the keys of the remaining entries and of the returned one are the
      keys there were. */
  method PopFrontierHeap(f: Heap, now: nat) returns (r: Option<Entry>, ghost decayed: seq<Item>)
    requires f.Valid()
    modifies f
    ensures f.Valid() && |decayed| <= 3 && DecaysOk(now, old(f.Content()), decayed)
    ensures r.None? <==> |old(f.h)| == 0
    ensures r.None? ==> decayed == [] && f.h == old(f.h)
    ensures r.Some? ==>
      var at := AfterDecays(old(f.Content()), decayed);
      && IsTop(at, r.value.item) && f.Content() + multiset{r.value.item} == at
      && |f.h| == |old(f.h)| - 1
      && (Stale(now, r.value.item) && |decayed| < 3 ==> |old(f.h)| == 1)
    ensures r.Some? ==> multiset(Keys(Items(f.h))) + multiset{Key(r.value.item)} == multiset(Keys(Items(old(f.h))))
  {
    r, decayed := PopAfterDecays(f, now);
    if r.Some? {
      PopConserves(now, Items(old(f.h)), decayed, Items(f.h), r.value.item);
    }
  }

  method PopAfterDecays(f: Heap, now: nat) returns (r: Option<Entry>, ghost decayed: seq<Item>)
    requires f.Valid()
    modifies f
    ensures f.Valid() && |decayed| <= 3 && DecaysOk(now, old(f.Content()), decayed)
    ensures r.None? <==> |old(f.h)| == 0
    ensures r.None? ==> decayed == [] && f.h == old(f.h)
    ensures r.Some? ==>
      var at := AfterDecays(old(f.Content()), decayed);
      && IsTop(at, r.value.item) && f.Content() + multiset{r.value.item} == at
      && |f.h| == |old(f.h)| - 1
      && (Stale(now, r.value.item) && |decayed| < 3 ==> |old(f.h)| == 1)
  {
    ghost var m := f.Content();
    decayed := [];
    for i := 0 to 3
      invariant f.Valid() && |decayed| == i && DecaysOk(now, m, decayed) && |f.h| == |old(f.h)|
      invariant f.Content() == AfterDecays(m, decayed)
      invariant i > 0 ==> |old(f.h)| > 0
      invariant i == 0 ==> f.h == old(f.h)
    {
      ghost var at := f.Content();
      var again;
      r, again := PopOrDecay(f, now);
      if !again {
        return;
      }
      DecayStep(now, m, decayed, r.value.item, at);
      decayed := decayed + [r.value.item];
    }
    r := f.Pop();
  }

  lemma DecayStep(now: nat, m: multiset<Item>, ds: seq<Item>, d: Item, at: multiset<Item>)
    requires DecaysOk(now, m, ds) && at == AfterDecays(m, ds)
    requires IsTop(at, d) && Stale(now, d) && |at| > 1
    ensures DecaysOk(now, m, ds + [d]) && AfterDecays(m, ds + [d]) == at - multiset{d} + multiset{Decayed(d)}
  {
    assert (ds + [d])[..|ds|] == ds;
  }

  // ---------------------------------------------------------------- conservation

  /** What identifies an entry: decay changes its score only. */
  function Key(x: Item): (nat, nat) { (x.id, x.createdAt) }

  function Keys(s: seq<Item>): (r: seq<(nat, nat)>)
    ensures |r| == |s| && forall i :: 0 <= i < |s| ==> r[i] == Key(s[i])
  {
    seq(|s|, i requires 0 <= i < |s| => Key(s[i]))
  }

  lemma KeysSplit(s: seq<Item>, k: nat)
    requires k < |s|
    ensures multiset(Keys(s)) == multiset(Keys(Without(s, k))) + multiset{Key(s[k])}
  {
    var ks := Keys(s);
    assert Keys(Without(s, k)) == Without(ks, k);
    TakeOne(ks, k);
  }

  /** Permuted entries have permuted keys. */
  lemma {:induction false} KeysPermute(a: seq<Item>, b: seq<Item>)
    requires multiset(a) == multiset(b)
    ensures multiset(Keys(a)) == multiset(Keys(b))
    decreases |a|
  {
    if a == [] {
      assert |multiset(b)| == 0;
      assert Keys(a) == [] && Keys(b) == [];
    } else {
      assert a[0] in multiset(b);
      var k :| 0 <= k < |b| && b[k] == a[0];
      KeysSplit(a, 0);
      KeysSplit(b, k);
      TakeOne(a, 0);
      TakeOne(b, k);
      Cancel(multiset(Without(a, 0)), multiset(Without(b, k)), a[0]);
      KeysPermute(Without(a, 0), Without(b, k));
    }
  }

  lemma UndoAt(at: multiset<Item>, d: Item, b: seq<Item>, k: nat)
    requires d in at && multiset(b) == at - multiset{d} + multiset{Decayed(d)}
    requires k < |b| && b[k] == Decayed(d)
    ensures multiset(b[k := d]) == at
  {
    TakeOne(b, k);
    TakeOne(b[k := d], k);
    assert Without(b[k := d], k) == Without(b, k);
    Cancel(multiset(Without(b, k)), at - multiset{d}, Decayed(d));
  }

  /** Undoing one decay: the entries before it, with the same keys. */
  lemma Undo(at: multiset<Item>, d: Item, b: seq<Item>) returns (undone: seq<Item>)
    requires d in at && multiset(b) == at - multiset{d} + multiset{Decayed(d)}
    ensures multiset(undone) == at && Keys(undone) == Keys(b)
  {
    assert Decayed(d) in multiset(b);
    var k :| 0 <= k < |b| && b[k] == Decayed(d);
    undone := b[k := d];
    UndoAt(at, d, b, k);
  }

  /** Decaying entries and putting them back keeps every key as often as it was. */
  lemma {:induction false} DecaysConserve(now: nat, a: seq<Item>, ds: seq<Item>, b: seq<Item>)
    requires DecaysOk(now, multiset(a), ds) && multiset(b) == AfterDecays(multiset(a), ds)
    ensures multiset(Keys(b)) == multiset(Keys(a))
    decreases |ds|
  {
    if ds == [] {
      KeysPermute(a, b);
    } else {
      var init := ds[..|ds| - 1];
      var undone := Undo(AfterDecays(multiset(a), init), ds[|ds| - 1], b);
      DecaysConserve(now, a, init, undone);
    }
  }

  lemma PopConserves(now: nat, before: seq<Item>, ds: seq<Item>, after: seq<Item>, x: Item)
    requires DecaysOk(now, multiset(before), ds)
    requires multiset(after) + multiset{x} == AfterDecays(multiset(before), ds)
    ensures multiset(Keys(after)) + multiset{Key(x)} == multiset(Keys(before))
  {
    DecaysConserve(now, before, ds, after + [x]);
    assert Keys(after + [x]) == Keys(after) + [Key(x)];
  }
}
