/** Lexicographic order of strings and sorted listings of sets of strings. */
module KeyOrder {

  predicate Less(a: string, b: string) {
    b != [] && (a == [] || a[0] < b[0] || (a[0] == b[0] && Less(a[1..], b[1..])))
  }

  /** The strings agree before position i, where a ends or has the smaller character. */
  ghost predicate DiffersAt(a: string, b: string, i: nat) {
    i <= |a| && i < |b| && a[..i] == b[..i] && (i < |a| ==> a[i] < b[i])
  }

  /** The order of the first difference; a proper prefix comes first. */
  lemma {:induction false} LessMeaning(a: string, b: string)
    ensures Less(a, b) <==> exists i: nat :: DiffersAt(a, b, i)
  {
    if Less(a, b) {
      var i := FirstDifference(a, b);
    }
    forall i: nat | DiffersAt(a, b, i)
      ensures Less(a, b)
    {
      DifferenceOrders(a, b, i);
    }
  }

  lemma {:induction false} FirstDifference(a: string, b: string) returns (i: nat)
    requires Less(a, b)
    ensures DiffersAt(a, b, i)
  {
    if a == [] || a[0] < b[0] {
      i := 0;
    } else {
      var j := FirstDifference(a[1..], b[1..]);
      i := j + 1;
      assert a[..i] == [a[0]] + a[1..][..j] && b[..i] == [b[0]] + b[1..][..j];
    }
  }

  lemma {:induction false} DifferenceOrders(a: string, b: string, i: nat)
    requires DiffersAt(a, b, i)
    ensures Less(a, b)
    decreases i
  {
    if i > 0 {
      assert a[0] == a[..i][0] && b[0] == b[..i][0];
      assert a[1..][..i - 1] == a[..i][1..] && b[1..][..i - 1] == b[..i][1..];
      DifferenceOrders(a[1..], b[1..], i - 1);
    }
  }

  lemma {:induction false} LessTotal(a: string, b: string)
    ensures a == b || Less(a, b) || Less(b, a)
    ensures Less(a, b) ==> a != b && !Less(b, a)
  {
    if a != [] && b != [] && a[0] == b[0] {
      LessTotal(a[1..], b[1..]);
      assert a == [a[0]] + a[1..] && b == [b[0]] + b[1..];
    }
  }

  lemma {:induction false} LessTransitive(a: string, b: string, c: string)
    requires Less(a, b) && Less(b, c)
    ensures Less(a, c)
  {
    if a != [] && a[0] == b[0] && b[0] == c[0] {
      LessTransitive(a[1..], b[1..], c[1..]);
    }
  }

  ghost predicate Sorted(s: seq<string>) { forall i, j :: 0 <= i < j < |s| ==> Less(s[i], s[j]) }

  ghost predicate Lists(s: seq<string>, keys: set<string>) { Sorted(s) && (set k | k in s) == keys }

  lemma {:induction false} ListingUnique(a: seq<string>, b: seq<string>, keys: set<string>)
    requires Lists(a, keys) && Lists(b, keys)
    ensures a == b
    decreases |a|
  {
    assert |a| > 0 ==> a[0] in keys;
    assert |b| > 0 ==> b[0] in keys;
    if a != [] && b != [] {
      FirstIsLeast(a, b[0]);
      FirstIsLeast(b, a[0]);
      LessTotal(a[0], b[0]);
      TailLists(a, keys);
      TailLists(b, keys);
      ListingUnique(a[1..], b[1..], keys - {a[0]});
      assert a == [a[0]] + a[1..] && b == [b[0]] + b[1..];
    }
  }

  lemma FirstIsLeast(s: seq<string>, k: string)
    requires Sorted(s) && k in s
    ensures k == s[0] || Less(s[0], k)
  {
    var i :| 0 <= i < |s| && s[i] == k;
    if i > 0 {
      assert Less(s[0], s[i]);
    }
  }

  lemma TailLists(s: seq<string>, keys: set<string>)
    requires s != [] && Lists(s, keys)
    ensures Lists(s[1..], keys - {s[0]})
  {
    assert s == [s[0]] + s[1..];
    forall k | k in s[1..]
      ensures k != s[0]
    {
      var i :| 0 <= i < |s[1..]| && s[1..][i] == k;
      assert Less(s[0], s[i + 1]);
      LessTotal(s[0], k);
    }
    assert forall k :: k in keys ==> k in s;
    assert forall k :: k in s[1..] ==> k in s && k in keys;
  }

  /** Every listed key is less than every key still to come. */
  ghost predicate Precede(s: seq<string>, rest: set<string>) {
    forall i, k :: 0 <= i < |s| && k in rest ==> Less(s[i], k)
  }

  ghost predicate Minimum(keys: set<string>, least: string) {
    least in keys && forall k :: k in keys && k != least ==> Less(least, k)
  }

  lemma SnocLists(s: seq<string>, keys: set<string>, rest: set<string>, k: string)
    requires Lists(s, keys) && Precede(s, rest) && Minimum(rest, k)
    ensures Lists(s + [k], keys + {k}) && Precede(s + [k], rest - {k})
  {
    assert (set x | x in s + [k]) == (set x | x in s) + {k};
  }

  method Least(keys: set<string>) returns (least: string)
    requires keys != {}
    ensures Minimum(keys, least)
  {
    least :| least in keys;
    var rest := keys - {least};
    while rest != {}
      invariant rest <= keys && least in keys && least !in rest
      invariant forall k :: k in keys && k !in rest && k != least ==> Less(least, k)
      decreases |rest|
    {
      var k :| k in rest;
      LessTotal(k, least);
      if Less(k, least) {
        forall x | x in keys && x !in rest && x != least
          ensures Less(k, x)
        {
          LessTransitive(k, least, x);
        }
        least := k;
      }
      rest := rest - {k};
    }
  }

  /** The keys in ascending order. */
  method SortKeys(keys: set<string>) returns (listing: seq<string>)
    ensures Lists(listing, keys)
  {
    listing := [];
    var rest := keys;
    ghost var done: set<string> := {};
    while rest != {}
      invariant rest !! done && rest + done == keys && Lists(listing, done)
      invariant Precede(listing, rest)
      decreases |rest|
    {
      var k := Least(rest);
      SnocLists(listing, done, rest, k);
      listing := listing + [k];
      rest, done := rest - {k}, done + {k};
    }
  }
}
