/** Order-preserving subsequences, the relation between a fault schedule and its reductions. */
module Subsequence {
  import opened Common

  ghost predicate IsSubsequence<T>(a: seq<T>, b: seq<T>)
    decreases |b|
  {
    a == [] ||
    (b != [] && ((a[0] == b[0] && IsSubsequence(a[1..], b[1..])) || IsSubsequence(a, b[1..])))
  }

  /** A subsequence is no longer than its whole, and only the whole is as long. */
  lemma {:induction false} Length<T>(a: seq<T>, b: seq<T>)
    requires IsSubsequence(a, b)
    ensures |a| <= |b|
    ensures |a| == |b| ==> a == b
    decreases |b|
  {
    if a != [] {
      if a[0] == b[0] && IsSubsequence(a[1..], b[1..]) {
        Length(a[1..], b[1..]);
      } else {
        Length(a, b[1..]);
      }
    }
  }

  lemma {:induction false} Skip<T>(a: seq<T>, p: seq<T>, b: seq<T>)
    requires IsSubsequence(a, b)
    ensures IsSubsequence(a, p + b)
    decreases |p|
  {
    if p == [] {
      assert p + b == b;
    } else {
      Skip(a, p[1..], b);
      assert (p + b)[1..] == p[1..] + b;
    }
  }

  lemma {:induction false} Keep<T>(p: seq<T>, a: seq<T>, b: seq<T>)
    requires IsSubsequence(a, b)
    ensures IsSubsequence(p + a, p + b)
    decreases |p|
  {
    if p == [] {
      assert p + a == a && p + b == b;
    } else {
      Keep(p[1..], a, b);
      assert (p + a)[1..] == p[1..] + a && (p + b)[1..] == p[1..] + b;
    }
  }

  lemma {:induction false} SubsequenceSnoc<T>(a: seq<T>, b: seq<T>, x: T)
    requires IsSubsequence(a, b)
    ensures IsSubsequence(a, b + [x]) && IsSubsequence(a + [x], b + [x])
    decreases |b|
  {
    if b == [] {
      assert a == [] && a + [x] == [x] && b + [x] == [x] && [x][1..] == [];
    } else {
      assert (b + [x])[1..] == b[1..] + [x];
      if a != [] && a[0] == b[0] && IsSubsequence(a[1..], b[1..]) {
        SubsequenceSnoc(a[1..], b[1..], x);
        assert (a + [x])[1..] == a[1..] + [x];
      } else {
        SubsequenceSnoc(a, b[1..], x);
      }
    }
  }

  lemma Reflexive<T>(a: seq<T>)
    ensures IsSubsequence(a, a)
  {
    Keep(a, [], []);
    assert a + [] == a;
  }

  lemma {:induction false} Transitive<T>(a: seq<T>, b: seq<T>, c: seq<T>)
    requires IsSubsequence(a, b) && IsSubsequence(b, c)
    ensures IsSubsequence(a, c)
    decreases |c|
  {
    if a != [] {
      if b[0] == c[0] && IsSubsequence(b[1..], c[1..]) {
        if a[0] == b[0] && IsSubsequence(a[1..], b[1..]) {
          Transitive(a[1..], b[1..], c[1..]);
        } else {
          Transitive(a, b[1..], c[1..]);
        }
      } else {
        Transitive(a, b, c[1..]);
      }
    }
  }

  /** Everything the minimiser ever tries is a subsequence of what it started from. */
  lemma Reductions<T>(s: seq<T>, i: nat)
    requires i <= |s|
    ensures IsSubsequence(s[..i], s) && IsSubsequence(s[i..], s)
    ensures i < |s| ==> IsSubsequence(Without(s, i), s)
  {
    assert s == s[..i] + s[i..];
    Keep(s[..i], [], s[i..]);
    assert s[..i] + [] == s[..i];
    Reflexive(s[i..]);
    Skip(s[i..], s[..i], s[i..]);
    if i < |s| {
      Reflexive(s[i+1..]);
      Skip(s[i+1..], [s[i]], s[i+1..]);
      assert [s[i]] + s[i+1..] == s[i..];
      Keep(s[..i], s[i+1..], s[i..]);
    }
  }

  /** A proper subsequence misses some event, so it survives removing that event. */
  lemma {:induction false} ProperFactors<T>(a: seq<T>, b: seq<T>) returns (i: nat)
    requires IsSubsequence(a, b) && |a| < |b|
    ensures i < |b| && IsSubsequence(a, Without(b, i))
    decreases |b|
  {
    if a != [] && a[0] == b[0] && IsSubsequence(a[1..], b[1..]) {
      var j := ProperFactors(a[1..], b[1..]);
      i := j + 1;
      assert Without(b, i)[1..] == Without(b[1..], j);
    } else {
      i := 0;
      assert Without(b, 0) == b[1..];
    }
  }
}
