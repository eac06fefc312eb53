/** Facts about finite sequences used by several modules. */
module Lists {
  ghost predicate Distinct<R>(s: seq<R>) {
    forall i, j {:trigger s[i], s[j]} :: 0 <= i < j < |s| ==> s[i] != s[j]
  }

  function Without<R>(s: seq<R>, k: nat): (r: seq<R>)
    requires k < |s|
  {
    s[..k] + s[k + 1..]
  }

  // A sequence without repetition is no longer than a set that holds its elements.
  lemma {:induction false} DistinctBelow<R>(s: seq<R>, all: set<R>)
    requires Distinct(s)
    requires forall k {:trigger s[k]} :: 0 <= k < |s| ==> s[k] in all
    ensures |s| <= |all|
  {
    if s != [] {
      var t, last := s[..|s| - 1], s[|s| - 1];
      forall k | 0 <= k < |t| ensures t[k] in all - {last} { assert t[k] == s[k]; }
      forall i, j | 0 <= i < j < |t| ensures t[i] != t[j] { assert t[i] == s[i] && t[j] == s[j]; }
      DistinctBelow(t, all - {last});
    }
  }

  lemma InWithout<R>(s: seq<R>, k: nat, r: R)
    requires k < |s| && r in s && r != s[k]
    ensures r in Without(s, k)
  {
    var j :| 0 <= j < |s| && s[j] == r;
    assert Without(s, k)[if j < k then j else j - 1] == r;
  }

  lemma WithoutLeaves<R>(s: seq<R>, k: nat)
    requires k < |s| && Distinct(s)
    ensures s[k] !in Without(s, k)
  {
    forall i | 0 <= i < |s| - 1 ensures Without(s, k)[i] != s[k] {
      assert Without(s, k)[i] == s[if i < k then i else i + 1];
    }
  }

  lemma {:induction false} SubsetSize<R>(a: set<R>, b: set<R>)
    requires a <= b
    ensures |a| <= |b|
  {
    if a != {} {
      var x :| x in a;
      SubsetSize(a - {x}, b - {x});
    }
  }

  // A set whose elements all occur in a sequence is no larger than it is long.
  lemma {:induction false} CoveredBelow<R>(s: seq<R>, all: set<R>)
    requires forall x {:trigger x in all} :: x in all ==> x in s
    ensures |all| <= |s|
  {
    if s == [] {
      assert all == {};
    } else {
      var t, last := s[..|s| - 1], s[|s| - 1];
      forall x | x in all - {last} ensures x in t {
        var k :| 0 <= k < |s| && s[k] == x;
        assert t[k] == x;
      }
      CoveredBelow(t, all - {last});
    }
  }
}
