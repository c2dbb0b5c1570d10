// Sorting by a strict order, as the stores use it: on elements no two of which compare equal.

module Sorting {

  ghost predicate Total<T(!new)>(less: (T, T) -> bool, s: seq<T>) {
    forall x, y {:trigger less(x, y)} :: x in s && y in s && x != y ==> less(x, y) || less(y, x)
  }

  ghost predicate Transitive<T(!new)>(less: (T, T) -> bool, s: seq<T>) {
    forall x, y, z {:trigger less(x, y), less(y, z)} :: x in s && y in s && z in s && less(x, y) && less(y, z) ==>
      less(x, z)
  }

  ghost predicate Distinct<T>(s: seq<T>) { forall i, j :: 0 <= i < j < |s| ==> s[i] != s[j] }

  ghost predicate Ascending<T>(less: (T, T) -> bool, s: seq<T>) {
    forall i, j {:trigger less(s[i], s[j])} :: 0 <= i < j < |s| ==> less(s[i], s[j])
  }

  method Sort<T(!new)>(s: seq<T>, less: (T, T) -> bool) returns (r: seq<T>)
    requires Total(less, s) && Transitive(less, s) && Distinct(s)
    ensures Ascending(less, r)
    ensures multiset(r) == multiset(s)
  {
    r := [];
    for n := 0 to |s|
      invariant Ascending(less, r)
      invariant multiset(r) == multiset(s[..n])
    {
      assert s[..n + 1] == s[..n] + [s[n]];
      var x := s[n];
      MultisetMembers(r, s[..n]);
      assert forall i :: 0 <= i < |r| ==> r[i] in s && r[i] != x by {
        forall i | 0 <= i < |r| ensures r[i] in s && r[i] != x {
          assert r[i] in s[..n];
        }
      }
      var p := 0;
      while p < |r| && less(r[p], x)
        invariant 0 <= p <= |r|
        invariant forall i :: 0 <= i < p ==> less(r[i], x)
      {
        p := p + 1;
      }
      InsertKeepsAscending(less, s, r, x, p);
      assert r == r[..p] + r[p..];
      r := r[..p] + [x] + r[p..];
    }
    assert s[..|s|] == s;
  }

  lemma MultisetMembers<T>(a: seq<T>, b: seq<T>)
    requires multiset(a) == multiset(b)
    ensures forall x :: x in a <==> x in b
    ensures |a| == |b|
  {
    forall x ensures x in a <==> x in b {
      assert x in a <==> x in multiset(a);
      assert x in b <==> x in multiset(b);
    }
    assert |multiset(a)| == |a| && |multiset(b)| == |b|;
  }

  lemma InsertKeepsAscending<T(!new)>(less: (T, T) -> bool, s: seq<T>, r: seq<T>, x: T, p: nat)
    requires Total(less, s) && Transitive(less, s) && Ascending(less, r)
    requires x in s && (forall i :: 0 <= i < |r| ==> r[i] in s && r[i] != x)
    requires p <= |r| && (forall i :: 0 <= i < p ==> less(r[i], x)) && (p < |r| ==> !less(r[p], x))
    ensures Ascending(less, r[..p] + [x] + r[p..])
  {
    var t := r[..p] + [x] + r[p..];
    forall j | p <= j < |r| ensures less(x, r[j]) {
      assert less(x, r[p]);
      assert j > p ==> less(r[p], r[j]);
    }
    forall i, j | 0 <= i < j < |t| ensures less(t[i], t[j]) {
      var a, b := if i < p then i else i - 1, if j < p then j else j - 1;
      if i != p && j != p {
        assert t[i] == r[a] && t[j] == r[b];
      }
    }
  }
}
