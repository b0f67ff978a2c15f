/** Queries over an in-memory table, kept as a sequence of rows in insertion order. */
module Seqs {
  import opened Wrappers

  /** The rows of `s` that satisfy `p`, in table order (a query's `.filter(...).all()`). */
  function Filter<T(!new)>(s: seq<T>, p: T -> bool): (r: seq<T>)
    ensures |r| <= |s|
    ensures forall x :: x in r <==> x in s && p(x)
    ensures (forall x :: x in s ==> p(x)) ==> r == s
  {
    if s == [] then []
    else if p(s[0]) then [s[0]] + Filter(s[1..], p)
    else Filter(s[1..], p)
  }

  /** The first row of `s` that satisfies `p`, if any (a query's `.filter(...).first()`). */
  function First<T(!new)>(s: seq<T>, p: T -> bool): (r: Option<T>)
    ensures r.Some? ==> r.value in s && p(r.value)
    ensures r.None? <==> forall x :: x in s ==> !p(x)
  {
    if s == [] then None
    else if p(s[0]) then Some(s[0])
    else First(s[1..], p)
  }

  /** `s` with every row that satisfies `p` overwritten by `x` (an ORM flush of `x`). */
  function Replace<T>(s: seq<T>, p: T -> bool, x: T): seq<T> {
    seq(|s|, i requires 0 <= i < |s| => if p(s[i]) then x else s[i])
  }

  /** No two rows of `s` share a key (a primary key or a UNIQUE column). */
  predicate Distinct<T, K(==)>(s: seq<T>, key: T -> K) {
    forall i, j :: 0 <= i < j < |s| ==> key(s[i]) != key(s[j])
  }

  lemma {:induction false} FilterDistinct<T(!new), K>(s: seq<T>, p: T -> bool, key: T -> K)
    requires Distinct(s, key)
    ensures Distinct(Filter(s, p), key)
  {
    if s != [] {
      var tail := s[1..];
      assert Distinct(tail, key) by {
        forall i, j | 0 <= i < j < |tail| ensures key(tail[i]) != key(tail[j]) {
          assert tail[i] == s[i + 1] && tail[j] == s[j + 1];
        }
      }
      FilterDistinct(tail, p, key);
      if p(s[0]) {
        var rest := Filter(tail, p);
        forall j | 0 <= j < |rest| ensures key(s[0]) != key(rest[j]) {
          assert rest[j] in tail;
          var k :| 0 <= k < |tail| && tail[k] == rest[j];
          assert s[k + 1] == rest[j];
        }
        var r := [s[0]] + rest;
        forall i, j | 0 <= i < j < |r| ensures key(r[i]) != key(r[j]) {
          if i == 0 {
            assert r[j] == rest[j - 1];
          } else {
            assert r[i] == rest[i - 1] && r[j] == rest[j - 1];
          }
        }
      }
    }
  }

  /** Appending a row whose key is new keeps the keys distinct. */
  lemma AppendDistinct<T, K>(s: seq<T>, x: T, key: T -> K)
    requires Distinct(s, key)
    requires forall y :: y in s ==> key(y) != key(x)
    ensures Distinct(s + [x], key)
  {
    var r := s + [x];
    forall i, j | 0 <= i < j < |r| ensures key(r[i]) != key(r[j]) {
      if j == |s| {
        assert r[i] == s[i] && s[i] in s;
      } else {
        assert r[i] == s[i] && r[j] == s[j];
      }
    }
  }

  /** Overwriting the rows selected by `p` keeps the keys distinct when `p` selects at
      most one row, and `x` takes a key no unselected row has. */
  lemma ReplaceDistinct<T, K>(s: seq<T>, p: T -> bool, x: T, key: T -> K)
    requires Distinct(s, key)
    requires forall i, j :: 0 <= i < j < |s| && p(s[i]) ==> !p(s[j])
    requires forall y :: y in s && !p(y) ==> key(y) != key(x)
    ensures Distinct(Replace(s, p, x), key)
  {
    var r := Replace(s, p, x);
    forall i, j | 0 <= i < j < |r| ensures key(r[i]) != key(r[j]) {
      assert s[i] in s && s[j] in s;
    }
  }

  /** Overwriting rows that already equal `x` changes nothing. */
  lemma ReplaceUnchanged<T>(s: seq<T>, p: T -> bool, x: T)
    requires forall y :: y in s && p(y) ==> y == x
    ensures Replace(s, p, x) == s
  {
    var r := Replace(s, p, x);
    forall i | 0 <= i < |s| ensures r[i] == s[i] {
      assert s[i] in s;
    }
  }
}
