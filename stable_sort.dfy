/** The sort used throughout the portfolio: `xs.sort((a, b) => key(b) - key(a))`.
    `Array.prototype.sort` is stable, so the model is a stable insertion sort
    into non-increasing key order: an element goes in front of the first
    element whose key is not greater than its own, and since the input is
    inserted back to front, elements with equal keys keep their input order. */
module StableSort {
  import opened Common

  /** Non-increasing order of `key`. */
  ghost predicate SortedDesc<T>(s: seq<T>, key: T -> real) {
    forall i, j :: 0 <= i < j < |s| ==> key(s[i]) >= key(s[j])
  }

  function Insert<T>(x: T, s: seq<T>, key: T -> real): (r: seq<T>)
    ensures |r| == |s| + 1
    ensures multiset(r) == multiset(s) + multiset{x}
  {
    if s == [] || key(x) >= key(s[0]) then [x] + s
    else
      assert s == [s[0]] + s[1..];
      [s[0]] + Insert(x, s[1..], key)
  }

  /** Inserting below the head of a sorted sequence keeps every key at most
      the head's. */
  lemma InsertBelowHead<T>(x: T, s: seq<T>, key: T -> real)
    requires SortedDesc(s, key) && s != [] && key(x) < key(s[0])
    ensures forall y :: y in Insert(x, s[1..], key) ==> key(y) <= key(s[0])
  {
    var tail := s[1..];
    forall y | y in Insert(x, tail, key) ensures key(y) <= key(s[0]) {
      assert y in multiset(Insert(x, tail, key));
      if y != x {
        assert y in multiset(tail);
        var k :| 0 <= k < |tail| && tail[k] == y;
        assert s[k + 1] == y;
      }
    }
  }

  lemma {:induction false} InsertSorted<T>(x: T, s: seq<T>, key: T -> real)
    requires SortedDesc(s, key)
    ensures SortedDesc(Insert(x, s, key), key)
  {
    if s != [] && key(x) < key(s[0]) {
      var tail := s[1..];
      var rest := Insert(x, tail, key);
      assert SortedDesc(tail, key) by {
        forall i, j | 0 <= i < j < |tail| ensures key(tail[i]) >= key(tail[j]) {
          assert tail[i] == s[i + 1] && tail[j] == s[j + 1];
        }
      }
      InsertSorted(x, tail, key);
      InsertBelowHead(x, s, key);
      var r := [s[0]] + rest;
      assert Insert(x, s, key) == r;
      forall i, j | 0 <= i < j < |r| ensures key(r[i]) >= key(r[j]) {
        assert r[j] == rest[j - 1];
        if i == 0 {
          assert rest[j - 1] in rest;
        } else {
          assert r[i] == rest[i - 1];
        }
      }
    }
  }

  function SortDesc<T>(s: seq<T>, key: T -> real): (r: seq<T>)
    ensures |r| == |s|
    ensures multiset(r) == multiset(s)
    ensures SortedDesc(r, key)
  {
    if s == [] then []
    else
      assert s == [s[0]] + s[1..];
      InsertSorted(s[0], SortDesc(s[1..], key), key);
      Insert(s[0], SortDesc(s[1..], key), key)
  }

  /** In a sorted sequence, everything after position `n` has a key no
      greater than anything before it. */
  lemma SortedPrefixDominates<T>(s: seq<T>, key: T -> real, n: nat, y: T)
    requires SortedDesc(s, key) && n <= |s|
    requires y in multiset(s[n..])
    ensures forall x :: x in s[..n] ==> key(y) <= key(x)
  {
    var rest := s[n..];
    var j :| 0 <= j < |rest| && rest[j] == y;
    assert s[n + j] == y;
    forall x | x in s[..n] ensures key(y) <= key(x) {
      var i :| 0 <= i < n && s[..n][i] == x;
      assert s[i] == x;
    }
  }

  /** The elements of `s` whose key is `k`, in order. */
  function KeyFilter<T>(s: seq<T>, key: T -> real, k: real): seq<T> {
    if s == [] then [] else (if key(s[0]) == k then [s[0]] else []) + KeyFilter(s[1..], key, k)
  }

  lemma {:induction false} InsertKeyFilter<T>(x: T, s: seq<T>, key: T -> real, k: real)
    ensures KeyFilter(Insert(x, s, key), key, k) == (if key(x) == k then [x] else []) + KeyFilter(s, key, k)
  {
    var fx := if key(x) == k then [x] else [];
    if s == [] || key(x) >= key(s[0]) {
      var r := [x] + s;
      assert r[1..] == s;
      assert KeyFilter(r, key, k) == fx + KeyFilter(r[1..], key, k);
    } else {
      var t := s[1..];
      var rest := Insert(x, t, key);
      var r := [s[0]] + rest;
      assert r[1..] == rest;
      InsertKeyFilter(x, t, key, k);
      var f0 := if key(s[0]) == k then [s[0]] else [];
      var kt := KeyFilter(t, key, k);
      assert KeyFilter(r, key, k) == f0 + (fx + kt);
      assert KeyFilter(s, key, k) == f0 + kt;
      if key(x) == k {
        assert f0 == [];
        assert f0 + (fx + kt) == fx + kt == fx + (f0 + kt);
      } else {
        assert fx == [];
        assert f0 + (fx + kt) == f0 + kt == fx + (f0 + kt);
      }
    }
  }

  /** Stability: among elements with any one key, the sort keeps input order. */
  lemma {:induction false} SortStable<T>(s: seq<T>, key: T -> real, k: real)
    ensures KeyFilter(SortDesc(s, key), key, k) == KeyFilter(s, key, k)
  {
    if s != [] {
      SortStable(s[1..], key, k);
      InsertKeyFilter(s[0], SortDesc(s[1..], key), key, k);
    }
  }

  /** A prefix of a sequence keeps a prefix of each key's elements. */
  lemma {:induction false} KeyFilterPrefix<T>(s: seq<T>, n: nat, key: T -> real, k: real)
    requires n <= |s|
    ensures KeyFilter(s[..n], key, k) <= KeyFilter(s, key, k)
  {
    if n > 0 {
      assert s[..n][1..] == s[1..][..n - 1];
      KeyFilterPrefix(s[1..], n - 1, key, k);
    }
  }

  ghost predicate IsFirstMax<T>(s: seq<T>, i: int, key: T -> real) {
    && 0 <= i < |s|
    && (forall j :: 0 <= j < |s| ==> key(s[j]) <= key(s[i]))
    && (forall j :: 0 <= j < i ==> key(s[j]) < key(s[i]))
  }

  /** Position of the first element with the greatest key. */
  function FirstMaxIndex<T>(s: seq<T>, key: T -> real): (i: nat)
    requires |s| > 0
    ensures IsFirstMax(s, i, key)
  {
    if |s| == 1 then 0
    else
      var j := FirstMaxIndex(s[1..], key) + 1;
      assert s[j] == s[1..][j - 1];
      assert forall m :: 1 <= m < |s| ==> s[m] == s[1..][m - 1];
      if key(s[0]) >= key(s[j]) then 0 else j
  }

  /** The head of the sorted sequence is the first element with the greatest key. */
  lemma {:induction false} SortHead<T>(s: seq<T>, key: T -> real)
    requires |s| > 0
    ensures SortDesc(s, key)[0] == s[FirstMaxIndex(s, key)]
  {
    if |s| > 1 {
      SortHead(s[1..], key);
    }
  }

  lemma {:induction false} InsertKeepsDistinct<T, U>(x: T, s: seq<T>, key: T -> real, f: T -> U)
    requires DistinctBy(s, f)
    requires forall y :: y in s ==> f(y) != f(x)
    ensures DistinctBy(Insert(x, s, key), f)
  {
    if s == [] || key(x) >= key(s[0]) {
      DistinctCons(x, s, f);
    } else {
      var t := s[1..];
      assert DistinctBy(t, f) by {
        forall i, j | 0 <= i < j < |t| ensures f(t[i]) != f(t[j]) {
          assert t[i] == s[i + 1] && t[j] == s[j + 1];
        }
      }
      InsertKeepsDistinct(x, t, key, f);
      var rest := Insert(x, t, key);
      forall y | y in rest ensures f(y) != f(s[0]) {
        assert y in multiset(rest);
        if y != x {
          var j :| 0 <= j < |t| && t[j] == y;
          assert s[j + 1] == y;
        }
      }
      DistinctCons(s[0], rest, f);
    }
  }

  lemma {:induction false} SortKeepsDistinct<T, U>(s: seq<T>, key: T -> real, f: T -> U)
    requires DistinctBy(s, f)
    ensures DistinctBy(SortDesc(s, key), f)
  {
    if s != [] {
      var t := s[1..];
      assert DistinctBy(t, f) by {
        forall i, j | 0 <= i < j < |t| ensures f(t[i]) != f(t[j]) {
          assert t[i] == s[i + 1] && t[j] == s[j + 1];
        }
      }
      SortKeepsDistinct(t, key, f);
      forall y | y in SortDesc(t, key) ensures f(y) != f(s[0]) {
        assert y in multiset(SortDesc(t, key));
        var j :| 0 <= j < |t| && t[j] == y;
        assert s[j + 1] == y;
      }
      InsertKeepsDistinct(s[0], SortDesc(t, key), key, f);
    }
  }
}
