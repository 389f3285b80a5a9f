/** Shared vocabulary of the portfolio's data logic: optional values, the
    language-byte maps returned by the hosting API, order-preserving filtering
    and distinctness of a projection. */
module Common {

  datatype Option<+T> = None | Some(value: T)

  function Min(a: int, b: int): int { if a <= b then a else b }

  /** A JavaScript object from language name to byte count, kept as its
      entries in insertion order, the order in which `Object.entries`
      enumerates them. */
  type LanguageMap = seq<(string, nat)>

  function EntryName(e: (string, nat)): string { e.0 }

  /** `Object.values(m).reduce((sum, bytes) => sum + bytes, 0)` */
  function TotalBytes(m: LanguageMap): (t: nat)
    ensures forall i :: 0 <= i < |m| ==> m[i].1 <= t
  {
    if m == [] then 0 else TotalBytes(m[..|m| - 1]) + m[|m| - 1].1
  }

  /** The bytes `m` attributes to `lang`: the sum over all entries with that
      key, which is the entry's value when the keys are distinct. */
  function BytesOf(m: LanguageMap, lang: string): (b: nat)
    ensures b <= TotalBytes(m)
  {
    if m == [] then 0
    else BytesOf(m[..|m| - 1], lang) + (if m[|m| - 1].0 == lang then m[|m| - 1].1 else 0)
  }

  predicate HasKey(m: LanguageMap, lang: string) {
    exists i :: 0 <= i < |m| && m[i].0 == lang
  }

  /** No two elements of `s` agree on `f`. */
  ghost predicate DistinctBy<T, U>(s: seq<T>, f: T -> U) {
    forall i, j :: 0 <= i < j < |s| ==> f(s[i]) != f(s[j])
  }

  /** A JavaScript object never has two entries with the same key. */
  ghost predicate KeysDistinct(m: LanguageMap) {
    DistinctBy(m, EntryName)
  }

  lemma {:induction false} BytesOfDistinct(m: LanguageMap, k: nat)
    requires KeysDistinct(m) && k < |m|
    ensures BytesOf(m, m[k].0) == m[k].1
  {
    var n := |m| - 1;
    var p := m[..n];
    assert forall i, j :: 0 <= i < j < |p| ==> p[i] == m[i] && p[j] == m[j];
    if k == n {
      BytesOfAbsent(p, m[k].0);
    } else {
      BytesOfDistinct(p, k);
    }
  }

  lemma {:induction false} BytesOfAbsent(m: LanguageMap, lang: string)
    requires forall i :: 0 <= i < |m| ==> m[i].0 != lang
    ensures BytesOf(m, lang) == 0
  {
    if m != [] {
      BytesOfAbsent(m[..|m| - 1], lang);
    }
  }

  /** Greedy test that `a` is an order-preserving subsequence of `b`. */
  predicate IsSubsequence<T(==)>(a: seq<T>, b: seq<T>)
    decreases |b|
  {
    a == [] || (b != [] && if a[0] == b[0] then IsSubsequence(a[1..], b[1..]) else IsSubsequence(a, b[1..]))
  }

  lemma {:induction false} IsSubsequenceRefl<T>(s: seq<T>)
    ensures IsSubsequence(s, s)
  {
    if s != [] {
      IsSubsequenceRefl(s[1..]);
    }
  }

  /** `s.filter(p)`: the elements satisfying `p`, in their original order,
      each as often as it occurs in `s`. */
  function Filter<T(==,!new)>(s: seq<T>, p: T -> bool): (r: seq<T>)
    ensures |r| <= |s|
    ensures forall x :: x in r <==> x in s && p(x)
    ensures forall x :: multiset(r)[x] == if p(x) then multiset(s)[x] else 0
    ensures IsSubsequence(r, s)
  {
    if s == [] then []
    else
      assert s == [s[0]] + s[1..];
      var rest := Filter(s[1..], p);
      if p(s[0]) then
        assert ([s[0]] + rest)[1..] == rest;
        [s[0]] + rest
      else
        rest
  }

  lemma {:induction false} DistinctCons<T, U>(a: T, t: seq<T>, f: T -> U)
    requires DistinctBy(t, f)
    requires forall y :: y in t ==> f(y) != f(a)
    ensures DistinctBy([a] + t, f)
  {
    var s := [a] + t;
    forall i, j | 0 <= i < j < |s| ensures f(s[i]) != f(s[j]) {
      assert s[j] == t[j - 1];
      if i > 0 { assert s[i] == t[i - 1]; }
    }
  }

  lemma {:induction false} FilterKeepsDistinct<T(!new), U>(s: seq<T>, p: T -> bool, f: T -> U)
    requires DistinctBy(s, f)
    ensures DistinctBy(Filter(s, p), f)
  {
    if s != [] {
      var t := s[1..];
      assert DistinctBy(t, f) by {
        forall i, j | 0 <= i < j < |t| ensures f(t[i]) != f(t[j]) {
          assert t[i] == s[i + 1] && t[j] == s[j + 1];
        }
      }
      FilterKeepsDistinct(t, p, f);
      if p(s[0]) {
        forall y | y in Filter(t, p) ensures f(y) != f(s[0]) {
          var j :| 0 <= j < |t| && t[j] == y;
          assert s[j + 1] == y;
        }
        DistinctCons(s[0], Filter(t, p), f);
      }
    }
  }
}
