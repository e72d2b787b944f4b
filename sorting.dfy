/** Newest-first ordering of records by a timestamp string, as the source's
    `list.sort(key=..., reverse=True)` does: Python compares strings by code
    point, and its sort is stable. */
module Sorting {

  /** Python's `a <= b` on strings. */
  predicate LexLe(a: string, b: string)
    decreases |a|
  {
    a == [] || (b != [] && (a[0] < b[0] || (a[0] == b[0] && LexLe(a[1..], b[1..]))))
  }

  /** Python's `a < b` on strings. */
  predicate LexLt(a: string, b: string) {
    !LexLe(b, a)
  }

  lemma {:induction false} LexLeTotal(a: string, b: string)
    ensures LexLe(a, b) || LexLe(b, a)
    decreases |a|
  {
    if a != [] && b != [] && a[0] == b[0] {
      LexLeTotal(a[1..], b[1..]);
    }
  }

  lemma {:induction false} LexLeTransitive(a: string, b: string, c: string)
    requires LexLe(a, b) && LexLe(b, c)
    ensures LexLe(a, c)
    decreases |a|
  {
    if a != [] && b != [] && c != [] && a[0] == b[0] && b[0] == c[0] {
      LexLeTransitive(a[1..], b[1..], c[1..]);
    }
  }

  /** Keys never increase along s. */
  ghost predicate SortedDesc<T>(s: seq<T>, key: T -> string) {
    forall i, j :: 0 <= i < j < |s| ==> LexLe(key(s[j]), key(s[i]))
  }

  /** Insert x before the first element whose key is smaller than x's, so
      that x follows every earlier element with an equal key. */
  function InsertDesc<T>(x: T, s: seq<T>, key: T -> string): (r: seq<T>)
    ensures multiset(r) == multiset(s) + multiset{x}
  {
    if s == [] then [x]
    else if LexLt(key(s[0]), key(x)) then [x] + s
    else
      assert s == [s[0]] + s[1..];
      [s[0]] + InsertDesc(x, s[1..], key)
  }

  lemma {:induction false} InsertDescSorted<T>(x: T, s: seq<T>, key: T -> string)
    requires SortedDesc(s, key)
    ensures SortedDesc(InsertDesc(x, s, key), key)
  {
    if s == [] {
    } else if LexLt(key(s[0]), key(x)) {
      LexLeTotal(key(s[0]), key(x));
      forall j | 0 < j < |s|
        ensures LexLe(key(s[j]), key(x))
      {
        LexLeTransitive(key(s[j]), key(s[0]), key(x));
      }
    } else {
      InsertDescSorted(x, s[1..], key);
      var rest := InsertDesc(x, s[1..], key);
      forall j | 0 <= j < |rest|
        ensures LexLe(key(rest[j]), key(s[0]))
      {
        assert rest[j] in multiset(rest);
        if rest[j] != x {
          assert rest[j] in multiset(s[1..]);
          var k :| 0 <= k < |s[1..]| && s[1..][k] == rest[j];
          assert s[k + 1] == rest[j];
        }
      }
    }
  }

  /** The order `sort(key=..., reverse=True)` produces: the elements of s
      inserted one by one, in order. */
  function NewestFirst<T>(s: seq<T>, key: T -> string): (r: seq<T>)
  {
    if s == [] then [] else InsertDesc(s[|s| - 1], NewestFirst(s[..|s| - 1], key), key)
  }

  /** The newest-first order is sorted and is a permutation of its input. */
  lemma {:induction false} NewestFirstSortedPermutation<T>(s: seq<T>, key: T -> string)
    ensures SortedDesc(NewestFirst(s, key), key)
    ensures multiset(NewestFirst(s, key)) == multiset(s)
  {
    if s != [] {
      var init := s[..|s| - 1];
      NewestFirstSortedPermutation(init, key);
      InsertDescSorted(s[|s| - 1], NewestFirst(init, key), key);
      assert s == init + [s[|s| - 1]];
    }
  }

  /** Stable insertion sort, newest first, as `list.sort(key, reverse=True)`. */
  method SortNewestFirst<T>(s: seq<T>, key: T -> string) returns (r: seq<T>)
    ensures r == NewestFirst(s, key)
    ensures SortedDesc(r, key) && multiset(r) == multiset(s)
  {
    r := [];
    for i := 0 to |s|
      invariant r == NewestFirst(s[..i], key)
    {
      assert s[..i + 1][..i] == s[..i];
      r := InsertDesc(s[i], r, key);
    }
    assert s[..|s|] == s;
    NewestFirstSortedPermutation(s, key);
  }
}
