/** Values shared by every component: an optional value, and the untyped
    records (Python dictionaries) that the pipeline passes between stages. */
module Base {

  datatype Option<T> = None | Some(value: T) {
    function GetOr(default: T): T {
      match this
      case Some(v) => v
      case None => default
    }
  }

  /** The result of one relevance assessment: named indicator counts, their
      total, and the relevance level derived from the total. */
  datatype Assessment = Assessment(indicators: map<string, int>, total: int, level: string)

  /** A value stored under a key of a record. Only the kinds the pipeline
      stores are distinguished; a relevance score is an opaque number. */
  datatype Value =
    | Str(s: string)
    | Strs(items: seq<string>)
    | Int(i: int)
    | Score(r: real)
    | Assessed(a: Assessment)
    | Groups(g: map<string, seq<string>>)

  /** A record of named fields, as the source's dictionaries are. */
  type Record = map<string, Value>

  /** Python truthiness of a stored value. */
  predicate Truthy(v: Value) {
    match v
    case Str(s) => s != ""
    case Strs(l) => l != []
    case Int(i) => i != 0
    case Score(r) => r != 0.0
    case Assessed(_) => true
    case Groups(g) => g != map[]
  }

  /** `record.get(key)` is truthy. */
  predicate Has(r: Record, key: string) {
    key in r && Truthy(r[key])
  }

  /** `record.get(key, default)` for a string field; a value of another kind
      reads as the default. */
  function GetStr(r: Record, key: string, default: string): string {
    if key in r && r[key].Str? then r[key].s else default
  }

  /** `record.get(key, default)` for an integer field; a value of another
      kind reads as the default. */
  function GetInt(r: Record, key: string, default: int): int {
    if key in r && r[key].Int? then r[key].i else default
  }

  /** `record.get(key, [])` for a list-of-strings field. A string value is a
      Python iterable of one-character strings, as `', '.join` sees it. */
  function GetList(r: Record, key: string): seq<string> {
    if key !in r then []
    else match r[key]
      case Strs(l) => l
      case Str(s) => seq(|s|, i requires 0 <= i < |s| => [s[i]])
      case _ => []
  }

  /** a is b with some elements left out, the rest kept in order. */
  predicate IsSubsequence<T(==)>(a: seq<T>, b: seq<T>)
    decreases |b|
  {
    a == [] || (b != [] && ((a[0] == b[0] && IsSubsequence(a[1..], b[1..])) || IsSubsequence(a, b[1..])))
  }

  lemma {:induction false} SubsequenceBounds<T>(a: seq<T>, b: seq<T>)
    requires IsSubsequence(a, b)
    ensures |a| <= |b|
    ensures forall x :: x in a ==> x in b
    decreases |b|
  {
    if a != [] {
      if a[0] == b[0] && IsSubsequence(a[1..], b[1..]) {
        SubsequenceBounds(a[1..], b[1..]);
        assert a == [a[0]] + a[1..];
      } else {
        SubsequenceBounds(a, b[1..]);
      }
    }
  }

  lemma {:induction false} SubsequenceOfSelf<T>(b: seq<T>)
    ensures IsSubsequence(b, b)
    decreases |b|
  {
    if b != [] {
      SubsequenceOfSelf(b[1..]);
    }
  }

  lemma {:induction false} SubsequenceExtendLeft<T>(a: seq<T>, b1: seq<T>, b2: seq<T>)
    requires IsSubsequence(a, b2)
    ensures IsSubsequence(a, b1 + b2)
    decreases |b1|
  {
    if b1 != [] {
      SubsequenceExtendLeft(a, b1[1..], b2);
      assert (b1 + b2)[1..] == b1[1..] + b2;
    } else {
      assert b1 + b2 == b2;
    }
  }

  /** Subsequences of two parts make a subsequence of the joined parts. */
  lemma {:induction false} SubsequenceConcat<T>(a1: seq<T>, b1: seq<T>, a2: seq<T>, b2: seq<T>)
    requires IsSubsequence(a1, b1) && IsSubsequence(a2, b2)
    ensures IsSubsequence(a1 + a2, b1 + b2)
    decreases |b1|
  {
    if a1 == [] {
      assert a1 + a2 == a2;
      SubsequenceExtendLeft(a2, b1, b2);
    } else {
      assert (b1 + b2)[1..] == b1[1..] + b2;
      if a1[0] == b1[0] && IsSubsequence(a1[1..], b1[1..]) {
        SubsequenceConcat(a1[1..], b1[1..], a2, b2);
        assert (a1 + a2)[1..] == a1[1..] + a2;
      } else {
        SubsequenceConcat(a1, b1[1..], a2, b2);
      }
    }
  }

  predicate NoDuplicates<T(==)>(s: seq<T>) {
    forall i, j :: 0 <= i < j < |s| ==> s[i] != s[j]
  }

  /** The elements of s that satisfy keep, in order. */
  function Filter<T>(s: seq<T>, keep: T -> bool): seq<T>
  {
    if s == [] then [] else (if keep(s[0]) then [s[0]] else []) + Filter(s[1..], keep)
  }

  lemma {:induction false} FilterSnoc<T>(s: seq<T>, x: T, keep: T -> bool)
    ensures Filter(s + [x], keep) == Filter(s, keep) + (if keep(x) then [x] else [])
  {
    if s != [] {
      FilterSnoc(s[1..], x, keep);
      assert (s + [x])[1..] == s[1..] + [x];
    }
  }

  /** The filter is an ordered subsequence holding exactly the kept elements. */
  lemma {:induction false} FilterCharacterized<T>(s: seq<T>, keep: T -> bool)
    ensures IsSubsequence(Filter(s, keep), s)
    ensures forall x :: x in Filter(s, keep) <==> x in s && keep(x)
  {
    if s != [] {
      FilterCharacterized(s[1..], keep);
      var rest := Filter(s[1..], keep);
      var f := Filter(s, keep);
      if keep(s[0]) {
        assert f == [s[0]] + rest;
        assert f[0] == s[0] && f[1..] == rest;
      } else {
        assert f == rest;
      }
      assert s == [s[0]] + s[1..];
    }
  }

  /** A property every kept element has holds of the whole filtered list. */
  lemma FilterPreserves<T>(s: seq<T>, keep: T -> bool, p: T -> bool)
    requires forall x :: x in s && keep(x) ==> p(x)
    ensures forall x :: x in Filter(s, keep) ==> p(x)
  {
    FilterCharacterized(s, keep);
  }

  lemma {:induction false} FilterDistinct<T>(s: seq<T>, keep: T -> bool)
    requires NoDuplicates(s)
    ensures NoDuplicates(Filter(s, keep))
  {
    if s != [] {
      FilterDistinct(s[1..], keep);
      FilterCharacterized(s[1..], keep);
      var rest := Filter(s[1..], keep);
      if keep(s[0]) {
        assert s[0] !in s[1..];
        var m := [s[0]] + rest;
        forall i, j | 0 <= i < j < |m|
          ensures m[i] != m[j]
        {
          assert m[j] == rest[j - 1];
          if i > 0 {
            assert m[i] == rest[i - 1];
          }
        }
      }
    }
  }

  /** The sum of a sequence of integers. */
  function Sum(s: seq<int>): int
  {
    if s == [] then 0 else s[0] + Sum(s[1..])
  }

  lemma {:induction false} SumSnoc(s: seq<int>, x: int)
    ensures Sum(s + [x]) == Sum(s) + x
  {
    if s != [] {
      SumSnoc(s[1..], x);
      assert (s + [x])[1..] == s[1..] + [x];
    }
  }

  /** The values of f over s where f gives one, in order. */
  function FilterMap<A, B>(s: seq<A>, f: A -> Option<B>): seq<B>
  {
    if s == [] then [] else (if f(s[0]).Some? then [f(s[0]).value] else []) + FilterMap(s[1..], f)
  }

  lemma {:induction false} FilterMapSnoc<A, B>(s: seq<A>, x: A, f: A -> Option<B>)
    ensures FilterMap(s + [x], f) == FilterMap(s, f) + (if f(x).Some? then [f(x).value] else [])
  {
    if s != [] {
      FilterMapSnoc(s[1..], x, f);
      assert (s + [x])[1..] == s[1..] + [x];
    }
  }

  /** Every value FilterMap keeps is one that f gave. */
  lemma {:induction false} FilterMapValues<A, B>(s: seq<A>, f: A -> Option<B>)
    ensures forall v :: v in FilterMap(s, f) ==> exists x :: x in s && f(x) == Some(v)
  {
    if s != [] {
      FilterMapValues(s[1..], f);
      forall v | v in FilterMap(s, f)
        ensures exists x :: x in s && f(x) == Some(v)
      {
        if f(s[0]).Some? && v == f(s[0]).value {
          assert s[0] in s;
        } else {
          assert v in FilterMap(s[1..], f);
          var x :| x in s[1..] && f(x) == Some(v);
          assert x in s;
        }
      }
    }
  }


  /** g applied to every element of s. */
  function MapSeq<A, B>(s: seq<A>, g: A -> B): (r: seq<B>)
    ensures |r| == |s|
  {
    if s == [] then [] else [g(s[0])] + MapSeq(s[1..], g)
  }

  lemma {:induction false} MapSeqSnoc<A, B>(s: seq<A>, x: A, g: A -> B)
    ensures MapSeq(s + [x], g) == MapSeq(s, g) + [g(x)]
  {
    if s != [] {
      MapSeqSnoc(s[1..], x, g);
      assert (s + [x])[1..] == s[1..] + [x];
    }
  }

  /** When f, where it gives a value, agrees with g, FilterMap picks an
      ordered subsequence of the images under g, and misses none of f's
      values. */
  lemma {:induction false} FilterMapSubsequence<A, B>(s: seq<A>, f: A -> Option<B>, g: A -> B)
    requires forall x :: f(x).Some? ==> f(x).value == g(x)
    ensures IsSubsequence(FilterMap(s, f), MapSeq(s, g))
    ensures forall i :: 0 <= i < |s| && f(s[i]).Some? ==> f(s[i]).value in FilterMap(s, f)
  {
    if s != [] {
      FilterMapSubsequence(s[1..], f, g);
      var rest := FilterMap(s[1..], f);
      var r := FilterMap(s, f);
      var all := MapSeq(s, g);
      assert all[1..] == MapSeq(s[1..], g);
      if f(s[0]).Some? {
        assert r == [f(s[0]).value] + rest;
        assert r[0] == all[0] && r[1..] == rest;
      } else {
        assert r == rest;
      }
      forall i | 0 <= i < |s| && f(s[i]).Some?
        ensures f(s[i]).value in r
      {
        if i > 0 {
          assert s[1..][i - 1] == s[i];
        }
      }
    }
  }
}
