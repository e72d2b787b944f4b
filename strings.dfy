/** The Python string operations the pipeline relies on, over `seq<char>`:
    whitespace splitting and stripping, joining, splitting on a separator,
    substring search and non-overlapping counting, zero padding, title case
    and decimal rendering. Case mapping covers ASCII letters only. */
module Strings {

  /** `str.isspace()` for one character: the separators of `str.split()` and
      the characters `str.strip()` removes. */
  predicate IsSpace(c: char) {
    c in {' ', '\t', '\n', '\r', '\U{000B}', '\U{000C}', '\U{001C}', '\U{001D}', '\U{001E}',
          '\U{001F}', '\U{0085}', '\U{00A0}', '\U{1680}', '\U{2028}', '\U{2029}', '\U{202F}',
          '\U{205F}', '\U{3000}'}
    || ('\U{2000}' <= c <= '\U{200A}')
  }

  /** The line boundaries of `str.splitlines()`. */
  predicate IsLineBreak(c: char) {
    c in {'\n', '\r', '\U{000B}', '\U{000C}', '\U{001C}', '\U{001D}', '\U{001E}', '\U{0085}',
          '\U{2028}', '\U{2029}'}
  }

  predicate IsAsciiUpper(c: char) { 'A' <= c <= 'Z' }
  predicate IsAsciiLower(c: char) { 'a' <= c <= 'z' }
  predicate IsAsciiLetter(c: char) { IsAsciiUpper(c) || IsAsciiLower(c) }

  function LowerChar(c: char): char {
    if IsAsciiUpper(c) then (c as int + 32) as char else c
  }

  function UpperChar(c: char): char {
    if IsAsciiLower(c) then (c as int - 32) as char else c
  }

  /** `str.lower()` on ASCII letters. */
  function Lower(s: string): string {
    seq(|s|, i requires 0 <= i < |s| => LowerChar(s[i]))
  }

  /** `s[:n]` for a non-negative n. */
  function Prefix<T>(s: seq<T>, n: nat): seq<T> {
    if n <= |s| then s[..n] else s
  }

  /** `s.replace(a, b)` for single characters. */
  function ReplaceChar(s: string, a: char, b: char): string {
    seq(|s|, i requires 0 <= i < |s| => if s[i] == a then b else s[i])
  }

  /** `str.title()`: a letter is upper-cased when the character before it is
      not a letter and lower-cased otherwise. */
  function TitleCase(s: string): string {
    TitleFrom(s, false)
  }

  function TitleFrom(s: string, afterLetter: bool): string
    decreases |s|
  {
    if s == [] then []
    else
      var c := s[0];
      var c' := if !IsAsciiLetter(c) then c else if afterLetter then LowerChar(c) else UpperChar(c);
      [c'] + TitleFrom(s[1..], IsAsciiLetter(c))
  }

  /** Title casing changes only the case of letters: a letter that follows
      a letter becomes lower case, any other letter upper case. */
  lemma {:induction false} TitleFromCaseOnly(s: string, afterLetter: bool)
    ensures |TitleFrom(s, afterLetter)| == |s|
    ensures forall i :: 0 <= i < |s| ==> LowerChar(TitleFrom(s, afterLetter)[i]) == LowerChar(s[i])
    ensures forall i :: 0 <= i < |s| && !IsAsciiLetter(s[i]) ==> TitleFrom(s, afterLetter)[i] == s[i]
    ensures forall i :: 0 < i < |s| && IsAsciiLetter(s[i]) && IsAsciiLetter(s[i - 1]) ==>
              !IsAsciiUpper(TitleFrom(s, afterLetter)[i])
    ensures forall i :: 0 < i < |s| && IsAsciiLetter(s[i]) && !IsAsciiLetter(s[i - 1]) ==>
              !IsAsciiLower(TitleFrom(s, afterLetter)[i])
    decreases |s|
  {
    if s != [] {
      TitleFromCaseOnly(s[1..], IsAsciiLetter(s[0]));
      var r := TitleFrom(s, afterLetter);
      var rest := TitleFrom(s[1..], IsAsciiLetter(s[0]));
      assert r == [r[0]] + rest;
      forall i | 0 < i < |s|
        ensures r[i] == rest[i - 1] && s[i] == s[1..][i - 1]
      {
      }
    }
  }

  // ---------------------------------------------------------------------
  // Whitespace: str.split(), str.strip(), ' '.join(...)

  /** A word of `str.split()`: non-empty, without whitespace. */
  predicate IsWord(w: string) {
    w != [] && forall i :: 0 <= i < |w| ==> !IsSpace(w[i])
  }

  /** Length of the run of non-whitespace characters that starts s. */
  function WordLen(s: string): (n: nat)
    ensures n <= |s|
    ensures forall i :: 0 <= i < n ==> !IsSpace(s[i])
    ensures n < |s| ==> IsSpace(s[n])
  {
    if s == [] || IsSpace(s[0]) then 0 else 1 + WordLen(s[1..])
  }

  /** `str.split()` with no argument: the maximal runs of non-whitespace. */
  function Words(s: string): (ws: seq<string>)
    ensures forall k :: 0 <= k < |ws| ==> IsWord(ws[k])
    decreases |s|
  {
    if s == [] then []
    else if IsSpace(s[0]) then Words(s[1..])
    else
      var n := WordLen(s);
      [s[..n]] + Words(s[n..])
  }

  function TrimLeft(s: string): (r: string)
    ensures |r| <= |s| && r == s[|s| - |r|..]
    ensures r == [] || !IsSpace(r[0])
  {
    if s != [] && IsSpace(s[0]) then TrimLeft(s[1..]) else s
  }

  function TrimRight(s: string): (r: string)
    ensures |r| <= |s| && r == s[..|r|]
    ensures r == [] || !IsSpace(r[|r| - 1])
  {
    if s != [] && IsSpace(s[|s| - 1]) then TrimRight(s[..|s| - 1]) else s
  }

  /** `str.strip()`: the result neither starts nor ends with whitespace. */
  function Strip(s: string): (r: string)
    ensures |r| <= |s|
    ensures r == [] || (!IsSpace(r[0]) && !IsSpace(r[|r| - 1]))
  {
    TrimRight(TrimLeft(s))
  }

  lemma StripKeeps(s: string)
    requires s == [] || (!IsSpace(s[0]) && !IsSpace(s[|s| - 1]))
    ensures Strip(s) == s
  {
  }

  /** `sep.join(parts)`. */
  function Join(sep: string, parts: seq<string>): string
  {
    if parts == [] then ""
    else if |parts| == 1 then parts[0]
    else parts[0] + sep + Join(sep, parts[1..])
  }

  /** Non-empty, and neither starts nor ends with whitespace. */
  predicate Trimmed(p: string) {
    p != [] && !IsSpace(p[0]) && !IsSpace(p[|p| - 1])
  }

  /** Joining trimmed pieces with one space gives a trimmed text. */
  lemma {:induction false} JoinTrimmedEnds(ps: seq<string>)
    requires ps != []
    requires forall k :: 0 <= k < |ps| ==> Trimmed(ps[k])
    ensures Trimmed(Join(" ", ps))
  {
    if |ps| > 1 {
      JoinTrimmedEnds(ps[1..]);
    }
  }

  /** Splitting words joined by single spaces gives the words back. */
  lemma {:induction false} WordsOfJoin(ws: seq<string>)
    requires forall k :: 0 <= k < |ws| ==> IsWord(ws[k])
    ensures Words(Join(" ", ws)) == ws
  {
    if ws == [] {
    } else if |ws| == 1 {
      WordsOfWord(ws[0], "");
      assert ws[0] + "" == ws[0];
    } else {
      WordsOfJoin(ws[1..]);
      var rest := Join(" ", ws[1..]);
      assert Join(" ", ws) == ws[0] + (" " + rest);
      WordsOfWord(ws[0], " " + rest);
      assert (" " + rest)[1..] == rest;
    }
  }

  /** A word followed by nothing or by whitespace is the first word. */
  lemma {:induction false} WordsOfWord(w: string, s: string)
    requires IsWord(w)
    requires s == [] || IsSpace(s[0])
    ensures Words(w + s) == [w] + Words(s)
  {
    WordLenOfWord(w, s);
    assert (w + s)[..|w|] == w;
    assert (w + s)[|w|..] == s;
  }

  lemma {:induction false} WordLenOfWord(w: string, s: string)
    requires forall i :: 0 <= i < |w| ==> !IsSpace(w[i])
    requires s == [] || IsSpace(s[0])
    ensures WordLen(w + s) == |w|
    decreases |w|
  {
    if w != [] {
      WordLenOfWord(w[1..], s);
      assert (w + s)[1..] == w[1..] + s;
    } else {
      assert w + s == s;
    }
  }

  /** Each word has at least one character, and one space separates two. */
  lemma {:induction false} JoinWordsLength(ws: seq<string>)
    requires forall k :: 0 <= k < |ws| ==> IsWord(ws[k])
    ensures |Join(" ", ws)| >= 2 * |ws| - 1
  {
    if |ws| > 1 {
      JoinWordsLength(ws[1..]);
    }
  }

  /** Dropping leading parts never makes a join longer. */
  lemma {:induction false} JoinSuffixShorter(sep: string, parts: seq<string>, d: nat)
    requires d <= |parts|
    ensures |Join(sep, parts[d..])| <= |Join(sep, parts)|
  {
    if d > 0 {
      JoinSuffixShorter(sep, parts[1..], d - 1);
      assert parts[1..][d - 1..] == parts[d..];
    }
  }

  // ---------------------------------------------------------------------
  // Separators: str.split(sep), str.splitlines()

  /** Split at every character for which isSep holds, keeping empty pieces,
      as `str.split(c)` does for a one-character separator. */
  function SplitBy(s: string, isSep: char -> bool): (parts: seq<string>)
    ensures |parts| >= 1
    decreases |s|
  {
    if s == [] then [""]
    else if isSep(s[0]) then [""] + SplitBy(s[1..], isSep)
    else
      var rest := SplitBy(s[1..], isSep);
      [[s[0]] + rest[0]] + rest[1..]
  }

  /** No piece holds a separator. */
  lemma {:induction false} SplitByPiecesFree(s: string, isSep: char -> bool)
    ensures forall k, i :: 0 <= k < |SplitBy(s, isSep)| && 0 <= i < |SplitBy(s, isSep)[k]| ==>
              !isSep(SplitBy(s, isSep)[k][i])
    decreases |s|
  {
    if s != [] {
      SplitByPiecesFree(s[1..], isSep);
      var rest := SplitBy(s[1..], isSep);
      var parts := SplitBy(s, isSep);
      forall k, i | 0 <= k < |parts| && 0 <= i < |parts[k]|
        ensures !isSep(parts[k][i])
      {
        if isSep(s[0]) {
          assert parts == [""] + rest;
          assert parts[k] == rest[k - 1];
          assert 0 <= k - 1 < |rest| && 0 <= i < |rest[k - 1]|;
          assert !isSep(rest[k - 1][i]);
        } else {
          var first := [s[0]] + rest[0];
          assert parts == [first] + rest[1..];
          if k == 0 {
            if i == 0 {
              assert parts[k][i] == s[0];
            } else {
              assert parts[k][i] == rest[0][i - 1];
              assert !isSep(rest[0][i - 1]);
            }
          } else {
            assert parts[k] == rest[k];
            assert !isSep(rest[k][i]);
          }
        }
      }
    }
  }

  /** The last piece is what follows the last separator: a suffix of s. */
  lemma {:induction false} SplitByLastSuffix(s: string, isSep: char -> bool)
    ensures var parts := SplitBy(s, isSep); var last := parts[|parts| - 1];
      |last| <= |s| && s[|s| - |last|..] == last
    ensures |SplitBy(s, isSep)| == 1 ==> SplitBy(s, isSep)[0] == s
    decreases |s|
  {
    if s != [] {
      SplitByLastSuffix(s[1..], isSep);
      var rest := SplitBy(s[1..], isSep);
      var last := rest[|rest| - 1];
      assert s[1..][|s[1..]| - |last|..] == s[|s| - |last|..];
      if !isSep(s[0]) && |rest| == 1 {
        assert s == [s[0]] + s[1..];
      }
    }
  }

  /** `s.split(c)`. */
  function SplitOn(s: string, c: char): (parts: seq<string>)
    ensures |parts| >= 1
  {
    SplitBy(s, x => x == c)
  }

  lemma {:induction false} SplitOnNoSeparator(s: string, c: char)
    requires c !in s
    ensures SplitOn(s, c) == [s]
  {
    if s != [] {
      SplitOnNoSeparator(s[1..], c);
      assert s[0] != c;
      assert [s[0]] + s[1..] == s;
    }
  }

  lemma {:induction false} SplitOnAfterPiece(p: string, c: char, t: string)
    requires c !in p
    ensures SplitOn(p + [c] + t, c) == [p] + SplitOn(t, c)
  {
    if p == [] {
      assert p + [c] + t == [c] + t;
      assert ([c] + t)[1..] == t;
    } else {
      SplitOnAfterPiece(p[1..], c, t);
      assert (p + [c] + t)[1..] == p[1..] + [c] + t;
      assert [p[0]] + p[1..] == p;
    }
  }

  /** Splitting a join on its one-character separator gives back the parts,
      when no part contains the separator. */
  lemma {:induction false} SplitOnJoin(parts: seq<string>, c: char)
    requires parts != []
    requires forall k :: 0 <= k < |parts| ==> c !in parts[k]
    ensures SplitOn(Join([c], parts), c) == parts
  {
    if |parts| == 1 {
      SplitOnNoSeparator(parts[0], c);
    } else {
      forall k | 0 <= k < |parts[1..]|
        ensures c !in parts[1..][k]
      {
        assert parts[1..][k] == parts[k + 1];
      }
      SplitOnJoin(parts[1..], c);
      var rest := Join([c], parts[1..]);
      assert Join([c], parts) == parts[0] + [c] + rest;
      SplitOnAfterPiece(parts[0], c, rest);
      assert [parts[0]] + parts[1..] == parts;
    }
  }

  /** `s.split(sep)` for a separator of one or more characters: pieces are
      cut at the leftmost non-overlapping occurrences. */
  function Split(s: string, sep: string): (parts: seq<string>)
    requires sep != []
    ensures |parts| >= 1
    decreases |s|
  {
    if |s| < |sep| then [s]
    else if s[..|sep|] == sep then [""] + Split(s[|sep|..], sep)
    else
      var rest := Split(s[1..], sep);
      [[s[0]] + rest[0]] + rest[1..]
  }

  // ---------------------------------------------------------------------
  // Substrings: `sub in s`, `s.count(sub)`, `s.startswith(p)`

  predicate StartsWith(s: string, p: string) {
    |p| <= |s| && s[..|p|] == p
  }

  /** `sub in s`. */
  predicate Contains(s: string, sub: string)
    decreases |s|
  {
    StartsWith(s, sub) || (s != [] && Contains(s[1..], sub))
  }

  /** `s.count(sub)`: occurrences found left to right without overlap. */
  function Count(s: string, sub: string): nat
    decreases |s|
  {
    if sub == [] then |s| + 1
    else if |s| < |sub| then 0
    else if StartsWith(s, sub) then 1 + Count(s[|sub|..], sub)
    else Count(s[1..], sub)
  }

  lemma {:induction false} NotContainsShort(s: string, sub: string)
    requires |s| < |sub|
    ensures !Contains(s, sub)
  {
    if s != [] {
      NotContainsShort(s[1..], sub);
    }
  }

  /** A non-empty term is counted at least once exactly when it occurs. */
  lemma {:induction false} CountPositiveIffContains(s: string, sub: string)
    requires sub != []
    ensures Count(s, sub) > 0 <==> Contains(s, sub)
  {
    if |s| < |sub| {
      NotContainsShort(s, sub);
    } else if !StartsWith(s, sub) {
      CountPositiveIffContains(s[1..], sub);
    }
  }

  // ---------------------------------------------------------------------
  // Numbers

  function DigitChar(d: nat): char
    requires d < 10
  {
    "0123456789"[d]
  }

  /** `str(n)` for a natural number. */
  function NatToString(n: nat): (r: string)
    ensures r != []
    ensures forall i :: 0 <= i < |r| ==> '0' <= r[i] <= '9'
  {
    if n < 10 then [DigitChar(n)] else NatToString(n / 10) + [DigitChar(n % 10)]
  }

  /** `str(i)` for an integer. */
  function IntToString(i: int): string {
    if i < 0 then "-" + NatToString(-i) else NatToString(i)
  }

  /** `s.zfill(2)`: zeros are inserted on the left, after a leading sign, until
      the text is two characters long. */
  function ZFill2(s: string): (r: string)
    ensures |r| == if |s| >= 2 then |s| else 2
    ensures |s| >= 2 ==> r == s
  {
    if |s| >= 2 then s
    else if |s| == 1 && (s[0] == '+' || s[0] == '-') then s + "0"
    else if |s| == 1 then "0" + s
    else "00"
  }
}
