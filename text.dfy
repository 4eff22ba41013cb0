/**
 * Text helpers shared by the backend services and the page scripts: whitespace
 * (Java's `\s` class, which is also what `trim()` removes in this model), trimming,
 * collapsing whitespace runs, counting words, substring search, ASCII lower-casing,
 * decimal rendering of numbers, paragraph splitting on blank lines and
 * character replacement.
 */
module Text {

  /** A whitespace character: space, tab, line feed, vertical tab, form feed, carriage return. */
  predicate IsSpace(c: char) {
    c == ' ' || '\t' <= c <= '\r'
  }

  /** Every character is whitespace (Java's `isBlank()` on a non-null string). */
  predicate IsBlank(s: string) {
    forall i :: 0 <= i < |s| ==> IsSpace(s[i])
  }

  /** JavaScript's `a || b` on strings: the empty string is the only falsy one. */
  function Or(a: string, b: string): string {
    if a != "" then a else b
  }

  /** Number of whitespace characters at the start of `s`. */
  function LeadingSpaces(s: string): (n: nat)
    ensures n <= |s|
    ensures forall i :: 0 <= i < n ==> IsSpace(s[i])
    ensures n < |s| ==> !IsSpace(s[n])
  {
    if s != [] && IsSpace(s[0]) then 1 + LeadingSpaces(s[1..]) else 0
  }

  /** Length of `s` without its trailing whitespace. */
  function ContentEnd(s: string): (n: nat)
    ensures n <= |s|
    ensures forall i :: n <= i < |s| ==> IsSpace(s[i])
    ensures n > 0 ==> !IsSpace(s[n - 1])
  {
    if s != [] && IsSpace(s[|s| - 1]) then ContentEnd(s[..|s| - 1]) else |s|
  }

  /** Drops the leading whitespace. */
  function TrimStart(s: string): string {
    s[LeadingSpaces(s)..]
  }

  /** Java's and JavaScript's `trim()`: the text between the leading and the trailing whitespace. */
  function Trim(s: string): (r: string)
    ensures r == [] <==> IsBlank(s)
    ensures r != [] ==> !IsSpace(r[0]) && !IsSpace(r[|r| - 1])
    ensures OccursAt(s, r, LeadingSpaces(s))
    ensures forall i :: LeadingSpaces(s) + |r| <= i < |s| ==> IsSpace(s[i])
  {
    var lo := LeadingSpaces(s);
    var t := s[lo..];
    var e := ContentEnd(t);
    assert forall i :: lo + e <= i < |s| ==> s[i] == t[i - lo];
    assert e == 0 ==> IsBlank(s) by {
      if e == 0 {
        assert forall i :: 0 <= i < |s| ==> i < lo || s[i] == t[i - lo];
      }
    }
    t[..e]
  }

  /** Text that neither starts nor ends with whitespace is its own trim. */
  lemma TrimUnchanged(s: string)
    requires s != [] ==> !IsSpace(s[0]) && !IsSpace(s[|s| - 1])
    ensures Trim(s) == s
  {
    if s != [] {
      assert LeadingSpaces(s) == 0;
      var t := Trim(s);
      assert OccursAt(s, t, 0);
      assert |t| == |s|;
      assert s[0..|t|] == s;
    }
  }

  /** Trimming twice trims nothing more. */
  lemma TrimIdempotent(s: string)
    ensures Trim(Trim(s)) == Trim(s)
  {
    TrimUnchanged(Trim(s));
  }

  /** A string in which no two whitespace characters are adjacent. */
  predicate NoSpaceRuns(s: string) {
    forall i :: 0 <= i < |s| - 1 ==> !IsSpace(s[i]) || !IsSpace(s[i + 1])
  }

  /** Java's `replaceAll("\\s+", " ")`: every maximal whitespace run becomes one space. */
  function CollapseSpaces(s: string): (r: string)
    ensures NoSpaceRuns(r)
    ensures forall i :: 0 <= i < |r| && IsSpace(r[i]) ==> r[i] == ' '
    ensures |r| <= |s| && (r == [] <==> s == [])
    ensures s != [] ==> (IsSpace(r[0]) <==> IsSpace(s[0]))
    ensures s != [] ==> (IsSpace(r[|r| - 1]) <==> IsSpace(s[|s| - 1]))
    decreases |s|
  {
    if s == [] then []
    else if IsSpace(s[0]) then
      var t := TrimStart(s);
      assert t != [] ==> t[|t| - 1] == s[|s| - 1];
      [' '] + CollapseSpaces(t)
    else
      [s[0]] + CollapseSpaces(s[1..])
  }

  /**
   * Number of maximal runs of non-whitespace characters in `s`, where
   * `afterSpace` tells whether what precedes `s` is whitespace or the start of the text.
   */
  function WordsFrom(s: string, afterSpace: bool): nat {
    if s == [] then 0
    else (if afterSpace && !IsSpace(s[0]) then 1 else 0) + WordsFrom(s[1..], IsSpace(s[0]))
  }

  /** Number of words of a text: its maximal runs of non-whitespace characters. */
  function Words(s: string): nat {
    WordsFrom(s, true)
  }

  /** Counting the words of a concatenation: the second part continues from the end of the first. */
  lemma {:induction false} WordsFromAppend(x: string, y: string, b: bool)
    ensures WordsFrom(x + y, b) == WordsFrom(x, b) + WordsFrom(y, if x == [] then b else IsSpace(x[|x| - 1]))
    decreases |x|
  {
    if x != [] {
      assert (x + y)[1..] == x[1..] + y;
      WordsFromAppend(x[1..], y, IsSpace(x[0]));
    } else {
      assert x + y == y;
    }
  }

  /** Whitespace holds no word. */
  lemma {:induction false} WordsFromBlank(s: string, b: bool)
    requires IsBlank(s)
    ensures WordsFrom(s, b) == 0
    decreases |s|
  {
    if s != [] {
      WordsFromBlank(s[1..], true);
    }
  }

  /** Leading whitespace holds no word. */
  lemma {:induction false} WordsTrimStart(s: string)
    ensures Words(TrimStart(s)) == Words(s)
    decreases |s|
  {
    if s != [] && IsSpace(s[0]) {
      WordsTrimStart(s[1..]);
      assert TrimStart(s) == TrimStart(s[1..]);
    }
  }

  /** Trailing whitespace holds no word. */
  lemma WordsTrimEnd(a: string)
    ensures Words(a[..ContentEnd(a)]) == Words(a)
  {
    var r := a[..ContentEnd(a)];
    var tail := a[|r|..];
    assert a == r + tail;
    WordsFromAppend(r, tail, true);
    WordsFromBlank(tail, if r == [] then true else IsSpace(r[|r| - 1]));
  }

  /** Trimming keeps every word. */
  lemma WordsTrim(s: string)
    ensures Words(Trim(s)) == Words(s)
  {
    var t := TrimStart(s);
    WordsTrimStart(s);
    WordsTrimEnd(t);
    assert Trim(s) == t[..ContentEnd(t)];
  }

  /** Counting the words of a text that starts with the character `c`. */
  lemma WordsFromCons(c: char, x: string, b: bool)
    ensures WordsFrom([c] + x, b) == (if b && !IsSpace(c) then 1 else 0) + WordsFrom(x, IsSpace(c))
  {
    assert ([c] + x)[1..] == x;
  }

  /** Whitespace at the start of a text ends any word before it and holds none itself. */
  lemma WordsLeadingSpace(s: string, b: bool)
    requires s != [] && IsSpace(s[0])
    ensures WordsFrom(s, b) == Words(TrimStart(s))
  {
    WordsTrimStart(s[1..]);
    assert TrimStart(s) == TrimStart(s[1..]);
  }

  /** Collapsing whitespace runs keeps every word. */
  lemma {:induction false} WordsCollapse(s: string, b: bool)
    ensures WordsFrom(CollapseSpaces(s), b) == WordsFrom(s, b)
    decreases |s|
  {
    if s == [] {
    } else if IsSpace(s[0]) {
      var t := TrimStart(s);
      WordsCollapse(t, true);
      WordsFromCons(' ', CollapseSpaces(t), b);
      WordsLeadingSpace(s, b);
    } else {
      WordsCollapse(s[1..], false);
      WordsFromCons(s[0], CollapseSpaces(s[1..]), b);
    }
  }

  /** Length of the longest prefix of `s` without whitespace. */
  function WordLength(s: string): (n: nat)
    ensures n <= |s|
    ensures forall i :: 0 <= i < n ==> !IsSpace(s[i])
    ensures n < |s| ==> IsSpace(s[n])
  {
    if s == [] || IsSpace(s[0]) then 0 else 1 + WordLength(s[1..])
  }

  /** The pieces of `s` between its maximal whitespace runs, empty pieces included. */
  function Pieces(s: string): (r: seq<string>)
    ensures |r| >= 1
    decreases |s|
  {
    var n := WordLength(s);
    if n == |s| then [s]
    else [s[..n]] + Pieces(TrimStart(s[n..]))
  }

  /** Drops the empty strings at the end of a list, as Java's `split` does. */
  function DropTrailingEmpty(parts: seq<string>): (r: seq<string>)
    ensures |r| <= |parts| && r == parts[..|r|]
    ensures r != [] ==> r[|r| - 1] != ""
    ensures forall i :: |r| <= i < |parts| ==> parts[i] == ""
  {
    if parts == [] || parts[|parts| - 1] != "" then parts
    else DropTrailingEmpty(parts[..|parts| - 1])
  }

  /** Java's `s.split("\\s+")`. */
  function SplitOnSpaces(s: string): seq<string> {
    DropTrailingEmpty(Pieces(s))
  }

  /** A text without whitespace at either end splits into exactly its words, none of them empty. */
  lemma {:induction false} PiecesOfTrimmed(t: string)
    requires t != [] && !IsSpace(t[0]) && !IsSpace(t[|t| - 1])
    ensures |Pieces(t)| == Words(t)
    ensures forall i :: 0 <= i < |Pieces(t)| ==> Pieces(t)[i] != ""
    decreases |t|
  {
    var n := WordLength(t);
    if n == |t| {
      WordsNoSpace(t);
    } else {
      var u := TrimStart(t[n..]);
      SuffixAfterWord(t, n);
      PiecesOfTrimmed(u);
      WordsAfterPrefix(t);
      PiecesCons(t, Pieces(u));
    }
  }

  /** The pieces of a text that starts with a word followed by whitespace. */
  lemma PiecesCons(t: string, ps: seq<string>)
    requires t != [] && !IsSpace(t[0]) && WordLength(t) < |t|
    requires ps == Pieces(TrimStart(t[WordLength(t)..]))
    requires forall i :: 0 <= i < |ps| ==> ps[i] != ""
    ensures Pieces(t) == [t[..WordLength(t)]] + ps
    ensures forall i :: 0 <= i < |Pieces(t)| ==> Pieces(t)[i] != ""
  {
    var r := [t[..WordLength(t)]] + ps;
    forall i | 0 <= i < |r|
      ensures r[i] != ""
    {
      if i > 0 {
        assert r[i] == ps[i - 1];
      }
    }
  }

  /** A text that starts with a word has that word plus the words after the whitespace that ends it. */
  lemma WordsAfterPrefix(t: string)
    requires t != [] && !IsSpace(t[0]) && WordLength(t) < |t|
    ensures Words(t) == 1 + Words(TrimStart(t[WordLength(t)..]))
  {
    var n := WordLength(t);
    WordsSplitAt(t, n, true);
    WordsNoSpace(t[..n]);
    WordsAfterSpace(t[n..]);
  }

  /** Counting the words of `s` in two parts, cut at `k`. */
  lemma {:induction false} WordsSplitAt(s: string, k: nat, b: bool)
    requires k <= |s|
    ensures WordsFrom(s, b) == WordsFrom(s[..k], b) + WordsFrom(s[k..], if k == 0 then b else IsSpace(s[k - 1]))
  {
    WordsFromAppend(s[..k], s[k..], b);
    assert s[..k] + s[k..] == s;
  }

  /** What follows a word inside a text that ends in a non-whitespace character, once its leading whitespace is dropped. */
  lemma SuffixAfterWord(t: string, k: nat)
    requires k < |t| && IsSpace(t[k]) && !IsSpace(t[|t| - 1])
    ensures var u := TrimStart(t[k..]); u != [] && !IsSpace(u[0]) && u[|u| - 1] == t[|t| - 1]
  {
    var rest := t[k..];
    var n := LeadingSpaces(rest);
    assert rest[|rest| - 1] == t[|t| - 1];
    assert n < |rest|;
    assert rest[n..][|rest| - n - 1] == t[|t| - 1];
  }

  /** A text that begins with whitespace, read after a word, has the words of its trimmed form. */
  lemma WordsAfterSpace(rest: string)
    requires rest != [] && IsSpace(rest[0])
    ensures WordsFrom(rest, false) == Words(TrimStart(rest))
  {
    WordsLeadingSpace(rest, false);
  }

  /** A non-empty run of non-whitespace characters is one word. */
  lemma {:induction false} WordsNoSpace(w: string)
    requires w != [] && forall i :: 0 <= i < |w| ==> !IsSpace(w[i])
    ensures Words(w) == 1
  {
    NoSpaceNoNewWord(w[1..]);
  }

  /** Without whitespace, a text continuing a word starts no new one. */
  lemma {:induction false} NoSpaceNoNewWord(w: string)
    requires forall i :: 0 <= i < |w| ==> !IsSpace(w[i])
    ensures WordsFrom(w, false) == 0
    decreases |w|
  {
    if w != [] {
      NoSpaceNoNewWord(w[1..]);
    }
  }

  /** Java's `s.split("\\s+")` on a trimmed, non-empty text yields exactly its words. */
  lemma SplitTrimmedCountsWords(t: string)
    requires t != [] && !IsSpace(t[0]) && !IsSpace(t[|t| - 1])
    ensures SplitOnSpaces(t) == Pieces(t)
    ensures |SplitOnSpaces(t)| == Words(t)
  {
    PiecesOfTrimmed(t);
  }

  /** `pat` occurs in `s` at position `i`. */
  predicate OccursAt(s: string, pat: string, i: int) {
    0 <= i && i + |pat| <= |s| && s[i..i + |pat|] == pat
  }

  /** JavaScript's `includes` / Java's `contains`. */
  predicate Contains(s: string, pat: string) {
    exists i | 0 <= i <= |s| - |pat| :: OccursAt(s, pat, i)
  }

  /** Java's and JavaScript's `indexOf(pat, from)`: the first occurrence at or after `from`, or -1. */
  function IndexOfFrom(s: string, pat: string, from: nat): (r: int)
    ensures r == -1 || (from <= r && OccursAt(s, pat, r))
    ensures r == -1 ==> forall i :: from <= i ==> !OccursAt(s, pat, i)
    ensures r >= 0 ==> forall i :: from <= i < r ==> !OccursAt(s, pat, i)
    decreases |s| - from
  {
    if from + |pat| > |s| then -1
    else if s[from..from + |pat|] == pat then from
    else IndexOfFrom(s, pat, from + 1)
  }

  /** Java's and JavaScript's `indexOf(pat)`. */
  function IndexOf(s: string, pat: string): (r: int)
    ensures r == -1 <==> !Contains(s, pat)
    ensures r >= 0 ==> OccursAt(s, pat, r) && forall i :: 0 <= i < r ==> !OccursAt(s, pat, i)
  {
    IndexOfFrom(s, pat, 0)
  }

  /** The lower-case form of an ASCII letter; every other character is unchanged. */
  function LowerChar(c: char): char {
    if 'A' <= c <= 'Z' then (c as int + 32) as char else c
  }

  /** `toLowerCase()` restricted to ASCII letters. */
  function ToLower(s: string): (r: string)
    ensures |r| == |s| && forall i :: 0 <= i < |s| ==> r[i] == LowerChar(s[i])
  {
    if s == [] then [] else [LowerChar(s[0])] + ToLower(s[1..])
  }

  /** Lower-casing twice lower-cases nothing more. */
  lemma ToLowerIdempotent(s: string)
    ensures ToLower(ToLower(s)) == ToLower(s)
  {
    var l := ToLower(s);
    assert forall i :: 0 <= i < |l| ==> LowerChar(l[i]) == l[i];
  }

  /** Lower-casing a concatenation lower-cases each part. */
  lemma ToLowerAppend(a: string, b: string)
    ensures ToLower(a + b) == ToLower(a) + ToLower(b)
  {
    var l := ToLower(a + b);
    assert forall i :: 0 <= i < |a| ==> l[i] == LowerChar(a[i]);
    assert forall i :: |a| <= i < |a| + |b| ==> l[i] == LowerChar(b[i - |a|]);
  }

  /** Every string contains itself. */
  lemma ContainsSelf(s: string)
    ensures Contains(s, s)
  {
    assert s[0..|s|] == s;
    assert OccursAt(s, s, 0);
  }

  /** A string containing `a + b` contains `a`. */
  lemma ContainsPrefixOfPattern(s: string, a: string, b: string)
    requires Contains(s, a + b)
    ensures Contains(s, a)
  {
    var i :| 0 <= i <= |s| - |a + b| && OccursAt(s, a + b, i);
    assert s[i..i + |a|] == (a + b)[..|a|] == a;
    assert OccursAt(s, a, i);
  }

  /** The value of a decimal digit. */
  function DigitValue(c: char): nat
    requires '0' <= c <= '9'
  {
    c as int - '0' as int
  }

  /** The value of a string of decimal digits. */
  function DigitsValue(s: string): nat
    requires forall i :: 0 <= i < |s| ==> '0' <= s[i] <= '9'
  {
    if s == [] then 0 else DigitsValue(s[..|s| - 1]) * 10 + DigitValue(s[|s| - 1])
  }

  /** The decimal rendering of a natural number, as `String(n)` and `${n}` produce it. */
  function NatToString(n: nat): (r: string)
    ensures r != [] && forall i :: 0 <= i < |r| ==> '0' <= r[i] <= '9'
    ensures r[0] == '0' ==> r == "0"
    ensures DigitsValue(r) == n
  {
    var d := ['0' + (n % 10) as char];
    if n < 10 then d
    else
      var p := NatToString(n / 10);
      assert (p + d)[..|p + d| - 1] == p;
      p + d
  }

  /** A count badge: the count, then the noun, with the plural suffix unless the count is 1. */
  function CountNoun(n: nat, noun: string, pluralSuffix: string): (r: string)
    ensures r == IntToString(n) + " " + (if n == 1 then noun else noun + pluralSuffix)
  {
    IntToString(n) + " " + noun + (if n != 1 then pluralSuffix else "")
  }

  /** The decimal rendering of an integer, with a minus sign when negative. */
  function IntToString(n: int): (r: string)
    ensures r != []
    ensures n < 0 <==> r[0] == '-'
  {
    if n < 0 then "-" + NatToString(-n) else NatToString(n)
  }

  /** Two distinct natural numbers never render the same. */
  lemma NatToStringInjective(m: nat, n: nat)
    requires NatToString(m) == NatToString(n)
    ensures m == n
  {
  }

  /** `s` begins with a blank-line separator, two line feeds. */
  predicate StartsWithBlankLine(s: string) {
    |s| >= 2 && s[0] == '\n' && s[1] == '\n'
  }

  /** `s` holds two adjacent line feeds somewhere. */
  predicate HasBlankLine(s: string) {
    exists i | 0 <= i < |s| - 1 :: s[i] == '\n' && s[i + 1] == '\n'
  }

  /** Drops the leading line feeds. */
  function SkipNewlines(s: string): (r: string)
    ensures |r| <= |s| && (r == [] || r[0] != '\n')
    ensures s != [] && s[0] == '\n' ==> |r| < |s|
  {
    if s != [] && s[0] == '\n' then SkipNewlines(s[1..]) else s
  }

  /** JavaScript's `s.split(/\n{2,}/)`: the blocks between runs of two or more line feeds. */
  function SplitParagraphs(s: string): (r: seq<string>)
    ensures |r| >= 1
    ensures forall i :: 0 <= i < |r| ==> !HasBlankLine(r[i])
    ensures s != [] && !StartsWithBlankLine(s) ==> r[0] != [] && r[0][0] == s[0]
    decreases |s|
  {
    if s == [] then [""]
    else if StartsWithBlankLine(s) then [""] + SplitParagraphs(SkipNewlines(s))
    else
      var rest := SplitParagraphs(s[1..]);
      var first := [s[0]] + rest[0];
      assert !HasBlankLine(first) by {
        if s[0] == '\n' && rest[0] != [] {
          assert s[1..] != [];
          assert !StartsWithBlankLine(s[1..]);
        }
        forall i | 0 <= i < |first| - 1
          ensures !(first[i] == '\n' && first[i + 1] == '\n')
        {
          if i > 0 {
            assert first[i] == rest[0][i - 1] && first[i + 1] == rest[0][i];
          }
        }
      }
      [first] + rest[1..]
  }

  /** The blocks joined with `sep` between consecutive ones. */
  function JoinWith(parts: seq<string>, sep: string): string
    requires |parts| >= 1
  {
    if |parts| == 1 then parts[0] else parts[0] + sep + JoinWith(parts[1..], sep)
  }

  /** Replaces every run of two or more line feeds by exactly two. */
  function SquashBlankLines(s: string): string
    decreases |s|
  {
    if s == [] then []
    else if StartsWithBlankLine(s) then "\n\n" + SquashBlankLines(SkipNewlines(s))
    else [s[0]] + SquashBlankLines(s[1..])
  }

  /** Splitting into paragraphs and joining them back with one blank line loses only the extra line feeds. */
  lemma {:induction false} SplitParagraphsJoin(s: string)
    ensures JoinWith(SplitParagraphs(s), "\n\n") == SquashBlankLines(s)
    decreases |s|
  {
    if s == [] {
    } else if StartsWithBlankLine(s) {
      SplitParagraphsJoin(SkipNewlines(s));
      var rest := SplitParagraphs(SkipNewlines(s));
      assert ([""] + rest)[1..] == rest;
    } else {
      SplitParagraphsJoin(s[1..]);
      var rest := SplitParagraphs(s[1..]);
      var parts := [[s[0]] + rest[0]] + rest[1..];
      if |rest| == 1 {
      } else {
        assert parts[1..] == rest[1..];
      }
    }
  }

  /** Replaces every occurrence of the character `c` by `rep`, as `replace(/c/g, rep)` does. */
  function ReplaceChar(s: string, c: char, rep: string): (r: string)
    ensures c !in rep ==> c !in r
    ensures forall d :: d in r ==> d in rep || (d in s && d != c)
  {
    if s == [] then []
    else (if s[0] == c then rep else [s[0]]) + ReplaceChar(s[1..], c, rep)
  }

  /** Replacing in a concatenation replaces in each part. */
  lemma {:induction false} ReplaceCharAppend(x: string, y: string, c: char, rep: string)
    ensures ReplaceChar(x + y, c, rep) == ReplaceChar(x, c, rep) + ReplaceChar(y, c, rep)
    decreases |x|
  {
    if x != [] {
      assert (x + y)[1..] == x[1..] + y;
      ReplaceCharAppend(x[1..], y, c, rep);
    } else {
      assert x + y == y;
    }
  }

  /** Replacing a character the text does not hold changes nothing. */
  lemma {:induction false} ReplaceAbsent(s: string, c: char, rep: string)
    requires c !in s
    ensures ReplaceChar(s, c, rep) == s
    decreases |s|
  {
    if s != [] {
      assert c !in s[1..];
      ReplaceAbsent(s[1..], c, rep);
      assert s == [s[0]] + s[1..];
    }
  }
}
