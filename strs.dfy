/** Python string built-ins used by the pipeline, as total functions on
    `seq<char>`.  Whitespace is Python's `str.isspace` set (the set that
    `strip()`, `split()` and the regex class `\s` use); letter and digit
    classes are ASCII. */
module Strs {
  import opened Common

  /** `str.isspace()` for one character. */
  predicate IsSpace(c: char) {
    c == ' ' || ('\t' <= c <= '\r') || ('\U{1C}' <= c <= '\U{1F}')
    || c == '\U{85}' || c == '\U{A0}' || c == '\U{1680}'
    || ('\U{2000}' <= c <= '\U{200A}') || c == '\U{2028}' || c == '\U{2029}'
    || c == '\U{202F}' || c == '\U{205F}' || c == '\U{3000}'
  }

  predicate IsDigit(c: char) { '0' <= c <= '9' }
  predicate IsLetter(c: char) { ('a' <= c <= 'z') || ('A' <= c <= 'Z') }
  predicate IsAlnum(c: char) { IsLetter(c) || IsDigit(c) }
  /** The regex class `\w`: letters, digits and the underscore. */
  predicate IsWordChar(c: char) { IsAlnum(c) || c == '_' }

  predicate NoSpace(s: string) { forall i :: 0 <= i < |s| ==> !IsSpace(s[i]) }
  predicate AllSpace(s: string) { forall i :: 0 <= i < |s| ==> IsSpace(s[i]) }

  /** Neither end of `s` is whitespace. */
  predicate NoOuterSpace(s: string) {
    |s| == 0 || (!IsSpace(s[0]) && !IsSpace(s[|s| - 1]))
  }

  /** Every whitespace character is a plain space and none is followed by
      another whitespace character. */
  predicate SingleSpaced(s: string) {
    forall i :: 0 <= i < |s| && IsSpace(s[i]) ==>
      s[i] == ' ' && (i + 1 < |s| ==> !IsSpace(s[i + 1]))
  }

  // ------------------------------------------------------------------
  // strip / lstrip / rstrip
  // ------------------------------------------------------------------

  /** `s.lstrip()`: drops the longest all-whitespace prefix. */
  function LStrip(s: string): (r: string)
    ensures |r| <= |s|
    ensures r == s[|s| - |r|..]
    ensures AllSpace(s[..|s| - |r|])
    ensures r == [] || !IsSpace(r[0])
  {
    if s == [] || !IsSpace(s[0]) then s
    else
      var t := LStrip(s[1..]);
      assert s[..|s| - |t|] == [s[0]] + s[1..][..|s[1..]| - |t|];
      AllSpaceCons(s[0], s[1..][..|s[1..]| - |t|]);
      t
  }

  lemma AllSpaceCons(c: char, a: string)
    requires IsSpace(c) && AllSpace(a)
    ensures AllSpace([c] + a)
  {
    var b := [c] + a;
    forall i | 0 < i < |b| ensures IsSpace(b[i]) { assert b[i] == a[i - 1]; }
  }

  lemma AllSpaceSnoc(a: string, c: char)
    requires AllSpace(a) && IsSpace(c)
    ensures AllSpace(a + [c])
  {
    var b := a + [c];
    forall i | 0 <= i < |a| ensures IsSpace(b[i]) { assert b[i] == a[i]; }
  }

  /** What `lstrip` leaves is decided by the first non-whitespace position. */
  lemma {:induction false} LStripAt(s: string, a: nat)
    requires a <= |s| && AllSpace(s[..a]) && (a == |s| || !IsSpace(s[a]))
    ensures LStrip(s) == s[a..]
    decreases a
  {
    if a > 0 {
      DropFirst(s, a);
      LStripAt(s[1..], a - 1);
    }
  }

  /** `s.rstrip()`: drops the longest all-whitespace suffix. */
  function RStrip(s: string): (r: string)
    ensures |r| <= |s|
    ensures r == s[..|r|]
    ensures AllSpace(s[|r|..])
    ensures r == [] || !IsSpace(r[|r| - 1])
  {
    if s == [] || !IsSpace(s[|s| - 1]) then s
    else
      var u := s[..|s| - 1];
      var t := RStrip(u);
      assert s[|t|..] == u[|t|..] + [s[|s| - 1]];
      AllSpaceSnoc(u[|t|..], s[|s| - 1]);
      assert u[..|t|] == s[..|t|];
      t
  }

  /** `s.strip()`. */
  function Strip(s: string): (r: string)
    ensures NoOuterSpace(r)
    ensures |r| <= |s|
  {
    RStrip(LStrip(s))
  }

  /** Text without outer whitespace is left as it is. */
  lemma StripNoOuterSpace(s: string)
    requires NoOuterSpace(s)
    ensures Strip(s) == s
  {
  }

  /** A leading space does not change what `strip()` returns. */
  lemma StripSpaceFirst(s: string)
    ensures Strip(" " + s) == Strip(s)
  {
    assert (" " + s)[1..] == s;
  }

  /** `strip()` removes exactly the outer whitespace: what it returns is a
      contiguous piece of `s` with only whitespace around it. */
  lemma StripIsInfix(s: string)
    ensures var r := Strip(s);
      exists a :: 0 <= a && a + |r| <= |s| && r == s[a..a + |r|]
        && AllSpace(s[..a]) && AllSpace(s[a + |r|..])
  {
    var a := StripAt(s);
  }

  /** Where the stripped text sits in `s`. */
  lemma StripAt(s: string) returns (a: nat)
    ensures var r := Strip(s);
      a + |r| <= |s| && r == s[a..a + |r|] && AllSpace(s[..a]) && AllSpace(s[a + |r|..])
  {
    var l := LStrip(s);
    var r := RStrip(l);
    a := |s| - |l|;
    SliceSlice(s, a, |r|);
  }

  /** Stripping keeps a text free of line boundaries. */
  lemma StripNoLineBreak(s: string)
    requires forall j :: 0 <= j < |s| ==> !IsLineBreak(s[j])
    ensures forall j :: 0 <= j < |Strip(s)| ==> !IsLineBreak(Strip(s)[j])
  {
    var a := StripAt(s);
    var r := Strip(s);
    forall j | 0 <= j < |r| ensures !IsLineBreak(r[j]) {
      assert r[j] == s[a + j];
    }
  }

  /** `strip()` is empty exactly for an all-whitespace input. */
  lemma StripEmptyIff(s: string)
    ensures Strip(s) == [] <==> AllSpace(s)
  {
    LStripEmptyIff(s);
    var l := LStrip(s);
    if l != [] {
      assert l[0..] == l;
    }
  }

  /** Slicing keeps the single-space property. */
  lemma SingleSpacedSlice(s: string, a: int, b: int)
    requires 0 <= a <= b <= |s|
    requires SingleSpaced(s)
    ensures SingleSpaced(s[a..b])
  {
    var t := s[a..b];
    forall i | 0 <= i < |t| && IsSpace(t[i])
      ensures t[i] == ' ' && (i + 1 < |t| ==> !IsSpace(t[i + 1]))
    {
      assert t[i] == s[a + i];
      if i + 1 < |t| { assert t[i + 1] == s[a + i + 1]; }
    }
  }

  lemma StripSingleSpaced(s: string)
    requires SingleSpaced(s)
    ensures SingleSpaced(Strip(s))
  {
    var l := LStrip(s);
    SingleSpacedSlice(s, |s| - |l|, |s|);
    SingleSpacedSlice(l, 0, |RStrip(l)|);
  }

  /** `s.rstrip(c)` for a one-character argument. */
  function RStripChar(s: string, c: char): (r: string)
    ensures |r| <= |s|
    ensures r == s[..|r|]
    ensures forall i :: |r| <= i < |s| ==> s[i] == c
    ensures r == [] || r[|r| - 1] != c
  {
    if s == [] || s[|s| - 1] != c then s else RStripChar(s[..|s| - 1], c)
  }

  /** `s.lstrip(chars)`. */
  function LStripSet(s: string, chars: set<char>): (r: string)
    ensures |r| <= |s|
    ensures r == s[|s| - |r|..]
    ensures forall i :: 0 <= i < |s| - |r| ==> s[i] in chars
    ensures r == [] || r[0] !in chars
  {
    if s == [] || s[0] !in chars then s
    else
      var t := LStripSet(s[1..], chars);
      assert forall i :: 1 <= i < |s| - |t| ==> s[i] == s[1..][i - 1];
      t
  }

  // ------------------------------------------------------------------
  // prefixes, suffixes, search
  // ------------------------------------------------------------------

  predicate StartsWith(s: string, p: string) { |p| <= |s| && s[..|p|] == p }
  predicate EndsWith(s: string, p: string) { |p| <= |s| && s[|s| - |p|..] == p }

  /** Python's `sub in s`. */
  predicate Contains(s: string, sub: string)
  {
    StartsWith(s, sub) || (s != [] && Contains(s[1..], sub))
  }

  /** An occurrence at position `k` is an occurrence. */
  lemma {:induction false} ContainsAt(s: string, sub: string, k: nat)
    requires k <= |s| && StartsWith(s[k..], sub)
    ensures Contains(s, sub)
    decreases k
  {
    if k > 0 {
      assert s[1..][k - 1..] == s[k..];
      ContainsAt(s[1..], sub, k - 1);
    }
  }

  /** A one-character pattern occurs exactly when the character does. */
  lemma {:induction false} ContainsChar(s: string, c: char)
    ensures Contains(s, [c]) <==> c in s
  {
    if s != [] {
      ContainsChar(s[1..], c);
      assert s == [s[0]] + s[1..];
    }
  }

  /** The first position at which `sub` occurs in `s` (`str.find`). */
  function IndexOf(s: string, sub: string): (r: Option<nat>)
    ensures r.Some? ==> r.value + |sub| <= |s| && StartsWith(s[r.value..], sub)
  {
    if StartsWith(s, sub) then Some(0)
    else if s == [] then None
    else
      match IndexOf(s[1..], sub)
      case None => None
      case Some(i) =>
        assert s[i + 1..] == s[1..][i..];
        Some(i + 1)
  }

  /** `find` reports the first occurrence. */
  lemma {:induction false} IndexOfFirst(s: string, sub: string)
    ensures IndexOf(s, sub).Some? ==> forall j :: 0 <= j < IndexOf(s, sub).value ==> !StartsWith(s[j..], sub)
  {
    if !StartsWith(s, sub) && s != [] {
      IndexOfFirst(s[1..], sub);
      assert forall j :: 1 <= j <= |s| ==> s[j..] == s[1..][j - 1..];
    }
  }

  /** `find` fails exactly when the substring does not occur. */
  lemma {:induction false} IndexOfNone(s: string, sub: string)
    ensures IndexOf(s, sub).None? <==> !Contains(s, sub)
  {
    if !StartsWith(s, sub) && s != [] {
      IndexOfNone(s[1..], sub);
    }
  }

  /** An occurrence of `sub`, as a position of `s`. */
  lemma OccurrenceOf(s: string, sub: string) returns (k: nat)
    requires Contains(s, sub)
    ensures k + |sub| <= |s| && s[k..k + |sub|] == sub
  {
    IndexOfNone(s, sub);
    k := IndexOf(s, sub).value;
    SliceSlice(s, k, |sub|);
  }

  /** `s.replace(pat, rep)`: leftmost, non-overlapping, in one pass. */
  function ReplaceAll(s: string, pat: string, rep: string): (r: string)
    requires |pat| > 0
    decreases |s|
  {
    if s == [] then []
    else if StartsWith(s, pat) then rep + ReplaceAll(s[|pat|..], pat, rep)
    else [s[0]] + ReplaceAll(s[1..], pat, rep)
  }

  /** `replace` changes nothing when the pattern does not occur, and it
      does change a string in which the (non-empty) pattern occurs and the
      replacement is shorter. */
  lemma {:induction false} ReplaceAbsent(s: string, pat: string, rep: string)
    requires |pat| > 0
    ensures !Contains(s, pat) ==> ReplaceAll(s, pat, rep) == s
    decreases |s|
  {
    if s != [] && !Contains(s, pat) {
      assert !StartsWith(s, pat);
      ReplaceAbsent(s[1..], pat, rep);
    }
  }

  /** A string without `sub` has no occurrence of it at any position. */
  lemma {:induction false} NotContainsAt(s: string, sub: string, k: nat)
    requires k <= |s| && !Contains(s, sub)
    ensures !StartsWith(s[k..], sub)
    decreases k
  {
    if k > 0 {
      assert s[1..][k - 1..] == s[k..];
      NotContainsAt(s[1..], sub, k - 1);
    }
  }

  /** `replace` leaves a prefix alone when no occurrence of the pattern
      starts inside it. */
  lemma {:induction false} ReplaceAfter(a: string, b: string, pat: string, rep: string)
    requires |pat| > 0
    requires forall j :: 0 <= j < |a| ==> !StartsWith((a + b)[j..], pat)
    ensures ReplaceAll(a + b, pat, rep) == a + ReplaceAll(b, pat, rep)
    decreases |a|
  {
    if a != [] {
      assert (a + b)[0..] == a + b;
      assert (a + b)[1..] == a[1..] + b;
      forall j | 0 <= j < |a[1..]| ensures !StartsWith((a[1..] + b)[j..], pat) {
        assert (a[1..] + b)[j..] == (a + b)[j + 1..];
      }
      assert !StartsWith(a + b, pat);
      assert ReplaceAll(a + b, pat, rep) == [a[0]] + ReplaceAll(a[1..] + b, pat, rep);
      ReplaceAfter(a[1..], b, pat, rep);
      assert [a[0]] + (a[1..] + ReplaceAll(b, pat, rep)) == a + ReplaceAll(b, pat, rep);
    } else {
      assert a + b == b;
    }
  }

  /** Replacing a pattern that occurs only at the very end. */
  lemma ReplaceLast(a: string, pat: string, rep: string)
    requires |pat| > 0
    requires forall j :: 0 <= j < |a| ==> !StartsWith((a + pat)[j..], pat)
    ensures ReplaceAll(a + pat, pat, rep) == a + rep
  {
    ReplaceAfter(a, pat, pat, rep);
    ReplaceWhole(pat, rep);
  }

  /** Replacing the whole string. */
  lemma ReplaceWhole(pat: string, rep: string)
    requires |pat| > 0
    ensures ReplaceAll(pat, pat, rep) == rep
  {
    assert StartsWith(pat, pat);
    assert pat[|pat|..] == [];
    assert rep + [] == rep;
  }

  lemma {:induction false} ReplaceShrinks(s: string, pat: string, rep: string)
    requires |rep| < |pat|
    ensures Contains(s, pat) ==> |ReplaceAll(s, pat, rep)| < |s|
    ensures |ReplaceAll(s, pat, rep)| <= |s|
    decreases |s|
  {
    if s != [] {
      if StartsWith(s, pat) {
        ReplaceShrinks(s[|pat|..], pat, rep);
      } else {
        ReplaceShrinks(s[1..], pat, rep);
      }
    }
  }

  /** A replacement at least as long as the pattern never shortens. */
  lemma {:induction false} ReplaceGrows(s: string, pat: string, rep: string)
    requires 0 < |pat| <= |rep|
    ensures |ReplaceAll(s, pat, rep)| >= |s|
    decreases |s|
  {
    if s != [] {
      if StartsWith(s, pat) {
        ReplaceGrows(s[|pat|..], pat, rep);
      } else {
        ReplaceGrows(s[1..], pat, rep);
      }
    }
  }

  // ------------------------------------------------------------------
  // split / join
  // ------------------------------------------------------------------

  /** `sep.join(parts)`. */
  function Join(sep: string, parts: seq<string>): string
  {
    if parts == [] then []
    else if |parts| == 1 then parts[0]
    else parts[0] + sep + Join(sep, parts[1..])
  }

  /** A join starts with its first part and ends with its last. */
  lemma {:induction false} JoinEnds(sep: string, parts: seq<string>)
    ensures parts != [] ==> StartsWith(Join(sep, parts), parts[0])
    ensures parts != [] ==> EndsWith(Join(sep, parts), parts[|parts| - 1])
    ensures |parts| == 1 ==> Join(sep, parts) == parts[0]
    decreases |parts|
  {
    if |parts| > 1 {
      JoinEnds(sep, parts[1..]);
      var j := Join(sep, parts);
      var t := Join(sep, parts[1..]);
      assert j == parts[0] + sep + t;
      assert j[..|parts[0]|] == parts[0];
      assert j[|j| - |t|..] == t;
      assert t[|t| - |parts[|parts| - 1]|..] == j[|j| - |parts[|parts| - 1]|..];
    }
  }

  /** `s.split(sep)` for a non-empty separator. */
  function SplitOn(s: string, sep: string): (r: seq<string>)
    requires |sep| > 0
    ensures |r| >= 1
    decreases |s|
  {
    var k := IndexOf(s, sep);
    if k.None? then [s] else [s[..k.value]] + SplitOn(s[k.value + |sep|..], sep)
  }

  /** No piece of a split holds the separator. */
  lemma {:induction false} SplitOnPieces(s: string, sep: string)
    requires |sep| > 0
    ensures forall i :: 0 <= i < |SplitOn(s, sep)| ==> !Contains(SplitOn(s, sep)[i], sep)
    decreases |s|
  {
    match IndexOf(s, sep)
    case None =>
      IndexOfNone(s, sep);
    case Some(i) =>
      IndexOfFirst(s, sep);
      NoEarlierOccurrence(s, sep, i);
      SplitOnPieces(s[i + |sep|..], sep);
      SplitOnSome(s, sep, i);
  }

  lemma NoEarlierOccurrence(s: string, sep: string, i: nat)
    requires |sep| > 0 && i <= |s|
    requires forall j :: 0 <= j < i ==> !StartsWith(s[j..], sep)
    ensures !Contains(s[..i], sep)
    decreases i
  {
    if i > 0 {
      assert s[0..] == s;
      assert !StartsWith(s, sep);
      assert !StartsWith(s[..i], sep) by {
        if |sep| <= i { assert s[..i][..|sep|] == s[..|sep|]; }
      }
      assert forall j :: 0 <= j < i - 1 ==> s[1..][j..] == s[j + 1..];
      NoEarlierOccurrence(s[1..], sep, i - 1);
      assert s[..i][1..] == s[1..][..i - 1];
    }
  }

  /** Splitting and re-joining with the same separator gives the input back. */
  lemma {:induction false} SplitJoin(s: string, sep: string)
    requires |sep| > 0
    ensures Join(sep, SplitOn(s, sep)) == s
    decreases |s|
  {
    match IndexOf(s, sep)
    case None =>
    case Some(i) =>
      var tail := s[i + |sep|..];
      SplitJoin(tail, sep);
      var rest := SplitOn(tail, sep);
      SplitOnSome(s, sep, i);
      JoinCons(sep, s[..i], rest);
      SplitAround(s, sep, i);
  }

  lemma SplitOnSome(s: string, sep: string, i: nat)
    requires |sep| > 0 && IndexOf(s, sep) == Some(i)
    ensures SplitOn(s, sep) == [s[..i]] + SplitOn(s[i + |sep|..], sep)
  {
    var k := IndexOf(s, sep);
    assert k.Some? && k.value == i;
  }

  lemma SplitAround(s: string, sep: string, i: nat)
    requires i + |sep| <= |s| && StartsWith(s[i..], sep)
    ensures s == s[..i] + sep + s[i + |sep|..]
  {
    assert s[i..][..|sep|] == s[i..i + |sep|];
    assert s == s[..i] + s[i..i + |sep|] + s[i + |sep|..];
  }

  lemma JoinCons(sep: string, a: string, rest: seq<string>)
    requires rest != []
    ensures Join(sep, [a] + rest) == a + sep + Join(sep, rest)
  {
    assert ([a] + rest)[1..] == rest;
  }

  /** The leading run of non-whitespace characters. */
  function Word(s: string): (r: string)
    ensures |r| <= |s|
    ensures r == s[..|r|]
    ensures NoSpace(r)
    ensures |r| < |s| ==> IsSpace(s[|r|])
  {
    if s == [] || IsSpace(s[0]) then []
    else
      var w := Word(s[1..]);
      assert s[1..][..|w|] == s[1..|w| + 1];
      [s[0]] + w
  }

  /** `s.split()` (no argument): the maximal runs of non-whitespace. */
  function SplitWs(s: string): (r: seq<string>)
    ensures forall i :: 0 <= i < |r| ==> IsWord(r[i])
    decreases |s|
  {
    var t := LStrip(s);
    if t == [] then []
    else
      var w := Word(t);
      var rest := SplitWs(t[|w|..]);
      AllCons(w, rest, IsWord);
      [w] + rest
  }

  /** A piece of `split()`: non-empty, without whitespace. */
  predicate IsWord(x: string) { x != [] && NoSpace(x) }

  /** `lstrip()` empties exactly the all-whitespace strings. */
  lemma LStripEmptyIff(s: string)
    ensures LStrip(s) == [] <==> AllSpace(s)
  {
    var t := LStrip(s);
    if t == [] {
      TakeAll(s);
    } else {
      assert !IsSpace(s[|s| - |t|]);
    }
  }

  /** `s.split()` has no words exactly when `s` is all whitespace. */
  lemma SplitWsEmptyIff(s: string)
    ensures SplitWs(s) == [] <==> AllSpace(s)
  {
    LStripEmptyIff(s);
  }

  /** A line-boundary character for `str.splitlines()`. */
  predicate IsLineBreak(c: char) {
    c == '\n' || c == '\r' || c == '\U{0B}' || c == '\U{0C}' || c == '\U{1C}'
    || c == '\U{1D}' || c == '\U{1E}' || c == '\U{85}' || c == '\U{2028}' || c == '\U{2029}'
  }

  /** The text up to the first line boundary. */
  function LineHead(s: string): (r: string)
    ensures |r| <= |s|
    ensures r == s[..|r|]
    ensures forall i :: 0 <= i < |r| ==> !IsLineBreak(r[i])
    ensures |r| < |s| ==> IsLineBreak(s[|r|])
  {
    if s == [] || IsLineBreak(s[0]) then []
    else
      var h := LineHead(s[1..]);
      assert s[1..][..|h|] == s[1..|h| + 1];
      [s[0]] + h
  }

  /** `s.splitlines()`: lines without their terminators; `"\r\n"` is one
      terminator, and a final terminator does not open an empty line. */
  function SplitLines(s: string): (r: seq<string>)
    ensures forall i :: 0 <= i < |r| ==> forall j :: 0 <= j < |r[i]| ==> !IsLineBreak(r[i][j])
    ensures s == [] <==> r == []
    decreases |s|
  {
    if s == [] then []
    else
      var h := LineHead(s);
      if |h| == |s| then [h]
      else
        var n := if s[|h|] == '\r' && |h| + 1 < |s| && s[|h| + 1] == '\n' then 2 else 1;
        [h] + SplitLines(s[|h| + n..])
  }

  // ------------------------------------------------------------------
  // case and numbers
  // ------------------------------------------------------------------

  function LowerChar(c: char): char {
    if 'A' <= c <= 'Z' then (c as int + 32) as char else c
  }

  /** Lower-casing neither makes nor removes whitespace. */
  lemma LowerSpace(c: char)
    ensures IsSpace(LowerChar(c)) <==> IsSpace(c)
  {
  }

  /** `s.lower()` on ASCII letters. */
  function Lower(s: string): (r: string)
    ensures |r| == |s|
    ensures forall i :: 0 <= i < |s| ==> r[i] == LowerChar(s[i])
  {
    if s == [] then [] else [LowerChar(s[0])] + Lower(s[1..])
  }

  function DigitChar(d: nat): char
    requires d < 10
  {
    ('0' as int + d) as char
  }

  /** `str(n)` for a natural number. */
  function NatToStr(n: nat): (r: string)
    ensures |r| >= 1
    ensures forall i :: 0 <= i < |r| ==> IsDigit(r[i])
  {
    if n < 10 then [DigitChar(n)] else NatToStr(n / 10) + [DigitChar(n % 10)]
  }

  /** `str(i)` for an integer. */
  function IntToStr(i: int): (r: string)
    ensures |r| >= 1
    ensures i >= 0 ==> forall k :: 0 <= k < |r| ==> IsDigit(r[k])
    ensures i < 0 <==> r[0] == '-'
  {
    if i < 0 then "-" + NatToStr(-i) else NatToStr(i)
  }

  // ------------------------------------------------------------------
  // the regex substitution `\s+` -> " "
  // ------------------------------------------------------------------

  /** Replaces every maximal whitespace run by a single space. */
  function CollapseWs(s: string): (r: string)
    ensures SingleSpaced(r)
    ensures r == [] <==> s == []
    ensures s != [] && !IsSpace(s[0]) ==> r[0] == s[0]
    ensures s != [] && IsSpace(s[0]) ==> r[0] == ' '
    decreases |s|
  {
    if s == [] then []
    else if IsSpace(s[0]) then
      var t := LStrip(s);
      var rest := CollapseWs(t);
      assert t == [] || !IsSpace(t[0]);
      " " + rest
    else
      var rest := CollapseWs(s[1..]);
      [s[0]] + rest
  }

  /** Collapsing only shortens, and it creates no character but a space. */
  lemma {:induction false} CollapseChars(s: string)
    ensures |CollapseWs(s)| <= |s|
    ensures forall c :: c in CollapseWs(s) && c != ' ' ==> c in s
    decreases |s|
  {
    if s != [] {
      if IsSpace(s[0]) {
        var t := LStrip(s);
        CollapseChars(t);
        assert forall c :: c in t ==> c in s;
      } else {
        CollapseChars(s[1..]);
        assert forall c :: c in s[1..] ==> c in s;
      }
    }
  }

  /** Single-spaced text is left as it is. */
  lemma {:induction false} CollapseIdentity(s: string)
    requires SingleSpaced(s)
    ensures CollapseWs(s) == s
    decreases |s|
  {
    if s != [] {
      SingleSpacedSlice(s, 1, |s|);
      CollapseIdentity(s[1..]);
      if IsSpace(s[0]) {
        assert s[0] == ' ';
        LStripAt(s, 1);
        assert CollapseWs(s) == " " + CollapseWs(s[1..]);
      } else {
        assert CollapseWs(s) == [s[0]] + CollapseWs(s[1..]);
      }
      assert s == [s[0]] + s[1..];
    }
  }
}
