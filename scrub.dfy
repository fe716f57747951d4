/** The regular-expression deletions the text cleaners apply, each written
    as the left-to-right scan `re.sub(pattern, "", s)` performs: at each
    position, if the pattern matches there the match is dropped and the
    scan resumes after it, otherwise one character is kept.

      `<[^>]+>`              RemoveTags
      `#\S+`                 RemoveHashWords
      `\[\d+\]`              RemoveNumMarkers
      `\*\*\*#.*?\*\*\*`     RemoveStarSpans   (`.` does not match a newline)
      `\[\d+.*?\]`           RemoveCiteBrackets

    For every pass, the output equals the input exactly when the pattern
    matches nowhere.  A pass can create a new match out of the pieces
    around a deleted one (`"[[1]1]"` becomes `"[1]"`), so only the tag and
    hash-word patterns are proved absent from their own output. */
module Scrub {
  import opened Common
  import opened Strs

  // ------------------------------------------------------------------
  // `<[^>]+>`
  // ------------------------------------------------------------------

  /** A tag starts here: `<`, at least one character other than `>`, then
      a `>`. */
  predicate TagAt(s: string) {
    |s| >= 3 && s[0] == '<' && s[1] != '>' && '>' in s[2..]
  }

  /** No tag starts anywhere in `s`. */
  predicate NoTag(s: string)
    decreases |s|
  {
    s == [] || (!TagAt(s) && NoTag(s[1..]))
  }

  /** The length of the tag at the start of `s`: up to its first `>`. */
  function TagLen(s: string): (n: nat)
    requires TagAt(s)
    ensures 3 <= n <= |s|
  {
    ContainsChar(s[2..], '>');
    IndexOfNone(s[2..], ">");
    IndexOf(s[2..], ">").value + 3
  }

  function RemoveTags(s: string): (r: string)
    ensures |r| <= |s|
    ensures forall c :: c in r ==> c in s
    ensures s != [] && s[0] != '<' ==> r != [] && r[0] == s[0]
    decreases |s|
  {
    if s == [] then []
    else if TagAt(s) then
      var r := RemoveTags(s[TagLen(s)..]);
      assert forall c :: c in s[TagLen(s)..] ==> c in s;
      r
    else
      var r := RemoveTags(s[1..]);
      assert forall c :: c in s[1..] ==> c in s;
      [s[0]] + r
  }

  /** Keeping one character in front of a tag-free rest cannot open a tag,
      provided the rest came from a tail that could not close one either. */
  lemma KeepHeadNoTag(c: char, t: string, q: string)
    requires !TagAt([c] + t)
    requires NoTag(q)
    requires |q| <= |t|
    requires '>' in q ==> '>' in t
    requires t != [] && t[0] == '>' ==> q != [] && q[0] == '>'
    ensures NoTag([c] + q)
  {
    var x := [c] + q;
    assert x[1..] == q;
    if |q| >= 2 {
      assert x[2..] == q[1..];
      assert x[1] == q[0];
      assert q == [q[0]] + q[1..];
    }
    if t != [] {
      assert ([c] + t)[1] == t[0];
      assert ([c] + t)[2..] == t[1..];
      assert t == [t[0]] + t[1..];
    }
  }

  /** After the pass no tag is left. */
  lemma {:induction false} RemoveTagsNoTag(s: string)
    ensures NoTag(RemoveTags(s))
    decreases |s|
  {
    if s != [] {
      if TagAt(s) {
        RemoveTagsNoTag(s[TagLen(s)..]);
      } else {
        RemoveTagsNoTag(s[1..]);
        assert s == [s[0]] + s[1..];
        KeepHeadNoTag(s[0], s[1..], RemoveTags(s[1..]));
      }
    }
  }

  lemma {:induction false} RemoveTagsIdentity(s: string)
    ensures NoTag(s) ==> RemoveTags(s) == s
    decreases |s|
  {
    if s != [] {
      RemoveTagsIdentity(s[1..]);
    }
  }

  /** The tag pass is idempotent. */
  lemma RemoveTagsIdempotent(s: string)
    ensures RemoveTags(RemoveTags(s)) == RemoveTags(s)
  {
    RemoveTagsNoTag(s);
    RemoveTagsIdentity(RemoveTags(s));
  }

  lemma {:induction false} NoTagSuffix(s: string, n: nat)
    requires n <= |s|
    requires NoTag(s)
    ensures NoTag(s[n..])
    decreases n
  {
    if n > 0 {
      NoTagSuffix(s[1..], n - 1);
      assert s[1..][n - 1..] == s[n..];
    }
  }

  lemma {:induction false} NoTagPrefix(s: string, k: nat)
    requires k <= |s|
    requires NoTag(s)
    ensures NoTag(s[..k])
    decreases k
  {
    if k > 0 {
      var p := s[..k];
      NoTagPrefix(s[1..], k - 1);
      assert p[1..] == s[1..][..k - 1];
    }
  }

  /** `strip()` keeps a text tag-free. */
  lemma NoTagStrip(s: string)
    requires NoTag(s)
    ensures NoTag(Strip(s))
  {
    var l := LStrip(s);
    NoTagSuffix(s, |s| - |l|);
    NoTagPrefix(l, |RStrip(l)|);
  }

  // ------------------------------------------------------------------
  // `#\S+`
  // ------------------------------------------------------------------

  predicate HashAt(s: string) {
    |s| >= 2 && s[0] == '#' && !IsSpace(s[1])
  }

  predicate NoHash(s: string)
    decreases |s|
  {
    s == [] || (!HashAt(s) && NoHash(s[1..]))
  }

  /** `#` and the whole run of non-whitespace after it. */
  function HashLen(s: string): (n: nat)
    requires HashAt(s)
    ensures 2 <= n <= |s|
  {
    1 + |Word(s[1..])|
  }

  function RemoveHashWords(s: string): (r: string)
    ensures |r| <= |s|
    ensures forall c :: c in r ==> c in s
    ensures s != [] && s[0] != '#' ==> r != [] && r[0] == s[0]
    decreases |s|
  {
    if s == [] then []
    else if HashAt(s) then
      var r := RemoveHashWords(s[HashLen(s)..]);
      assert forall c :: c in s[HashLen(s)..] ==> c in s;
      r
    else
      var r := RemoveHashWords(s[1..]);
      assert forall c :: c in s[1..] ==> c in s;
      [s[0]] + r
  }

  lemma KeepHeadNoHash(c: char, t: string, q: string)
    requires !HashAt([c] + t)
    requires NoHash(q)
    requires t == [] ==> q == []
    requires t != [] && IsSpace(t[0]) ==> q != [] && IsSpace(q[0])
    ensures NoHash([c] + q)
  {
    var x := [c] + q;
    assert x[1..] == q;
    if t != [] { assert ([c] + t)[1] == t[0]; }
  }

  /** After the pass no `#` is followed by a non-whitespace character. */
  lemma {:induction false} RemoveHashWordsNoHash(s: string)
    ensures NoHash(RemoveHashWords(s))
    decreases |s|
  {
    if s != [] {
      if HashAt(s) {
        RemoveHashWordsNoHash(s[HashLen(s)..]);
      } else {
        RemoveHashWordsNoHash(s[1..]);
        assert s == [s[0]] + s[1..];
        KeepHeadNoHash(s[0], s[1..], RemoveHashWords(s[1..]));
      }
    }
  }

  lemma {:induction false} RemoveHashWordsKeepsNoTag(s: string)
    requires NoTag(s)
    ensures NoTag(RemoveHashWords(s))
    decreases |s|
  {
    if s != [] {
      if HashAt(s) {
        NoTagSuffix(s, HashLen(s));
        RemoveHashWordsKeepsNoTag(s[HashLen(s)..]);
      } else {
        RemoveHashWordsKeepsNoTag(s[1..]);
        assert s == [s[0]] + s[1..];
        KeepHeadNoTag(s[0], s[1..], RemoveHashWords(s[1..]));
      }
    }
  }

  lemma {:induction false} HashIdentity(s: string)
    ensures NoHash(s) ==> RemoveHashWords(s) == s
    decreases |s|
  {
    if s != [] {
      HashIdentity(s[1..]);
    }
  }

  lemma {:induction false} NoHashSuffix(s: string, n: nat)
    requires n <= |s|
    requires NoHash(s)
    ensures NoHash(s[n..])
    decreases n
  {
    if n > 0 {
      NoHashSuffix(s[1..], n - 1);
      assert s[1..][n - 1..] == s[n..];
    }
  }

  lemma {:induction false} NoHashPrefix(s: string, k: nat)
    requires k <= |s|
    requires NoHash(s)
    ensures NoHash(s[..k])
    decreases k
  {
    if k > 0 {
      var p := s[..k];
      NoHashPrefix(s[1..], k - 1);
      assert p[1..] == s[1..][..k - 1];
    }
  }

  lemma NoHashStrip(s: string)
    requires NoHash(s)
    ensures NoHash(Strip(s))
  {
    var l := LStrip(s);
    NoHashSuffix(s, |s| - |l|);
    NoHashPrefix(l, |RStrip(l)|);
  }

  /** Collapsing whitespace runs keeps a text free of tags and of hash
      words. */
  lemma {:induction false} CollapseKeepsClean(s: string)
    ensures NoTag(s) ==> NoTag(CollapseWs(s))
    ensures NoHash(s) ==> NoHash(CollapseWs(s))
    decreases |s|
  {
    if s != [] {
      if IsSpace(s[0]) {
        var t := LStrip(s);
        if NoTag(s) { NoTagSuffix(s, |s| - |t|); }
        if NoHash(s) { NoHashSuffix(s, |s| - |t|); }
        CollapseKeepsClean(t);
        assert (" " + CollapseWs(t))[1..] == CollapseWs(t);
      } else {
        CollapseKeepsClean(s[1..]);
        assert s == [s[0]] + s[1..];
        CollapseChars(s[1..]);
        if NoTag(s) { KeepHeadNoTag(s[0], s[1..], CollapseWs(s[1..])); }
        if NoHash(s) { KeepHeadNoHash(s[0], s[1..], CollapseWs(s[1..])); }
      }
    }
  }

  // ------------------------------------------------------------------
  // `\[\d+\]`
  // ------------------------------------------------------------------

  /** The leading run of ASCII digits. */
  function Digits(s: string): (r: string)
    ensures |r| <= |s|
    ensures r == s[..|r|]
    ensures forall i :: 0 <= i < |r| ==> IsDigit(r[i])
    ensures |r| < |s| ==> !IsDigit(s[|r|])
  {
    if s == [] || !IsDigit(s[0]) then []
    else
      var d := Digits(s[1..]);
      assert s[1..][..|d|] == s[1..|d| + 1];
      [s[0]] + d
  }

  predicate MarkerAt(s: string) {
    |s| >= 3 && s[0] == '[' && IsDigit(s[1])
    && 1 + |Digits(s[1..])| < |s| && s[1 + |Digits(s[1..])|] == ']'
  }

  predicate HasMarker(s: string)
    decreases |s|
  {
    s != [] && (MarkerAt(s) || HasMarker(s[1..]))
  }

  function RemoveNumMarkers(s: string): (r: string)
    ensures |r| <= |s|
    ensures forall c :: c in r ==> c in s
    ensures s != [] && s[0] != '[' ==> r != [] && r[0] == s[0]
    ensures HasMarker(s) ==> |r| < |s|
    decreases |s|
  {
    if s == [] then []
    else if MarkerAt(s) then
      var n := |Digits(s[1..])| + 2;
      var r := RemoveNumMarkers(s[n..]);
      assert forall c :: c in s[n..] ==> c in s;
      r
    else
      var r := RemoveNumMarkers(s[1..]);
      assert forall c :: c in s[1..] ==> c in s;
      [s[0]] + r
  }

  /** The marker pass changes a text exactly when a marker occurs in it. */
  lemma {:induction false} NumMarkersIdentity(s: string)
    ensures RemoveNumMarkers(s) == s <==> !HasMarker(s)
    decreases |s|
  {
    if s != [] {
      NumMarkersIdentity(s[1..]);
    }
  }

  lemma {:induction false} NumMarkersKeepNoHash(s: string)
    requires NoHash(s)
    ensures NoHash(RemoveNumMarkers(s))
    decreases |s|
  {
    if s != [] {
      if MarkerAt(s) {
        var n := |Digits(s[1..])| + 2;
        NoHashSuffix(s, n);
        NumMarkersKeepNoHash(s[n..]);
      } else {
        NumMarkersKeepNoHash(s[1..]);
        assert s == [s[0]] + s[1..];
        KeepHeadNoHash(s[0], s[1..], RemoveNumMarkers(s[1..]));
      }
    }
  }

  lemma {:induction false} NumMarkersKeepNoTag(s: string)
    requires NoTag(s)
    ensures NoTag(RemoveNumMarkers(s))
    decreases |s|
  {
    if s != [] {
      if MarkerAt(s) {
        var n := |Digits(s[1..])| + 2;
        NoTagSuffix(s, n);
        NumMarkersKeepNoTag(s[n..]);
      } else {
        NumMarkersKeepNoTag(s[1..]);
        assert s == [s[0]] + s[1..];
        KeepHeadNoTag(s[0], s[1..], RemoveNumMarkers(s[1..]));
      }
    }
  }

  /** A marker pass can leave a marker behind: the inner marker of
      `"[[1]1]"` is removed and the outer brackets close around `1`. */
  lemma NumMarkersNotIdempotent()
    ensures RemoveNumMarkers("[[1]1]") == "[1]"
    ensures HasMarker("[1]")
  {
    assert !MarkerAt("[[1]1]");
    assert Digits("1]1]") == "1";
    assert MarkerAt("[1]1]");
    assert "[[1]1]"[1..] == "[1]1]";
    assert "[1]1]"[3..] == "1]";
    assert Digits("1]") == "1";
    assert RemoveNumMarkers("1]") == "1]" by {
      assert !MarkerAt("1]");
      assert RemoveNumMarkers("]") == "]";
    }
    assert Digits("1]") == "1";
    assert MarkerAt("[1]");
  }

  // ------------------------------------------------------------------
  // `\*\*\*#.*?\*\*\*`
  // ------------------------------------------------------------------

  /** `***#`, then the shortest stretch without a newline up to `***`. */
  predicate StarAt(s: string) {
    StartsWith(s, "***#") && IndexOf(s[4..], "***").Some?
    && '\n' !in s[4..4 + IndexOf(s[4..], "***").value]
  }

  function StarLen(s: string): (n: nat)
    requires StarAt(s)
    ensures 7 <= n <= |s|
  {
    4 + IndexOf(s[4..], "***").value + 3
  }

  predicate HasStar(s: string)
    decreases |s|
  {
    s != [] && (StarAt(s) || HasStar(s[1..]))
  }

  function RemoveStarSpans(s: string): (r: string)
    ensures |r| <= |s|
    ensures forall c :: c in r ==> c in s
    ensures s != [] && s[0] != '*' ==> r != [] && r[0] == s[0]
    ensures HasStar(s) ==> |r| < |s|
    decreases |s|
  {
    if s == [] then []
    else if StarAt(s) then
      var r := RemoveStarSpans(s[StarLen(s)..]);
      assert forall c :: c in s[StarLen(s)..] ==> c in s;
      r
    else
      var r := RemoveStarSpans(s[1..]);
      assert forall c :: c in s[1..] ==> c in s;
      [s[0]] + r
  }

  lemma {:induction false} StarIdentity(s: string)
    ensures RemoveStarSpans(s) == s <==> !HasStar(s)
    decreases |s|
  {
    if s != [] {
      StarIdentity(s[1..]);
    }
  }

  lemma {:induction false} StarKeepsNoTag(s: string)
    requires NoTag(s)
    ensures NoTag(RemoveStarSpans(s))
    decreases |s|
  {
    if s != [] {
      if StarAt(s) {
        NoTagSuffix(s, StarLen(s));
        StarKeepsNoTag(s[StarLen(s)..]);
      } else {
        StarKeepsNoTag(s[1..]);
        assert s == [s[0]] + s[1..];
        KeepHeadNoTag(s[0], s[1..], RemoveStarSpans(s[1..]));
      }
    }
  }

  // ------------------------------------------------------------------
  // `\[\d+.*?\]`
  // ------------------------------------------------------------------

  /** `[`, a digit, then the shortest stretch without a newline up to
      `]`. */
  predicate CiteAt(s: string) {
    |s| >= 2 && s[0] == '[' && IsDigit(s[1]) && IndexOf(s[2..], "]").Some?
    && '\n' !in s[2..2 + IndexOf(s[2..], "]").value]
  }

  function CiteLen(s: string): (n: nat)
    requires CiteAt(s)
    ensures 3 <= n <= |s|
  {
    2 + IndexOf(s[2..], "]").value + 1
  }

  predicate HasCite(s: string)
    decreases |s|
  {
    s != [] && (CiteAt(s) || HasCite(s[1..]))
  }

  function RemoveCiteBrackets(s: string): (r: string)
    ensures |r| <= |s|
    ensures forall c :: c in r ==> c in s
    ensures s != [] && s[0] != '[' ==> r != [] && r[0] == s[0]
    ensures HasCite(s) ==> |r| < |s|
    decreases |s|
  {
    if s == [] then []
    else if CiteAt(s) then
      var r := RemoveCiteBrackets(s[CiteLen(s)..]);
      assert forall c :: c in s[CiteLen(s)..] ==> c in s;
      r
    else
      var r := RemoveCiteBrackets(s[1..]);
      assert forall c :: c in s[1..] ==> c in s;
      [s[0]] + r
  }

  lemma {:induction false} CiteIdentity(s: string)
    ensures RemoveCiteBrackets(s) == s <==> !HasCite(s)
    decreases |s|
  {
    if s != [] {
      CiteIdentity(s[1..]);
    }
  }

  lemma {:induction false} CiteKeepsNoTag(s: string)
    requires NoTag(s)
    ensures NoTag(RemoveCiteBrackets(s))
    decreases |s|
  {
    if s != [] {
      if CiteAt(s) {
        NoTagSuffix(s, CiteLen(s));
        CiteKeepsNoTag(s[CiteLen(s)..]);
      } else {
        CiteKeepsNoTag(s[1..]);
        assert s == [s[0]] + s[1..];
        KeepHeadNoTag(s[0], s[1..], RemoveCiteBrackets(s[1..]));
      }
    }
  }
}
