/** consolidate.py: a bibliography entry of a TEI file is compared field by
    field with the Crossref metadata of the DOI found for it, and both are
    rendered as BibTeX and as one line of text.  The fuzzy string scores
    are oracles; the Crossref, OpenAlex and Unpaywall queries are not part
    of this model. */
module Consolidate {
  import opened Common
  import opened Strs

  /** A flat bibliographic dict: string fields in insertion order. */
  type Bib = seq<(string, string)>

  /** `bib.get(k, "")`. */
  function Field(b: Bib, k: string): (r: string)
    ensures r != [] ==> exists i :: 0 <= i < |b| && b[i] == (k, r)
    decreases |b|
  {
    if b == [] then ""
    else if b[0].0 == k then b[0].1
    else
      var r := Field(b[1..], k);
      assert r != [] ==> exists i :: 0 <= i < |b[1..]| && b[1..][i] == (k, r);
      r
  }

  /** A score in percent, as the fuzzy matcher returns it. */
  type Percent = x: int | 0 <= x <= 100

  /** The fuzzy matcher: `fuzz.token_set_ratio` and `fuzz.ratio`. */
  datatype Fuzz = Fuzz(tokenSetRatio: (string, string) -> Percent, ratio: (string, string) -> Percent)

  // ------------------------------------------------------------------
  // thresholds
  // ------------------------------------------------------------------

  /** `DEFAULT_THRESHOLD`. */
  function DefaultThreshold(): real { 0.9 }

  /** `field_thresholds.get(field, default_threshold)` with
      `FIELD_THRESHOLDS`. */
  function Threshold(field: string): (r: real)
    ensures 0.0 < r <= 1.0
  {
    if field == "author" || field == "title" then 0.85
    else if field == "year" then 1.0
    else if field == "publisher" then 0.9
    else DefaultThreshold()
  }

  // ------------------------------------------------------------------
  // compare_authors
  // ------------------------------------------------------------------

  /** The lower-cased, stripped, non-empty comma-separated names. */
  function Names(authors: string): (r: set<string>)
    ensures forall n :: n in r ==> n != [] && NoOuterSpace(n)
  {
    var parts := SplitOn(authors, ",");
    set i | 0 <= i < |parts| && Strip(parts[i]) != [] :: Name(parts[i])
  }

  /** One name, stripped and lower-cased. */
  function Name(part: string): (r: string)
    ensures |r| == |Strip(part)| && NoOuterSpace(r)
  {
    var t := Strip(part);
    if t == [] then [] else
      LowerSpace(t[0]);
      LowerSpace(t[|t| - 1]);
      Lower(t)
  }

  /** The Jaccard index of two non-empty name sets. */
  function Jaccard(a: set<string>, b: set<string>): (r: real)
    requires a != {} && b != {}
    ensures 0.0 <= r <= 1.0
    ensures a == b ==> r == 1.0
  {
    SubsetCard(a * b, a + b);
    NonEmptyCard(a + b);
    assert a == b ==> a * b == a + b;
    (|a * b| as real) / (|a + b| as real)
  }

  lemma NonEmptyCard<T>(s: set<T>)
    requires s != {}
    ensures |s| > 0
  {
    var x :| x in s;
  }

  lemma {:induction false} SubsetCard<T>(a: set<T>, b: set<T>)
    requires a <= b
    ensures |a| <= |b|
    decreases |a|
  {
    if a != {} {
      var x :| x in a;
      SubsetCard(a - {x}, b - {x});
    }
  }

  /** `compare_authors`: 1.0 when either side names nobody, otherwise
      0.7 times the token-set score plus 0.3 times the Jaccard index of the
      name sets (the threshold argument is unused). */
  function CompareAuthors(tei: string, cross: string, fz: Fuzz): (r: real)
    ensures 0.0 <= r <= 1.0
    ensures Names(tei) == {} || Names(cross) == {} ==> r == 1.0
  {
    var token := (fz.tokenSetRatio(tei, cross) as real) / 100.0;
    var a := Names(tei);
    var b := Names(cross);
    if a == {} || b == {} then 1.0
    else 0.7 * token + 0.3 * Jaccard(a, b)
  }

  /** The same names with a perfect token score match fully; any other
      token score lowers the similarity below 1. */
  lemma CompareAuthorsSameNames(tei: string, cross: string, fz: Fuzz)
    requires Names(tei) == Names(cross) != {}
    ensures CompareAuthors(tei, cross, fz) == 0.7 * ((fz.tokenSetRatio(tei, cross) as real) / 100.0) + 0.3
    ensures CompareAuthors(tei, cross, fz) == 1.0 <==> fz.tokenSetRatio(tei, cross) == 100
  {
  }

  /** With a symmetric token score, the comparison is symmetric. */
  lemma CompareAuthorsSymmetric(tei: string, cross: string, fz: Fuzz)
    requires fz.tokenSetRatio(tei, cross) == fz.tokenSetRatio(cross, tei)
    ensures CompareAuthors(tei, cross, fz) == CompareAuthors(cross, tei, fz)
  {
    var a := Names(tei);
    var b := Names(cross);
    assert a * b == b * a;
    assert a + b == b + a;
  }

  // ------------------------------------------------------------------
  // compare_bib_entries
  // ------------------------------------------------------------------

  /** A conflicting field: both values and their similarity. */
  datatype Conflict = Conflict(tei: string, crossref: string, similarity: real)

  /** The similarity of a field's two values. */
  function Similarity(field: string, tei: string, cross: string, fz: Fuzz): (r: real)
    ensures 0.0 <= r <= 1.0
  {
    if field == "author" then CompareAuthors(tei, cross, fz)
    else (fz.ratio(Lower(tei), Lower(cross)) as real) / 100.0
  }

  /** What one field contributes: nothing when either stripped value is
      empty or the similarity reaches the threshold. */
  function FieldConflict(field: string, tei: Bib, cross: Bib, fz: Fuzz): (r: Option<Conflict>)
  {
    var t := Strip(Field(tei, field));
    var c := Strip(Field(cross, field));
    if t == [] || c == [] then None
    else
      var sim := Similarity(field, t, c, fz);
      if sim < Threshold(field) then Some(Conflict(t, c, sim)) else None
  }

  /** The conflicts over the given fields, in their order. */
  function ConflictsOver(fields: seq<string>, tei: Bib, cross: Bib, fz: Fuzz): (r: seq<(string, Conflict)>)
  {
    Collect(fields, f => FieldConflict(f, tei, cross, fz))
  }

  /** The fields whose check yields a conflict, paired with it, in order. */
  function Collect(fields: seq<string>, check: string -> Option<Conflict>): (r: seq<(string, Conflict)>)
    decreases |fields|
  {
    if fields == [] then []
    else
      var init := Collect(fields[..|fields| - 1], check);
      var f := fields[|fields| - 1];
      match check(f)
      case Some(c) => init + [(f, c)]
      case None => init
  }

  /** The four compared fields. */
  function Compared(): seq<string> { ["author", "title", "year", "publisher"] }

  /** A field is collected, with its conflict, exactly when it is one of
      the given fields and its check yields that conflict. */
  lemma {:induction false} CollectExactly(fields: seq<string>, check: string -> Option<Conflict>, f: string, c: Conflict)
    ensures (f, c) in Collect(fields, check) <==> f in fields && check(f) == Some(c)
    decreases |fields|
  {
    if fields != [] {
      var init := fields[..|fields| - 1];
      CollectExactly(init, check, f, c);
      assert fields == init + [fields[|fields| - 1]];
    }
  }

  /** A field is reported, with its conflict, exactly when it is one of
      the given fields and it conflicts. */
  lemma ConflictsExactly(fields: seq<string>, tei: Bib, cross: Bib, fz: Fuzz, f: string, c: Conflict)
    ensures (f, c) in ConflictsOver(fields, tei, cross, fz) <==> f in fields && FieldConflict(f, tei, cross, fz) == Some(c)
  {
    CollectExactly(fields, f => FieldConflict(f, tei, cross, fz), f, c);
  }

  /** A field conflicts exactly when both stripped values are non-empty
      and their similarity is below the field's threshold; the conflict
      holds both values and the similarity. */
  lemma FieldConflictIff(f: string, tei: Bib, cross: Bib, fz: Fuzz, c: Conflict)
    ensures FieldConflict(f, tei, cross, fz) == Some(c) <==>
      var t := Strip(Field(tei, f));
      var x := Strip(Field(cross, f));
      t != [] && x != [] && Similarity(f, t, x, fz) < Threshold(f)
      && c == Conflict(t, x, Similarity(f, t, x, fz))
  {
  }

  /** One more field extends the conflicts by that field's conflict, if any. */
  lemma ConflictsOverStep(fields: seq<string>, i: nat, tei: Bib, cross: Bib, fz: Fuzz)
    requires i < |fields|
    ensures ConflictsOver(fields[..i + 1], tei, cross, fz)
      == ConflictsOver(fields[..i], tei, cross, fz)
         + match FieldConflict(fields[i], tei, cross, fz)
           case Some(c) => [(fields[i], c)]
           case None => []
  {
    TakeTake(fields, i);
  }

  /** `compare_bib_entries`: the loop over the four fields. */
  method CompareBibEntries(tei: Bib, cross: Bib, fz: Fuzz) returns (conflicting: seq<(string, Conflict)>)
    ensures conflicting == ConflictsOver(Compared(), tei, cross, fz)
  {
    var fields := Compared();
    conflicting := [];
    for i := 0 to |fields|
      invariant conflicting == ConflictsOver(fields[..i], tei, cross, fz)
    {
      ConflictsOverStep(fields, i, tei, cross, fz);
      var field := fields[i];
      var t := Strip(Field(tei, field));
      var c := Strip(Field(cross, field));
      if t == [] || c == [] {
        assert FieldConflict(field, tei, cross, fz).None?;
        continue;
      }
      var sim := Similarity(field, t, c, fz);
      if sim < Threshold(field) {
        assert FieldConflict(field, tei, cross, fz) == Some(Conflict(t, c, sim));
        conflicting := conflicting + [(field, Conflict(t, c, sim))];
      } else {
        assert FieldConflict(field, tei, cross, fz).None?;
      }
    }
    TakeAll(fields);
  }

  /** A field with threshold 1, such as the year, must match exactly: it
      conflicts unless the matcher scores the two values 100. */
  lemma ExactField(f: string, t: string, x: string, fz: Fuzz)
    requires f != "author" && Threshold(f) == 1.0
    ensures Similarity(f, t, x, fz) < Threshold(f) <==> fz.ratio(Lower(t), Lower(x)) < 100
  {
  }

  /** The year's threshold is 1, the author's and title's 0.85. */
  lemma Thresholds()
    ensures Threshold("year") == 1.0
    ensures Threshold("author") == 0.85 && Threshold("title") == 0.85
    ensures Threshold("publisher") == 0.9 && Threshold("journal") == DefaultThreshold()
  {
  }

  // ------------------------------------------------------------------
  // dict_to_bibtex
  // ------------------------------------------------------------------

  predicate IsBrace(c: char) { c == '{' || c == '}' }

  /** A value with every `{` and `}` backslash-escaped. */
  function Escape(v: string): (r: string)
    ensures |r| >= |v|
    ensures (forall i :: 0 <= i < |v| ==> !IsBrace(v[i])) ==> r == v
  {
    var once := ReplaceAll(v, "{", "\\{");
    ReplaceGrows(v, "{", "\\{");
    ReplaceGrows(once, "}", "\\}");
    ContainsChar(v, '{');
    ReplaceAbsent(v, "{", "\\{");
    ContainsChar(v, '}');
    ReplaceAbsent(v, "}", "\\}");
    ReplaceAll(once, "}", "\\}")
  }

  /** One character, escaped. */
  function EscChar(c: char): string {
    if IsBrace(c) then ['\\', c] else [c]
  }

  /** The escape, character by character. */
  function EscapeEach(v: string): (r: string)
    ensures r == [] || !IsBrace(r[0])
    ensures |r| >= |v|
    decreases |v|
  {
    if v == [] then [] else EscChar(v[0]) + EscapeEach(v[1..])
  }

  /** Replacing one character by a text is the per-character map. */
  lemma {:induction false} ReplaceOneChar(v: string, c: char, rep: string)
    ensures ReplaceAll(v, [c], rep) == if v == [] then [] else (if v[0] == c then rep else [v[0]]) + ReplaceAll(v[1..], [c], rep)
  {
    if v != [] {
      assert StartsWith(v, [c]) <==> v[0] == c;
    }
  }

  /** The two replacements escape each character. */
  lemma {:induction false} EscapeIsEach(v: string)
    ensures Escape(v) == EscapeEach(v)
    decreases |v|
  {
    if v != [] {
      EscapeIsEach(v[1..]);
      ReplaceOneChar(v, '{', "\\{");
      var open := if v[0] == '{' then "\\{" else [v[0]];
      var once := ReplaceAll(v, "{", "\\{");
      assert once == open + ReplaceAll(v[1..], "{", "\\{");
      ReplaceConcat(open, ReplaceAll(v[1..], "{", "\\{"), '}', "\\}");
      ReplaceOpen(v[0]);
    }
  }

  /** The second replacement on the first character's share. */
  lemma ReplaceOpen(c: char)
    ensures ReplaceAll(if c == '{' then "\\{" else [c], "}", "\\}") == EscChar(c)
  {
    if c == '{' {
      var s := "\\{";
      ReplaceOneChar(s, '}', "\\}");
      ReplaceOneChar(s[1..], '}', "\\}");
      assert s[1..][1..] == [];
    } else {
      ReplaceOneChar([c], '}', "\\}");
      assert [c][1..] == [];
    }
  }

  /** Replacing a single character distributes over concatenation. */
  lemma {:induction false} ReplaceConcat(a: string, b: string, c: char, rep: string)
    ensures ReplaceAll(a + b, [c], rep) == ReplaceAll(a, [c], rep) + ReplaceAll(b, [c], rep)
    decreases |a|
  {
    if a != [] {
      var head := if a[0] == c then rep else [a[0]];
      ReplaceOneChar(a + b, c, rep);
      ReplaceOneChar(a, c, rep);
      assert (a + b)[0] == a[0] && (a + b)[1..] == a[1..] + b;
      assert ReplaceAll(a + b, [c], rep) == head + ReplaceAll(a[1..] + b, [c], rep);
      assert ReplaceAll(a, [c], rep) == head + ReplaceAll(a[1..], [c], rep);
      ReplaceConcat(a[1..], b, c, rep);
    } else {
      assert a + b == b;
    }
  }

  /** Every brace of an escaped value follows a backslash. */
  predicate BracesEscaped(r: string) {
    forall i :: 0 <= i < |r| && IsBrace(r[i]) ==> i > 0 && r[i - 1] == '\\'
  }

  lemma {:induction false} EscapedBraces(v: string)
    ensures BracesEscaped(EscapeEach(v))
    decreases |v|
  {
    if v != [] {
      EscapedBraces(v[1..]);
      var e := EscChar(v[0]);
      var rest := EscapeEach(v[1..]);
      assert EscapeEach(v) == e + rest;
      forall i | 0 <= i < |e + rest| && IsBrace((e + rest)[i])
        ensures i > 0 && (e + rest)[i - 1] == '\\'
      {
        if i < |e| {
          assert !IsBrace(e[0]);
          assert (e + rest)[i] == e[i];
          if i > 0 {
            assert IsBrace(v[0]) && e == ['\\', v[0]];
            assert (e + rest)[i - 1] == e[i - 1];
          }
        } else {
          var k := i - |e|;
          assert (e + rest)[i] == rest[k];
          if k == 0 {
            assert !IsBrace(rest[0]);
          } else {
            assert IsBrace(rest[k]);
            assert rest[k - 1] == '\\';
            assert (e + rest)[i - 1] == rest[k - 1];
          }
        }
      }
    }
  }

  /** Dropping a backslash that precedes a brace. */
  function Unescape(s: string): string
    decreases |s|
  {
    if s == [] then []
    else if |s| >= 2 && s[0] == '\\' && IsBrace(s[1]) then [s[1]] + Unescape(s[2..])
    else [s[0]] + Unescape(s[1..])
  }

  /** Unescaping gives the value back. */
  lemma {:induction false} UnescapeEscape(v: string)
    ensures Unescape(EscapeEach(v)) == v
    decreases |v|
  {
    if v != [] {
      UnescapeEscape(v[1..]);
      var rest := EscapeEach(v[1..]);
      var s := EscChar(v[0]) + rest;
      assert EscapeEach(v) == s;
      if IsBrace(v[0]) {
        assert s[2..] == rest;
      } else {
        assert s[1..] == rest;
        assert |s| >= 2 ==> s[1] == rest[0];
      }
    }
  }

  /** One BibTeX field line. */
  function BibLine(key: string, value: string): string {
    "  " + key + " = {" + Escape(value) + "}"
  }

  /** The field lines of the truthy values, in dict order. */
  function BibLines(b: Bib): (r: seq<string>)
    ensures |r| <= |b|
    decreases |b|
  {
    if b == [] then []
    else
      var init := BibLines(b[..|b| - 1]);
      var (k, v) := b[|b| - 1];
      if v != [] then init + [BibLine(k, v)] else init
  }

  /** The BibTeX entry. */
  function Bibtex(b: Bib, item: string, entryType: string): string {
    "@" + entryType + "{" + item + ",\n" + Join(",\n", BibLines(b)) + "\n}"
  }

  /** One line per truthy value: the line of the `i`-th truthy field is
      its key with its escaped value. */
  lemma {:induction false} BibLinesTruthy(b: Bib)
    ensures |BibLines(b)| == |TruthyFields(b)|
    ensures forall i :: 0 <= i < |TruthyFields(b)| ==> BibLines(b)[i] == BibLine(TruthyFields(b)[i].0, TruthyFields(b)[i].1)
    decreases |b|
  {
    if b != [] {
      BibLinesTruthy(b[..|b| - 1]);
    }
  }

  /** The fields with a truthy value, in order. */
  function TruthyFields(b: Bib): (r: Bib)
    ensures forall i :: 0 <= i < |r| ==> r[i].1 != [] && r[i] in b
    decreases |b|
  {
    if b == [] then []
    else
      var init := TruthyFields(b[..|b| - 1]);
      assert forall x :: x in b[..|b| - 1] ==> x in b;
      if b[|b| - 1].1 != [] then init + [b[|b| - 1]] else init
  }

  /** `dict_to_bibtex`: the loop over the dict items and the wrapper. */
  method DictToBibtex(b: Bib, item: string, entryType: string) returns (r: string)
    ensures r == Bibtex(b, item, entryType)
    ensures StartsWith(r, "@" + entryType + "{" + item + ",\n") && EndsWith(r, "\n}")
  {
    var fields: seq<string> := [];
    for i := 0 to |b|
      invariant fields == BibLines(b[..i])
    {
      TakeTake(b, i);
      var (key, value) := b[i];
      if value != [] {
        fields := fields + ["  " + key + " = {" + Escape(value) + "}"];
      }
    }
    TakeAll(b);
    var head := "@" + entryType + "{" + item + ",\n";
    r := head + Join(",\n", fields) + "\n}";
    assert r[..|head|] == head;
    assert r[|r| - 2..] == "\n}";
  }

  // ------------------------------------------------------------------
  // flatten_tei_bibl and format_bib_entry
  // ------------------------------------------------------------------

  /** The parts of an extracted biblStruct that the flat dict uses, with
      `""` and `[]` for absent entries: the analytic and monograph titles
      and author lists, and the imprint's date and publisher. */
  datatype TeiStruct = TeiStruct(analyticTitle: string, analyticAuthors: seq<string>,
                                 monogrTitle: string, monogrAuthors: seq<string>,
                                 date: string, publisher: string)

  /** `flatten_tei_bibl`. */
  function Flatten(s: TeiStruct): (r: Bib)
    ensures 1 <= |r| <= 4
    ensures forall i :: 0 <= i < |r| ==> r[i].0 in ["author", "title", "year", "publisher"]
    ensures forall i, j :: 0 <= i < j < |r| ==> r[i].0 != r[j].0
  {
    var authors := if s.analyticAuthors != [] then s.analyticAuthors else s.monogrAuthors;
    var title := if s.analyticTitle != [] then s.analyticTitle else s.monogrTitle;
    (if authors != [] then [("author", Join(", ", authors))] else [])
    + [("title", title)]
    + (if s.date != [] then [("year", s.date)] else [])
    + (if s.publisher != [] then [("publisher", s.publisher)] else [])
  }

  /** The analytic authors win over the monograph's, and there is no
      author field when neither has any. */
  lemma FlattenAuthors(s: TeiStruct)
    ensures s.analyticAuthors != [] ==> Field(Flatten(s), "author") == Join(", ", s.analyticAuthors)
    ensures s.analyticAuthors == [] && s.monogrAuthors != [] ==> Field(Flatten(s), "author") == Join(", ", s.monogrAuthors)
    ensures s.analyticAuthors == [] && s.monogrAuthors == [] ==> forall i :: 0 <= i < |Flatten(s)| ==> Flatten(s)[i].0 != "author"
  {
  }

  /** The flat dict's pieces: the author, title, year and publisher
      entries that are present. */
  lemma FlattenPieces(s: TeiStruct) returns (a: Bib, t: Bib, y: Bib, p: Bib)
    ensures Flatten(s) == a + t + y + p
    ensures t == [("title", if s.analyticTitle != [] then s.analyticTitle else s.monogrTitle)]
    ensures forall i :: 0 <= i < |a| ==> a[i].0 == "author"
    ensures y == if s.date != [] then [("year", s.date)] else []
    ensures p == if s.publisher != [] then [("publisher", s.publisher)] else []
  {
    var authors := if s.analyticAuthors != [] then s.analyticAuthors else s.monogrAuthors;
    a := if authors != [] then [("author", Join(", ", authors))] else [];
    t := [("title", if s.analyticTitle != [] then s.analyticTitle else s.monogrTitle)];
    y := if s.date != [] then [("year", s.date)] else [];
    p := if s.publisher != [] then [("publisher", s.publisher)] else [];
  }

  /** The title is always present, the analytic one first. */
  lemma FlattenTitle(s: TeiStruct)
    ensures exists i :: 0 <= i < |Flatten(s)| && Flatten(s)[i] == ("title", if s.analyticTitle != [] then s.analyticTitle else s.monogrTitle)
  {
    var a, t, y, p := FlattenPieces(s);
    assert Flatten(s)[|a|] == t[0];
  }

  /** The year appears only when the imprint has a date. */
  lemma FlattenYear(s: TeiStruct)
    ensures Field(Flatten(s), "year") == s.date
  {
    var a, t, y, p := FlattenPieces(s);
    assert Flatten(s) == (a + t) + (y + p);
    FieldSkip(a + t, y + p, "year");
    if s.date == [] {
      assert y + p == p + [];
      FieldSkip(p, [], "year");
    }
  }

  /** The publisher appears only when the imprint has one. */
  lemma FlattenPublisher(s: TeiStruct)
    ensures Field(Flatten(s), "publisher") == s.publisher
  {
    var a, t, y, p := FlattenPieces(s);
    FieldSkip(a + t + y, p, "publisher");
  }

  /** Keys other than `k` before the rest do not matter to `get(k)`. */
  lemma {:induction false} FieldSkip(a: Bib, b: Bib, k: string)
    requires forall i :: 0 <= i < |a| ==> a[i].0 != k
    ensures Field(a + b, k) == Field(b, k)
    decreases |a|
  {
    if a != [] {
      assert (a + b)[1..] == a[1..] + b;
      FieldSkip(a[1..], b, k);
    } else {
      assert a + b == b;
    }
  }

  /** The present parts of an entry, in the order author, `(year)`,
      title, publisher. */
  function EntryParts(b: Bib): (r: seq<string>)
    ensures forall i :: 0 <= i < |r| ==> r[i] != []
    ensures r == [] <==> Field(b, "author") == [] && Field(b, "year") == [] && Field(b, "title") == [] && Field(b, "publisher") == []
  {
    var a := Field(b, "author");
    var y := Field(b, "year");
    var t := Field(b, "title");
    var p := Field(b, "publisher");
    (if a != [] then [a] else []) + (if y != [] then ["(" + y + ")"] else [])
    + (if t != [] then [t] else []) + (if p != [] then [p] else [])
  }

  /** `format_bib_entry`: empty exactly when none of the four fields has
      a value, and starting with the author when there is one. */
  function FormatBibEntry(b: Bib): (r: string)
    ensures r == [] <==>
      Field(b, "author") == [] && Field(b, "year") == [] && Field(b, "title") == [] && Field(b, "publisher") == []
    ensures Field(b, "author") != [] ==> StartsWith(r, Field(b, "author"))
  {
    JoinEmpty(", ", EntryParts(b));
    Join(", ", EntryParts(b))
  }

  /** A joined list of non-empty parts is empty exactly when there are no
      parts. */
  lemma {:induction false} JoinEmpty(sep: string, parts: seq<string>)
    requires forall i :: 0 <= i < |parts| ==> parts[i] != []
    ensures Join(sep, parts) == [] <==> parts == []
    ensures parts != [] ==> StartsWith(Join(sep, parts), parts[0])
  {
    if |parts| > 1 {
      var j := Join(sep, parts);
      assert j == parts[0] + sep + Join(sep, parts[1..]);
      assert j[..|parts[0]|] == parts[0];
    }
  }
}
