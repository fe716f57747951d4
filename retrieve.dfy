/** retrieve.py: the PDF and TEI retrieval pass over the consolidation
    JSON files.  Downloads, file writes and the Grobid call are oracles;
    what is modelled is the file naming, the Grobid URL normalisation and
    the `dl_filename` bookkeeping on every record. */
module Retrieve {
  import opened Common
  import opened Strs
  import opened Values

  // ------------------------------------------------------------------
  // file names
  // ------------------------------------------------------------------

  /** The characters the comprehension keeps. */
  predicate KeptChar(c: char) { IsAlnum(c) || c == ' ' || c == '.' || c == '_' }

  /** The characters a sanitized name is made of. */
  predicate SafeChar(c: char) { IsAlnum(c) || c == '.' || c == '_' }

  /** `sanitize_filename`: every character outside alphanumerics, space,
      `.` and `_` becomes `_`, and then every space becomes `_`; the
      result has the same length, character for character. */
  function SanitizeFilename(s: string): (r: string)
    ensures |r| == |s|
    ensures forall i :: 0 <= i < |s| ==> r[i] == (if SafeChar(s[i]) then s[i] else '_')
  {
    var kept := seq(|s|, i requires 0 <= i < |s| => if KeptChar(s[i]) then s[i] else '_');
    ReplaceChar(kept, ' ', '_');
    ReplaceAll(kept, " ", "_")
  }

  /** `s.replace(a, b)` for one-character strings maps each character. */
  lemma {:induction false} ReplaceChar(s: string, a: char, b: char)
    ensures |ReplaceAll(s, [a], [b])| == |s|
    ensures forall i :: 0 <= i < |s| ==> ReplaceAll(s, [a], [b])[i] == (if s[i] == a then b else s[i])
    decreases |s|
  {
    if s != [] {
      ReplaceChar(s[1..], a, b);
      var t := ReplaceAll(s[1..], [a], [b]);
      if StartsWith(s, [a]) {
        assert s[..1] == [s[0]];
        assert ReplaceAll(s, [a], [b]) == [b] + t;
      } else {
        assert s[..1] == [s[0]];
        assert ReplaceAll(s, [a], [b]) == [s[0]] + t;
      }
    }
  }

  /** A sanitized name holds only alphanumerics, `.` and `_`. */
  lemma SanitizeSafe(s: string)
    ensures forall i :: 0 <= i < |s| ==> SafeChar(SanitizeFilename(s)[i])
  {
  }

  /** Sanitizing a sanitized name changes nothing. */
  lemma SanitizeIdempotent(s: string)
    ensures SanitizeFilename(SanitizeFilename(s)) == SanitizeFilename(s)
  {
    var r := SanitizeFilename(s);
    assert forall i :: 0 <= i < |r| ==> SafeChar(r[i]);
  }

  // ------------------------------------------------------------------
  // the Grobid URL
  // ------------------------------------------------------------------

  /** The endpoint path the script posts PDFs to. */
  function Endpoint(): string { "processFulltextDocument" }

  /** The URL normalisation: a URL without the endpoint word loses its
      trailing slashes and gains `/api/processFulltextDocument`. */
  function GrobidUrl(url: string): (r: string)
    ensures Contains(r, Endpoint())
    ensures Contains(url, Endpoint()) ==> r == url
    ensures !Contains(url, Endpoint()) ==> r == RStripChar(url, '/') + "/api/" + Endpoint()
  {
    if Contains(url, Endpoint()) then url
    else
      var head := RStripChar(url, '/');
      var r := head + "/api/" + Endpoint();
      assert r[|head| + 5..] == Endpoint();
      ContainsAt(r, Endpoint(), |head| + 5);
      r
  }

  /** `main` normalises the URL and `test_grobid_api` normalises it again;
      the second pass changes nothing. */
  lemma GrobidUrlIdempotent(url: string)
    ensures GrobidUrl(GrobidUrl(url)) == GrobidUrl(url)
  {
  }

  /** The health check URL: the endpoint word replaced by `health`.  For a
      URL without the endpoint word that is the stripped URL followed by
      `/api/health`. */
  function HealthUrl(url: string): (r: string)
    ensures Contains(r, "health")
    ensures Contains(url, Endpoint()) ==> r == ReplaceAll(url, Endpoint(), "health")
    ensures !Contains(url, Endpoint()) ==> r == RStripChar(url, '/') + "/api/health"
  {
    var g := GrobidUrl(url);
    ReplaceIntroduces(g, Endpoint(), "health");
    HealthOfBare(url);
    ReplaceAll(g, Endpoint(), "health")
  }

  /** Replacing the appended endpoint word by `health`. */
  lemma HealthOfBare(url: string)
    ensures !Contains(url, Endpoint()) ==>
      ReplaceAll(GrobidUrl(url), Endpoint(), "health") == RStripChar(url, '/') + "/api/health"
  {
    if !Contains(url, Endpoint()) {
      var head := RStripChar(url, '/');
      var a := head + "/api/";
      assert GrobidUrl(url) == a + Endpoint();
      EndpointFirst(url, head);
      ReplaceLast(a, Endpoint(), "health");
      assert a + "health" == head + "/api/health";
    }
  }

  /** In the normalised URL of a URL without the endpoint word, the only
      occurrence of the endpoint word is the appended one. */
  lemma EndpointFirst(url: string, head: string)
    requires !Contains(url, Endpoint()) && |head| <= |url| && head == url[..|head|]
    ensures forall j :: 0 <= j < |head + "/api/"| ==> !StartsWith((head + "/api/" + Endpoint())[j..], Endpoint())
  {
    forall j | 0 <= j < |head| + 5 ensures !StartsWith((head + "/api/" + Endpoint())[j..], Endpoint()) {
      if j + |Endpoint()| <= |head| {
        EndpointNotInHead(url, head, j);
      } else {
        EndpointNotInJoint(head, j);
      }
    }
  }

  /** An occurrence inside the head would be one in the URL. */
  lemma EndpointNotInHead(url: string, head: string, j: nat)
    requires !Contains(url, Endpoint()) && |head| <= |url| && head == url[..|head|]
    requires j + |Endpoint()| <= |head|
    ensures !StartsWith((head + "/api/" + Endpoint())[j..], Endpoint())
  {
    var s := head + "/api/" + Endpoint();
    NotContainsAt(url, Endpoint(), j);
    assert s[j..][..|Endpoint()|] == url[j..][..|Endpoint()|];
  }

  /** An occurrence starting across the appended `/api/` would need a
      character the endpoint word does not have there. */
  lemma EndpointNotInJoint(head: string, j: nat)
    requires |head| < j + |Endpoint()| && j < |head| + 5
    ensures !StartsWith((head + "/api/" + Endpoint())[j..], Endpoint())
  {
    var e := Endpoint();
    var s := head + "/api/" + e;
    if j < |head| {
      assert s[j..][|head| - j] == '/' != e[|head| - j];
    } else if j == |head| + 2 {
      assert s[j..][1] == 'i' != e[1];
    } else {
      assert s[j..][0] == s[j] != e[0];
    }
  }

  /** A replacement of a pattern that occurs leaves the replacement text. */
  lemma {:induction false} ReplaceIntroduces(s: string, pat: string, rep: string)
    requires |pat| > 0 && Contains(s, pat)
    ensures Contains(ReplaceAll(s, pat, rep), rep)
    decreases |s|
  {
    if StartsWith(s, pat) {
      var t := ReplaceAll(s, pat, rep);
      assert t[..|rep|] == rep;
      ContainsAt(t, rep, 0);
    } else {
      ReplaceIntroduces(s[1..], pat, rep);
      var t := ReplaceAll(s, pat, rep);
      assert t[1..] == ReplaceAll(s[1..], pat, rep);
      ContainsTail(t, rep);
    }
  }

  /** An occurrence in the tail is an occurrence. */
  lemma ContainsTail(s: string, sub: string)
    requires s != [] && Contains(s[1..], sub)
    ensures Contains(s, sub)
  {
  }

  /** `test_grobid_api`: the normalised URL when the health check answers
      200, otherwise `exit(1)`. */
  function TestGrobidApi(url: string, healthy: string -> bool): (r: Result<string>)
    ensures r.Ok? <==> healthy(HealthUrl(url))
    ensures r.Ok? ==> r.value == GrobidUrl(url)
    ensures r.Err? ==> r.error == Exit(1)
  {
    if healthy(HealthUrl(url)) then Ok(GrobidUrl(url)) else Err(Exit(1))
  }

  /** The URL the records are processed with: `main` normalises and then
      tests. */
  lemma MainGrobidUrl(url: string, healthy: string -> bool)
    requires healthy(HealthUrl(url))
    ensures TestGrobidApi(GrobidUrl(url), healthy) == Ok(GrobidUrl(url))
  {
    GrobidUrlIdempotent(url);
  }

  // ------------------------------------------------------------------
  // the citing article
  // ------------------------------------------------------------------

  /** `os.path.basename`: the text after the last `/`, which is the whole
      path when it has no `/`. */
  function Basename(path: string): (r: string)
    ensures '/' !in r
    ensures EndsWith(path, r)
    ensures |r| == |path| || path[|path| - |r| - 1] == '/'
    decreases |path|
  {
    if path == [] then []
    else if path[|path| - 1] == '/' then []
    else
      var r := Basename(path[..|path| - 1]) + [path[|path| - 1]];
      assert path[..|path| - 1][|path| - 1 - (|r| - 1)..] == path[|path| - |r|..|path| - 1];
      r
  }

  /** The citing article's folder name: the JSON file's base name with
      every `.tei-crossref.json` removed. */
  function CitingArticle(jsonPath: string): (r: string)
    ensures |r| <= |Basename(jsonPath)|
    ensures !Contains(Basename(jsonPath), ".tei-crossref.json") ==> r == Basename(jsonPath)
  {
    ReplaceShrinks(Basename(jsonPath), ".tei-crossref.json", "");
    ReplaceAbsent(Basename(jsonPath), ".tei-crossref.json", "");
    ReplaceAll(Basename(jsonPath), ".tei-crossref.json", "")
  }

  /** The usual file name: `stem.tei-crossref.json` names the folder
      `stem`. */
  lemma CitingArticleOfStem(jsonPath: string, stem: string)
    requires Basename(jsonPath) == stem + ".tei-crossref.json"
    requires !Contains(stem, ".tei-crossref.json")
    ensures CitingArticle(jsonPath) == stem
  {
    SuffixFirst(stem);
    ReplaceLast(stem, ".tei-crossref.json", "");
    assert stem + "" == stem;
  }

  /** In `stem + ".tei-crossref.json"` with a stem lacking the suffix, the
      only occurrence of the suffix is the last one: no proper suffix of
      the pattern is also a prefix of it. */
  lemma SuffixFirst(stem: string)
    requires !Contains(stem, ".tei-crossref.json")
    ensures forall j :: 0 <= j < |stem| ==> !StartsWith((stem + ".tei-crossref.json")[j..], ".tei-crossref.json")
  {
    forall j | 0 <= j < |stem| ensures !StartsWith((stem + ".tei-crossref.json")[j..], ".tei-crossref.json") {
      if j + |".tei-crossref.json"| <= |stem| {
        SuffixNotInStem(stem, j);
      } else {
        SuffixNotAcross(stem, j);
      }
    }
  }

  /** An occurrence inside the stem would be one in the stem itself. */
  lemma SuffixNotInStem(stem: string, j: nat)
    requires !Contains(stem, ".tei-crossref.json") && j + |".tei-crossref.json"| <= |stem|
    ensures !StartsWith((stem + ".tei-crossref.json")[j..], ".tei-crossref.json")
  {
    var e := ".tei-crossref.json";
    NotContainsAt(stem, e, j);
    assert (stem + e)[j..][..|e|] == stem[j..][..|e|];
  }

  /** An occurrence overlapping the appended suffix would put one of the
      pattern's characters on the suffix's leading `.`. */
  lemma SuffixNotAcross(stem: string, j: nat)
    requires j < |stem| < j + |".tei-crossref.json"|
    ensures !StartsWith((stem + ".tei-crossref.json")[j..], ".tei-crossref.json")
  {
    var e := ".tei-crossref.json";
    var s := stem + e;
    var m := |stem| - j;
    SuffixDots();
    if m == 13 {
      assert s[j..][14] == e[1] != e[14];
    } else {
      assert s[j..][m] == '.' != e[m];
    }
  }

  /** The pattern's only inner `.` is the one before `json`. */
  lemma SuffixDots()
    ensures forall m :: 0 < m < |".tei-crossref.json"| && m != 13 ==> ".tei-crossref.json"[m] != '.'
  {
  }

  // ------------------------------------------------------------------
  // one record
  // ------------------------------------------------------------------

  /** The outside world as the record loop sees it: whether a download from
      a URL yields content, whether writing the PDF named by a base name
      succeeds, and whether Grobid returns TEI for it. */
  datatype World = World(download: string -> bool, save: string -> bool, grobid: string -> bool)

  /** The base file name: the sanitized DOI when there is one, else the
      sanitized bib item. */
  function BaseFilename(doi: string, bibItem: string): (r: string)
    ensures doi != [] ==> r == SanitizeFilename(doi)
    ensures doi == [] ==> r == SanitizeFilename(bibItem)
  {
    if doi != [] then SanitizeFilename(doi) else SanitizeFilename(bibItem)
  }

  /** What one record's pass decides: its `dl_filename` and the set of base
      names whose PDF is now on disk. */
  datatype Step = Step(dl: string, onDisk: set<string>)

  /** The loop body for one record.  The PDF is fetched only when it is not
      on disk; a failed download or write leaves `""` and nothing new on
      disk; otherwise Grobid decides between the base name and `""`. */
  function RecordStep(f: Fields, onDisk: set<string>, w: World): (r: Result<Step>)
    ensures r.Ok? ==> onDisk <= r.value.onDisk
  {
    var bibItem :- GetText(f, "bib_item");
    var retrievable :- GetText(f, "retrievable");
    if !StartsWith(retrievable, "http") then Ok(Step("", onDisk))
    else
      var doi :- GetText(f, "crossref_doi");
      var base := BaseFilename(doi, bibItem);
      if base !in onDisk && !(w.download(retrievable) && w.save(base)) then Ok(Step("", onDisk))
      else Ok(Step(if w.grobid(base) then base else "", onDisk + {base}))
  }

  /** The condition under which a record gets its base name: its PDF is on
      disk or was downloaded and written, and Grobid returns TEI. */
  predicate Fetched(retrievable: string, base: string, onDisk: set<string>, w: World) {
    StartsWith(retrievable, "http")
    && (base in onDisk || (w.download(retrievable) && w.save(base)))
    && w.grobid(base)
  }

  /** A record whose `retrievable` is not an `http` URL gets `""`. */
  lemma RecordNotHttp(f: Fields, onDisk: set<string>, w: World)
    requires RecordStep(f, onDisk, w).Ok?
    requires !StartsWith(GetText(f, "retrievable").value, "http")
    ensures RecordStep(f, onDisk, w).value.dl == ""
  {
  }

  /** A record gets its base name exactly when it was fetched and Grobid
      returned TEI, and `""` otherwise. */
  lemma RecordDlFilename(f: Fields, onDisk: set<string>, w: World)
    requires RecordStep(f, onDisk, w).Ok?
    requires StartsWith(GetText(f, "retrievable").value, "http")
    ensures GetText(f, "crossref_doi").Ok? && GetText(f, "bib_item").Ok?
    ensures var retrievable := GetText(f, "retrievable").value;
      var base := BaseFilename(GetText(f, "crossref_doi").value, GetText(f, "bib_item").value);
      RecordStep(f, onDisk, w).value.dl == if Fetched(retrievable, base, onDisk, w) then base else ""
  {
    var retrievable := GetText(f, "retrievable").value;
    assert GetText(f, "bib_item").Ok? && GetText(f, "crossref_doi").Ok?;
    var base := BaseFilename(GetText(f, "crossref_doi").value, GetText(f, "bib_item").value);
    assert RecordStep(f, onDisk, w) == Ok(
      if base !in onDisk && !(w.download(retrievable) && w.save(base)) then Step("", onDisk)
      else Step(if w.grobid(base) then base else "", onDisk + {base}));
  }

  /** The record as written back: the old fields with `dl_filename` set. */
  function Annotate(f: Fields, dl: string): (r: Value)
    ensures r.Obj? && Get(r.fields, "dl_filename") == Some(Str(dl))
    ensures forall k :: k != "dl_filename" ==> Get(r.fields, k) == Get(f, k)
  {
    Obj(SetField(f, "dl_filename", Str(dl)))
  }

  // ------------------------------------------------------------------
  // the record loop
  // ------------------------------------------------------------------

  /** The loop's specification: each record is annotated in order, with the
      files written by earlier records on disk for later ones.  A record
      that is not a dict has no `get` and raises `AttributeError`. */
  function Annotated(records: seq<Value>, onDisk: set<string>, w: World): (r: Result<seq<Value>>)
    ensures r.Ok? ==> |r.value| == |records| && forall i :: 0 <= i < |records| ==> records[i].Obj?
    decreases |records|
  {
    if records == [] then Ok([])
    else if !records[0].Obj? then Err(AttributeError)
    else
      var s :- RecordStep(records[0].fields, onDisk, w);
      var rest :- Annotated(records[1..], s.onDisk, w);
      assert forall i :: 1 <= i < |records| ==> records[i] == records[1..][i - 1];
      Ok([Annotate(records[0].fields, s.dl)] + rest)
  }

  /** Unfolding the specification at one record. */
  lemma AnnotatedCons(records: seq<Value>, disk: set<string>, w: World)
    requires records != [] && records[0].Obj? && RecordStep(records[0].fields, disk, w).Ok?
    ensures var s := RecordStep(records[0].fields, disk, w).value;
      Annotated(records, disk, w)
      == Then([Annotate(records[0].fields, s.dl)], Annotated(records[1..], s.onDisk, w))
  {
  }

  /** `process_json_file`'s loop over the records. */
  method AnnotateRecords(records: seq<Value>, onDisk: set<string>, w: World)
    returns (r: Result<seq<Value>>)
    ensures r == Annotated(records, onDisk, w)
  {
    var done: seq<Value> := [];
    var disk := onDisk;
    var i := 0;
    assert records[i..] == records;
    ThenNil(Annotated(records, onDisk, w));
    while i < |records|
      invariant 0 <= i <= |records|
      invariant Then(done, Annotated(records[i..], disk, w)) == Annotated(records, onDisk, w)
    {
      var record := records[i];
      assert records[i..][0] == record;
      if !record.Obj? {
        return Err(AttributeError);
      }
      var s := RecordStep(record.fields, disk, w);
      if s.Err? {
        return Err(s.error);
      }
      AnnotatedCons(records[i..], disk, w);
      assert records[i..][1..] == records[i + 1..];
      var item := Annotate(record.fields, s.value.dl);
      ThenThen(done, [item], Annotated(records[i + 1..], s.value.onDisk, w));
      done := done + [item];
      disk := s.value.onDisk;
      i := i + 1;
    }
    assert records[i..] == [];
    assert done + [] == done;
    return Ok(done);
  }

  /** A record written back from `before`: a dict holding the old fields
      and a `dl_filename`. */
  ghost predicate AnnotatedFrom(before: Value, after: Value) {
    before.Obj? && after.Obj? && HasKey(after.fields, "dl_filename")
    && forall k :: k != "dl_filename" ==> Get(after.fields, k) == Get(before.fields, k)
  }

  /** Every record comes back, in order, as a dict holding its old fields
      and a `dl_filename`. */
  lemma {:induction false} AnnotatedShape(records: seq<Value>, onDisk: set<string>, w: World)
    requires Annotated(records, onDisk, w).Ok?
    ensures |Annotated(records, onDisk, w).value| == |records|
    ensures forall i :: 0 <= i < |records| ==> AnnotatedFrom(records[i], Annotated(records, onDisk, w).value[i])
    decreases |records|
  {
    if records != [] {
      var s := AnnotatedOkCons(records, onDisk, w);
      AnnotatedShape(records[1..], s.onDisk, w);
      AnnotateFrom(records[0], s.dl);
      ShapeCons(records, Annotate(records[0].fields, s.dl), Annotated(records[1..], s.onDisk, w).value);
    }
  }

  /** An `Ok` run over a non-empty list: the first record's step succeeded
      and its annotation heads the output. */
  lemma AnnotatedOkCons(records: seq<Value>, onDisk: set<string>, w: World) returns (s: Step)
    requires records != [] && Annotated(records, onDisk, w).Ok?
    ensures records[0].Obj? && RecordStep(records[0].fields, onDisk, w) == Ok(s)
    ensures Annotated(records[1..], s.onDisk, w).Ok?
    ensures Annotated(records, onDisk, w).value
      == [Annotate(records[0].fields, s.dl)] + Annotated(records[1..], s.onDisk, w).value
  {
    s := RecordStep(records[0].fields, onDisk, w).value;
  }

  lemma ShapeCons(records: seq<Value>, first: Value, rest: seq<Value>)
    requires records != [] && |rest| == |records| - 1
    requires AnnotatedFrom(records[0], first)
    requires forall i :: 0 <= i < |rest| ==> AnnotatedFrom(records[1..][i], rest[i])
    ensures forall i :: 0 <= i < |records| ==> AnnotatedFrom(records[i], ([first] + rest)[i])
  {
    forall i | 0 < i < |records| ensures AnnotatedFrom(records[i], ([first] + rest)[i]) {
      assert ([first] + rest)[i] == rest[i - 1] && records[i] == records[1..][i - 1];
    }
  }

  lemma AnnotateFrom(record: Value, dl: string)
    requires record.Obj?
    ensures AnnotatedFrom(record, Annotate(record.fields, dl))
  {
  }

  /** The files on disk grow: a base name on disk before the loop stays
      there, so a second record naming the same file skips the download. */
  lemma RecordKeepsDisk(f: Fields, onDisk: set<string>, w: World, base: string)
    requires RecordStep(f, onDisk, w).Ok? && base in onDisk
    ensures base in RecordStep(f, onDisk, w).value.onDisk
  {
  }

  // ------------------------------------------------------------------
  // the file
  // ------------------------------------------------------------------

  /** The value the record loop walks over: a dict's `"records"` (default
      a fresh `[]`) or the list itself; any other shape is skipped
      (`None`). */
  function RecordsValue(loaded: Value): (r: Option<Value>)
    ensures r.None? <==> !(loaded.Obj? || loaded.List?)
    ensures loaded.List? ==> r == Some(loaded)
    ensures loaded.Obj? ==> r == Some(if HasKey(loaded.fields, "records")
                                      then Get(loaded.fields, "records").value else List([]))
  {
    match loaded
    case Obj(f) => Some(GetOr(f, "records", List([])))
    case List(_) => Some(loaded)
    case _ => None
  }

  /** The records of the loaded JSON as `for record in records` sees them.
      A list gives its items; a dict gives its keys and a string its
      characters, whose `get` then raises; any other value raises
      `TypeError`. */
  function Records(loaded: Value): (r: Option<Result<seq<Value>>>)
    ensures r.None? <==> !(loaded.Obj? || loaded.List?)
    ensures loaded.List? ==> r == Some(Ok(loaded.items))
    ensures loaded.Obj? && !HasKey(loaded.fields, "records") ==> r == Some(Ok([]))
    ensures loaded.Obj? && HasKey(loaded.fields, "records") ==>
      var v := Get(loaded.fields, "records").value;
      (v.List? ==> r == Some(Ok(v.items)))
      && (r == Some(Err(TypeError)) <==> !(v.List? || v.Str? || v.Obj?))
      && (v.Str? ==> r.value.Ok? && |r.value.value| == |v.s|)
      && (v.Obj? ==> r.value.Ok? && |r.value.value| == |v.fields|)
  {
    match RecordsValue(loaded)
    case None => None
    case Some(v) => Some(Iterate(v))
  }

  /** Iterating a string or a dict gives strings, which have no `get`: a
      non-empty one makes the loop raise `AttributeError`, and an empty one
      leaves nothing to annotate. */
  lemma {:induction false} NonListRecords(loaded: Value, onDisk: set<string>, w: World)
    requires Records(loaded).Some? && Records(loaded).value.Ok?
    requires !RecordsValue(loaded).value.List?
    ensures var items := Records(loaded).value.value;
      Annotated(items, onDisk, w) == if items == [] then Ok([]) else Err(AttributeError)
  {
    var items := Records(loaded).value.value;
    if items != [] {
      assert items[0].Str?;
    }
  }

  /** The data written back, in the shape it was read in: the records list
      holds the annotated records, and a records value that is not a list
      (which the loop could only have walked through empty) is written
      back as it was. */
  function WriteBack(loaded: Value, out: seq<Value>): (r: Value)
    requires loaded.Obj? || loaded.List?
    ensures loaded.List? ==> r == List(out)
    ensures loaded.Obj? ==>
      r.Obj? && Get(r.fields, "records")
                == Some(if RecordsValue(loaded).value.List? then List(out) else RecordsValue(loaded).value)
    ensures loaded.Obj? ==> forall k :: k != "records" ==> Get(r.fields, k) == Get(loaded.fields, k)
  {
    if loaded.List? then List(out)
    else
      var v := RecordsValue(loaded).value;
      Obj(SetField(loaded.fields, "records", if v.List? then List(out) else v))
  }

  /** `process_json_file` after the load: `None` when nothing is written
      (the JSON did not load, or has an unexpected shape), otherwise the
      data written back. */
  method ProcessJsonFile(loaded: Option<Value>, onDisk: set<string>, w: World)
    returns (r: Result<Option<Value>>)
    ensures loaded.None? ==> r == Ok(None)
    ensures loaded.Some? && Records(loaded.value).None? ==> r == Ok(None)
    ensures loaded.Some? && Records(loaded.value).Some? && Records(loaded.value).value.Err? ==>
      r == Err(Records(loaded.value).value.error)
    ensures loaded.Some? && Records(loaded.value).Some? && Records(loaded.value).value.Ok? ==>
      match Annotated(Records(loaded.value).value.value, onDisk, w)
      case Ok(out) => r == Ok(Some(WriteBack(loaded.value, out)))
      case Err(e) => r == Err(e)
  {
    if loaded.None? {
      return Ok(None);
    }
    var data := loaded.value;
    var recs := Records(data);
    if recs.None? {
      return Ok(None);
    }
    var items :- recs.value;
    var out :- AnnotateRecords(items, onDisk, w);
    return Ok(Some(WriteBack(data, out)));
  }
}
