/** match-cit-to-bib.py: every in-text citation of a TEI file should have
    a bibliography entry and every bibliography entry should be cited.  The
    TEI document is given as the sentences with their `<ref>` elements and
    the `<biblStruct>` elements with their raw-reference notes; the XML
    traversal itself is not modelled. */
module MatchBib {
  import opened Common
  import opened Strs
  import Retrieve

  // ------------------------------------------------------------------
  // the document
  // ------------------------------------------------------------------

  /** A `<ref>`: whether its type is `bibr`, and its `target` attribute
      (`""` when missing). */
  datatype Ref = Ref(bibr: bool, target: string)

  /** An `<s>` element: its full markup (`str(s_tag)`) and its refs. */
  datatype Sentence = Sentence(markup: string, refs: seq<Ref>)

  /** A `<biblStruct>`: its `xml:id` and the stripped text of its
      `raw_reference` note, each when present. */
  datatype Bibl = Bibl(id: Option<string>, note: Option<string>)

  datatype Tei = Tei(sentences: seq<Sentence>, bibls: seq<Bibl>)

  // ------------------------------------------------------------------
  // in-text citations
  // ------------------------------------------------------------------

  /** The citation id of a ref target: stripped, one leading `#` dropped. */
  function CitationId(target: string): (r: string)
    ensures NoOuterSpace(target) && (target == [] || target[0] != '#') ==> r == target
    ensures |r| <= |target|
  {
    var t := Strip(target);
    if t != [] && t[0] == '#' then t[1..] else t
  }

  /** `#b3` names the same entry as `b3`. */
  lemma CitationIdHash(id: string)
    requires NoOuterSpace(id) && id != [] && id[0] != '#'
    ensures CitationId("#" + id) == id
  {
    var t := "#" + id;
    assert t[|t| - 1] == id[|id| - 1];
    StripNoOuterSpace(t);
    assert t[1..] == id;
  }

  /** The id a ref is filed under, if it is filed at all. */
  predicate Cites(r: Ref, id: string) {
    r.bibr && id != [] && CitationId(r.target) == id
  }

  /** `in_text_citations.setdefault(id, []).append(sentence)` for one
      ref. */
  function AddRef(m: map<string, seq<string>>, markup: string, r: Ref): map<string, seq<string>> {
    var id := CitationId(r.target);
    if !r.bibr || id == [] then m
    else m[id := (if id in m then m[id] else []) + [markup]]
  }

  /** The refs of one sentence, in order. */
  function AddRefs(m: map<string, seq<string>>, markup: string, refs: seq<Ref>): map<string, seq<string>>
    decreases |refs|
  {
    if refs == [] then m
    else AddRef(AddRefs(m, markup, refs[..|refs| - 1]), markup, refs[|refs| - 1])
  }

  /** Every key is a non-empty id with at least one sentence filed under it. */
  predicate Filed(m: map<string, seq<string>>) {
    forall id :: id in m ==> id != [] && m[id] != []
  }

  /** `in_text_citations` after the sentences: every key is a non-empty id
      with at least one sentence. */
  function Citations(ss: seq<Sentence>): (r: map<string, seq<string>>)
    ensures Filed(r)
    decreases |ss|
  {
    if ss == [] then map[]
    else
      AddRefsFiled(Citations(ss[..|ss| - 1]), ss[|ss| - 1].markup, ss[|ss| - 1].refs);
      AddRefs(Citations(ss[..|ss| - 1]), ss[|ss| - 1].markup, ss[|ss| - 1].refs)
  }

  /** Filing the refs of one sentence keeps every key a non-empty id with
      some sentence. */
  lemma {:induction false} AddRefsFiled(m: map<string, seq<string>>, markup: string, refs: seq<Ref>)
    requires Filed(m)
    ensures Filed(AddRefs(m, markup, refs))
    decreases |refs|
  {
    if refs != [] {
      AddRefsFiled(m, markup, refs[..|refs| - 1]);
    }
  }

  /** The sentence once for every ref of it that cites `id`. */
  function Hits(markup: string, refs: seq<Ref>, id: string): (r: seq<string>)
    decreases |refs|
  {
    if refs == [] then []
    else Hits(markup, refs[..|refs| - 1], id) + (if Cites(refs[|refs| - 1], id) then [markup] else [])
  }

  /** The sentences citing `id`, each once per citing ref, in document
      order: the reference definition of what is filed under `id`. */
  function Occurrences(ss: seq<Sentence>, id: string): seq<string>
    decreases |ss|
  {
    if ss == [] then []
    else Occurrences(ss[..|ss| - 1], id) + Hits(ss[|ss| - 1].markup, ss[|ss| - 1].refs, id)
  }

  /** What one sentence files under an id. */
  lemma {:induction false} AddRefsHits(m: map<string, seq<string>>, markup: string, refs: seq<Ref>, id: string)
    ensures id in AddRefs(m, markup, refs) <==> id in m || Hits(markup, refs, id) != []
    ensures AddRefs(m, markup, refs).Keys >= m.Keys
    ensures id in AddRefs(m, markup, refs) ==>
      AddRefs(m, markup, refs)[id] == (if id in m then m[id] else []) + Hits(markup, refs, id)
    decreases |refs|
  {
    if refs != [] {
      var init := refs[..|refs| - 1];
      var last := refs[|refs| - 1];
      AddRefsHits(m, markup, init, id);
      AddRefHit(AddRefs(m, markup, init), markup, last, id);
      if id in AddRefs(m, markup, refs) {
        assert Hits(markup, refs, id) == Hits(markup, init, id) + (if Cites(last, id) then [markup] else []);
      }
    }
  }

  /** What one ref files under an id. */
  lemma AddRefHit(m: map<string, seq<string>>, markup: string, r: Ref, id: string)
    ensures id in AddRef(m, markup, r) <==> id in m || Cites(r, id)
    ensures AddRef(m, markup, r).Keys >= m.Keys
    ensures id in AddRef(m, markup, r) ==>
      AddRef(m, markup, r)[id] == (if id in m then m[id] else []) + (if Cites(r, id) then [markup] else [])
  {
  }

  /** The accumulated map files exactly the occurrences: an id is a key
      exactly when some bibr ref cites it, and its list holds the citing
      sentence once per citing ref, in document order. */
  lemma {:induction false} CitationsAreOccurrences(ss: seq<Sentence>, id: string)
    ensures id in Citations(ss) <==> Occurrences(ss, id) != []
    ensures id in Citations(ss) ==> Citations(ss)[id] == Occurrences(ss, id)
    decreases |ss|
  {
    if ss != [] {
      var init := ss[..|ss| - 1];
      var last := ss[|ss| - 1];
      CitationsAreOccurrences(init, id);
      AddRefsHits(Citations(init), last.markup, last.refs, id);
    }
  }

  /** Occurrences are found in the refs: every one of them comes from a
      bibr ref of that sentence whose id is `id`. */
  lemma HitsFromRefs(markup: string, refs: seq<Ref>, id: string)
    ensures Hits(markup, refs, id) != [] <==> exists j :: 0 <= j < |refs| && Cites(refs[j], id)
    ensures |Hits(markup, refs, id)| <= |refs|
  {
    HitsLength(markup, refs, id);
    if Hits(markup, refs, id) != [] {
      var j := HitsWitness(markup, refs, id);
    }
    if exists j :: 0 <= j < |refs| && Cites(refs[j], id) {
      var j :| 0 <= j < |refs| && Cites(refs[j], id);
      HitsOfCiting(markup, refs, id, j);
    }
  }

  lemma {:induction false} HitsLength(markup: string, refs: seq<Ref>, id: string)
    ensures |Hits(markup, refs, id)| <= |refs|
    decreases |refs|
  {
    if refs != [] {
      HitsLength(markup, refs[..|refs| - 1], id);
    }
  }

  /** A hit comes from a citing ref. */
  lemma {:induction false} HitsWitness(markup: string, refs: seq<Ref>, id: string) returns (j: nat)
    requires Hits(markup, refs, id) != []
    ensures j < |refs| && Cites(refs[j], id)
    decreases |refs|
  {
    var n := |refs| - 1;
    if Cites(refs[n], id) {
      j := n;
    } else {
      var init := refs[..n];
      assert Hits(markup, refs, id) == Hits(markup, init, id);
      j := HitsWitness(markup, init, id);
      assert init[j] == refs[j];
    }
  }

  /** A citing ref gives a hit. */
  lemma {:induction false} HitsOfCiting(markup: string, refs: seq<Ref>, id: string, j: nat)
    requires j < |refs| && Cites(refs[j], id)
    ensures Hits(markup, refs, id) != []
    decreases |refs|
  {
    var n := |refs| - 1;
    var init := refs[..n];
    var tail: seq<string> := if Cites(refs[n], id) then [markup] else [];
    assert Hits(markup, refs, id) == Hits(markup, init, id) + tail;
    if j < n {
      assert init[j] == refs[j];
      HitsOfCiting(markup, init, id, j);
    } else {
      assert |tail| == 1;
    }
  }

  /** The loop over the `<s>` elements and their bibr refs. */
  method CollectCitations(ss: seq<Sentence>) returns (m: map<string, seq<string>>)
    ensures m == Citations(ss)
  {
    m := map[];
    for i := 0 to |ss|
      invariant m == Citations(ss[..i])
    {
      TakeTake(ss, i);
      assert Citations(ss[..i + 1]) == AddRefs(Citations(ss[..i]), ss[i].markup, ss[i].refs);
      m := FileRefs(m, ss[i].markup, ss[i].refs);
    }
    TakeAll(ss);
  }

  /** The inner loop over the bibr refs of one sentence. */
  method FileRefs(m0: map<string, seq<string>>, markup: string, refs: seq<Ref>)
    returns (m: map<string, seq<string>>)
    ensures m == AddRefs(m0, markup, refs)
  {
    m := m0;
    for j := 0 to |refs|
      invariant m == AddRefs(m0, markup, refs[..j])
    {
      TakeTake(refs, j);
      assert AddRefs(m0, markup, refs[..j + 1]) == AddRef(m, markup, refs[j]);
      var target := CitationId(refs[j].target);
      if refs[j].bibr && target != [] {
        m := m[target := (if target in m then m[target] else []) + [markup]];
      }
    }
    TakeAll(refs);
  }

  // ------------------------------------------------------------------
  // bibliography
  // ------------------------------------------------------------------

  /** Whether a biblStruct is recorded: it has an id and a non-empty raw
      reference. */
  predicate Recorded(b: Bibl) {
    b.id.Some? && b.id.value != [] && b.note.Some? && b.note.value != []
  }

  /** Every key is a non-empty id with a non-empty note. */
  predicate Noted(m: map<string, string>) {
    forall id :: id in m ==> id != [] && m[id] != []
  }

  /** `bib_entries` after the biblStructs: a repeated id keeps the last
      recorded note. */
  function Bibliography(bs: seq<Bibl>): (r: map<string, string>)
    ensures Noted(r)
    decreases |bs|
  {
    if bs == [] then map[]
    else
      var m := Bibliography(bs[..|bs| - 1]);
      var b := bs[|bs| - 1];
      if Recorded(b) then m[b.id.value := b.note.value] else m
  }

  /** An id is in the bibliography exactly when some recorded biblStruct
      has it, and its note is that of the last such biblStruct. */
  lemma {:induction false} BibliographyEntries(bs: seq<Bibl>, id: string)
    ensures id in Bibliography(bs) <==> exists i :: 0 <= i < |bs| && Recorded(bs[i]) && bs[i].id.value == id
    ensures id in Bibliography(bs) ==>
      (exists i :: 0 <= i < |bs| && Recorded(bs[i]) && bs[i].id.value == id
        && Bibliography(bs)[id] == bs[i].note.value
        && forall j :: i < j < |bs| ==> !(Recorded(bs[j]) && bs[j].id.value == id))
    decreases |bs|
  {
    if bs != [] {
      var init := bs[..|bs| - 1];
      BibliographyEntries(init, id);
      assert forall j :: 0 <= j < |init| ==> init[j] == bs[j];
      var b := bs[|bs| - 1];
      if Recorded(b) && b.id.value == id {
        assert Bibliography(bs)[id] == bs[|bs| - 1].note.value;
      } else if id in Bibliography(init) {
        var i :| 0 <= i < |init| && Recorded(init[i]) && init[i].id.value == id
          && Bibliography(init)[id] == init[i].note.value
          && forall j :: i < j < |init| ==> !(Recorded(init[j]) && init[j].id.value == id);
        assert Bibliography(bs)[id] == bs[i].note.value;
      }
    }
  }

  /** The loop over the `<biblStruct>` elements. */
  method CollectBibliography(bs: seq<Bibl>) returns (m: map<string, string>)
    ensures m == Bibliography(bs)
  {
    m := map[];
    for i := 0 to |bs|
      invariant m == Bibliography(bs[..i])
    {
      TakeTake(bs, i);
      var b := bs[i];
      if b.id.None? || b.id.value == [] {
        continue;
      }
      if b.note.Some? && b.note.value != [] {
        m := m[b.id.value := b.note.value];
      }
    }
    TakeAll(bs);
  }

  /** `parse_tei_file`: `None` when the file cannot be read. */
  method ParseTeiFile(content: Option<Tei>) returns (r: Option<(map<string, seq<string>>, map<string, string>)>)
    ensures content.None? <==> r.None?
    ensures r.Some? ==> r.value == (Citations(content.value.sentences), Bibliography(content.value.bibls))
  {
    if content.None? {
      return None;
    }
    var cites := CollectCitations(content.value.sentences);
    var bib := CollectBibliography(content.value.bibls);
    return Some((cites, bib));
  }

  // ------------------------------------------------------------------
  // matching
  // ------------------------------------------------------------------

  /** Cited ids without a bibliography entry, with their sentences. */
  function UnmatchedCiting(cites: map<string, seq<string>>, bib: map<string, string>): (r: map<string, seq<string>>)
    ensures forall id :: id in r <==> id in cites && id !in bib
    ensures forall id :: id in r ==> r[id] == cites[id]
  {
    map id | id in cites && id !in bib :: cites[id]
  }

  /** Bibliography entries that are never cited, with their notes. */
  function UnmatchedBibl(cites: map<string, seq<string>>, bib: map<string, string>): (r: map<string, string>)
    ensures forall id :: id in r <==> id in bib && id !in cites
    ensures forall id :: id in r ==> r[id] == bib[id]
  {
    map id | id in bib && id !in cites :: bib[id]
  }

  /** The result object of one TEI file. */
  datatype Report = Report(filename: string, clear: bool,
                           unmatchedCiting: map<string, seq<string>>,
                           unmatchedBibl: map<string, string>)

  /** `clear` is true exactly when the cited ids and the bibliography ids
      are the same set. */
  lemma ClearIff(cites: map<string, seq<string>>, bib: map<string, string>)
    ensures (|UnmatchedCiting(cites, bib)| == 0 && |UnmatchedBibl(cites, bib)| == 0) <==> cites.Keys == bib.Keys
  {
    var uc := UnmatchedCiting(cites, bib);
    var ub := UnmatchedBibl(cites, bib);
    if cites.Keys != bib.Keys {
      if exists id :: id in cites && id !in bib {
        var id :| id in cites && id !in bib;
        assert id in uc;
      } else {
        var id :| id in bib && id !in cites;
        assert id in ub;
      }
    } else {
      assert uc.Keys == {};
      assert ub.Keys == {};
    }
  }

  /** `process_tei_file`: `None` when parsing failed, otherwise the report
      (the JSON file written beside it is output only). */
  method ProcessTeiFile(path: string, content: Option<Tei>) returns (r: Option<Report>)
    ensures content.None? <==> r.None?
    ensures r.Some? ==>
      var cites := Citations(content.value.sentences);
      var bib := Bibliography(content.value.bibls);
      r.value.filename == Retrieve.Basename(path)
      && r.value.unmatchedCiting == UnmatchedCiting(cites, bib)
      && r.value.unmatchedBibl == UnmatchedBibl(cites, bib)
      && (r.value.clear <==> cites.Keys == bib.Keys)
  {
    var parsed := ParseTeiFile(content);
    if parsed.None? {
      return None;
    }
    var (cites, bib) := parsed.value;
    var uc := UnmatchedCiting(cites, bib);
    var ub := UnmatchedBibl(cites, bib);
    ClearIff(cites, bib);
    return Some(Report(Retrieve.Basename(path), |uc| == 0 && |ub| == 0, uc, ub));
  }

  // ------------------------------------------------------------------
  // file names
  // ------------------------------------------------------------------

  /** The position of the last `.`, if any. */
  function LastDot(s: string): (r: Option<nat>)
    ensures r.None? <==> '.' !in s
    ensures r.Some? ==> r.value < |s| && s[r.value] == '.' && '.' !in s[r.value + 1..]
    decreases |s|
  {
    if s == [] then None
    else if s[|s| - 1] == '.' then Some(|s| - 1)
    else
      var r := LastDot(s[..|s| - 1]);
      assert forall j :: 0 <= j < |s| - 1 ==> s[..|s| - 1][j] == s[j];
      assert r.Some? ==> s[r.value + 1..] == s[..|s| - 1][r.value + 1..] + [s[|s| - 1]];
      r
  }

  predicate AllDots(s: string) { forall j :: 0 <= j < |s| ==> s[j] == '.' }

  /** `os.path.splitext(name)[0]` for a name without `/`: the text before
      the last `.`, unless only dots come before it (a hidden file name
      has no extension). */
  function SplitextRoot(name: string): (r: string)
    ensures StartsWith(name, r)
    ensures '.' !in name ==> r == name
  {
    match LastDot(name)
    case None => name
    case Some(d) => if AllDots(name[..d]) then name else name[..d]
  }

  /** A name with a proper extension loses exactly that extension. */
  lemma SplitextExtension(stem: string, ext: string)
    requires stem != [] && stem[0] != '.' && '.' !in ext
    ensures SplitextRoot(stem + "." + ext) == stem
  {
    var s := stem + "." + ext;
    assert s[|stem|] == '.';
    assert s[|stem| + 1..] == ext;
    var d := LastDot(s).value;
    assert d == |stem|;
    assert s[..d] == stem;
  }

  /** The JSON file of a TEI file: its `splitext` root with
      `-cit-bib.json`. */
  function JsonName(teiFilename: string): (r: string)
    ensures StartsWith(r, SplitextRoot(teiFilename))
  {
    SplitextRoot(teiFilename) + "-cit-bib.json"
  }

  /** The CSV name of a report: a `.tei.xml` suffix is dropped, otherwise
      the `splitext` extension is. */
  function CsvBase(filename: string): (r: string)
    ensures StartsWith(filename, r)
  {
    if EndsWith(filename, ".tei.xml") then filename[..|filename| - 8] else SplitextRoot(filename)
  }

  /** Appending `.tei.xml` and taking the CSV name gives the stem back,
      while `splitext` keeps the `.tei` in the JSON name. */
  lemma CsvBaseTei(stem: string)
    requires stem != [] && stem[0] != '.'
    ensures CsvBase(stem + ".tei.xml") == stem
    ensures SplitextRoot(stem + ".tei.xml") == stem + ".tei"
  {
    var s := stem + ".tei.xml";
    assert s[|s| - 8..] == ".tei.xml";
    assert s[..|s| - 8] == stem;
    assert s == (stem + ".tei") + "." + "xml";
    SplitextExtension(stem + ".tei", "xml");
  }

  /** `main` in the TEI folder: the files in the order the glob lists
      them, each path with its content (`None` when unreadable).  There is
      no CSV when there are no files; otherwise one row per parsed file,
      its CSV name and its clear flag. */
  method Summary(files: seq<(string, Option<Tei>)>) returns (rows: Option<seq<(string, bool)>>)
    ensures files == [] <==> rows.None?
    ensures rows.Some? ==> rows.value == Rows(files)
  {
    if files == [] {
      return None;
    }
    var results: seq<Report> := [];
    for i := 0 to |files|
      invariant Rows(files[..i]) == RowsOf(results)
    {
      TakeTake(files, i);
      var r := ProcessTeiFile(files[i].0, files[i].1);
      if r.Some? {
        assert (results + [r.value])[..|results|] == results;
        results := results + [r.value];
      }
    }
    TakeAll(files);
    var out: seq<(string, bool)> := [];
    for i := 0 to |results|
      invariant out == RowsOf(results[..i])
    {
      TakeTake(results, i);
      out := out + [(CsvBase(results[i].filename), results[i].clear)];
    }
    TakeAll(results);
    return Some(out);
  }

  /** The CSV rows of the reports. */
  function RowsOf(reports: seq<Report>): (r: seq<(string, bool)>)
    ensures |r| == |reports|
    decreases |reports|
  {
    if reports == [] then []
    else
      var last := reports[|reports| - 1];
      RowsOf(reports[..|reports| - 1]) + [(CsvBase(last.filename), last.clear)]
  }

  /** The CSV rows of the files: one per readable file, in order. */
  function Rows(files: seq<(string, Option<Tei>)>): (r: seq<(string, bool)>)
    ensures |r| <= |files|
    decreases |files|
  {
    if files == [] then []
    else
      var (path, content) := files[|files| - 1];
      var init := Rows(files[..|files| - 1]);
      if content.None? then init
      else
        var cites := Citations(content.value.sentences);
        var bib := Bibliography(content.value.bibls);
        init + [(CsvBase(Retrieve.Basename(path)), cites.Keys == bib.Keys)]
  }
}
