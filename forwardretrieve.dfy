/** forward-retreive.py: the PDF and TEI retrieval pass over the forward
    citation graph.  The primary download, the PyPaperBot backup, the PDF
    write and the Grobid call are oracles; what is modelled is the file
    naming, which downloads are tried, and how every record's
    `forward_dl_filename` and every key's `scholarly_extra` list are
    rewritten. */
module ForwardRetrieve {
  import opened Common
  import opened Strs
  import opened Values
  import Retrieve

  // ------------------------------------------------------------------
  // names
  // ------------------------------------------------------------------

  /** The characters of `[\w\-]`. */
  predicate NameChar(c: char) { IsWordChar(c) || c == '-' }

  /** `re.sub(r'[^\w\-]', '_', s)`: every other character becomes `_`. */
  function SanitizeFilename(s: string): (r: string)
    ensures |r| == |s|
    ensures forall i :: 0 <= i < |r| ==> NameChar(r[i])
    ensures forall i :: 0 <= i < |s| && NameChar(s[i]) ==> r[i] == s[i]
    ensures forall i :: 0 <= i < |s| && !NameChar(s[i]) ==> r[i] == '_'
  {
    seq(|s|, i requires 0 <= i < |s| => if NameChar(s[i]) then s[i] else '_')
  }

  /** Sanitizing a sanitized name changes nothing. */
  lemma SanitizeIdempotent(s: string)
    ensures SanitizeFilename(SanitizeFilename(s)) == SanitizeFilename(s)
  {
  }

  /** `remove_doi_prefix`: every `https://doi.org/`, then every `doi:`,
      removed, then the ends stripped. */
  function RemoveDoiPrefix(doi: string): (r: string)
    ensures NoOuterSpace(r)
    ensures |r| <= |doi|
  {
    var a := ReplaceAll(doi, "https://doi.org/", "");
    var b := ReplaceAll(a, "doi:", "");
    ReplaceShrinks(doi, "https://doi.org/", "");
    ReplaceShrinks(a, "doi:", "");
    Strip(b)
  }

  /** A bare DOI comes back stripped, and a resolver URL loses its
      prefix. */
  lemma RemoveDoiPrefixBare(d: string)
    requires !Contains(d, "https://doi.org/") && !Contains(d, "doi:")
    ensures RemoveDoiPrefix(d) == Strip(d)
  {
    ReplaceAbsent(d, "https://doi.org/", "");
    ReplaceAbsent(d, "doi:", "");
  }

  /** A resolver URL loses its prefix. */
  lemma RemoveDoiPrefixUrl(d: string)
    requires !Contains(d, "https://doi.org/") && !Contains(d, "doi:")
    ensures RemoveDoiPrefix("https://doi.org/" + d) == Strip(d)
  {
    ReplaceLeading("https://doi.org/", d);
    RemoveDoiPrefixBare(d);
  }

  /** Removing a pattern from a text that starts with it removes that
      occurrence first. */
  lemma ReplaceLeading(pat: string, d: string)
    requires |pat| > 0
    ensures ReplaceAll(pat + d, pat, "") == ReplaceAll(d, pat, "")
  {
    assert (pat + d)[..|pat|] == pat;
    assert (pat + d)[|pat|..] == d;
  }

  // ------------------------------------------------------------------
  // one record
  // ------------------------------------------------------------------

  /** The download calls the loop can make. */
  datatype Download = Primary(url: string) | Backup(doi: string)

  /** The outside world: whether the primary download of a URL yields
      content, whether PyPaperBot finds a PDF for a DOI, and, for a
      (folder, base name) pair, whether the PDF write succeeds and whether
      Grobid returns TEI. */
  datatype World = World(primary: string -> bool, backup: string -> bool,
                         save: (string, string) -> bool, grobid: (string, string) -> bool)

  /** What one record's pass decides: its file name and the downloads
      tried, in order. */
  datatype Outcome = Outcome(dl: string, tried: seq<Download>)

  /** `record.get("pdf_url") or ""`; a truthy value that is not a string
      has no `startswith` and raises `AttributeError`. */
  function PdfUrl(f: Fields): (r: Result<string>)
    ensures !HasKey(f, "pdf_url") ==> r == Ok("")
    ensures Get(f, "pdf_url") == Some(Null) ==> r == Ok("")
  {
    var v := GetOr(f, "pdf_url", Null);
    if !Truthy(v) then Ok("") else if v.Str? then Ok(v.s) else Err(AttributeError)
  }

  /** The downloads for one DOI: the primary one only for an `http` URL,
      and the backup whenever that did not yield content.  The flag says
      whether some download yielded content. */
  function Fetch(url: string, doi: string, w: World): (r: (bool, seq<Download>))
  {
    var tried := if StartsWith(url, "http") then [Primary(url)] else [];
    if StartsWith(url, "http") && w.primary(url) then (true, tried)
    else (w.backup(doi), tried + [Backup(doi)])
  }

  /** The primary download is tried exactly for an `http` URL, the backup
      exactly when the primary did not yield content, and content comes
      from one of them. */
  lemma FetchTries(url: string, doi: string, w: World)
    ensures var (got, tried) := Fetch(url, doi, w);
      (Primary(url) in tried <==> StartsWith(url, "http"))
      && (Backup(doi) in tried <==> !(StartsWith(url, "http") && w.primary(url)))
      && (got <==> (StartsWith(url, "http") && w.primary(url)) || w.backup(doi))
  {
  }

  /** The file name a record ends with: the base name when content was
      obtained, written and turned into TEI; `""` otherwise. */
  function Stored(got: bool, folder: string, base: string, w: World): string {
    if got && w.save(folder, base) && w.grobid(folder, base) then base else ""
  }

  /** One OpenAlex record in the folder of a cited article. */
  function OpenalexStep(f: Fields, folder: string, w: World): (r: Result<Outcome>)
  {
    var doi :- GetText(f, "doi");
    if doi == [] then Ok(Outcome("", []))
    else
      var bare := RemoveDoiPrefix(doi);
      var url :- PdfUrl(f);
      var (got, tried) := Fetch(url, bare, w);
      Ok(Outcome(Stored(got, folder, SanitizeFilename(bare), w), tried))
  }

  /** A record with a blank DOI gets `""` and no download is tried. */
  lemma OpenalexBlankDoi(f: Fields, folder: string, w: World)
    requires GetText(f, "doi") == Ok("")
    ensures OpenalexStep(f, folder, w) == Ok(Outcome("", []))
  {
  }

  /** A record with a DOI gets the sanitized prefix-free DOI exactly when
      a download yielded content that was written and turned into TEI. */
  lemma OpenalexDlFilename(f: Fields, folder: string, w: World)
    requires GetText(f, "doi").Ok? && GetText(f, "doi").value != []
    requires PdfUrl(f).Ok?
    ensures var bare := RemoveDoiPrefix(GetText(f, "doi").value);
      var (got, tried) := Fetch(PdfUrl(f).value, bare, w);
      OpenalexStep(f, folder, w) == Ok(Outcome(Stored(got, folder, SanitizeFilename(bare), w), tried))
      && (Stored(got, folder, SanitizeFilename(bare), w) != "" ==>
            got && w.save(folder, SanitizeFilename(bare)) && w.grobid(folder, SanitizeFilename(bare)))
  {
  }

  /** The record written back: its fields with `forward_dl_filename` set. */
  function AnnotateRecord(v: Value, folder: string, w: World): (r: Result<Value>)
    ensures r.Ok? <==> v.Obj? && OpenalexStep(v.fields, folder, w).Ok?
    ensures r.Ok? ==>
      (v.Obj? && OpenalexStep(v.fields, folder, w).Ok? && r.value.Obj?
       && Get(r.value.fields, "forward_dl_filename") == Some(Str(OpenalexStep(v.fields, folder, w).value.dl))
       && forall k :: k != "forward_dl_filename" ==> Get(r.value.fields, k) == Get(v.fields, k))
  {
    if !v.Obj? then Err(AttributeError)
    else
      var o :- OpenalexStep(v.fields, folder, w);
      Ok(Obj(SetField(v.fields, "forward_dl_filename", Str(o.dl))))
  }

  /** The step of the OpenAlex loop for one folder. */
  function OpenalexFn(folder: string, w: World): Value -> Result<Value> {
    v => AnnotateRecord(v, folder, w)
  }

  /** One `scholarly_extra` DOI: the backup download only, and a new
      `{doi, forward_dl_filename}` dict. */
  function ExtraRecord(v: Value, folder: string, w: World): (r: Result<Value>)
    ensures r.Ok? <==> v.Str?
    ensures r.Ok? && Strip(v.s) == [] ==>
      r.value == Obj([("doi", Str("")), ("forward_dl_filename", Str(""))])
  {
    if !v.Str? then Err(AttributeError)
    else
      var doi := Strip(v.s);
      if doi == [] then Ok(Obj([("doi", Str("")), ("forward_dl_filename", Str(""))]))
      else
        var bare := RemoveDoiPrefix(doi);
        var dl := Stored(w.backup(bare), folder, SanitizeFilename(bare), w);
        Ok(Obj([("doi", Str(doi)), ("forward_dl_filename", Str(dl))]))
  }

  /** The step of the `scholarly_extra` loop for one folder. */
  function ExtraFn(folder: string, w: World): Value -> Result<Value> {
    v => ExtraRecord(v, folder, w)
  }

  // ------------------------------------------------------------------
  // the loops
  // ------------------------------------------------------------------

  /** The loop over `records.get("openalex", [])`, annotating each record
      in place. */
  method AnnotateOpenalex(records: seq<Value>, folder: string, w: World) returns (r: Result<seq<Value>>)
    ensures r == Each(records, OpenalexFn(folder, w))
  {
    var done: seq<Value> := [];
    var i := 0;
    assert records[i..] == records;
    ThenNil(Each(records, OpenalexFn(folder, w)));
    while i < |records|
      invariant 0 <= i <= |records|
      invariant Then(done, Each(records[i..], OpenalexFn(folder, w))) == Each(records, OpenalexFn(folder, w))
    {
      var item :- AnnotateRecord(records[i], folder, w);
      EachCons(records, i, OpenalexFn(folder, w));
      ThenThen(done, [item], Each(records[i + 1..], OpenalexFn(folder, w)));
      done := done + [item];
      i := i + 1;
    }
    assert records[i..] == [];
    assert done + [] == done;
    return Ok(done);
  }

  /** The loop building `new_extra` from the `scholarly_extra` DOIs. */
  method NewExtra(extras: seq<Value>, folder: string, w: World) returns (r: Result<seq<Value>>)
    ensures r == Each(extras, ExtraFn(folder, w))
  {
    var newExtra: seq<Value> := [];
    var i := 0;
    assert extras[i..] == extras;
    ThenNil(Each(extras, ExtraFn(folder, w)));
    while i < |extras|
      invariant 0 <= i <= |extras|
      invariant Then(newExtra, Each(extras[i..], ExtraFn(folder, w))) == Each(extras, ExtraFn(folder, w))
    {
      var item :- ExtraRecord(extras[i], folder, w);
      EachCons(extras, i, ExtraFn(folder, w));
      ThenThen(newExtra, [item], Each(extras[i + 1..], ExtraFn(folder, w)));
      newExtra := newExtra + [item];
      i := i + 1;
    }
    assert extras[i..] == [];
    assert newExtra + [] == newExtra;
    return Ok(newExtra);
  }

  /** `new_extra` has one dict per DOI, in order, and every blank DOI gives
      an all-blank dict. */
  lemma NewExtraShape(extras: seq<Value>, folder: string, w: World)
    requires Each(extras, ExtraFn(folder, w)).Ok?
    ensures var out := Each(extras, ExtraFn(folder, w)).value;
      |out| == |extras|
      && forall i :: 0 <= i < |extras| ==>
          (extras[i].Str? && out[i].Obj?
           && (Strip(extras[i].s) == [] ==>
                 out[i] == Obj([("doi", Str("")), ("forward_dl_filename", Str(""))])))
  {
    var out := Each(extras, ExtraFn(folder, w)).value;
    forall i | 0 <= i < |extras|
      ensures extras[i].Str? && out[i].Obj?
      ensures Strip(extras[i].s) == [] ==> out[i] == Obj([("doi", Str("")), ("forward_dl_filename", Str(""))])
    {
      assert ExtraFn(folder, w)(extras[i]) == Ok(out[i]);
    }
  }

  /** One cited article's entry after its pass: the OpenAlex records
      annotated in place (when the key holds a list) and `scholarly_extra`
      replaced by the new list.  Both loops iterate whatever the key holds,
      so a dict contributes its keys and a string its characters. */
  function EntryPass(key: string, v: Value, w: World): (r: Result<Value>)
    ensures r.Ok? ==> v.Obj? && r.value.Obj?
  {
    if !v.Obj? then Err(AttributeError)
    else
      var folder := SanitizeFilename(key);
      var openalex :- GetIter(v.fields, "openalex");
      var annotated :- Each(openalex, OpenalexFn(folder, w));
      var extras :- GetIter(v.fields, "scholarly_extra");
      var newExtra :- Each(extras, ExtraFn(folder, w));
      var f := if GetOr(v.fields, "openalex", Null).List? then Put(v.fields, "openalex", List(annotated)) else v.fields;
      Ok(Obj(Put(f, "scholarly_extra", List(newExtra))))
  }

  /** The body of the loop over the citation graph's items. */
  method ProcessEntry(key: string, v: Value, w: World) returns (r: Result<Value>)
    ensures r == EntryPass(key, v, w)
  {
    if !v.Obj? {
      return Err(AttributeError);
    }
    var folder := SanitizeFilename(key);
    var openalex :- GetIter(v.fields, "openalex");
    var annotated :- AnnotateOpenalex(openalex, folder, w);
    var extras :- GetIter(v.fields, "scholarly_extra");
    var newExtra :- NewExtra(extras, folder, w);
    var f := v.fields;
    if GetOr(v.fields, "openalex", Null).List? {
      f := Put(v.fields, "openalex", List(annotated));
    }
    return Ok(Obj(Put(f, "scholarly_extra", List(newExtra))));
  }

  /** After the pass `scholarly_extra` holds one dict per DOI it held, and
      the other keys of the entry are untouched. */
  lemma EntryPassExtra(key: string, v: Value, w: World, k: string)
    requires EntryPass(key, v, w).Ok?
    requires k != "openalex" && k != "scholarly_extra"
    ensures var f := EntryPass(key, v, w).value.fields;
      Get(f, k) == Get(v.fields, k)
      && Get(f, "scholarly_extra") == Some(List(Each(GetIter(v.fields, "scholarly_extra").value,
                                                    ExtraFn(SanitizeFilename(key), w)).value))
  {
    var folder := SanitizeFilename(key);
    var annotated := Each(GetIter(v.fields, "openalex").value, OpenalexFn(folder, w)).value;
    var newExtra := Each(GetIter(v.fields, "scholarly_extra").value, ExtraFn(folder, w)).value;
    var f := if GetOr(v.fields, "openalex", Null).List? then Put(v.fields, "openalex", List(annotated)) else v.fields;
    PutGet(v.fields, "openalex", List(annotated), k);
    PutGet(f, "scholarly_extra", List(newExtra), k);
    PutGet(f, "scholarly_extra", List(newExtra), "scholarly_extra");
  }

  /** An `openalex` value that is not a list stays as it was.  A dict or a
      string gets through the loop only when empty, since the keys or
      characters it yields have no `get`. */
  lemma EntryPassOpenalexKept(key: string, v: Value, w: World)
    requires EntryPass(key, v, w).Ok?
    requires !GetOr(v.fields, "openalex", Null).List?
    ensures GetIter(v.fields, "openalex") == Ok([])
    ensures Get(EntryPass(key, v, w).value.fields, "openalex") == Get(v.fields, "openalex")
  {
    var folder := SanitizeFilename(key);
    var items := GetIter(v.fields, "openalex").value;
    var annotated := Each(items, OpenalexFn(folder, w)).value;
    var newExtra := Each(GetIter(v.fields, "scholarly_extra").value, ExtraFn(folder, w)).value;
    PutGet(v.fields, "scholarly_extra", List(newExtra), "openalex");
  }

  // ------------------------------------------------------------------
  // the citation graph
  // ------------------------------------------------------------------

  /** The step of the loop over the graph's items. */
  function EntryFn(w: World): ((string, Value)) -> Result<(string, Value)> {
    (e: (string, Value)) => match EntryPass(e.0, e.1, w) case Ok(v) => Ok((e.0, v)) case Err(x) => Err(x)
  }

  /** `process_citation_graph` after the Grobid test and the load: every
      entry is rewritten in order under its own key. */
  method ProcessGraph(graph: Fields, w: World) returns (r: Result<Fields>)
    ensures r == Each(graph, EntryFn(w))
  {
    var done: Fields := [];
    var i := 0;
    assert graph[i..] == graph;
    ThenNil(Each(graph, EntryFn(w)));
    while i < |graph|
      invariant 0 <= i <= |graph|
      invariant Then(done, Each(graph[i..], EntryFn(w))) == Each(graph, EntryFn(w))
    {
      var (key, records) := graph[i];
      var v :- ProcessEntry(key, records, w);
      EachCons(graph, i, EntryFn(w));
      ThenThen(done, [(key, v)], Each(graph[i + 1..], EntryFn(w)));
      done := done + [(key, v)];
      i := i + 1;
    }
    assert graph[i..] == [];
    assert done + [] == done;
    return Ok(done);
  }

  /** The rewritten graph has the same keys in the same order. */
  lemma GraphKeys(graph: Fields, w: World)
    requires Each(graph, EntryFn(w)).Ok?
    ensures Keys(Each(graph, EntryFn(w)).value) == Keys(graph)
  {
    var out := Each(graph, EntryFn(w)).value;
    forall i | 0 <= i < |graph| ensures out[i].0 == graph[i].0 {
      assert EntryFn(w)(graph[i]) == Ok(out[i]);
    }
  }

  /** The whole pass: the Grobid health check (as in retrieve.py), then the
      citation graph, which must load and be a dict. */
  method ProcessCitationGraph(grobidUrl: string, healthy: string -> bool, loaded: Option<Value>, w: World)
    returns (r: Result<Value>)
    ensures !healthy(Retrieve.HealthUrl(grobidUrl)) ==> r == Err(Exit(1))
    ensures healthy(Retrieve.HealthUrl(grobidUrl)) && loaded.None? ==> r == Err(Exit(1))
    ensures healthy(Retrieve.HealthUrl(grobidUrl)) && loaded.Some? && !loaded.value.Obj? ==>
      r == Err(AttributeError)
    ensures healthy(Retrieve.HealthUrl(grobidUrl)) && loaded.Some? && loaded.value.Obj? ==>
      r == match Each(loaded.value.fields, EntryFn(w))
           case Ok(g) => Ok(Obj(g))
           case Err(e) => Err(e)
  {
    var _ :- Retrieve.TestGrobidApi(grobidUrl, healthy);
    if loaded.None? {
      return Err(Exit(1));
    }
    if !loaded.value.Obj? {
      return Err(AttributeError);
    }
    var g :- ProcessGraph(loaded.value.fields, w);
    return Ok(Obj(g));
  }
}
