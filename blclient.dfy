/** The Blablador client (backend/bl_client.py): completion URL building
    and response handling, batched embedding, and the paragraph-level TEI
    and CSV loaders.  HTTP is an oracle: a `Transport` returns the status
    and the decoded JSON body of a completion request, an `EmbedBatch`
    returns the embeddings of one batch of texts. */
module BlClient {
  import opened Common
  import opened Strs
  import opened Values
  import opened Corpus

  type Vector = seq<real>

  /** A decoded HTTP response; `json == None` when the body is not JSON. */
  datatype Response = Response(status: int, json: Option<Value>)

  /** POST of a completion request `(url, model, prompt, max_tokens)`;
      `Err` stands for a connection failure. */
  type Transport = (string, string, string, int) -> Result<Response>

  /** POST of one embedding batch; `Err` for a failed request. */
  type EmbedBatch = seq<string> -> Result<seq<Vector>>

  const BatchSize: nat := 50

  // ------------------------------------------------------------------
  // completion
  // ------------------------------------------------------------------

  predicate HasScheme(s: string) {
    StartsWith(s, "http://") || StartsWith(s, "https://")
  }

  /** The base URL without trailing slashes, given `https://` when it has
      no scheme. */
  function NormalizeBase(base: string): (r: string)
    ensures HasScheme(r)
    ensures HasScheme(RStripChar(base, '/')) ==> r == RStripChar(base, '/')
    ensures !HasScheme(RStripChar(base, '/')) ==> r == "https://" + RStripChar(base, '/')
  {
    var b := RStripChar(base, '/');
    if HasScheme(b) then b
    else
      assert ("https://" + b)[..8] == "https://";
      "https://" + b
  }

  function CompletionUrl(base: string): (url: string)
    ensures EndsWith(url, "/v1/completions")
    ensures HasScheme(url)
  {
    var b := NormalizeBase(base);
    var url := b + "/v1/completions";
    assert url[|url| - 15..] == "/v1/completions";
    assert StartsWith(b, "http://") ==> url[..7] == b[..7];
    assert StartsWith(b, "https://") ==> url[..8] == b[..8];
    url
  }

  /** Normalising an already normalised base changes nothing, unless the base
      was only slashes: then `"https://"` itself loses its slashes and gets a
      second scheme. */
  lemma NormalizeIdempotent(base: string)
    requires RStripChar(base, '/') != []
    ensures NormalizeBase(NormalizeBase(base)) == NormalizeBase(base)
  {
    var b := RStripChar(base, '/');
    var n := NormalizeBase(base);
    if !HasScheme(b) {
      assert n[|n| - 1] == b[|b| - 1];
    }
    assert RStripChar(n, '/') == n;
  }

  lemma NormalizeSlashesOnly()
    ensures NormalizeBase("/") == "https://"
    ensures NormalizeBase(NormalizeBase("/")) == "https://https:"
  {
    assert RStripChar("https://", '/') == "https:" by {
      assert RStripChar("https:/", '/') == "https:";
    }
    assert !StartsWith("https:", "https://");
    assert !StartsWith("https:", "http://");
  }

  /** `raise_for_status` raises for client and server errors only. */
  predicate IsHttpError(status: int) { 400 <= status < 600 }

  /** `BlabladorClient.completion`: posts to `CompletionUrl(base)` and
      returns `response.json()["choices"][0]["text"]`. */
  function Completion(post: Transport, base: string, model: string, prompt: string, maxTokens: int)
    : (r: Result<Value>)
    ensures post(CompletionUrl(base), model, prompt, maxTokens).Err? ==> r.Err?
    ensures (post(CompletionUrl(base), model, prompt, maxTokens).Ok?
             && IsHttpError(post(CompletionUrl(base), model, prompt, maxTokens).value.status))
            ==> r == Err(HttpError(post(CompletionUrl(base), model, prompt, maxTokens).value.status))
    ensures r.Ok? ==> var resp := post(CompletionUrl(base), model, prompt, maxTokens).value;
      !IsHttpError(resp.status) && resp.json.Some? && ChoiceText(resp.json.value) == Ok(r.value)
  {
    var resp :- post(CompletionUrl(base), model, prompt, maxTokens);
    if IsHttpError(resp.status) then Err(HttpError(resp.status))
    else if resp.json.None? then Err(ValueError("response is not JSON"))
    else ChoiceText(resp.json.value)
  }

  /** `BlabladorClient(api_key, base_url).completion(...)` with the base URL
      taken from the argument or, when that is empty, from the environment:
      no base at all fails on `None.rstrip` (`AttributeError`). */
  function ClientCompletion(post: Transport, base: Option<string>, model: string, prompt: string,
                            maxTokens: int): (r: Result<Value>)
    ensures base.None? ==> r == Err(AttributeError)
    ensures base.Some? ==> r == Completion(post, base.value, model, prompt, maxTokens)
  {
    if base.None? then Err(AttributeError) else Completion(post, base.value, model, prompt, maxTokens)
  }

  /** `body["choices"][0]["text"]`. */
  function ChoiceText(body: Value): Result<Value> {
    var choices :- Member(body, "choices");
    var first :- Element(choices, 0);
    Member(first, "text")
  }

  lemma ChoiceTextOfWellFormedBody(t: Value, rest: seq<Value>, more: Fields)
    ensures ChoiceText(Obj([("choices", List([Obj([("text", t)])] + rest))] + more)) == Ok(t)
  {
  }

  // ------------------------------------------------------------------
  // batched embeddings
  // ------------------------------------------------------------------

  /** The consecutive batches of 50 (the last one shorter) that
      `embed_documents` sends. */
  function Batches(texts: seq<string>): (r: seq<seq<string>>)
    decreases |texts|
  {
    if texts == [] then []
    else if |texts| <= BatchSize then [texts]
    else [texts[..BatchSize]] + Batches(texts[BatchSize..])
  }

  function Flatten<T>(xs: seq<seq<T>>): seq<T> {
    if xs == [] then [] else xs[0] + Flatten(xs[1..])
  }

  lemma FlattenAppend<T>(xs: seq<seq<T>>, ys: seq<seq<T>>)
    ensures Flatten(xs + ys) == Flatten(xs) + Flatten(ys)
  {
    if xs == [] {
      assert xs + ys == ys;
    } else {
      assert (xs + ys)[0] == xs[0];
      assert (xs + ys)[1..] == xs[1..] + ys;
      FlattenAppend(xs[1..], ys);
    }
  }

  /** The batches cover the texts exactly, in order, in `ceil(n / 50)`
      requests, all full except possibly the last. */
  lemma {:induction false} BatchesPartition(texts: seq<string>)
    ensures Flatten(Batches(texts)) == texts
    ensures |Batches(texts)| == (|texts| + BatchSize - 1) / BatchSize
    ensures forall i :: 0 <= i < |Batches(texts)| - 1 ==> |Batches(texts)[i]| == BatchSize
    ensures forall i :: 0 <= i < |Batches(texts)| ==> 1 <= |Batches(texts)[i]| <= BatchSize
    decreases |texts|
  {
    if |texts| > BatchSize {
      BatchesPartition(texts[BatchSize..]);
      assert texts == texts[..BatchSize] + texts[BatchSize..];
      var r := Batches(texts);
      assert r[1..] == Batches(texts[BatchSize..]);
    }
  }

  /** The outcome of sending `bs` in order: the concatenated embeddings, or
      the first failure. */
  function EmbedAll(bs: seq<seq<string>>, send: EmbedBatch): Result<seq<Vector>>
    decreases |bs|
  {
    if bs == [] then Ok([])
    else
      var prefix :- EmbedAll(bs[..|bs| - 1], send);
      var last :- send(bs[|bs| - 1]);
      Ok(prefix + last)
  }

  lemma {:induction false} EmbedAllFailureSticks(a: seq<seq<string>>, b: seq<seq<string>>, send: EmbedBatch)
    requires EmbedAll(a, send).Err?
    ensures EmbedAll(a + b, send) == EmbedAll(a, send)
    decreases |b|
  {
    if b == [] {
      assert a + b == a;
    } else {
      var ab := a + b;
      assert ab[..|ab| - 1] == a + b[..|b| - 1];
      EmbedAllFailureSticks(a, b[..|b| - 1], send);
    }
  }

  lemma EmbedAllSnoc(a: seq<seq<string>>, x: seq<string>, send: EmbedBatch)
    ensures EmbedAll(a + [x], send) ==
      (match EmbedAll(a, send)
       case Err(e) => Err(e)
       case Ok(p) => (match send(x) case Err(e) => Err(e) case Ok(v) => Ok(p + v)))
  {
    assert (a + [x])[..|a + [x]| - 1] == a;
  }

  /** With a service that returns one vector per text, the result has one
      vector per input text. */
  lemma {:induction false} EmbedAllLength(bs: seq<seq<string>>, send: EmbedBatch)
    requires forall b :: send(b).Ok? ==> |send(b).value| == |b|
    requires EmbedAll(bs, send).Ok?
    ensures |EmbedAll(bs, send).value| == |Flatten(bs)|
    decreases |bs|
  {
    if bs != [] {
      var init := bs[..|bs| - 1];
      EmbedAllLength(init, send);
      assert bs == init + [bs[|bs| - 1]];
      FlattenAppend(init, [bs[|bs| - 1]]);
      assert Flatten([bs[|bs| - 1]]) == bs[|bs| - 1];
    }
  }

  /** Cutting the next batch off the unsent texts. */
  lemma BatchesStep(texts: seq<string>, start: nat, stop: nat)
    requires start < |texts|
    requires stop == if start + BatchSize < |texts| then start + BatchSize else |texts|
    ensures Batches(texts[start..]) == [texts[start..stop]] + Batches(texts[stop..])
  {
    if |texts[start..]| > BatchSize {
      assert texts[start..][..BatchSize] == texts[start..stop];
      assert texts[start..][BatchSize..] == texts[stop..];
    } else {
      assert texts[start..] == texts[start..stop];
      assert texts[stop..] == [];
    }
  }

  /** A batch that fails after successful ones decides the outcome. */
  lemma EmbedFailsAt(all: seq<seq<string>>, sent: seq<seq<string>>, batch: seq<string>,
                     rest: seq<seq<string>>, send: EmbedBatch)
    requires all == sent + ([batch] + rest)
    requires EmbedAll(sent, send).Ok? && send(batch).Err?
    ensures EmbedAll(all, send) == Err(send(batch).error)
    ensures sent + [batch] <= all
    ensures (sent + [batch])[..|sent|] == sent
  {
    var s1 := sent + [batch];
    Reassociate(sent, batch, rest);
    EmbedAllSnoc(sent, batch, send);
    assert EmbedAll(s1, send) == Err(send(batch).error);
    EmbedAllFailureSticks(s1, rest, send);
  }

  lemma Reassociate<T>(a: seq<T>, x: T, b: seq<T>)
    ensures a + ([x] + b) == (a + [x]) + b
    ensures a + [x] <= a + ([x] + b)
    ensures (a + [x])[..|a|] == a
  {
  }

  /** `embed_documents`: sends the batches one after another and extends
      the result with each batch's embeddings; the first failure is
      re-raised and nothing partial is returned.  `sent` lists the batches
      that were posted. */
  method EmbedDocuments(texts: seq<string>, send: EmbedBatch)
    returns (r: Result<seq<Vector>>, sent: seq<seq<string>>)
    ensures r == EmbedAll(Batches(texts), send)
    ensures r.Ok? ==> sent == Batches(texts)
    ensures r.Err? ==> (sent != [] && sent <= Batches(texts)
      && send(sent[|sent| - 1]).Err? && EmbedAll(sent[..|sent| - 1], send).Ok?)
  {
    var embeddings: seq<Vector> := [];
    var start := 0;
    sent := [];
    while start < |texts|
      invariant 0 <= start <= |texts|
      invariant Batches(texts) == sent + Batches(texts[start..])
      invariant EmbedAll(sent, send) == Ok(embeddings)
      decreases |texts| - start
    {
      var stop := if start + BatchSize < |texts| then start + BatchSize else |texts|;
      var batch := texts[start..stop];
      BatchesStep(texts, start, stop);
      ghost var rest := Batches(texts[stop..]);
      var out := send(batch);
      if out.Err? {
        r := Err(out.error);
        EmbedFailsAt(Batches(texts), sent, batch, rest, send);
        sent := sent + [batch];
        return;
      }
      EmbedAllSnoc(sent, batch, send);
      assert sent + ([batch] + rest) == (sent + [batch]) + rest;
      embeddings := embeddings + out.value;
      sent := sent + [batch];
      start := stop;
    }
    assert texts[start..] == [];
    assert sent == Batches(texts);
    r := Ok(embeddings);
  }

  // ------------------------------------------------------------------
  // paragraph-level loaders
  // ------------------------------------------------------------------

  /** The chunks `tei_to_chunks` makes from the `<p>` texts of one file. */
  function ParagraphChunks(paras: seq<string>, source: string): (r: seq<Doc>)
    ensures |r| <= |paras|
    ensures forall i :: 0 <= i < |r| ==> ParagraphDoc(r[i], source)
  {
    if paras == [] then []
    else
      var t := Strip(paras[0]);
      var rest := ParagraphChunks(paras[1..], source);
      if t != [] then
        var d := TextDoc(t, [("source", Str(source))]);
        AllCons(d, rest, x => ParagraphDoc(x, source));
        [d] + rest
      else rest
  }

  /** A paragraph chunk: stripped, non-empty text with meta `{source}`. */
  predicate ParagraphDoc(d: Doc, source: string) {
    d.text != [] && NoOuterSpace(d.text) && d.meta == [("source", Str(source))]
  }

  /** Each chunk is exactly one stripped paragraph: the chunk count is the
      number of paragraphs that are not all whitespace. */
  lemma {:induction false} ParagraphChunksCount(paras: seq<string>, source: string)
    ensures |ParagraphChunks(paras, source)| == |NonBlank(paras)|
  {
    if paras != [] {
      ParagraphChunksCount(paras[1..], source);
      StripEmptyIff(paras[0]);
    }
  }

  function NonBlank(paras: seq<string>): seq<string> {
    if paras == [] then []
    else if AllSpace(paras[0]) then NonBlank(paras[1..])
    else [paras[0]] + NonBlank(paras[1..])
  }

  /** `tei_to_chunks` (paragraph version): one chunk per `<p>` anywhere in
      the document whose stripped text is not empty. */
  method TeiToChunks(f: XmlFile) returns (r: Result<seq<Doc>>)
    ensures f.content.Parsed? <==> r.Ok?
    ensures r.Ok? ==> r.value == ParagraphChunks(f.content.doc.paragraphTexts, f.path)
  {
    if !f.content.Parsed? {
      return Err(ParseFound(f).error);
    }
    var chunks := ChunkParagraphs(f.content.doc.paragraphTexts, f.path);
    return Ok(chunks);
  }

  /** The loop of `tei_to_chunks` over the `<p>` texts. */
  method ChunkParagraphs(ps: seq<string>, path: string) returns (chunks: seq<Doc>)
    ensures chunks == ParagraphChunks(ps, path)
  {
    chunks := [];
    var i := 0;
    while i < |ps|
      invariant 0 <= i <= |ps|
      invariant ParagraphChunks(ps, path) == chunks + ParagraphChunks(ps[i..], path)
    {
      var text := Strip(ps[i]);
      ParagraphChunksStep(ps, i, path, chunks, ParagraphChunks(ps, path));
      if text != [] {
        chunks := chunks + [TextDoc(text, [("source", Str(path))])];
      }
      i := i + 1;
    }
    assert ps[i..] == [];
  }

  /** One iteration of the loop: the chunk of paragraph `i`, if any, moves
      from the pending part to the chunks made so far. */
  lemma {:induction false} ParagraphChunksStep(ps: seq<string>, i: nat, source: string, chunks: seq<Doc>, whole: seq<Doc>)
    requires i < |ps|
    requires whole == chunks + ParagraphChunks(ps[i..], source)
    ensures Strip(ps[i]) != [] ==>
      whole == (chunks + [TextDoc(Strip(ps[i]), [("source", Str(source))])]) + ParagraphChunks(ps[i + 1..], source)
    ensures Strip(ps[i]) == [] ==> whole == chunks + ParagraphChunks(ps[i + 1..], source)
  {
    var head := ParagraphChunksAt(ps, i, source);
    ConcatAssoc(chunks, head, ParagraphChunks(ps[i + 1..], source));
    ConcatNil(chunks);
  }

  /** The chunks from paragraph `i` on: that paragraph's chunk, if any,
      then those of the paragraphs after it. */
  lemma {:induction false} ParagraphChunksAt(ps: seq<string>, i: nat, source: string) returns (head: seq<Doc>)
    requires i < |ps|
    ensures head == if Strip(ps[i]) != [] then [TextDoc(Strip(ps[i]), [("source", Str(source))])] else []
    ensures ParagraphChunks(ps[i..], source) == head + ParagraphChunks(ps[i + 1..], source)
  {
    SuffixCons(ps, i);
    head := if Strip(ps[i]) != [] then [TextDoc(Strip(ps[i]), [("source", Str(source))])] else [];
    ConcatNil(ParagraphChunks(ps[i + 1..], source));
  }

  /** The meta of the document made from CSV row `idx`. */
  function CitingMeta(row: Row, idx: nat): (m: Fields)
    ensures 2 <= |m| <= 4
    ensures m[..2] == [("type", Str("citing")), ("csv_row", Int(idx))]
    ensures HasKey(m, "citing_title") <==> "citing_title" in row
    ensures HasKey(m, "citing_id") <==> "citing_id" in row
    ensures UniqueKeys(m)
  {
    var base: Fields := [("type", Str("citing")), ("csv_row", Int(idx))];
    var withTitle := if "citing_title" in row then base + [("citing_title", row["citing_title"])] else base;
    var m := if "citing_id" in row then withTitle + [("citing_id", row["citing_id"])] else withTitle;
    assert forall i :: 2 <= i < |m| ==> m[i].0 in {"citing_title", "citing_id"};
    assert "citing_title" in row ==> m[2].0 == "citing_title";
    assert "citing_id" in row ==> m[|m| - 1].0 == "citing_id";
    assert forall i :: 0 <= i < |m| && m[i].0 == "citing_title" ==> i == 2;
    m
  }

  /** The document made from CSV row `idx`: its `citing_sentence` as text. */
  predicate IsCitingDoc(row: Row, idx: nat, d: Doc) {
    "citing_sentence" in row && d.meta == CitingMeta(row, idx)
    && d.text == PyStr(row["citing_sentence"])
  }

  /** One document per row, in row order, numbered from `first`. */
  predicate CitingDocsOf(rows: seq<Row>, first: nat, docs: seq<Doc>) {
    |docs| == |rows| && forall i :: 0 <= i < |rows| ==> IsCitingDoc(rows[i], first + i, docs[i])
  }

  predicate AllHaveSentence(rows: seq<Row>) {
    forall i :: 0 <= i < |rows| ==> "citing_sentence" in rows[i]
  }

  /** The CSV part of `tei_and_csv_to_documents`. */
  function CitingDocs(rows: seq<Row>, first: nat): (r: Result<seq<Doc>>)
    ensures r.Ok? ==> CitingDocsOf(rows, first, r.value)
    ensures r.Ok? <==> AllHaveSentence(rows)
    decreases |rows|
  {
    if rows == [] then Ok([])
    else
      AllHaveSentenceCons(rows);
      var text :- Cell(rows[0], "citing_sentence");
      var rest :- CitingDocs(rows[1..], first + 1);
      var d := TextDoc(PyStr(text), CitingMeta(rows[0], first));
      CitingDocsCons(rows, first, d, rest);
      Ok([d] + rest)
  }

  lemma AllHaveSentenceCons(rows: seq<Row>)
    requires rows != []
    ensures AllHaveSentence(rows) <==> "citing_sentence" in rows[0] && AllHaveSentence(rows[1..])
  {
    assert forall i :: 1 <= i < |rows| ==> rows[i] == rows[1..][i - 1];
  }

  lemma CitingDocsCons(rows: seq<Row>, first: nat, d: Doc, rest: seq<Doc>)
    requires rows != [] && IsCitingDoc(rows[0], first, d) && CitingDocsOf(rows[1..], first + 1, rest)
    ensures CitingDocsOf(rows, first, [d] + rest)
  {
    var docs := [d] + rest;
    forall i | 0 <= i < |rows| ensures IsCitingDoc(rows[i], first + i, docs[i]) {
      if i > 0 {
        assert rows[i] == rows[1..][i - 1] && docs[i] == rest[i - 1];
      }
    }
  }

  /** `tei_and_csv_to_documents` (paragraph version): every file's chunks,
      in glob order, then one document per CSV row.  */
  method TeiAndCsvToDocuments(files: seq<XmlFile>, table: Table) returns (r: Result<seq<Doc>>)
    ensures r.Ok? <==> AllParsed(files) && CitingDocs(table.rows, 0).Ok?
    ensures r.Ok? ==> r.value == AllParagraphChunks(files) + CitingDocs(table.rows, 0).value
  {
    var docs :- FilesToChunks(files);
    var citing :- CitingDocs(table.rows, 0);
    return Ok(docs + citing);
  }

  /** The loop of `tei_and_csv_to_documents` over the files: the first file
      that does not parse ends it. */
  method FilesToChunks(files: seq<XmlFile>) returns (r: Result<seq<Doc>>)
    ensures r.Ok? <==> AllParsed(files)
    ensures r.Ok? ==> r.value == AllParagraphChunks(files)
  {
    var docs: seq<Doc> := [];
    var i := 0;
    while i < |files|
      invariant 0 <= i <= |files|
      invariant AllParsed(files[..i])
      invariant docs == AllParagraphChunks(files[..i])
    {
      var chunks := TeiToChunks(files[i]);
      if chunks.Err? {
        AllParsedAt(files, i);
        return Err(chunks.error);
      }
      FilesStep(files, i);
      docs := docs + chunks.value;
      i := i + 1;
    }
    assert files[..i] == files;
    return Ok(docs);
  }

  /** One more parsed file extends the parsed prefix by its chunks. */
  lemma FilesStep(files: seq<XmlFile>, i: nat)
    requires i < |files| && AllParsed(files[..i]) && files[i].content.Parsed?
    ensures AllParsed(files[..i + 1])
    ensures AllParagraphChunks(files[..i + 1])
      == AllParagraphChunks(files[..i]) + ParagraphChunks(files[i].content.doc.paragraphTexts, files[i].path)
  {
    assert files[..i + 1] == files[..i] + [files[i]];
    assert files[..i + 1][..i] == files[..i];
    AllParagraphChunksSnoc(files[..i], files[i]);
  }

  /** The chunks of all files, assuming all of them parse. */
  function AllParagraphChunks(files: seq<XmlFile>): seq<Doc> {
    if files == [] then []
    else
      var last := files[|files| - 1];
      AllParagraphChunks(files[..|files| - 1])
        + (if last.content.Parsed? then ParagraphChunks(last.content.doc.paragraphTexts, last.path) else [])
  }

  lemma AllParagraphChunksSnoc(files: seq<XmlFile>, f: XmlFile)
    ensures AllParagraphChunks(files + [f]) == AllParagraphChunks(files)
      + (if f.content.Parsed? then ParagraphChunks(f.content.doc.paragraphTexts, f.path) else [])
  {
    assert (files + [f])[..|files|] == files;
  }
}
