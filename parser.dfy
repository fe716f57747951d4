/** The sentence-level TEI parser (backend/parser.py): the text cleaners,
    the chunk producers over the abstract TEI tree, the figure-caption
    splitter and the TEI-plus-CSV document loader. */
module Parser {
  import opened Common
  import opened Strs
  import opened Values
  import opened Corpus
  import opened Scrub

  // ------------------------------------------------------------------
  // cleaners
  // ------------------------------------------------------------------

  /** `_strip_citations`: tags, then `#` words, then `[digits]` markers. */
  function StripCitations(s: string): string {
    RemoveNumMarkers(RemoveHashWords(RemoveTags(s)))
  }

  /** `_clean`: strip citations, collapse every whitespace run into one
      space, strip the ends. */
  function Clean(s: string): (r: string)
    ensures NoOuterSpace(r)
    ensures |r| <= |s|
  {
    CollapseChars(StripCitations(s));
    Strip(CollapseWs(StripCitations(s)))
  }

  /** What `_strip_citations` returns holds no tag and no `#` word. */
  lemma StripCitationsClean(s: string)
    ensures NoTag(StripCitations(s)) && NoHash(StripCitations(s))
  {
    var a := RemoveTags(s);
    var b := RemoveHashWords(a);
    RemoveTagsNoTag(s);
    RemoveHashWordsKeepsNoTag(a);
    RemoveHashWordsNoHash(a);
    NumMarkersKeepNoTag(b);
    NumMarkersKeepNoHash(b);
  }

  /** A cleaned text is stripped, single-spaced with plain spaces, and holds
      no tag and no `#` word. */
  lemma CleanOutput(s: string)
    ensures var r := Clean(s);
      NoOuterSpace(r) && SingleSpaced(r) && NoTag(r) && NoHash(r)
  {
    var c := CollapseWs(StripCitations(s));
    StripCitationsClean(s);
    StripSingleSpaced(c);
    CollapseKeepsClean(StripCitations(s));
    NoTagStrip(c);
    NoHashStrip(c);
  }

  /** A text that is already clean (no tag, no `#` word, no `[digits]`
      marker, single-spaced, stripped) is left exactly as it is. */
  lemma CleanFixpoint(s: string)
    requires NoTag(s) && NoHash(s) && !HasMarker(s)
    requires SingleSpaced(s) && NoOuterSpace(s)
    ensures Clean(s) == s
  {
    RemoveTagsIdentity(s);
    HashIdentity(s);
    NumMarkersIdentity(s);
    assert StripCitations(s) == s;
    CollapseIdentity(s);
  }

  // ------------------------------------------------------------------
  // _add_chunk
  // ------------------------------------------------------------------

  /** The meta `_add_chunk` attaches: the kind, and the id only when one is
      given. */
  function ChunkMeta(kind: string, chunkId: Option<string>): (m: Fields)
    ensures Get(m, "type") == Some(Str(kind))
    ensures HasKey(m, "id") <==> chunkId.Some?
    ensures chunkId.Some? ==> Get(m, "id") == Some(Str(chunkId.value))
    ensures UniqueKeys(m) && |m| <= 2
  {
    var base: Fields := [("type", Str(kind))];
    match chunkId
    case None => base
    case Some(id) =>
      var m := base + [("id", Str(id))];
      assert m[1..] == [("id", Str(id))];
      assert Get(m[1..], "id") == Some(Str(id));
      assert m[1].0 == "id";
      m
  }

  /** A list of chunks that `_add_chunk` appends to in place. */
  class ChunkList {
    var items: seq<Doc>

    constructor ()
      ensures items == []
    {
      items := [];
    }

    /** `_add_chunk(chunks, text, kind, chunk_id)`: appends one chunk iff
        the cleaned text is non-empty; earlier chunks are left alone. */
    method AddChunk(text: string, kind: string, chunkId: Option<string>)
      modifies this
      ensures var t := Clean(text);
        items == old(items) + (if t != [] then [TextDoc(t, ChunkMeta(kind, chunkId))] else [])
    {
      var t := Clean(text);
      if t != [] {
        items := items + [TextDoc(t, ChunkMeta(kind, chunkId))];
      } else {
        ConcatNil(items);
      }
    }
  }

  // ------------------------------------------------------------------
  // tei_to_chunks
  // ------------------------------------------------------------------

  /** The section record `tei_to_chunks` keeps for a body div. */
  datatype SectionInfo = SectionInfo(id: string, secType: Option<string>, head: Option<string>)

  /** An `xml:id` attribute that is present and non-empty (Python's `or`
      falls through on a missing or empty attribute). */
  predicate HasId(id: Option<string>) { id.Some? && id.value != [] }

  /** The id of the `n`-th body div (1-based): its `xml:id`, else `sec{n}`. */
  function SectionId(d: Div, n: nat): string {
    if HasId(d.xmlId) then d.xmlId.value else "sec" + NatToStr(n)
  }

  /** Two divs without `xml:id` always get different section ids. */
  lemma FallbackSectionIdsDistinct(d1: Div, n1: nat, d2: Div, n2: nat)
    requires !HasId(d1.xmlId) && !HasId(d2.xmlId) && n1 != n2
    ensures SectionId(d1, n1) != SectionId(d2, n2)
  {
    var a := SectionId(d1, n1);
    var b := SectionId(d2, n2);
    if a == b {
      assert a[3..] == NatToStr(n1);
      assert b[3..] == NatToStr(n2);
      NatToStrInjective(n1, n2);
    }
  }

  /** The first loop of `tei_to_chunks`: the section map keyed by the
      position of each body div, with a counter that advances on every div
      whether or not it has an `xml:id`. */
  method AssignSectionIds(divs: seq<Div>) returns (m: map<nat, SectionInfo>)
    ensures forall i: nat :: i in m <==> i < |divs|
    ensures forall i :: 0 <= i < |divs| ==>
      m[i] == SectionInfo(SectionId(divs[i], i + 1), divs[i].divType, divs[i].head)
  {
    m := map[];
    var secCtr := 1;
    var i := 0;
    while i < |divs|
      invariant 0 <= i <= |divs|
      invariant secCtr == i + 1
      invariant forall j: nat :: j in m <==> j < i
      invariant forall j :: 0 <= j < i ==>
        m[j] == SectionInfo(SectionId(divs[j], j + 1), divs[j].divType, divs[j].head)
    {
      var d := divs[i];
      var sid := if HasId(d.xmlId) then d.xmlId.value else "sec" + NatToStr(secCtr);
      secCtr := secCtr + 1;
      m := m[i := SectionInfo(sid, d.divType, d.head)];
      i := i + 1;
    }
  }

  /** The meta every sentence chunk gets. */
  function SentenceMeta(source: string): Fields {
    [("source", Str(source)), ("type", Str("sentence"))]
  }

  /** The cleaned text of every sentence, in order: each sentence's text is
      cleaned in place. */
  function CleanAll(ss: seq<Sentence>): (r: seq<string>)
    ensures |r| == |ss| && forall i :: 0 <= i < |ss| ==> r[i] == Clean(ss[i].text)
  {
    Map(ss, (s: Sentence) => Clean(s.text))
  }

  /** One sentence chunk per non-empty text, in order. */
  function KeepNonEmpty(texts: seq<string>, source: string): (r: seq<Doc>)
    ensures |r| <= |texts|
    ensures forall i :: 0 <= i < |r| ==> r[i].meta == SentenceMeta(source) && r[i].text != []
    decreases |texts|
  {
    if texts == [] then []
    else
      var rest := KeepNonEmpty(texts[1..], source);
      if texts[0] != [] then [TextDoc(texts[0], SentenceMeta(source))] + rest else rest
  }

  /** The chunks of one paragraph's `<s>` elements. */
  function SentenceChunks(ss: seq<Sentence>, source: string): seq<Doc> {
    KeepNonEmpty(CleanAll(ss), source)
  }

  /** The chunks of all body paragraphs, paragraph by paragraph. */
  function BodyChunks(ps: seq<Para>, source: string): seq<Doc>
    decreases |ps|
  {
    if ps == [] then []
    else BodyChunks(ps[..|ps| - 1], source) + SentenceChunks(ps[|ps| - 1].sentences, source)
  }

  /** Every body chunk has non-empty text and exactly the meta
      `{source, type: "sentence"}`. */
  lemma {:induction false} BodyChunksMeta(ps: seq<Para>, source: string)
    ensures forall d :: d in BodyChunks(ps, source) ==> d.meta == SentenceMeta(source) && d.text != []
    decreases |ps|
  {
    if ps != [] {
      BodyChunksMeta(ps[..|ps| - 1], source);
      var more := SentenceChunks(ps[|ps| - 1].sentences, source);
      assert forall d :: d in more ==> d.meta == SentenceMeta(source) && d.text != [];
    }
  }

  /** Every kept chunk is one of the texts, and only empty texts are
      dropped: the chunks are exactly the non-empty texts. */
  lemma {:induction false} KeepNonEmptySound(texts: seq<string>, source: string, i: nat)
    requires i < |KeepNonEmpty(texts, source)|
    ensures KeepNonEmpty(texts, source)[i].text in texts
    decreases |texts|
  {
    var rest := KeepNonEmpty(texts[1..], source);
    if texts[0] != [] && i == 0 {
    } else {
      var k := if texts[0] != [] then i - 1 else i;
      assert KeepNonEmpty(texts, source)[i] == rest[k];
      KeepNonEmptySound(texts[1..], source, k);
    }
  }

  lemma {:induction false} KeepNonEmptyComplete(texts: seq<string>, source: string, j: nat)
    requires j < |texts| && texts[j] != []
    ensures exists i :: 0 <= i < |KeepNonEmpty(texts, source)| && KeepNonEmpty(texts, source)[i].text == texts[j]
    decreases |texts|
  {
    var r := KeepNonEmpty(texts, source);
    var rest := KeepNonEmpty(texts[1..], source);
    if j == 0 {
      assert r[0].text == texts[0];
    } else {
      KeepNonEmptyComplete(texts[1..], source, j - 1);
      var i :| 0 <= i < |rest| && rest[i].text == texts[1..][j - 1];
      var off := if texts[0] != [] then 1 else 0;
      assert r[i + off] == rest[i];
    }
  }

  /** The sentence loop of one paragraph: every cleaned text in turn,
      appended as a chunk when non-empty. */
  method ParagraphSentences(ss: seq<Sentence>, source: string) returns (out: seq<Doc>)
    ensures out == SentenceChunks(ss, source)
  {
    out := KeepChunks(CleanAll(ss), source);
  }

  method KeepChunks(texts: seq<string>, source: string) returns (out: seq<Doc>)
    ensures out == KeepNonEmpty(texts, source)
  {
    out := [];
    var i := 0;
    while i < |texts|
      invariant 0 <= i <= |texts|
      invariant KeepNonEmpty(texts, source) == out + KeepNonEmpty(texts[i..], source)
    {
      var text := texts[i];
      assert texts[i..][1..] == texts[i + 1..];
      if text != [] {
        out := out + [TextDoc(text, SentenceMeta(source))];
      }
      i := i + 1;
    }
    assert texts[i..] == [];
  }

  method CollectBody(ps: seq<Para>, source: string) returns (chunks: seq<Doc>)
    ensures chunks == BodyChunks(ps, source)
  {
    chunks := [];
    var i := 0;
    while i < |ps|
      invariant 0 <= i <= |ps|
      invariant chunks == BodyChunks(ps[..i], source)
    {
      var part := ParagraphSentences(ps[i].sentences, source);
      TakeTake(ps, i);
      chunks := chunks + part;
      i := i + 1;
    }
    assert ps[..i] == ps;
  }

  /** `tei_to_chunks(tei_path)`: a missing file raises `FileNotFoundError`;
      otherwise the sections are numbered and one chunk is emitted per
      body sentence with non-empty cleaned text, whose meta is exactly
      `{source, type: "sentence"}`. */
  method TeiToChunks(path: string, file: TeiFile) returns (r: Result<seq<Doc>>)
    ensures file.Missing? ==> r == Err(FileNotFoundError(path))
    ensures r.Ok? <==> file.Parsed?
    ensures r.Ok? ==> r.value == BodyChunks(file.doc.bodyParas, path)
  {
    if file.Missing? {
      return Err(FileNotFoundError(path));
    }
    if file.Malformed? {
      return Err(SyntaxError("XML syntax error"));
    }
    var sections := AssignSectionIds(file.doc.bodyDivs);
    var chunks := CollectBody(file.doc.bodyParas, path);
    return Ok(chunks);
  }

  // ------------------------------------------------------------------
  // figure_caption_sentence
  // ------------------------------------------------------------------

  /** The stripped, non-blank pieces of a caption split on `". "`. */
  function CaptionPieces(text: string): (r: seq<string>)
    ensures forall i :: 0 <= i < |r| ==> r[i] != [] && NoOuterSpace(r[i])
    ensures forall x :: x in r <==> x != [] && exists p :: p in SplitOn(text, ". ") && Strip(p) == x
  {
    NonEmptyStrippedMembers(SplitOn(text, ". "));
    NonEmptyStripped(SplitOn(text, ". "))
  }

  /** A piece is kept exactly when it is the non-blank strip of some part. */
  lemma NonEmptyStrippedMembers(parts: seq<string>)
    ensures forall x :: x in NonEmptyStripped(parts) <==> x != [] && exists p :: p in parts && Strip(p) == x
  {
    forall x | x in NonEmptyStripped(parts)
      ensures exists p :: p in parts && Strip(p) == x
    {
      KeptIsStripped(parts, x);
    }
    forall x, p | x != [] && p in parts && Strip(p) == x
      ensures x in NonEmptyStripped(parts)
    {
      StrippedIsKept(parts, p);
    }
  }

  lemma {:induction false} KeptIsStripped(parts: seq<string>, x: string)
    requires x in NonEmptyStripped(parts)
    ensures exists p :: p in parts && Strip(p) == x
  {
    if Strip(parts[0]) != x {
      KeptIsStripped(parts[1..], x);
      var p :| p in parts[1..] && Strip(p) == x;
      assert p in parts;
    }
  }

  lemma {:induction false} StrippedIsKept(parts: seq<string>, p: string)
    requires p in parts && Strip(p) != []
    ensures Strip(p) in NonEmptyStripped(parts)
  {
    if p != parts[0] {
      assert p in parts[1..];
      StrippedIsKept(parts[1..], p);
    }
  }

  /** The pieces of earlier parts come first: the comprehension keeps the split's order. */
  lemma {:induction false} NonEmptyStrippedConcat(a: seq<string>, b: seq<string>)
    ensures NonEmptyStripped(a + b) == NonEmptyStripped(a) + NonEmptyStripped(b)
  {
    if a != [] {
      assert (a + b)[0] == a[0] && (a + b)[1..] == a[1..] + b;
      NonEmptyStrippedConcat(a[1..], b);
    } else {
      assert a + b == b;
    }
  }

  /** When no part is blank, piece i is exactly part i stripped. */
  lemma {:induction false} NonEmptyStrippedAllKept(parts: seq<string>)
    requires forall i :: 0 <= i < |parts| ==> Strip(parts[i]) != []
    ensures |NonEmptyStripped(parts)| == |parts|
    ensures forall i :: 0 <= i < |parts| ==> NonEmptyStripped(parts)[i] == Strip(parts[i])
  {
    if parts != [] {
      NonEmptyStrippedAllKept(parts[1..]);
    }
  }

  /** Cutting the split anywhere: the pieces before the cut come first, in order. */
  lemma CaptionPiecesOrder(text: string)
    ensures forall k :: 0 <= k <= |SplitOn(text, ". ")| ==>
      CaptionPieces(text) == NonEmptyStripped(SplitOn(text, ". ")[..k]) + NonEmptyStripped(SplitOn(text, ". ")[k..])
  {
    var parts := SplitOn(text, ". ");
    forall k | 0 <= k <= |parts|
      ensures CaptionPieces(text) == NonEmptyStripped(parts[..k]) + NonEmptyStripped(parts[k..])
    {
      assert parts == parts[..k] + parts[k..];
      NonEmptyStrippedConcat(parts[..k], parts[k..]);
    }
  }

  function NonEmptyStripped(parts: seq<string>): (r: seq<string>)
    ensures |r| <= |parts|
    ensures forall i :: 0 <= i < |r| ==> r[i] != [] && NoOuterSpace(r[i])
  {
    if parts == [] then []
    else
      var t := Strip(parts[0]);
      var rest := NonEmptyStripped(parts[1..]);
      if t != [] then [t] + rest else rest
  }

  /** A caption sentence ends in exactly one period. */
  function CaptionText(piece: string): (t: string)
    ensures |t| >= 1 && t[|t| - 1] == '.'
    ensures |t| >= 2 ==> t[|t| - 2] != '.'
  {
    RStripChar(piece, '.') + "."
  }

  function FigureMeta(counter: int, idx: nat): Fields {
    [("type", Str("figure")), ("fig_id", Int(counter)), ("sent_id", Int(idx))]
  }

  /** `figure_caption_sentence(text, counter)`. */
  method FigureCaptionSentence(text: string, counter: int) returns (chunks: seq<Doc>)
    ensures var ps := CaptionPieces(text);
      |chunks| == |ps|
      && forall i :: 0 <= i < |ps| ==>
        chunks[i] == TextDoc(CaptionText(ps[i]), FigureMeta(counter, i))
  {
    chunks := NumberCaptions(CaptionPieces(text), counter);
  }

  /** The `enumerate` loop of `figure_caption_sentence`. */
  method NumberCaptions(sentences: seq<string>, counter: int) returns (chunks: seq<Doc>)
    ensures |chunks| == |sentences|
    ensures forall i :: 0 <= i < |sentences| ==>
      chunks[i] == TextDoc(CaptionText(sentences[i]), FigureMeta(counter, i))
  {
    chunks := [];
    var idx := 0;
    while idx < |sentences|
      invariant 0 <= idx <= |sentences|
      invariant |chunks| == idx
      invariant forall i :: 0 <= i < idx ==>
        chunks[i] == TextDoc(CaptionText(sentences[i]), FigureMeta(counter, i))
    {
      chunks := chunks + [TextDoc(CaptionText(sentences[idx]), FigureMeta(counter, idx))];
      idx := idx + 1;
    }
  }

  // ------------------------------------------------------------------
  // tei_and_csv_to_documents
  // ------------------------------------------------------------------

  /** `df["Cited Year"].astype(int)`: the whole column converts or it
      raises; the missing column raises `KeyError`. */
  function YearColumn(rows: seq<Row>): (r: Result<seq<int>>)
    ensures r.Ok? ==> |r.value| == |rows|
    ensures r.Ok? ==> forall i :: 0 <= i < |rows| ==>
      "Cited Year" in rows[i] && AsInt(rows[i]["Cited Year"]) == Ok(r.value[i])
    decreases |rows|
  {
    if rows == [] then Ok([])
    else
      var cell :- Cell(rows[0], "Cited Year");
      var y :- AsInt(cell);
      var rest :- YearColumn(rows[1..]);
      assert forall i :: 1 <= i < |rows| ==> rows[i] == rows[1..][i - 1];
      Ok([y] + rest)
  }

  /** The document made from one CSV row and its converted year. */
  function CitingDoc(row: Row, year: int): (r: Result<Doc>)
    ensures r.Ok? <==> "tei_sentence" in row && "Cited Author" in row && "TEI File" in row
    ensures r.Ok? ==> r.value == Doc(PyStr(row["tei_sentence"]), [("id", row["TEI File"])],
                                     Some(row["Cited Author"]), Some(year), Some(row["TEI File"]))
  {
    var text :- Cell(row, "tei_sentence");
    var author :- Cell(row, "Cited Author");
    var teiFile :- Cell(row, "TEI File");
    Ok(Doc(PyStr(text), [("id", teiFile)], Some(author), Some(year), Some(teiFile)))
  }

  function CitingDocs(rows: seq<Row>, years: seq<int>): (r: Result<seq<Doc>>)
    requires |years| == |rows|
    ensures r.Ok? ==> |r.value| == |rows|
    ensures r.Ok? ==> forall i :: 0 <= i < |rows| ==> CitingDoc(rows[i], years[i]) == Ok(r.value[i])
    decreases |rows|
  {
    if rows == [] then Ok([])
    else
      var d :- CitingDoc(rows[0], years[0]);
      var rest :- CitingDocs(rows[1..], years[1..]);
      assert forall i :: 1 <= i < |rows| ==> rows[i] == rows[1..][i - 1] && years[i] == years[1..][i - 1];
      Ok([d] + rest)
  }

  /** The sentence chunks of all files, assuming all of them parse. */
  function AllBodyChunks(files: seq<XmlFile>): seq<Doc> {
    if files == [] then []
    else
      var last := files[|files| - 1];
      AllBodyChunks(files[..|files| - 1])
        + (if last.content.Parsed? then BodyChunks(last.content.doc.bodyParas, last.path) else [])
  }

  lemma AllBodyChunksSnoc(files: seq<XmlFile>, i: nat)
    requires i < |files| && files[i].content.Parsed?
    ensures AllBodyChunks(files[..i + 1])
      == AllBodyChunks(files[..i]) + BodyChunks(files[i].content.doc.bodyParas, files[i].path)
  {
    TakeTake(files, i);
  }

  /** The TEI half of the loader: every file in turn, stopping at the
      first that does not parse. */
  method CollectTei(files: seq<XmlFile>) returns (r: Result<seq<Doc>>)
    ensures r.Ok? <==> AllParsed(files)
    ensures r.Ok? ==> r.value == AllBodyChunks(files)
  {
    var teiDocs: seq<Doc> := [];
    var i := 0;
    while i < |files|
      invariant 0 <= i <= |files|
      invariant AllParsed(files[..i])
      invariant teiDocs == AllBodyChunks(files[..i])
    {
      var chunks := TeiToChunks(files[i].path, files[i].content);
      if chunks.Err? {
        AllParsedAt(files, i);
        return Err(chunks.error);
      }
      TakeTake(files, i);
      AllBodyChunksSnoc(files, i);
      teiDocs := teiDocs + chunks.value;
      i := i + 1;
    }
    assert files[..i] == files;
    return Ok(teiDocs);
  }

  /** When `tei_and_csv_to_documents` succeeds: every TEI file parses and
      the CSV has a readable `Cited Year` column and the citing columns. */
  predicate DocumentsOk(files: seq<XmlFile>, table: Table) {
    AllParsed(files)
    && "Cited Year" in table.columns && YearColumn(table.rows).Ok?
    && CitingDocs(table.rows, YearColumn(table.rows).value).Ok?
  }

  /** What it then returns: the TEI chunks, file by file, followed by one
      citing-sentence document per CSV row. */
  function Documents(files: seq<XmlFile>, table: Table): seq<Doc>
    requires DocumentsOk(files, table)
  {
    AllBodyChunks(files) + CitingDocs(table.rows, YearColumn(table.rows).value).value
  }

  /** `tei_and_csv_to_documents`: all TEI chunks first, in glob order, then
      one document per CSV row carrying text = `tei_sentence`, the author,
      the integer year, the TEI file and meta `{id: TEI File}`. */
  method TeiAndCsvToDocuments(files: seq<XmlFile>, table: Table) returns (r: Result<seq<Doc>>)
    ensures r.Ok? <==> DocumentsOk(files, table)
    ensures r.Ok? ==> r.value == Documents(files, table)
  {
    var tei := CollectTei(files);
    if tei.Err? {
      return Err(tei.error);
    }
    if "Cited Year" !in table.columns {
      return Err(KeyError("Cited Year"));
    }
    var years :- YearColumn(table.rows);
    var citing :- CitingDocs(table.rows, years);
    return Ok(tei.value + citing);
  }

  /** Every TEI chunk comes before every CSV document, and only the CSV
      documents carry an author and a year. */
  lemma {:induction false} TeiChunksHaveNoAuthor(files: seq<XmlFile>)
    ensures forall d :: d in AllBodyChunks(files) ==> d.author.None? && d.year.None?
    decreases |files|
  {
    if files != [] {
      TeiChunksHaveNoAuthor(files[..|files| - 1]);
      var last := files[|files| - 1];
      if last.content.Parsed? {
        BodyChunksHaveNoAuthor(last.content.doc.bodyParas, last.path);
      }
    }
  }

  lemma {:induction false} BodyChunksHaveNoAuthor(ps: seq<Para>, source: string)
    ensures forall d :: d in BodyChunks(ps, source) ==> d.author.None? && d.year.None?
    decreases |ps|
  {
    if ps != [] {
      BodyChunksHaveNoAuthor(ps[..|ps| - 1], source);
      KeepNonEmptyHaveNoAuthor(CleanAll(ps[|ps| - 1].sentences), source);
    }
  }

  lemma {:induction false} KeepNonEmptyHaveNoAuthor(texts: seq<string>, source: string)
    ensures forall d :: d in KeepNonEmpty(texts, source) ==> d.author.None? && d.year.None?
    decreases |texts|
  {
    if texts != [] {
      KeepNonEmptyHaveNoAuthor(texts[1..], source);
    }
  }
}
