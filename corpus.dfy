/** The documents the backend indexes, and the abstract TEI tree they are
    read from.  XML parsing itself is not modelled: a TEI file is given as
    the parts of its tree that the loaders look at. */
module Corpus {
  import opened Common
  import opened Values

  /** A chunk or CSV-derived document: `{"text", "meta"}` plus the
      optional top-level `author`, `year` and `tei_file` keys. */
  datatype Doc = Doc(text: string, meta: Fields, author: Option<Value>, year: Option<int>,
                     teiFile: Option<Value>)

  function TextDoc(text: string, meta: Fields): Doc {
    Doc(text, meta, None, None, None)
  }

  /** `<s xml:id=…>` with the concatenation of its text nodes. */
  datatype Sentence = Sentence(xmlId: Option<string>, text: string)

  /** A `<p>` inside the body, with the index (among the body divs) of its
      first `ancestor::div` result, and its `<s>` descendants. */
  datatype Para = Para(xmlId: Option<string>, ancestorDiv: Option<nat>, sentences: seq<Sentence>)

  /** A `<div>` inside the body. */
  datatype Div = Div(xmlId: Option<string>, divType: Option<string>, head: Option<string>)

  /** What the loaders read from a parsed TEI file: the text of every `<p>`
      in the whole document, and the body's divs and paragraphs, each in
      document order. */
  datatype TeiDoc = TeiDoc(paragraphTexts: seq<string>, bodyDivs: seq<Div>, bodyParas: seq<Para>)

  /** The outcome of opening and parsing the file at a path. */
  datatype TeiFile = Missing | Malformed | Parsed(doc: TeiDoc)

  /** A file found by `folder.glob("*.xml")`. */
  datatype XmlFile = XmlFile(path: string, content: TeiFile)

  /** Parsing a file that was found on disk: only malformed XML fails. */
  function ParseFound(f: XmlFile): (r: Result<TeiDoc>)
    ensures r.Ok? <==> f.content.Parsed?
  {
    match f.content
    case Parsed(d) => Ok(d)
    case Missing => Err(FileNotFoundError(f.path))
    case Malformed => Err(SyntaxError("XML syntax error"))
  }

  /** Every file parsed. */
  predicate AllParsed(files: seq<XmlFile>) {
    files == [] || (AllParsed(files[..|files| - 1]) && files[|files| - 1].content.Parsed?)
  }

  lemma {:induction false} AllParsedPrefix(files: seq<XmlFile>, n: nat)
    requires n <= |files| && AllParsed(files)
    ensures AllParsed(files[..n])
  {
    if n < |files| {
      assert files[..|files| - 1][..n] == files[..n];
      AllParsedPrefix(files[..|files| - 1], n);
    } else {
      assert files[..n] == files;
    }
  }

  lemma AllParsedAt(files: seq<XmlFile>, i: nat)
    requires i < |files|
    ensures AllParsed(files) ==> files[i].content.Parsed?
  {
    if AllParsed(files) {
      AllParsedPrefix(files, i + 1);
      assert files[..i + 1][i] == files[i];
    }
  }

  lemma {:induction false} AllParsedIff(files: seq<XmlFile>)
    ensures AllParsed(files) <==> forall i :: 0 <= i < |files| ==> files[i].content.Parsed?
  {
    if files != [] {
      AllParsedIff(files[..|files| - 1]);
    }
  }
}
