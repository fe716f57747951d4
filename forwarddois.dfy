/** forward-get-dois.py: the forward citation search.  Each input line
    names a cited work; OpenAlex and Google Scholar are asked for the works
    citing it, and the citation graph records the OpenAlex DOIs with a PDF
    link and the Scholar DOIs that OpenAlex missed.  The services are
    oracles; what is modelled is the line parsing, the keys, the link
    choice, the delta and the updates of the graph. */
module ForwardDois {
  import opened Common
  import opened Strs
  import opened Values

  // ------------------------------------------------------------------
  // the input line
  // ------------------------------------------------------------------

  /** A split has a second part exactly when the separator occurs. */
  lemma SplitTwoParts(s: string, sep: string)
    requires |sep| > 0
    ensures |SplitOn(s, sep)| >= 2 <==> Contains(s, sep)
  {
    IndexOfNone(s, sep);
    match IndexOf(s, sep)
    case None =>
    case Some(i) => SplitOnSome(s, sep, i);
  }

  /** The DOI part's clean-up: stripped, every `doi.org/` and then every
      `doi:` removed, stripped again. */
  function CleanDoi(part: string): (r: string)
    ensures NoOuterSpace(r)
  {
    Strip(ReplaceAll(ReplaceAll(Strip(part), "doi.org/", ""), "doi:", ""))
  }

  /** `parse_line`: `(None, None)` for a line without a comma, otherwise
      the stripped text before the first comma and the cleaned text between
      the first and the second comma. */
  function ParseLine(line: string): (r: Option<(string, string)>)
    ensures r.None? <==> !Contains(Strip(line), ",")
    ensures r.Some? ==> NoOuterSpace(r.value.0) && !Contains(r.value.0, ",") && NoOuterSpace(r.value.1)
  {
    var parts := SplitOn(Strip(line), ",");
    SplitTwoParts(Strip(line), ",");
    SplitOnPieces(Strip(line), ",");
    if |parts| < 2 then None
    else
      StripKeepsAbsent(parts[0], ",");
      Some((Strip(parts[0]), CleanDoi(parts[1])))
  }

  /** Stripping cannot create an occurrence. */
  lemma StripKeepsAbsent(s: string, sub: string)
    requires !Contains(s, sub)
    ensures !Contains(Strip(s), sub)
  {
    var a := StripAt(s);
    InfixKeepsAbsent(s, a, Strip(s), sub);
  }

  /** A slice holds no occurrence the whole does not. */
  lemma InfixKeepsAbsent(s: string, a: nat, r: string, sub: string)
    requires a + |r| <= |s| && r == s[a..a + |r|] && !Contains(s, sub)
    ensures !Contains(r, sub)
  {
    if Contains(r, sub) {
      ContainsInfix(s, a, a + |r|, sub);
    }
  }

  /** An occurrence in a slice is an occurrence in the whole. */
  lemma ContainsInfix(s: string, a: nat, b: nat, sub: string)
    requires a <= b <= |s| && Contains(s[a..b], sub)
    ensures Contains(s, sub)
  {
    var k := ContainsWhere(s[a..b], sub);
    assert s[a..b][k..][..|sub|] == s[a + k..][..|sub|];
    ContainsAt(s, sub, a + k);
  }

  /** Where an occurrence is. */
  lemma {:induction false} ContainsWhere(s: string, sub: string) returns (k: nat)
    requires Contains(s, sub)
    ensures k + |sub| <= |s| && StartsWith(s[k..], sub)
    decreases |s|
  {
    if StartsWith(s, sub) {
      k := 0;
    } else {
      var j := ContainsWhere(s[1..], sub);
      assert s[1..][j..] == s[j + 1..];
      k := j + 1;
    }
  }

  /** A line `author,doi` with no further comma parses back into its two
      parts. */
  lemma ParseTwoParts(a: string, b: string)
    requires !Contains(a, ",") && !Contains(b, ",")
    requires NoOuterSpace(a + "," + b)
    ensures ParseLine(a + "," + b) == Some((Strip(a), CleanDoi(b)))
  {
    StripNoOuterSpace(a + "," + b);
    SplitTwo(a, b, ',');
  }

  /** Splitting at a character that occurs once gives the two sides. */
  lemma SplitTwo(a: string, b: string, c: char)
    requires !Contains(a, [c]) && !Contains(b, [c])
    ensures SplitOn(a + [c] + b, [c]) == [a, b]
  {
    var line := a + [c] + b;
    SplitAt(a, b, c);
    IndexOfNone(b, [c]);
    assert line[..|a|] == a;
    assert line[|a| + 1..] == b;
    SplitOnSome(line, [c], |a|);
  }

  /** The first `c` of `a + [c] + b` is the one after `a`. */
  lemma {:induction false} SplitAt(a: string, b: string, c: char)
    requires !Contains(a, [c])
    ensures IndexOf(a + [c] + b, [c]) == Some(|a|)
    decreases |a|
  {
    var line := a + [c] + b;
    if a == [] {
      assert line[..1] == [c];
    } else {
      assert !StartsWith(a, [c]);
      assert line[..1] == [a[0]];
      assert a[1..] + [c] + b == line[1..];
      SplitAt(a[1..], b, c);
    }
  }

  /** A resolver-style DOI loses its prefix. */
  lemma CleanDoiResolver(d: string)
    requires d != [] && NoOuterSpace(d) && !Contains(d, "doi.org/") && !Contains(d, "doi:")
    ensures CleanDoi("doi.org/" + d) == d
  {
    var p := "doi.org/" + d;
    assert p[|p| - 1] == d[|d| - 1];
    StripNoOuterSpace(p);
    assert p[..8] == "doi.org/";
    assert p[8..] == d;
    assert ReplaceAll(p, "doi.org/", "") == ReplaceAll(d, "doi.org/", "");
    ReplaceAbsent(d, "doi.org/", "");
    ReplaceAbsent(d, "doi:", "");
    StripNoOuterSpace(d);
  }

  // ------------------------------------------------------------------
  // OpenAlex
  // ------------------------------------------------------------------

  /** `location.get("pdf_url")` when the location is truthy and so is its
      link; a truthy location that is not a dict has no `get`. */
  function LocationPdf(loc: Value): (r: Result<Option<Value>>)
    ensures !Truthy(loc) ==> r == Ok(None)
    ensures r.Ok? && r.value.Some? ==> Truthy(r.value.value)
  {
    if !Truthy(loc) then Ok(None)
    else if !loc.Obj? then Err(AttributeError)
    else
      var u := GetOr(loc.fields, "pdf_url", Null);
      if Truthy(u) then Ok(Some(u)) else Ok(None)
  }

  /** The link of a citing record: the best open-access location's, else
      the primary location's, else `None`. */
  function PdfLink(f: Fields): (r: Result<Value>)
  {
    var best :- LocationPdf(GetOr(f, "best_oa_location", Null));
    if best.Some? then Ok(best.value)
    else
      var primary :- LocationPdf(GetOr(f, "primary_location", Null));
      if primary.Some? then Ok(primary.value) else Ok(Null)
  }

  /** The best open-access link wins whenever there is one, and the primary
      one is used only when there is not. */
  lemma PdfLinkPrefersBest(f: Fields)
    requires LocationPdf(GetOr(f, "best_oa_location", Null)).Ok?
    ensures var best := LocationPdf(GetOr(f, "best_oa_location", Null)).value;
      (best.Some? ==> PdfLink(f) == Ok(best.value))
      && (best.None? ==> PdfLink(f) == match LocationPdf(GetOr(f, "primary_location", Null))
                                       case Ok(p) => Ok(if p.Some? then p.value else Null)
                                       case Err(e) => Err(e))
  {
  }

  /** What one citing record adds: nothing without a DOI, otherwise the
      lower-cased DOI with its link.  A DOI that is not a string has no
      `lower`. */
  function CitingEntry(rec: Value): (r: Result<Option<(string, Value)>>)
    ensures r.Ok? && r.value.Some? ==> Lower(r.value.value.0) == r.value.value.0
  {
    if !rec.Obj? then Err(AttributeError)
    else
      var raw := GetOr(rec.fields, "doi", Null);
      if !Truthy(raw) then Ok(None)
      else if !raw.Str? then Err(AttributeError)
      else
        var link :- PdfLink(rec.fields);
        LowerIdempotent(raw.s);
        Ok(Some((Lower(raw.s), link)))
  }

  /** Lower-casing twice is lower-casing once. */
  lemma {:induction false} LowerIdempotent(s: string)
    ensures Lower(Lower(s)) == Lower(s)
    decreases |s|
  {
    if s != [] {
      LowerIdempotent(s[1..]);
      assert Lower(s) == [LowerChar(s[0])] + Lower(s[1..]);
    }
  }

  /** The OpenAlex pass over the citing records: the `{doi, pdf_url}`
      entries in order and the set of DOIs. */
  function OpenalexPass(recs: seq<Value>): (r: Result<(seq<Value>, set<string>)>)
    decreases |recs|
  {
    if recs == [] then Ok(([], {}))
    else
      var e :- CitingEntry(recs[0]);
      var rest :- OpenalexPass(recs[1..]);
      match e
      case None => Ok(rest)
      case Some((d, link)) => Ok(([Obj([("doi", Str(d)), ("pdf_url", link)])] + rest.0, {d} + rest.1))
  }

  /** The DOI set holds exactly the DOIs of the entries. */
  lemma {:induction false} OpenalexDois(recs: seq<Value>)
    requires OpenalexPass(recs).Ok?
    ensures var (entries, dois) := OpenalexPass(recs).value;
      |entries| <= |recs|
      && (forall i :: 0 <= i < |entries| ==>
            entries[i].Obj? && |entries[i].fields| == 2 && entries[i].fields[0].0 == "doi"
            && entries[i].fields[0].1.Str? && entries[i].fields[0].1.s in dois)
      && (forall d :: d in dois ==> exists i :: 0 <= i < |entries| && entries[i].fields[0].1 == Str(d))
    decreases |recs|
  {
    if recs != [] {
      OpenalexDois(recs[1..]);
      var rest := OpenalexPass(recs[1..]).value;
      match CitingEntry(recs[0]).value
      case None =>
        assert OpenalexPass(recs).value == rest;
      case Some((d, link)) =>
        assert OpenalexPass(recs).value == ([Obj([("doi", Str(d)), ("pdf_url", link)])] + rest.0, {d} + rest.1);
        EntriesCons(d, link, rest.0, rest.1);
    }
  }

  /** One more `{doi, pdf_url}` entry in front keeps the entries and the
      DOI set in step. */
  lemma EntriesCons(d: string, link: Value, rest: seq<Value>, dois: set<string>)
    requires (forall i :: 0 <= i < |rest| ==>
                rest[i].Obj? && |rest[i].fields| == 2 && rest[i].fields[0].0 == "doi"
                && rest[i].fields[0].1.Str? && rest[i].fields[0].1.s in dois)
      && (forall x :: x in dois ==> exists i :: 0 <= i < |rest| && rest[i].fields[0].1 == Str(x))
    ensures var entries := [Obj([("doi", Str(d)), ("pdf_url", link)])] + rest;
      (forall i :: 0 <= i < |entries| ==>
         entries[i].Obj? && |entries[i].fields| == 2 && entries[i].fields[0].0 == "doi"
         && entries[i].fields[0].1.Str? && entries[i].fields[0].1.s in {d} + dois)
      && (forall x :: x in {d} + dois ==> exists i :: 0 <= i < |entries| && entries[i].fields[0].1 == Str(x))
  {
    var entries := [Obj([("doi", Str(d)), ("pdf_url", link)])] + rest;
    assert forall i :: 0 < i < |entries| ==> entries[i] == rest[i - 1];
    forall x | x in {d} + dois
      ensures exists i :: 0 <= i < |entries| && entries[i].fields[0].1 == Str(x)
    {
      if x == d {
        assert entries[0].fields[0].1 == Str(x);
      } else {
        var j :| 0 <= j < |rest| && rest[j].fields[0].1 == Str(x);
        assert entries[j + 1] == rest[j];
      }
    }
  }

  /** The loop over the citing records, adding to the DOI set and
      appending to the key's `openalex` list. */
  method CollectOpenalex(recs: seq<Value>) returns (r: Result<(seq<Value>, set<string>)>)
    ensures r == OpenalexPass(recs)
  {
    var entries: seq<Value> := [];
    var dois: set<string> := {};
    var i := 0;
    assert recs[i..] == recs;
    OpenalexJoinNil(OpenalexPass(recs));
    while i < |recs|
      invariant 0 <= i <= |recs|
      invariant OpenalexPass(recs) == OpenalexJoin(entries, dois, OpenalexPass(recs[i..]))
    {
      OpenalexCons(recs, i);
      var e :- CitingEntry(recs[i]);
      if e.Some? {
        var (d, link) := e.value;
        OpenalexJoinStep(entries, dois, d, link, OpenalexPass(recs[i + 1..]));
        entries := entries + [Obj([("doi", Str(d)), ("pdf_url", link)])];
        dois := dois + {d};
      }
      i := i + 1;
    }
    assert recs[i..] == [];
    assert entries + [] == entries;
    return Ok((entries, dois));
  }

  /** The part collected so far before what the rest of the records add. */
  function OpenalexJoin(entries: seq<Value>, dois: set<string>, r: Result<(seq<Value>, set<string>)>)
    : Result<(seq<Value>, set<string>)>
  {
    if r.Ok? then Ok((entries + r.value.0, dois + r.value.1)) else r
  }

  lemma OpenalexJoinNil(r: Result<(seq<Value>, set<string>)>)
    ensures OpenalexJoin([], {}, r) == r
  {
    if r.Ok? {
      assert [] + r.value.0 == r.value.0;
      assert {} + r.value.1 == r.value.1;
    }
  }

  /** Unfolding the pass at one record. */
  lemma OpenalexCons(recs: seq<Value>, i: nat)
    requires i < |recs|
    ensures OpenalexPass(recs[i..]) == match CitingEntry(recs[i])
      case Err(e) => Err(e)
      case Ok(None) => OpenalexPass(recs[i + 1..])
      case Ok(Some((d, link))) =>
        OpenalexJoin([Obj([("doi", Str(d)), ("pdf_url", link)])], {d}, OpenalexPass(recs[i + 1..]))
  {
    assert recs[i..][0] == recs[i] && recs[i..][1..] == recs[i + 1..];
  }

  /** Moving one entry into the collected part. */
  lemma OpenalexJoinStep(entries: seq<Value>, dois: set<string>, d: string, link: Value,
                         r: Result<(seq<Value>, set<string>)>)
    ensures OpenalexJoin(entries, dois, OpenalexJoin([Obj([("doi", Str(d)), ("pdf_url", link)])], {d}, r))
      == OpenalexJoin(entries + [Obj([("doi", Str(d)), ("pdf_url", link)])], dois + {d}, r)
  {
    if r.Ok? {
      var x := Obj([("doi", Str(d)), ("pdf_url", link)]);
      assert entries + ([x] + r.value.0) == (entries + [x]) + r.value.0;
      assert dois + ({d} + r.value.1) == (dois + {d}) + r.value.1;
    }
  }

  // ------------------------------------------------------------------
  // Google Scholar
  // ------------------------------------------------------------------

  /** The fallback key of a Scholar record with neither DOI nor URL. */
  const NoDoi := "no_doi"

  /** `citing_pub["bib"]["doi"]` when both dicts hold the key, else
      `None`. */
  function BibDoi(pub: Value): Value {
    var bib := if pub.Obj? then GetOr(pub.fields, "bib", Null) else Null;
    if bib.Obj? then GetOr(bib.fields, "doi", Null) else Null
  }

  /** `doi_val.lower()`: `None` when the value has no `lower`. */
  function LowerKey(v: Value): (r: Option<string>)
    ensures r.Some? <==> v.Str?
    ensures r.Some? ==> r.value == Lower(v.s) && Lower(r.value) == r.value
  {
    if v.Str? then
      LowerIdempotent(v.s);
      Some(Lower(v.s))
    else None
  }

  /** The key of a filled citing publication: its `bib.doi` when truthy,
      else its `pub_url`, else `"no_doi"`, lower-cased; `None` when the key
      has no `lower` (the exception ends the collection). */
  function ScholarKey(pub: Value): (r: Option<string>)
    ensures r.Some? ==> Lower(r.value) == r.value
    ensures Truthy(BibDoi(pub)) ==> r == LowerKey(BibDoi(pub))
    ensures !Truthy(BibDoi(pub)) && pub.Obj? && HasKey(pub.fields, "pub_url") ==>
      r == LowerKey(Get(pub.fields, "pub_url").value)
    ensures !Truthy(BibDoi(pub)) && !(pub.Obj? && HasKey(pub.fields, "pub_url")) ==> r == Some(NoDoi)
  {
    var doi := BibDoi(pub);
    var key := if Truthy(doi) then doi
               else if pub.Obj? then GetOr(pub.fields, "pub_url", Str(NoDoi))
               else Str(NoDoi);
    NoDoiLower();
    LowerKey(key)
  }

  /** `"no_doi"` is already lower-case. */
  lemma NoDoiLower()
    ensures Lower(NoDoi) == NoDoi
  {
    assert forall i :: 0 <= i < |NoDoi| ==> LowerChar(NoDoi[i]) == NoDoi[i];
  }

  /** `get_scholarly_citing_records` as a key set: the keys of the
      publications up to the first one whose key raises, which the
      `except` turns into the end of the collection. */
  function ScholarKeys(pubs: seq<Value>): (r: set<string>)
    ensures forall k :: k in r ==> Lower(k) == k
    decreases |pubs|
  {
    if pubs == [] then {}
    else
      match ScholarKey(pubs[0])
      case None => {}
      case Some(k) => {k} + ScholarKeys(pubs[1..])
  }

  /** The Scholar records that OpenAlex did not return. */
  function Additional(scholar: set<string>, openalex: set<string>): (r: set<string>)
    ensures forall d :: d in r <==> d in scholar && d !in openalex
  {
    scholar - openalex
  }

  /** The additional DOIs kept, in the order the set is iterated:
      `"no_doi"` is skipped and a DOI is kept when its BibTeX is found. */
  function Filter(order: seq<string>, bibtex: string -> bool): (r: seq<string>)
    ensures forall d :: d in r <==> d in order && d != NoDoi && bibtex(d)
    ensures |r| <= |order|
    decreases |order|
  {
    if order == [] then []
    else
      var init := order[..|order| - 1];
      var rest := Filter(init, bibtex);
      var last := order[|order| - 1];
      assert order == init + [last];
      if last != NoDoi && bibtex(last) then rest + [last] else rest
  }

  /** The loop over the additional DOIs, writing each found BibTeX and
      appending its DOI. */
  method ExtraDois(order: seq<string>, bibtex: string -> bool) returns (extra: seq<string>)
    ensures extra == Filter(order, bibtex)
  {
    extra := [];
    for i := 0 to |order|
      invariant extra == Filter(order[..i], bibtex)
    {
      FilterSnoc(order, i, bibtex);
      if order[i] == NoDoi {
        continue;
      }
      if bibtex(order[i]) {
        extra := extra + [order[i]];
      }
    }
    TakeAll(order);
  }

  /** The filter over one more DOI. */
  lemma FilterSnoc(order: seq<string>, i: nat, bibtex: string -> bool)
    requires i < |order|
    ensures Filter(order[..i + 1], bibtex)
      == Filter(order[..i], bibtex) + (if order[i] != NoDoi && bibtex(order[i]) then [order[i]] else [])
  {
    TakeTake(order, i);
  }

  /** `order(s)` lists exactly the elements of `s`. */
  ghost predicate Enumerates(order: set<string> -> seq<string>, s: set<string>) {
    forall x :: x in order(s) <==> x in s
  }

  /** When the set is iterated once per element, the extra DOIs are
      exactly the Scholar keys missing from OpenAlex, without `"no_doi"`,
      whose BibTeX was found. */
  lemma ExtraIsDelta(order: seq<string>, scholar: set<string>, openalex: set<string>,
                     bibtex: string -> bool)
    requires forall d :: d in order <==> d in Additional(scholar, openalex)
    ensures forall d :: d in Filter(order, bibtex) <==>
      d in scholar && d !in openalex && d != NoDoi && bibtex(d)
  {
  }

  /** `ExtraIsDelta` for an `order` that enumerates the set it is given. */
  lemma EnumeratedDelta(order: set<string> -> seq<string>, scholar: set<string>, openalex: set<string>,
                        bibtex: string -> bool)
    ensures Enumerates(order, Additional(scholar, openalex)) ==>
      forall x :: x in Filter(order(Additional(scholar, openalex)), bibtex) <==>
        x in scholar && x !in openalex && x != NoDoi && bibtex(x)
  {
    if Enumerates(order, Additional(scholar, openalex)) {
      ExtraIsDelta(order(Additional(scholar, openalex)), scholar, openalex, bibtex);
    }
  }

  // ------------------------------------------------------------------
  // the citation graph
  // ------------------------------------------------------------------

  /** What the services answer: the OpenAlex work for a DOI (`None` when
      the status is not 200, an error when the request or its JSON decoding
      raises), the citing records for a work id (an error when a page's
      request, its JSON decoding or its `get` raises), whether Scholar
      finds the publication, the citing publications Scholar delivers
      before any failure, whether a DOI's BibTeX is found, and the order in
      which a set of DOIs is iterated.  Python iterates every element of a
      set once; `order` is an arbitrary oracle, and the statements that
      rely on it listing the set say so with `Enumerates`. */
  datatype Services = Services(work: string -> Result<Option<Value>>, citing: Value -> Result<seq<Value>>,
                               found: string -> bool, citedBy: string -> seq<Value>,
                               bibtex: string -> bool, order: set<string> -> seq<string>)

  /** An entry of the graph. */
  function Entry(openalex: seq<Value>, extra: seq<string>): (r: Value)
    ensures r.Obj? && Get(r.fields, "openalex") == Some(List(openalex))
    ensures var x := Get(r.fields, "scholarly_extra");
      x.Some? && x.value.List? && |x.value.items| == |extra|
      && forall i :: 0 <= i < |extra| ==> x.value.items[i] == Str(extra[i])
  {
    var f := [("openalex", List(openalex)), ("scholarly_extra", List(seq(|extra|, i requires 0 <= i < |extra| => Str(extra[i]))))];
    assert f[1..] == [f[1]];
    assert f[0].0 != "scholarly_extra";
    Obj(f)
  }

  /** The OpenAlex half of an entry: nothing when the work is not found
      (or is empty), otherwise the pass over the works citing its id; a
      work that is not a dict has no `get`, and an exception of either
      query ends the run. */
  function OpenalexPart(d: string, sv: Services): (r: Result<(seq<Value>, set<string>)>)
    ensures sv.work(d).Err? ==> r == Err(sv.work(d).error)
    ensures sv.work(d).Ok? && (sv.work(d).value.None? || !Truthy(sv.work(d).value.value)) ==> r == Ok(([], {}))
    ensures sv.work(d).Ok? && sv.work(d).value.Some? && Truthy(sv.work(d).value.value) ==>
      (!sv.work(d).value.value.Obj? ==> r == Err(AttributeError))
      && (sv.work(d).value.value.Obj? && sv.citing(GetOr(sv.work(d).value.value.fields, "id", Null)).Err? ==>
            r == Err(sv.citing(GetOr(sv.work(d).value.value.fields, "id", Null)).error))
      && (sv.work(d).value.value.Obj? && sv.citing(GetOr(sv.work(d).value.value.fields, "id", Null)).Ok? ==>
            r == OpenalexPass(sv.citing(GetOr(sv.work(d).value.value.fields, "id", Null)).value))
  {
    var found :- sv.work(d);
    match found
    case Some(work) =>
      if !Truthy(work) then Ok(([], {}))
      else if !work.Obj? then Err(AttributeError)
      else
        var records :- sv.citing(GetOr(work.fields, "id", Null));
        OpenalexPass(records)
    case None => Ok(([], {}))
  }

  /** The Scholar half: nothing when the publication is not found,
      otherwise the kept DOIs among those OpenAlex missed. */
  function ScholarPart(d: string, dois: set<string>, sv: Services): (r: seq<string>)
    ensures !sv.found(d) ==> r == []
    ensures sv.found(d) && Enumerates(sv.order, Additional(ScholarKeys(sv.citedBy(d)), dois)) ==>
      forall x :: x in r <==> x in ScholarKeys(sv.citedBy(d)) && x !in dois && x != NoDoi && sv.bibtex(x)
  {
    EnumeratedDelta(sv.order, ScholarKeys(sv.citedBy(d)), dois, sv.bibtex);
    if !sv.found(d) then []
    else Filter(sv.order(Additional(ScholarKeys(sv.citedBy(d)), dois)), sv.bibtex)
  }

  /** `citation_graph[f"{author}: {doi}"]` after `process_doi` for a DOI
      that is not blank, or the exception that ends the run. */
  function DoiEntry(doi: string, sv: Services): (r: Result<Value>)
    ensures r.Err? <==> OpenalexPart(Strip(doi), sv).Err?
    ensures r.Ok? ==> r.value.Obj? && HasKey(r.value.fields, "openalex") && HasKey(r.value.fields, "scholarly_extra")
    ensures sv.work(Strip(doi)).Err? ==> r == Err(sv.work(Strip(doi)).error)
    ensures sv.work(Strip(doi)).Ok? && (sv.work(Strip(doi)).value.None? || !Truthy(sv.work(Strip(doi)).value.value)) ==>
      r.Ok? &&
      Get(r.value.fields, "openalex") == Some(List([]))
    ensures r.Ok? && !sv.found(Strip(doi)) ==> Get(r.value.fields, "scholarly_extra") == Some(List([]))
  {
    var d := Strip(doi);
    var p := OpenalexPart(d, sv);
    if p.Err? then Err(p.error)
    else Ok(Entry(p.value.0, ScholarPart(d, p.value.1, sv)))
  }

  /** The key of an input's entry. */
  function GraphKey(author: string, doi: string): string {
    author + ": " + Strip(doi)
  }

  /** One line of the input file: a line whose author and DOI are both
      non-empty sets the entry of its key; any other line is skipped. */
  function LineStep(g: Fields, line: string, sv: Services): (r: Result<Fields>)
    ensures ParseLine(line).None? ==> r == Ok(g)
  {
    var p := ParseLine(line);
    if p.Some? && p.value.0 != [] && p.value.1 != [] then
      var e :- DoiEntry(p.value.1, sv);
      Ok(SetField(g, GraphKey(p.value.0, p.value.1), e))
    else Ok(g)
  }

  /** A line with a non-empty author and DOI sets the entry of its key. */
  lemma LineStepNamed(g: Fields, line: string, sv: Services, author: string, doi: string)
    requires ParseLine(line) == Some((author, doi)) && author != [] && doi != []
    ensures DoiEntry(doi, sv).Err? ==> LineStep(g, line, sv).Err?
    ensures DoiEntry(doi, sv).Ok? ==>
      LineStep(g, line, sv) == Ok(SetField(g, GraphKey(author, doi), DoiEntry(doi, sv).value))
  {
  }

  /** What `process_doi` promises for a named line is the line's step. */
  lemma NamedLineOutcome(g: Fields, line: string, sv: Services, author: string, doi: string,
                         r: Result<()>, g': Fields)
    requires ParseLine(line) == Some((author, doi)) && author != [] && doi != []
    requires Strip(doi) != [] ==> (r.Ok? <==> DoiEntry(doi, sv).Ok?)
    requires Strip(doi) != [] && r.Ok? ==> g' == SetField(g, GraphKey(author, doi), DoiEntry(doi, sv).value)
    ensures r.Ok? <==> LineStep(g, line, sv).Ok?
    ensures r.Ok? ==> g' == LineStep(g, line, sv).value
  {
    StripNoOuterSpace(doi);
    assert Strip(doi) != [];
    LineStepNamed(g, line, sv, author, doi);
    if DoiEntry(doi, sv).Ok? {
      assert r.Ok? && LineStep(g, line, sv) == Ok(SetField(g, GraphKey(author, doi), DoiEntry(doi, sv).value));
    } else {
      assert r.Err? && LineStep(g, line, sv).Err?;
    }
  }

  /** Any other line leaves the graph as it is. */
  lemma LineStepSkipped(g: Fields, line: string, sv: Services)
    requires ParseLine(line).None? || ParseLine(line).value.0 == [] || ParseLine(line).value.1 == []
    ensures LineStep(g, line, sv) == Ok(g)
  {
  }

  /** The graph after the lines, or the error that ends the run. */
  function RunGraph(g: Fields, lines: seq<string>, sv: Services): Result<Fields>
    decreases |lines|
  {
    if lines == [] then Ok(g)
    else
      var g' :- LineStep(g, lines[0], sv);
      RunGraph(g', lines[1..], sv)
  }

  /** A line names a key when it parses into a non-empty author and DOI. */
  predicate Names(line: string, key: string) {
    var p := ParseLine(line);
    p.Some? && p.value.0 != [] && p.value.1 != [] && key == GraphKey(p.value.0, p.value.1)
  }

  /** One line keeps the keys unique, keeps every key, and adds at most
      the key it names. */
  lemma StepKeys(g: Fields, line: string, sv: Services)
    requires UniqueKeys(g) && LineStep(g, line, sv).Ok?
    ensures var h := LineStep(g, line, sv).value;
      UniqueKeys(h)
      && (forall k :: HasKey(g, k) ==> HasKey(h, k))
      && (forall k :: HasKey(h, k) ==> HasKey(g, k) || Names(line, k))
  {
    var h := LineStep(g, line, sv).value;
    var p := ParseLine(line);
    if p.Some? && p.value.0 != [] && p.value.1 != [] {
      var (author, doi) := p.value;
      LineStepNamed(g, line, sv, author, doi);
      var key := GraphKey(author, doi);
      PutUnique(g, key, DoiEntry(doi, sv).value);
      forall k | HasKey(h, k) && k != key ensures HasKey(g, k) {
        assert Get(h, k).Some?;
      }
      forall k | HasKey(g, k) ensures HasKey(h, k) {
        if k != key { assert Get(g, k).Some?; }
      }
    } else {
      LineStepSkipped(g, line, sv);
    }
  }

  /** The run keeps the keys unique, keeps every key it started from, and
      adds only the keys the lines name. */
  lemma {:induction false} RunKeys(g: Fields, lines: seq<string>, sv: Services)
    requires UniqueKeys(g) && RunGraph(g, lines, sv).Ok?
    ensures var h := RunGraph(g, lines, sv).value;
      UniqueKeys(h)
      && (forall k :: HasKey(g, k) ==> HasKey(h, k))
      && (forall k :: HasKey(h, k) ==> HasKey(g, k) || exists i :: 0 <= i < |lines| && Names(lines[i], k))
    decreases |lines|
  {
    if lines != [] {
      var g' := LineStep(g, lines[0], sv).value;
      StepKeys(g, lines[0], sv);
      RunKeys(g', lines[1..], sv);
      assert RunGraph(g, lines, sv) == RunGraph(g', lines[1..], sv);
      KeysThroughStep(g, g', RunGraph(g', lines[1..], sv).value, lines);
    }
  }

  /** Chaining what the first line and the rest of the run do to the keys. */
  lemma KeysThroughStep(g: Fields, g': Fields, h: Fields, lines: seq<string>)
    requires lines != []
    requires forall k :: HasKey(g, k) ==> HasKey(g', k)
    requires forall k :: HasKey(g', k) ==> HasKey(g, k) || Names(lines[0], k)
    requires forall k :: HasKey(g', k) ==> HasKey(h, k)
    requires forall k :: HasKey(h, k) ==> HasKey(g', k) || exists i :: 0 <= i < |lines[1..]| && Names(lines[1..][i], k)
    ensures forall k :: HasKey(g, k) ==> HasKey(h, k)
    ensures forall k :: HasKey(h, k) ==> HasKey(g, k) || exists i :: 0 <= i < |lines| && Names(lines[i], k)
  {
    forall k | HasKey(h, k) && !HasKey(g, k)
      ensures exists i :: 0 <= i < |lines| && Names(lines[i], k)
    {
      if !Names(lines[0], k) {
        var i :| 0 <= i < |lines[1..]| && Names(lines[1..][i], k);
        assert lines[i + 1] == lines[1..][i];
      }
    }
  }

  /** The OpenAlex query of `process_doi` with its loop over the citing
      records. */
  method QueryOpenalex(d: string, sv: Services) returns (r: Result<(seq<Value>, set<string>)>)
    ensures r == OpenalexPart(d, sv)
  {
    var work :- sv.work(d);
    if work.None? || !Truthy(work.value) {
      return Ok(([], {}));
    }
    if !work.value.Obj? {
      return Err(AttributeError);
    }
    var records :- sv.citing(GetOr(work.value.fields, "id", Null));
    r := CollectOpenalex(records);
  }

  /** The citation graph of the run: the global dict that `process_doi`
      fills. */
  class CitationGraph {
    var graph: Fields

    /** `citation_graph = {}` at import time. */
    constructor ()
      ensures graph == []
    {
      graph := [];
    }

    /** `process_doi(doi, author)`: nothing for a blank DOI; otherwise the
        key's entry is (re)set and filled, the OpenAlex part first.  A
        raised exception ends the run, and the graph is then never
        written. */
    method ProcessDoi(doi: string, author: string, sv: Services) returns (r: Result<()>)
      modifies this
      ensures Strip(doi) == [] ==> r.Ok? && graph == old(graph)
      ensures Strip(doi) != [] ==> (r.Ok? <==> DoiEntry(doi, sv).Ok?)
      ensures Strip(doi) != [] && r.Ok? ==>
        graph == SetField(old(graph), GraphKey(author, doi), DoiEntry(doi, sv).value)
    {
      var d := Strip(doi);
      if d == [] {
        return Ok(());
      }
      var key := author + ": " + d;
      graph := SetField(graph, key, Entry([], []));
      var oa :- QueryOpenalex(d, sv);
      graph := SetField(graph, key, Entry(oa.0, []));
      SetTwice(old(graph), key, Entry([], []), Entry(oa.0, []));
      if !sv.found(d) {
        return Ok(());
      }
      var additional := Additional(ScholarKeys(sv.citedBy(d)), oa.1);
      var extra := ExtraDois(sv.order(additional), sv.bibtex);
      graph := SetField(graph, key, Entry(oa.0, extra));
      SetTwice(old(graph), key, Entry(oa.0, []), Entry(oa.0, extra));
      r := Ok(());
    }

    /** The body of `main`'s line loop: a line with an author and a DOI
        is processed, any other line is skipped. */
    method ProcessLine(line: string, sv: Services) returns (r: Result<()>)
      modifies this
      ensures r.Ok? <==> LineStep(old(graph), line, sv).Ok?
      ensures r.Ok? ==> graph == LineStep(old(graph), line, sv).value
    {
      var p := ParseLine(line);
      if p.Some? && p.value.0 != [] && p.value.1 != [] {
        ghost var g := graph;
        r := ProcessDoi(p.value.1, p.value.0, sv);
        NamedLineOutcome(g, line, sv, p.value.0, p.value.1, r, graph);
      } else {
        LineStepSkipped(graph, line, sv);
        r := Ok(());
      }
    }

    /** `main` after the file is read: every line is parsed and the valid
        ones are processed in order; the graph is then written out. */
    method Run(lines: seq<string>, sv: Services) returns (r: Result<()>)
      modifies this
      ensures r.Ok? <==> RunGraph(old(graph), lines, sv).Ok?
      ensures r.Ok? ==> graph == RunGraph(old(graph), lines, sv).value
    {
      var i := 0;
      while i < |lines|
        invariant 0 <= i <= |lines|
        invariant RunGraph(old(graph), lines, sv) == RunGraph(graph, lines[i..], sv)
      {
        RunGraphAt(graph, lines, i, sv);
        var step := ProcessLine(lines[i], sv);
        if step.Err? {
          return Err(step.error);
        }
        i := i + 1;
      }
      return Ok(());
    }
  }

  /** Unfolding the run at one line. */
  lemma RunGraphAt(g: Fields, lines: seq<string>, i: nat, sv: Services)
    requires i < |lines|
    ensures LineStep(g, lines[i], sv).Err? ==> RunGraph(g, lines[i..], sv).Err?
    ensures LineStep(g, lines[i], sv).Ok? ==>
      RunGraph(g, lines[i..], sv) == RunGraph(LineStep(g, lines[i], sv).value, lines[i + 1..], sv)
  {
    SuffixCons(lines, i);
  }

  /** Setting a key twice is setting it to the second value. */
  lemma SetTwice(f: Fields, k: string, a: Value, b: Value)
    ensures SetField(SetField(f, k, a), k, b) == SetField(f, k, b)
  {
    PutTwice(f, k, a, b);
  }

  lemma {:induction false} PutTwice(f: Fields, k: string, a: Value, b: Value)
    ensures Put(Put(f, k, a), k, b) == Put(f, k, b)
  {
    if f != [] && f[0].0 != k {
      PutTwice(f[1..], k, a, b);
      assert Put(f, k, a)[1..] == Put(f[1..], k, a);
    }
  }
}
