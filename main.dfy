/** The FastAPI backend: the shared `results` tree and `retrievers`
    registry, the per-sentence worker that queries a paper's index,
    adjudicates the chosen passages and nests the outcome into the tree,
    the `/progress` check and the `/prebuild` registry refresh.  Embedding,
    search, the NLI classifier, the completion endpoint and JSON encoding
    are oracles, gathered in `Services`. */
module Backend {
  import opened Common
  import opened Strs
  import opened Values
  import opened Corpus
  import opened BlClient
  import Utils
  import Nli
  import Parser
  import Retrieval

  /** The oracles the worker calls, and the `BLABLADOR_BASE` environment
      value. */
  datatype Services = Services(embed: Retrieval.Embed, search: Retrieval.Search,
                               classify: Nli.Classify, dump: Utils.Dump, parse: Utils.Parse,
                               post: Transport, envBase: Option<string>)

  // ------------------------------------------------------------------
  // the result tree
  // ------------------------------------------------------------------

  /** `best_evidence_id` and `llm_rationale`, present only when the
      justification step ran. */
  datatype Justification = Justification(bestId: Value, rationale: Value)

  /** `{"segment_id", "claim", "quoted_evidence"}` plus the optional
      justification keys. */
  datatype Segment = Segment(segmentId: string, claim: string, evidence: seq<Fields>,
                             justification: Option<Justification>)

  /** `sent_result`: the CSV sentence and one segment per claim. */
  datatype SentResult = SentResult(text: Value, segments: seq<Segment>)

  /** A node of `citing_papers`. */
  datatype CitingPaper = CitingPaper(title: string, id: string, sentences: seq<SentResult>)

  /** A node of `results`, keyed by the paper key. */
  datatype Paper = Paper(title: string, id: string, doi: Value, citingPapers: map<string, CitingPaper>)

  type Results = map<string, Paper>

  // ------------------------------------------------------------------
  // paper keys and registry lookup
  // ------------------------------------------------------------------

  /** `_paper_key(author, year)`: `f"{author}-{year}"` on the raw CSV
      cells. */
  function PaperKey(author: Value, year: Value): string {
    PyStr(author) + "-" + PyStr(year)
  }

  /** The worker's key for an integer year is the key `build_all` gives the
      CSV document of that row, so the row finds its per-paper index. */
  lemma PaperKeyMatchesIndexKey(row: Row, year: int)
    requires Parser.CitingDoc(row, year).Ok? && "Cited Year" in row && row["Cited Year"] == Int(year)
    ensures Retrieval.PaperKey(Parser.CitingDoc(row, year).value)
         == Some(PaperKey(row["Cited Author"], row["Cited Year"]))
  {
  }

  /** A year cell that pandas read as a float prints with `.0`, so its key
      never equals the integer key `build_all` registered and the worker
      falls back to `"default"`. */
  lemma FloatYearMissesIndexKey(author: Value, year: int)
    ensures PaperKey(author, Num(year as real)) != PaperKey(author, Int(year))
  {
    assert (year as real).Floor == year;
    assert |PaperKey(author, Num(year as real))| == |PaperKey(author, Int(year))| + 2;
  }

  /** `retrievers.get(key) or retrievers.get("default")`, raising
      `KeyError` when both are absent. */
  function Lookup(retrievers: map<string, Retrieval.Retriever>, key: string)
    : (r: Result<Retrieval.Retriever>)
    ensures key in retrievers ==> r == Ok(retrievers[key])
    ensures key !in retrievers && "default" in retrievers ==> r == Ok(retrievers["default"])
    ensures r.Err? <==> key !in retrievers && "default" !in retrievers
    ensures r.Err? ==> r.error == KeyError("Retriever for " + key + " not built")
    ensures r.Ok? ==> r.value in retrievers.Values
  {
    if key in retrievers then Ok(retrievers[key])
    else if "default" in retrievers then Ok(retrievers["default"])
    else Err(KeyError("Retriever for " + key + " not built"))
  }

  // ------------------------------------------------------------------
  // candidate selection
  // ------------------------------------------------------------------

  const QueryK := 12
  const ChosenCount := 6

  predicate IsSentence(m: Retrieval.Match) {
    Get(m.meta, "type") == Some(Str("sentence"))
  }

  /** `[c for c in candidates if c["meta"].get("type") == "sentence"]`. */
  function SentenceHits(cands: seq<Retrieval.Match>): (r: seq<Retrieval.Match>)
    ensures |r| <= |cands|
    ensures forall j :: 0 <= j < |r| ==> IsSentence(r[j])
    decreases |cands|
  {
    if cands == [] then []
    else
      var init := SentenceHits(cands[..|cands| - 1]);
      if IsSentence(cands[|cands| - 1]) then init + [cands[|cands| - 1]] else init
  }

  /** The sentence hits are exactly the sentence-type candidates. */
  lemma {:induction false} SentenceHitsMembers(cands: seq<Retrieval.Match>, m: Retrieval.Match)
    ensures m in SentenceHits(cands) <==> m in cands && IsSentence(m)
    decreases |cands|
  {
    if cands != [] {
      var init := cands[..|cands| - 1];
      SentenceHitsMembers(init, m);
      assert cands == init + [cands[|cands| - 1]];
    }
  }

  /** Up to six sentence hits, backfilled from the head of the full
      candidate list. */
  function SelectCandidates(cands: seq<Retrieval.Match>): (r: seq<Retrieval.Match>)
    ensures |r| <= ChosenCount
  {
    var s := SentenceHits(cands);
    if |s| >= ChosenCount then s[..ChosenCount]
    else s + cands[..Min(ChosenCount - |s|, |cands|)]
  }

  /** With n sentence hits the choice holds `n + min(6 - n, len)`
      items. */
  lemma SelectCandidatesLength(cands: seq<Retrieval.Match>)
    ensures |SelectCandidates(cands)| == |SentenceHits(cands)| + Min(ChosenCount - |SentenceHits(cands)|, |cands|)
  {
    var s := SentenceHits(cands);
    if |s| >= ChosenCount {
      assert SelectCandidates(cands) == s[..ChosenCount];
    } else {
      assert SelectCandidates(cands) == s + cands[..Min(ChosenCount - |s|, |cands|)];
    }
  }

  /** The first `min(n, 6)` chosen items are the first sentence hits in
      query order, and any others are the head of the full candidate
      list. */
  lemma SelectCandidatesOrder(cands: seq<Retrieval.Match>)
    ensures var n := Min(|SentenceHits(cands)|, ChosenCount);
      SelectCandidates(cands)[..n] == SentenceHits(cands)[..n]
    ensures var s := SentenceHits(cands); |s| < ChosenCount ==>
      SelectCandidates(cands) == s + cands[..Min(ChosenCount - |s|, |cands|)]
  {
    var s := SentenceHits(cands);
    Backfill(s, cands, ChosenCount, SelectCandidates(cands));
  }

  /** Taking `k` items of `s`, backfilled from `c`, keeps the head of `s`. */
  lemma Backfill<T>(s: seq<T>, c: seq<T>, k: nat, r: seq<T>)
    requires r == if |s| >= k then s[..k] else s + c[..Min(k - |s|, |c|)]
    ensures r[..Min(|s|, k)] == s[..Min(|s|, k)]
    ensures |s| < k ==> r == s + c[..Min(k - |s|, |c|)]
  {
    if |s| < k {
      assert r[..|s|] == s;
    }
  }

  /** The backfill can repeat a sentence hit: a lone sentence candidate is
      chosen twice. */
  lemma SelectCandidatesRepeats(m: Retrieval.Match)
    requires IsSentence(m)
    ensures SelectCandidates([m]) == [m, m]
  {
    assert [m][..0] == [];
  }

  function Passages(chosen: seq<Retrieval.Match>): (r: seq<string>)
    ensures |r| == |chosen| && forall j :: 0 <= j < |chosen| ==> r[j] == chosen[j].text
  {
    seq(|chosen|, j requires 0 <= j < |chosen| => chosen[j].text)
  }

  function Metas(chosen: seq<Retrieval.Match>): (r: seq<Fields>)
    ensures |r| == |chosen| && forall j :: 0 <= j < |chosen| ==> r[j] == chosen[j].meta
  {
    seq(|chosen|, j requires 0 <= j < |chosen| => chosen[j].meta)
  }

  // ------------------------------------------------------------------
  // segment ids
  // ------------------------------------------------------------------

  /** Claims per row whose `chr(97 + i)` is a character below the
      surrogate range (see README). */
  const MaxClaims := 0xD800 - 97

  /** `f"{row_id}{chr(97 + i)}"`. */
  function SegmentId(rowId: int, i: nat): string
    requires i < MaxClaims
  {
    IntToStr(rowId) + [(97 + i) as char]
  }

  /** Ids in a row are distinct, start with the row number and follow the
      claim order. */
  lemma SegmentIdOrder(rowId: int, i: nat, j: nat)
    requires i < MaxClaims && j < MaxClaims
    ensures (SegmentId(rowId, i) == SegmentId(rowId, j)) <==> i == j
    ensures StartsWith(SegmentId(rowId, i), IntToStr(rowId))
    ensures i < j ==> SegmentId(rowId, i)[|IntToStr(rowId)|] < SegmentId(rowId, j)[|IntToStr(rowId)|]
  {
    var p := IntToStr(rowId);
    assert SegmentId(rowId, i)[|p|] == (97 + i) as char;
    assert SegmentId(rowId, j)[|p|] == (97 + j) as char;
  }

  // ------------------------------------------------------------------
  // normalising and annotating the adjudicator's output
  // ------------------------------------------------------------------

  /** `evs`: a dict gives its truthy `"evidence"` value, or `[dict]`; a
      list stays; anything else gives `[]`. */
  function EvidenceItems(ass: Value): Result<seq<Value>> {
    match ass
    case Obj(f) =>
      (match Get(f, "evidence")
       case Some(v) => if Truthy(v) then Iterate(v) else Ok([ass])
       case None => Ok([ass]))
    case List(items) => Ok(items)
    case _ => Ok([])
  }

  /** `ev["source_id"] = …; ev["source_type"] = …` from the chosen chunk's
      meta. */
  function Annotate(ev: Fields, m: Retrieval.Match): Fields {
    Put(Put(ev, "source_id", GetOr(m.meta, "id", Str(""))), "source_type", GetOr(m.meta, "type", Str("")))
  }

  /** An annotated item reads back the chunk's id and type and keeps every
      other key. */
  lemma AnnotateReadsBack(ev: Fields, m: Retrieval.Match, k: string)
    ensures Get(Annotate(ev, m), "source_id") == Some(GetOr(m.meta, "id", Str("")))
    ensures Get(Annotate(ev, m), "source_type") == Some(GetOr(m.meta, "type", Str("")))
    ensures k != "source_id" && k != "source_type" ==> Get(Annotate(ev, m), k) == Get(ev, k)
  {
    var once := Put(ev, "source_id", GetOr(m.meta, "id", Str("")));
    PutGet(ev, "source_id", GetOr(m.meta, "id", Str("")), k);
    PutGet(ev, "source_id", GetOr(m.meta, "id", Str("")), "source_type");
    PutGet(once, "source_type", GetOr(m.meta, "type", Str("")), k);
    PutGet(once, "source_type", GetOr(m.meta, "type", Str("")), "source_id");
  }

  /** The evidence list: dict items annotated from `chosen` at their own
      position, other items skipped; a dict item past `chosen` raises
      `IndexError`. */
  function Annotated(evs: seq<Value>, chosen: seq<Retrieval.Match>): Result<seq<Fields>>
    decreases |evs|
  {
    if evs == [] then Ok([])
    else
      var init :- Annotated(evs[..|evs| - 1], chosen);
      var j := |evs| - 1;
      if !evs[j].Obj? then Ok(init)
      else if j >= |chosen| then Err(IndexError)
      else Ok(init + [Annotate(evs[j].fields, chosen[j])])
  }

  /** The positions of the dict items. */
  function DictPositions(evs: seq<Value>): (r: seq<nat>)
    ensures forall k :: 0 <= k < |r| ==> r[k] < |evs| && evs[r[k]].Obj?
    decreases |evs|
  {
    if evs == [] then []
    else
      var init := DictPositions(evs[..|evs| - 1]);
      if evs[|evs| - 1].Obj? then init + [|evs| - 1] else init
  }

  /** Annotation succeeds exactly when no dict item lies past `chosen`. */
  lemma {:induction false} AnnotatedOkIff(evs: seq<Value>, chosen: seq<Retrieval.Match>)
    ensures Annotated(evs, chosen).Ok? <==> forall j :: 0 <= j < |evs| && evs[j].Obj? ==> j < |chosen|
    decreases |evs|
  {
    if evs != [] {
      var init := evs[..|evs| - 1];
      AnnotatedOkIff(init, chosen);
      assert forall j :: 0 <= j < |init| ==> init[j] == evs[j];
    }
  }

  /** Item k of the evidence is the k-th dict item, annotated from the
      chunk chosen at that item's position. */
  lemma {:induction false} AnnotatedItems(evs: seq<Value>, chosen: seq<Retrieval.Match>)
    requires Annotated(evs, chosen).Ok?
    ensures var r := Annotated(evs, chosen).value; var ps := DictPositions(evs);
      |r| == |ps| && forall k :: 0 <= k < |ps| ==> ps[k] < |chosen| && r[k] == Annotate(evs[ps[k]].fields, chosen[ps[k]])
    decreases |evs|
  {
    if evs != [] {
      var n := |evs| - 1;
      var init := evs[..n];
      AnnotatedItems(init, chosen);
      var r := Annotated(init, chosen).value;
      var ps := DictPositions(init);
      ItemsLift(evs, chosen, ps, r);
      if evs[n].Obj? {
        var x := Annotate(evs[n].fields, chosen[n]);
        assert Annotated(evs, chosen).value == r + [x];
        assert DictPositions(evs) == ps + [n];
        ItemsSnoc(evs, chosen, ps, r, n, x);
      } else {
        assert Annotated(evs, chosen).value == r;
        assert DictPositions(evs) == ps;
      }
    }
  }

  /** What holds of the items of `evs` without its last one holds of them
      in `evs`. */
  lemma ItemsLift(evs: seq<Value>, chosen: seq<Retrieval.Match>, ps: seq<nat>, r: seq<Fields>)
    requires evs != [] && |r| == |ps|
    requires forall k :: 0 <= k < |ps| ==> (ps[k] < |evs| - 1 && evs[..|evs| - 1][ps[k]].Obj? && ps[k] < |chosen|
      && r[k] == Annotate(evs[..|evs| - 1][ps[k]].fields, chosen[ps[k]]))
    ensures forall k :: 0 <= k < |ps| ==> (ps[k] < |evs| && evs[ps[k]].Obj? && ps[k] < |chosen|
      && r[k] == Annotate(evs[ps[k]].fields, chosen[ps[k]]))
  {
    forall k | 0 <= k < |ps| ensures evs[ps[k]].Obj? && r[k] == Annotate(evs[ps[k]].fields, chosen[ps[k]]) {
      assert evs[..|evs| - 1][ps[k]] == evs[ps[k]];
    }
  }

  /** One more annotated dict item at position `n`. */
  lemma ItemsSnoc(evs: seq<Value>, chosen: seq<Retrieval.Match>, ps: seq<nat>, r: seq<Fields>, n: nat, x: Fields)
    requires n < |evs| && n < |chosen| && evs[n].Obj? && x == Annotate(evs[n].fields, chosen[n])
    requires |r| == |ps|
    requires forall k :: 0 <= k < |ps| ==> (ps[k] < |evs| && evs[ps[k]].Obj? && ps[k] < |chosen|
      && r[k] == Annotate(evs[ps[k]].fields, chosen[ps[k]]))
    ensures var ps', r' := ps + [n], r + [x];
      |r'| == |ps'| && forall k :: 0 <= k < |ps'| ==> ps'[k] < |chosen| && r'[k] == Annotate(evs[ps'[k]].fields, chosen[ps'[k]])
  {
  }

  /** An adjudicator answer that is neither a dict nor a list, or a dict
      whose truthy `"evidence"` is a string or a dict, yields no
      evidence. */
  lemma ScalarAnswerGivesNoEvidence(ass: Value, chosen: seq<Retrieval.Match>)
    requires !ass.List?
    requires ass.Obj? ==> (Get(ass.fields, "evidence").Some? && Truthy(Get(ass.fields, "evidence").value)
      && (Get(ass.fields, "evidence").value.Str? || Get(ass.fields, "evidence").value.Obj?))
    ensures EvidenceItems(ass).Ok? && Annotated(EvidenceItems(ass).value, chosen) == Ok([])
  {
    var evs := EvidenceItems(ass).value;
    NoDictsNoEvidence(evs, chosen);
  }

  lemma {:induction false} NoDictsNoEvidence(evs: seq<Value>, chosen: seq<Retrieval.Match>)
    requires forall j :: 0 <= j < |evs| ==> !evs[j].Obj?
    ensures Annotated(evs, chosen) == Ok([])
    decreases |evs|
  {
    if evs != [] {
      NoDictsNoEvidence(evs[..|evs| - 1], chosen);
    }
  }

  /** The `for idx, ev in enumerate(evs)` loop. */
  method AnnotateEvidence(evs: seq<Value>, chosen: seq<Retrieval.Match>) returns (r: Result<seq<Fields>>)
    ensures r == Annotated(evs, chosen)
  {
    var evidence: seq<Fields> := [];
    var idx := 0;
    while idx < |evs|
      invariant 0 <= idx <= |evs|
      invariant Annotated(evs[..idx], chosen) == Ok(evidence)
    {
      TakeTake(evs, idx);
      if evs[idx].Obj? {
        if idx >= |chosen| {
          AnnotatedFailure(evs, chosen, idx + 1);
          return Err(IndexError);
        }
        evidence := evidence + [Annotate(evs[idx].fields, chosen[idx])];
      }
      idx := idx + 1;
    }
    assert evs[..idx] == evs;
    return Ok(evidence);
  }

  /** An error on a prefix decides the whole list. */
  lemma {:induction false} AnnotatedFailure(evs: seq<Value>, chosen: seq<Retrieval.Match>, n: nat)
    requires n <= |evs| && Annotated(evs[..n], chosen).Err?
    ensures Annotated(evs, chosen) == Annotated(evs[..n], chosen)
    decreases |evs|
  {
    if n < |evs| {
      assert evs[..|evs| - 1][..n] == evs[..n];
      AnnotatedFailure(evs[..|evs| - 1], chosen, n);
    } else {
      assert evs[..n] == evs;
    }
  }

  // ------------------------------------------------------------------
  // the justification step
  // ------------------------------------------------------------------

  predicate Supporting(a: Value) { a == Str("yes") || a == Str("partial") }

  /** `[ev["quote"] for ev in evidence if ev["assessment"] in ("yes",
      "partial")]`: every item must carry `"assessment"`, and the
      supporting ones `"quote"`. */
  function TopPassages(evidence: seq<Fields>): (r: Result<seq<Value>>)
    ensures r.Ok? ==> |r.value| <= |evidence|
    decreases |evidence|
  {
    if evidence == [] then Ok([])
    else
      var init :- TopPassages(evidence[..|evidence| - 1]);
      var ev := evidence[|evidence| - 1];
      var a :- Member(Obj(ev), "assessment");
      if Supporting(a) then
        var q :- Member(Obj(ev), "quote");
        Ok(init + [q])
      else Ok(init)
  }

  /** When the quotes can be collected, some are collected exactly when
      some item is assessed `yes` or `partial`. */
  lemma {:induction false} TopPassagesNonEmpty(evidence: seq<Fields>)
    requires TopPassages(evidence).Ok?
    ensures forall j :: 0 <= j < |evidence| ==> HasKey(evidence[j], "assessment")
    ensures TopPassages(evidence).value != [] <==>
      exists j :: 0 <= j < |evidence| && Get(evidence[j], "assessment").Some?
        && Supporting(Get(evidence[j], "assessment").value)
    decreases |evidence|
  {
    if evidence != [] {
      var init := evidence[..|evidence| - 1];
      TopPassagesNonEmpty(init);
      assert forall j :: 0 <= j < |init| ==> init[j] == evidence[j];
      var ev := evidence[|evidence| - 1];
      assert Member(Obj(ev), "assessment").Ok?;
    }
  }

  /** `best_id` and `rationale` from the justification: a dict's values
      (or `None`), and for anything else no id and the raw value. */
  function Justify(j: Value): (r: Justification)
    ensures !j.Obj? ==> r == Justification(Null, j)
    ensures j.Obj? ==> (r.bestId == GetOr(j.fields, "best_id", Null)
      && r.rationale == GetOr(j.fields, "rationale", Null))
  {
    if j.Obj? then Justification(GetOr(j.fields, "best_id", Null), GetOr(j.fields, "rationale", Null))
    else Justification(Null, j)
  }

  // ------------------------------------------------------------------
  // one claim
  // ------------------------------------------------------------------

  /** `r.query(claim, k=12)` on a fixed retriever. */
  type Querier = string -> Result<seq<Retrieval.Match>>
  /** `assess(claim, passages, metadatas, nli_model=…, llm_model=…)`. */
  type Adjudicator = (string, seq<string>, seq<Fields>) -> Result<Value>
  /** `utils.call_llm_justification(llm_prompt, model_name=…)`. */
  type Justifier = Value -> Result<Value>

  function QueryOf(index: Option<Retrieval.Index>, chunks: seq<Doc>, minScore: real, sv: Services): Querier {
    text => Retrieval.QueryResult(index, chunks, minScore, text, QueryK, sv.embed, sv.search)
  }

  /** `assess` as the worker calls it: no `api_key` or `base_url`, so the
      environment's base URL is used on the remote path. */
  function AdjudicatorOf(nliModel: Option<string>, llmModel: Option<string>, sv: Services): Adjudicator {
    (claim, passages, metadatas) =>
      Nli.AssessResult(claim, passages, metadatas, nliModel, llmModel, None, sv.envBase,
                       sv.classify, sv.dump, sv.parse, sv.post)
  }

  function JustifierOf(llmModel: Option<string>, sv: Services): Justifier {
    payload => Utils.CallLlmJustification(payload, llmModel, sv.dump, sv.parse, sv.post, sv.envBase)
  }

  /** The chosen candidates of a claim and the adjudicator's answer for
      them. */
  function Assessed(claim: string, query: Querier, adjudicate: Adjudicator)
    : Result<(seq<Retrieval.Match>, Value)>
  {
    var cands :- query(claim);
    var chosen := SelectCandidates(cands);
    var ass :- adjudicate(claim, Passages(chosen), Metas(chosen));
    Ok((chosen, ass))
  }

  /** The segment built from an adjudicated claim, justified when some
      evidence supports it. */
  function Finished(rowId: int, i: nat, claim: string, chosen: seq<Retrieval.Match>, ass: Value,
                    justify: Justifier): (r: Result<Segment>)
    requires i < MaxClaims
    ensures r.Ok? ==> r.value.segmentId == SegmentId(rowId, i) && r.value.claim == claim
    ensures r.Ok? ==> TopPassages(r.value.evidence).Ok?
    ensures r.Ok? ==> (r.value.justification.Some? <==> TopPassages(r.value.evidence).value != [])
  {
    var evs :- EvidenceItems(ass);
    var evidence :- Annotated(evs, chosen);
    var top :- TopPassages(evidence);
    var seg := Segment(SegmentId(rowId, i), claim, evidence, None);
    if top == [] then Ok(seg)
    else
      var j :- justify(Obj([("claim", Str(claim)), ("evidence", List(top))]));
      Ok(seg.(justification := Some(Justify(j))))
  }

  /** The segment the claim loop appends for claim `i`, after the optional
      justification step has annotated it. */
  function ClaimOutcome(rowId: int, i: nat, claim: string, query: Querier, adjudicate: Adjudicator,
                        justify: Justifier): (r: Result<Segment>)
    requires i < MaxClaims
    ensures r.Ok? ==> r.value.segmentId == SegmentId(rowId, i) && r.value.claim == claim
    ensures r.Ok? ==> TopPassages(r.value.evidence).Ok?
    ensures r.Ok? ==> (r.value.justification.Some? <==> TopPassages(r.value.evidence).value != [])
  {
    var (chosen, ass) :- Assessed(claim, query, adjudicate);
    Finished(rowId, i, claim, chosen, ass, justify)
  }

  /** Querying and adjudicating one claim. */
  method AssessClaim(claim: string, retr: Retrieval.Retriever, nliModel: Option<string>, llmModel: Option<string>,
                     registry: Nli.NliRegistry, sv: Services) returns (r: Result<(seq<Retrieval.Match>, Value)>)
    requires registry.Valid()
    modifies registry
    ensures registry.Valid()
    ensures r == Assessed(claim, QueryOf(retr.index, retr.chunks, retr.minScore, sv), AdjudicatorOf(nliModel, llmModel, sv))
  {
    var cands :- retr.Query(claim, QueryK, sv.embed, sv.search);
    var chosen := SelectCandidates(cands);
    var ass :- Nli.Assess(claim, Passages(chosen), Metas(chosen), nliModel, llmModel, None,
                          sv.envBase, registry, sv.classify, sv.dump, sv.parse, sv.post);
    return Ok((chosen, ass));
  }

  /** Normalising, annotating and justifying one claim's evidence. */
  method FinishClaim(rowId: int, i: nat, claim: string, chosen: seq<Retrieval.Match>, ass: Value,
                     llmModel: Option<string>, sv: Services) returns (r: Result<Segment>)
    requires i < MaxClaims
    ensures r == Finished(rowId, i, claim, chosen, ass, JustifierOf(llmModel, sv))
  {
    var evs :- EvidenceItems(ass);
    var evidence :- AnnotateEvidence(evs, chosen);
    var top :- TopPassages(evidence);
    var seg := Segment(SegmentId(rowId, i), claim, evidence, None);
    if top == [] {
      return Ok(seg);
    }
    var payload := Obj([("claim", Str(claim)), ("evidence", List(top))]);
    var j :- Utils.CallLlmJustification(payload, llmModel, sv.dump, sv.parse, sv.post, sv.envBase);
    return Ok(seg.(justification := Some(Justify(j))));
  }

  /** One pass of the claim loop. */
  method ProcessClaim(rowId: int, i: nat, claim: string, retr: Retrieval.Retriever,
                      nliModel: Option<string>, llmModel: Option<string>,
                      registry: Nli.NliRegistry, sv: Services) returns (r: Result<Segment>)
    requires i < MaxClaims && registry.Valid()
    modifies registry
    ensures registry.Valid()
    ensures r == ClaimOutcome(rowId, i, claim, QueryOf(retr.index, retr.chunks, retr.minScore, sv),
                              AdjudicatorOf(nliModel, llmModel, sv), JustifierOf(llmModel, sv))
  {
    var assessed :- AssessClaim(claim, retr, nliModel, llmModel, registry, sv);
    r := FinishClaim(rowId, i, claim, assessed.0, assessed.1, llmModel, sv);
  }

  // ------------------------------------------------------------------
  // the claim loop
  // ------------------------------------------------------------------

  /** Claim `i`'s outcome as a step function of the claim loop. */
  function ClaimStep(rowId: int, query: Querier, adjudicate: Adjudicator, justify: Justifier)
    : (step: (nat, string) --> Result<Segment>)
    ensures forall i: nat, claim: string :: i < MaxClaims ==> step.requires(i, claim)
  {
    (i: nat, claim: string) requires i < MaxClaims => ClaimOutcome(rowId, i, claim, query, adjudicate, justify)
  }

  lemma ClaimStepIs(rowId: int, query: Querier, adjudicate: Adjudicator, justify: Justifier,
                    i: nat, claim: string)
    requires i < MaxClaims
    ensures ClaimStep(rowId, query, adjudicate, justify)(i, claim)
         == ClaimOutcome(rowId, i, claim, query, adjudicate, justify)
  {
  }

  /** The loop's outcome: one result per claim in claim order, or the
      first error. */
  function Segments<S>(claims: seq<string>, step: (nat, string) --> Result<S>): (r: Result<seq<S>>)
    requires forall i :: 0 <= i < |claims| ==> step.requires(i, claims[i])
    ensures r.Ok? ==> |r.value| == |claims|
    decreases |claims|
  {
    if claims == [] then Ok([])
    else
      var n := |claims| - 1;
      var init :- Segments(claims[..n], step);
      var seg :- step(n, claims[n]);
      Ok(init + [seg])
  }

  /** Item i of a successful loop is claim i's own outcome. */
  lemma {:induction false} SegmentsAt<S>(claims: seq<string>, step: (nat, string) --> Result<S>, i: nat)
    requires forall j :: 0 <= j < |claims| ==> step.requires(j, claims[j])
    requires i < |claims| && Segments(claims, step).Ok?
    ensures step(i, claims[i]) == Ok(Segments(claims, step).value[i])
    decreases |claims|
  {
    var n := |claims| - 1;
    if i < n {
      SegmentsAt(claims[..n], step, i);
      assert claims[..n][i] == claims[i];
    }
  }

  /** An error on a prefix of the claims decides the whole loop. */
  lemma {:induction false} SegmentsFailure<S>(claims: seq<string>, step: (nat, string) --> Result<S>, k: nat)
    requires forall j :: 0 <= j < |claims| ==> step.requires(j, claims[j])
    requires k <= |claims| && Segments(claims[..k], step).Err?
    ensures Segments(claims, step) == Segments(claims[..k], step)
    decreases |claims|
  {
    if k < |claims| {
      var n := |claims| - 1;
      assert claims[..n][..k] == claims[..k];
      SegmentsFailure(claims[..n], step, k);
    } else {
      assert claims[..k] == claims;
    }
  }

  /** Segment i of a processed row has id `SegmentId(row, i)` and claim
      i, and it is justified exactly when its own evidence has a
      supporting item, whatever the other claims gave. */
  lemma ClaimSegmentsAt(rowId: int, claims: seq<string>, query: Querier, adjudicate: Adjudicator,
                        justify: Justifier, i: nat)
    requires |claims| <= MaxClaims && i < |claims|
    requires Segments(claims, ClaimStep(rowId, query, adjudicate, justify)).Ok?
    ensures var seg := Segments(claims, ClaimStep(rowId, query, adjudicate, justify)).value[i];
      seg.segmentId == SegmentId(rowId, i) && seg.claim == claims[i]
      && TopPassages(seg.evidence).Ok? && (seg.justification.Some? <==> TopPassages(seg.evidence).value != [])
  {
    var step := ClaimStep(rowId, query, adjudicate, justify);
    SegmentsAt(claims, step, i);
    ClaimStepIs(rowId, query, adjudicate, justify, i, claims[i]);
  }

  /** `for i, claim in enumerate(segments)`. */
  method RunClaims(rowId: int, claims: seq<string>, retr: Retrieval.Retriever,
                   nliModel: Option<string>, llmModel: Option<string>,
                   registry: Nli.NliRegistry, sv: Services) returns (r: Result<seq<Segment>>)
    requires |claims| <= MaxClaims && registry.Valid()
    modifies registry
    ensures registry.Valid()
    ensures r == Segments(claims, ClaimStep(rowId, QueryOf(retr.index, retr.chunks, retr.minScore, sv),
                                            AdjudicatorOf(nliModel, llmModel, sv), JustifierOf(llmModel, sv)))
  {
    var query, adjudicate, justify :=
      QueryOf(retr.index, retr.chunks, retr.minScore, sv), AdjudicatorOf(nliModel, llmModel, sv), JustifierOf(llmModel, sv);
    var step := ClaimStep(rowId, query, adjudicate, justify);
    var segments: seq<Segment> := [];
    var i := 0;
    while i < |claims|
      invariant 0 <= i <= |claims| && registry.Valid()
      invariant Segments(claims[..i], step) == Ok(segments)
    {
      TakeTake(claims, i);
      assert claims[..i + 1][i] == claims[i];
      var seg := ProcessClaim(rowId, i, claims[i], retr, nliModel, llmModel, registry, sv);
      ClaimStepIs(rowId, query, adjudicate, justify, i, claims[i]);
      if seg.Err? {
        SegmentsFailure(claims, step, i + 1);
        return Err(seg.error);
      }
      segments := segments + [seg.value];
      i := i + 1;
    }
    assert claims[..i] == claims;
    return Ok(segments);
  }

  // ------------------------------------------------------------------
  // nesting into the result tree
  // ------------------------------------------------------------------

  /** `citing_id.split("-DOI")[0]`: the whole text before the first
      `-DOI`, or all of it when there is none; a non-string cell has no
      `split`. */
  function CitingTitle(citingId: Value): (r: Result<string>)
    ensures r.Ok? <==> citingId.Str?
    ensures r.Ok? ==> StartsWith(citingId.s, r.value) && !Contains(r.value, "-DOI")
    ensures r.Ok? && !Contains(citingId.s, "-DOI") ==> r.value == citingId.s
    ensures r.Ok? && Contains(citingId.s, "-DOI") ==> StartsWith(citingId.s[|r.value|..], "-DOI")
  {
    if citingId.Str? then
      var s := citingId.s;
      var parts := SplitOn(s, "-DOI");
      SplitOnPieces(s, "-DOI");
      IndexOfNone(s, "-DOI");
      assert parts[0] == (if IndexOf(s, "-DOI").Some? then s[..IndexOf(s, "-DOI").value] else s);
      Ok(parts[0])
    else Err(AttributeError)
  }

  /** The two `setdefault` calls and the `append`. */
  function AddSentence(results: Results, key: string, doi: Value, title: string, citingId: string,
                       sent: SentResult): Results
  {
    var paper := if key in results then results[key] else Paper("", key, doi, map[]);
    var cp := if title in paper.citingPapers then paper.citingPapers[title]
              else CitingPaper(title, citingId, []);
    results[key := paper.(citingPapers := paper.citingPapers[title := cp.(sentences := cp.sentences + [sent])])]
  }

  /** Every node of `a` survives in `b` with the same fields, and each
      sentence list of `a` is a prefix of its counterpart. */
  predicate Extends(a: Results, b: Results) {
    forall k :: k in a ==> k in b && PaperExtends(a[k], b[k])
  }

  predicate PaperExtends(a: Paper, b: Paper) {
    a.title == b.title && a.id == b.id && a.doi == b.doi
    && forall t :: t in a.citingPapers ==> t in b.citingPapers && CitingExtends(a.citingPapers[t], b.citingPapers[t])
  }

  predicate CitingExtends(a: CitingPaper, b: CitingPaper) {
    a.title == b.title && a.id == b.id && a.sentences <= b.sentences
  }

  /** Adding a sentence replaces no node and appends the sentence at the
      end of its citing paper's list; the new nodes carry the given
      fields. */
  lemma AddSentenceAppends(results: Results, key: string, doi: Value, title: string, citingId: string,
                           sent: SentResult)
    ensures var n := AddSentence(results, key, doi, title, citingId, sent);
      Extends(results, n)
      && n.Keys == results.Keys + {key}
      && (forall k :: k in results && k != key ==> n[k] == results[k])
      && n[key].citingPapers.Keys == (if key in results then results[key].citingPapers.Keys else {}) + {title}
      && (key !in results ==> n[key].title == "" && n[key].id == key && n[key].doi == doi)
      && (key in results && title in results[key].citingPapers ==>
            n[key].citingPapers[title].sentences == results[key].citingPapers[title].sentences + [sent])
      && (!(key in results && title in results[key].citingPapers) ==>
            n[key].citingPapers[title] == CitingPaper(title, citingId, [sent]))
  {
  }

  lemma ExtendsTransitive(a: Results, b: Results, c: Results)
    requires Extends(a, b) && Extends(b, c)
    ensures Extends(a, c)
  {
    forall k | k in a ensures k in c && PaperExtends(a[k], c[k]) {
      forall t | t in a[k].citingPapers
        ensures t in c[k].citingPapers && CitingExtends(a[k].citingPapers[t], c[k].citingPapers[t])
      {
        assert t in b[k].citingPapers;
      }
    }
  }

  // ------------------------------------------------------------------
  // /progress
  // ------------------------------------------------------------------

  predicate SentHasRow(s: SentResult, p: string) {
    exists j :: 0 <= j < |s.segments| && StartsWith(s.segments[j].segmentId, p)
  }

  predicate CitingHasRow(c: CitingPaper, p: string) {
    exists i :: 0 <= i < |c.sentences| && SentHasRow(c.sentences[i], p)
  }

  predicate PaperHasRow(paper: Paper, p: string) {
    exists t :: t in paper.citingPapers && CitingHasRow(paper.citingPapers[t], p)
  }

  /** Some stored segment id starts with `str(row_id)`. */
  predicate RowDone(results: Results, rowId: int) {
    exists k :: k in results && PaperHasRow(results[k], IntToStr(rowId))
  }

  /** Once a row's sentence with at least one claim is added, `/progress`
      reports the row done. */
  lemma AddedRowIsDone(results: Results, key: string, doi: Value, title: string, citingId: string,
                       sent: SentResult, rowId: int, i: nat)
    requires i < MaxClaims && 0 <= i < |sent.segments| && sent.segments[i].segmentId == SegmentId(rowId, i)
    ensures RowDone(AddSentence(results, key, doi, title, citingId, sent), rowId)
  {
    var n := AddSentence(results, key, doi, title, citingId, sent);
    SegmentIdOrder(rowId, i, i);
    var ss := n[key].citingPapers[title].sentences;
    assert ss[|ss| - 1] == sent;
    assert SentHasRow(ss[|ss| - 1], IntToStr(rowId));
    assert CitingHasRow(n[key].citingPapers[title], IntToStr(rowId));
  }

  /** A growing tree never takes back a "done". */
  lemma RowDoneMonotone(a: Results, b: Results, rowId: int)
    requires Extends(a, b) && RowDone(a, rowId)
    ensures RowDone(b, rowId)
  {
    var p := IntToStr(rowId);
    var k :| k in a && PaperHasRow(a[k], p);
    var t :| t in a[k].citingPapers && CitingHasRow(a[k].citingPapers[t], p);
    var i :| 0 <= i < |a[k].citingPapers[t].sentences| && SentHasRow(a[k].citingPapers[t].sentences[i], p);
    assert b[k].citingPapers[t].sentences[i] == a[k].citingPapers[t].sentences[i];
    assert CitingHasRow(b[k].citingPapers[t], p);
    assert PaperHasRow(b[k], p);
  }

  /** The check is a prefix test: results for row `10 r + d` make row `r`
      look done. */
  lemma ProgressPrefixAmbiguous(results: Results, r: nat, d: nat)
    requires 1 <= r && d < 10 && RowDone(results, 10 * r + d)
    ensures RowDone(results, r)
  {
    var p, q := IntToStr(10 * r + d), IntToStr(r);
    DecimalPrefix(r, d);
    var k :| k in results && PaperHasRow(results[k], p);
    PaperRowPrefix(results[k], p, q);
  }

  /** The decimal digits of `10 r + d` extend those of `r`. */
  lemma DecimalPrefix(r: nat, d: nat)
    requires 1 <= r && d < 10
    ensures StartsWith(IntToStr(10 * r + d), IntToStr(r))
  {
    var n := 10 * r + d;
    assert n / 10 == r && n % 10 == d;
    assert NatToStr(n) == NatToStr(r) + [DigitChar(d)];
  }

  /** A paper showing a row with a longer prefix shows it with a shorter
      one. */
  lemma PaperRowPrefix(paper: Paper, p: string, q: string)
    requires StartsWith(p, q) && PaperHasRow(paper, p)
    ensures PaperHasRow(paper, q)
  {
    var t :| t in paper.citingPapers && CitingHasRow(paper.citingPapers[t], p);
    var c := paper.citingPapers[t];
    var i :| 0 <= i < |c.sentences| && SentHasRow(c.sentences[i], p);
    var j :| 0 <= j < |c.sentences[i].segments| && StartsWith(c.sentences[i].segments[j].segmentId, p);
    var id := c.sentences[i].segments[j].segmentId;
    assert id[..|q|] == p[..|q|];
    assert SentHasRow(c.sentences[i], q);
    assert CitingHasRow(c, q);
  }

  method SentenceShowsRow(s: SentResult, p: string) returns (b: bool)
    ensures b == SentHasRow(s, p)
  {
    var j := 0;
    while j < |s.segments|
      invariant 0 <= j <= |s.segments|
      invariant forall j' :: 0 <= j' < j ==> !StartsWith(s.segments[j'].segmentId, p)
    {
      if StartsWith(s.segments[j].segmentId, p) {
        return true;
      }
      j := j + 1;
    }
    return false;
  }

  method CitingShowsRow(c: CitingPaper, p: string) returns (b: bool)
    ensures b == CitingHasRow(c, p)
  {
    var i := 0;
    while i < |c.sentences|
      invariant 0 <= i <= |c.sentences|
      invariant forall i' :: 0 <= i' < i ==> !SentHasRow(c.sentences[i'], p)
    {
      var found := SentenceShowsRow(c.sentences[i], p);
      if found {
        return true;
      }
      i := i + 1;
    }
    return false;
  }

  method PaperShowsRow(paper: Paper, p: string) returns (b: bool)
    ensures b == PaperHasRow(paper, p)
  {
    var todo := paper.citingPapers.Keys;
    while todo != {}
      invariant todo <= paper.citingPapers.Keys
      invariant forall t :: t in paper.citingPapers && t !in todo ==> !CitingHasRow(paper.citingPapers[t], p)
      decreases |todo|
    {
      var t :| t in todo;
      var found := CitingShowsRow(paper.citingPapers[t], p);
      if found {
        return true;
      }
      todo := todo - {t};
    }
    return false;
  }

  /** The `/progress/{row_id}` status over a result tree. */
  method Progress(results: Results, rowId: int) returns (status: string)
    ensures status == (if RowDone(results, rowId) then "done" else "pending")
  {
    var p := IntToStr(rowId);
    var todo := results.Keys;
    while todo != {}
      invariant todo <= results.Keys
      invariant forall k :: k in results && k !in todo ==> !PaperHasRow(results[k], p)
      decreases |todo|
    {
      var k :| k in todo;
      var found := PaperShowsRow(results[k], p);
      if found {
        return "done";
      }
      todo := todo - {k};
    }
    return "pending";
  }

  // ------------------------------------------------------------------
  // locating the row
  // ------------------------------------------------------------------

  /** `settings.get(key)` when `settings` is a non-empty dict, else
      `None`. */
  function Setting(settings: Option<Fields>, key: string): Value {
    if settings.Some? && settings.value != [] then GetOr(settings.value, key, Null) else Null
  }

  /** A model name from the settings (a non-string value is read as
      `None`). */
  function ModelName(v: Value): Option<string> {
    if v.Str? then Some(v.s) else None
  }

  /** A truthy `data_dir` must hold a CSV file. */
  function CsvLocation(settings: Option<Fields>, csvFiles: seq<string>): (r: Result<()>)
    ensures r.Err? <==> Truthy(Setting(settings, "data_dir")) && csvFiles == []
  {
    var dir := Setting(settings, "data_dir");
    if Truthy(dir) && csvFiles == [] then Err(FileNotFoundError("No CSV file found in " + PyStr(dir)))
    else Ok(())
  }

  /** `df.iloc[row_id]`. */
  function RowAt(table: Table, rowId: int): (r: Result<Row>)
    ensures r.Ok? <==> -|table.rows| <= rowId < |table.rows|
    ensures r.Ok? && rowId >= 0 ==> r.value == table.rows[rowId]
  {
    match PyIndex(rowId, |table.rows|)
    case Some(j) => Ok(table.rows[j])
    case None => Err(IndexError)
  }

  /** The tree `_process_sentence` leaves behind: the row is located, its
      retriever found, every claim processed and the sentence nested under
      its paper and citing paper; the first failure in that order is the
      one raised, and the tree is then left as it was. */
  function SentenceOutcome(results: Results, retrievers: map<string, Retrieval.Retriever>, rowId: int,
                           claims: seq<string>, settings: Option<Fields>, csvFiles: seq<string>,
                           table: Table, sv: Services): (r: Result<Results>)
    requires |claims| <= MaxClaims
    reads retrievers.Values
    ensures r.Ok? ==> Extends(results, r.value)
  {
    var _ :- CsvLocation(settings, csvFiles);
    var row :- RowAt(table, rowId);
    var author :- Cell(row, "Cited Author");
    var year :- Cell(row, "Cited Year");
    var key := PaperKey(author, year);
    var retr :- Lookup(retrievers, key);
    var text :- Cell(row, "tei_sentence");
    var nliModel, llmModel := ModelName(Setting(settings, "nli_model")), ModelName(Setting(settings, "llm_model"));
    var segs :- Segments(claims, ClaimStep(rowId, QueryOf(retr.index, retr.chunks, retr.minScore, sv),
                                           AdjudicatorOf(nliModel, llmModel, sv), JustifierOf(llmModel, sv)));
    var citingId :- Cell(row, "TEI File");
    var title :- CitingTitle(citingId);
    var doi :- Cell(row, "Cited DOI");
    AddSentenceAppends(results, key, doi, title, citingId.s, SentResult(text, segs));
    Ok(AddSentence(results, key, doi, title, citingId.s, SentResult(text, segs)))
  }

  /** A processed row with at least one claim is reported done. */
  lemma ProcessedRowIsDone(results: Results, retrievers: map<string, Retrieval.Retriever>, rowId: int,
                           claims: seq<string>, settings: Option<Fields>, csvFiles: seq<string>,
                           table: Table, sv: Services)
    requires 0 < |claims| <= MaxClaims
    requires SentenceOutcome(results, retrievers, rowId, claims, settings, csvFiles, table, sv).Ok?
    ensures RowDone(SentenceOutcome(results, retrievers, rowId, claims, settings, csvFiles, table, sv).value, rowId)
  {
    var row := RowAt(table, rowId).value;
    var key := PaperKey(row["Cited Author"], row["Cited Year"]);
    var retr := Lookup(retrievers, key).value;
    var nli, llm := ModelName(Setting(settings, "nli_model")), ModelName(Setting(settings, "llm_model"));
    var query, adjudicate, justify :=
      QueryOf(retr.index, retr.chunks, retr.minScore, sv), AdjudicatorOf(nli, llm, sv), JustifierOf(llm, sv);
    var segs := Segments(claims, ClaimStep(rowId, query, adjudicate, justify)).value;
    ClaimSegmentsAt(rowId, claims, query, adjudicate, justify, 0);
    var citingId := row["TEI File"];
    AddedRowIsDone(results, key, row["Cited DOI"], CitingTitle(citingId).value, citingId.s,
                   SentResult(row["tei_sentence"], segs), rowId, 0);
  }

  // ------------------------------------------------------------------
  // prebuild_indexes
  // ------------------------------------------------------------------

  const RequiredColumns: set<string> := {"Cited Author", "Cited Year", "tei_sentence", "TEI File"}

  predicate KeyCell(v: Value) { !v.NaN? && !v.Null? }

  /** `df.groupby(["Cited Author", "Cited Year"])` lists exactly the key
      pairs of the rows that have both keys (in its own order). */
  predicate GroupsOf(groups: seq<(Value, Value)>, rows: seq<Row>) {
    (forall g :: g in groups ==>
       (exists i :: 0 <= i < |rows| && HasGroupKey(rows[i])
          && rows[i]["Cited Author"] == g.0 && rows[i]["Cited Year"] == g.1))
    && (forall i :: 0 <= i < |rows| && HasGroupKey(rows[i]) ==>
          (rows[i]["Cited Author"], rows[i]["Cited Year"]) in groups)
  }

  predicate HasGroupKey(row: Row) {
    "Cited Author" in row && "Cited Year" in row && KeyCell(row["Cited Author"]) && KeyCell(row["Cited Year"])
  }

  /** `prebuild_indexes(csv_path, …)`: a missing required column raises
      `ValueError`; otherwise the first group reads its TEI file under
      `sourceDir` and then passes `max_chunks=` to `Retriever`, which
      takes no such argument, so every group raises. */
  function PrebuildIndexes(table: Table, groups: seq<(Value, Value)>, sourceDir: string,
                           teiAt: string -> TeiFile): (r: Result<()>)
    ensures !(RequiredColumns <= set c | c in table.columns) ==> r.Err? && r.error.ValueError?
    ensures r.Ok? <==> RequiredColumns <= (set c | c in table.columns) && groups == []
    ensures r.Err? && RequiredColumns <= (set c | c in table.columns) ==>
      r.error.FileNotFoundError? || r.error == TypeError || r.error == SyntaxError("XML syntax error")
  {
    if !(RequiredColumns <= set c | c in table.columns) then Err(ValueError("CSV missing required columns"))
    else if groups == [] then Ok(())
    else
      var path := sourceDir + "/" + PyStr(groups[0].0) + ".pdf.tei.xml";
      match teiAt(path)
      case Missing => Err(FileNotFoundError(path))
      case Malformed => Err(SyntaxError("XML syntax error"))
      case Parsed(_) => Err(TypeError)
  }

  /** `prebuild_indexes` succeeds only when no row has both keys, that is
      when it has nothing to register. */
  lemma PrebuildIndexesNeverRegisters(table: Table, groups: seq<(Value, Value)>, sourceDir: string,
                                      teiAt: string -> TeiFile, i: nat)
    requires GroupsOf(groups, table.rows) && i < |table.rows| && HasGroupKey(table.rows[i])
    ensures PrebuildIndexes(table, groups, sourceDir, teiAt).Err?
  {
    assert (table.rows[i]["Cited Author"], table.rows[i]["Cited Year"]) in groups;
  }

  // ------------------------------------------------------------------
  // the module-level registries
  // ------------------------------------------------------------------

  class Backend {
    var results: Results
    var retrievers: map<string, Retrieval.Retriever>

    /** `results, retrievers = {}, {}` at import time. */
    constructor ()
      ensures results == map[] && retrievers == map[]
    {
      results := map[];
      retrievers := map[];
    }

    /** `_process_sentence(row_id, segments, settings)`: the tree becomes
        the outcome's, or stays as it was when a step raises. */
    method ProcessSentence(rowId: int, claims: seq<string>, settings: Option<Fields>, csvFiles: seq<string>,
                           table: Table, registry: Nli.NliRegistry, sv: Services) returns (r: Result<()>)
      requires |claims| <= MaxClaims && registry.Valid()
      modifies this, registry
      ensures registry.Valid() && retrievers == old(retrievers)
      ensures var o := SentenceOutcome(old(results), retrievers, rowId, claims, settings, csvFiles, table, sv);
        (r.Ok? <==> o.Ok?) && (r.Ok? ==> results == o.value)
        && (r.Err? ==> r.error == o.error && results == old(results))
    {
      var _ :- CsvLocation(settings, csvFiles);
      var row :- RowAt(table, rowId);
      var author :- Cell(row, "Cited Author");
      var year :- Cell(row, "Cited Year");
      var key := PaperKey(author, year);
      var retr :- Lookup(retrievers, key);
      var text :- Cell(row, "tei_sentence");
      var segs :- RunClaims(rowId, claims, retr, ModelName(Setting(settings, "nli_model")),
                            ModelName(Setting(settings, "llm_model")), registry, sv);
      var citingId :- Cell(row, "TEI File");
      var title :- CitingTitle(citingId);
      var doi :- Cell(row, "Cited DOI");
      results := AddSentence(results, key, doi, title, citingId.s, SentResult(text, segs));
      return Ok(());
    }

    /** `/progress/{row_id}`. */
    method ProgressOf(rowId: int) returns (status: string)
      ensures status == (if RowDone(results, rowId) then "done" else "pending")
    {
      status := Progress(results, rowId);
    }

    /** `/prebuild`: the registry is cleared first, then filled from
        `build_all`; when that raises the registry stays empty and the
        endpoint answers 500. */
    method Prebuild(folder: string, csvFiles: seq<string>, files: seq<XmlFile>, table: Table,
                    embedModel: string, maxChunks: int, minScore: real, send: EmbedBatch,
                    store: Retrieval.IndexStore) returns (r: Result<()>)
      modifies this, store
      ensures results == old(results)
      ensures r.Err? ==> r.error == HttpError(500) && retrievers == map[]
      ensures r.Ok? <==> (csvFiles != [] && Parser.DocumentsOk(files, table)
        && Retrieval.KeyedBuildsSucceed(Parser.Documents(files, table), Retrieval.PaperKey, Some(maxChunks), send)
        && Retrieval.BuildOutcome(Retrieval.SentenceDocs(Parser.Documents(files, table)), Some(maxChunks), send).Ok?)
      ensures r.Ok? ==> Retrieval.Registry(retrievers, Parser.Documents(files, table), Some(maxChunks), minScore, send)
    {
      retrievers := map[];
      var built := Retrieval.BuildAll(folder, csvFiles, files, table, embedModel, Some(maxChunks),
                                      minScore, send, store);
      if built.Err? {
        return Err(HttpError(500));
      }
      retrievers := built.value;
      return Ok(());
    }
  }
}
