/** Adjudication (backend/nli.py): a claim is checked against passages
    either by a local NLI classifier or by a remote completion model.  The
    classifier and the completion service are oracles; what is modelled is
    the dispatch, the pipeline cache, the label mapping with its threshold,
    the prompt, and the lenient reading of the remote answer. */
module Nli {
  import opened Common
  import opened Strs
  import opened Values
  import opened BlClient
  import Utils

  /** `THRESHOLD`: local predictions scoring below it are skipped. */
  const Threshold: real := 0.0

  /** `_LOCAL_NLI_PATHS`: the local model names and their repositories. */
  const LocalPaths: map<string, string> := map[
    "deberta-base" := "cross-encoder/nli-deberta-v3-base",
    "deberta-large" := "microsoft/deberta-v3-large"]

  /** The local path is taken exactly for a registered name. */
  predicate IsLocal(nliModel: Option<string>) {
    nliModel.Some? && nliModel.value in LocalPaths
  }

  /** A loaded text-classification pipeline, identified by its repository. */
  datatype Pipeline = Pipeline(path: string)

  /** One `{"label", "score"}` prediction. */
  datatype Pred = Pred(labelName: string, score: real)

  /** Running a pipeline on an input text. */
  type Classify = (Pipeline, string) -> seq<Pred>

  // ------------------------------------------------------------------
  // the pipeline cache
  // ------------------------------------------------------------------

  /** `_LOCAL_NLI_MODELS`, with the list of pipelines constructed so far. */
  class NliRegistry {
    var models: map<string, Pipeline>
    var constructed: seq<string>

    /** Cached pipelines belong to registered names, and every cached name
        was constructed exactly once. */
    ghost predicate Valid()
      reads this
    {
      (forall name :: name in models ==> name in LocalPaths && models[name] == Pipeline(LocalPaths[name]))
      && (forall i, j :: 0 <= i < j < |constructed| ==> constructed[i] != constructed[j])
      && (forall name :: name in models <==> name in constructed)
    }

    constructor ()
      ensures Valid() && models == map[] && constructed == []
    {
      models := map[];
      constructed := [];
    }

    /** `get_local_nli_pipeline(name)`: `KeyError` for an unregistered
        name; otherwise the cached pipeline, constructed on first use. */
    method GetLocalPipeline(name: string) returns (r: Result<Pipeline>)
      requires Valid()
      modifies this
      ensures Valid()
      ensures r.Err? <==> name !in LocalPaths
      ensures r.Err? ==> r.error.KeyError? && models == old(models) && constructed == old(constructed)
      ensures r.Ok? ==> r.value == Pipeline(LocalPaths[name]) && name in models
      ensures r.Ok? && name in old(models) ==> models == old(models) && constructed == old(constructed)
      ensures r.Ok? && name !in old(models) ==>
        models == old(models)[name := r.value] && constructed == old(constructed) + [name]
    {
      if name !in LocalPaths {
        return Err(KeyError("No local NLI model configured for '" + name + "'"));
      }
      if name !in models {
        var pipe := Pipeline(LocalPaths[name]);
        models := models[name := pipe];
        constructed := constructed + [name];
      }
      return Ok(models[name]);
    }
  }

  /** However many times the cache is asked, a name is constructed at most
      once. */
  lemma ConstructedAtMostOnce(reg: NliRegistry, name: string)
    requires reg.Valid()
    ensures multiset(reg.constructed)[name] <= 1
  {
    if name in reg.constructed {
      var i :| 0 <= i < |reg.constructed| && reg.constructed[i] == name;
      OnlyOccurrence(reg.constructed, i);
    } else {
      assert multiset(reg.constructed)[name] == 0;
    }
  }

  lemma {:induction false} OnlyOccurrence(s: seq<string>, i: nat)
    requires i < |s| && forall a, b :: 0 <= a < b < |s| ==> s[a] != s[b]
    ensures multiset(s)[s[i]] == 1
  {
    var x := s[i];
    assert s == s[..i] + [x] + s[i + 1..];
    assert x !in s[..i] by {
      forall a | 0 <= a < i ensures s[..i][a] != x { assert s[a] != s[i]; }
    }
    assert x !in s[i + 1..] by {
      forall b | i < b < |s| ensures s[b] != x { assert s[i] != s[b]; }
    }
    assert multiset(s) == multiset(s[..i]) + multiset([x]) + multiset(s[i + 1..]);
  }

  // ------------------------------------------------------------------
  // the local path
  // ------------------------------------------------------------------

  /** `max(preds, key=score)`: the first prediction with the highest
      score; an empty list has no maximum. */
  function Best(preds: seq<Pred>): (r: Result<Pred>)
    ensures r.Err? <==> preds == []
    ensures r.Ok? ==> r.value in preds && forall p :: p in preds ==> p.score <= r.value.score
    decreases |preds|
  {
    if preds == [] then Err(ValueError("max() arg is an empty sequence"))
    else if |preds| == 1 then Ok(preds[0])
    else
      var rest := Best(preds[1..]).value;
      assert forall p :: p in preds ==> p == preds[0] || p in preds[1..];
      if rest.score > preds[0].score then Ok(rest) else Ok(preds[0])
  }

  /** Ties go to the earliest prediction. */
  lemma BestIsFirst(preds: seq<Pred>, i: nat)
    requires Best(preds).Ok? && i < |preds| && preds[i] == Best(preds).value
    ensures exists k :: (0 <= k <= i && preds[k] == Best(preds).value
      && forall j :: 0 <= j < k ==> preds[j].score < preds[k].score)
  {
    var k := FirstBest(preds, i);
  }

  /** The position of the maximum `max` returns, found from any position
      holding it. */
  lemma {:induction false} FirstBest(preds: seq<Pred>, i: nat) returns (k: nat)
    requires Best(preds).Ok? && i < |preds| && preds[i] == Best(preds).value
    ensures k <= i && preds[k] == Best(preds).value
    ensures forall j :: 0 <= j < k ==> preds[j].score < preds[k].score
    decreases |preds|
  {
    var b := Best(preds).value;
    k := 0;
    if |preds| > 1 && preds[0].score < b.score {
      var rest := preds[1..];
      BestCons(preds);
      assert b == Best(rest).value;
      if i > 0 {
        assert rest[i - 1] == preds[i];
        var k' := FirstBest(rest, i - 1);
        k := k' + 1;
        assert preds[k] == rest[k'];
        forall j | 0 <= j < k ensures preds[j].score < preds[k].score {
          if j > 0 { assert preds[j] == rest[j - 1]; }
        }
      }
    }
  }

  /** Unfolding `max` at the first prediction. */
  lemma BestCons(preds: seq<Pred>)
    requires |preds| > 1
    ensures Best(preds[1..]).Ok?
    ensures Best(preds).value == if Best(preds[1..]).value.score > preds[0].score then Best(preds[1..]).value else preds[0]
  {
  }

  /** The assessment of a predicted label: entailment is checked first, so
      any label spelling `entail` (`not_entailment` included) counts as
      `yes`. */
  function LabelToAssessment(labelName: string): (a: string)
    ensures a in {"yes", "no", "circumstantial"}
    ensures Contains(Lower(labelName), "entail") ==> a == "yes"
    ensures !Contains(Lower(labelName), "entail") && Contains(Lower(labelName), "contradict") ==> a == "no"
    ensures !Contains(Lower(labelName), "entail") && !Contains(Lower(labelName), "contradict") ==> a == "circumstantial"
  {
    var l := Lower(labelName);
    if Contains(l, "entail") then "yes" else if Contains(l, "contradict") then "no" else "circumstantial"
  }

  lemma NotEntailmentIsYes(labelName: string)
    requires labelName == "not_entailment"
    ensures LabelToAssessment(labelName) == "yes"
  {
    assert Lower(labelName) == labelName;
    assert labelName[4..][..6] == "entail";
    ContainsAt(labelName, "entail", 4);
  }

  /** `meta.get(key)`: `None` when absent. */
  function MetaGet(meta: Fields, key: string): Value {
    GetOr(meta, key, Null)
  }

  /** The evidence dict for a passage whose best prediction is `best`. */
  function LocalItem(text: string, meta: Fields, best: Pred): Value {
    Obj([("quote", Str(text)), ("location", MetaGet(meta, "chunk_id")),
         ("assessment", Str(LabelToAssessment(best.labelName))),
         ("chunk_id", MetaGet(meta, "chunk_id")), ("type", MetaGet(meta, "type")),
         ("score", Num(best.score))])
  }

  /** `claim [SEP] text`. */
  function PairInput(claim: string, text: string): string {
    claim + " [SEP] " + text
  }

  /** The local loop over `zip(passages, metadatas)`, as a specification:
      for each of the first `n` pairs, skip it when the best score is
      below the threshold, else append its item. */
  function LocalEvidence(claim: string, passages: seq<string>, metadatas: seq<Fields>, n: nat,
                         pipe: Pipeline, classify: Classify): (r: Result<seq<Value>>)
    requires n <= |passages| && n <= |metadatas|
    ensures r.Ok? ==> |r.value| <= n
    decreases n
  {
    if n == 0 then Ok([])
    else
      var init :- LocalEvidence(claim, passages, metadatas, n - 1, pipe, classify);
      var best :- Best(classify(pipe, PairInput(claim, passages[n - 1])));
      if best.score < Threshold then Ok(init)
      else Ok(init + [LocalItem(passages[n - 1], metadatas[n - 1], best)])
  }

  /** An assessment the local path can produce. */
  predicate LocallyAssessed(v: Value) {
    v.Obj? && exists a :: a in {"yes", "no", "circumstantial"} && Get(v.fields, "assessment") == Some(Str(a))
  }

  /** The positions among the first `n` passages whose best prediction
      reaches the threshold, in increasing order. */
  function KeptIndexes(claim: string, passages: seq<string>, n: nat, pipe: Pipeline, classify: Classify)
    : (ix: seq<nat>)
    requires n <= |passages|
    ensures forall k :: 0 <= k < |ix| ==> ix[k] < n && Best(classify(pipe, PairInput(claim, passages[ix[k]]))).Ok?
    decreases n
  {
    if n == 0 then []
    else
      var best := Best(classify(pipe, PairInput(claim, passages[n - 1])));
      KeptIndexes(claim, passages, n - 1, pipe, classify)
        + (if best.Ok? && best.value.score >= Threshold then [n - 1] else [])
  }

  /** A position is kept exactly when its best prediction reaches the
      threshold. */
  lemma {:induction false} KeptIndexesExactly(claim: string, passages: seq<string>, n: nat,
                                              pipe: Pipeline, classify: Classify)
    requires n <= |passages|
    ensures forall i :: 0 <= i < n ==>
      (i in KeptIndexes(claim, passages, n, pipe, classify)
       <==> Best(classify(pipe, PairInput(claim, passages[i]))).Ok?
            && Best(classify(pipe, PairInput(claim, passages[i]))).value.score >= Threshold)
    decreases n
  {
    if n > 0 {
      KeptIndexesExactly(claim, passages, n - 1, pipe, classify);
      var init := KeptIndexes(claim, passages, n - 1, pipe, classify);
      assert n - 1 !in init;
      forall i | 0 <= i < n - 1
        ensures i in KeptIndexes(claim, passages, n, pipe, classify) <==> i in init
      {
      }
    }
  }

  /** The kept positions are strictly increasing. */
  lemma {:induction false} KeptIndexesIncreasing(claim: string, passages: seq<string>, n: nat,
                                                 pipe: Pipeline, classify: Classify)
    requires n <= |passages|
    ensures forall a, b :: 0 <= a < b < |KeptIndexes(claim, passages, n, pipe, classify)| ==>
      KeptIndexes(claim, passages, n, pipe, classify)[a] < KeptIndexes(claim, passages, n, pipe, classify)[b]
    decreases n
  {
    if n > 0 {
      KeptIndexesIncreasing(claim, passages, n - 1, pipe, classify);
      var ix' := KeptIndexes(claim, passages, n - 1, pipe, classify);
      var ix := KeptIndexes(claim, passages, n, pipe, classify);
      var best := Best(classify(pipe, PairInput(claim, passages[n - 1])));
      if best.Ok? && best.value.score >= Threshold {
        assert ix == ix' + [n - 1];
        forall a, b | 0 <= a < b < |ix| ensures ix[a] < ix[b] {
          assert ix[a] == ix'[a] && ix'[a] < n - 1;
          if b < |ix'| {
            assert ix[b] == ix'[b];
          } else {
            assert ix[b] == n - 1;
          }
        }
      } else {
        assert ix == ix';
      }
    }
  }

  /** The evidence dicts of the passages at positions `ix`, each built from
      its passage's best prediction. */
  function ItemsAt(claim: string, passages: seq<string>, metadatas: seq<Fields>, ix: seq<nat>,
                   pipe: Pipeline, classify: Classify): (r: seq<Value>)
    requires forall k :: 0 <= k < |ix| ==>
      ix[k] < |passages| && ix[k] < |metadatas| && Best(classify(pipe, PairInput(claim, passages[ix[k]]))).Ok?
    ensures |r| == |ix|
    ensures forall k :: 0 <= k < |ix| ==>
      r[k] == LocalItem(passages[ix[k]], metadatas[ix[k]], Best(classify(pipe, PairInput(claim, passages[ix[k]]))).value)
  {
    seq(|ix|, k requires 0 <= k < |ix| =>
      LocalItem(passages[ix[k]], metadatas[ix[k]], Best(classify(pipe, PairInput(claim, passages[ix[k]]))).value))
  }

  /** One more position adds its item at the end. */
  lemma ItemsAtSnoc(claim: string, passages: seq<string>, metadatas: seq<Fields>, ix: seq<nat>, i: nat,
                    pipe: Pipeline, classify: Classify)
    requires forall k :: 0 <= k < |ix| ==>
      ix[k] < |passages| && ix[k] < |metadatas| && Best(classify(pipe, PairInput(claim, passages[ix[k]]))).Ok?
    requires i < |passages| && i < |metadatas| && Best(classify(pipe, PairInput(claim, passages[i]))).Ok?
    ensures ItemsAt(claim, passages, metadatas, ix + [i], pipe, classify)
         == ItemsAt(claim, passages, metadatas, ix, pipe, classify)
            + [LocalItem(passages[i], metadatas[i], Best(classify(pipe, PairInput(claim, passages[i]))).value)]
  {
    var a := ItemsAt(claim, passages, metadatas, ix + [i], pipe, classify);
    var b := ItemsAt(claim, passages, metadatas, ix, pipe, classify);
    forall k | 0 <= k < |ix| ensures a[k] == b[k] {
      assert (ix + [i])[k] == ix[k];
    }
    assert (ix + [i])[|ix|] == i;
  }

  /** The local loop succeeds only if every one of the first `n` pairs has
      a prediction. */
  lemma {:induction false} LocalEvidenceOk(claim: string, passages: seq<string>, metadatas: seq<Fields>,
                                           n: nat, pipe: Pipeline, classify: Classify)
    requires n <= |passages| && n <= |metadatas|
    requires LocalEvidence(claim, passages, metadatas, n, pipe, classify).Ok?
    ensures forall i :: 0 <= i < n ==> Best(classify(pipe, PairInput(claim, passages[i]))).Ok?
    decreases n
  {
    if n > 0 {
      LocalEvidenceOk(claim, passages, metadatas, n - 1, pipe, classify);
    }
  }

  /** On success, the items of the local loop are those of the kept
      positions: the k-th item is the evidence dict of the k-th kept
      passage, built from that passage's best prediction. */
  lemma {:induction false} LocalEvidenceIndexed(claim: string, passages: seq<string>, metadatas: seq<Fields>,
                                                n: nat, pipe: Pipeline, classify: Classify)
    requires n <= |passages| && n <= |metadatas|
    requires LocalEvidence(claim, passages, metadatas, n, pipe, classify).Ok?
    ensures LocalEvidence(claim, passages, metadatas, n, pipe, classify).value
         == ItemsAt(claim, passages, metadatas, KeptIndexes(claim, passages, n, pipe, classify), pipe, classify)
    decreases n
  {
    if n > 0 {
      LocalEvidenceIndexed(claim, passages, metadatas, n - 1, pipe, classify);
      var init := LocalEvidence(claim, passages, metadatas, n - 1, pipe, classify).value;
      var ix' := KeptIndexes(claim, passages, n - 1, pipe, classify);
      var best := Best(classify(pipe, PairInput(claim, passages[n - 1])));
      if best.value.score >= Threshold {
        assert LocalEvidence(claim, passages, metadatas, n, pipe, classify).value
            == init + [LocalItem(passages[n - 1], metadatas[n - 1], best.value)];
        assert KeptIndexes(claim, passages, n, pipe, classify) == ix' + [n - 1];
        ItemsAtSnoc(claim, passages, metadatas, ix', n - 1, pipe, classify);
      } else {
        assert LocalEvidence(claim, passages, metadatas, n, pipe, classify).value == init;
        assert KeptIndexes(claim, passages, n, pipe, classify) == ix';
      }
    }
  }

  /** The local loop, item by item: it succeeds only if every one of the
      first `n` pairs has a prediction; its items are, in increasing passage
      order, the evidence dicts of exactly the passages whose best
      prediction reaches the threshold, each built from that prediction. */
  lemma LocalEvidenceOrder(claim: string, passages: seq<string>, metadatas: seq<Fields>,
                           n: nat, pipe: Pipeline, classify: Classify) returns (ix: seq<nat>)
    requires n <= |passages| && n <= |metadatas|
    requires LocalEvidence(claim, passages, metadatas, n, pipe, classify).Ok?
    ensures forall i :: 0 <= i < n ==> Best(classify(pipe, PairInput(claim, passages[i]))).Ok?
    ensures |ix| == |LocalEvidence(claim, passages, metadatas, n, pipe, classify).value|
    ensures forall a, b :: 0 <= a < b < |ix| ==> ix[a] < ix[b]
    ensures forall k :: 0 <= k < |ix| ==> ix[k] < n
    ensures forall k :: 0 <= k < |ix| ==>
      LocalEvidence(claim, passages, metadatas, n, pipe, classify).value[k]
      == LocalItem(passages[ix[k]], metadatas[ix[k]], Best(classify(pipe, PairInput(claim, passages[ix[k]]))).value)
    ensures forall i :: 0 <= i < n ==>
      (i in ix <==> Best(classify(pipe, PairInput(claim, passages[i]))).value.score >= Threshold)
  {
    ix := KeptIndexes(claim, passages, n, pipe, classify);
    LocalEvidenceOk(claim, passages, metadatas, n, pipe, classify);
    LocalEvidenceIndexed(claim, passages, metadatas, n, pipe, classify);
    KeptIndexesIncreasing(claim, passages, n, pipe, classify);
    KeptIndexesExactly(claim, passages, n, pipe, classify);
  }

  /** The same, item against passage: every local item is the evidence
      dict of a passage built from its best prediction, which reaches the
      threshold, and every passage whose best prediction reaches the
      threshold contributes its item. */
  lemma LocalEvidenceItems(claim: string, passages: seq<string>, metadatas: seq<Fields>,
                           n: nat, pipe: Pipeline, classify: Classify)
    requires n <= |passages| && n <= |metadatas|
    requires LocalEvidence(claim, passages, metadatas, n, pipe, classify).Ok?
    ensures forall i :: 0 <= i < n ==> Best(classify(pipe, PairInput(claim, passages[i]))).Ok?
    ensures forall v :: v in LocalEvidence(claim, passages, metadatas, n, pipe, classify).value ==>
      exists i :: (0 <= i < n && Best(classify(pipe, PairInput(claim, passages[i]))).Ok?
                   && Best(classify(pipe, PairInput(claim, passages[i]))).value.score >= Threshold
                   && v == LocalItem(passages[i], metadatas[i], Best(classify(pipe, PairInput(claim, passages[i]))).value))
    ensures forall i :: (0 <= i < n && Best(classify(pipe, PairInput(claim, passages[i]))).Ok?
                         && Best(classify(pipe, PairInput(claim, passages[i]))).value.score >= Threshold) ==>
      LocalItem(passages[i], metadatas[i], Best(classify(pipe, PairInput(claim, passages[i]))).value)
      in LocalEvidence(claim, passages, metadatas, n, pipe, classify).value
  {
    var r := LocalEvidence(claim, passages, metadatas, n, pipe, classify).value;
    var ix := LocalEvidenceOrder(claim, passages, metadatas, n, pipe, classify);
    forall v | v in r
      ensures exists i :: (0 <= i < n && Best(classify(pipe, PairInput(claim, passages[i]))).Ok?
                           && Best(classify(pipe, PairInput(claim, passages[i]))).value.score >= Threshold
                           && v == LocalItem(passages[i], metadatas[i], Best(classify(pipe, PairInput(claim, passages[i]))).value))
    {
      var k :| 0 <= k < |r| && r[k] == v;
      assert ix[k] in ix;
    }
    forall i | (0 <= i < n && Best(classify(pipe, PairInput(claim, passages[i]))).Ok?
                && Best(classify(pipe, PairInput(claim, passages[i]))).value.score >= Threshold)
      ensures LocalItem(passages[i], metadatas[i], Best(classify(pipe, PairInput(claim, passages[i]))).value) in r
    {
      var k :| 0 <= k < |ix| && ix[k] == i;
      assert r[k] == LocalItem(passages[i], metadatas[i], Best(classify(pipe, PairInput(claim, passages[i]))).value);
    }
  }

  /** So every local assessment is one of the three local verdicts. */
  lemma {:induction false} LocalAssessments(claim: string, passages: seq<string>, metadatas: seq<Fields>,
                                            n: nat, pipe: Pipeline, classify: Classify)
    requires n <= |passages| && n <= |metadatas|
    requires LocalEvidence(claim, passages, metadatas, n, pipe, classify).Ok?
    ensures forall v :: v in LocalEvidence(claim, passages, metadatas, n, pipe, classify).value ==>
      LocallyAssessed(v)
    decreases n
  {
    if n > 0 {
      LocalAssessments(claim, passages, metadatas, n - 1, pipe, classify);
      var best := Best(classify(pipe, PairInput(claim, passages[n - 1]))).value;
      LocalItemAssessed(passages[n - 1], metadatas[n - 1], best);
    }
  }

  lemma LocalItemAssessed(text: string, meta: Fields, best: Pred)
    ensures LocallyAssessed(LocalItem(text, meta, best))
  {
    var a := LabelToAssessment(best.labelName);
    assert LocalItem(text, meta, best).fields[2] == ("assessment", Str(a));
  }

  /** The local branch of `assess`. */
  method AssessLocal(claim: string, passages: seq<string>, metadatas: seq<Fields>,
                     pipe: Pipeline, classify: Classify) returns (r: Result<seq<Value>>)
    ensures r == LocalEvidence(claim, passages, metadatas, Min(|passages|, |metadatas|), pipe, classify)
  {
    var n := Min(|passages|, |metadatas|);
    var evidence: seq<Value> := [];
    var i := 0;
    while i < n
      invariant 0 <= i <= n
      invariant LocalEvidence(claim, passages, metadatas, i, pipe, classify) == Ok(evidence)
    {
      var preds := classify(pipe, PairInput(claim, passages[i]));
      var best := Best(preds);
      if best.Err? {
        LocalEvidenceFails(claim, passages, metadatas, i + 1, n, pipe, classify);
        return Err(best.error);
      }
      if best.value.score >= Threshold {
        evidence := evidence + [LocalItem(passages[i], metadatas[i], best.value)];
      }
      i := i + 1;
    }
    return Ok(evidence);
  }

  lemma {:induction false} LocalEvidenceFails(claim: string, passages: seq<string>, metadatas: seq<Fields>,
                                              k: nat, n: nat, pipe: Pipeline, classify: Classify)
    requires k <= n <= |passages| && n <= |metadatas|
    requires LocalEvidence(claim, passages, metadatas, k, pipe, classify).Err?
    ensures LocalEvidence(claim, passages, metadatas, n, pipe, classify)
         == LocalEvidence(claim, passages, metadatas, k, pipe, classify)
    decreases n
  {
    if k < n {
      LocalEvidenceFails(claim, passages, metadatas, k, n - 1, pipe, classify);
    }
  }

  // ------------------------------------------------------------------
  // the remote path
  // ------------------------------------------------------------------

  /** `SYSTEM_INSTR.strip()`. */
  const SystemInstr :=
    "You are an expert evidence‐checking assistant. Your goal is to determine if each claim is supported by the provided passages, allowing for synonyms, paraphrases, and implied meanings. Use only the passages given; do not draw on external knowledge.\n\n"
    + "For each claim:\n"
    + "- Return a JSON object with a single key \"evidence\" which is an array of evidence objects.\n"
    + "- Each evidence object must have \"quote\", \"location\", \"assessment\", \"chunk_id\", and \"type\" keys.\n"
    + "- The \"assessment\" for each evidence object must be one of: \"yes\", \"circumstantial\", \"partial\", or \"no\".\n"
    + "- If no passage supports or implies the claim, return an empty \"evidence\" array.\n\n"
    + "Always produce valid JSON with the described structure."

  const InputOpen := "\n\n<INPUT>\n"
  const InputClose := "\n</INPUT>\n\nReturn the JSON object as specified above."

  /** One `{"text", "chunk_id", "type"}` passage of the payload. */
  function PassageEntry(text: string, meta: Fields): Value {
    Obj([("text", Str(text)), ("chunk_id", MetaGet(meta, "chunk_id")), ("type", MetaGet(meta, "type"))])
  }

  function PassageEntries(passages: seq<string>, metadatas: seq<Fields>): (r: seq<Value>)
    ensures |r| == Min(|passages|, |metadatas|)
    ensures forall i :: 0 <= i < |r| ==> r[i] == PassageEntry(passages[i], metadatas[i])
  {
    seq(Min(|passages|, |metadatas|), i requires 0 <= i < Min(|passages|, |metadatas|) =>
      PassageEntry(passages[i], metadatas[i]))
  }

  /** The user payload `{"claim", "passages"}`. */
  function Payload(claim: string, passages: seq<string>, metadatas: seq<Fields>): Value {
    Obj([("claim", Str(claim)), ("passages", List(PassageEntries(passages, metadatas)))])
  }

  /** The remote prompt: the stripped instructions, the payload's JSON
      wrapped in `<INPUT>`, and the closing request. */
  function RemotePrompt(claim: string, passages: seq<string>, metadatas: seq<Fields>, dump: Utils.Dump)
    : (p: string)
    ensures |p| == |SystemInstr + InputOpen| + |dump(Payload(claim, passages, metadatas))| + |InputClose|
    ensures StartsWith(p, SystemInstr + InputOpen) && EndsWith(p, InputClose)
    ensures p[|SystemInstr + InputOpen|..|p| - |InputClose|] == dump(Payload(claim, passages, metadatas))
  {
    var head := SystemInstr + InputOpen;
    var body := dump(Payload(claim, passages, metadatas));
    var p := head + body + InputClose;
    assert p[..|head|] == head;
    assert p[|p| - |InputClose|..] == InputClose;
    assert p[|head|..|p| - |InputClose|] == body;
    p
  }

  /** The lenient read of the completion: `json.loads(raw).get("evidence",
      [])`, where anything that raises (a non-string, text that is not
      JSON, a JSON value without `.get`) gives `[]`. */
  function RemoteEvidence(raw: Value, parse: Utils.Parse): (r: Value)
    ensures !(raw.Str? && parse(raw.s).Some? && parse(raw.s).value.Obj?) ==> r == List([])
    ensures raw.Str? && parse(raw.s).Some? && parse(raw.s).value.Obj? ==>
      var f := parse(raw.s).value.fields;
      (HasKey(f, "evidence") ==> Some(r) == Get(f, "evidence"))
      && (!HasKey(f, "evidence") ==> r == List([]))
  {
    if raw.Str? && parse(raw.s).Some? && parse(raw.s).value.Obj? then
      GetOr(parse(raw.s).value.fields, "evidence", List([]))
    else List([])
  }

  /** The remote branch of `assess`: the model is `llm_model` or
      `alias-large`; a failed completion propagates, a bad answer does not. */
  function AssessRemote(claim: string, passages: seq<string>, metadatas: seq<Fields>,
                        llmModel: Option<string>, baseUrl: Option<string>, envBase: Option<string>,
                        dump: Utils.Dump, parse: Utils.Parse, post: Transport): (r: Result<Value>)
    ensures r.Ok? <==> ClientCompletion(post, OrElse(baseUrl, envBase), OrDefault(llmModel, "alias-large"),
                                        RemotePrompt(claim, passages, metadatas, dump), 512).Ok?
    ensures r.Ok? ==> r.value == RemoteEvidence(ClientCompletion(post, OrElse(baseUrl, envBase), OrDefault(llmModel, "alias-large"),
                                                                 RemotePrompt(claim, passages, metadatas, dump), 512).value, parse)
  {
    var raw :- ClientCompletion(post, OrElse(baseUrl, envBase), OrDefault(llmModel, "alias-large"),
                                RemotePrompt(claim, passages, metadatas, dump), 512);
    Ok(RemoteEvidence(raw, parse))
  }

  /** What `assess(claim, passages, metadatas, nli_model, llm_model, …)`
      returns: a registered `nli_model` runs the local classifier over the
      pipeline of its checkpoint, anything else (`None` included) goes
      remote. */
  function AssessResult(claim: string, passages: seq<string>, metadatas: seq<Fields>,
                        nliModel: Option<string>, llmModel: Option<string>, baseUrl: Option<string>,
                        envBase: Option<string>, classify: Classify,
                        dump: Utils.Dump, parse: Utils.Parse, post: Transport): (r: Result<Value>)
    ensures IsLocal(nliModel) ==> var pipe := Pipeline(LocalPaths[nliModel.value]);
      var local := LocalEvidence(claim, passages, metadatas, Min(|passages|, |metadatas|), pipe, classify);
      (r.Ok? <==> local.Ok?) && (r.Ok? ==> r.value == List(local.value))
    ensures !IsLocal(nliModel) ==>
      r == AssessRemote(claim, passages, metadatas, llmModel, baseUrl, envBase, dump, parse, post)
  {
    if IsLocal(nliModel) then
      var pipe := Pipeline(LocalPaths[nliModel.value]);
      var local :- LocalEvidence(claim, passages, metadatas, Min(|passages|, |metadatas|), pipe, classify);
      Ok(List(local))
    else AssessRemote(claim, passages, metadatas, llmModel, baseUrl, envBase, dump, parse, post)
  }

  /** `assess(…)`, which fills the pipeline cache on the local path and
      leaves it alone on the remote one. */
  method Assess(claim: string, passages: seq<string>, metadatas: seq<Fields>,
                nliModel: Option<string>, llmModel: Option<string>, baseUrl: Option<string>,
                envBase: Option<string>, registry: NliRegistry, classify: Classify,
                dump: Utils.Dump, parse: Utils.Parse, post: Transport) returns (r: Result<Value>)
    requires registry.Valid()
    modifies registry
    ensures registry.Valid()
    ensures r == AssessResult(claim, passages, metadatas, nliModel, llmModel, baseUrl, envBase,
                              classify, dump, parse, post)
    ensures !IsLocal(nliModel) ==> registry.models == old(registry.models) && registry.constructed == old(registry.constructed)
    ensures IsLocal(nliModel) ==>
      registry.models == old(registry.models)[nliModel.value := Pipeline(LocalPaths[nliModel.value])]
    ensures IsLocal(nliModel) && nliModel.value in old(registry.models) ==> registry.constructed == old(registry.constructed)
    ensures IsLocal(nliModel) && nliModel.value !in old(registry.models) ==>
      registry.constructed == old(registry.constructed) + [nliModel.value]
  {
    if IsLocal(nliModel) {
      var got := registry.GetLocalPipeline(nliModel.value);
      if got.Err? {
        assert false;
      }
      var pipe := got.value;
      var evidence :- AssessLocal(claim, passages, metadatas, pipe, classify);
      return Ok(List(evidence));
    }
    return AssessRemote(claim, passages, metadatas, llmModel, baseUrl, envBase, dump, parse, post);
  }
}
