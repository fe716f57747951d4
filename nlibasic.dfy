/** The single-choice citation checker (nli-checking.py).  Its text
    normalisation and sentence extraction are the same code as in the
    moving-window checker and are taken from there; it differs in keeping
    only entailment scores, in always using windows of one, two and three
    sentences, and in how it labels the candidates. */
module NliBasic {
  import opened Common
  import opened Strs
  import opened Ranking
  import opened NliChecking

  /** One `(window_text, score)` tuple. */
  datatype Scored = Scored(text: string, score: real)

  function ScoreOfScored(s: Scored): real { s.score }

  /** `max([p["score"] for p in entailments], default=0.0)`. */
  function EntailScore(preds: seq<Prediction>): real {
    var g := Group(preds, EntailTag);
    if g == [] then 0.0 else Max(g)
  }

  /** The score is the best entailment score, or 0.0 when no prediction is
      labelled as entailment. */
  lemma {:induction false} EntailScoreBest(preds: seq<Prediction>)
    ensures (forall p :: p in preds ==> !Tagged(p, EntailTag)) ==> EntailScore(preds) == 0.0
    ensures (exists p :: p in preds && Tagged(p, EntailTag)) ==> BestOf(preds, EntailTag, EntailScore(preds))
  {
    var g := Group(preds, EntailTag);
    GroupIff(preds, EntailTag);
    if g != [] {
      var m := Max(g);
      assert m in g;
      forall p | p in preds && Tagged(p, EntailTag) ensures p.score <= m {
        assert p.score in g;
      }
    } else {
      assert forall p :: p in preds && Tagged(p, EntailTag) ==> p.score in g;
    }
  }

  /** One iteration of the inner loop: the window's tuple when all its
      sentences have three words, the pipeline succeeds and the score is
      positive. */
  function WindowScored(window: seq<string>, citing: string, nli: Pipeline): seq<Scored> {
    if !AllWorded(window) then []
    else
      match nli(WindowInput(citing, window))
      case None => []
      case Some(preds) =>
        var score := EntailScore(preds);
        if score > 0.0 then [Scored(Join(" ", window), score)] else []
  }

  /** The candidates of the first `k` windows of length `w`. */
  function ScoredRun(ss: seq<string>, w: nat, k: nat, citing: string, nli: Pipeline): seq<Scored>
    requires k <= WindowCount(|ss|, w)
  {
    if k == 0 then []
    else ScoredRun(ss, w, k - 1, citing, nli) + WindowScored(ss[k - 1..k - 1 + w], citing, nli)
  }

  /** The window lengths of the outer loop; any requested lengths are ignored. */
  const FixedWindows: seq<nat> := [1, 2, 3]

  /** The unsorted `all_results` after the window lengths `ws`, in order. */
  function ScoredOver(ss: seq<string>, ws: seq<nat>, citing: string, nli: Pipeline): seq<Scored> {
    if ws == [] then []
    else
      var w := ws[|ws| - 1];
      ScoredOver(ss, ws[..|ws| - 1], citing, nli) + ScoredRun(ss, w, WindowCount(|ss|, w), citing, nli)
  }

  /** `nli_candidates_all_results` on sentences already extracted. */
  function BasicResultsOf(ss: seq<string>, citing: string, nli: Pipeline): seq<Scored> {
    SortDesc(ScoredOver(ss, FixedWindows, citing, nli), ScoreOfScored)
  }

  /** The inner loop of `nli_candidates_all_results`: the windows of one length. */
  method ScoredPass(ss: seq<string>, w: nat, citing: string, nli: Pipeline) returns (run: seq<Scored>)
    ensures run == ScoredRun(ss, w, WindowCount(|ss|, w), citing, nli)
  {
    run := [];
    for i := 0 to WindowCount(|ss|, w)
      invariant run == ScoredRun(ss, w, i, citing, nli)
    {
      run := run + WindowScored(ss[i..i + w], citing, nli);
    }
  }

  /** The two loops of `nli_candidates_all_results`, then the sort. */
  method BasicResults(tagged: seq<string>, xml: string, citing: string, nli: Pipeline)
    returns (r: seq<Scored>)
    ensures r == BasicResultsOf(Sentences(tagged, xml), citing, nli)
  {
    var ss := Sentences(tagged, xml);
    var acc: seq<Scored> := [];
    for j := 0 to |FixedWindows|
      invariant acc == ScoredOver(ss, FixedWindows[..j], citing, nli)
    {
      var run := ScoredPass(ss, FixedWindows[j], citing, nli);
      acc := acc + run;
      TakeTake(FixedWindows, j);
    }
    TakeAll(FixedWindows);
    r := SortDesc(acc, ScoreOfScored);
  }

  /** `nli_candidates_top5_results`; its window argument is never used. */
  method BasicTop5(tagged: seq<string>, xml: string, citing: string, nli: Pipeline)
    returns (r: seq<Scored>)
    ensures r == Top5(BasicResultsOf(Sentences(tagged, xml), citing, nli))
  {
    var all := BasicResults(tagged, xml, citing, nli);
    r := Top5(all);
  }

  // ------------------------------------------------------------------
  // Agreement with the moving-window checker
  // ------------------------------------------------------------------

  /** A candidate as a 2-tuple, when it is an entailing one. */
  function EntailOne(c: Cand): seq<Scored> {
    if c.kind == Entailing then [Scored(c.text, c.score)] else []
  }

  /** The entailing candidates of the moving-window checker, as 2-tuples. */
  function Entail(cs: seq<Cand>): seq<Scored> {
    if cs == [] then [] else Entail(cs[..|cs| - 1]) + EntailOne(cs[|cs| - 1])
  }

  lemma {:induction false} EntailConcat(a: seq<Cand>, b: seq<Cand>)
    ensures Entail(a + b) == Entail(a) + Entail(b)
    decreases |b|
  {
    if b == [] {
      assert a + b == a;
    } else {
      assert (a + b)[..|a + b| - 1] == a + b[..|b| - 1];
      EntailConcat(a, b[..|b| - 1]);
    }
  }

  lemma {:induction false} EntailNone(cs: seq<Cand>)
    requires forall i :: 0 <= i < |cs| ==> cs[i].kind == Contradicting
    ensures Entail(cs) == []
  {
    if cs != [] {
      EntailNone(cs[..|cs| - 1]);
    }
  }

  lemma {:induction false} EntailCons(c: Cand, s: seq<Cand>)
    ensures Entail([c] + s) == EntailOne(c) + Entail(s)
  {
    EntailConcat([c], s);
    assert Entail([c]) == Entail([]) + EntailOne(c);
  }

  /** The entailing group's tuple, as the single-choice checker sees it. */
  lemma {:induction false} EntailTuple(text: string, preds: seq<Prediction>)
    ensures Entail(Tuple(text, preds, EntailTag, Entailing))
         == if EntailScore(preds) > 0.0 then [Scored(text, EntailScore(preds))] else []
  {
    var e := Tuple(text, preds, EntailTag, Entailing);
    if e != [] {
      assert e == [Cand(text, EntailScore(preds), Entailing)];
      EntailCons(e[0], []);
    }
  }

  lemma {:induction false} EntailContradicting(text: string, preds: seq<Prediction>)
    ensures Entail(Tuple(text, preds, ContradictTag, Contradicting)) == []
  {
    EntailNone(Tuple(text, preds, ContradictTag, Contradicting));
  }

  /** A window yields exactly the entailing candidate the moving-window
      checker finds for it. */
  lemma {:induction false} WindowAgrees(window: seq<string>, citing: string, nli: Pipeline)
    ensures WindowScored(window, citing, nli) == Entail(WindowCands(window, citing, nli))
  {
    if AllWorded(window) && nli(WindowInput(citing, window)).Some? {
      var preds := nli(WindowInput(citing, window)).value;
      var text := Join(" ", window);
      EntailConcat(Tuple(text, preds, EntailTag, Entailing), Tuple(text, preds, ContradictTag, Contradicting));
      EntailTuple(text, preds);
      EntailContradicting(text, preds);
    }
  }

  lemma {:induction false} RunAgrees(ss: seq<string>, w: nat, k: nat, citing: string, nli: Pipeline)
    requires k <= WindowCount(|ss|, w)
    ensures ScoredRun(ss, w, k, citing, nli) == Entail(WindowRun(ss, w, k, citing, nli))
  {
    if k > 0 {
      RunAgrees(ss, w, k - 1, citing, nli);
      WindowAgrees(ss[k - 1..k - 1 + w], citing, nli);
      EntailConcat(WindowRun(ss, w, k - 1, citing, nli), WindowCands(ss[k - 1..k - 1 + w], citing, nli));
    }
  }

  /** Before sorting, the tuples are the entailing candidates of the
      moving-window checker for the same window lengths, in order. */
  lemma {:induction false} ScoredOverAgrees(ss: seq<string>, ws: seq<nat>, citing: string, nli: Pipeline)
    ensures ScoredOver(ss, ws, citing, nli) == Entail(Candidates(ss, ws, citing, nli))
  {
    if ws != [] {
      var w := ws[|ws| - 1];
      var init := ws[..|ws| - 1];
      ScoredOverAgrees(ss, init, citing, nli);
      RunAgrees(ss, w, WindowCount(|ss|, w), citing, nli);
      EntailConcat(Candidates(ss, init, citing, nli), WindowRun(ss, w, WindowCount(|ss|, w), citing, nli));
    }
  }

  /** Taking the entailing candidates commutes with inserting one more into
      a ranked list. */
  lemma {:induction false} EntailInsert(x: Cand, s: seq<Cand>)
    requires SortedDesc(s, ScoreOf)
    decreases |s|, 1
    ensures Entail(Insert(x, s, ScoreOf))
         == if x.kind == Entailing then Insert(Scored(x.text, x.score), Entail(s), ScoreOfScored)
            else Entail(s)
  {
    if s == [] {
      EntailCons(x, []);
    } else if s[0].score >= x.score {
      EntailInsertAfter(x, s);
    } else {
      EntailInsertFront(x, s);
    }
  }

  lemma {:induction false} EntailInsertAfter(x: Cand, s: seq<Cand>)
    requires SortedDesc(s, ScoreOf) && s != [] && s[0].score >= x.score
    ensures Entail(Insert(x, s, ScoreOf))
         == if x.kind == Entailing then Insert(Scored(x.text, x.score), Entail(s), ScoreOfScored)
            else Entail(s)
    decreases |s|, 0
  {
    var rest := s[1..];
    assert s == [s[0]] + rest;
    assert Insert(x, s, ScoreOf) == [s[0]] + Insert(x, rest, ScoreOf);
    EntailCons(s[0], rest);
    EntailInsert(x, rest);
    EntailCons(s[0], Insert(x, rest, ScoreOf));
    var px := Scored(x.text, x.score);
    if s[0].kind == Entailing {
      var e := Entail(s);
      assert e == [Scored(s[0].text, s[0].score)] + Entail(rest);
      assert e[1..] == Entail(rest);
      if x.kind == Entailing {
        assert Insert(px, e, ScoreOfScored) == [e[0]] + Insert(px, Entail(rest), ScoreOfScored);
      }
    } else {
      assert EntailOne(s[0]) == [];
      assert Entail(s) == Entail(rest);
      assert Entail(Insert(x, s, ScoreOf)) == Entail(Insert(x, rest, ScoreOf));
    }
  }

  lemma {:induction false} EntailInsertFront(x: Cand, s: seq<Cand>)
    requires SortedDesc(s, ScoreOf) && s != [] && s[0].score < x.score
    ensures Entail(Insert(x, s, ScoreOf))
         == if x.kind == Entailing then Insert(Scored(x.text, x.score), Entail(s), ScoreOfScored)
            else Entail(s)
  {
    EntailCons(x, s);
    forall i | 0 <= i < |s| ensures s[i].score < x.score {
      if i > 0 {
        assert s[0].score >= s[i].score;
      }
    }
    EntailBound(s, x.score);
  }

  lemma {:induction false} EntailBound(s: seq<Cand>, k: real)
    requires forall i :: 0 <= i < |s| ==> s[i].score < k
    ensures forall i :: 0 <= i < |Entail(s)| ==> Entail(s)[i].score < k
  {
    if s != [] {
      EntailBound(s[..|s| - 1], k);
    }
  }

  /** The ranked tuples are the moving-window checker's ranked entailing
      candidates for window lengths 1, 2 and 3. */
  lemma {:induction false} BasicAgrees(ss: seq<string>, citing: string, nli: Pipeline)
    ensures BasicResultsOf(ss, citing, nli) == Entail(AllResultsOf(ss, FixedWindows, citing, nli))
  {
    ScoredOverAgrees(ss, FixedWindows, citing, nli);
    SortEntail(Candidates(ss, FixedWindows, citing, nli));
  }

  lemma {:induction false} SortEntail(xs: seq<Cand>)
    ensures SortDesc(Entail(xs), ScoreOfScored) == Entail(SortDesc(xs, ScoreOf))
  {
    if xs != [] {
      var init := xs[..|xs| - 1];
      var x := xs[|xs| - 1];
      SortEntail(init);
      SortDescSorted(init, ScoreOf);
      EntailInsert(x, SortDesc(init, ScoreOf));
      var e := Entail(xs);
      if x.kind == Entailing {
        assert e[..|e| - 1] == Entail(init) && e[|e| - 1] == Scored(x.text, x.score);
      } else {
        assert e == Entail(init);
      }
    }
  }

  /** The ranked tuples are ordered by descending score and are a
      permutation of the window tuples. */
  lemma {:induction false} BasicRanked(ss: seq<string>, citing: string, nli: Pipeline)
    ensures SortedDesc(BasicResultsOf(ss, citing, nli), ScoreOfScored)
    ensures multiset(BasicResultsOf(ss, citing, nli)) == multiset(ScoredOver(ss, FixedWindows, citing, nli))
  {
    SortDescSorted(ScoredOver(ss, FixedWindows, citing, nli), ScoreOfScored);
  }

  // ------------------------------------------------------------------
  // citation_checker
  // ------------------------------------------------------------------

  /** `f"Candidate {i}:"`. */
  function CandidateHead(i: nat): string {
    "Candidate " + NatToStr(i) + ":"
  }

  /** `f"Candidate {i}:\n{ctx}\n(Confidence: {sc:.4f})"`; `conf` renders the score. */
  function RadioLabel(i: nat, s: Scored, conf: real -> string): string {
    CandidateHead(i) + "\n" + s.text + "\n" + ConfLine(conf(s.score))
  }

  /** `radio_list`: the candidates numbered from 1. */
  function RadioLabels(top: seq<Scored>, conf: real -> string): seq<string> {
    seq(|top|, i requires 0 <= i < |top| => RadioLabel(i + 1, top[i], conf))
  }

  /** The loop over `enumerate(top5, 1)`. */
  method RadioList(top: seq<Scored>, conf: real -> string) returns (labels: seq<string>)
    ensures labels == RadioLabels(top, conf)
  {
    labels := [];
    for i := 0 to |top|
      invariant |labels| == i
      invariant forall j :: 0 <= j < i ==> labels[j] == RadioLabel(j + 1, top[j], conf)
    {
      labels := labels + [RadioLabel(i + 1, top[i], conf)];
    }
  }

  lemma {:induction false} CandidateHeadOneLine(i: nat)
    ensures forall c :: c in CandidateHead(i) ==> !IsLineBreak(c)
  {
    var digits := NatToStr(i);
    assert forall c :: c in digits ==> IsDigit(c);
  }

  /** Label `i` starts with the line `Candidate i:` and holds the
      candidate's text. */
  lemma {:induction false} RadioLabelParts(top: seq<Scored>, conf: real -> string, i: nat)
    requires i < |top|
    ensures SplitLines(RadioLabels(top, conf)[i])[0] == CandidateHead(i + 1)
    ensures Contains(RadioLabels(top, conf)[i], top[i].text)
  {
    assert RadioLabels(top, conf)[i] == RadioLabel(i + 1, top[i], conf);
    CandidateHeadOneLine(i + 1);
    LabelParts(CandidateHead(i + 1), top[i].text, ConfLine(conf(top[i].score)));
  }

  /** A head line without breaks, then a text, then a tail: the first line
      is the head and the text occurs in the whole. */
  lemma LabelParts(head: string, text: string, tail: string)
    requires forall c :: c in head ==> !IsLineBreak(c)
    ensures SplitLines(head + "\n" + text + "\n" + tail)[0] == head
    ensures Contains(head + "\n" + text + "\n" + tail, text)
  {
    var l := head + "\n" + text + "\n" + tail;
    var rest := text + "\n" + tail;
    assert l == head + "\n" + rest;
    LineHeadOf(head, rest);
    assert l[|head| + 1..][..|text|] == text;
    ContainsAt(l, text, |head| + 1);
  }

  /** What `citation_checker` returns: the missing-body error (with no
      choices), or the extracted context and the radio choices. */
  datatype Radio = BodyMissing | Radio(context: string, choices: seq<string>)

  function RadioOf(body: Option<Body>, citing: string, windowOptions: seq<string>,
                   nli: Pipeline, conf: real -> string): Result<Radio>
  {
    match body
    case None => Ok(BodyMissing)
    case Some(b) =>
      var sizes :- WindowSizes(windowOptions);
      var top := Top5(BasicResultsOf(Sentences(b.sentences, b.markup), citing, nli));
      Ok(Radio(b.markup, RadioLabels(top, conf)))
  }

  /** `citation_checker`. */
  method BasicChecker(body: Option<Body>, citing: string, windowOptions: seq<string>,
                      nli: Pipeline, conf: real -> string) returns (r: Result<Radio>)
    ensures r == RadioOf(body, citing, windowOptions, nli, conf)
  {
    if body.None? {
      return Ok(BodyMissing);
    }
    var sizes := WindowSizes(windowOptions);
    if sizes.Err? {
      return Err(sizes.error);
    }
    var top := BasicTop5(body.value.sentences, body.value.markup, citing, nli);
    if top == [] {
      assert RadioLabels(top, conf) == [];
      return Ok(Radio(body.value.markup, []));
    }
    var labels := RadioList(top, conf);
    r := Ok(Radio(body.value.markup, labels));
  }

  /** Every choice's first line is `Candidate i:`, counting from 1. */
  predicate NumberedFrom1(choices: seq<string>) {
    forall i :: 0 <= i < |choices| ==> |SplitLines(choices[i])| > 0 && SplitLines(choices[i])[0] == CandidateHead(i + 1)
  }

  /** The radio labels are numbered from 1. */
  lemma RadioLabelsNumbered(top: seq<Scored>, conf: real -> string)
    ensures NumberedFrom1(RadioLabels(top, conf))
  {
    forall i | 0 <= i < |top| ensures SplitLines(RadioLabels(top, conf)[i])[0] == CandidateHead(i + 1) {
      RadioLabelParts(top, conf, i);
    }
  }

  /** The outcomes of `citation_checker`: no body gives the error, an
      unknown window option a KeyError, and otherwise up to five choices,
      none exactly when no window scored, numbered from 1. */
  lemma {:induction false} BasicOutcomes(body: Option<Body>, citing: string, windowOptions: seq<string>,
                                         nli: Pipeline, conf: real -> string)
    ensures var r := RadioOf(body, citing, windowOptions, nli, conf);
      (r == Ok(BodyMissing) <==> body.None?)
      && (r.Err? <==> body.Some? && exists i :: 0 <= i < |windowOptions| && WindowSize(windowOptions[i]).None?)
    ensures var r := RadioOf(body, citing, windowOptions, nli, conf);
      r.Ok? && r.value.Radio? ==>
        var all := BasicResultsOf(Sentences(body.value.sentences, body.value.markup), citing, nli);
        r.value.context == body.value.markup
        && |r.value.choices| == Min(5, |all|)
        && (r.value.choices == [] <==> all == [])
        && NumberedFrom1(r.value.choices)
  {
    WindowSizesIff(windowOptions);
    if body.Some? && WindowSizes(windowOptions).Ok? {
      var all := BasicResultsOf(Sentences(body.value.sentences, body.value.markup), citing, nli);
      RadioLabelsNumbered(Top5(all), conf);
    }
  }

  /** The window options only matter through the KeyError: any two valid
      selections give the same result. */
  lemma {:induction false} WindowOptionsIgnored(body: Option<Body>, citing: string, o1: seq<string>,
                                                o2: seq<string>, nli: Pipeline, conf: real -> string)
    requires WindowSizes(o1).Ok? && WindowSizes(o2).Ok?
    ensures RadioOf(body, citing, o1, nli, conf) == RadioOf(body, citing, o2, nli, conf)
  {
  }
}
