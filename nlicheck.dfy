/** The moving-window citation checker (nli-checking-extended.py).  The
    sentences of a cited article's TEI body are grouped into windows of one
    to three consecutive sentences; each window is paired with the citing
    sentence and classified by an NLI pipeline, which is an oracle here; the
    best entailment and contradiction scores become ranked candidates, which
    are labelled for selection, looked up again by rank, and finally marked
    selected or neutral. */
module NliChecking {
  import opened Common
  import opened Strs
  import opened Ranking

  // ------------------------------------------------------------------
  // normalize_text
  // ------------------------------------------------------------------

  /** `re.sub(r'\.\s*\.\s*\.', '...', s)`: three dots separated only by
      whitespace become `...`, matched left to right without overlap. */
  function JoinDots(s: string): (r: string)
    ensures |r| <= |s|
    ensures '.' !in s ==> r == s
    decreases |s|
  {
    if s == [] then []
    else if s[0] == '.' then
      var t1 := LStrip(s[1..]);
      if t1 != [] && t1[0] == '.' then
        var t2 := LStrip(t1[1..]);
        if t2 != [] && t2[0] == '.' then
          "..." + JoinDots(t2[1..])
        else [s[0]] + JoinDots(s[1..])
      else [s[0]] + JoinDots(s[1..])
    else [s[0]] + JoinDots(s[1..])
  }

  /** `…`, the character the second substitution removes. */
  const Ellipsis: char := '…'

  /** `normalize_text`: dotted and typographic ellipses become `...`, every
      whitespace run becomes one space, and the ends are stripped.  The
      normal form has no `…`, no outer whitespace, and single spaces only. */
  function NormalizeText(s: string): (r: string)
    ensures Ellipsis !in r
    ensures NoOuterSpace(r) && SingleSpaced(r)
  {
    var a := ReplaceAll(JoinDots(s), [Ellipsis], "...");
    ReplaceRemoves(JoinDots(s), Ellipsis, "...");
    var b := CollapseWs(a);
    CollapseChars(a);
    StripSingleSpaced(b);
    StripIsInfix(b);
    Strip(b)
  }

  lemma {:induction false} ReplaceRemoves(s: string, c: char, rep: string)
    requires c !in rep
    ensures c !in ReplaceAll(s, [c], rep)
    decreases |s|
  {
    if s != [] {
      if StartsWith(s, [c]) {
        ReplaceRemoves(s[1..], c, rep);
      } else {
        ReplaceRemoves(s[1..], c, rep);
      }
    }
  }

  /** Text that is already normal and has no dots or ellipsis is left as it is. */
  lemma {:induction false} NormalizeFixed(s: string)
    requires '.' !in s && Ellipsis !in s
    requires SingleSpaced(s) && NoOuterSpace(s)
    ensures NormalizeText(s) == s
  {
    ContainsChar(s, Ellipsis);
    ReplaceAbsent(s, [Ellipsis], "...");
    CollapseIdentity(s);
    StripNoOuterSpace(s);
  }

  // ------------------------------------------------------------------
  // Sentences
  // ------------------------------------------------------------------

  /** `len(s.split()) >= 3`. */
  predicate Worded(s: string) { |SplitWs(s)| >= 3 }

  /** A list comprehension's filter: the elements satisfying `p`, in order. */
  function Keep<T>(xs: seq<T>, p: T -> bool): seq<T> {
    if xs == [] then []
    else (if p(xs[0]) then [xs[0]] else []) + Keep(xs[1..], p)
  }

  lemma {:induction false} KeepIff<T>(xs: seq<T>, p: T -> bool)
    ensures forall x :: x in Keep(xs, p) <==> x in xs && p(x)
  {
    if xs != [] {
      KeepIff(xs[1..], p);
      assert xs == [xs[0]] + xs[1..];
    }
  }

  predicate IsStop(c: char) { c == '.' || c == '!' || c == '?' }

  /** The lookbehind split point of `(?<=[.!?])\s+`: a whitespace character
      right after sentence-ending punctuation. */
  predicate Break(t: string, i: int) {
    0 < i < |t| && IsStop(t[i - 1]) && IsSpace(t[i])
  }

  predicate NoBreak(t: string) { forall j :: 0 <= j < |t| ==> !Break(t, j) }

  /** The piece ends with sentence-ending punctuation. */
  predicate EndsStop(t: string) { t != [] && IsStop(t[|t| - 1]) }

  /** The first split point at or after `i`. */
  function FindBreak(t: string, i: nat): (r: Option<nat>)
    ensures r.Some? ==> i <= r.value < |t| && Break(t, r.value)
    ensures r.Some? ==> forall j :: i <= j < r.value ==> !Break(t, j)
    ensures r.None? ==> forall j :: i <= j < |t| ==> !Break(t, j)
    decreases |t| - i
  {
    if i >= |t| then None
    else if Break(t, i) then Some(i)
    else FindBreak(t, i + 1)
  }

  /** `re.split(r'(?<=[.!?])\s+', t)`: pieces end at punctuation followed by
      whitespace, and the whole whitespace run is dropped. */
  function SplitSentences(t: string): (r: seq<string>)
    ensures |r| >= 1
    ensures forall i :: 0 <= i < |r| ==> |r[i]| <= |t|
    decreases |t|
  {
    match FindBreak(t, 1)
    case None => [t]
    case Some(k) => [t[..k]] + SplitSentences(LStrip(t[k..]))
  }

  /** The piece before the first split point ends with the punctuation and
      holds no split point. */
  lemma {:induction false} HeadPiece(t: string, k: nat)
    requires FindBreak(t, 1) == Some(k)
    ensures EndsStop(t[..k])
    ensures NoBreak(t[..k])
  {
    forall j | 0 <= j < k ensures !Break(t[..k], j) {
      if j > 0 {
        assert Break(t[..k], j) ==> Break(t, j);
      }
    }
  }

  /** Each piece holds no split point. */
  lemma {:induction false} SplitSentencesNoBreak(t: string)
    ensures |SplitSentences(t)| >= 1
    ensures forall x :: x in SplitSentences(t) ==> NoBreak(x)
    decreases |t|
  {
    match FindBreak(t, 1)
    case None =>
      assert !Break(t, 0);
    case Some(k) =>
      HeadPiece(t, k);
      var rest := SplitTail(t, k);
      SplitSentencesNoBreak(rest);
  }

  /** Every piece but the last ends with the punctuation that ended its
      sentence. */
  lemma {:induction false} SplitSentencesStops(t: string)
    ensures var ps := SplitSentences(t);
      forall i :: 0 <= i < |ps| - 1 ==> EndsStop(ps[i])
    decreases |t|
  {
    match FindBreak(t, 1)
    case None =>
    case Some(k) =>
      HeadPiece(t, k);
      var rest := SplitTail(t, k);
      SplitSentencesStops(rest);
      AllButLastCons(t[..k], SplitSentences(rest), EndsStop);
  }

  lemma {:induction false} AllButLastCons<T>(h: T, rs: seq<T>, p: T -> bool)
    requires p(h)
    requires forall i :: 0 <= i < |rs| - 1 ==> p(rs[i])
    ensures var ps := [h] + rs;
      forall i :: 0 <= i < |ps| - 1 ==> p(ps[i])
  {
    var ps := [h] + rs;
    forall i | 0 <= i < |ps| - 1 ensures p(ps[i]) {
      if i > 0 {
        assert ps[i] == rs[i - 1];
      }
    }
  }

  /** The text after the first split point, and how the split continues. */
  lemma {:induction false} SplitTail(t: string, k: nat) returns (rest: string)
    requires FindBreak(t, 1) == Some(k)
    ensures |rest| < |t|
    ensures SplitSentences(t) == [t[..k]] + SplitSentences(rest)
  {
    rest := LStrip(t[k..]);
  }

  /** Text with no split point is one piece. */
  lemma {:induction false} SplitSentencesWhole(t: string)
    requires NoBreak(t)
    ensures SplitSentences(t) == [t]
  {
  }

  /** The regex fallback: the pieces of the stripped markup. */
  function Pieces(xml: string): seq<string> {
    SplitSentences(Strip(xml))
  }

  /** The sentences of the cited text: the `<s>` texts (`tagged`, with
      references removed) that have three words, or, when none has, the
      three-word pieces of the regex split of the stripped markup. */
  function Sentences(tagged: seq<string>, xml: string): (r: seq<string>)
    ensures forall i :: 0 <= i < |r| ==> Worded(r[i])
  {
    KeepOrIff(tagged, Pieces(xml), Worded);
    KeepOr(tagged, Pieces(xml), Worded)
  }

  /** The elements of `a` satisfying `p`, or when there are none, those of `b`. */
  function KeepOr(a: seq<string>, b: seq<string>, p: string -> bool): seq<string> {
    var kept := Keep(a, p);
    if kept != [] then kept else Keep(b, p)
  }

  lemma KeepOrIff(a: seq<string>, b: seq<string>, p: string -> bool)
    ensures forall x :: x in KeepOr(a, b, p) ==> p(x)
    ensures (exists x :: x in a && p(x)) ==> (forall x :: x in KeepOr(a, b, p) <==> x in a && p(x))
    ensures (forall x :: x in a ==> !p(x)) ==> (forall x :: x in KeepOr(a, b, p) <==> x in b && p(x))
  {
    KeepIff(a, p);
    KeepIff(b, p);
    var kept := Keep(a, p);
    if kept != [] {
      assert kept[0] in kept;
    }
  }

  /** Every sentence has three words; they are the tagged ones when one of
      those qualifies, and the regex pieces otherwise. */
  lemma SentencesWorded(tagged: seq<string>, xml: string)
    ensures forall x :: x in Sentences(tagged, xml) ==> Worded(x)
    ensures (exists x :: x in tagged && Worded(x)) ==>
              (forall x :: x in Sentences(tagged, xml) <==> x in tagged && Worded(x))
    ensures (forall x :: x in tagged ==> !Worded(x)) ==>
              (forall x :: x in Sentences(tagged, xml) <==> x in Pieces(xml) && Worded(x))
  {
    KeepOrIff(tagged, Pieces(xml), Worded);
  }

  // ------------------------------------------------------------------
  // Windows and their candidates
  // ------------------------------------------------------------------

  datatype Kind = Entailing | Contradicting

  /** One `(window_text, score, cand_type)` tuple. */
  datatype Cand = Cand(text: string, score: real, kind: Kind)

  /** One `{"label": ..., "score": ...}` prediction of the pipeline. */
  datatype Prediction = Prediction(name: string, score: real)

  /** The pipeline on one input text, or None when it raises. */
  type Pipeline = string -> Option<seq<Prediction>>

  function ScoreOf(c: Cand): real { c.score }

  /** `range(len(sentences) - w + 1)` is empty when there are fewer than `w` sentences. */
  function WindowCount(n: nat, w: nat): nat {
    if n + 1 >= w then n + 1 - w else 0
  }

  /** `f"{citing_sentence} [SEP] {norm_window}"`. */
  function InputText(citing: string, window: string): string {
    citing + " [SEP] " + window
  }

  /** The scores of the predictions whose lower-cased label contains `tag`. */
  predicate Tagged(p: Prediction, tag: string) { Contains(Lower(p.name), tag) }

  function Group(preds: seq<Prediction>, tag: string): seq<real> {
    if preds == [] then []
    else (if Tagged(preds[0], tag) then [preds[0].score] else []) + Group(preds[1..], tag)
  }

  lemma {:induction false} GroupIff(preds: seq<Prediction>, tag: string)
    ensures forall x :: x in Group(preds, tag) <==> exists p :: p in preds && Tagged(p, tag) && p.score == x
  {
    if preds != [] {
      GroupIff(preds[1..], tag);
      assert forall p :: p in preds <==> p == preds[0] || p in preds[1..];
    }
  }

  /** `max(...)` of a non-empty list. */
  function Max(xs: seq<real>): (m: real)
    requires xs != []
    ensures m in xs
    ensures forall x :: x in xs ==> x <= m
  {
    if |xs| == 1 then xs[0]
    else
      var m := Max(xs[1..]);
      assert forall x :: x in xs ==> x == xs[0] || x in xs[1..];
      if xs[0] >= m then xs[0] else m
  }

  /** `score` is the largest score among the predictions labelled with `tag`. */
  predicate BestOf(preds: seq<Prediction>, tag: string, score: real) {
    (exists p :: p in preds && Tagged(p, tag) && p.score == score)
    && forall p :: p in preds && Tagged(p, tag) ==> p.score <= score
  }

  /** The tuple of one label group, kept when the group is non-empty and its
      best score is positive. */
  function Tuple(text: string, preds: seq<Prediction>, tag: string, kind: Kind): seq<Cand> {
    var g := Group(preds, tag);
    if g != [] && Max(g) > 0.0 then [Cand(text, Max(g), kind)] else []
  }

  /** A group yields at most one tuple, which carries the group's best score. */
  lemma {:induction false} TupleBest(text: string, preds: seq<Prediction>, tag: string, kind: Kind)
    ensures |Tuple(text, preds, tag, kind)| <= 1
    ensures forall c :: c in Tuple(text, preds, tag, kind) ==>
      c.text == text && c.kind == kind && c.score > 0.0 && BestOf(preds, tag, c.score)
  {
    var g := Group(preds, tag);
    if g != [] && Max(g) > 0.0 {
      GroupIff(preds, tag);
      var m := Max(g);
      assert m in g;
      forall p | p in preds && Tagged(p, tag) ensures p.score <= m {
        assert p.score in g;
      }
    }
  }

  const EntailTag: string := "entail"
  const ContradictTag: string := "contradict"

  predicate AllWorded(window: seq<string>) {
    forall j :: 0 <= j < |window| ==> Worded(window[j])
  }

  /** The pipeline input for a window: the citing sentence and the
      normalised window text. */
  function WindowInput(citing: string, window: seq<string>): string {
    InputText(citing, NormalizeText(Join(" ", window)))
  }

  /** One iteration of the inner loop: the window is skipped when one of its
      sentences is short or the pipeline fails; otherwise its Entailing and
      Contradicting tuples, in that order. */
  function WindowCands(window: seq<string>, citing: string, nli: Pipeline): seq<Cand> {
    if !AllWorded(window) then []
    else
      match nli(WindowInput(citing, window))
      case None => []
      case Some(preds) =>
        var text := Join(" ", window);
        Tuple(text, preds, EntailTag, Entailing) + Tuple(text, preds, ContradictTag, Contradicting)
  }

  /** What a window's candidate says about the window. */
  predicate CandOf(window: seq<string>, citing: string, nli: Pipeline, c: Cand) {
    c.text == Join(" ", window) && c.score > 0.0 && AllWorded(window)
    && nli(WindowInput(citing, window)).Some?
    && BestOf(nli(WindowInput(citing, window)).value,
              if c.kind == Entailing then EntailTag else ContradictTag, c.score)
  }

  /** A window yields at most one candidate per kind, the entailing one
      first, each carrying the best positive score of its label group. */
  lemma {:induction false} WindowCandsShape(window: seq<string>, citing: string, nli: Pipeline)
    ensures var r := WindowCands(window, citing, nli);
      |r| <= 2 && (|r| == 2 ==> r[0].kind == Entailing && r[1].kind == Contradicting)
    ensures forall c :: c in WindowCands(window, citing, nli) ==> CandOf(window, citing, nli, c)
  {
    if AllWorded(window) && nli(WindowInput(citing, window)).Some? {
      var preds := nli(WindowInput(citing, window)).value;
      var text := Join(" ", window);
      TupleBest(text, preds, EntailTag, Entailing);
      TupleBest(text, preds, ContradictTag, Contradicting);
      var e := Tuple(text, preds, EntailTag, Entailing);
      var d := Tuple(text, preds, ContradictTag, Contradicting);
      assert WindowCands(window, citing, nli) == e + d;
      forall c | c in e + d ensures CandOf(window, citing, nli, c) {
        if c in e {
          assert c.kind == Entailing;
        } else {
          assert c in d && c.kind == Contradicting;
        }
      }
      if |e + d| == 2 {
        assert e[0] in e && d[0] in d;
      }
    }
  }

  /** The candidates of the first `k` windows of length `w`. */
  function WindowRun(ss: seq<string>, w: nat, k: nat, citing: string, nli: Pipeline): seq<Cand>
    requires k <= WindowCount(|ss|, w)
  {
    if k == 0 then []
    else WindowRun(ss, w, k - 1, citing, nli) + WindowCands(ss[k - 1..k - 1 + w], citing, nli)
  }

  /** The unsorted `all_results` after the window lengths `ws`, in order. */
  function Candidates(ss: seq<string>, ws: seq<nat>, citing: string, nli: Pipeline): seq<Cand> {
    if ws == [] then []
    else
      var w := ws[|ws| - 1];
      Candidates(ss, ws[..|ws| - 1], citing, nli) + WindowRun(ss, w, WindowCount(|ss|, w), citing, nli)
  }

  /** `c` is a candidate of the window `sentences[i:i+w]`. */
  predicate FromWindow(ss: seq<string>, w: nat, i: nat, citing: string, nli: Pipeline, c: Cand) {
    i + w <= |ss| && CandOf(ss[i..i + w], citing, nli, c)
  }

  lemma {:induction false} WindowRunFrom(ss: seq<string>, w: nat, k: nat, citing: string, nli: Pipeline, c: Cand)
    requires k <= WindowCount(|ss|, w)
    requires c in WindowRun(ss, w, k, citing, nli)
    ensures exists i: nat :: i < k && FromWindow(ss, w, i, citing, nli, c)
  {
    if c in WindowRun(ss, w, k - 1, citing, nli) {
      WindowRunFrom(ss, w, k - 1, citing, nli, c);
    } else {
      WindowCandsShape(ss[k - 1..k - 1 + w], citing, nli);
      assert FromWindow(ss, w, k - 1, citing, nli, c);
    }
  }

  /** Every candidate comes from a window `sentences[i:i+w]` of a requested
      length whose sentences all have three words, carries the best score
      of its label group for that window, and that score is positive. */
  lemma {:induction false} CandidateFromWindow(ss: seq<string>, ws: seq<nat>, citing: string, nli: Pipeline, c: Cand)
    requires c in Candidates(ss, ws, citing, nli)
    ensures exists w, i: nat :: w in ws && FromWindow(ss, w, i, citing, nli, c)
  {
    var w := ws[|ws| - 1];
    var init := ws[..|ws| - 1];
    if c in Candidates(ss, init, citing, nli) {
      CandidateFromWindow(ss, init, citing, nli, c);
      var w', i: nat :| w' in init && FromWindow(ss, w', i, citing, nli, c);
      assert w' in ws;
    } else {
      WindowRunFrom(ss, w, WindowCount(|ss|, w), citing, nli, c);
      var i: nat :| FromWindow(ss, w, i, citing, nli, c);
    }
  }

  /** `nli_candidates_all_results` on sentences already extracted. */
  function AllResultsOf(ss: seq<string>, ws: seq<nat>, citing: string, nli: Pipeline): seq<Cand> {
    SortDesc(Candidates(ss, ws, citing, nli), ScoreOf)
  }

  /** The inner loop of `nli_candidates_all_results`: the windows of one length. */
  method WindowPass(ss: seq<string>, w: nat, citing: string, nli: Pipeline) returns (run: seq<Cand>)
    ensures run == WindowRun(ss, w, WindowCount(|ss|, w), citing, nli)
  {
    run := [];
    for i := 0 to WindowCount(|ss|, w)
      invariant run == WindowRun(ss, w, i, citing, nli)
    {
      run := run + WindowCands(ss[i..i + w], citing, nli);
    }
  }

  /** The two loops of `nli_candidates_all_results`, then the sort. */
  method AllResults(tagged: seq<string>, xml: string, windowTypes: seq<nat>,
                    citing: string, nli: Pipeline) returns (r: seq<Cand>)
    ensures r == AllResultsOf(Sentences(tagged, xml), windowTypes, citing, nli)
  {
    var ss := Sentences(tagged, xml);
    var acc: seq<Cand> := [];
    for j := 0 to |windowTypes|
      invariant acc == Candidates(ss, windowTypes[..j], citing, nli)
    {
      var run := WindowPass(ss, windowTypes[j], citing, nli);
      acc := acc + run;
      TakeTake(windowTypes, j);
    }
    TakeAll(windowTypes);
    r := SortDesc(acc, ScoreOf);
  }

  /** The results are ranked by descending score, hold exactly the window
      candidates, and keep the window order among equal scores. */
  lemma {:induction false} AllResultsRanked(ss: seq<string>, ws: seq<nat>, citing: string, nli: Pipeline)
    ensures SortedDesc(AllResultsOf(ss, ws, citing, nli), ScoreOf)
    ensures multiset(AllResultsOf(ss, ws, citing, nli)) == multiset(Candidates(ss, ws, citing, nli))
    ensures forall k :: WithKey(AllResultsOf(ss, ws, citing, nli), ScoreOf, k)
                     == WithKey(Candidates(ss, ws, citing, nli), ScoreOf, k)
  {
    SortDescSorted(Candidates(ss, ws, citing, nli), ScoreOf);
    forall k ensures WithKey(AllResultsOf(ss, ws, citing, nli), ScoreOf, k)
                  == WithKey(Candidates(ss, ws, citing, nli), ScoreOf, k) {
      SortDescStable(Candidates(ss, ws, citing, nli), ScoreOf, k);
    }
  }

  /** `all_results[:5]`: the first five, or all of them when fewer. */
  function Top5<T>(xs: seq<T>): (r: seq<T>)
    ensures |r| == Min(5, |xs|) && r == xs[..|r|]
  {
    PyTake(xs, 5)
  }

  /** `nli_candidates_top5_results`. */
  method Top5Results(tagged: seq<string>, xml: string, windowTypes: seq<nat>,
                     citing: string, nli: Pipeline) returns (r: seq<Cand>)
    ensures r == Top5(AllResultsOf(Sentences(tagged, xml), windowTypes, citing, nli))
  {
    var all := AllResults(tagged, xml, windowTypes, citing, nli);
    r := Top5(all);
  }

  // ------------------------------------------------------------------
  // citation_checker
  // ------------------------------------------------------------------
  /** `w_map[o]`. */
  function WindowSize(o: string): Option<nat> {
    if o == "1 Sentence" then Some(1)
    else if o == "2 Sentences" then Some(2)
    else if o == "3 Sentences" then Some(3)
    else None
  }

  /** `[w_map[o] for o in window_options]`. */
  function WindowSizes(options: seq<string>): Result<seq<nat>> {
    if options == [] then Ok([])
    else match WindowSize(options[0])
      case None => Err(KeyError(options[0]))
      case Some(w) =>
        var rest :- WindowSizes(options[1..]);
        Ok([w] + rest)
  }

  /** The sizes are those of the options when every option is known, and
      otherwise a KeyError names the first unknown one. */
  lemma {:induction false} WindowSizesIff(options: seq<string>)
    ensures WindowSizes(options).Ok? <==> forall i :: 0 <= i < |options| ==> WindowSize(options[i]).Some?
    ensures WindowSizes(options).Ok? ==> (|WindowSizes(options).value| == |options|
      && forall i :: 0 <= i < |options| ==> Some(WindowSizes(options).value[i]) == WindowSize(options[i]))
    ensures WindowSizes(options).Err? ==> exists i :: (0 <= i < |options| && WindowSize(options[i]).None?
      && (forall j :: 0 <= j < i ==> WindowSize(options[j]).Some?)
      && WindowSizes(options).error == KeyError(options[i]))
  {
    if options != [] && WindowSize(options[0]).Some? {
      var rest := options[1..];
      WindowSizesIff(rest);
      assert forall i :: 1 <= i < |options| ==> options[i] == rest[i - 1];
      if WindowSizes(rest).Err? {
        var i :| 0 <= i < |rest| && WindowSize(rest[i]).None?
          && (forall j :: 0 <= j < i ==> WindowSize(rest[j]).Some?)
          && WindowSizes(rest).error == KeyError(rest[i]);
        assert WindowSize(options[i + 1]).None?;
      }
    }
  }

  /** The candidates of one kind, in order. */
  function OfKind(cs: seq<Cand>, k: Kind): seq<Cand> {
    if cs == [] then []
    else (if cs[0].kind == k then [cs[0]] else []) + OfKind(cs[1..], k)
  }

  lemma {:induction false} OfKindIff(cs: seq<Cand>, k: Kind)
    ensures forall c :: c in OfKind(cs, k) <==> c in cs && c.kind == k
  {
    if cs != [] {
      OfKindIff(cs[1..], k);
      assert cs == [cs[0]] + cs[1..];
    }
  }

  const EntailingOption: string := "Entailing candidates"
  const ContradictingOption: string := "Contradicting candidates"

  /** The kinds the user asked for. */
  predicate Wanted(typeOptions: seq<string>, k: Kind) {
    if k == Entailing then EntailingOption in typeOptions else ContradictingOption in typeOptions
  }

  /** `filtered`: the entailing candidates, then the contradicting ones, each
      group only when its option is ticked. */
  function Filtered(all: seq<Cand>, typeOptions: seq<string>): seq<Cand> {
    (if EntailingOption in typeOptions then OfKind(all, Entailing) else [])
    + (if ContradictingOption in typeOptions then OfKind(all, Contradicting) else [])
  }

  /** Exactly the candidates of the wanted kinds are kept. */
  lemma {:induction false} FilteredIff(all: seq<Cand>, typeOptions: seq<string>)
    ensures forall c :: c in Filtered(all, typeOptions) <==> c in all && Wanted(typeOptions, c.kind)
  {
    OfKindIff(all, Entailing);
    OfKindIff(all, Contradicting);
  }

  /** `top_candidates`. */
  function TopCandidates(all: seq<Cand>, typeOptions: seq<string>): seq<Cand> {
    Top5(SortDesc(Filtered(all, typeOptions), ScoreOf))
  }

  /** At most five candidates, all of a wanted kind, best scores first, and
      no better candidate of a wanted kind left out. */
  lemma {:induction false} TopCandidatesBest(all: seq<Cand>, typeOptions: seq<string>)
    ensures var top := TopCandidates(all, typeOptions);
      |top| <= 5 && SortedDesc(top, ScoreOf)
      && (forall c :: c in top ==> c in all && Wanted(typeOptions, c.kind))
    ensures var sorted := SortDesc(Filtered(all, typeOptions), ScoreOf);
      var top := TopCandidates(all, typeOptions);
      forall i, j :: 0 <= i < |top| <= j < |sorted| ==> top[i].score >= sorted[j].score
    ensures var sorted := SortDesc(Filtered(all, typeOptions), ScoreOf);
      multiset(sorted) == multiset(Filtered(all, typeOptions))
  {
    var f := Filtered(all, typeOptions);
    SortDescSorted(f, ScoreOf);
    FilteredIff(all, typeOptions);
    var sorted := SortDesc(f, ScoreOf);
    var top := TopCandidates(all, typeOptions);
    forall c | c in top ensures c in all && Wanted(typeOptions, c.kind) {
      var i :| 0 <= i < |top| && top[i] == c;
      assert sorted[i] == c;
      assert c in multiset(sorted);
    }
  }

  /** How many candidates of kind `k` there are in `cs`. */
  function Count(cs: seq<Cand>, k: Kind): nat {
    if cs == [] then 0
    else Count(cs[..|cs| - 1], k) + (if cs[|cs| - 1].kind == k then 1 else 0)
  }

  function KindName(k: Kind): string {
    if k == Entailing then "Entailing" else "Contradicting"
  }

  /** One checkbox entry before rendering: the candidate with its number
      among those of its kind. */
  datatype Choice = Choice(kind: Kind, number: nat, text: string, score: real)

  /** The part of a label before its `:`, such as `Entailing 2`. */
  function LabelPrefix(k: Kind, n: nat): string {
    KindName(k) + " " + NatToStr(n)
  }

  /** `f"{kind} {n}: {ctx}"`. */
  function FirstLine(ch: Choice): string {
    LabelPrefix(ch.kind, ch.number) + ":" + (" " + ch.text)
  }

  /** `f"(Confidence: {sc:.4f})"`, given the score's four-digit rendering. */
  function ConfLine(c: string): string {
    "(Confidence: " + c + ")"
  }

  /** `f"{kind} {n}: {ctx}\n(Confidence: {sc:.4f})"`; the score's four-digit
      rendering is `conf`. */
  function Label(ch: Choice, conf: real -> string): string {
    FirstLine(ch) + "\n" + ConfLine(conf(ch.score))
  }

  /** The candidates of `cs`, each numbered one more than the earlier
      candidates of its kind. */
  function ChoiceAt(cs: seq<Cand>, i: nat): Choice
    requires i < |cs|
  {
    Choice(cs[i].kind, Count(cs[..i], cs[i].kind) + 1, cs[i].text, cs[i].score)
  }

  /** `candidate_labels`. */
  function Labels(cs: seq<Cand>, conf: real -> string): seq<string> {
    seq(|cs|, i requires 0 <= i < |cs| => Label(ChoiceAt(cs, i), conf))
  }

  /** A label's type tag: a kind, or Neutral once it was not selected. */
  datatype DetailType = Of(kind: Kind) | Neutral

  /** One entry of `candidate_details`. */
  datatype Detail = Detail(text: string, dtype: DetailType, confidence: real, selected: bool)

  function DetailOf(c: Cand): Detail {
    Detail(c.text, Of(c.kind), c.score, false)
  }

  /** `candidate_details` as first built. */
  function Details(cs: seq<Cand>): seq<Detail> {
    seq(|cs|, i requires 0 <= i < |cs| => DetailOf(cs[i]))
  }

  lemma {:induction false} CountPrefix(cs: seq<Cand>, k: Kind, i: nat, j: nat)
    requires i <= j <= |cs|
    ensures Count(cs[..i], k) <= Count(cs[..j], k)
    ensures i < j && cs[i].kind == k ==> Count(cs[..i], k) < Count(cs[..j], k)
    decreases j - i
  {
    if i < j {
      CountPrefix(cs, k, i + 1, j);
      TakeTake(cs, i);
    }
  }

  /** Labels are numbered per kind: a later label of the same kind has a
      larger number. */
  lemma {:induction false} LabelNumbers(cs: seq<Cand>, i: nat, j: nat)
    requires i < j < |cs| && cs[i].kind == cs[j].kind
    ensures ChoiceAt(cs, i).number < ChoiceAt(cs, j).number
  {
    CountPrefix(cs, cs[i].kind, i, j);
  }

  /** The first label of a kind is number 1. */
  lemma {:induction false} FirstOfKind(cs: seq<Cand>, i: nat)
    requires i < |cs|
    requires forall j :: 0 <= j < i ==> cs[j].kind != cs[i].kind
    ensures ChoiceAt(cs, i).number == 1
  {
    NoneOfKind(cs[..i], cs[i].kind);
  }

  lemma {:induction false} NoneOfKind(cs: seq<Cand>, k: Kind)
    requires forall j :: 0 <= j < |cs| ==> cs[j].kind != k
    ensures Count(cs, k) == 0
  {
    if cs != [] {
      NoneOfKind(cs[..|cs| - 1], k);
    }
  }

  lemma {:induction false} CountStep(cs: seq<Cand>, i: nat, k: Kind)
    requires i < |cs|
    ensures Count(cs[..i + 1], k) == Count(cs[..i], k) + (if cs[i].kind == k then 1 else 0)
  {
    TakeTake(cs, i);
  }

  lemma {:induction false} ChoiceAtPrefix(cs: seq<Cand>, n: nat, j: nat)
    requires j < n <= |cs|
    ensures ChoiceAt(cs[..n], j) == ChoiceAt(cs, j)
  {
    assert cs[..n][..j] == cs[..j];
  }

  lemma {:induction false} LabelsStep(cs: seq<Cand>, i: nat, conf: real -> string)
    requires i < |cs|
    ensures Labels(cs[..i + 1], conf) == Labels(cs[..i], conf) + [Label(ChoiceAt(cs, i), conf)]
  {
    var a := Labels(cs[..i + 1], conf);
    var b := Labels(cs[..i], conf) + [Label(ChoiceAt(cs, i), conf)];
    forall j | 0 <= j < i + 1 ensures a[j] == b[j] {
      ChoiceAtPrefix(cs, i + 1, j);
      if j < i {
        ChoiceAtPrefix(cs, i, j);
      }
    }
  }

  /** The labelling loop of `citation_checker`, with one counter per kind. */
  method BuildLabels(top: seq<Cand>, conf: real -> string) returns (labels: seq<string>, details: seq<Detail>)
    ensures labels == Labels(top, conf)
    ensures details == Details(top)
  {
    var entailing := 1;
    var contradicting := 1;
    labels := [];
    details := [];
    for i := 0 to |top|
      invariant entailing == Count(top[..i], Entailing) + 1
      invariant contradicting == Count(top[..i], Contradicting) + 1
      invariant |labels| == |details| == i
      invariant labels == Labels(top[..i], conf)
      invariant forall j :: 0 <= j < i ==> details[j] == DetailOf(top[j])
    {
      var c := top[i];
      CountStep(top, i, Entailing);
      CountStep(top, i, Contradicting);
      var number;
      if c.kind == Entailing {
        number := entailing;
        entailing := entailing + 1;
      } else {
        number := contradicting;
        contradicting := contradicting + 1;
      }
      assert number == Count(top[..i], c.kind) + 1;
      var choice := Choice(c.kind, number, c.text, c.score);
      assert choice == ChoiceAt(top, i);
      LabelsStep(top, i, conf);
      labels := labels + [Label(choice, conf)];
      details := details + [DetailOf(c)];
    }
    TakeAll(top);
  }

  /** The parsed cited TEI's `<body>`: its markup and the texts of its `<s>`
      elements with references removed. */
  datatype Body = Body(markup: string, sentences: seq<string>)

  /** What `citation_checker` returns: the missing-body error, or the
      extracted context, the checkbox labels and the details. */
  datatype Checked =
    | NoBody
    | Checked(context: string, labels: seq<string>, details: seq<Detail>)

  function CheckOf(body: Option<Body>, citing: string, windowOptions: seq<string>,
                   typeOptions: seq<string>, nli: Pipeline, conf: real -> string): Result<Checked>
  {
    match body
    case None => Ok(NoBody)
    case Some(b) =>
      var sizes :- WindowSizes(windowOptions);
      var top := TopCandidates(AllResultsOf(Sentences(b.sentences, b.markup), sizes, citing, nli), typeOptions);
      Ok(Checked(b.markup, Labels(top, conf), Details(top)))
  }

  /** `citation_checker` (the log write is left out). */
  method CitationChecker(body: Option<Body>, citing: string, windowOptions: seq<string>,
                         typeOptions: seq<string>, nli: Pipeline, conf: real -> string)
    returns (r: Result<Checked>)
    ensures r == CheckOf(body, citing, windowOptions, typeOptions, nli, conf)
  {
    if body.None? {
      return Ok(NoBody);
    }
    var sizes := WindowSizes(windowOptions);
    if sizes.Err? {
      return Err(sizes.error);
    }
    var all := AllResults(body.value.sentences, body.value.markup, sizes.value, citing, nli);
    var top := TopCandidates(all, typeOptions);
    var labels, details := BuildLabels(top, conf);
    r := Ok(Checked(body.value.markup, labels, details));
  }

  /** The outcomes of `citation_checker`: no body gives the error, an unknown
      window option a KeyError, and otherwise at most five labels, one
      unselected detail each, for the best candidates of the wanted kinds. */
  lemma {:induction false} CheckOutcomes(body: Option<Body>, citing: string, windowOptions: seq<string>,
                      typeOptions: seq<string>, nli: Pipeline, conf: real -> string)
    ensures var r := CheckOf(body, citing, windowOptions, typeOptions, nli, conf);
      (r == Ok(NoBody) <==> body.None?)
      && (r.Err? <==> body.Some? && exists i :: 0 <= i < |windowOptions| && WindowSize(windowOptions[i]).None?)
    ensures var r := CheckOf(body, citing, windowOptions, typeOptions, nli, conf);
      r.Ok? && r.value.Checked? ==>
        (|r.value.labels| == |r.value.details| <= 5
        && r.value.context == body.value.markup
        && forall i :: 0 <= i < |r.value.details| ==>
             !r.value.details[i].selected && Wanted(typeOptions, r.value.details[i].dtype.kind))
  {
    WindowSizesIff(windowOptions);
    if body.Some? && WindowSizes(windowOptions).Ok? {
      var all := AllResultsOf(Sentences(body.value.sentences, body.value.markup),
                              WindowSizes(windowOptions).value, citing, nli);
      var top := TopCandidates(all, typeOptions);
      TopCandidatesBest(all, typeOptions);
      forall i | 0 <= i < |top| ensures Wanted(typeOptions, top[i].kind) {
        assert top[i] in top;
      }
    }
  }

  // ------------------------------------------------------------------
  // find_rank_conf
  // ------------------------------------------------------------------

  /** `case["correct_candidate"]`: a list of labels or a single label. */
  datatype Selection = Many(labels: seq<string>) | One(text: string)

  /** Python truthiness of the selection. */
  predicate Empty(sel: Selection) {
    match sel
    case Many(ls) => ls == []
    case One(l) => l == []
  }

  function SelectedLabels(sel: Selection): seq<string> {
    match sel
    case Many(ls) => ls
    case One(l) => [l]
  }

  /** `text_only`: after the first `:` of the first line, stripped; the whole
      stripped first line when it has no `:`; the stripped label when it has no lines. */
  function TextOnly(choice: string): (r: string)
    ensures NoOuterSpace(r)
    ensures forall j :: 0 <= j < |r| ==> !IsLineBreak(r[j])
  {
    var lines := SplitLines(choice);
    if |lines| >= 1 then
      var first := lines[0];
      var rest := match IndexOf(first, ":")
        case Some(k) => first[k + 1..]
        case None => first;
      StripNoLineBreak(rest);
      Strip(rest)
    else Strip(choice)
  }

  /** `ctx.strip() == text_only`. */
  predicate Matches(c: Cand, t: string) { Strip(c.text) == t }

  /** The result at 1-based rank `n` matches `t`. */
  predicate MatchesAt(all: seq<Cand>, n: nat, t: string) {
    1 <= n <= |all| && Matches(all[n - 1], t)
  }

  /** The 1-based position of the first element from `i` on satisfying `p`. */
  function FirstFrom<T>(xs: seq<T>, p: T -> bool, i: nat): Option<nat>
    decreases |xs| - i
  {
    if i >= |xs| then None
    else if p(xs[i]) then Some(i + 1)
    else FirstFrom(xs, p, i + 1)
  }

  /** The position found is that of the first element satisfying `p`, and
      there is none exactly when no element does. */
  lemma {:induction false} FirstFromIff<T>(xs: seq<T>, p: T -> bool, i: nat)
    ensures var r := FirstFrom(xs, p, i);
      r.Some? ==> (i < r.value <= |xs| && p(xs[r.value - 1])
                   && forall j :: i <= j < r.value - 1 ==> !p(xs[j]))
    ensures FirstFrom(xs, p, i).None? <==> forall j :: i <= j < |xs| ==> !p(xs[j])
    decreases |xs| - i
  {
    if i < |xs| && !p(xs[i]) {
      FirstFromIff(xs, p, i + 1);
    }
  }

  /** The rank of the first result whose stripped text is `t`. */
  function FirstMatch(all: seq<Cand>, t: string): Option<nat> {
    FirstFrom(all, c => Matches(c, t), 0)
  }

  /** One snippet: the kind, rank and score of the match, or no match. */
  datatype Rank = Ranked(kind: Kind, idx: nat, score: real) | NoMatch

  datatype RankReport = NoneSelected | Ranks(ranks: seq<Rank>)

  function RankOf(all: seq<Cand>, choice: string): Rank {
    RankOfText(all, TextOnly(choice))
  }

  /** The snippet for the text `t`: the kind, 1-based rank and score of
      the first result whose stripped text is `t`. */
  function RankOfText(all: seq<Cand>, t: string): Rank {
    match FirstMatch(all, t)
    case None => NoMatch
    case Some(k) =>
      if 1 <= k <= |all| then Ranked(all[k - 1].kind, k, all[k - 1].score) else NoMatch
  }

  /** The inner loop of `find_rank_conf`, stopping at the first match. */
  method FindRank(all: seq<Cand>, choice: string) returns (r: Rank)
    ensures r == RankOf(all, choice)
  {
    var textOnly := TextOnly(choice);
    r := NoMatch;
    var idx := 0;
    while idx < |all|
      invariant 0 <= idx <= |all|
      invariant FirstMatch(all, textOnly) == FirstFrom(all, c => Matches(c, textOnly), idx)
      invariant r == NoMatch
    {
      if Matches(all[idx], textOnly) {
        r := Ranked(all[idx].kind, idx + 1, all[idx].score);
        break;
      }
      idx := idx + 1;
    }
  }

  function RanksOf(all: seq<Cand>, choices: seq<string>): seq<Rank> {
    Map(choices, c => RankOf(all, c))
  }

  function FindRankOf(sel: Selection, all: seq<Cand>): RankReport {
    if Empty(sel) then NoneSelected else Ranks(RanksOf(all, SelectedLabels(sel)))
  }

  /** `find_rank_conf`: the case's candidates are recomputed with windows of
      one, two and three sentences and each selected label is looked up. */
  method FindRankConf(sel: Selection, context: Body, citing: string, nli: Pipeline, conf: real -> string)
    returns (r: RankReport, html: string)
    ensures r == FindRankOf(sel, AllResultsOf(Sentences(context.sentences, context.markup), [1, 2, 3], citing, nli))
    ensures html == ReportHtml(r, conf)
  {
    if Empty(sel) {
      r := NoneSelected;
    } else {
      var all := AllResults(context.sentences, context.markup, [1, 2, 3], citing, nli);
      var ranks := FindRanks(all, SelectedLabels(sel));
      r := Ranks(ranks);
    }
    html := ReportHtml(r, conf);
  }

  /** The outer loop of `find_rank_conf`: one rank per selected label. */
  method FindRanks(all: seq<Cand>, choices: seq<string>) returns (ranks: seq<Rank>)
    ensures ranks == RanksOf(all, choices)
  {
    ranks := [];
    for i := 0 to |choices|
      invariant ranks == RanksOf(all, choices[..i])
    {
      var rank := FindRank(all, choices[i]);
      MapSnoc(choices, i, c => RankOf(all, c));
      ranks := ranks + [rank];
    }
    TakeAll(choices);
  }

  lemma {:induction false} LineHeadOf(x: string, y: string)
    requires forall c :: c in x ==> !IsLineBreak(c)
    ensures LineHead(x + "\n" + y) == x
    ensures SplitLines(x + "\n" + y)[0] == x
  {
    var s := x + "\n" + y;
    var h := LineHead(s);
    assert s[|x|] == '\n';
  }

  lemma {:induction false} IndexOfColon(a: string, b: string)
    requires ':' !in a
    ensures IndexOf(a + ":" + b, ":") == Some(|a|)
  {
    var s := a + ":" + b;
    assert StartsWith(s[|a|..], ":");
    ContainsAt(s, ":", |a|);
    IndexOfNone(s, ":");
    IndexOfFirst(s, ":");
    var v := IndexOf(s, ":").value;
    assert s[v] == ':';
  }

  lemma {:induction false} LabelPrefixNoColon(k: Kind, n: nat)
    ensures forall c :: c in LabelPrefix(k, n) ==> c != ':' && !IsLineBreak(c)
  {
    var name := KindName(k);
    var digits := NatToStr(n);
    assert forall c :: c in name ==> c != ':' && !IsLineBreak(c);
    assert forall c :: c in digits ==> IsDigit(c);
  }

  /** The text `find_rank_conf` reads back from a label built by
      `citation_checker` is the candidate's stripped text, provided the
      candidate's text is on one line. */
  lemma {:induction false} TextOnlyLabel(ch: Choice, conf: real -> string)
    requires forall c :: c in ch.text ==> !IsLineBreak(c)
    ensures TextOnly(Label(ch, conf)) == Strip(ch.text)
  {
    LabelPrefixNoColon(ch.kind, ch.number);
    TextOnlyFirstLine(LabelPrefix(ch.kind, ch.number), " " + ch.text, ConfLine(conf(ch.score)));
    StripSpaceFirst(ch.text);
  }

  /** A label whose first line is `a:b`, with no `:` in `a`, reads back as `b`
      stripped. */
  lemma {:induction false} TextOnlyFirstLine(a: string, b: string, tail: string)
    requires forall c :: c in a ==> c != ':' && !IsLineBreak(c)
    requires forall c :: c in b ==> !IsLineBreak(c)
    ensures TextOnly(a + ":" + b + "\n" + tail) == Strip(b)
  {
    var first := a + ":" + b;
    assert a + ":" + b + "\n" + tail == first + "\n" + tail;
    LineHeadOf(first, tail);
    IndexOfColon(a, b);
    assert first[|a| + 1..] == b;
  }

  /** A label built from one of the results is found again, at or before
      that result's rank, when the result's text is stripped and on one line. */
  lemma {:induction false} RankOfLabel(all: seq<Cand>, i: nat, n: nat, conf: real -> string)
    requires i < |all|
    requires forall c :: c in all[i].text ==> !IsLineBreak(c)
    requires NoOuterSpace(all[i].text)
    ensures var r := RankOf(all, Label(Choice(all[i].kind, n, all[i].text, all[i].score), conf));
      r.Ranked? && r.idx <= i + 1
  {
    var ch := Choice(all[i].kind, n, all[i].text, all[i].score);
    TextOnlyLabel(ch, conf);
    StripNoOuterSpace(all[i].text);
    RankOfMatch(all, Label(ch, conf), i);
  }

  /** A label whose text matches result `i` is ranked at or before it. */
  lemma {:induction false} RankOfMatch(all: seq<Cand>, choice: string, i: nat)
    requires i < |all| && Matches(all[i], TextOnly(choice))
    ensures var r := RankOf(all, choice);
      r.Ranked? && r.idx <= i + 1 && MatchesAt(all, r.idx, TextOnly(choice))
  {
    RankOfTextMatch(all, TextOnly(choice), i);
  }

  /** The same for a text: a matching result `i` is ranked at or before it. */
  lemma {:induction false} RankOfTextMatch(all: seq<Cand>, t: string, i: nat)
    requires i < |all| && Matches(all[i], t)
    ensures var r := RankOfText(all, t);
      r.Ranked? && r.idx <= i + 1 && MatchesAt(all, r.idx, t)
  {
    FirstMatchAt(all, t, i);
    assert RankOfText(all, t).idx == FirstMatch(all, t).value;
  }

  lemma {:induction false} FirstMatchAt(all: seq<Cand>, t: string, i: nat)
    requires i < |all| && Matches(all[i], t)
    ensures var r := FirstMatch(all, t);
      r.Some? && 1 <= r.value <= i + 1 && Matches(all[r.value - 1], t)
  {
    var p := c => Matches(c, t);
    assert p(all[i]);
    FirstFromSome(all, p, 0, i);
  }

  /** Some element from `i` on satisfies `p`: the search finds one, no later. */
  lemma {:induction false} FirstFromSome<T>(xs: seq<T>, p: T -> bool, i: nat, j: nat)
    requires i <= j < |xs| && p(xs[j])
    ensures var r := FirstFrom(xs, p, i);
      r.Some? && i < r.value <= j + 1 && p(xs[r.value - 1])
    decreases j - i
  {
    if !p(xs[i]) {
      FirstFromSome(xs, p, i + 1, j);
    }
  }

  /** The HTML of one snippet; `conf` renders the score. */
  function RankHtml(r: Rank, conf: real -> string): (h: string)
    ensures StartsWith(h, "<span style='color: ") && EndsWith(h, "</span>")
    ensures StartsWith(h, "<span style='color: green;'>") <==> r.Ranked? && r.kind == Entailing
  {
    var color := if r.Ranked? && r.kind == Entailing then "green;" else "red;";
    var text := match r
      case NoMatch => "No matching candidate found"
      case Ranked(k, idx, score) => KindName(k) + " " + NatToStr(idx) + " (Conf: " + conf(score) + ")";
    SpanShape(color, text);
    "<span style='color: " + color + "'>" + text + "</span>"
  }

  /** A coloured span starts with its opening tag, ends with `</span>`, and
      opens green exactly when its colour is green. */
  lemma SpanShape(color: string, text: string)
    requires color == "green;" || color == "red;"
    ensures var h := "<span style='color: " + color + "'>" + text + "</span>";
      StartsWith(h, "<span style='color: ") && EndsWith(h, "</span>")
      && (StartsWith(h, "<span style='color: green;'>") <==> color == "green;")
  {
    var open := "<span style='color: ";
    var head := open + color + "'>";
    var h := head + text + "</span>";
    assert h[..|open|] == open;
    assert h[|h| - 7..] == "</span>";
    assert h[|open|] == color[0];
    if color == "green;" {
      assert h[..|head|] == head;
    }
  }

  /** The cell `find_rank_conf` returns: the warning, or the snippets of
      the ranks joined by `<br>`, from the first rank's to the last's. */
  function ReportHtml(r: RankReport, conf: real -> string): (h: string)
    ensures r.NoneSelected? ==> StartsWith(h, "<span style='color: red;'>")
    ensures r.Ranks? && r.ranks != [] ==>
      StartsWith(h, RankHtml(r.ranks[0], conf)) && EndsWith(h, RankHtml(r.ranks[|r.ranks| - 1], conf))
    ensures r.Ranks? && |r.ranks| == 1 ==> h == RankHtml(r.ranks[0], conf)
  {
    match r
    case NoneSelected => "<span style='color: red;'>No candidates selected</span>"
    case Ranks(rs) =>
      var parts := seq(|rs|, i requires 0 <= i < |rs| => RankHtml(rs[i], conf));
      JoinEnds("<br>", parts);
      Join("<br>", parts)
  }

  // ------------------------------------------------------------------
  // log_entailment_decisions
  // ------------------------------------------------------------------

  /** A detail is selected when its text occurs in one of the selected labels;
      otherwise it is unselected and becomes Neutral. */
  function Decide(d: Detail, selected: seq<string>): (r: Detail)
    ensures r.text == d.text && r.confidence == d.confidence
    ensures r.selected <==> exists s :: s in selected && Contains(s, d.text)
    ensures r.selected ==> r.dtype == d.dtype
    ensures !r.selected ==> r.dtype == Neutral
  {
    if exists s :: s in selected && Contains(s, d.text) then d.(selected := true)
    else d.(selected := false, dtype := Neutral)
  }

  /** Deciding twice changes nothing more. */
  lemma {:induction false} DecideIdempotent(d: Detail, selected: seq<string>)
    ensures Decide(Decide(d, selected), selected) == Decide(d, selected)
  {
  }

  /** A label contains the text of its candidate. */
  lemma {:induction false} LabelContainsText(ch: Choice, conf: real -> string)
    ensures Contains(Label(ch, conf), ch.text)
  {
    var l := Label(ch, conf);
    var k := |LabelPrefix(ch.kind, ch.number)| + 2;
    assert l[k..k + |ch.text|] == ch.text;
    ContainsAt(l, ch.text, k);
  }

  /** A candidate whose label the user ticked keeps its kind and is logged
      as selected. */
  lemma {:induction false} TickedIsSelected(top: seq<Cand>, conf: real -> string, selected: seq<string>, i: nat)
    requires i < |top| && Labels(top, conf)[i] in selected
    ensures Decide(Details(top)[i], selected).selected
    ensures Decide(Details(top)[i], selected).dtype == Of(top[i].kind)
  {
    LabelContainsText(ChoiceAt(top, i), conf);
    assert Contains(Labels(top, conf)[i], Details(top)[i].text);
  }

  /** The loop of `log_entailment_decisions`, updating the details in place
      (the log write is left out). */
  method LogEntailmentDecisions(selected: seq<string>, details: array<Detail>)
    modifies details
    ensures forall i :: 0 <= i < details.Length ==> details[i] == Decide(old(details[i]), selected)
  {
    for i := 0 to details.Length
      invariant forall j :: 0 <= j < i ==> details[j] == Decide(old(details[j]), selected)
      invariant forall j :: i <= j < details.Length ==> details[j] == old(details[j])
    {
      var d := details[i];
      if exists s :: s in selected && Contains(s, d.text) {
        details[i] := d.(selected := true);
      } else {
        details[i] := d.(selected := false, dtype := Neutral);
      }
    }
  }
}
