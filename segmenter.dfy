/** The user interface's sentence segmenter (`seg_via_llm`): one completion
    call with a single fallback model, a chain of line parsers over the
    reply, and a cut at the first repeated segment label. */
module Segmenter {
  import opened Common
  import opened Strs
  import opened Values
  import opened BlClient

  /** `DEFAULT_ALIAS`, the model the segmenter falls back to. */
  const DefaultAlias: string := "alias-large"
  const SegmentMaxTokens: int := 256

  /** `ALIAS_TO_MODEL`: every friendly alias names itself. */
  const AliasToModel: map<string, string> :=
    map["alias-large" := "alias-large",
        "alias-llama3-huge" := "alias-llama3-huge",
        "alias-embeddings" := "alias-embeddings"]

  /** `ALIAS_TO_MODEL.get(model, model)`: the table maps each alias to itself,
      so every model name is sent unchanged. */
  function ActualModel(model: string): (m: string)
    ensures m == model
  {
    if model in AliasToModel then AliasToModel[model] else model
  }

  // ------------------------------------------------------------------
  // the prompt
  // ------------------------------------------------------------------

  /** The fixed instructions in front of the numbering request. */
  function PromptHead(): string {
    "You are an expert at breaking sentences into standalone proposition segments.\n"
    + "For example, given a sentence A and B cause 1 and 2 generate 4 segments:\n"
    + "    A causes 1\n    A causes 2\n    B causes 1\n    B causes 2\n\n"
    + "Keep modifiers with nouns. For example\n"
    + "immersion in cold water or snow causes hypothermia \nbecomes\n"
    + "    cold water causes hypothermia\n    snow causes hypothermia\n\n"
    + "List each segment on its own line, "
  }

  /** `SEGMENT_PROMPT_TEMPLATE.format(row_idx=..., sentence=...)`. */
  function SegmentPrompt(rowIdx: int, sentence: string): string {
    FormatPrompt(PromptHead(), rowIdx, sentence)
  }

  /** The template's placeholders filled in behind the instructions `head`. */
  function FormatPrompt(head: string, rowIdx: int, sentence: string): (p: string)
    ensures StartsWith(p, head)
    ensures Contains(p, "numbered " + IntToStr(rowIdx) + "a, " + IntToStr(rowIdx) + "b")
    ensures EndsWith(p, "\n\nSentence:\n" + sentence + "\n\nSegments:\n")
  {
    var n := IntToStr(rowIdx);
    var want := "numbered " + n + "a, " + n + "b";
    var body := want + ", etc., continuing alphabetically. ";
    var tail := "\n\nSentence:\n" + sentence + "\n\nSegments:\n";
    var h := head;
    var p := h + body + tail;
    assert p[|h|..] == body + tail;
    assert (body + tail)[..|want|] == want;
    ContainsAt(p, want, |h|);
    assert p[|p| - |tail|..] == tail;
    p
  }

  // ------------------------------------------------------------------
  // the completion call and its fallback
  // ------------------------------------------------------------------

  /** The model that produced the reply and the reply text. */
  datatype Reply = Reply(model: string, text: Value)

  /** The `try`/`except` around `client.completion`: a failed call is
      retried once on the default alias, and a second failure leaves the
      text empty. The client's base URL is the session's `bl_base_url`. */
  function Fetch(post: Transport, baseUrl: string, model: string, prompt: string): (r: Reply)
    ensures Completion(post, baseUrl, model, prompt, SegmentMaxTokens).Ok? ==>
      r == Reply(model, Completion(post, baseUrl, model, prompt, SegmentMaxTokens).value)
    ensures Completion(post, baseUrl, model, prompt, SegmentMaxTokens).Err? ==>
      r.model == DefaultAlias
      && r.text == OkOr(Completion(post, baseUrl, DefaultAlias, prompt, SegmentMaxTokens), Str(""))
  {
    var actual := ActualModel(model);
    match ClientCompletion(post, Some(baseUrl), actual, prompt, SegmentMaxTokens)
    case Ok(t) => Reply(actual, t)
    case Err(_) =>
      var fallback := AliasToModel[DefaultAlias];
      match ClientCompletion(post, Some(baseUrl), fallback, prompt, SegmentMaxTokens)
      case Ok(t) => Reply(fallback, t)
      case Err(_) => Reply(fallback, Str(""))
  }

  /** The value of a successful call, or `d`. */
  function OkOr(r: Result<Value>, d: Value): Value {
    if r.Ok? then r.value else d
  }

  // ------------------------------------------------------------------
  // line filters
  // ------------------------------------------------------------------

  /** A list comprehension with a condition: the elements of `xs` that
      satisfy `p`, in their order. */
  function Keep(xs: seq<string>, p: string -> bool): (r: seq<string>)
    ensures |r| <= |xs|
    ensures forall i :: 0 <= i < |r| ==> p(r[i])
  {
    if xs == [] then []
    else
      var rest := Keep(xs[1..], p);
      var r := (if p(xs[0]) then [xs[0]] else []) + rest;
      assert forall i :: 0 <= i < |r| ==> r[i] == xs[0] || r[i] == rest[i - |r| + |rest|];
      r
  }

  /** What is kept is exactly the elements that satisfy the condition. */
  lemma {:induction false} KeepMembers(xs: seq<string>, p: string -> bool)
    ensures forall x :: x in Keep(xs, p) <==> x in xs && p(x)
  {
    if xs != [] {
      KeepMembers(xs[1..], p);
      assert xs == [xs[0]] + xs[1..];
    }
  }

  /** Keeping by a condition every element meets keeps everything. */
  lemma {:induction false} KeepAll(xs: seq<string>, p: string -> bool)
    requires forall i :: 0 <= i < |xs| ==> p(xs[i])
    ensures Keep(xs, p) == xs
  {
    if xs != [] {
      KeepAll(xs[1..], p);
    }
  }

  predicate AllDigits(s: string) { forall i :: 0 <= i < |s| ==> IsDigit(s[i]) }

  /** The leading run of decimal digits. */
  function LeadingDigits(s: string): (r: string)
    ensures |r| <= |s|
    ensures r == s[..|r|]
    ensures AllDigits(r)
    ensures |r| < |s| ==> !IsDigit(s[|r|])
  {
    if s == [] || !IsDigit(s[0]) then []
    else
      var d := LeadingDigits(s[1..]);
      assert s[1..][..|d|] == s[1..|d| + 1];
      [s[0]] + d
  }

  /** `SEG_RE.match(ln)` for `^\s*\d+[a-z]\.` with `re.I`: after optional
      whitespace, digits, one letter and a full stop. The greedy runs are
      the only way to match, since a digit is not whitespace and a letter
      is not a digit. */
  predicate SegLabel(ln: string)
    ensures SegLabel(ln) ==> MatchAt(ln, |ln| - |LStrip(ln)|, |LeadingDigits(LStrip(ln))|)
  {
    var t := LStrip(ln);
    var d := LeadingDigits(t);
    if |d| >= 1 && |d| + 2 <= |t| && IsLetter(t[|d|]) && t[|d| + 1] == '.' then
      MatchFromParts(ln, t, |ln| - |t|, d);
      true
    else false
  }

  /** The regular expression matched at an explicit split of the line:
      `a` whitespace characters, then `k` digits, a letter and a full stop. */
  predicate MatchAt(ln: string, a: nat, k: nat) {
    k >= 1 && a + k + 2 <= |ln| && AllSpace(ln[..a]) && AllDigits(ln[a..a + k])
    && IsLetter(ln[a + k]) && ln[a + k + 1] == '.'
  }

  /** The digit run is decided by the first non-digit position. */
  lemma {:induction false} LeadingDigitsAt(s: string, k: nat)
    requires k <= |s| && AllDigits(s[..k]) && (k == |s| || !IsDigit(s[k]))
    ensures |LeadingDigits(s)| == k
    decreases k
  {
    if k > 0 {
      DropFirst(s, k);
      LeadingDigitsAt(s[1..], k - 1);
    }
  }

  /** The match read off a split into whitespace, a rest `t` and a digit
      prefix `d` of that rest. */
  lemma MatchFromParts(ln: string, t: string, a: nat, d: string)
    requires a <= |ln| && t == ln[a..] && AllSpace(ln[..a])
    requires |d| >= 1 && |d| + 2 <= |t| && d == t[..|d|] && AllDigits(d)
    requires IsLetter(t[|d|]) && t[|d| + 1] == '.'
    ensures MatchAt(ln, a, |d|)
  {
    SliceSlice(ln, a, |d|);
  }

  /** A line matching at some split is one `SegLabel` accepts. */
  lemma MatchIsSegLabel(ln: string, a: nat, k: nat)
    requires MatchAt(ln, a, k)
    ensures SegLabel(ln)
  {
    assert ln[a..a + k][0] == ln[a];
    LStripAt(ln, a);
    var t := LStrip(ln);
    assert t[..k] == ln[a..][..k] == ln[a..a + k];
    assert t[k] == ln[a + k] && t[k + 1] == ln[a + k + 1];
    LeadingDigitsAt(t, k);
  }

  /** The scan in `SegLabel` agrees with the regular expression's meaning:
      a line matches exactly when some split of it matches. */
  lemma SegLabelIsRegex(ln: string)
    ensures SegLabel(ln) <==> exists a: nat, k: nat :: MatchAt(ln, a, k)
  {
    if exists a: nat, k: nat :: MatchAt(ln, a, k) {
      var a: nat, k: nat :| MatchAt(ln, a, k);
      MatchIsSegLabel(ln, a, k);
    }
  }

  /** The first fallback's clean-up: `ln.lstrip("-• ").strip()`. */
  function RelaxedClean(ln: string): string {
    Strip(LStripSet(ln, {'-', '•', ' '}))
  }

  /** `ln.lstrip().startswith(("-", "•"))`. */
  predicate IsBullet(ln: string) {
    StartsWith(LStrip(ln), "-") || StartsWith(LStrip(ln), "•")
  }

  predicate IsBulletChar(c: char) { c == '-' || c == '•' || IsSpace(c) }

  /** `re.sub(r"^[-•\s]+", "", ln)`: drops the leading run of dashes,
      bullets and whitespace. */
  function StripBullets(s: string): (r: string)
    ensures |r| <= |s|
    ensures r == s[|s| - |r|..]
    ensures forall i :: 0 <= i < |s| - |r| ==> IsBulletChar(s[i])
    ensures r == [] || !IsBulletChar(r[0])
  {
    if s == [] || !IsBulletChar(s[0]) then s
    else
      var t := StripBullets(s[1..]);
      assert forall i :: 1 <= i < |s| - |t| ==> s[i] == s[1..][i - 1];
      t
  }

  /** The second fallback's relabelling `f"{row_idx}{chr(97+i)} {txt}"`.
      The letters run up to the last code point below the surrogate range;
      from there on `chr` is given no character here and the relabelling
      fails. */
  function Relabel(rowIdx: int, txts: seq<string>): (r: Result<seq<string>>)
    ensures r.Ok? <==> 97 + |txts| <= 0xD800
    ensures r.Ok? ==> |r.value| == |txts|
    ensures r.Ok? ==>
      forall i :: 0 <= i < |txts| ==> r.value[i] == IntToStr(rowIdx) + [(97 + i) as char] + " " + txts[i]
  {
    if 97 + |txts| <= 0xD800 then
      Ok(seq(|txts|, i requires 0 <= i < |txts| => IntToStr(rowIdx) + [(97 + i) as char] + " " + txts[i]))
    else Err(ValueError("chr() arg not in range"))
  }

  /** The reply text split into stripped lines. */
  function Lines(text: string): (r: seq<string>)
    ensures |r| == |SplitLines(text)|
  {
    var ls := SplitLines(text);
    seq(|ls|, i requires 0 <= i < |ls| => Strip(ls[i]))
  }

  /** An empty text has no lines. */
  lemma LinesOfEmpty()
    ensures Lines("") == []
  {
    assert |SplitLines("")| == 0;
  }

  /** The segment printed when no parser finds anything. */
  function Sentinel(rowIdx: int): string {
    IntToStr(rowIdx) + "a <MODEL RETURNED NO SEGMENTS>"
  }

  /** The first fallback's tag `f"{row_idx}a"`. */
  function RowTag(rowIdx: int): string { IntToStr(rowIdx) + "a" }

  /** The first fallback's condition `f"{row_idx}a" in ln.lower()`. */
  function HasRowTag(rowIdx: int): string -> bool {
    ln => Contains(Lower(ln), RowTag(rowIdx))
  }

  /** The first fallback: the lines whose lower-cased text contains the row
      tag, cleaned up. */
  function Relaxed(lines: seq<string>, rowIdx: int): (r: seq<string>)
    ensures |r| == |Keep(lines, HasRowTag(rowIdx))|
  {
    var kept := Keep(lines, HasRowTag(rowIdx));
    seq(|kept|, i requires 0 <= i < |kept| => RelaxedClean(kept[i]))
  }

  /** The bullet lines without their bullets. */
  function BulletTexts(lines: seq<string>): (r: seq<string>)
    ensures |r| == |Keep(lines, IsBullet)|
  {
    var bullets := Keep(lines, IsBullet);
    seq(|bullets|, i requires 0 <= i < |bullets| => StripBullets(bullets[i]))
  }

  /** The second fallback: the bullet lines without their bullets,
      relabelled in order. */
  function Bulleted(lines: seq<string>, rowIdx: int): (r: Result<seq<string>>)
    ensures 97 + |lines| <= 0xD800 ==> r.Ok?
    ensures r.Ok? ==> |r.value| == |Keep(lines, IsBullet)|
  {
    Relabel(rowIdx, BulletTexts(lines))
  }

  /** The primary parse, and each fallback used only when everything before
      it found nothing; `none` is the segment used when no parser finds
      anything. */
  function Candidates(lines: seq<string>, rowIdx: int, none: string): (r: Result<seq<string>>)
    ensures r.Ok? ==> r.value != []
    ensures 97 + |lines| <= 0xD800 ==> r.Ok?
  {
    var primary := Keep(lines, SegLabel);
    if primary != [] then Ok(primary)
    else if Relaxed(lines, rowIdx) != [] then Ok(Relaxed(lines, rowIdx))
    else if Keep(lines, IsBullet) != [] then Bulleted(lines, rowIdx)
    else Ok([none])
  }

  // ------------------------------------------------------------------
  // the cut at the first repeated label
  // ------------------------------------------------------------------

  /** `seg.split(maxsplit=1)[0]`: the segment's first word, or `None` for a
      segment without one, where the indexing raises `IndexError`. */
  function FirstWord(seg: string): Option<string> {
    var t := LStrip(seg);
    if t == [] then None else Some(Word(t))
  }

  /** The segment has a label. */
  predicate Labelled(seg: string) { FirstWord(seg).Some? }

  /** The loop's specification, for a labelling `key`: segments are taken in
      order while their labels are new (`seen` holds the labels already
      taken), and a segment without a label raises `IndexError`. */
  function TakeNew(segs: seq<string>, seen: set<string>, key: string -> Option<string>)
    : Result<seq<string>>
    decreases |segs|
  {
    if segs == [] then Ok([])
    else if key(segs[0]).None? then Err(IndexError)
    else if key(segs[0]).value in seen then Ok([])
    else
      var rest :- TakeNew(segs[1..], seen + {key(segs[0]).value}, key);
      Ok([segs[0]] + rest)
  }

  /** The segments the de-duplication keeps: a prefix of the input with
      pairwise distinct labels, never empty for a non-empty input, and
      always produced when every segment has a label. */
  function Unique(segs: seq<string>): (r: Result<seq<string>>)
    ensures r.Ok? ==> |r.value| <= |segs| && r.value == segs[..|r.value|]
    ensures r.Ok? ==> forall i, j :: 0 <= i < j < |r.value| ==> FirstWord(r.value[i]) != FirstWord(r.value[j])
    ensures r.Ok? && segs != [] ==> r.value != []
    ensures AllLabelled(segs) ==> r.Ok?
  {
    TakeNewFacts(segs, FirstWord);
    TakeNew(segs, {}, FirstWord)
  }

  /** What the lemmas below say about a cut that starts with nothing seen. */
  lemma TakeNewFacts(segs: seq<string>, key: string -> Option<string>)
    ensures var r := TakeNew(segs, {}, key);
      (r.Ok? ==> |r.value| <= |segs| && r.value == segs[..|r.value|]
                 && (forall i, j :: 0 <= i < j < |r.value| ==> key(r.value[i]) != key(r.value[j]))
                 && (segs != [] ==> r.value != []))
      && ((forall i :: 0 <= i < |segs| ==> key(segs[i]).Some?) ==> r.Ok?)
  {
    if TakeNew(segs, {}, key).Ok? {
      TakeNewIsPrefix(segs, {}, key);
      TakeNewDistinct(segs, {}, key);
      if segs != [] {
        TakeNewKeepsFirst(segs, key);
      }
    }
    if forall i :: 0 <= i < |segs| ==> key(segs[i]).Some? {
      TakeNewOk(segs, {}, key);
    }
  }

  /** One segment with a new label is taken. */
  lemma TakeNewStep(segs: seq<string>, i: nat, seen: set<string>, key: string -> Option<string>)
    requires i < |segs| && key(segs[i]).Some? && key(segs[i]).value !in seen
    ensures TakeNew(segs[i..], seen, key)
      == Then([segs[i]], TakeNew(segs[i + 1..], seen + {key(segs[i]).value}, key))
  {
    assert segs[i..][0] == segs[i] && segs[i..][1..] == segs[i + 1..];
  }

  /** The de-duplication loop over `segments`. */
  method Dedup(segs: seq<string>) returns (r: Result<seq<string>>)
    ensures r == Unique(segs)
  {
    var unique: seq<string> := [];
    var seen: set<string> := {};
    var i := 0;
    assert segs[i..] == segs;
    ThenNil(Unique(segs));
    while i < |segs|
      invariant 0 <= i <= |segs|
      invariant Then(unique, TakeNew(segs[i..], seen, FirstWord)) == Unique(segs)
    {
      var seg := segs[i];
      assert segs[i..][0] == seg;
      var word := FirstWord(seg);
      if word.None? {
        return Err(IndexError);
      }
      var lab := word.value;
      if lab in seen {
        assert unique + [] == unique;
        break;
      }
      TakeNewStep(segs, i, seen, FirstWord);
      ThenThen(unique, [seg], TakeNew(segs[i + 1..], seen + {lab}, FirstWord));
      seen := seen + {lab};
      unique := unique + [seg];
      i := i + 1;
    }
    if i == |segs| {
      assert segs[i..] == [];
      assert unique + [] == unique;
    }
    return Ok(unique);
  }

  /** The kept segments are a prefix of the input. */
  lemma {:induction false} TakeNewIsPrefix(segs: seq<string>, seen: set<string>, key: string -> Option<string>)
    requires TakeNew(segs, seen, key).Ok?
    ensures |TakeNew(segs, seen, key).value| <= |segs|
    ensures TakeNew(segs, seen, key).value == segs[..|TakeNew(segs, seen, key).value|]
    decreases |segs|
  {
    if segs != [] && key(segs[0]).value !in seen {
      TakeNewIsPrefix(segs[1..], seen + {key(segs[0]).value}, key);
    }
  }

  /** The kept labels are new and pairwise distinct. */
  lemma {:induction false} TakeNewDistinct(segs: seq<string>, seen: set<string>, key: string -> Option<string>)
    requires TakeNew(segs, seen, key).Ok?
    ensures var v := TakeNew(segs, seen, key).value;
      (forall i :: 0 <= i < |v| ==> key(v[i]).Some? && key(v[i]).value !in seen)
      && forall i, j :: 0 <= i < j < |v| ==> key(v[i]) != key(v[j])
    decreases |segs|
  {
    if segs != [] && key(segs[0]).value !in seen {
      var l := key(segs[0]).value;
      TakeNewDistinct(segs[1..], seen + {l}, key);
      var rest := TakeNew(segs[1..], seen + {l}, key).value;
      var v := TakeNew(segs, seen, key).value;
      assert v == [segs[0]] + rest;
      assert forall i :: 0 < i < |v| ==> v[i] == rest[i - 1];
    }
  }

  /** The cut is where a label repeats: when not every segment is kept, the
      next one has a label that was seen or already kept. */
  lemma {:induction false} TakeNewStopsAtRepeat(segs: seq<string>, seen: set<string>,
                                                key: string -> Option<string>)
    requires TakeNew(segs, seen, key).Ok?
    ensures var v := TakeNew(segs, seen, key).value;
      |v| < |segs| ==>
        key(segs[|v|]).Some?
        && (key(segs[|v|]).value in seen || exists i :: 0 <= i < |v| && key(v[i]) == key(segs[|v|]))
    decreases |segs|
  {
    if segs != [] && key(segs[0]).value !in seen {
      var l := key(segs[0]).value;
      TakeNewStopsAtRepeat(segs[1..], seen + {l}, key);
      var rest := TakeNew(segs[1..], seen + {l}, key).value;
      var v := TakeNew(segs, seen, key).value;
      assert v == [segs[0]] + rest;
      if |v| < |segs| {
        var next := segs[|v|];
        assert next == segs[1..][|rest|];
        if key(next).value == l {
          assert key(v[0]) == key(next);
        } else if key(next).value !in seen {
          var i :| 0 <= i < |rest| && key(rest[i]) == key(next);
          assert v[i + 1] == rest[i];
        }
      }
    }
  }

  /** The loop only raises on a segment without a label. */
  lemma {:induction false} TakeNewOk(segs: seq<string>, seen: set<string>, key: string -> Option<string>)
    requires forall i :: 0 <= i < |segs| ==> key(segs[i]).Some?
    ensures TakeNew(segs, seen, key).Ok?
    decreases |segs|
  {
    if segs != [] && key(segs[0]).value !in seen {
      TakeNewOk(segs[1..], seen + {key(segs[0]).value}, key);
    }
  }

  /** A non-empty input whose first segment has a label keeps that segment. */
  lemma TakeNewKeepsFirst(segs: seq<string>, key: string -> Option<string>)
    requires segs != [] && TakeNew(segs, {}, key).Ok?
    ensures TakeNew(segs, {}, key).value != []
  {
  }

  // ------------------------------------------------------------------
  // every candidate has a label
  // ------------------------------------------------------------------

  /** A string starting with a non-whitespace character has a word. */
  lemma FirstCharLabelled(s: string)
    requires s != [] && !IsSpace(s[0])
    ensures FirstWord(s) == Some(Word(s))
  {
  }

  /** A line whose lower-cased text contains the row tag has an `a` or an
      `A` where the tag ends. */
  lemma TagLetter(ln: string, rowIdx: int) returns (j: nat)
    requires Contains(Lower(ln), RowTag(rowIdx))
    ensures j < |ln| && (ln[j] == 'a' || ln[j] == 'A')
  {
    var tag := RowTag(rowIdx);
    var low := Lower(ln);
    var k := OccurrenceOf(low, tag);
    j := k + |tag| - 1;
    assert tag[|tag| - 1] == 'a';
    assert low[k..k + |tag|][|tag| - 1] == low[j];
    assert LowerChar(ln[j]) == 'a';
  }

  /** `lstrip(chars)` keeps a non-whitespace character outside `chars`. */
  lemma LStripSetKeeps(s: string, chars: set<char>, j: nat)
    requires j < |s| && s[j] !in chars && !IsSpace(s[j])
    ensures !AllSpace(LStripSet(s, chars))
  {
    var x := LStripSet(s, chars);
    var m := |s| - |x|;
    assert m <= j;
    assert x[j - m] == s[j];
  }

  /** A line the first fallback keeps still has a word after its clean-up:
      the `a` of the row tag is neither stripped nor whitespace. */
  lemma RelaxedLabelled(ln: string, rowIdx: int)
    requires Contains(Lower(ln), RowTag(rowIdx))
    ensures Labelled(RelaxedClean(ln))
  {
    var j := TagLetter(ln, rowIdx);
    LStripSetKeeps(ln, {'-', '•', ' '}, j);
    var x := LStripSet(ln, {'-', '•', ' '});
    StripEmptyIff(x);
    FirstCharLabelled(Strip(x));
  }

  /** The relabelled bullets start with the row number. */
  lemma RelabelLabelled(rowIdx: int, txts: seq<string>)
    requires Relabel(rowIdx, txts).Ok?
    ensures AllLabelled(Relabel(rowIdx, txts).value)
  {
    var n := IntToStr(rowIdx);
    var v := Relabel(rowIdx, txts).value;
    assert n[0] == '-' || IsDigit(n[0]);
    forall i | 0 <= i < |v| ensures Labelled(v[i]) {
      assert v[i][0] == n[0];
      FirstCharLabelled(v[i]);
    }
  }

  predicate AllLabelled(segs: seq<string>) {
    forall i :: 0 <= i < |segs| ==> Labelled(segs[i])
  }

  /** The segment printed when nothing parses has a label. */
  lemma SentinelLabelled(rowIdx: int)
    ensures Labelled(Sentinel(rowIdx))
  {
    var n := IntToStr(rowIdx);
    assert n[0] == '-' || IsDigit(n[0]);
    assert Sentinel(rowIdx)[0] == n[0];
    FirstCharLabelled(Sentinel(rowIdx));
  }

  /** Every first-fallback segment has a word. */
  lemma RelaxedAllLabelled(lines: seq<string>, rowIdx: int)
    ensures AllLabelled(Relaxed(lines, rowIdx))
  {
    var kept := Keep(lines, HasRowTag(rowIdx));
    forall i | 0 <= i < |kept| ensures Labelled(Relaxed(lines, rowIdx)[i]) {
      RelaxedLabelled(kept[i], rowIdx);
    }
  }

  /** Every primary-parse segment has a word. */
  lemma PrimaryLabelled(lines: seq<string>, rowIdx: int, none: string)
    requires Keep(lines, SegLabel) != []
    ensures AllLabelled(Candidates(lines, rowIdx, none).value)
  {
  }

  lemma RelaxedCaseLabelled(lines: seq<string>, rowIdx: int, none: string)
    requires Keep(lines, SegLabel) == [] && Relaxed(lines, rowIdx) != []
    ensures AllLabelled(Candidates(lines, rowIdx, none).value)
  {
    RelaxedAllLabelled(lines, rowIdx);
  }

  lemma BulletCaseLabelled(lines: seq<string>, rowIdx: int, none: string)
    requires Keep(lines, SegLabel) == [] && Relaxed(lines, rowIdx) == [] && Keep(lines, IsBullet) != []
    requires Candidates(lines, rowIdx, none).Ok?
    ensures AllLabelled(Candidates(lines, rowIdx, none).value)
  {
    RelabelLabelled(rowIdx, BulletTexts(lines));
  }

  lemma NoneCaseLabelled(lines: seq<string>, rowIdx: int, none: string)
    requires Keep(lines, SegLabel) == [] && Relaxed(lines, rowIdx) == [] && Keep(lines, IsBullet) == []
    requires Labelled(none)
    ensures AllLabelled(Candidates(lines, rowIdx, none).value)
  {
    assert Candidates(lines, rowIdx, none) == Ok([none]);
    SingleLabelled(none);
  }

  lemma SingleLabelled(seg: string)
    requires Labelled(seg)
    ensures AllLabelled([seg])
  {
  }

  /** Every candidate segment has a word, so the cut never raises. */
  lemma CandidatesLabelled(lines: seq<string>, rowIdx: int, none: string)
    requires Labelled(none)
    requires Candidates(lines, rowIdx, none).Ok?
    ensures AllLabelled(Candidates(lines, rowIdx, none).value)
  {
    if Keep(lines, SegLabel) != [] {
      PrimaryLabelled(lines, rowIdx, none);
    } else if Relaxed(lines, rowIdx) != [] {
      RelaxedCaseLabelled(lines, rowIdx, none);
    } else if Keep(lines, IsBullet) != [] {
      BulletCaseLabelled(lines, rowIdx, none);
    } else {
      NoneCaseLabelled(lines, rowIdx, none);
    }
  }

  // ------------------------------------------------------------------
  // the whole segmenter
  // ------------------------------------------------------------------

  /** The reply is from the fallback model and mentions an error. */
  predicate ErrorReply(reply: Reply)
    requires reply.text.Str?
  {
    reply.model == DefaultAlias && Contains(Lower(reply.text.s), "error")
  }

  /** What `seg_via_llm` returns for a reply; a text that is not a string
      fails on `.lower()` or `.splitlines()`. */
  function SegOutcome(reply: Reply, rowIdx: int, none: string): (r: Result<seq<string>>)
    ensures reply.text.Str? && ErrorReply(reply) ==> r == Ok([])
    ensures !reply.text.Str? ==> r == Err(AttributeError)
  {
    if !reply.text.Str? then Err(AttributeError)
    else if ErrorReply(reply) then Ok([])
    else ParseText(reply.text.s, rowIdx, none)
  }

  /** The parsers and the cut on a reply text. */
  function ParseText(text: string, rowIdx: int, none: string): Result<seq<string>> {
    var segs :- Candidates(Lines(text), rowIdx, none);
    Unique(segs)
  }

  /** `seg_via_llm(sentence, row_idx, model)` with the completion transport
      and the session's base URL as parameters. */
  method SegViaLlm(post: Transport, baseUrl: string, sentence: string, rowIdx: int, model: string)
    returns (r: Result<seq<string>>)
    ensures r == SegOutcome(Fetch(post, baseUrl, model, SegmentPrompt(rowIdx, sentence)), rowIdx, Sentinel(rowIdx))
  {
    var reply := Fetch(post, baseUrl, model, SegmentPrompt(rowIdx, sentence));
    r := SegReply(reply, rowIdx, Sentinel(rowIdx));
  }

  /** Everything after the completion call: the error-reply return, the
      parsers and the cut, with `none` the last-resort segment. */
  method SegReply(reply: Reply, rowIdx: int, none: string) returns (r: Result<seq<string>>)
    ensures r == SegOutcome(reply, rowIdx, none)
  {
    if !reply.text.Str? {
      return Err(AttributeError);
    }
    if ErrorReply(reply) {
      return Ok([]);
    }
    var segs :- Candidates(Lines(reply.text.s), rowIdx, none);
    r := Dedup(segs);
  }

  /** Parsing a text always yields at least one segment, and it fails only
      on a text with more lines than `chr` has letters for. */
  lemma ParseTextNonEmpty(text: string, rowIdx: int, none: string)
    requires Labelled(none)
    ensures ParseText(text, rowIdx, none).Ok? ==> ParseText(text, rowIdx, none).value != []
    ensures ParseText(text, rowIdx, none).Err? ==> 97 + |SplitLines(text)| > 0xD800
  {
    var lines := Lines(text);
    var c := Candidates(lines, rowIdx, none);
    if c.Ok? {
      CandidatesLabelled(lines, rowIdx, none);
      TakeNewOk(c.value, {}, FirstWord);
      TakeNewKeepsFirst(c.value, FirstWord);
    }
  }

  /** The result is empty only through the error-reply return, and it fails
      only for a non-string reply or past the code points `chr` can build. */
  lemma SegOutcomeNonEmpty(reply: Reply, rowIdx: int, none: string)
    requires Labelled(none)
    ensures var r := SegOutcome(reply, rowIdx, none);
      r.Ok? ==> (r.value == [] <==> ErrorReply(reply))
    ensures SegOutcome(reply, rowIdx, none).Err? ==>
      !reply.text.Str? || 97 + |SplitLines(reply.text.s)| > 0xD800
  {
    if reply.text.Str? && !ErrorReply(reply) {
      ParseTextNonEmpty(reply.text.s, rowIdx, none);
    }
  }

  /** On labelled segments the cut succeeds and keeps the longest prefix
      whose labels are pairwise distinct: it stops at the first label that
      repeats. */
  lemma UniqueCut(segs: seq<string>)
    requires AllLabelled(segs)
    ensures Unique(segs).Ok?
    ensures |Unique(segs).value| <= |segs|
    ensures var v := Unique(segs).value;
      v == segs[..|v|]
      && (forall i, j :: 0 <= i < j < |v| ==> FirstWord(v[i]) != FirstWord(v[j]))
      && (|v| < |segs| ==> exists i :: 0 <= i < |v| && FirstWord(v[i]) == FirstWord(segs[|v|]))
  {
    TakeNewOk(segs, {}, FirstWord);
    TakeNewIsPrefix(segs, {}, FirstWord);
    TakeNewDistinct(segs, {}, FirstWord);
    TakeNewStopsAtRepeat(segs, {}, FirstWord);
  }

  /** When a parser produces candidates, the reply's segments are their cut,
      and every candidate carries a label. */
  lemma ParseTextCut(text: string, rowIdx: int, none: string, segs: seq<string>)
    requires Labelled(none)
    requires Candidates(Lines(text), rowIdx, none) == Ok(segs)
    ensures ParseText(text, rowIdx, none) == Unique(segs)
    ensures AllLabelled(segs)
  {
    CandidatesLabelled(Lines(text), rowIdx, none);
  }

  /** The cut of a single labelled segment is that segment. */
  lemma TakeNewSingle(s: string, key: string -> Option<string>)
    requires key(s).Some?
    ensures TakeNew([s], {}, key) == Ok([s])
  {
    assert [s][1..] == [];
    assert TakeNew([], {key(s).value}, key) == Ok([]);
    assert [s] + [] == [s];
  }

  /** No lines at all leave only the last-resort segment. */
  lemma CandidatesOfNoLines(rowIdx: int, none: string)
    ensures Candidates([], rowIdx, none) == Ok([none])
  {
    assert Keep([], SegLabel) == [];
    assert Relaxed([], rowIdx) == [];
    assert Keep([], IsBullet) == [];
  }

  /** An empty reply text yields the single last-resort segment. */
  lemma EmptyTextGivesNone(rowIdx: int, none: string)
    requires Labelled(none)
    ensures ParseText("", rowIdx, none) == Ok([none])
  {
    LinesOfEmpty();
    CandidatesOfNoLines(rowIdx, none);
    TakeNewSingle(none, FirstWord);
    assert ParseText("", rowIdx, none) == Unique([none]);
  }

  /** When both completion calls fail, the text is empty and the result is
      the single last-resort segment. */
  lemma TotalFailureGivesSentinel(post: Transport, baseUrl: string, model: string, prompt: string,
                                  rowIdx: int, none: string)
    requires Labelled(none)
    requires Completion(post, baseUrl, model, prompt, SegmentMaxTokens).Err?
    requires Completion(post, baseUrl, DefaultAlias, prompt, SegmentMaxTokens).Err?
    ensures SegOutcome(Fetch(post, baseUrl, model, prompt), rowIdx, none) == Ok([none])
  {
    var reply := Fetch(post, baseUrl, model, prompt);
    assert reply.text == Str("");
    assert !Contains(Lower(""), "error");
    EmptyTextGivesNone(rowIdx, none);
  }

  /** One line matching the label pattern makes the primary parse the
      answer, whatever the fallbacks would find. */
  lemma PrimaryParseWins(lines: seq<string>, rowIdx: int, none: string)
    requires exists i :: 0 <= i < |lines| && SegLabel(lines[i])
    ensures Candidates(lines, rowIdx, none) == Ok(Keep(lines, SegLabel))
  {
    var i :| 0 <= i < |lines| && SegLabel(lines[i]);
    KeepMembers(lines, SegLabel);
    assert lines[i] in Keep(lines, SegLabel);
  }
}
