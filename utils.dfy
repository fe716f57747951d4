/** The helpers of backend/utils.py: the text cleaner used on retrieved
    passages and the justification call with its lenient JSON parse. */
module Utils {
  import opened Common
  import opened Strs
  import opened Values
  import opened Scrub
  import opened BlClient

  /** `json.dumps` and `json.loads`, left abstract: a dump is some text and
      a parse either yields a value or raises. */
  type Dump = Value -> string
  type Parse = string -> Option<Value>

  /** `clean_text`: drop tags, then `***#…***` spans, then citation
      brackets `[digit…]`, then strip. */
  function CleanText(s: string): (r: string)
    ensures NoOuterSpace(r)
    ensures |r| <= |s|
  {
    Strip(RemoveCiteBrackets(RemoveStarSpans(RemoveTags(s))))
  }

  /** No tag survives: the later passes only delete, and deleting cannot
      assemble a tag out of tag-free text. */
  lemma CleanTextNoTag(s: string)
    ensures NoTag(CleanText(s))
  {
    var t := RemoveTags(s);
    RemoveTagsNoTag(s);
    StarKeepsNoTag(t);
    CiteKeepsNoTag(RemoveStarSpans(t));
    NoTagStrip(RemoveCiteBrackets(RemoveStarSpans(t)));
  }

  /** Text with nothing to remove comes back unchanged. */
  lemma CleanTextFixpoint(s: string)
    requires NoTag(s) && !HasStar(s) && !HasCite(s) && NoOuterSpace(s)
    ensures CleanText(s) == s
  {
    RemoveTagsIdentity(s);
    StarIdentity(s);
    CiteIdentity(s);
    StripNoOuterSpace(s);
  }

  /** Text that contains a `***#…***` span or a citation bracket (and no
      tag) comes back strictly shorter. */
  lemma CleanTextRemovesMarkers(s: string)
    requires NoTag(s) && (HasStar(s) || (!HasStar(s) && HasCite(s)))
    ensures |CleanText(s)| < |s|
  {
    RemoveTagsIdentity(s);
    if !HasStar(s) {
      StarIdentity(s);
    }
  }

  const JustificationInstruction :=
    "Rank and justify which of the passages best supports the claim. Return a JSON object with keys \"best_id\" and \"rationale\".\n\n"

  /** The justification prompt: the fixed instruction, then the payload as
      JSON. */
  function JustificationPrompt(payload: Value, dump: Dump): (p: string)
    ensures StartsWith(p, JustificationInstruction)
    ensures p[|JustificationInstruction|..] == dump(payload)
  {
    JustificationInstruction + dump(payload)
  }

  /** The raw completion kept as the rationale when it is not a JSON object. */
  function Fallback(content: Value): Value {
    Obj([("rationale", content), ("best_id", Null)])
  }

  /** The lenient parse: a JSON object is returned as it is; anything else
      (another JSON value, text that does not parse, a non-string
      completion) becomes the fallback. */
  function ParseJustification(content: Value, parse: Parse): (r: Value)
    ensures r.Obj?
    ensures (content.Str? && parse(content.s).Some? && parse(content.s).value.Obj?) ==>
      r == parse(content.s).value
    ensures !(content.Str? && parse(content.s).Some? && parse(content.s).value.Obj?) ==>
      Get(r.fields, "rationale") == Some(content) && Get(r.fields, "best_id") == Some(Null)
  {
    if content.Str? && parse(content.s).Some? && parse(content.s).value.Obj? then
      parse(content.s).value
    else
      Fallback(content)
  }

  /** `call_llm_justification(payload, model_name)`: the base URL comes from
      the environment; only the completion can fail, never the parse. */
  function CallLlmJustification(payload: Value, modelName: Option<string>, dump: Dump, parse: Parse,
                                post: Transport, envBase: Option<string>): (r: Result<Value>)
    ensures r.Ok? <==> ClientCompletion(post, envBase, OrDefault(modelName, "alias-large"),
                                        JustificationPrompt(payload, dump), 256).Ok?
    ensures r.Ok? ==> r.value.Obj?
    ensures r.Ok? ==> r.value == ParseJustification(ClientCompletion(post, envBase, OrDefault(modelName, "alias-large"),
                                                                     JustificationPrompt(payload, dump), 256).value, parse)
  {
    var content :- ClientCompletion(post, envBase, OrDefault(modelName, "alias-large"),
                                    JustificationPrompt(payload, dump), 256);
    Ok(ParseJustification(content, parse))
  }
}
