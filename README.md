# citation-checking-poc, modelled in Dafny

This project models the citation-checking proof of concept: a pipeline that
takes scholarly papers converted to TEI XML by Grobid, finds the sentences
that cite another paper, gathers the cited papers, and checks whether a
cited passage supports the citing sentence. Three families of code are
modelled.

- **The FastAPI backend** (`backend/`). This covers TEI and CSV loading into
  text chunks, the text cleaners, and the Blablador client (completions and
  embeddings over an injected HTTP transport). It also covers the
  per-document retriever with its persisted index, the NLI model registry,
  the per-sentence evidence processing of `_process_sentence`, and the
  global result store of
  `backend/main.py`.
- **The LLM sentence segmenter** of `frontend/ui.py` (`seg_via_llm`): prompt
  building, reply parsing, and the position bookkeeping around it.
- **The batch scripts.** These are `retrieve.py`, `forward-retreive.py`,
  `forward-get-dois.py`, `match-cit-to-bib.py`, `consolidate.py`,
  `nli-checking-extended.py` and `nli-checking.py`. They cover record
  matching, DOI and OpenAlex lookups, de-duplication, consolidation of the
  reference tables, and NLI candidate ranking over sliding windows of the
  cited body text.

Each source file is one module. Four shared modules hold Python's built-in
behaviour; only the members of `Values` and `Ranking` that state what a
Python built-in promises have rows of their own:

- `Common`: `Option`, `Result` with the Python exception raised, and list
  slicing and indexing.
- `Strs`: `str.strip`, `split`, `startswith`, `in`, integer formatting, and
  `lower` on ASCII letters. Its character classes (`isalnum`, `\d`, `\w`)
  are the ASCII ones; the "## Left out" section lists the members this
  narrows.
- `Values`: JSON-like values, ordered dictionaries and CSV cells.
- `Ranking`: the stable `sorted(..., reverse=True)`.

`Corpus` holds the parsed-TEI record shared by the loaders.

Everything outside the process becomes a function-typed parameter or an
input value. This includes the HTTP transport, embedding and NLI models,
FAISS search, Grobid, the file system, environment variables and JSON
encoding. The contracts hold for every such oracle.

## Model

| member | source | states |
|---|---|---|
| Utils.CleanText | backend/utils.py:10-15 | the cleaned text has no surrounding whitespace and is never longer than the input |
| Utils.CleanTextNoTag | backend/utils.py:10-15 | no `<…>` tag is left in the output, although the later passes run on tag-free text |
| Utils.CleanTextFixpoint | backend/utils.py:10-15 | text with no tag, no `***#…***` span, no citation bracket and no outer space is returned unchanged |
| Utils.CleanTextRemovesMarkers | backend/utils.py:13-14 | tag-free text containing a `***#…***` span or a `[digit…]` bracket comes back strictly shorter |
| Utils.JustificationPrompt | backend/utils.py:39-42 | the prompt is the fixed instruction followed by exactly the JSON dump of the payload |
| Utils.ParseJustification | backend/utils.py:54-59 | a completion that parses to a JSON object is returned as is; anything else becomes `{rationale: content, best_id: None}`; the result is always an object |
| Utils.CallLlmJustification | backend/utils.py:38-60 | fails exactly when the completion call (model `model_name or "alias-large"`, 256 tokens) fails; on success the result is the completion text read as a justification: the JSON object it parses to, else `{rationale: text, best_id: None}` |
| Scrub.TagLen | backend/parser.py:60 | a tag at the head spans at least three characters and stays within the text |
| Scrub.RemoveTags | backend/parser.py:60 | the `<[^>]+>` pass never lengthens, adds no new character, and keeps a non-`<` first character |
| Scrub.RemoveTagsNoTag | backend/parser.py:60 | no tag is left after the pass |
| Scrub.RemoveTagsIdentity | backend/parser.py:60 | tag-free text is left unchanged |
| Scrub.RemoveTagsIdempotent | backend/parser.py:60 | running the tag pass twice equals running it once |
| Scrub.NoTagStrip | backend/parser.py:68 | `strip()` keeps a text tag-free |
| Scrub.HashLen | backend/parser.py:61 | a `#\S+` match spans at least two characters and stays within the text |
| Scrub.RemoveHashWords | backend/parser.py:61 | the `#\S+` pass never lengthens, adds no new character, and keeps a non-`#` first character |
| Scrub.RemoveHashWordsNoHash | backend/parser.py:61 | no `#` followed by a non-space is left after the pass |
| Scrub.RemoveHashWordsKeepsNoTag | backend/parser.py:60-61 | the hash pass cannot create a tag in tag-free text |
| Scrub.HashIdentity | backend/parser.py:61 | text without a hash word is left unchanged |
| Scrub.NoHashStrip | backend/parser.py:68 | `strip()` keeps a text free of hash words |
| Scrub.CollapseKeepsClean | backend/parser.py:68 | collapsing whitespace runs keeps tag-free and hash-free text so |
| Strs.CollapseChars | backend/parser.py:68 | collapsing never lengthens and adds no character except a space |
| Scrub.Digits | backend/parser.py:62 | the leading digit run is the longest prefix made only of digits |
| Scrub.RemoveNumMarkers | backend/parser.py:62 | the `\[\d+\]` pass never lengthens, adds no character, and shortens whenever a marker occurs |
| Scrub.NumMarkersIdentity | backend/parser.py:62 | the marker pass changes the text exactly when a marker occurs in it |
| Scrub.NumMarkersKeepNoHash | backend/parser.py:61-62 | the marker pass cannot create a hash word |
| Scrub.NumMarkersKeepNoTag | backend/parser.py:60-62 | the marker pass cannot create a tag |
| Scrub.NumMarkersNotIdempotent | backend/parser.py:62 | one pass over `"[[1]1]"` leaves the marker `"[1]"` behind |
| Scrub.StarLen | backend/utils.py:13 | a `***#…***` match spans at least seven characters |
| Scrub.RemoveStarSpans | backend/utils.py:13 | the `***#.*?***` pass never lengthens, adds no character, and shortens whenever a span occurs |
| Scrub.StarIdentity | backend/utils.py:13 | the span pass changes the text exactly when a span occurs |
| Scrub.StarKeepsNoTag | backend/utils.py:12-13 | the span pass cannot create a tag |
| Scrub.CiteLen | backend/utils.py:14 | a `[digit…]` match spans at least three characters |
| Scrub.RemoveCiteBrackets | backend/utils.py:14 | the `\[\d+.*?\]` pass never lengthens, adds no character, and shortens whenever a bracket occurs |
| Scrub.CiteIdentity | backend/utils.py:14 | the bracket pass changes the text exactly when a bracket occurs |
| Scrub.CiteKeepsNoTag | backend/utils.py:12-14 | the bracket pass cannot create a tag |
| Corpus.ParseFound | backend/parser.py:95-98 | a file that exists fails to parse exactly when its XML is malformed |
| Corpus.AllParsedIff | backend/parser.py:28-30 | every file in the folder parses exactly when each does |
| Parser.Clean | backend/parser.py:65-68 | the cleaned text has no surrounding whitespace and is never longer than the input |
| Parser.StripCitationsClean | backend/parser.py:58-63 | `_strip_citations` leaves no tag and no `#` word |
| Parser.CleanOutput | backend/parser.py:65-68 | a cleaned text is stripped, single-spaced with plain spaces, and free of tags and `#` words |
| Parser.CleanFixpoint | backend/parser.py:65-68 | text that is already clean and single-spaced is returned unchanged |
| Parser.ChunkMeta | backend/parser.py:75-77 | the meta carries `type` = kind, and an `id` exactly when a chunk id is given, with no duplicate key |
| Parser.ChunkList.AddChunk | backend/parser.py:71-78 | appends one chunk with the cleaned text exactly when that text is non-empty; earlier chunks are untouched |
| Parser.FallbackSectionIdsDistinct | backend/parser.py:104-105 | two divs without `xml:id` at different positions get different `sec{n}` ids |
| Parser.AssignSectionIds | backend/parser.py:101-109 | the section map has one entry per body div: its `xml:id` or `sec{n}` with the counter advancing on every div, its type and its head |
| Parser.CleanAll | backend/parser.py:123-126 | each sentence text is cleaned in place |
| Parser.KeepNonEmpty | backend/parser.py:128-143 | at most one chunk per text; each chunk is non-empty with meta `{source, type: "sentence"}` |
| Parser.KeepNonEmptySound | backend/parser.py:128-143 | every chunk's text is one of the cleaned texts |
| Parser.KeepNonEmptyComplete | backend/parser.py:128-143 | every non-empty cleaned text appears as a chunk |
| Parser.BodyChunksMeta | backend/parser.py:113-143 | every body chunk has non-empty text and exactly the meta `{source, type: "sentence"}` |
| Parser.ParagraphSentences | backend/parser.py:122-143 | the sentence loop of one paragraph yields that paragraph's chunks |
| Parser.KeepChunks | backend/parser.py:128-143 | the append loop returns exactly the non-empty texts as chunks |
| Parser.CollectBody | backend/parser.py:113-143 | the paragraph loop returns the chunks of all body paragraphs in order |
| Parser.TeiToChunks | backend/parser.py:84-145 | a missing file raises `FileNotFoundError`; the call succeeds exactly when the file parses and then returns the body chunks |
| Parser.CaptionPieces | backend/parser.py:157 | each piece is non-empty and stripped, and a text is a piece exactly when it is the non-blank strip of some part of the caption split on `". "` |
| Parser.NonEmptyStrippedMembers | backend/parser.py:157 | the comprehension keeps exactly the non-blank stripped parts |
| Parser.NonEmptyStrippedConcat | backend/parser.py:157 | the pieces of earlier parts come before those of later parts: the comprehension distributes over concatenation |
| Parser.NonEmptyStrippedAllKept | backend/parser.py:157 | when no part is blank, piece i is part i stripped |
| Parser.CaptionPiecesOrder | backend/parser.py:157 | cutting the split at any part, the caption's pieces are those before the cut followed by those after it |
| Parser.CaptionText | backend/parser.py:161 | a caption sentence ends in exactly one period |
| Parser.FigureCaptionSentence | backend/parser.py:151-164 | one chunk per caption piece, holding the piece with its period and the meta `{type: figure, fig_id, sent_id}` |
| Parser.NumberCaptions | backend/parser.py:158-163 | the `enumerate` loop makes one figure chunk per sentence with its index |
| Parser.YearColumn | backend/parser.py:35 | on success there is one integer per row, the conversion of its `Cited Year` cell |
| Parser.CitingDoc | backend/parser.py:37-46 | a row converts exactly when it has `tei_sentence`, `Cited Author` and `TEI File`, into the document with those fields and meta `{id}` |
| Parser.CitingDocs | backend/parser.py:36-47 | on success there is one citing document per row, in row order |
| Parser.AllBodyChunksSnoc | backend/parser.py:28-30 | adding one file appends exactly that file's body chunks |
| Parser.CollectTei | backend/parser.py:27-30 | succeeds exactly when every file parses, and then returns all body chunks in glob order |
| Parser.TeiAndCsvToDocuments | backend/parser.py:23-49 | succeeds exactly when every TEI file parses and the CSV is readable; then the TEI chunks come first, followed by one document per row |
| Parser.TeiChunksHaveNoAuthor | backend/parser.py:36-49 | TEI chunks carry no author and no year; only the CSV documents do |
| Parser.BodyChunksHaveNoAuthor | backend/parser.py:113-143 | no body chunk carries an author or a year |
| Parser.ChunkList.constructor | backend/parser.py:111 | the chunk list starts empty |
| BlClient.NormalizeBase | backend/bl_client.py:46-48 | the base loses its trailing slashes and gets `https://` exactly when it then has no `http://` or `https://` scheme |
| BlClient.CompletionUrl | backend/bl_client.py:46-49 | the URL has a scheme and ends in `/v1/completions` |
| BlClient.NormalizeIdempotent | backend/bl_client.py:46-48 | normalising a normalised base changes nothing unless the base was only slashes |
| BlClient.NormalizeSlashesOnly | backend/bl_client.py:46-48 | the base `"/"` becomes `"https://"`, which normalises again to `"https://https:"` |
| BlClient.Completion | backend/bl_client.py:45-69 | a connection failure fails; a status in 400-599 raises `HTTPError` with that status; on success the status is not an error and the value is `choices[0].text` of the JSON body |
| BlClient.ClientCompletion | backend/bl_client.py:108-122 | a missing base URL raises `AttributeError` on `rstrip`; otherwise the call is the client's completion |
| BlClient.ChoiceTextOfWellFormedBody | backend/bl_client.py:69 | a body whose first choice has a `text` yields that text |
| BlClient.FlattenAppend | backend/bl_client.py:99 | extending with batch results concatenates them |
| BlClient.BatchesPartition | backend/bl_client.py:85-88 | the batches cover the texts exactly and in order, in `ceil(n / 50)` requests, each of 1 to 50 texts and all full but the last |
| BlClient.EmbedAllFailureSticks | backend/bl_client.py:90-96 | once a batch fails, later batches do not change the outcome |
| BlClient.EmbedAllSnoc | backend/bl_client.py:87-99 | one more batch either keeps the earlier failure, fails itself, or appends its vectors |
| BlClient.EmbedAllLength | backend/bl_client.py:97-101 | with a service that returns one vector per text, there is one vector per input text |
| BlClient.BatchesStep | backend/bl_client.py:87-88 | the next batch is `texts[start:start+50]`, and the rest follows |
| BlClient.EmbedFailsAt | backend/bl_client.py:90-96 | a failing batch after successful ones decides the whole outcome |
| BlClient.EmbedDocuments | backend/bl_client.py:72-106 | the result is the batch-by-batch outcome; on success every batch was posted; on failure the last batch posted is the first that failed, and nothing partial is returned |
| BlClient.ParagraphChunks | backend/bl_client.py:12-15 | each chunk is a non-empty stripped paragraph with meta `{source}` |
| BlClient.ParagraphChunksCount | backend/bl_client.py:12-15 | there is one chunk per paragraph that is not all whitespace |
| BlClient.TeiToChunks | backend/bl_client.py:6-16 | succeeds exactly when the XML parses, and then returns the paragraph chunks |
| BlClient.ChunkParagraphs | backend/bl_client.py:12-15 | the paragraph loop returns exactly the paragraph chunks |
| BlClient.ParagraphChunksStep | backend/bl_client.py:13-15 | one paragraph adds one chunk exactly when its stripped text is non-empty |
| BlClient.CitingMeta | backend/bl_client.py:28-32 | the meta starts `{type: citing, csv_row}` and has `citing_title` or `citing_id` exactly when the row has it |
| BlClient.CitingDocs | backend/bl_client.py:27-36 | succeeds exactly when every row has `citing_sentence`; then there is one document per row with that text and its meta |
| BlClient.FilesToChunks | backend/bl_client.py:23-24 | the file loop succeeds exactly when every file parses, and then returns the chunks of each file in glob order |
| BlClient.TeiAndCsvToDocuments | backend/bl_client.py:18-37 | succeeds exactly when every file parses and every row has a sentence; then it returns the file chunks in glob order followed by the row documents |
| BlClient.AllParagraphChunksSnoc | backend/bl_client.py:23-24 | one more file appends exactly its chunks |
| Retrieval.RFind | backend/retriever.py:20 | finds the last occurrence of a character, and only when there is one |
| Retrieval.BaseName | backend/retriever.py:20 | the final path component has no `/` and ends the path |
| Retrieval.WithSuffix | backend/retriever.py:20 | `with_suffix` raises `ValueError` exactly on an empty name, and appends the suffix to a name without a dot |
| Retrieval.RFindAt | backend/retriever.py:20 | the occurrence with no later copy is the one found |
| Retrieval.BaseNameJoin | backend/retriever.py:118 | the name of `folder / key` is the key |
| Retrieval.IndexFileOfDottedKey | backend/retriever.py:20 | a key with an inner dot loses everything from its last dot before `.faiss` is added |
| Retrieval.IndexFilesCollide | backend/retriever.py:20 | two keys that agree up to their last inner dot share one index file |
| Retrieval.IndexFileCollision | backend/retriever.py:116-125 | the keys `J. Smith-2020` and `J. Doe-2021` both write `J.faiss` |
| Retrieval.Truncate | backend/retriever.py:30 | `chunks[:max_sentences] if max_sentences else chunks`: a prefix, the whole list for `None` or 0, and `min(n, len)` items for positive `n` |
| Retrieval.Texts | backend/retriever.py:32 | one text per chunk, in order |
| Retrieval.MakeIndex | backend/retriever.py:37-41 | the index forms exactly when there is at least one vector and all share the first one's length, which becomes the dimension |
| Retrieval.BuildPairsRows | backend/retriever.py:29-43 | with one vector per text, a successful build pairs index row i with kept chunk i |
| Retrieval.BuildEmptyFails | backend/retriever.py:37-39 | building from no chunks raises `IndexError` |
| Retrieval.Kept | backend/retriever.py:60-62 | the kept hits are search hits scoring at least `min_score` |
| Retrieval.MatchesOkIff | backend/retriever.py:59-69 | the result loop fails exactly when a kept hit points outside the chunks; dropped hits are never looked up |
| Retrieval.MatchesAreKeptHits | backend/retriever.py:59-69 | the results are the kept hits in search order, each with its score and the text and meta of its chunk |
| Retrieval.MatchScores | backend/retriever.py:61-65 | every returned score reaches the threshold |
| Retrieval.AllBelowGivesNothing | backend/retriever.py:61-62 | when every hit is below the threshold the result is empty, without error |
| Retrieval.KeptDescending | backend/retriever.py:60-62 | filtering keeps a descending search order descending |
| Retrieval.RowMatches | backend/retriever.py:81-94 | on success there is one result list per query vector |
| Retrieval.QueryShape | backend/retriever.py:57-79 | the search accepts the queries exactly when there is at least one and all have the index dimension; equal widths that differ from the index give `AssertionError`, unequal widths `ValueError` |
| Retrieval.RowMatchesAt | backend/retriever.py:82-93 | row i of a successful run is the result loop applied to query vector i's hits |
| Retrieval.RowMatchesFailure | backend/retriever.py:82-93 | a failure among the first vectors decides the whole run |
| Retrieval.MatchesFailure | backend/retriever.py:60-68 | a failing lookup among the first hits decides the whole loop |
| Retrieval.QueryManyAgrees | backend/retriever.py:49-94 | when batch embedding equals one-by-one embedding, `query_many` answers each text as `query` does |
| Retrieval.IndexStore.constructor | backend/retriever.py:44 | no index file is written yet |
| Retrieval.Retriever.constructor | backend/retriever.py:11-27 | a new retriever is unbuilt with no chunks; its index path is the given path with suffix `.faiss` |
| Retrieval.Retriever.Build | backend/retriever.py:29-44 | on success the kept prefix and its index are installed together and the file is written; on failure nothing changes |
| Retrieval.Retriever.Load | backend/retriever.py:46-47 | reads the index file back, failing when it does not exist; the chunks are left as they were |
| Retrieval.Retriever.Query | backend/retriever.py:49-69 | an unbuilt or chunk-less retriever raises `ValueError`; otherwise embedding, then search, then the result loop |
| Retrieval.Retriever.QueryMany | backend/retriever.py:71-94 | the same as `query`, with one result list per text |
| Retrieval.CollectMatches | backend/retriever.py:59-69 | the result loop returns exactly the specified matches or the first lookup failure |
| Retrieval.LoadedCannotQuery | backend/retriever.py:46-51 | a fresh retriever that loads its index still raises `ValueError`, since `load` does not restore the chunks |
| Retrieval.PaperKey | backend/retriever.py:114-116 | a document has a key exactly when it carries both author and year |
| Retrieval.PaperKeyNotDefault | backend/retriever.py:116-139 | no paper key is `"default"`, so the default index never overwrites a paper entry |
| Retrieval.LastByKeySnoc | backend/retriever.py:113-126 | one more item either leaves the registry unchanged (no key) or overwrites its key |
| Retrieval.LastByKeyKeys | backend/retriever.py:113-126 | a key is registered exactly when some document has it |
| Retrieval.LastByKeyLast | backend/retriever.py:126 | a key maps to the last document that has it |
| Retrieval.SentenceDocs | backend/retriever.py:129 | the default documents are exactly the documents whose meta type is `sentence` |
| Retrieval.SentenceDocsConcat | backend/retriever.py:129 | the filter distributes over concatenation, so the sentence documents keep their order |
| Retrieval.KeyedBuildsSnoc | backend/retriever.py:113-126 | the per-paper builds of one more document succeed exactly when the earlier ones do and this one, if keyed, builds |
| Retrieval.KeyedBuildsPrefix | backend/retriever.py:113-126 | if all builds succeed, those of any prefix do too |
| Retrieval.BuildOne | backend/retriever.py:117-125 | a new retriever is built from the input, succeeding exactly when the build does |
| Retrieval.BuildKeyed | backend/retriever.py:113-126 | succeeds exactly when every keyed document builds; the registry keys are the paper keys, each built from the last document with that key |
| Retrieval.BuildAll | backend/retriever.py:96-141 | no CSV raises `ValueError`; success exactly when loading and every build succeed; one entry per paper key plus `"default"`, built from the sentence chunks |
| Retrieval.JoinPathHasName | backend/retriever.py:118 | `folder / key` has a name for a non-empty key not ending in `/` |
| Retrieval.PaperKeyEndsInDigit | backend/retriever.py:116 | a paper key is non-empty and ends in a digit |
| Nli.NliRegistry.constructor | backend/nli.py:31 | the cache starts empty |
| Nli.NliRegistry.GetLocalPipeline | backend/nli.py:33-48 | an unregistered name raises `KeyError` and changes nothing; a registered name returns the pipeline of its repository, built and cached on first use only |
| Nli.ConstructedAtMostOnce | backend/nli.py:37-47 | however often the cache is asked, each name's pipeline is constructed at most once |
| Nli.OnlyOccurrence | backend/nli.py:37-47 | a name listed once among distinct names occurs exactly once |
| Nli.Best | backend/nli.py:81 | `max(preds, key=score)` fails on an empty list; otherwise it is a prediction with the highest score |
| Nli.BestIsFirst | backend/nli.py:81 | on a tie the earliest top-scoring prediction is chosen |
| Nli.LabelToAssessment | backend/nli.py:84-85 | a label containing `entail` (case-folded) is `yes`; otherwise one containing `contradict` is `no`; otherwise `circumstantial` |
| Nli.NotEntailmentIsYes | backend/nli.py:85 | `not_entailment` is assessed `yes`, because `entail` is matched first |
| Nli.LocalEvidence | backend/nli.py:76-93 | the loop over the first n pairs yields at most n items |
| Nli.LocalEvidenceItems | backend/nli.py:76-93 | on success every pair has a prediction; every local item is the evidence dict of a passage built from the `max` of its `claim [SEP] text` predictions, which reaches the threshold; and every passage whose `max` reaches the threshold contributes its item |
| Nli.LocalEvidenceOrder | backend/nli.py:76-93 | on success there is a strictly increasing sequence of passage positions, exactly those whose best prediction reaches the threshold, such that the k-th item is the evidence dict of the k-th of them |
| Nli.LocalEvidenceOk | backend/nli.py:78-81 | the loop succeeds only if `max` succeeded on every pair |
| Nli.LocalEvidenceIndexed | backend/nli.py:76-93 | on success the items are, in order, the evidence dicts of the kept positions |
| Nli.KeptIndexes | backend/nli.py:81-83 | the positions not skipped by `continue` lie among the first n pairs and have a best prediction |
| Nli.KeptIndexesExactly | backend/nli.py:81-83 | a position is kept exactly when its best prediction reaches the threshold |
| Nli.KeptIndexesIncreasing | backend/nli.py:76 | the kept positions come in passage order |
| Nli.LocalAssessments | backend/nli.py:84-93 | every local assessment is `yes`, `no` or `circumstantial` |
| Nli.AssessLocal | backend/nli.py:73-94 | the local branch returns the loop's evidence over `zip(passages, metadatas)` |
| Nli.LocalEvidenceFails | backend/nli.py:79-81 | a failure on an early pair decides the whole loop |
| Nli.PassageEntries | backend/nli.py:102-107 | one payload passage per zipped pair, with its text, chunk id and type |
| Nli.RemotePrompt | backend/nli.py:110-115 | the prompt is the stripped instructions and `<INPUT>`, then exactly the payload JSON, then the closing request |
| Nli.RemoteEvidence | backend/nli.py:129-134 | a JSON object gives its `evidence` entry or `[]`; anything that raises gives `[]` |
| Nli.AssessRemote | backend/nli.py:96-134 | the remote branch fails exactly when the completion (model `llm_model or "alias-large"`, 512 tokens, base URL the argument or else the environment's) fails; otherwise its result is the lenient `evidence` read of that completion |
| Nli.AssessResult | backend/nli.py:63-134 | a registered `nli_model` runs the local loop over its pipeline; any other value goes remote |
| Nli.Assess | backend/nli.py:63-134 | `assess` returns that result; the local path leaves the registered name cached with its checkpoint's pipeline and constructs it only when it was not cached before; the remote path leaves the cache and the constructed list unchanged |
| Backend.PaperKeyMatchesIndexKey | backend/main.py:47-48 | for an integer year cell, the worker's key `"{author}-{year}"` is the key under which `build_all` registered that row's document |
| Backend.FloatYearMissesIndexKey | backend/main.py:104-105 | a year cell read as a float prints with `.0`, so its key never equals the integer key |
| Backend.Lookup | backend/main.py:105-107 | the paper's retriever when registered, else `"default"`, else `KeyError("Retriever for … not built")` |
| Backend.SentenceHits | backend/main.py:114 | the sentence hits are sentence-type candidates, never more than the candidates |
| Backend.SentenceHitsMembers | backend/main.py:114 | a candidate is a sentence hit exactly when its meta type is `sentence` |
| Backend.SelectCandidates | backend/main.py:115-118 | at most six candidates are chosen |
| Backend.SelectCandidatesLength | backend/main.py:115-118 | with n sentence hits the choice holds `n + min(6 - n, len(candidates))` items, capped at six |
| Backend.SelectCandidatesOrder | backend/main.py:115-118 | the first `min(n, 6)` chosen items are the first sentence hits in query order; below six they are followed by the head of the full list |
| Backend.SelectCandidatesRepeats | backend/main.py:118 | the backfill can repeat a hit: a lone sentence candidate is chosen twice |
| Backend.Passages | backend/main.py:119 | one passage per chosen candidate: its text |
| Backend.Metas | backend/main.py:120 | one metadata dict per chosen candidate: its meta |
| Backend.SegmentIdOrder | backend/main.py:110-145 | ids in a row are distinct, start with the row number, and their letters follow the claim order |
| Values.Iterate | backend/main.py:137 | a `for` loop fails with `TypeError` exactly on a value that is not a list, string or dict; a list yields its items, a string its one-character strings and a dict its keys, in order |
| Values.GetIter | forward-retreive.py:154-185 | `for x in d.get(k, [])` runs over nothing when the key is missing and otherwise iterates the stored value as Python does |
| Backend.AnnotateReadsBack | backend/main.py:141-142 | an annotated item carries the chunk's `id` and `type` (default `""`) and keeps every other key |
| Backend.DictPositions | backend/main.py:137-140 | the positions listed are exactly positions of dict items |
| Backend.AnnotatedOkIff | backend/main.py:137-143 | annotation succeeds exactly when no dict item lies past the chosen list |
| Backend.AnnotatedItems | backend/main.py:137-143 | item k of the evidence is the k-th dict item, annotated from the candidate chosen at that item's own position |
| Backend.ScalarAnswerGivesNoEvidence | backend/main.py:130-135 | an answer that is neither dict nor list, or a dict whose `evidence` is a string or dict, gives no evidence |
| Backend.NoDictsNoEvidence | backend/main.py:139-140 | a list without dicts gives no evidence |
| Backend.AnnotateEvidence | backend/main.py:136-143 | the annotation loop returns exactly that evidence list or the `IndexError` |
| Backend.AnnotatedFailure | backend/main.py:141 | an error among the first items decides the whole loop |
| Backend.TopPassages | backend/main.py:152 | at most one quote per evidence item |
| Backend.TopPassagesNonEmpty | backend/main.py:152-153 | when quotes can be collected, every item has an assessment, and some quote is collected exactly when some item is `yes` or `partial` |
| Backend.Justify | backend/main.py:160-161 | a dict gives `best_id` and `rationale` (default `None`); anything else gives no id and the raw value as rationale |
| Backend.Finished | backend/main.py:129-164 | the segment has its id and claim, and it is justified exactly when its own evidence includes a supporting item |
| Backend.ClaimOutcome | backend/main.py:110-164 | the same for one full pass of the claim loop |
| Backend.AssessClaim | backend/main.py:112-128 | querying 12 hits, choosing candidates and adjudicating them gives the specified pair, and the NLI cache stays valid |
| Backend.FinishClaim | backend/main.py:129-164 | normalising, annotating and justifying gives the specified segment |
| Backend.ProcessClaim | backend/main.py:110-164 | one pass of the loop gives the claim's specified outcome |
| Backend.ClaimStep | backend/main.py:110 | the step function is defined for every claim index the loop can reach |
| Backend.ClaimStepIs | backend/main.py:110 | the step function is the claim's outcome |
| Backend.Segments | backend/main.py:110-164 | on success there is one segment per claim |
| Backend.SegmentsAt | backend/main.py:110-164 | segment i is claim i's own outcome |
| Backend.SegmentsFailure | backend/main.py:110-164 | an error among the first claims decides the whole loop |
| Backend.ClaimSegmentsAt | backend/main.py:144-164 | segment i has id `row + chr(97 + i)` and claim i, and is justified exactly when its own evidence supports it, whatever the others gave |
| Backend.RunClaims | backend/main.py:110-164 | the claim loop returns the specified segments or the first error |
| Backend.CitingTitle | backend/main.py:167-168 | the citing title is the whole text when it has no `-DOI`, and otherwise the text up to the first `-DOI`; a non-string cell fails |
| Backend.AddSentenceAppends | backend/main.py:169-181 | adding a sentence replaces no node, adds the paper and citing paper only when absent, and appends the sentence at the end of its list |
| Backend.ExtendsTransitive | backend/main.py:169-181 | append-only growth composes over several rows |
| Backend.AddedRowIsDone | backend/main.py:227-237 | once a row's sentence with a claim is stored, `/progress` finds it |
| Backend.RowDoneMonotone | backend/main.py:227-237 | a growing tree never takes back a `done` |
| Backend.ProgressPrefixAmbiguous | backend/main.py:235 | results for row `10 r + d` make row `r` report done |
| Backend.DecimalPrefix | backend/main.py:230-235 | the decimal digits of `10 r + d` start with those of `r` |
| Backend.PaperRowPrefix | backend/main.py:235 | a paper showing a row under a longer prefix shows it under a shorter one |
| Backend.SentenceShowsRow | backend/main.py:234-236 | the innermost loop finds a segment id with the prefix exactly when one exists |
| Backend.CitingShowsRow | backend/main.py:233-236 | the sentence loop finds the prefix exactly when one sentence shows it |
| Backend.PaperShowsRow | backend/main.py:232-236 | the citing-paper loop finds the prefix exactly when one citing paper shows it |
| Backend.Progress | backend/main.py:227-237 | the status is `done` exactly when some stored segment id starts with the row number, else `pending` |
| Backend.CsvLocation | backend/main.py:94-101 | a truthy `data_dir` without a CSV raises; otherwise the location is found |
| Backend.RowAt | backend/main.py:103 | `df.iloc[row_id]` succeeds exactly for `-n <= row_id < n`, and then gives that row |
| Backend.SentenceOutcome | backend/main.py:89-181 | a successful run only extends the result tree |
| Backend.ProcessedRowIsDone | backend/main.py:89-237 | after a row with a claim is processed, `/progress` reports it done |
| Backend.PrebuildIndexes | backend/main.py:51-86 | a missing required column raises `ValueError`; it succeeds only without any group; otherwise it raises in the first group |
| Backend.PrebuildIndexesNeverRegisters | backend/main.py:64-77 | whenever some row has both keys, `prebuild_indexes` raises |
| Backend.Backend.constructor | backend/main.py:45 | both registries start empty |
| Backend.Backend.ProcessSentence | backend/main.py:89-181 | the tree becomes the specified outcome, or stays as it was when a step raises; the retrievers are untouched |
| Backend.Backend.ProgressOf | backend/main.py:227-237 | `/progress` over the stored tree |
| Backend.Backend.Prebuild | backend/main.py:248-264 | the registry is cleared, then filled from `build_all`: one retriever per paper key built from the last document with that key, and `"default"` built from the sentence documents; on failure it stays empty and the answer is a 500 |
| Segmenter.ActualModel | frontend/ui.py:89-110 | `ALIAS_TO_MODEL.get(model, model)` sends every model name unchanged |
| Segmenter.FormatPrompt | frontend/ui.py:67-109 | the prompt starts with the instructions, asks for segments numbered `{row}a, {row}b`, and ends with the sentence and `Segments:` |
| Segmenter.Fetch | frontend/ui.py:115-137 | a successful call keeps the model and its text; a failed call is retried once on `alias-large`, and a second failure leaves the text empty |
| Segmenter.Keep | frontend/ui.py:142-147 | a filtering comprehension keeps only elements meeting its condition, never more than the input |
| Segmenter.KeepMembers | frontend/ui.py:142-147 | exactly the elements meeting the condition are kept |
| Segmenter.KeepAll | frontend/ui.py:142-147 | when every element meets the condition, everything is kept |
| Segmenter.LeadingDigits | frontend/ui.py:106 | the leading digit run is the longest all-digit prefix |
| Segmenter.SegLabel | frontend/ui.py:106 | a line the scan accepts matches `^\s*\d+[a-z]\.` at its whitespace and digit runs |
| Segmenter.MatchIsSegLabel | frontend/ui.py:106 | a line that matches at some split is accepted by the scan |
| Segmenter.SegLabelIsRegex | frontend/ui.py:106 | the scan accepts a line exactly when the case-insensitive pattern matches it |
| Segmenter.StripBullets | frontend/ui.py:148 | `re.sub(r"^[-•\s]+", "", ln)` removes exactly the leading run of dashes, bullets and whitespace |
| Segmenter.Relabel | frontend/ui.py:149 | item i becomes `"{row}{chr(97+i)} text"`, one item per bullet; it fails once `chr` passes the last character below the surrogate range |
| Segmenter.Lines | frontend/ui.py:140 | one stripped line per line of the reply |
| Segmenter.Relaxed | frontend/ui.py:144-145 | one cleaned segment per line containing `{row}a` after lower-casing |
| Segmenter.BulletTexts | frontend/ui.py:147-148 | one text per bullet line |
| Segmenter.Bulleted | frontend/ui.py:146-149 | one relabelled segment per bullet line, always succeeding while `chr(97 + i)` stays below the surrogate range |
| Segmenter.Candidates | frontend/ui.py:142-151 | the fallback chain always produces some segment when it succeeds, and it succeeds whenever `97 + n` stays below the surrogate range |
| Segmenter.TakeNewStep | frontend/ui.py:155-160 | a segment with a new label is taken, and its label joins `seen` |
| Segmenter.Dedup | frontend/ui.py:153-161 | the de-duplication loop returns the specified prefix, or raises `IndexError` on a segment without a word |
| Segmenter.TakeNewIsPrefix | frontend/ui.py:153-161 | the kept segments are a prefix of the input |
| Segmenter.TakeNewDistinct | frontend/ui.py:155-160 | the kept labels are new and pairwise distinct |
| Segmenter.TakeNewStopsAtRepeat | frontend/ui.py:157-158 | when not everything is kept, the next segment's label was already seen |
| Segmenter.TakeNewOk | frontend/ui.py:156 | the loop raises only on a segment without a label |
| Segmenter.TakeNewKeepsFirst | frontend/ui.py:155-160 | the first segment of a non-empty input is always kept |
| Segmenter.TakeNewFacts | frontend/ui.py:153-161 | the de-duplicating loop keeps a prefix with pairwise distinct labels, keeps the first segment, and fails only on a segment without a label |
| Segmenter.Unique | frontend/ui.py:153-161 | on success the result is a non-empty prefix of non-empty input with pairwise distinct first words, and it succeeds whenever every segment has a first word |
| Segmenter.RelaxedLabelled | frontend/ui.py:144-145 | a line kept by the first fallback still has a word after clean-up |
| Segmenter.RelabelLabelled | frontend/ui.py:149 | relabelled bullets all have a word |
| Segmenter.SentinelLabelled | frontend/ui.py:151 | the no-segments sentinel has a word |
| Segmenter.RelaxedAllLabelled | frontend/ui.py:144-145 | every first-fallback segment has a word |
| Segmenter.PrimaryLabelled | frontend/ui.py:142 | every primary-parse segment has a word |
| Segmenter.RelaxedCaseLabelled | frontend/ui.py:143-145 | the chain's result has words when the first fallback answers |
| Segmenter.BulletCaseLabelled | frontend/ui.py:146-149 | likewise when the bullet fallback answers |
| Segmenter.NoneCaseLabelled | frontend/ui.py:150-151 | likewise when only the sentinel remains |
| Segmenter.CandidatesLabelled | frontend/ui.py:142-151 | every candidate segment has a word, so the cut never raises |
| Segmenter.SegOutcome | frontend/ui.py:138-162 | a reply from `alias-large` mentioning `error` gives `[]`; a non-string text raises `AttributeError` |
| Segmenter.SegViaLlm | frontend/ui.py:108-162 | `seg_via_llm` returns the outcome for the fetched reply, with the `<MODEL RETURNED NO SEGMENTS>` sentinel |
| Segmenter.SegReply | frontend/ui.py:138-162 | everything after the completion call gives the specified outcome |
| Segmenter.ParseTextNonEmpty | frontend/ui.py:140-162 | parsing a text always yields a segment, and succeeds whenever `97 + n` stays below the surrogate range |
| Segmenter.SegOutcomeNonEmpty | frontend/ui.py:138-162 | the result is empty exactly through the error-reply return |
| Segmenter.UniqueCut | frontend/ui.py:153-161 | on labelled segments the cut keeps the longest prefix with pairwise distinct labels, stopping at the first repeat |
| Segmenter.ParseTextCut | frontend/ui.py:140-162 | the reply's segments are the de-duplicated candidates, all labelled |
| Segmenter.TakeNewSingle | frontend/ui.py:155-160 | a single labelled segment is kept |
| Segmenter.CandidatesOfNoLines | frontend/ui.py:150-151 | no lines leave only the sentinel |
| Segmenter.EmptyTextGivesNone | frontend/ui.py:137-151 | an empty reply yields the single sentinel |
| Segmenter.TotalFailureGivesSentinel | frontend/ui.py:122-151 | when both completion calls fail, the result is the single sentinel |
| Segmenter.PrimaryParseWins | frontend/ui.py:142-143 | one line matching the label pattern makes the primary parse the answer |
| Retrieve.SanitizeFilename | retrieve.py:13-15 | the name keeps its length, and each character stays when it is alphanumeric, `.` or `_`, else becomes `_` (spaces included, through the final `replace`) |
| Retrieve.ReplaceChar | retrieve.py:15 | replacing one character by another maps each position and keeps the length |
| Retrieve.SanitizeSafe | retrieve.py:15 | a sanitized name holds only alphanumerics, `.` and `_` |
| Retrieve.SanitizeIdempotent | retrieve.py:15 | sanitizing twice equals sanitizing once |
| Retrieve.GrobidUrl | retrieve.py:70-71 | the URL contains `processFulltextDocument`; one that already had it is unchanged; otherwise it is the URL without trailing slashes plus `/api/processFulltextDocument` |
| Retrieve.GrobidUrlIdempotent | retrieve.py:182-184 | `main` and `test_grobid_api` both normalise; the second pass changes nothing |
| Retrieve.HealthUrl | retrieve.py:70-72 | the health URL contains `health`: the endpoint of a full URL is replaced by `health`, and a bare URL becomes the URL without trailing slashes plus `/api/health` |
| Retrieve.HealthOfBare | retrieve.py:71-72 | for a bare URL, replacing the endpoint appended in line 71 gives the URL without trailing slashes plus `/api/health` |
| Retrieve.ReplaceIntroduces | retrieve.py:72 | replacing a pattern that occurs leaves the replacement in the text |
| Retrieve.ContainsTail | retrieve.py:72 | an occurrence in the tail is an occurrence |
| Retrieve.TestGrobidApi | retrieve.py:64-83 | the normalised URL when the health check answers 200, otherwise `exit(1)` |
| Retrieve.MainGrobidUrl | retrieve.py:182-184 | with a healthy service the records are processed with the normalised URL |
| Retrieve.Basename | retrieve.py:115 | the base name has no `/`, ends the path, and is either the whole path or preceded by a `/` |
| Retrieve.CitingArticle | retrieve.py:115-116 | the citing-article name is never longer than the base name, and is the base name itself when `.tei-crossref.json` does not occur |
| Retrieve.CitingArticleOfStem | retrieve.py:116 | a base name `stem + ".tei-crossref.json"` gives the stem |
| Retrieve.BaseFilename | retrieve.py:127-131 | the sanitized DOI when there is one, else the sanitized bib item |
| Retrieve.RecordStep | retrieve.py:123-158 | one record's pass never removes a PDF from disk |
| Retrieve.RecordNotHttp | retrieve.py:126-158 | a record whose `retrievable` does not start with `http` gets `""` |
| Retrieve.RecordDlFilename | retrieve.py:126-156 | an `http` record gets its base name exactly when its PDF was on disk or downloaded and saved and Grobid returned TEI, else `""` |
| Retrieve.Annotate | retrieve.py:144-158 | the record keeps every field and gains `dl_filename` |
| Retrieve.AnnotatedCons | retrieve.py:123 | the records are handled one after another, with the disk state passed on |
| Retrieve.AnnotateRecords | retrieve.py:123-158 | the record loop returns the specified records, or `AttributeError` for a non-dict record |
| Retrieve.AnnotatedShape | retrieve.py:123-158 | every record comes back in order as a dict with its old fields and a `dl_filename` |
| Retrieve.Annotated | retrieve.py:123-158 | a successful record loop returns one record per input, and succeeds only when every record is a dict |
| Retrieve.RecordKeepsDisk | retrieve.py:134 | a PDF on disk stays there, so a later record naming the same file skips the download |
| Retrieve.RecordsValue | retrieve.py:103-112 | a list is its own records value, a dict gives `records` (default `[]`), and any other value is skipped |
| Retrieve.Records | retrieve.py:103-123 | a list gives its items; a dict gives the Python iteration of its `records` (its items for a list, one item per character or key for a string or dict, `TypeError` for anything else); any other value is skipped |
| Retrieve.WriteBack | retrieve.py:161-166 | a list is written back as a list; a dict keeps its other keys, and its `records` becomes the annotated list when it was a list and stays as it was otherwise |
| Retrieve.ProcessJsonFile | retrieve.py:85-171 | nothing is written when the JSON does not load or has an unexpected shape; a `records` value Python cannot iterate raises its `TypeError`; otherwise the records are annotated and written back in the shape they were read |
| Retrieve.NonListRecords | retrieve.py:105-124 | a `records` string or dict that is empty leaves nothing to annotate, and a non-empty one fails at `record.get` with `AttributeError` |
| ForwardRetrieve.SanitizeFilename | forward-retreive.py:17-19 | the name keeps its length, holds only word characters and `-`, keeps each such character, and turns every other character into `_` |
| ForwardRetrieve.SanitizeIdempotent | forward-retreive.py:17-19 | sanitizing twice equals sanitizing once |
| ForwardRetrieve.RemoveDoiPrefix | forward-retreive.py:132-134 | the result is stripped and never longer than the input |
| ForwardRetrieve.RemoveDoiPrefixBare | forward-retreive.py:132-134 | a DOI without either prefix only loses its outer whitespace |
| ForwardRetrieve.RemoveDoiPrefixUrl | forward-retreive.py:132-134 | a resolver URL `https://doi.org/` + DOI gives the bare DOI |
| ForwardRetrieve.ReplaceLeading | forward-retreive.py:134 | removing a pattern from a text that starts with it removes that occurrence first |
| ForwardRetrieve.PdfUrl | forward-retreive.py:161 | `record.get("pdf_url") or ""` is `""` for a missing or null URL |
| ForwardRetrieve.FetchTries | forward-retreive.py:161-167 | the primary download is tried exactly for an `http` URL, PyPaperBot exactly when that yielded nothing, and content comes from one of them |
| ForwardRetrieve.OpenalexBlankDoi | forward-retreive.py:155-158 | a record with a blank DOI gets `""` and no download is tried |
| ForwardRetrieve.OpenalexDlFilename | forward-retreive.py:159-180 | a record with a DOI gets the sanitized prefix-free DOI exactly when content was obtained, written and turned into TEI, else `""` |
| ForwardRetrieve.AnnotateRecord | forward-retreive.py:154-180 | the record keeps every other field and gains `forward_dl_filename` |
| ForwardRetrieve.ExtraRecord | forward-retreive.py:185-206 | a DOI that is not a string raises; a blank DOI gives `{doi: "", forward_dl_filename: ""}` |
| ForwardRetrieve.AnnotateOpenalex | forward-retreive.py:154-181 | the OpenAlex loop annotates the records in order, stopping at the first error |
| ForwardRetrieve.NewExtra | forward-retreive.py:183-207 | the `scholarly_extra` loop builds the new list in order, stopping at the first error |
| ForwardRetrieve.NewExtraShape | forward-retreive.py:183-208 | the new list has one dict per DOI, in order, and a blank DOI gives an all-blank dict |
| ForwardRetrieve.EntryPass | forward-retreive.py:145-209 | a processed entry is a dict, and only a dict entry is processed |
| ForwardRetrieve.EntryPassOpenalexKept | forward-retreive.py:154 | an `openalex` value that is not a list but iterates to nothing is left in place |
| ForwardRetrieve.ProcessEntry | forward-retreive.py:145-209 | the body of the graph loop gives the specified entry |
| ForwardRetrieve.EntryPassExtra | forward-retreive.py:183-208 | after the pass `scholarly_extra` is the new list, and the other keys are untouched |
| ForwardRetrieve.ProcessGraph | forward-retreive.py:145-209 | every entry is rewritten in order under its own key |
| ForwardRetrieve.GraphKeys | forward-retreive.py:145 | the rewritten graph has the same keys in the same order |
| ForwardRetrieve.ProcessCitationGraph | forward-retreive.py:136-209 | a failed health check or an unloadable graph exits with 1; a graph that is not a dict raises `AttributeError`; otherwise every entry is processed in order, iterating `openalex` and `scholarly_extra` as Python does, and the first error stops the run |
| ForwardDois.SplitTwoParts | forward-get-dois.py:25-27 | a split has at least two parts exactly when the separator occurs |
| ForwardDois.CleanDoi | forward-get-dois.py:29-30 | the cleaned DOI has no outer whitespace |
| ForwardDois.ParseLine | forward-get-dois.py:24-31 | `parse_line` gives `(None, None)` exactly when the stripped line has no comma; otherwise the author holds no comma, and neither part has outer whitespace |
| ForwardDois.StripKeepsAbsent | forward-get-dois.py:30 | stripping cannot create an occurrence |
| ForwardDois.ContainsInfix | forward-get-dois.py:25 | an occurrence in a slice is an occurrence in the whole |
| ForwardDois.ContainsWhere | forward-get-dois.py:25 | an occurrence has a position |
| ForwardDois.ParseTwoParts | forward-get-dois.py:24-31 | a line `author,doi` without a further comma parses back into its stripped author and cleaned DOI |
| ForwardDois.SplitTwo | forward-get-dois.py:25 | splitting at a character that occurs once gives the two sides |
| ForwardDois.SplitAt | forward-get-dois.py:25 | the first separator of `a + c + b` is the one after `a` |
| ForwardDois.CleanDoiResolver | forward-get-dois.py:30 | `doi.org/` followed by a DOI gives the bare DOI |
| ForwardDois.LocationPdf | forward-get-dois.py:121-127 | a falsy location gives no link, and any link found is truthy |
| ForwardDois.PdfLinkPrefersBest | forward-get-dois.py:120-127 | the best open-access link wins whenever there is one; otherwise the primary location's link, else `None` |
| ForwardDois.CitingEntry | forward-get-dois.py:116-118 | a citing record contributes its DOI lower-cased |
| ForwardDois.LowerIdempotent | forward-get-dois.py:118 | lower-casing twice equals lower-casing once |
| ForwardDois.OpenalexDois | forward-get-dois.py:115-129 | there is at most one `{doi, pdf_url}` entry per record, each DOI is in the set, and the set holds only the entries' DOIs |
| ForwardDois.CollectOpenalex | forward-get-dois.py:114-129 | the record loop returns the specified entries and DOI set |
| ForwardDois.OpenalexJoinNil | forward-get-dois.py:114-129 | joining onto nothing changes nothing |
| ForwardDois.OpenalexCons | forward-get-dois.py:115-129 | one record adds its entry and DOI in front of what the later records add, or raises |
| ForwardDois.OpenalexJoinStep | forward-get-dois.py:128-129 | moving one entry into the collected part keeps the pass's total |
| ForwardDois.ScholarKey | forward-get-dois.py:74-79 | the key is lower-case and is the truthy `bib.doi` if there is one, else `pub_url`, else `no_doi` |
| ForwardDois.LowerKey | forward-get-dois.py:79 | `.lower()` applies exactly to a string value, and its result is already lower-case |
| ForwardDois.ScholarKeys | forward-get-dois.py:68-83 | all collected Scholar keys are lower-case |
| ForwardDois.Additional | forward-get-dois.py:152 | the additional DOIs are exactly the Scholar keys absent from OpenAlex |
| ForwardDois.Filter | forward-get-dois.py:158-164 | a DOI is kept exactly when it is not `no_doi` and its BibTeX was found |
| ForwardDois.ExtraDois | forward-get-dois.py:156-165 | the BibTeX loop returns exactly the filtered DOIs |
| ForwardDois.ExtraIsDelta | forward-get-dois.py:147-164 | the extra DOIs are the Scholar keys missing from OpenAlex, without `no_doi`, whose BibTeX was found |
| ForwardDois.EnumeratedDelta | forward-get-dois.py:152-164 | when the iteration order enumerates the delta set, the extra DOIs are exactly the Scholar keys missing from OpenAlex, other than `no_doi`, whose BibTeX was found |
| ForwardDois.Entry | forward-get-dois.py:104-164 | an entry is a dict whose `openalex` is the list of citing records and whose `scholarly_extra` is the list of extra DOIs, in order |
| ForwardDois.DoiEntry | forward-get-dois.py:98-164 | processing one DOI fails exactly when the OpenAlex part fails, and an exception of the work query is the run's error; the entry has both keys, `openalex` is empty (and the entry exists) when OpenAlex answers with no work, and `scholarly_extra` is empty when Scholar finds nothing |
| ForwardDois.OpenalexPart | forward-get-dois.py:34-136 | an exception of the work query or of the citing-records query is the result; a work not found or empty gives no entries and no DOIs; a work that is not a dict raises `AttributeError`; otherwise the result is the pass over the citing records of its `id` |
| ForwardDois.ScholarPart | forward-get-dois.py:139-164 | a publication Scholar does not find adds no extra DOI; otherwise the extra DOIs are exactly the Scholar keys that OpenAlex did not report, other than `no_doi`, that have BibTeX |
| ForwardDois.LineStep | forward-get-dois.py:184-189 | a line that does not parse leaves the graph unchanged |
| ForwardDois.StepKeys | forward-get-dois.py:98-104 | one line keeps keys unique, keeps every key, and adds at most the key it names |
| ForwardDois.RunKeys | forward-get-dois.py:184-189 | the run keeps keys unique and adds only the keys the lines name |
| ForwardDois.QueryOpenalex | forward-get-dois.py:110-136 | the OpenAlex query and its loop give the specified part |
| ForwardDois.CitationGraph.constructor | forward-get-dois.py:16 | the graph starts empty |
| ForwardDois.CitationGraph.ProcessDoi | forward-get-dois.py:98-168 | a blank DOI changes nothing; otherwise the key `"{author}: {doi}"` is (re)set to its entry, or the exception ends the run |
| ForwardDois.NamedLineOutcome | forward-get-dois.py:185-187 | for a line with an author and a DOI, what `process_doi` does is the line's step |
| ForwardDois.CitationGraph.ProcessLine | forward-get-dois.py:185-189 | a line with an author and a DOI is processed, failing exactly when its entry fails; any other line leaves the graph unchanged |
| ForwardDois.CitationGraph.Run | forward-get-dois.py:184-189 | the graph after all lines is the specified one, or the error that ends the run |
| ForwardDois.SetTwice | forward-get-dois.py:104 | setting a key twice equals setting it to the second value |
| ForwardDois.PutTwice | forward-get-dois.py:104 | likewise for the ordered-dict update |
| MatchBib.CitationId | match-cit-to-bib.py:35-39 | a stripped target without a leading `#` is its own id, and no id is longer than its target |
| MatchBib.CitationIdHash | match-cit-to-bib.py:36-37 | `#b3` and `b3` name the same entry |
| MatchBib.AddRefsHits | match-cit-to-bib.py:34-41 | one sentence appends itself under an id once per bibr ref citing it and keeps every other key |
| MatchBib.CitationsAreOccurrences | match-cit-to-bib.py:28-41 | an id is filed exactly when some bibr ref cites it, under the citing sentences once per citing ref in document order |
| MatchBib.Citations | match-cit-to-bib.py:28-41 | every key of the citation map is a non-empty id filed with at least one sentence |
| MatchBib.AddRefsFiled | match-cit-to-bib.py:34-41 | filing one sentence's refs keeps every key non-empty and every list non-empty |
| MatchBib.FileRefs | match-cit-to-bib.py:34-41 | the loop over one sentence's refs files the sentence exactly as `AddRefs` specifies: appended under each non-empty bibr target id, once per ref, other keys unchanged |
| MatchBib.HitsFromRefs | match-cit-to-bib.py:30-41 | a sentence is filed under an id exactly when one of its bibr refs cites that id |
| MatchBib.CollectCitations | match-cit-to-bib.py:28-41 | the sentence loop builds the specified citation map |
| MatchBib.BibliographyEntries | match-cit-to-bib.py:44-52 | an id is in the bibliography exactly when a biblStruct with that id has a non-empty raw reference, and it holds the note of the last one |
| MatchBib.Bibliography | match-cit-to-bib.py:44-52 | every id of the bibliography is non-empty and holds a non-empty note |
| MatchBib.CollectBibliography | match-cit-to-bib.py:44-52 | the biblStruct loop builds the specified bibliography |
| MatchBib.ParseTeiFile | match-cit-to-bib.py:12-54 | an unreadable file gives `None`; otherwise the citation map and the bibliography |
| MatchBib.UnmatchedCiting | match-cit-to-bib.py:72 | the cited ids missing from the bibliography, with their sentences |
| MatchBib.UnmatchedBibl | match-cit-to-bib.py:75 | the bibliography ids never cited, with their notes |
| MatchBib.ClearIff | match-cit-to-bib.py:77 | `clear` holds exactly when the cited ids and the bibliography ids are the same set |
| MatchBib.ProcessTeiFile | match-cit-to-bib.py:56-98 | a failed parse gives `None`; otherwise the report with the base name, both unmatched maps and the clear flag |
| MatchBib.LastDot | match-cit-to-bib.py:89 | the position of the last `.`, and `None` exactly when there is none |
| MatchBib.SplitextRoot | match-cit-to-bib.py:89 | the `splitext` root is a prefix of the name, and a name without a dot is its own root |
| MatchBib.SplitextExtension | match-cit-to-bib.py:89 | a name with a proper extension loses exactly that extension |
| MatchBib.JsonName | match-cit-to-bib.py:89 | the JSON name starts with the `splitext` root |
| MatchBib.CsvBase | match-cit-to-bib.py:140-144 | the CSV name is a prefix of the file name |
| MatchBib.CsvBaseTei | match-cit-to-bib.py:89-144 | for `stem.tei.xml` the CSV name is `stem` while the JSON root is `stem.tei` |
| MatchBib.Summary | match-cit-to-bib.py:120-145 | no files gives no CSV; otherwise one row per parsed file, in glob order |
| MatchBib.RowsOf | match-cit-to-bib.py:138-145 | one CSV row per report |
| MatchBib.Rows | match-cit-to-bib.py:126-145 | at most one row per file |
| Consolidate.Field | consolidate.py:39-40 | a non-empty field value is one the dict holds under that key |
| Consolidate.Threshold | consolidate.py:16-47 | every field threshold lies in (0, 1] |
| Consolidate.Thresholds | consolidate.py:16-22 | year needs 1.0, author and title 0.85, publisher 0.9, any other field the default |
| Consolidate.Jaccard | consolidate.py:30-32 | the Jaccard index lies in [0, 1] and is 1 for equal sets |
| Consolidate.CompareAuthors | consolidate.py:24-34 | the author score is in [0, 1], and is 1.0 when either side names nobody |
| Consolidate.Names | consolidate.py:25-26 | every name in an author set is non-empty and has no outer whitespace |
| Consolidate.CompareAuthorsSameNames | consolidate.py:25-33 | with equal name sets the score is 0.7·token score + 0.3, and reaches 1 exactly when the token score is 100 |
| Consolidate.CompareAuthorsSymmetric | consolidate.py:24-34 | the author score does not depend on the order of its arguments, given a symmetric token-set scorer |
| Consolidate.Similarity | consolidate.py:43-46 | every field similarity lies in [0, 1] |
| Consolidate.ConflictsExactly | consolidate.py:37-50 | a conflict is reported for a field exactly when the field is compared and conflicts |
| Consolidate.FieldConflictIff | consolidate.py:39-49 | a field conflicts exactly when both stripped values are non-empty and their similarity is below the field's threshold, recording both values and the similarity |
| Consolidate.CompareBibEntries | consolidate.py:36-50 | the loop over author, title, year and publisher returns the specified conflicts |
| Consolidate.ExactField | consolidate.py:20-48 | a year conflicts exactly when the case-folded values are not a perfect match |
| Consolidate.EscapeEach | consolidate.py:56 | escaping never shortens a value |
| Consolidate.Escape | consolidate.py:56 | escaping never shortens a value, and a value without braces is unchanged |
| Consolidate.EscapeIsEach | consolidate.py:56 | the two chained `replace` calls escape each brace on its own |
| Consolidate.EscapedBraces | consolidate.py:56 | every brace of the escaped value is preceded by a backslash |
| Consolidate.UnescapeEscape | consolidate.py:56 | the escaping is undone by dropping the backslash before each brace, so no value is lost |
| Consolidate.BibLines | consolidate.py:54-57 | at most one BibTeX line per field |
| Consolidate.TruthyFields | consolidate.py:55 | only non-empty fields of the dict take part |
| Consolidate.BibLinesTruthy | consolidate.py:54-57 | one line `  key = {value}` per non-empty field, in dict order |
| Consolidate.DictToBibtex | consolidate.py:52-59 | the entry is `@type{item,` then the joined lines then `}` |
| Consolidate.FlattenAuthors | consolidate.py:223-225 | analytic authors are preferred over monogr authors, joined with `, `, and no `author` key is set without either |
| Consolidate.FlattenPieces | consolidate.py:219-233 | the flat record is the author part, the title, the year when dated and the publisher when given, in that order |
| Consolidate.FlattenTitle | consolidate.py:226-227 | `title` is always set: analytic, else monogr |
| Consolidate.FlattenYear | consolidate.py:229-230 | the year read back is the imprint date |
| Consolidate.FlattenPublisher | consolidate.py:231-232 | the publisher read back is the imprint's |
| Consolidate.FieldSkip | consolidate.py:39 | a lookup skips a prefix that lacks the key |
| Consolidate.EntryParts | consolidate.py:264-272 | the parts are non-empty, and there are none exactly when author, year, title and publisher are all missing |
| Consolidate.JoinEmpty | consolidate.py:273 | joining non-empty parts is empty exactly when there are none, and starts with the first |
| Consolidate.FormatBibEntry | consolidate.py:263-273 | the formatted entry is empty exactly when the four fields are missing, and starts with the author when there is one |
| Consolidate.Flatten | consolidate.py:219-233 | a flattened TEI reference has between one and four fields, each among author, title, year and publisher, with no key twice |
| NliChecking.NormalizeText | nli-checking-extended.py:28-31 | the normalised text has no `…`, no outer whitespace and single spaces only |
| NliChecking.NormalizeFixed | nli-checking-extended.py:28-31 | text already normal (no dots, no `…`, single-spaced, stripped) is left unchanged, so normalising is idempotent on such text |
| NliChecking.ReplaceRemoves | nli-checking-extended.py:30 | replacing a character by a text without it removes every occurrence |
| NliChecking.JoinDots | nli-checking-extended.py:29 | joining spaced dots never lengthens the text, and text without dots is unchanged |
| Strs.CollapseIdentity | nli-checking-extended.py:31 | single-spaced text is left as is |
| NliChecking.KeepIff | nli-checking-extended.py:50-54 | a comprehension keeps exactly the elements that pass its test |
| NliChecking.FindBreak | nli-checking-extended.py:56 | the break found is the first position after the start where `.`, `!` or `?` is followed by whitespace, and `None` means there is none |
| NliChecking.HeadPiece | nli-checking-extended.py:56 | the first piece ends with its punctuation and holds no further break |
| NliChecking.SplitSentencesNoBreak | nli-checking-extended.py:56 | the split gives at least one piece and no piece holds a break |
| NliChecking.SplitSentencesStops | nli-checking-extended.py:56 | every piece but the last ends with `.`, `!` or `?` |
| NliChecking.SplitSentencesWhole | nli-checking-extended.py:56 | text without a break is one piece |
| NliChecking.SplitTail | nli-checking-extended.py:56 | the split is the first piece followed by the split of the rest after the whitespace |
| NliChecking.SplitSentences | nli-checking-extended.py:56 | the split yields at least one piece, and no piece is longer than the text |
| NliChecking.Sentences | nli-checking-extended.py:50-56 | every sentence handed to the windows has at least three words |
| NliChecking.SentencesWorded | nli-checking-extended.py:50-56 | every sentence has three words: they are the qualifying tagged sentences when there is one, and otherwise the qualifying regex pieces |
| NliChecking.GroupIff | nli-checking-extended.py:73-79 | a score is in a label group exactly when a prediction with that label substring has it |
| NliChecking.Max | nli-checking-extended.py:75-81 | the maximum is one of the scores and no score exceeds it |
| NliChecking.TupleBest | nli-checking-extended.py:74-83 | a label group yields at most one tuple, with the window text, the kind and the group's best score, which is positive |
| NliChecking.WindowCandsShape | nli-checking-extended.py:61-83 | a window yields at most two candidates, the entailing one first, each from a window of three-word sentences that the pipeline accepted |
| NliChecking.WindowRunFrom | nli-checking-extended.py:60-83 | every candidate of a window size comes from one of its windows |
| NliChecking.CandidateFromWindow | nli-checking-extended.py:59-83 | every candidate comes from a window of one of the requested sizes |
| NliChecking.WindowPass | nli-checking-extended.py:60-83 | the inner loop over window starts gives the specified candidates |
| NliChecking.AllResults | nli-checking-extended.py:45-84 | the sentence extraction, the window loops and the sort give the specified ranked list |
| NliChecking.AllResultsRanked | nli-checking-extended.py:84 | the results are in descending score order, are a permutation of the window candidates and keep window order among equal scores |
| NliChecking.Top5 | nli-checking-extended.py:88 | the first `min(5, n)` elements |
| NliChecking.Top5Results | nli-checking-extended.py:86-88 | the five best of the ranked list |
| NliChecking.WindowSizesIff | nli-checking-extended.py:145-146 | the sizes are those of the options when all are known; otherwise a KeyError names the first unknown option |
| NliChecking.OfKindIff | nli-checking-extended.py:150-152 | a kind filter keeps exactly the candidates of that kind |
| NliChecking.FilteredIff | nli-checking-extended.py:148-152 | exactly the candidates of the ticked kinds are kept |
| NliChecking.TopCandidatesBest | nli-checking-extended.py:148-154 | at most five candidates of the wanted kinds, best first, none beaten by a candidate left out, and the sort loses nothing |
| NliChecking.CountPrefix | nli-checking-extended.py:159-167 | the per-kind counters only grow, and strictly at each candidate of their kind |
| NliChecking.LabelNumbers | nli-checking-extended.py:159-167 | of two candidates of a kind, the earlier gets the smaller number |
| NliChecking.FirstOfKind | nli-checking-extended.py:159-167 | the first candidate of a kind is numbered 1 |
| NliChecking.NoneOfKind | nli-checking-extended.py:159-167 | a kind absent from the list is counted 0 times |
| NliChecking.CountStep | nli-checking-extended.py:161-167 | each candidate moves only its own kind's counter |
| NliChecking.ChoiceAtPrefix | nli-checking-extended.py:161-167 | a label depends only on the candidates up to it |
| NliChecking.LabelsStep | nli-checking-extended.py:161-168 | the labels grow by one label per candidate |
| NliChecking.BuildLabels | nli-checking-extended.py:156-174 | the loop builds the specified labels and one unselected detail per candidate |
| NliChecking.CitationChecker | nli-checking-extended.py:123-197 | the check returns the specified outcome |
| NliChecking.CheckOutcomes | nli-checking-extended.py:133-197 | no body gives the error reply, an unknown window option a KeyError, and otherwise the body markup with at most five labels, each with an unselected detail of a wanted kind |
| NliChecking.FirstFromIff | nli-checking-extended.py:247-253 | the 1-based position found is that of the first match, and there is none exactly when nothing matches |
| NliChecking.FindRank | nli-checking-extended.py:236-256 | the inner loop returns the rank of the first result whose stripped text the label names |
| NliChecking.FindRanks | nli-checking-extended.py:231-258 | the outer loop gives one rank per selected label, in selection order, the i-th being the rank of the first result whose stripped text is the i-th label's text (`RankOf`) |
| NliChecking.FindRankConf | nli-checking-extended.py:215-259 | no selection gives the warning; otherwise one rank per selected label against the results with windows of one, two and three sentences; the returned cell is those ranks rendered and joined by `<br>` |
| NliChecking.RankHtml | nli-checking-extended.py:247-256 | each rank renders as one coloured `<span>`, green exactly for a matched entailing candidate and red otherwise |
| NliChecking.ReportHtml | nli-checking-extended.py:219-259 | no selection gives the red warning span; otherwise the cell starts with the first rank's span and ends with the last one's, and a single rank is its span alone |
| NliChecking.LineHeadOf | nli-checking-extended.py:236-238 | the first line of `x\ny` is `x` |
| NliChecking.IndexOfColon | nli-checking-extended.py:240 | the first colon of `a:b` is after `a` when `a` has none |
| NliChecking.LabelPrefixNoColon | nli-checking-extended.py:163-166 | a label's `Kind n` prefix holds no colon and no line break |
| NliChecking.TextOnlyLabel | nli-checking-extended.py:236-241 | reading a label back gives the stripped candidate text |
| NliChecking.TextOnlyFirstLine | nli-checking-extended.py:236-241 | the text after the first colon of the first line, stripped |
| NliChecking.TextOnly | nli-checking-extended.py:236-243 | the text read from a label has no outer whitespace and no line break |
| NliChecking.RankOfLabel | nli-checking-extended.py:236-256 | a label built from result `i` is found again, at rank `i + 1` or earlier |
| NliChecking.RankOfMatch | nli-checking-extended.py:247-253 | a label matching result `i` is ranked at or before it, at a matching result |
| NliChecking.FirstMatchAt | nli-checking-extended.py:247-253 | a matching result is found, at its rank or earlier |
| NliChecking.FirstFromSome | nli-checking-extended.py:247-253 | the search from any start finds a match no later than a known one |
| NliChecking.Decide | nli-checking-extended.py:270-276 | a detail is selected exactly when some selected label contains its text; unselected ones become Neutral; text and confidence are kept |
| NliChecking.DecideIdempotent | nli-checking-extended.py:270-276 | deciding twice equals deciding once |
| NliChecking.LabelContainsText | nli-checking-extended.py:271 | every label contains its candidate's text |
| NliChecking.TickedIsSelected | nli-checking-extended.py:270-276 | ticking a candidate's label selects that candidate and keeps its kind |
| NliChecking.LogEntailmentDecisions | nli-checking-extended.py:270-276 | each detail is replaced in place by its decision |
| NliBasic.EntailScoreBest | nli-checking.py:69-70 | the window score is the best score of the entailment-labelled predictions, and 0.0 when there is none |
| NliBasic.ScoredPass | nli-checking.py:57-72 | the inner loop over window starts gives the specified tuples |
| NliBasic.BasicResults | nli-checking.py:42-73 | sentence extraction, the loops over lengths 1, 2 and 3 and the sort give the specified ranked tuples |
| NliBasic.BasicTop5 | nli-checking.py:75-77 | the five best ranked tuples |
| NliBasic.EntailConcat | nli-checking.py:69-72 | keeping the entailing candidates distributes over concatenation |
| NliBasic.EntailNone | nli-checking.py:69 | contradicting candidates contribute nothing |
| NliBasic.EntailCons | nli-checking.py:69-72 | keeping the entailing candidates of `[c] + s` |
| NliBasic.EntailTuple | nli-checking.py:69-72 | the entailing group of a window gives the same tuple in both checkers |
| NliBasic.EntailContradicting | nli-checking.py:69 | the contradiction group yields no tuple here |
| NliBasic.WindowAgrees | nli-checking.py:58-72 | a window yields exactly the entailing candidate that the moving-window checker finds for it |
| NliBasic.RunAgrees | nli-checking.py:57-72 | the windows of one length agree likewise |
| NliBasic.ScoredOverAgrees | nli-checking.py:56-72 | before sorting, the tuples are the moving-window checker's entailing candidates, in order |
| NliBasic.EntailInsert | nli-checking.py:73 | keeping the entailing candidates commutes with inserting one candidate into a ranked list |
| NliBasic.EntailInsertAfter | nli-checking.py:73 | the case where the candidate goes after the head |
| NliBasic.EntailInsertFront | nli-checking.py:73 | the case where the candidate goes in front |
| NliBasic.EntailBound | nli-checking.py:73 | an upper bound on the scores survives the filter |
| NliBasic.SortEntail | nli-checking.py:73 | sorting commutes with keeping the entailing candidates |
| NliBasic.BasicAgrees | nli-checking.py:42-73 | the ranked tuples equal the moving-window checker's ranked entailing candidates for window lengths 1, 2 and 3 (nli-checking-extended.py:45-84) |
| NliBasic.BasicRanked | nli-checking.py:73 | the ranked tuples are in descending score order and are a permutation of the window tuples |
| NliBasic.RadioList | nli-checking.py:95-98 | one label `Candidate i:` per candidate, numbered from 1 |
| NliBasic.CandidateHeadOneLine | nli-checking.py:97 | the label head is one line |
| NliBasic.RadioLabelParts | nli-checking.py:97 | label `i` starts with the line `Candidate i:` and holds the candidate's text |
| NliBasic.BasicChecker | nli-checking.py:79-99 | the check returns the specified outcome |
| NliBasic.BasicOutcomes | nli-checking.py:85-99 | no body gives the error reply, an unknown window option a KeyError, and otherwise the body markup with `min(5, n)` numbered choices, none exactly when no window scored |
| NliBasic.WindowOptionsIgnored | nli-checking.py:90-92 | any two valid window selections give the same result |
| Ranking.SortDescSorted | nli-checking-extended.py:84 | `sorted(..., reverse=True)` by score gives a descending permutation of its input |
| Ranking.SortDescStable | nli-checking-extended.py:84 | candidates with equal scores keep their relative order |

## Where the code and its documentation differ

The model follows the code in each of these cases.

- `Retriever.query` on an index that was never built raises `ValueError`; it does not return an empty list (backend/retriever.py:46-51).
- `raise_for_status` raises only for status codes 400 to 599, so a 3xx reply counts as a success (backend/bl_client.py:62-69).
- `prebuild_indexes` passes `max_chunks=` to `Retriever`, which has no such parameter. Every group therefore raises `TypeError`, unless a missing column or file raised first (backend/main.py:59-78). `Backend.PrebuildIndexesNeverRegisters` states this.
- `Path.with_suffix` treats the text after the last `.` of a key as a suffix. A key such as `J. Smith-2020` is stored as `J.faiss`, and two such keys can share one file (backend/retriever.py:20, 44). `Retrieval.IndexFilesCollide` states this.
- `query_many([])` fails inside the search, because the empty query has no dimension, so the model returns an error (backend/retriever.py:74-79).
- `build` with nothing to embed fails when it reads the embedding dimension (backend/retriever.py:37-39); the model returns an error.

## Left out

- Models and services: the embedding model, FAISS search and normalisation, the local NLI pipelines, the Blablador completions, Crossref, OpenAlex, Unpaywall, Google Scholar, PyPaperBot, PDF downloads and Grobid. Each is a function-typed parameter or a boolean input, and every contract holds for every such oracle.
- `predict_nli` and the model loading in `get_nli_pipeline` (backend/nli.py:12-19), `load_nli_model_results` in both NLI scripts, and the tokenizer truncation to `max_tokens`: these are model calls, so they are part of the pipeline oracle.
- Floating-point arithmetic: scores are `real`. `{sc:.4f}` and the other score formatting are a parameter `conf` that renders a score.
- XML parsing: lxml, ElementTree and BeautifulSoup traversal are replaced by abstract trees (divs, paragraphs and sentences; refs and biblStructs). `extract_tei_bibl_struct` (consolidate.py:135-217) is left out; `flatten_tei_bibl` reads its result as a record of the fields it uses.
- File I/O: fixed reads give their content or `None`. All writes are left out, including `output.json`, the JSON and CSV writers, the FAISS index files (modelled as a class of stored indexes), `write_log_if_enabled`, directory creation and `read_csv`. The same holds for logging, `uuid` and `datetime` values.
- The `/segment` endpoint (backend/main.py:187-225): it reads request fields that `SegmentRequest` (backend/main.py:23-27) does not declare, so it has no working behaviour to model.
- The user interfaces: the Streamlit app of frontend/ui.py apart from `seg_via_llm` and its prompt, `get_responsive_models`, and the Gradio blocks, `add_case` and `run_comparison` of the NLI scripts. They only wire inputs to the modelled functions and render outputs.
- `check_doi_retrievability`, `check_openalex`, `find_crossref_doi`, `extract_crossref_bib` and `process_tei_file` in consolidate.py: network lookups and file output around the modelled comparison and formatting.
- `sanitize_filename` in forward-get-dois.py (lines 19-20) is the same substitution as forward-retreive.py:17-19, so it is modelled once, as `ForwardRetrieve.SanitizeFilename`. In forward-get-dois.py its result only names output files.
- `application.py`, `grobid-folder.py`, `smoke.py`, the test files, `match-citing-to-cited.py` (a docstring only) and `backend/schemas.py` (declarations only) have no logic to model. Sleeps and random delays in the scripts are left out, as is concurrency: the code has none.
- The `embeddings()` wrapper (backend/bl_client.py:104-106) is covered by `BlClient.EmbedDocuments`, which it calls on the chunk texts.
- Backend.SegmentId: assumes at most `0xD800 - 97` claims per row, so that `chr(97 + i)` stays below the surrogate range. Beyond that Python would produce surrogate characters or raise, and the model does not cover that case.
- Window lengths are `nat`. A negative window length, which the Python code would accept through `range`, cannot be expressed.
- Scrub.Digits: ASCII only. `\d` also matches other Unicode decimal digits such as `٣`; the model treats them as ordinary characters.
- Scrub.RemoveNumMarkers: ASCII only. A marker such as `[٣]`, which `\[\d+\]` removes, is kept.
- Scrub.NumMarkersIdentity: ASCII only, for the same reason as `Scrub.RemoveNumMarkers`.
- Scrub.CiteLen: ASCII only. A `[digit…]` bracket opening with a non-ASCII decimal digit is not matched.
- Scrub.RemoveCiteBrackets: ASCII only, for the same reason as `Scrub.CiteLen`.
- Scrub.CiteIdentity: ASCII only, for the same reason as `Scrub.CiteLen`.
- Segmenter.LeadingDigits: ASCII only. `\d` in `SEG_RE` also accepts digits such as `１`, so a line like `１a.` is a label in the Python code and not in the model.
- Segmenter.SegLabel: ASCII only, for the digits as above and for the letter: with `re.I`, `[a-z]` also matches `K` (U+212A) and `ſ` (U+017F).
- Segmenter.MatchIsSegLabel: ASCII only, for the same reasons as `Segmenter.SegLabel`.
- Segmenter.SegLabelIsRegex: ASCII only, for the same reasons as `Segmenter.SegLabel`.
- Segmenter.SegOutcome: ASCII only, through `Segmenter.SegLabel`.
- Segmenter.Relaxed: `ln.lower()` is modelled on ASCII letters only; other upper-case letters are left as they are.
- Segmenter.RelaxedLabelled: ASCII only, through `Segmenter.Relaxed`.
- Segmenter.Relabel: fails with `ValueError` once a letter `chr(97 + i)` would fall in the surrogate range (from 0xD800), because Dafny's `char` cannot hold a surrogate. Python's `chr` accepts surrogates and fails only past 0x10FFFF, so the model does not cover more than 55,199 bullet lines.
- Retrieve.SanitizeFilename: ASCII only. `str.isalnum` keeps letters such as `ü`, so `"Müller 2020"` gives `"Müller_2020"` in the Python code and `"M_ller_2020"` in the model.
- Retrieve.SanitizeSafe: ASCII only, for the same reason as `Retrieve.SanitizeFilename`.
- ForwardRetrieve.SanitizeFilename: ASCII only. `\w` also matches non-ASCII letters and digits, which the model replaces with `_`.
- Consolidate.Names: `.lower()` is modelled on ASCII letters only, so `"ÉMILE"` keeps its `É`.
- Consolidate.CompareAuthors: ASCII lower-casing only, through `Consolidate.Names`.
- Consolidate.Similarity: ASCII lower-casing only, for the same reason as `Consolidate.Names`.
- Consolidate.ExactField: ASCII lower-casing only, for the same reason as `Consolidate.Names`.
- ForwardDois.CitingEntry: ASCII lower-casing only. A DOI with non-ASCII capitals is not folded as `.lower()` would fold it.
- ForwardDois.LowerIdempotent: ASCII lower-casing only; it states idempotence of the ASCII folding.
- ForwardDois.LowerKey: ASCII lower-casing only, for the same reason as `ForwardDois.CitingEntry`.
- ForwardDois.ScholarKey: ASCII lower-casing only, through `ForwardDois.LowerKey`.
- ForwardDois.ScholarKeys: ASCII lower-casing only, through `ForwardDois.LowerKey`.
- Nli.LabelToAssessment: ASCII lower-casing only. Model label names are ASCII, so this only matters for a non-ASCII label.
- NliChecking.GroupIff: ASCII lower-casing only, through the label test `NliChecking.Tagged`.
- Values.ParseInt: accepts only an optional sign and ASCII digits. Python's `int()` also accepts other Unicode decimal digits and `_` between digits.
- Values.FloatStr: a non-integral float prints as its integral part followed by `.~`, and an integral float always prints in positional form. Python prints the shortest round-tripping digits (`2020.5`) and switches to exponent form from `1e16` on (`1e+16`).
- Values.PyStr: a list or dict prints as the placeholder `[...]` or `{...}`, not as its Python `repr`.
- Retrieval.QueryShape: for an empty query list the contract says only that the search fails. In backend/retriever.py NumPy reshapes the empty array to shape `(1, 0)` and the search's dimension check raises `AssertionError`, which is also what the model returns.
- Backend.ModelName: a `nli_model` or `llm_model` setting that is not a string is read as `None`, so the model falls back to `"alias-large"` or the remote path. In backend/main.py:91-92 and 158 a truthy non-string value is passed on to the completion call, and a list or dict raises `TypeError` at `nli_model in _LOCAL_NLI_PATHS` (backend/nli.py:73). Model names are `string` throughout the model.
- Parser.CitingDoc: the document's text is `str()` of the `tei_sentence` cell, so a missing cell becomes `"nan"` and a numeric cell its decimal form. backend/parser.py:38 keeps the raw cell, which is then the float NaN or a number rather than a string. The model's documents carry `string` texts, so what later code does with a non-string text (a `TypeError`, or a different embedding input) is not modelled.
- Parser.CitingDocs: the texts are `str()` of their cells, for the same reason as `Parser.CitingDoc`.
- BlClient.CitingDocs: the text of each citing document is `str()` of its `citing_sentence` cell. backend/bl_client.py:33-34 keeps the raw cell, a float NaN for a missing value or a number for a numeric cell, and the model does not cover what later code does with such a text.
