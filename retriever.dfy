/** The chunk index (backend/retriever.py).  A `Retriever` is unbuilt until
    `Build` or `Load` gives it an index; `Query` and `QueryMany` map the
    hits of a search back to the chunks the index was built from.  The
    embedding service and the FAISS search are oracles: the search returns
    `(score, row)` pairs in its own order, and only their comparison with
    `min_score` matters here. */
module Retrieval {
  import opened Common
  import opened Strs
  import opened Values
  import opened Corpus
  import opened BlClient
  import Parser

  /** A flat inner-product index: its dimension and one stored vector per
      row. */
  datatype Index = Index(dim: nat, vectors: seq<Vector>)

  /** One search hit: the similarity and the row of the index (FAISS
      reports row -1 when fewer than k vectors are stored). */
  datatype Hit = Hit(score: real, row: int)

  /** A query result `{"score", "text", "meta"}`. */
  datatype Match = Match(score: real, text: string, meta: Fields)

  /** The embedding call used for queries (`utils.embed`). */
  type Embed = seq<string> -> Result<seq<Vector>>

  /** `index.search` for one query vector and `k`. */
  type Search = (Index, Vector, int) -> Result<seq<Hit>>

  const NotReady := "Index and chunks must be loaded or built before querying."

  // ------------------------------------------------------------------
  // paths
  // ------------------------------------------------------------------

  /** `folder / name`. */
  function JoinPath(folder: string, name: string): string {
    folder + "/" + name
  }

  /** The last index of `c` in `s`. */
  function RFind(s: string, c: char): (r: Option<nat>)
    ensures r.Some? <==> c in s
    ensures r.Some? ==> r.value < |s| && s[r.value] == c && c !in s[r.value + 1..]
  {
    if s == [] then None
    else if s[|s| - 1] == c then
      assert s[|s|..] == [];
      Some(|s| - 1)
    else
      var init := s[..|s| - 1];
      var r := RFind(init, c);
      assert s == init + [s[|s| - 1]];
      assert c in s <==> c in init;
      if r.Some? then
        assert s[r.value + 1..] == init[r.value + 1..] + [s[|s| - 1]];
        r
      else r
  }

  /** The final path component (`Path.name`). */
  function BaseName(p: string): (r: string)
    ensures '/' !in r
    ensures EndsWith(p, r)
  {
    match RFind(p, '/')
    case None => p
    case Some(i) => p[i + 1..]
  }

  /** `Path.with_suffix(suf)`: the suffix of the name (from its last `.`,
      when that is neither the first nor the last character) is replaced
      by `suf`, otherwise `suf` is appended; an empty name raises
      `ValueError`. */
  function WithSuffix(p: string, suf: string): (r: Result<string>)
    ensures r.Err? <==> BaseName(p) == []
    ensures '.' !in BaseName(p) && BaseName(p) != [] ==> r == Ok(p + suf)
  {
    var name := BaseName(p);
    var dir := p[..|p| - |name|];
    if name == [] then Err(ValueError("has an empty name"))
    else
      match RFind(name, '.')
      case Some(i) =>
        if 0 < i < |name| - 1 then Ok(dir + name[..i] + suf) else Ok(p + suf)
      case None =>
        assert dir + name == p;
        Ok(p + suf)
  }

  /** The last occurrence is the one with no later copy. */
  lemma RFindAt(s: string, c: char, i: nat)
    requires i < |s| && s[i] == c && c !in s[i + 1..]
    ensures RFind(s, c) == Some(i)
  {
  }

  /** The name of `folder / key` is the key itself. */
  lemma BaseNameJoin(folder: string, key: string)
    requires '/' !in key
    ensures BaseName(JoinPath(folder, key)) == key
  {
    var p := JoinPath(folder, key);
    RFindAt(p, '/', |folder|);
    assert p[|folder| + 1..] == key;
  }

  /** The index file of a key whose last `.` is inside it: the key is cut
      at that `.`. */
  lemma IndexFileOfDottedKey(folder: string, key: string, i: nat)
    requires '/' !in key && 0 < i < |key| - 1 && key[i] == '.' && '.' !in key[i + 1..]
    ensures WithSuffix(JoinPath(folder, key), ".faiss") == Ok(folder + "/" + key[..i] + ".faiss")
  {
    BaseNameJoin(folder, key);
    RFindAt(key, '.', i);
    var p := JoinPath(folder, key);
    assert p[..|p| - |key|] == folder + "/";
  }

  /** Two paper keys that agree up to their last `.` share one index file,
      so the later build overwrites the earlier one on disk. */
  lemma IndexFilesCollide(folder: string, key1: string, key2: string, i: nat)
    requires '/' !in key1 && 0 < i < |key1| - 1 && key1[i] == '.' && '.' !in key1[i + 1..]
    requires '/' !in key2 && i < |key2| - 1 && key2[i] == '.' && '.' !in key2[i + 1..]
    requires key1[..i] == key2[..i]
    ensures WithSuffix(JoinPath(folder, key1), ".faiss") == WithSuffix(JoinPath(folder, key2), ".faiss")
  {
    IndexFileOfDottedKey(folder, key1, i);
    IndexFileOfDottedKey(folder, key2, i);
  }

  /** For instance the keys of "J. Smith" and "J. Doe", whose indexes
      both go to `J.faiss`. */
  lemma IndexFileCollision(folder: string, smith: string, doe: string)
    requires smith == "J. Smith-2020" && doe == "J. Doe-2021"
    ensures WithSuffix(JoinPath(folder, smith), ".faiss") == Ok(folder + "/J.faiss")
    ensures WithSuffix(JoinPath(folder, doe), ".faiss") == Ok(folder + "/J.faiss")
  {
    assert smith[2..] == " Smith-2020" && doe[2..] == " Doe-2021";
    assert '/' !in smith && 0 < 1 < |smith| - 1 && smith[1] == '.' && '.' !in smith[2..];
    assert '/' !in doe && 0 < 1 < |doe| - 1 && doe[1] == '.' && '.' !in doe[2..];
    assert folder + "/" + smith[..1] + ".faiss" == folder + "/J.faiss";
    assert folder + "/" + doe[..1] + ".faiss" == folder + "/J.faiss";
    IndexFileOfDottedKey(folder, smith, 1);
    IndexFileOfDottedKey(folder, doe, 1);
  }

  // ------------------------------------------------------------------
  // building
  // ------------------------------------------------------------------

  /** `chunks[:max_sentences] if max_sentences else chunks`. */
  function Truncate(chunks: seq<Doc>, maxSentences: Option<int>): (r: seq<Doc>)
    ensures |r| <= |chunks| && r == chunks[..|r|]
    ensures maxSentences.None? || maxSentences == Some(0) ==> r == chunks
    ensures maxSentences.Some? && maxSentences.value > 0 ==>
      |r| == Min(maxSentences.value, |chunks|)
  {
    if maxSentences.Some? && maxSentences.value != 0 then PyTake(chunks, maxSentences.value)
    else chunks
  }

  function Texts(chunks: seq<Doc>): (r: seq<string>)
    ensures |r| == |chunks|
    ensures forall i :: 0 <= i < |chunks| ==> r[i] == chunks[i].text
  {
    seq(|chunks|, i requires 0 <= i < |chunks| => chunks[i].text)
  }

  /** `np.array(embeddings_list)` and `embeddings.shape[1]`: no vectors
      leaves no second axis (`IndexError`), vectors of different lengths
      do not form an array (`ValueError`). */
  function MakeIndex(vs: seq<Vector>): (r: Result<Index>)
    ensures r.Ok? <==> vs != [] && SameDim(vs, |vs[0]|)
    ensures r.Ok? ==> r.value.vectors == vs && r.value.dim == |vs[0]|
  {
    if vs == [] then Err(IndexError)
    else if !SameDim(vs, |vs[0]|) then Err(ValueError("inhomogeneous shape"))
    else Ok(Index(|vs[0]|, vs))
  }

  predicate SameDim(vs: seq<Vector>, d: nat) {
    forall i :: 0 <= i < |vs| ==> |vs[i]| == d
  }

  /** What `build` produces from its input: the kept chunks and the index
      over their embeddings, or the error that stops it. */
  function BuildOutcome(chunks: seq<Doc>, maxSentences: Option<int>, send: EmbedBatch)
    : Result<(seq<Doc>, Index)>
  {
    var filtered := Truncate(chunks, maxSentences);
    var emb :- EmbedAll(Batches(Texts(filtered)), send);
    var idx :- MakeIndex(emb);
    Ok((filtered, idx))
  }

  /** With an embedding service that answers every batch with one vector
      per text, a successful build pairs row i of the index with kept
      chunk i. */
  lemma BuildPairsRows(chunks: seq<Doc>, maxSentences: Option<int>, send: EmbedBatch)
    requires forall b :: send(b).Ok? ==> |send(b).value| == |b|
    requires BuildOutcome(chunks, maxSentences, send).Ok?
    ensures var (kept, idx) := BuildOutcome(chunks, maxSentences, send).value;
      |idx.vectors| == |kept| && kept == Truncate(chunks, maxSentences)
  {
    var filtered := Truncate(chunks, maxSentences);
    var bs := Batches(Texts(filtered));
    EmbedAllLength(bs, send);
    BatchesPartition(Texts(filtered));
  }

  /** Building from nothing fails: there is no vector to take a dimension
      from. */
  lemma BuildEmptyFails(maxSentences: Option<int>, send: EmbedBatch)
    ensures BuildOutcome([], maxSentences, send) == Err(IndexError)
  {
    assert Texts([]) == [];
  }

  // ------------------------------------------------------------------
  // searching
  // ------------------------------------------------------------------

  /** The hits a query keeps: those scoring at least `min_score`, in
      search order. */
  function Kept(hits: seq<Hit>, minScore: real): (r: seq<Hit>)
    ensures |r| <= |hits|
    ensures forall i :: 0 <= i < |r| ==> r[i].score >= minScore && r[i] in hits
    decreases |hits|
  {
    if hits == [] then []
    else
      var init := Kept(hits[..|hits| - 1], minScore);
      var last := hits[|hits| - 1];
      assert forall h :: h in hits[..|hits| - 1] ==> h in hits;
      if last.score < minScore then init else init + [last]
  }

  /** The result loop of `query`: drop low hits, look the others up in
      `chunks` (negative rows count from the end, as Python indexing
      does; a row past the end raises `IndexError`). */
  function Matches(hits: seq<Hit>, chunks: seq<Doc>, minScore: real): Result<seq<Match>>
    decreases |hits|
  {
    if hits == [] then Ok([])
    else
      var init :- Matches(hits[..|hits| - 1], chunks, minScore);
      var h := hits[|hits| - 1];
      if h.score < minScore then Ok(init)
      else
        match PyIndex(h.row, |chunks|)
        case None => Err(IndexError)
        case Some(j) => Ok(init + [Match(h.score, chunks[j].text, chunks[j].meta)])
  }

  /** The match for a kept hit. */
  predicate MatchOf(m: Match, h: Hit, chunks: seq<Doc>) {
    m.score == h.score
    && match PyIndex(h.row, |chunks|)
       case Some(j) => m.text == chunks[j].text && m.meta == chunks[j].meta
       case None => false
  }

  /** Every hit points at a chunk. */
  predicate RowsInRange(hits: seq<Hit>, n: nat) {
    forall i :: 0 <= i < |hits| ==> PyIndex(hits[i].row, n).Some?
  }

  /** The lookup fails exactly when a kept hit points outside `chunks`;
      dropped hits are never looked up. */
  lemma {:induction false} MatchesOkIff(hits: seq<Hit>, chunks: seq<Doc>, minScore: real)
    ensures Matches(hits, chunks, minScore).Ok? <==> RowsInRange(Kept(hits, minScore), |chunks|)
    decreases |hits|
  {
    if hits != [] {
      var init := hits[..|hits| - 1];
      MatchesOkIff(init, chunks, minScore);
      var k0 := Kept(init, minScore);
      var h := hits[|hits| - 1];
      if h.score >= minScore {
        var kept := Kept(hits, minScore);
        assert kept == k0 + [h];
        assert forall i :: 0 <= i < |k0| ==> kept[i] == k0[i];
        assert RowsInRange(kept, |chunks|) ==> PyIndex(kept[|k0|].row, |chunks|).Some?;
      }
    }
  }

  /** The results are exactly the kept hits, in search order, each carrying
      the score of its hit and the text and meta of the chunk at its row. */
  lemma {:induction false} MatchesAreKeptHits(hits: seq<Hit>, chunks: seq<Doc>, minScore: real)
    requires Matches(hits, chunks, minScore).Ok?
    ensures |Matches(hits, chunks, minScore).value| == |Kept(hits, minScore)|
    ensures forall i :: 0 <= i < |Kept(hits, minScore)| ==>
      MatchOf(Matches(hits, chunks, minScore).value[i], Kept(hits, minScore)[i], chunks)
    decreases |hits|
  {
    if hits != [] {
      var init := hits[..|hits| - 1];
      MatchesAreKeptHits(init, chunks, minScore);
      var k0 := Kept(init, minScore);
      var h := hits[|hits| - 1];
      if h.score >= minScore {
        var kept := Kept(hits, minScore);
        assert kept == k0 + [h];
        assert forall i :: 0 <= i < |k0| ==> kept[i] == k0[i];
      }
    }
  }

  /** Every returned score reaches the threshold. */
  lemma MatchScores(hits: seq<Hit>, chunks: seq<Doc>, minScore: real)
    requires Matches(hits, chunks, minScore).Ok?
    ensures forall m :: m in Matches(hits, chunks, minScore).value ==> m.score >= minScore
  {
    MatchesAreKeptHits(hits, chunks, minScore);
    var r := Matches(hits, chunks, minScore).value;
    var kept := Kept(hits, minScore);
    forall m | m in r ensures m.score >= minScore {
      var i :| 0 <= i < |r| && r[i] == m;
      assert MatchOf(r[i], kept[i], chunks);
    }
  }

  /** A search whose every hit is below the threshold yields no result,
      and no error. */
  lemma {:induction false} AllBelowGivesNothing(hits: seq<Hit>, chunks: seq<Doc>, minScore: real)
    requires forall i :: 0 <= i < |hits| ==> hits[i].score < minScore
    ensures Matches(hits, chunks, minScore) == Ok([])
    decreases |hits|
  {
    if hits != [] {
      AllBelowGivesNothing(hits[..|hits| - 1], chunks, minScore);
    }
  }

  predicate Descending(hits: seq<Hit>) {
    forall i, j :: 0 <= i < j < |hits| ==> hits[i].score >= hits[j].score
  }

  /** Filtering keeps a descending search order descending. */
  lemma {:induction false} KeptDescending(hits: seq<Hit>, minScore: real)
    requires Descending(hits)
    ensures Descending(Kept(hits, minScore))
    decreases |hits|
  {
    if hits != [] {
      var init := hits[..|hits| - 1];
      assert Descending(init);
      KeptDescending(init, minScore);
      var k0 := Kept(init, minScore);
      var h := hits[|hits| - 1];
      forall x | x in k0 ensures x.score >= h.score {
        var j :| 0 <= j < |init| && init[j] == x;
      }
    }
  }

  /** What numpy and FAISS make of the query vectors before the search: a
      ragged list cannot become an array (`ValueError`), FAISS asserts that
      the width is the index dimension (`AssertionError`), and an empty
      list becomes a `1 x 0` array that fails the same assertion. */
  function QueryShape(vs: seq<Vector>, dim: nat): (r: Option<Error>)
    ensures r.None? <==> vs != [] && SameDim(vs, dim)
    ensures r.Some? && vs != [] && SameDim(vs, |vs[0]|) ==> r.value == AssertionError
    ensures vs != [] && !SameDim(vs, |vs[0]|) ==> r == Some(ValueError("inhomogeneous shape"))
  {
    if vs == [] then Some(AssertionError)
    else if !SameDim(vs, |vs[0]|) then Some(ValueError("inhomogeneous shape"))
    else if |vs[0]| != dim then Some(AssertionError)
    else None
  }

  /** The answer `query` gives in a given state: unbuilt or chunk-less
      retrievers raise `ValueError`; an embedding or search failure
      propagates; query vectors of the wrong shape are refused as
      `QueryShape` says. */
  function QueryResult(index: Option<Index>, chunks: seq<Doc>, minScore: real,
                       text: string, k: int, embed: Embed, search: Search): Result<seq<Match>>
  {
    if index.None? || chunks == [] then Err(ValueError(NotReady))
    else
      var vs :- embed([text]);
      if QueryShape(vs, index.value.dim).Some? then Err(QueryShape(vs, index.value.dim).value)
      else
        var hits :- search(index.value, vs[0], k);
        Matches(hits, chunks, minScore)
  }

  /** The answer of `query_many`: one result list per query vector. */
  function QueryManyResult(index: Option<Index>, chunks: seq<Doc>, minScore: real,
                           texts: seq<string>, k: int, embed: Embed, search: Search)
    : Result<seq<seq<Match>>>
  {
    if index.None? || chunks == [] then Err(ValueError(NotReady))
    else
      var vs :- embed(texts);
      if QueryShape(vs, index.value.dim).Some? then Err(QueryShape(vs, index.value.dim).value)
      else RowMatches(index.value, vs, k, search, chunks, minScore)
  }

  function RowMatches(idx: Index, vs: seq<Vector>, k: int, search: Search,
                      chunks: seq<Doc>, minScore: real): (r: Result<seq<seq<Match>>>)
    ensures r.Ok? ==> |r.value| == |vs|
    decreases |vs|
  {
    if vs == [] then Ok([])
    else
      var init :- RowMatches(idx, vs[..|vs| - 1], k, search, chunks, minScore);
      var hits :- search(idx, vs[|vs| - 1], k);
      var row :- Matches(hits, chunks, minScore);
      Ok(init + [row])
  }

  /** Row i of a successful `query_many` is the match list of query vector
      i. */
  lemma {:induction false} RowMatchesAt(idx: Index, vs: seq<Vector>, k: int, search: Search,
                                        chunks: seq<Doc>, minScore: real, i: nat)
    requires RowMatches(idx, vs, k, search, chunks, minScore).Ok? && i < |vs|
    ensures search(idx, vs[i], k).Ok?
    ensures Matches(search(idx, vs[i], k).value, chunks, minScore)
         == Ok(RowMatches(idx, vs, k, search, chunks, minScore).value[i])
    decreases |vs|
  {
    if i < |vs| - 1 {
      RowMatchesAt(idx, vs[..|vs| - 1], k, search, chunks, minScore, i);
      assert vs[..|vs| - 1][i] == vs[i];
    }
  }

  /** When embedding a batch gives the same vectors as embedding each
      text alone, `query_many` answers each text as `query` does. */
  lemma QueryManyAgrees(index: Option<Index>, chunks: seq<Doc>, minScore: real,
                        texts: seq<string>, k: int, embed: Embed, search: Search, i: nat)
    requires QueryManyResult(index, chunks, minScore, texts, k, embed, search).Ok?
    requires embed(texts).Ok? && |embed(texts).value| == |texts| && i < |texts|
    requires embed([texts[i]]) == Ok([embed(texts).value[i]])
    ensures QueryResult(index, chunks, minScore, texts[i], k, embed, search)
         == Ok(QueryManyResult(index, chunks, minScore, texts, k, embed, search).value[i])
  {
    var vs := embed(texts).value;
    RowMatchesAt(index.value, vs, k, search, chunks, minScore, i);
  }

  // ------------------------------------------------------------------
  // the on-disk index files
  // ------------------------------------------------------------------

  /** The `.faiss` files written by `faiss.write_index`. */
  class IndexStore {
    var files: map<string, Index>

    constructor ()
      ensures files == map[]
    {
      files := map[];
    }
  }

  // ------------------------------------------------------------------
  // the retriever
  // ------------------------------------------------------------------

  class Retriever {
    var indexPath: string
    var index: Option<Index>
    var chunks: seq<Doc>
    var maxSentences: Option<int>
    var minScore: real
    var embedModel: string

    /** `Retriever(index_path, max_sentences, min_score, embed_model)`:
        unbuilt, with no chunks, and the index file named after the path
        with its suffix replaced by `.faiss`. */
    constructor (path: string, maxSentences: Option<int>, minScore: real, embedModel: string)
      requires WithSuffix(path, ".faiss").Ok?
      ensures indexPath == WithSuffix(path, ".faiss").value
      ensures index.None? && chunks == []
      ensures this.maxSentences == maxSentences && this.minScore == minScore
      ensures this.embedModel == embedModel
    {
      indexPath := WithSuffix(path, ".faiss").value;
      index := None;
      chunks := [];
      this.maxSentences := maxSentences;
      this.minScore := minScore;
      this.embedModel := embedModel;
    }

    /** `build(chunks)`: on success the kept prefix and its index are
        installed together and the index file is written; on failure
        nothing changes. */
    method Build(input: seq<Doc>, send: EmbedBatch, store: IndexStore) returns (r: Result<()>)
      modifies this, store
      ensures r.Ok? <==> BuildOutcome(input, maxSentences, send).Ok?
      ensures r.Err? ==> r.error == BuildOutcome(input, maxSentences, send).error
      ensures r.Err? ==> index == old(index) && chunks == old(chunks) && store.files == old(store.files)
      ensures r.Ok? ==> chunks == BuildOutcome(input, maxSentences, send).value.0
      ensures r.Ok? ==> index == Some(BuildOutcome(input, maxSentences, send).value.1)
      ensures r.Ok? ==> store.files == old(store.files)[indexPath := index.value]
      ensures indexPath == old(indexPath) && maxSentences == old(maxSentences)
      ensures minScore == old(minScore) && embedModel == old(embedModel)
    {
      var filtered := Truncate(input, maxSentences);
      var embeddings, _ := EmbedDocuments(Texts(filtered), send);
      if embeddings.Err? {
        return Err(embeddings.error);
      }
      var idx := MakeIndex(embeddings.value);
      if idx.Err? {
        return Err(idx.error);
      }
      index := Some(idx.value);
      chunks := filtered;
      store.files := store.files[indexPath := idx.value];
      return Ok(());
    }

    /** `load()`: reads the index file back; the chunk list is left as it
        was (empty for a fresh retriever). */
    method Load(store: IndexStore) returns (r: Result<()>)
      modifies this
      ensures r.Ok? <==> indexPath in store.files
      ensures r.Ok? ==> index == Some(store.files[indexPath])
      ensures r.Err? ==> index == old(index)
      ensures chunks == old(chunks) && indexPath == old(indexPath)
      ensures maxSentences == old(maxSentences) && minScore == old(minScore)
      ensures embedModel == old(embedModel)
    {
      if indexPath !in store.files {
        return Err(RuntimeError("could not open " + indexPath));
      }
      index := Some(store.files[indexPath]);
      return Ok(());
    }

    /** `query(text, k)`. */
    method Query(text: string, k: int, embed: Embed, search: Search) returns (r: Result<seq<Match>>)
      ensures r == QueryResult(index, chunks, minScore, text, k, embed, search)
    {
      if index.None? || chunks == [] {
        return Err(ValueError(NotReady));
      }
      var vs :- embed([text]);
      var shape := QueryShape(vs, index.value.dim);
      if shape.Some? {
        return Err(shape.value);
      }
      var hits :- search(index.value, vs[0], k);
      r := CollectMatches(hits, chunks, minScore);
    }

    /** `query_many(texts, k)`. */
    method QueryMany(texts: seq<string>, k: int, embed: Embed, search: Search)
      returns (r: Result<seq<seq<Match>>>)
      ensures r == QueryManyResult(index, chunks, minScore, texts, k, embed, search)
    {
      if index.None? || chunks == [] {
        return Err(ValueError(NotReady));
      }
      var vs :- embed(texts);
      var shape := QueryShape(vs, index.value.dim);
      if shape.Some? {
        return Err(shape.value);
      }
      var all: seq<seq<Match>> := [];
      var i := 0;
      while i < |vs|
        invariant 0 <= i <= |vs|
        invariant RowMatches(index.value, vs[..i], k, search, chunks, minScore) == Ok(all)
      {
        TakeTake(vs, i);
        var hits := search(index.value, vs[i], k);
        if hits.Err? {
          RowMatchesFailure(index.value, vs, k, search, chunks, minScore, i + 1);
          return Err(hits.error);
        }
        var row := CollectMatches(hits.value, chunks, minScore);
        if row.Err? {
          RowMatchesFailure(index.value, vs, k, search, chunks, minScore, i + 1);
          return Err(row.error);
        }
        all := all + [row.value];
        i := i + 1;
      }
      assert vs[..i] == vs;
      return Ok(all);
    }
  }

  /** A failure on a prefix of the query vectors decides the whole run. */
  lemma {:induction false} RowMatchesFailure(idx: Index, vs: seq<Vector>, k: int, search: Search,
                                             chunks: seq<Doc>, minScore: real, n: nat)
    requires n <= |vs| && RowMatches(idx, vs[..n], k, search, chunks, minScore).Err?
    ensures RowMatches(idx, vs, k, search, chunks, minScore)
         == RowMatches(idx, vs[..n], k, search, chunks, minScore)
    decreases |vs|
  {
    if n < |vs| {
      assert vs[..|vs| - 1][..n] == vs[..n];
      RowMatchesFailure(idx, vs[..|vs| - 1], k, search, chunks, minScore, n);
    } else {
      assert vs[..n] == vs;
    }
  }

  /** The result loop shared by `query` and `query_many`. */
  method CollectMatches(hits: seq<Hit>, chunks: seq<Doc>, minScore: real) returns (r: Result<seq<Match>>)
    ensures r == Matches(hits, chunks, minScore)
  {
    var results: seq<Match> := [];
    var i := 0;
    while i < |hits|
      invariant 0 <= i <= |hits|
      invariant Matches(hits[..i], chunks, minScore) == Ok(results)
    {
      TakeTake(hits, i);
      var h := hits[i];
      if h.score >= minScore {
        var j := PyIndex(h.row, |chunks|);
        if j.None? {
          MatchesFailure(hits, chunks, minScore, i + 1);
          return Err(IndexError);
        }
        results := results + [Match(h.score, chunks[j.value].text, chunks[j.value].meta)];
      }
      i := i + 1;
    }
    assert hits[..i] == hits;
    return Ok(results);
  }

  lemma {:induction false} MatchesFailure(hits: seq<Hit>, chunks: seq<Doc>, minScore: real, n: nat)
    requires n <= |hits| && Matches(hits[..n], chunks, minScore).Err?
    ensures Matches(hits, chunks, minScore) == Matches(hits[..n], chunks, minScore)
    decreases |hits|
  {
    if n < |hits| {
      assert hits[..|hits| - 1][..n] == hits[..n];
      MatchesFailure(hits[..|hits| - 1], chunks, minScore, n);
    } else {
      assert hits[..n] == hits;
    }
  }

  /** A fresh retriever that loads its index file still cannot answer:
      `load` does not bring the chunks back. */
  method LoadedCannotQuery(path: string, text: string, k: int, embed: Embed, search: Search,
                           store: IndexStore) returns (r: Result<seq<Match>>)
    requires WithSuffix(path, ".faiss").Ok?
    ensures r == Err(ValueError(NotReady))
  {
    var retr := new Retriever(path, None, 0.20, "alias-embeddings");
    var _ := retr.Load(store);
    r := retr.Query(text, k, embed, search);
  }

  // ------------------------------------------------------------------
  // build_all
  // ------------------------------------------------------------------

  /** The key of a per-paper index, `f"{author}-{year}"`, for documents
      that carry both. */
  function PaperKey(d: Doc): (r: Option<string>)
    ensures r.Some? <==> d.author.Some? && d.year.Some?
  {
    if d.author.Some? && d.year.Some? then Some(PyStr(d.author.value) + "-" + IntToStr(d.year.value))
    else None
  }

  /** No paper key is `"default"`: every key holds a `-` after the author
      and ends in the year's last digit. */
  lemma PaperKeyNotDefault(d: Doc)
    requires d.author.Some? && d.year.Some?
    ensures PaperKey(d).value != "default"
  {
    var y := IntToStr(d.year.value);
    var key := PaperKey(d).value;
    IntToStrEndsInDigit(d.year.value);
    assert key[|key| - 1] == y[|y| - 1];
  }

  lemma IntToStrEndsInDigit(n: int)
    ensures |IntToStr(n)| >= 1 && IsDigit(IntToStr(n)[|IntToStr(n)| - 1])
  {
    if n >= 0 {
      NatToStrDigits(n);
    } else {
      NatToStrDigits(-n);
      assert IntToStr(n) == "-" + NatToStr(-n);
    }
  }

  lemma NatToStrDigits(n: nat)
    ensures |NatToStr(n)| >= 1 && IsDigit(NatToStr(n)[|NatToStr(n)| - 1])
  {
  }

  /** The items that have a key, the last one per key (a later item
      replaces an earlier one under the same key, as `d[key] = x` in a
      loop does). */
  function LastByKey<T>(xs: seq<T>, key: T -> Option<string>): map<string, T>
    decreases |xs|
  {
    if xs == [] then map[]
    else
      var m := LastByKey(xs[..|xs| - 1], key);
      var x := xs[|xs| - 1];
      match key(x)
      case None => m
      case Some(k) => m[k := x]
  }

  lemma LastByKeySnoc<T>(xs: seq<T>, key: T -> Option<string>, i: nat)
    requires i < |xs|
    ensures key(xs[i]).None? ==> LastByKey(xs[..i + 1], key) == LastByKey(xs[..i], key)
    ensures key(xs[i]).Some? ==>
      LastByKey(xs[..i + 1], key) == LastByKey(xs[..i], key)[key(xs[i]).value := xs[i]]
  {
    TakeTake(xs, i);
  }

  /** A key is registered exactly when some item has it. */
  lemma {:induction false} LastByKeyKeys<T>(xs: seq<T>, key: T -> Option<string>, k: string)
    ensures k in LastByKey(xs, key) <==> exists i :: 0 <= i < |xs| && key(xs[i]) == Some(k)
    decreases |xs|
  {
    if xs != [] {
      var n := |xs| - 1;
      var init := xs[..n];
      LastByKeyKeys(init, key, k);
      if key(xs[n]) != Some(k) {
        if exists i :: 0 <= i < |xs| && key(xs[i]) == Some(k) {
          var i :| 0 <= i < |xs| && key(xs[i]) == Some(k);
          assert init[i] == xs[i];
        }
        if exists i :: 0 <= i < |init| && key(init[i]) == Some(k) {
          var i :| 0 <= i < |init| && key(init[i]) == Some(k);
          assert init[i] == xs[i];
        }
      }
    }
  }

  /** It holds the last item with that key. */
  lemma {:induction false} LastByKeyLast<T>(xs: seq<T>, key: T -> Option<string>, k: string, i: nat)
    requires i < |xs| && key(xs[i]) == Some(k)
    requires forall j :: i < j < |xs| ==> key(xs[j]) != Some(k)
    ensures k in LastByKey(xs, key) && LastByKey(xs, key)[k] == xs[i]
    decreases |xs|
  {
    if i < |xs| - 1 {
      var init := xs[..|xs| - 1];
      assert init[i] == xs[i];
      LastByKeyLast(init, key, k, i);
    }
  }

  /** A document whose meta has `type` `"sentence"`. */
  predicate IsSentenceDoc(d: Doc) { Get(d.meta, "type") == Some(Str("sentence")) }

  /** The documents of the `"default"` index: TEI sentence chunks, in
      their order. */
  function SentenceDocs(docs: seq<Doc>): (r: seq<Doc>)
    ensures |r| <= |docs|
    ensures forall d :: d in r <==> d in docs && IsSentenceDoc(d)
    decreases |docs|
  {
    if docs == [] then []
    else
      var init := SentenceDocs(docs[..|docs| - 1]);
      var d := docs[|docs| - 1];
      assert forall x :: x in docs[..|docs| - 1] ==> x in docs;
      assert docs == docs[..|docs| - 1] + [d];
      if IsSentenceDoc(d) then init + [d] else init
  }

  /** Filtering distributes over concatenation, so the sentence documents
      keep their relative order. */
  lemma {:induction false} SentenceDocsConcat(a: seq<Doc>, b: seq<Doc>)
    ensures SentenceDocs(a + b) == SentenceDocs(a) + SentenceDocs(b)
    decreases |b|
  {
    if b == [] {
      assert a + b == a;
    } else {
      var b0 := b[..|b| - 1];
      var last := b[|b| - 1];
      var tail := if IsSentenceDoc(last) then [last] else [];
      SentenceDocsConcat(a, b0);
      assert (a + b)[..|a + b| - 1] == a + b0;
      assert (a + b)[|a + b| - 1] == last;
      assert SentenceDocs(a + b) == SentenceDocs(a + b0) + tail;
      assert SentenceDocs(b) == SentenceDocs(b0) + tail;
    }
  }

  /** Every keyed document builds; `build_all` builds each paper document,
      so any failing build fails it. */
  predicate KeyedBuildsSucceed(docs: seq<Doc>, keyOf: Doc -> Option<string>,
                               maxSentences: Option<int>, send: EmbedBatch) {
    forall i :: 0 <= i < |docs| && keyOf(docs[i]).Some? ==>
      BuildOutcome([docs[i]], maxSentences, send).Ok?
  }

  lemma KeyedBuildsSnoc(docs: seq<Doc>, keyOf: Doc -> Option<string>, i: nat,
                        maxSentences: Option<int>, send: EmbedBatch)
    requires i < |docs|
    ensures KeyedBuildsSucceed(docs[..i + 1], keyOf, maxSentences, send)
      <==> KeyedBuildsSucceed(docs[..i], keyOf, maxSentences, send)
           && (keyOf(docs[i]).Some? ==> BuildOutcome([docs[i]], maxSentences, send).Ok?)
  {
    var pre, ext := docs[..i], docs[..i + 1];
    assert forall j :: 0 <= j < i ==> ext[j] == pre[j];
    assert ext[i] == docs[i];
  }

  lemma KeyedBuildsPrefix(docs: seq<Doc>, keyOf: Doc -> Option<string>, n: nat,
                          maxSentences: Option<int>, send: EmbedBatch)
    requires n <= |docs|
    ensures KeyedBuildsSucceed(docs, keyOf, maxSentences, send)
      ==> KeyedBuildsSucceed(docs[..n], keyOf, maxSentences, send)
  {
    var pre := docs[..n];
    assert forall j :: 0 <= j < n ==> pre[j] == docs[j];
  }

  /** A path component that `with_suffix` accepts after `folder /`. */
  predicate GoodName(name: string) {
    name != [] && name[|name| - 1] != '/'
  }

  /** A retriever built from `input` with these settings. */
  predicate BuiltFrom(r: Retriever, input: seq<Doc>, maxSentences: Option<int>, minScore: real,
                      send: EmbedBatch)
    reads r
  {
    var outcome := BuildOutcome(input, maxSentences, send);
    outcome.Ok? && r.chunks == outcome.value.0 && r.index == Some(outcome.value.1)
    && r.maxSentences == maxSentences && r.minScore == minScore
  }

  /** The registry `build_all` returns for `docs`: one entry per paper key,
      built from the last document with that key, plus `"default"`, built
      from the sentence documents. */
  predicate Registry(m: map<string, Retriever>, docs: seq<Doc>, maxSentences: Option<int>,
                     minScore: real, send: EmbedBatch)
    reads m.Values
  {
    m.Keys == LastByKey(docs, PaperKey).Keys + {"default"}
    && (forall key :: key in LastByKey(docs, PaperKey) ==>
          BuiltFrom(m[key], [LastByKey(docs, PaperKey)[key]], maxSentences, minScore, send))
    && BuiltFrom(m["default"], SentenceDocs(docs), maxSentences, minScore, send)
  }

  /** `Retriever(folder / name, …)` followed by `build(input)`. */
  method BuildOne(folder: string, name: string, input: seq<Doc>, embedModel: string,
                  maxSentences: Option<int>, minScore: real, send: EmbedBatch, store: IndexStore)
    returns (r: Result<Retriever>)
    requires GoodName(name)
    modifies store
    ensures r.Ok? <==> BuildOutcome(input, maxSentences, send).Ok?
    ensures r.Ok? ==> fresh(r.value) && BuiltFrom(r.value, input, maxSentences, minScore, send)
  {
    var path := JoinPath(folder, name);
    JoinPathHasName(folder, name);
    var retr := new Retriever(path, maxSentences, minScore, embedModel);
    var built := retr.Build(input, send, store);
    if built.Err? {
      return Err(built.error);
    }
    return Ok(retr);
  }

  /** The per-paper loop of `build_all`: one fresh retriever per document
      with a key, built from that document alone and stored under its key;
      the first failing build stops the loop.  `keyOf` is the paper key. */
  method BuildKeyed(folder: string, docs: seq<Doc>, keyOf: Doc -> Option<string>, embedModel: string,
                    maxSentences: Option<int>, minScore: real, send: EmbedBatch, store: IndexStore)
    returns (r: Result<map<string, Retriever>>)
    requires forall d :: keyOf(d).Some? ==> GoodName(keyOf(d).value)
    modifies store
    ensures r.Ok? <==> KeyedBuildsSucceed(docs, keyOf, maxSentences, send)
    ensures r.Ok? ==> r.value.Keys == LastByKey(docs, keyOf).Keys
    ensures r.Ok? ==> forall key :: key in r.value ==>
      BuiltFrom(r.value[key], [LastByKey(docs, keyOf)[key]], maxSentences, minScore, send)
  {
    var indexes: map<string, Retriever> := map[];
    var i := 0;
    while i < |docs|
      invariant 0 <= i <= |docs|
      invariant indexes.Keys == LastByKey(docs[..i], keyOf).Keys
      invariant KeyedBuildsSucceed(docs[..i], keyOf, maxSentences, send)
      invariant forall key :: key in indexes ==>
        BuiltFrom(indexes[key], [LastByKey(docs[..i], keyOf)[key]], maxSentences, minScore, send)
    {
      LastByKeySnoc(docs, keyOf, i);
      KeyedBuildsSnoc(docs, keyOf, i, maxSentences, send);
      var doc := docs[i];
      var key := keyOf(doc);
      if key.Some? {
        var retr := BuildOne(folder, key.value, [doc], embedModel, maxSentences, minScore,
                             send, store);
        if retr.Err? {
          KeyedBuildsPrefix(docs, keyOf, i + 1, maxSentences, send);
          return Err(retr.error);
        }
        indexes := indexes[key.value := retr.value];
      }
      i := i + 1;
    }
    assert docs[..i] == docs;
    return Ok(indexes);
  }

  /** `build_all(folder, …)`: `csvFiles` are the folder's CSV matches in
      glob order, `files` its TEI files and `table` the first CSV's
      contents.  On success the registry has one entry per paper key,
      built from the last document with that key, and a `"default"` entry
      built from the sentence chunks. */
  method BuildAll(folder: string, csvFiles: seq<string>, files: seq<XmlFile>, table: Table,
                  embedModel: string, maxSentences: Option<int>, minScore: real,
                  send: EmbedBatch, store: IndexStore)
    returns (r: Result<map<string, Retriever>>)
    modifies store
    ensures csvFiles == [] ==> r == Err(ValueError("No CSV file found in " + folder))
    ensures r.Ok? <==> (csvFiles != [] && Parser.DocumentsOk(files, table)
      && KeyedBuildsSucceed(Parser.Documents(files, table), PaperKey, maxSentences, send)
      && BuildOutcome(SentenceDocs(Parser.Documents(files, table)), maxSentences, send).Ok?)
    ensures r.Ok? ==> Registry(r.value, Parser.Documents(files, table), maxSentences, minScore, send)
  {
    if csvFiles == [] {
      return Err(ValueError("No CSV file found in " + folder));
    }
    var docs :- Parser.TeiAndCsvToDocuments(files, table);
    forall d | PaperKey(d).Some? ensures GoodName(PaperKey(d).value) {
      PaperKeyEndsInDigit(d);
    }
    var indexes :- BuildKeyed(folder, docs, PaperKey, embedModel, maxSentences, minScore, send, store);
    var defaultRetr :- BuildOne(folder, "default", SentenceDocs(docs), embedModel,
                                maxSentences, minScore, send, store);
    forall key | key in LastByKey(docs, PaperKey) ensures key != "default" {
      LastByKeyKeys(docs, PaperKey, key);
      var i :| 0 <= i < |docs| && PaperKey(docs[i]) == Some(key);
      PaperKeyNotDefault(docs[i]);
    }
    indexes := indexes["default" := defaultRetr];
    return Ok(indexes);
  }

  /** `folder / key` always has a name when the key is non-empty and does
      not end with `/`. */
  lemma JoinPathHasName(folder: string, key: string)
    requires key != [] && key[|key| - 1] != '/'
    ensures WithSuffix(JoinPath(folder, key), ".faiss").Ok?
  {
    var p := JoinPath(folder, key);
    if RFind(p, '/').Some? {
      assert RFind(p, '/').value < |p| - 1;
    }
  }

  /** A paper key ends in the year's last digit, so the path built from it
      has a name. */
  lemma PaperKeyEndsInDigit(d: Doc)
    requires PaperKey(d).Some?
    ensures PaperKey(d).value != [] && IsDigit(PaperKey(d).value[|PaperKey(d).value| - 1])
  {
    var key := PaperKey(d).value;
    IntToStrEndsInDigit(d.year.value);
    assert key[|key| - 1] == IntToStr(d.year.value)[|IntToStr(d.year.value)| - 1];
  }
}
