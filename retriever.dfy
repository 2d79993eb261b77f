/** The retrieval service: query encoding with a fallback, per-file and
    multi-file retrieval with a similarity threshold, global retrieval with a
    stable sort and a quality filter, and the assembly of the RAG context. */
module Retriever {
  import opened Wrappers
  import opened Text
  import opened Embedding
  import opened VectorStore

  /** The configured defaults (`RAG_TOP_K`, `RAG_MIN_SIMILARITY`,
      `RAG_MAX_CONTEXT_LENGTH`) and whether an OpenAI key is set. */
  datatype RagConfig = RagConfig(topK: int, minSimilarity: real, maxContextLength: int, openAiKeySet: bool)

  /** The two query encoders: the OpenAI embedding endpoint and the local
      sentence-transformers model (`None` stands for a call that raised),
      with the local model's dimension. */
  datatype Encoders = Encoders(openAi: String -> Option<Vector>, local: String -> Option<Vector>, localDim: nat)

  /** A search result tagged with the query and the file it came from. */
  datatype Retrieved = Retrieved(hit: Hit, query: String, fileId: String)

  /** The dimension of the existing indexes that an OpenAI vector must
      match. */
  const IndexDimension: nat := 384

  // ---------------------------------------------------------------------
  // Query encoding
  // ---------------------------------------------------------------------

  /** `encode_query_local(query)`: the embedding service's `encode_text`,
      which never raises. */
  function EncodeQueryLocal(query: String, enc: Encoders): Vector {
    EncodeText(query, enc.local, enc.localDim)
  }

  /** `encode_query_openai(query)`: the API vector when it has the index
      dimension, else the local encoding. */
  function EncodeQueryOpenAi(query: String, enc: Encoders): Vector {
    match enc.openAi(query)
    case Some(e) => if |e| != IndexDimension then EncodeQueryLocal(query, enc) else e
    case None => EncodeQueryLocal(query, enc)
  }

  /** The query vector every retrieval uses. */
  function QueryVector(query: String, useOpenAi: bool, config: RagConfig, enc: Encoders): Vector {
    if useOpenAi && config.openAiKeySet then EncodeQueryOpenAi(query, enc) else EncodeQueryLocal(query, enc)
  }

  /** The API vector is used exactly when it answered with 384 values; in
      every other case the local encoding is, which is the zero vector for a
      blank query. */
  lemma EncodeQuerySpec(query: String, enc: Encoders)
    ensures enc.openAi(query).Some? && |enc.openAi(query).value| == IndexDimension ==>
      EncodeQueryOpenAi(query, enc) == enc.openAi(query).value
    ensures enc.openAi(query).None? || |enc.openAi(query).value| != IndexDimension ==>
      EncodeQueryOpenAi(query, enc) == EncodeQueryLocal(query, enc)
    ensures IsBlank(query) ==> EncodeQueryLocal(query, enc) == Zeros(enc.localDim)
    ensures |EncodeQueryOpenAi(query, enc)| == IndexDimension
         || EncodeQueryOpenAi(query, enc) == EncodeQueryLocal(query, enc)
  {
  }

  // ---------------------------------------------------------------------
  // Similarity threshold
  // ---------------------------------------------------------------------

  /** The results at or above `minSimilarity`, in order, tagged with the
      query and the file id. */
  function KeepSimilar(hits: seq<Hit>, minSimilarity: real, query: String, fileId: String): seq<Retrieved> {
    if hits == [] then []
    else
      var n := |hits| - 1;
      KeepSimilar(hits[..n], minSimilarity, query, fileId)
      + (if hits[n].similarity >= minSimilarity then [Retrieved(hits[n], query, fileId)] else [])
  }

  /** A result is kept exactly when it reaches the threshold, tagged, and
      the kept ones keep their relative order. */
  lemma {:induction false} KeepSimilarSpec(hits: seq<Hit>, minSimilarity: real, query: String, fileId: String)
    ensures var r := KeepSimilar(hits, minSimilarity, query, fileId);
      && |r| <= |hits|
      && (forall k :: 0 <= k < |r| ==>
            r[k].hit in hits && r[k].hit.similarity >= minSimilarity
            && r[k].query == query && r[k].fileId == fileId)
      && (forall h :: h in hits && h.similarity >= minSimilarity ==> Retrieved(h, query, fileId) in r)
  {
    if hits != [] {
      var n := |hits| - 1;
      KeepSimilarSpec(hits[..n], minSimilarity, query, fileId);
      var r := KeepSimilar(hits, minSimilarity, query, fileId);
      var p := KeepSimilar(hits[..n], minSimilarity, query, fileId);
      assert r[..|p|] == p;
      forall h | h in hits && h.similarity >= minSimilarity
        ensures Retrieved(h, query, fileId) in r
      {
        if h in hits[..n] {
          assert Retrieved(h, query, fileId) in p;
        } else {
          assert h == hits[n];
          assert r[|r| - 1] == Retrieved(h, query, fileId);
        }
      }
    }
  }

  /** Thresholding keeps the increasing ranks of a search answer. */
  lemma {:induction false} KeepSimilarRanks(hits: seq<Hit>, minSimilarity: real, query: String, fileId: String)
    requires forall k, l :: 0 <= k < l < |hits| ==> hits[k].rank < hits[l].rank
    ensures var r := KeepSimilar(hits, minSimilarity, query, fileId);
      forall k, l :: 0 <= k < l < |r| ==> r[k].hit.rank < r[l].hit.rank
  {
    if hits != [] {
      var n := |hits| - 1;
      KeepSimilarRanks(hits[..n], minSimilarity, query, fileId);
      KeepSimilarSpec(hits[..n], minSimilarity, query, fileId);
      var r := KeepSimilar(hits, minSimilarity, query, fileId);
      var p := KeepSimilar(hits[..n], minSimilarity, query, fileId);
      forall k, l | 0 <= k < l < |r| ensures r[k].hit.rank < r[l].hit.rank {
        if l >= |p| {
          assert r[k] == p[k];
          var i :| 0 <= i < n && hits[..n][i] == p[k].hit;
          assert hits[i] == p[k].hit;
        } else {
          assert r[k] == p[k] && r[l] == p[l];
        }
      }
    }
  }

  /** The filtering loop of `retrieve_from_file` and
      `retrieve_from_multiple_files`. */
  method FilterBySimilarity(hits: seq<Hit>, minSimilarity: real, query: String, fileId: String)
    returns (filtered: seq<Retrieved>)
    ensures filtered == KeepSimilar(hits, minSimilarity, query, fileId)
  {
    filtered := [];
    for i := 0 to |hits|
      invariant filtered == KeepSimilar(hits[..i], minSimilarity, query, fileId)
    {
      assert hits[..i + 1][..i] == hits[..i];
      if hits[i].similarity >= minSimilarity {
        filtered := filtered + [Retrieved(hits[i], query, fileId)];
      }
    }
    assert hits[..|hits|] == hits;
  }

  // ---------------------------------------------------------------------
  // retrieve_from_file and retrieve_from_multiple_files
  // ---------------------------------------------------------------------

  /** `retrieve_from_file(query, file_id, top_k, min_similarity,
      use_openai)`: `[]` without an index file, else the file's search
      results at or above the threshold. */
  method RetrieveFromFile(store: VectorStore, query: String, fileId: String, topK: Option<int>,
                          minSimilarity: Option<real>, useOpenAi: bool, config: RagConfig,
                          enc: Encoders, backend: SearchBackend)
    returns (results: seq<Retrieved>)
    requires store.Valid()
    modifies store
    ensures store.Valid()
    ensures !old(store.IndexExists(fileId)) ==> results == []
    ensures old(store.IndexExists(fileId)) ==>
      results == KeepSimilar(
        SearchResults(old(store.Current(fileId)), QueryVector(query, useOpenAi, config, enc),
                      topK.GetOr(config.topK), backend),
        minSimilarity.GetOr(config.minSimilarity), query, fileId)
    ensures forall id :: store.Current(id) == old(store.Current(id))
    ensures store.indexFiles == old(store.indexFiles) && store.metadataFiles == old(store.metadataFiles)
    ensures store.embeddingFiles == old(store.embeddingFiles)
  {
    var k := topK.GetOr(config.topK);
    var threshold := minSimilarity.GetOr(config.minSimilarity);
    var info := store.GetIndexInfo(fileId);
    if info.Absent? {
      return [];
    }
    var queryVector := if useOpenAi && config.openAiKeySet then EncodeQueryOpenAi(query, enc)
                       else EncodeQueryLocal(query, enc);
    var hits := store.Search(fileId, queryVector, k, backend);
    results := FilterBySimilarity(hits, threshold, query, fileId);
  }

  /** `retrieve_from_multiple_files(query, file_ids, top_k_per_file,
      min_similarity, use_openai)`: the query is encoded once, and every
      given id maps to its thresholded search results (`[]` for a file
      without an index). */
  method RetrieveFromMultipleFiles(store: VectorStore, query: String, fileIds: seq<String>, topKPerFile: Option<int>,
                                   minSimilarity: Option<real>, useOpenAi: bool, config: RagConfig,
                                   enc: Encoders, backend: SearchBackend)
    returns (results: map<String, seq<Retrieved>>)
    requires store.Valid()
    modifies store
    ensures store.Valid()
    ensures results.Keys == set id | id in fileIds
    ensures forall id :: id in results ==>
      results[id] == KeepSimilar(
        SearchResults(old(store.Current(id)), QueryVector(query, useOpenAi, config, enc),
                      topKPerFile.GetOr(config.topK), backend),
        minSimilarity.GetOr(config.minSimilarity), query, id)
    ensures forall id :: store.Current(id) == old(store.Current(id))
    ensures store.indexFiles == old(store.indexFiles) && store.metadataFiles == old(store.metadataFiles)
    ensures store.embeddingFiles == old(store.embeddingFiles)
  {
    var k := topKPerFile.GetOr(config.topK);
    var threshold := minSimilarity.GetOr(config.minSimilarity);
    var queryVector := if useOpenAi && config.openAiKeySet then EncodeQueryOpenAi(query, enc)
                       else EncodeQueryLocal(query, enc);
    var allResults: map<String, seq<Hit>> := map[];
    for i := 0 to |fileIds|
      invariant store.Valid()
      invariant allResults.Keys == set id | id in fileIds[..i]
      invariant forall id :: id in allResults ==>
        allResults[id] == SearchResults(old(store.Current(id)), queryVector, k, backend)
      invariant forall id :: store.Current(id) == old(store.Current(id))
      invariant store.indexFiles == old(store.indexFiles) && store.metadataFiles == old(store.metadataFiles)
      invariant store.embeddingFiles == old(store.embeddingFiles)
    {
      assert fileIds[..i + 1] == fileIds[..i] + [fileIds[i]];
      var hits := store.Search(fileIds[i], queryVector, k, backend);
      allResults := allResults[fileIds[i] := hits];
    }
    assert fileIds[..|fileIds|] == fileIds;
    results := FilterAll(allResults, threshold, query);
  }

  /** The second loop of `retrieve_from_multiple_files`: each file's list
      thresholded and tagged with its id. */
  method FilterAll(allResults: map<String, seq<Hit>>, threshold: real, query: String)
    returns (results: map<String, seq<Retrieved>>)
    ensures results.Keys == allResults.Keys
    ensures forall id :: id in results ==> results[id] == KeepSimilar(allResults[id], threshold, query, id)
  {
    results := map[];
    var pending := allResults.Keys;
    while pending != {}
      invariant pending <= allResults.Keys
      invariant results.Keys == allResults.Keys - pending
      invariant forall id :: id in results ==>
        results[id] == KeepSimilar(allResults[id], threshold, query, id)
      decreases pending
    {
      var id :| id in pending;
      var filtered := FilterBySimilarity(allResults[id], threshold, query, id);
      results := results[id := filtered];
      pending := pending - {id};
    }
  }

  // ---------------------------------------------------------------------
  // retrieve_all_available
  // ---------------------------------------------------------------------

  /** The text a result is judged and cited by: `text_preview`, the only
      text the stored metadata carries. */
  function TextOf(r: Retrieved): String {
    r.hit.metadata.textPreview
  }

  /** The stable sort of `all_results.sort(key=similarity, reverse=True)`:
      one insertion step puts `x` after every item at least as similar. */
  function InsertBySimilarity(x: Retrieved, s: seq<Retrieved>): seq<Retrieved> {
    if s == [] then [x]
    else if s[0].hit.similarity >= x.hit.similarity then [s[0]] + InsertBySimilarity(x, s[1..])
    else [x] + s
  }

  function SortBySimilarity(xs: seq<Retrieved>): seq<Retrieved> {
    if xs == [] then []
    else
      var n := |xs| - 1;
      InsertBySimilarity(xs[n], SortBySimilarity(xs[..n]))
  }

  predicate SortedBySimilarity(xs: seq<Retrieved>) {
    forall i, j :: 0 <= i < j < |xs| ==> xs[i].hit.similarity >= xs[j].hit.similarity
  }

  /** The items of `xs` with similarity exactly `v`, in order. */
  function WithSimilarity(xs: seq<Retrieved>, v: real): seq<Retrieved> {
    if xs == [] then []
    else
      var n := |xs| - 1;
      WithSimilarity(xs[..n], v) + (if xs[n].hit.similarity == v then [xs[n]] else [])
  }

  lemma {:induction false} WithSimilarityCons(x: Retrieved, s: seq<Retrieved>, v: real)
    ensures WithSimilarity([x] + s, v) == (if x.hit.similarity == v then [x] else []) + WithSimilarity(s, v)
  {
    if s != [] {
      var n := |s| - 1;
      assert ([x] + s)[..n + 1] == [x] + s[..n];
      WithSimilarityCons(x, s[..n], v);
    } else {
      assert [x] + s == [x];
      assert ([x] + s)[..0] == [];
    }
  }

  lemma {:induction false} WithSimilarityNone(s: seq<Retrieved>, v: real)
    requires forall i :: 0 <= i < |s| ==> s[i].hit.similarity < v
    ensures WithSimilarity(s, v) == []
  {
    if s != [] {
      WithSimilarityNone(s[..|s| - 1], v);
    }
  }

  /** Inserting adds exactly `x`. */
  lemma {:induction false} InsertBySimilarityPermutes(x: Retrieved, s: seq<Retrieved>)
    ensures multiset(InsertBySimilarity(x, s)) == multiset(s) + multiset{x}
  {
    if s != [] && s[0].hit.similarity >= x.hit.similarity {
      InsertBySimilarityPermutes(x, s[1..]);
      assert s == [s[0]] + s[1..];
    }
  }

  /** Inserting into a sorted list keeps it sorted. */
  lemma {:induction false} InsertBySimilaritySorted(x: Retrieved, s: seq<Retrieved>)
    requires SortedBySimilarity(s)
    ensures SortedBySimilarity(InsertBySimilarity(x, s))
  {
    if s != [] && s[0].hit.similarity >= x.hit.similarity {
      var t := InsertBySimilarity(x, s[1..]);
      InsertBySimilaritySorted(x, s[1..]);
      InsertBySimilarityPermutes(x, s[1..]);
      forall i | 0 <= i < |t| ensures s[0].hit.similarity >= t[i].hit.similarity {
        assert t[i] in multiset(t);
        if t[i] != x {
          assert t[i] in multiset(s[1..]);
          var j :| 0 <= j < |s[1..]| && s[1..][j] == t[i];
          assert s[j + 1] == t[i];
        }
      }
    }
  }

  /** Inserting puts `x` after every item of equal similarity. */
  lemma {:induction false} InsertBySimilarityStable(x: Retrieved, s: seq<Retrieved>, v: real)
    requires SortedBySimilarity(s)
    ensures WithSimilarity(InsertBySimilarity(x, s), v) ==
      WithSimilarity(s, v) + (if x.hit.similarity == v then [x] else [])
  {
    var r := InsertBySimilarity(x, s);
    if s == [] {
      assert r[..0] == [];
    } else if s[0].hit.similarity >= x.hit.similarity {
      var t := InsertBySimilarity(x, s[1..]);
      InsertBySimilarityStable(x, s[1..], v);
      assert r == [s[0]] + t;
      assert s == [s[0]] + s[1..];
      WithSimilarityCons(s[0], t, v);
      WithSimilarityCons(s[0], s[1..], v);
    } else {
      WithSimilarityCons(x, s, v);
      if x.hit.similarity == v {
        WithSimilarityNone(s, v);
      }
    }
  }

  /** The sort is a permutation into non-increasing similarity, and it is
      stable: the items of any one similarity keep their input order. */
  lemma {:induction false} SortBySimilaritySpec(xs: seq<Retrieved>)
    ensures multiset(SortBySimilarity(xs)) == multiset(xs)
    ensures SortedBySimilarity(SortBySimilarity(xs))
    ensures forall v :: WithSimilarity(SortBySimilarity(xs), v) == WithSimilarity(xs, v)
  {
    if xs != [] {
      var n := |xs| - 1;
      var sorted := SortBySimilarity(xs[..n]);
      SortBySimilaritySpec(xs[..n]);
      InsertBySimilarityPermutes(xs[n], sorted);
      InsertBySimilaritySorted(xs[n], sorted);
      forall v ensures WithSimilarity(SortBySimilarity(xs), v) == WithSimilarity(xs, v) {
        InsertBySimilarityStable(xs[n], sorted, v);
      }
      assert xs == xs[..n] + [xs[n]];
    }
  }

  /** The low-quality tests of `retrieve_all_available`: a journal header,
      a stripped text under 20 characters, or a similarity under 0.02. */
  predicate IsJournalHeader(text: String) {
    Contains(text, "===") && Contains(text, "ISSN") && |text| < 500
  }

  predicate GoodQuality(r: Retrieved) {
    !IsJournalHeader(TextOf(r)) && |Strip(TextOf(r))| >= 20 && r.hit.similarity >= 0.02
  }

  function QualityFiltered(xs: seq<Retrieved>): seq<Retrieved> {
    if xs == [] then []
    else
      var n := |xs| - 1;
      QualityFiltered(xs[..n]) + (if GoodQuality(xs[n]) then [xs[n]] else [])
  }

  /** The filter keeps exactly the good items. */
  lemma {:induction false} QualityFilteredMembers(xs: seq<Retrieved>)
    ensures forall r :: r in QualityFiltered(xs) <==> r in xs && GoodQuality(r)
  {
    if xs != [] {
      var n := |xs| - 1;
      QualityFilteredMembers(xs[..n]);
      assert xs == xs[..n] + [xs[n]];
    }
  }

  /** The filter keeps the order of the items, so a sorted list stays
      sorted. */
  lemma {:induction false} QualityFilteredSorted(xs: seq<Retrieved>)
    requires SortedBySimilarity(xs)
    ensures SortedBySimilarity(QualityFiltered(xs))
  {
    if xs != [] {
      var n := |xs| - 1;
      assert SortedBySimilarity(xs[..n]);
      QualityFilteredSorted(xs[..n]);
      QualityFilteredMembers(xs[..n]);
      var p := QualityFiltered(xs[..n]);
      if GoodQuality(xs[n]) {
        forall i | 0 <= i < |p| ensures p[i].hit.similarity >= xs[n].hit.similarity {
          assert p[i] in xs[..n];
        }
        assert QualityFiltered(xs) == p + [xs[n]];
      }
    }
  }

  /** The concatenation of the per-file lists in the order of the ids. */
  function Merged(multi: map<String, seq<Retrieved>>, ids: seq<String>): seq<Retrieved> {
    if ids == [] then []
    else
      var n := |ids| - 1;
      Merged(multi, ids[..n]) + (if ids[n] in multi then multi[ids[n]] else [])
  }

  lemma {:induction false} MergedSpec(multi: map<String, seq<Retrieved>>, ids: seq<String>)
    requires forall id :: id in ids ==> id in multi
    ensures forall r :: r in Merged(multi, ids) <==> exists id :: id in ids && r in multi[id]
  {
    if ids != [] {
      var n := |ids| - 1;
      MergedSpec(multi, ids[..n]);
      forall r | r in Merged(multi, ids) ensures exists id :: id in ids && r in multi[id] {
        if r in Merged(multi, ids[..n]) {
          var id :| id in ids[..n] && r in multi[id];
          assert id in ids;
        } else {
          assert r in multi[ids[n]];
        }
      }
      forall r, id | id in ids && r in multi[id] ensures r in Merged(multi, ids) {
        if id != ids[n] {
          var i :| 0 <= i < |ids| && ids[i] == id;
          assert id in ids[..n] by { assert ids[..n][i] == id; }
        }
      }
    }
  }

  /** The merge loop of `retrieve_all_available`: the per-file lists are
      appended in the dict's key order, the first-occurrence order of the
      ids. */
  method MergeResults(multi: map<String, seq<Retrieved>>, keyOrder: seq<String>)
    returns (allResults: seq<Retrieved>)
    ensures allResults == Merged(multi, keyOrder)
  {
    allResults := [];
    for i := 0 to |keyOrder|
      invariant allResults == Merged(multi, keyOrder[..i])
    {
      assert keyOrder[..i + 1][..i] == keyOrder[..i];
      var results := if keyOrder[i] in multi then multi[keyOrder[i]] else [];
      allResults := allResults + results;
    }
    assert keyOrder[..|keyOrder|] == keyOrder;
  }

  /** The quality loop of `retrieve_all_available`. */
  method FilterQuality(allResults: seq<Retrieved>) returns (kept: seq<Retrieved>)
    ensures kept == QualityFiltered(allResults)
  {
    kept := [];
    for i := 0 to |allResults|
      invariant kept == QualityFiltered(allResults[..i])
    {
      assert allResults[..i + 1][..i] == allResults[..i];
      var result := allResults[i];
      var text := TextOf(result);
      var isJournalHeader := Contains(text, "===") && Contains(text, "ISSN") && |text| < 500;
      var isTooShort := |Strip(text)| < 20;
      var isLowSimilarity := result.hit.similarity < 0.02;
      if isJournalHeader || isTooShort || isLowSimilarity {
        continue;
      }
      kept := kept + [result];
    }
    assert allResults[..|allResults|] == allResults;
  }

  /** The number of results asked of each file: `max(1, top_k_total // n)`. */
  function PerFileTopK(topKTotal: int, n: nat): (k: int)
    requires n > 0
    ensures k >= 1
    ensures k * n <= topKTotal || k == 1
    ensures topKTotal >= n ==> topKTotal < (k + 1) * n
  {
    var q := FloorDiv(topKTotal, n);
    if q > 1 then q else 1
  }

  /** What `retrieve_all_available` returns for the merged per-file lists. */
  function Ranked(allResults: seq<Retrieved>, topKTotal: int): seq<Retrieved> {
    PyTake(QualityFiltered(SortBySimilarity(allResults)), topKTotal)
  }

  /** The global list is sorted by non-increasing similarity, no longer than
      `top_k_total`, made of good items of the merged lists, and it keeps
      every good item that fits: a good item left out is never more similar
      than the last one kept. */
  lemma RankedSpec(allResults: seq<Retrieved>, topKTotal: int)
    ensures var r := Ranked(allResults, topKTotal);
      && SortedBySimilarity(r)
      && (topKTotal >= 0 ==> |r| <= topKTotal)
      && (forall x :: x in r ==> x in allResults && GoodQuality(x))
      && (topKTotal >= 0 && |r| < topKTotal ==>
            forall x :: x in allResults && GoodQuality(x) ==> x in r)
  {
    var sorted := SortBySimilarity(allResults);
    SortBySimilaritySpec(allResults);
    QualityFilteredMembers(sorted);
    QualityFilteredSorted(sorted);
    var good := QualityFiltered(sorted);
    var r := Ranked(allResults, topKTotal);
    assert r <= good;
    forall x | x in r ensures x in allResults && GoodQuality(x) {
      assert x in good;
      assert x in multiset(sorted);
    }
    if topKTotal >= 0 && |r| < topKTotal {
      assert r == good;
      forall x | x in allResults && GoodQuality(x) ensures x in r {
        assert x in multiset(allResults);
        assert x in sorted;
      }
    }
  }

  /** `retrieve_all_available(query, top_k_total, min_similarity,
      use_openai)`, given the ids `list_all_indices` reports in listing
      order: `[]` when there are none; otherwise the per-file results
      (asked for `max(1, top_k_total // n)` each) merged, sorted, filtered
      and cut to `top_k_total`. */
  method RetrieveAllAvailable(store: VectorStore, query: String, listedIds: seq<String>, topKTotal: Option<int>,
                              minSimilarity: Option<real>, useOpenAi: bool, config: RagConfig,
                              enc: Encoders, backend: SearchBackend)
    returns (results: seq<Retrieved>, ghost perFile: map<String, seq<Retrieved>>)
    requires store.Valid()
    modifies store
    ensures store.Valid()
    ensures listedIds == [] ==> results == []
    ensures listedIds != [] ==>
      && perFile.Keys == set id | id in listedIds
      && (forall id :: id in perFile ==>
            perFile[id] == KeepSimilar(
              SearchResults(old(store.Current(id)), QueryVector(query, useOpenAi, config, enc),
                            PerFileTopK(topKTotal.GetOr(config.topK * 2), |listedIds|), backend),
              minSimilarity.GetOr(config.minSimilarity), query, id))
      && results == Ranked(Merged(perFile, Dedup(listedIds)), topKTotal.GetOr(config.topK * 2))
    ensures forall id :: store.Current(id) == old(store.Current(id))
    ensures store.indexFiles == old(store.indexFiles) && store.metadataFiles == old(store.metadataFiles)
    ensures store.embeddingFiles == old(store.embeddingFiles)
  {
    var total := topKTotal.GetOr(config.topK * 2);
    var threshold := minSimilarity.GetOr(config.minSimilarity);
    if listedIds == [] {
      return [], map[];
    }
    var perFileTopK := if FloorDiv(total, |listedIds|) > 1 then FloorDiv(total, |listedIds|) else 1;
    var multi := RetrieveFromMultipleFiles(store, query, listedIds, Some(perFileTopK), Some(threshold), useOpenAi,
                                           config, enc, backend);
    perFile := multi;
    var allResults := MergeResults(multi, Dedup(listedIds));
    var sorted := SortBySimilarity(allResults);
    var kept := FilterQuality(sorted);
    results := PyTake(kept, total);
  }

  /** Every result of a global retrieval reached the similarity threshold
      and came from one of the listed files. */
  lemma MergedThreshold(multi: map<String, seq<Retrieved>>, ids: seq<String>, threshold: real,
                        searches: String -> seq<Hit>, query: String, topKTotal: int)
    requires forall id :: id in ids ==> id in multi
    requires forall id :: id in multi ==> multi[id] == KeepSimilar(searches(id), threshold, query, id)
    ensures forall x :: x in Ranked(Merged(multi, ids), topKTotal) ==>
      x.hit.similarity >= threshold && x.query == query && x.fileId in ids && x.hit in searches(x.fileId)
  {
    RankedSpec(Merged(multi, ids), topKTotal);
    MergedSpec(multi, ids);
    forall x | x in Ranked(Merged(multi, ids), topKTotal)
      ensures x.hit.similarity >= threshold && x.query == query && x.fileId in ids && x.hit in searches(x.fileId)
    {
      var id :| id in ids && x in multi[id];
      KeepSimilarSpec(searches(id), threshold, query, id);
    }
  }

  // ---------------------------------------------------------------------
  // format_context_for_rag
  // ---------------------------------------------------------------------

  /** One entry of `cited_segments`. */
  datatype Cited = Cited(index: nat, text: String, fileName: String, segmentId: String, similarity: real)

  /** The context text of result `i`: `f"{i+1}. {text}"`. */
  function PartOf(results: seq<Retrieved>, i: nat): String
    requires i < |results|
  {
    NatToString(i + 1) + ". " + TextOf(results[i])
  }

  function CitedOf(results: seq<Retrieved>, i: nat): Cited
    requires i < |results|
  {
    var m := results[i].hit.metadata;
    Cited(i + 1, TextOf(results[i]), m.fileName, m.segmentId, results[i].hit.similarity)
  }

  /** The parts of the first `k` results. */
  function Parts(results: seq<Retrieved>, k: nat): seq<String>
    requires k <= |results|
  {
    seq(k, i requires 0 <= i < k => PartOf(results, i))
  }

  /** How many results fit: scanning from `i` with `current` characters
      used, stop at the first part that would push the total past
      `maxLength`. */
  function FitCount(results: seq<Retrieved>, maxLength: int, i: nat, current: int): (k: nat)
    requires i <= |results|
    ensures i <= k <= |results|
    decreases |results| - i
  {
    if i == |results| then i
    else if current + |PartOf(results, i)| > maxLength then i
    else FitCount(results, maxLength, i + 1, current + |PartOf(results, i)|)
  }

  /** The separator: the four characters backslash, `n`, backslash, `n`. */
  const Separator: String := ['\\', 'n', '\\', 'n']

  /** The message returned for an empty result list. */
  const NothingFound: String := "没有找到相关资料。"

  /** `format_context_for_rag(retrieval_results, max_length)` */
  method FormatContextForRag(results: seq<Retrieved>, maxLength: Option<int>, config: RagConfig)
    returns (context: String, cited: seq<Cited>)
    ensures results == [] ==> context == NothingFound && cited == []
    ensures results != [] ==>
      var limit := maxLength.GetOr(config.maxContextLength);
      var k := FitCount(results, limit, 0, 0);
      && cited == seq(k, i requires 0 <= i < k => CitedOf(results, i))
      && context == Join(Parts(results, k), Separator)
  {
    var limit := maxLength.GetOr(config.maxContextLength);
    if results == [] {
      return NothingFound, [];
    }
    var contextParts: seq<String> := [];
    cited := [];
    var currentLength := 0;
    var i := 0;
    while i < |results|
      invariant 0 <= i <= |results|
      invariant |contextParts| == i && forall j :: 0 <= j < i ==> contextParts[j] == PartOf(results, j)
      invariant |cited| == i && forall j :: 0 <= j < i ==> cited[j] == CitedOf(results, j)
      invariant currentLength == TotalLength(contextParts)
      invariant FitCount(results, limit, i, currentLength) == FitCount(results, limit, 0, 0)
    {
      var m := results[i].hit.metadata;
      var text := TextOf(results[i]);
      var segmentInfo := Cited(i + 1, text, m.fileName, m.segmentId, results[i].hit.similarity);
      var contextText := NatToString(i + 1) + ". " + text;
      if currentLength + |contextText| > limit {
        break;
      }
      TotalLengthAppend(contextParts, [contextText]);
      contextParts := contextParts + [contextText];
      cited := cited + [segmentInfo];
      currentLength := currentLength + |contextText|;
      i := i + 1;
    }
    assert contextParts == Parts(results, i);
    assert cited == seq(i, j requires 0 <= j < i => CitedOf(results, j));
    context := Join(contextParts, Separator);
  }

  /** What the context holds: the cited entries are numbered 1, 2, ... in
      step with the parts, which are the texts of a prefix of the results;
      the parts add up to at most `max_length` (when any fit) and the next
      result would not have fitted; the joined text is that sum plus four
      characters per separator. */
  lemma {:induction false} FitCountSpec(results: seq<Retrieved>, maxLength: int, i: nat, current: int)
    requires i <= |results|
    requires current == TotalLength(Parts(results, i))
    requires current <= maxLength || i == 0
    ensures var k := FitCount(results, maxLength, i, current);
      && (TotalLength(Parts(results, k)) <= maxLength || k == 0)
      && (k < |results| ==> TotalLength(Parts(results, k)) + |PartOf(results, k)| > maxLength)
    decreases |results| - i
  {
    if i < |results| && current + |PartOf(results, i)| <= maxLength {
      assert Parts(results, i + 1) == Parts(results, i) + [PartOf(results, i)];
      TotalLengthAppend(Parts(results, i), [PartOf(results, i)]);
      FitCountSpec(results, maxLength, i + 1, current + |PartOf(results, i)|);
    }
  }

  lemma FormatContextSpec(results: seq<Retrieved>, maxLength: int)
    ensures var k := FitCount(results, maxLength, 0, 0);
      && k <= |results|
      && (TotalLength(Parts(results, k)) <= maxLength || k == 0)
      && (k < |results| ==> TotalLength(Parts(results, k)) + |PartOf(results, k)| > maxLength)
      && (k > 0 ==> |Join(Parts(results, k), Separator)| == TotalLength(Parts(results, k)) + 4 * (k - 1))
      && forall i :: 0 <= i < k ==> CitedOf(results, i).index == i + 1 && CitedOf(results, i).text == TextOf(results[i])
  {
    assert Parts(results, 0) == [];
    FitCountSpec(results, maxLength, 0, 0);
    var k := FitCount(results, maxLength, 0, 0);
    JoinLength(Parts(results, k), Separator);
  }

  /** A result whose stored preview is `text`. */
  function WithText(text: String): Retrieved {
    Retrieved(Hit(1, 0.5, 0.5, SegmentMeta("s", "f", 0, [], "a.txt", |text|, "", text)), "q", "f")
  }

  /** The length limit bounds the parts but not the joined text: two
      one-character previews make two parts of 4 characters that fill a limit
      of 8 exactly, and the separator brings the context to 12. */
  lemma ContextCanExceedLimit()
    ensures var results := [WithText("x"), WithText("y")];
      var k := FitCount(results, 8, 0, 0);
      && k == 2
      && TotalLength(Parts(results, k)) == 8
      && |Join(Parts(results, k), Separator)| == 12
  {
    var results := [WithText("x"), WithText("y")];
    assert NatToString(1) == "1" && NatToString(2) == "2";
    assert PartOf(results, 0) == "1. x";
    assert PartOf(results, 1) == "2. y";
    assert FitCount(results, 8, 2, 8) == 2;
    assert FitCount(results, 8, 1, 4) == 2;
    assert Parts(results, 2) == ["1. x", "2. y"];
    assert Join(["1. x", "2. y"], Separator) == "1. x" + Separator + "2. y";
  }
}
