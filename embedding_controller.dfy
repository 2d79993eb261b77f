/** The embedding controller: which file id a request means, when an index
    is built, kept or rebuilt, and the min-score filtering of searches. */
module EmbeddingController {
  import opened Wrappers
  import opened Text
  import opened Embedding
  import opened SegmentSplit
  import opened Stores
  import opened VectorStore

  // ---------------------------------------------------------------------
  // _resolve_file_id
  // ---------------------------------------------------------------------

  /** `_resolve_file_id(file_id)`: the id itself when it has segments, else
      the file id of the parse record with that id; failing both the id is
      kept, whether or not a parse record of that file exists. */
  function ResolveFileId(segs: seq<SegmentRecord>, parses: seq<ParseRecord>, fileId: String): String {
    if FileSegments(segs, fileId) != [] then fileId
    else
      match ParseById(parses, fileId)
      case Some(p) => p.fileId
      case None => fileId
  }

  /** The id is replaced only when it has no segments and names a parse
      record, and then by that record's file id. */
  lemma ResolveFileIdSpec(segs: seq<SegmentRecord>, parses: seq<ParseRecord>, fileId: String)
    ensures FileSegments(segs, fileId) != [] ==> ResolveFileId(segs, parses, fileId) == fileId
    ensures (forall k :: 0 <= k < |parses| ==> parses[k].id != fileId) ==> ResolveFileId(segs, parses, fileId) == fileId
    ensures ResolveFileId(segs, parses, fileId) != fileId ==>
      FileSegments(segs, fileId) == [] &&
      exists k :: 0 <= k < |parses| && parses[k].id == fileId && parses[k].fileId == ResolveFileId(segs, parses, fileId)
  {
    var p := ParseById(parses, fileId);
    if FileSegments(segs, fileId) == [] && p.Some? {
      var k :| 0 <= k < |parses| && parses[k] == p.value;
    }
  }

  // ---------------------------------------------------------------------
  // create_embeddings
  // ---------------------------------------------------------------------

  /** Why a request fails. */
  datatype Problem = NoSegments | EncodingFailed | StorageFailed | NoIndex

  datatype Outcome<+T> = Succeeded(data: T) | Failed(problem: Problem)

  /** The data of a successful `create_embeddings`: the count and dimension
      reported, the index info, and whether the index already existed. */
  datatype Created = Created(fileId: String, embeddedCount: nat, embeddingDimension: nat, indexInfo: IndexInfo,
                             alreadyExisted: bool)

  /** A stored segment as handed to the embedding service, its `created_at`
      serialised by `createdAt`. */
  function StoredOf(r: SegmentRecord, createdAt: String -> String): StoredSegment {
    StoredSegment(r.segmentId, r.fileId, r.order, r.text, r.fileName, r.tags, createdAt(r.segmentId))
  }

  function StoredSegments(segments: seq<SegmentRecord>, createdAt: String -> String): seq<StoredSegment> {
    seq(|segments|, k requires 0 <= k < |segments| => StoredOf(segments[k], createdAt))
  }

  /** The rows and metadata `encode_segments` produces for a file's segments. */
  function FileRows(segs: seq<SegmentRecord>, fileId: String, createdAt: String -> String,
                    model: seq<String> -> Option<seq<Vector>>, embeddingDim: nat): seq<Vector> {
    BatchRows(StrippedTexts(StoredSegments(FileSegments(segs, fileId), createdAt)), model, embeddingDim)
  }

  function FileMetadata(segs: seq<SegmentRecord>, fileId: String, createdAt: String -> String): seq<SegmentMeta> {
    SegmentMetadata(StoredSegments(FileSegments(segs, fileId), createdAt))
  }

  /** A rebuilt index holds one row and one metadata record per segment of
      the file, all of the model's dimension, and nothing else. */
  lemma RebuiltIndex(segs: seq<SegmentRecord>, fileId: String, createdAt: String -> String,
                     model: seq<String> -> Option<seq<Vector>>, embeddingDim: nat)
    requires FileSegments(segs, fileId) != []
    ensures var rows := FileRows(segs, fileId, createdAt, model, embeddingDim);
      var metas := FileMetadata(segs, fileId, createdAt);
      && |rows| == |metas| == |FileSegments(segs, fileId)|
      && Appended(None, rows, metas) == Some(Stored(Index(InnerProduct, embeddingDim, rows), metas))
      && (forall k :: 0 <= k < |rows| ==> |rows[k]| == embeddingDim)
  {
    var texts := StrippedTexts(StoredSegments(FileSegments(segs, fileId), createdAt));
    BatchRowsShape(texts, model, embeddingDim);
    BatchRowsWidth(texts, model, embeddingDim);
    var rows := FileRows(segs, fileId, createdAt, model, embeddingDim);
    AppendedSpec(None, rows, FileMetadata(segs, fileId, createdAt));
  }

  /** Lines 165-176 of `create_embeddings` with `recreate`: the old index
      is deleted, then the rows are added to a fresh one. */
  method RecreateIndex(store: VectorStore, fileId: String, embeddings: seq<Vector>, metadata: seq<SegmentMeta>,
                       save: SaveOutcome)
    returns (ok: bool)
    requires store.Valid()
    requires Rectangular(embeddings) && |embeddings| == |metadata| > 0
    modifies store
    ensures store.Valid()
    ensures var next := Appended(None, embeddings, metadata).value;
      && ok
      && store.Current(fileId) == Some(next)
      && (forall id :: id != fileId ==> store.Current(id) == old(store.Current(id)))
      && store.indexCache == old(store.indexCache)[fileId := next.index]
      && store.metadataCache == old(store.metadataCache)[fileId := next.metadata]
      && store.indexFiles == (if save != IndexWriteFails then old(store.indexFiles)[fileId := next.index]
                              else old(store.indexFiles) - {fileId})
      && store.metadataFiles == (if save == Saved then old(store.metadataFiles)[fileId := next.metadata]
                                 else old(store.metadataFiles) - {fileId})
      && store.embeddingFiles == old(store.embeddingFiles) - {fileId}
  {
    var _ := store.DeleteIndex(fileId);
    ok := store.AddVectors(fileId, embeddings, metadata, save);
    ghost var next := Appended(None, embeddings, metadata).value;
    RemoveThenSet(old(store.indexCache), fileId, next.index);
    RemoveThenSet(old(store.metadataCache), fileId, next.metadata);
    RemoveThenSet(old(store.indexFiles), fileId, next.index);
    RemoveThenSet(old(store.metadataFiles), fileId, next.metadata);
  }

  /** Setting a key after removing it is the same as setting it. */
  lemma RemoveThenSet<V>(m: map<String, V>, k: String, v: V)
    ensures (m - {k})[k := v] == m[k := v]
  {
    assert (m - {k})[k := v].Keys == m[k := v].Keys;
  }

  /** Lines 165-176 of `create_embeddings` without `recreate`: the rows are
      appended to the file's current index, or to a new one. */
  method AppendToCurrent(store: VectorStore, fileId: String, embeddings: seq<Vector>, metadata: seq<SegmentMeta>,
                         save: SaveOutcome)
    returns (ok: bool)
    requires store.Valid()
    requires Rectangular(embeddings) && |embeddings| == |metadata| > 0
    modifies store
    ensures store.Valid()
    ensures var next := Appended(old(store.Current(fileId)), embeddings, metadata);
      && ok == next.Some?
      && (next.None? ==>
            && (forall id :: store.Current(id) == old(store.Current(id)))
            && store.indexFiles == old(store.indexFiles) && store.metadataFiles == old(store.metadataFiles)
            && store.embeddingFiles == old(store.embeddingFiles))
      && (next.Some? ==>
            && store.Current(fileId) == next
            && (forall id :: id != fileId ==> store.Current(id) == old(store.Current(id)))
            && store.indexCache == old(store.indexCache)[fileId := next.value.index]
            && store.metadataCache == old(store.metadataCache)[fileId := next.value.metadata]
            && store.indexFiles == (if save != IndexWriteFails then old(store.indexFiles)[fileId := next.value.index]
                                    else old(store.indexFiles))
            && store.metadataFiles == (if save == Saved then old(store.metadataFiles)[fileId := next.value.metadata]
                                       else old(store.metadataFiles))
            && store.embeddingFiles == old(store.embeddingFiles))
  {
    ok := store.AddVectors(fileId, embeddings, metadata, save);
  }

  /** `create_embeddings(file_id, recreate, batch_size)`; `batch_size` is
      accepted and never used. An index that exists is reported as it is
      unless `recreate`. A file without segments, or an empty embedding
      matrix, fails before the store changes. Otherwise the index is
      deleted first when `recreate`, the rows are added, and the new index
      is reported. `save` is how the disk write inside `add_vectors` ends. */
  method CreateEmbeddings(store: VectorStore, segs: seq<SegmentRecord>, parses: seq<ParseRecord>, fileId: String,
                          recreate: bool, batchSize: int, model: seq<String> -> Option<seq<Vector>>,
                          embeddingDim: nat, createdAt: String -> String, save: SaveOutcome)
    returns (r: Outcome<Created>)
    requires store.Valid()
    modifies store
    ensures store.Valid()
    ensures var actual := ResolveFileId(segs, parses, fileId);
      !recreate && old(store.IndexExists(actual)) ==>
        var s := old(store.Current(actual)).value;
        && r == Succeeded(Created(actual, |s.index.rows|, s.index.dim,
                                  Present(actual, |s.index.rows|, s.index.dim, |s.metadata|), true))
        && (forall id :: store.Current(id) == old(store.Current(id)))
        && store.indexFiles == old(store.indexFiles) && store.metadataFiles == old(store.metadataFiles)
        && store.embeddingFiles == old(store.embeddingFiles)
    ensures var actual := ResolveFileId(segs, parses, fileId);
      (recreate || !old(store.IndexExists(actual))) && (FileSegments(segs, actual) == [] || embeddingDim == 0) ==>
        && r == Failed(if FileSegments(segs, actual) == [] then NoSegments else EncodingFailed)
        && store.indexCache == old(store.indexCache) && store.metadataCache == old(store.metadataCache)
        && store.indexFiles == old(store.indexFiles) && store.metadataFiles == old(store.metadataFiles)
        && store.embeddingFiles == old(store.embeddingFiles)
    ensures var actual := ResolveFileId(segs, parses, fileId);
      (recreate || !old(store.IndexExists(actual))) && FileSegments(segs, actual) != [] && embeddingDim > 0 ==>
        var rows := FileRows(segs, actual, createdAt, model, embeddingDim);
        var next := Appended(if recreate then None else old(store.Current(actual)), rows,
                             FileMetadata(segs, actual, createdAt));
        && (next.None? ==>
              && r == Failed(StorageFailed)
              && (forall id :: store.Current(id) == old(store.Current(id)))
              && store.indexFiles == old(store.indexFiles) && store.metadataFiles == old(store.metadataFiles)
              && store.embeddingFiles == old(store.embeddingFiles))
        && (next.Some? ==>
              && store.Current(actual) == next
              && (forall id :: id != actual ==> store.Current(id) == old(store.Current(id)))
              && store.indexCache == old(store.indexCache)[actual := next.value.index]
              && store.metadataCache == old(store.metadataCache)[actual := next.value.metadata]
              && store.indexFiles == (if save != IndexWriteFails then old(store.indexFiles)[actual := next.value.index]
                                      else if recreate then old(store.indexFiles) - {actual}
                                      else old(store.indexFiles))
              && store.metadataFiles == (if save == Saved then old(store.metadataFiles)[actual := next.value.metadata]
                                         else if recreate then old(store.metadataFiles) - {actual}
                                         else old(store.metadataFiles))
              && store.embeddingFiles == (if recreate then old(store.embeddingFiles) - {actual}
                                          else old(store.embeddingFiles))
              && r == Succeeded(Created(actual, |rows|, embeddingDim,
                                        if save == IndexWriteFails then Absent
                                        else Present(actual, |next.value.index.rows|, next.value.index.dim,
                                                     |next.value.metadata|),
                                        false)))
  {
    var actualFileId := ResolveFileId(segs, parses, fileId);
    if !recreate && store.IndexExists(actualFileId) {
      var indexInfo := store.GetIndexInfo(actualFileId);
      return Succeeded(Created(actualFileId, indexInfo.vectorCount, indexInfo.embeddingDimension, indexInfo, true));
    }
    var segments := FileSegments(segs, actualFileId);
    if segments == [] {
      return Failed(NoSegments);
    }
    var serializedSegments := StoredSegments(segments, createdAt);
    var embeddings, metadata := EncodeSegments(serializedSegments, model, embeddingDim);
    BatchRowsShape(StrippedTexts(serializedSegments), model, embeddingDim);
    BatchRowsWidth(StrippedTexts(serializedSegments), model, embeddingDim);
    // `embeddings.size == 0`
    if |embeddings| == 0 || |embeddings[0]| == 0 {
      return Failed(EncodingFailed);
    }
    var success;
    if recreate {
      success := RecreateIndex(store, actualFileId, embeddings, metadata, save);
    } else {
      success := AppendToCurrent(store, actualFileId, embeddings, metadata, save);
    }
    if !success {
      return Failed(StorageFailed);
    }
    var indexInfo := store.GetIndexInfo(actualFileId);
    return Succeeded(Created(actualFileId, |embeddings|, |embeddings[0]|, indexInfo, false));
  }

  // ---------------------------------------------------------------------
  // search_embeddings and search_multiple_files
  // ---------------------------------------------------------------------

  /** `[result for result in results if result['similarity'] >= min_score]` */
  function AtLeast(hits: seq<Hit>, minScore: real): seq<Hit> {
    if hits == [] then []
    else
      var n := |hits| - 1;
      AtLeast(hits[..n], minScore) + (if hits[n].similarity >= minScore then [hits[n]] else [])
  }

  /** The filter never adds results. */
  lemma {:induction false} AtLeastLength(hits: seq<Hit>, minScore: real)
    ensures |AtLeast(hits, minScore)| <= |hits|
  {
    if hits != [] {
      AtLeastLength(hits[..|hits| - 1], minScore);
    }
  }

  /** Every result the filter keeps is one of the results and scores at
      least `minScore`. */
  lemma {:induction false} AtLeastSound(hits: seq<Hit>, minScore: real)
    ensures forall k :: 0 <= k < |AtLeast(hits, minScore)| ==>
      AtLeast(hits, minScore)[k] in hits && AtLeast(hits, minScore)[k].similarity >= minScore
  {
    if hits != [] {
      var n := |hits| - 1;
      AtLeastSound(hits[..n], minScore);
      var front := AtLeast(hits[..n], minScore);
      var r := AtLeast(hits, minScore);
      forall k | 0 <= k < |r| ensures r[k] in hits && r[k].similarity >= minScore {
        if k < |front| {
          assert r[k] == front[k];
          assert front[k] in hits[..n];
        } else {
          assert r[k] == hits[n];
        }
      }
    }
  }

  /** Every result scoring at least `minScore` is kept. */
  lemma {:induction false} AtLeastComplete(hits: seq<Hit>, minScore: real)
    ensures forall h :: h in hits && h.similarity >= minScore ==> h in AtLeast(hits, minScore)
  {
    if hits != [] {
      var n := |hits| - 1;
      AtLeastComplete(hits[..n], minScore);
      assert hits == hits[..n] + [hits[n]];
      forall h | h in hits && h.similarity >= minScore ensures h in AtLeast(hits, minScore) {
        if h != hits[n] {
          assert h in hits[..n];
        }
      }
    }
  }

  /** When every result scores at least `minScore`, the filter keeps them
      all, in their order. */
  lemma {:induction false} AtLeastAll(hits: seq<Hit>, minScore: real)
    requires forall k :: 0 <= k < |hits| ==> hits[k].similarity >= minScore
    ensures AtLeast(hits, minScore) == hits
  {
    if hits != [] {
      var n := |hits| - 1;
      AtLeastAll(hits[..n], minScore);
      assert hits == hits[..n] + [hits[n]];
    }
  }

  /** The data of a successful `search_embeddings`. */
  datatype FileMatches = FileMatches(query: String, fileId: String, totalResults: nat, results: seq<Hit>)

  /** `search_embeddings(file_id, query, top_k, min_score)`: fails without
      an index file; otherwise the file's results scoring at least
      `min_score`. `encoder` is the sentence encoder behind `encode_text`. */
  method SearchEmbeddings(store: VectorStore, segs: seq<SegmentRecord>, parses: seq<ParseRecord>, fileId: String,
                          query: String, topK: int, minScore: real, encoder: String -> Option<Vector>,
                          embeddingDim: nat, backend: SearchBackend)
    returns (r: Outcome<FileMatches>)
    requires store.Valid()
    modifies store
    ensures store.Valid()
    ensures var actual := ResolveFileId(segs, parses, fileId);
      && (!old(store.IndexExists(actual)) ==> r == Failed(NoIndex))
      && (old(store.IndexExists(actual)) ==>
            var hits := AtLeast(SearchResults(old(store.Current(actual)), EncodeText(query, encoder, embeddingDim),
                                              topK, backend), minScore);
            r == Succeeded(FileMatches(query, actual, |hits|, hits)))
    ensures forall id :: store.Current(id) == old(store.Current(id))
    ensures store.indexFiles == old(store.indexFiles) && store.metadataFiles == old(store.metadataFiles)
  {
    var actualFileId := ResolveFileId(segs, parses, fileId);
    if !store.IndexExists(actualFileId) {
      return Failed(NoIndex);
    }
    var queryVector := EncodeText(query, encoder, embeddingDim);
    var results := store.Search(actualFileId, queryVector, topK, backend);
    var filteredResults := AtLeast(results, minScore);
    return Succeeded(FileMatches(query, actualFileId, |filteredResults|, filteredResults));
  }

  /** The summed lengths of the lists under `keys`. */
  function SumLengths(m: map<String, seq<Hit>>, keys: seq<String>): nat
    requires forall k :: 0 <= k < |keys| ==> keys[k] in m
  {
    if keys == [] then 0
    else
      var n := |keys| - 1;
      SumLengths(m, keys[..n]) + |m[keys[n]]|
  }

  /** Filtering never adds results: the filtered total is at most the
      total found. */
  lemma {:induction false} SumLengthsFiltered(all: map<String, seq<Hit>>, filtered: map<String, seq<Hit>>,
                                              keys: seq<String>, minScore: real)
    requires forall k :: 0 <= k < |keys| ==> keys[k] in all && keys[k] in filtered
    requires forall id :: id in filtered && id in all ==> filtered[id] == AtLeast(all[id], minScore)
    ensures SumLengths(filtered, keys) <= SumLengths(all, keys)
  {
    if keys != [] {
      var n := |keys| - 1;
      SumLengthsFiltered(all, filtered, keys[..n], minScore);
      AtLeastLength(all[keys[n]], minScore);
    }
  }

  /** The loop of `search_multiple_files` over `all_results.items()`,
      whose keys come in the order `keys`. */
  method FilterEach(allResults: map<String, seq<Hit>>, keys: seq<String>, minScore: real)
    returns (filteredResults: map<String, seq<Hit>>, totalResults: nat)
    requires forall k :: 0 <= k < |keys| ==> keys[k] in allResults
    ensures filteredResults.Keys == set id | id in keys
    ensures forall id :: id in filteredResults ==> id in allResults && filteredResults[id] == AtLeast(allResults[id], minScore)
    ensures totalResults == SumLengths(filteredResults, keys)
  {
    filteredResults := map[];
    totalResults := 0;
    for i := 0 to |keys|
      invariant filteredResults.Keys == set id | id in keys[..i]
      invariant forall id :: id in filteredResults ==> id in allResults && filteredResults[id] == AtLeast(allResults[id], minScore)
      invariant totalResults == SumLengths(filteredResults, keys[..i])
    {
      assert keys[..i + 1] == keys[..i] + [keys[i]];
      var filtered := AtLeast(allResults[keys[i]], minScore);
      SumLengthsUpdate(filteredResults, keys[..i], keys[i], filtered);
      filteredResults := filteredResults[keys[i] := filtered];
      totalResults := totalResults + |filtered|;
    }
    assert keys[..|keys|] == keys;
  }

  /** Setting a key to a value it already had, or a key not yet summed,
      changes the sum over the earlier keys by nothing. */
  lemma {:induction false} SumLengthsUpdate(m: map<String, seq<Hit>>, keys: seq<String>, key: String, value: seq<Hit>)
    requires forall k :: 0 <= k < |keys| ==> keys[k] in m
    requires key in m ==> m[key] == value
    ensures forall k :: 0 <= k < |keys + [key]| ==> (keys + [key])[k] in m[key := value]
    ensures SumLengths(m[key := value], keys + [key]) == SumLengths(m, keys) + |value|
  {
    assert (keys + [key])[..|keys|] == keys;
    SumLengthsSame(m, m[key := value], keys);
  }

  lemma {:induction false} SumLengthsSame(m: map<String, seq<Hit>>, m': map<String, seq<Hit>>, keys: seq<String>)
    requires forall k :: 0 <= k < |keys| ==> keys[k] in m && keys[k] in m' && m[keys[k]] == m'[keys[k]]
    ensures SumLengths(m, keys) == SumLengths(m', keys)
  {
    if keys != [] {
      SumLengthsSame(m, m', keys[..|keys| - 1]);
    }
  }

  /** `[self._resolve_file_id(fid) for fid in file_ids]` */
  function ResolvedIds(segs: seq<SegmentRecord>, parses: seq<ParseRecord>, fileIds: seq<String>): seq<String> {
    seq(|fileIds|, k requires 0 <= k < |fileIds| => ResolveFileId(segs, parses, fileIds[k]))
  }

  /** The data of `search_multiple_files`. */
  datatype MultiMatches = MultiMatches(query: String, searchedFiles: nat, totalResults: nat, results: map<String, seq<Hit>>)

  /** `search_multiple_files(file_ids, query, top_k, min_score)`: one entry
      per resolved id, the results scoring at least `min_score` (none for
      an id without an index file), and their total count. */
  method SearchMultipleFiles(store: VectorStore, segs: seq<SegmentRecord>, parses: seq<ParseRecord>,
                             fileIds: seq<String>, query: String, topK: int, minScore: real,
                             encoder: String -> Option<Vector>, embeddingDim: nat, backend: SearchBackend)
    returns (r: MultiMatches)
    requires store.Valid()
    modifies store
    ensures store.Valid()
    ensures var actual := ResolvedIds(segs, parses, fileIds);
      && r.query == query && r.searchedFiles == |fileIds|
      && r.results.Keys == set id | id in actual
      && (forall id :: id in r.results ==>
            r.results[id] == AtLeast(if old(store.IndexExists(id))
                                     then SearchResults(old(store.Current(id)), EncodeText(query, encoder, embeddingDim),
                                                        topK, backend)
                                     else [], minScore))
      && (forall k :: 0 <= k < |Dedup(actual)| ==> Dedup(actual)[k] in r.results)
      && r.totalResults == SumLengths(r.results, Dedup(actual))
    ensures forall id :: store.Current(id) == old(store.Current(id))
    ensures store.indexFiles == old(store.indexFiles) && store.metadataFiles == old(store.metadataFiles)
  {
    var actualFileIds := ResolvedIds(segs, parses, fileIds);
    var queryVector := EncodeText(query, encoder, embeddingDim);
    var allResults := store.SearchMultipleFiles(actualFileIds, queryVector, topK, backend);
    var keys := Dedup(actualFileIds);
    DedupSpec(actualFileIds);
    assert forall k :: 0 <= k < |keys| ==> keys[k] in keys;
    var filteredResults, totalResults := FilterEach(allResults, keys, minScore);
    return MultiMatches(query, |actualFileIds|, totalResults, filteredResults);
  }
}
