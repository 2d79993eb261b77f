/** The per-file vector store: one flat index and one metadata list per file
    id, kept in an in-memory cache in front of a persisted copy. The FAISS
    nearest-neighbour search is an oracle; the files on disk are maps. */
module VectorStore {
  import opened Wrappers
  import opened Text
  import opened Embedding

  /** The similarity of a flat index: inner product (used for "cosine" and
      "ip") or Euclidean distance. */
  datatype Metric = InnerProduct | L2

  /** A flat FAISS index: its dimension `d` and its rows; `ntotal` is
      `|rows|`. */
  datatype Index = Index(metric: Metric, dim: nat, rows: seq<Vector>)

  /** An index with the metadata list kept beside it. */
  datatype Stored = Stored(index: Index, metadata: seq<SegmentMeta>)

  /** One search result: the 1-based position in the backend answer, the
      score (reported twice) and the metadata of the row found. */
  datatype Hit = Hit(rank: nat, score: real, similarity: real, metadata: SegmentMeta)

  /** `index.search(query, k)` for a single query: `k` pairs of score and row
      number, -1 where fewer than `k` rows exist. */
  type SearchBackend = (Index, Vector, nat) -> seq<(real, int)>

  /** How a disk write ends: both files written, the index write raising, or
      the metadata write raising after the index file was written. */
  datatype SaveOutcome = Saved | IndexWriteFails | MetadataWriteFails

  /** What `get_index_info` reports. */
  datatype IndexInfo =
    | Absent
    | Present(fileId: String, vectorCount: nat, embeddingDimension: nat, metadataCount: nat)

  /** `create_index(embedding_dim, metric)` */
  function CreateIndex(embeddingDim: nat, metric: String): (r: Result<Index>)
    ensures r.Ok? <==> metric in {"cosine", "l2", "ip"}
    ensures r.Ok? ==> r.value.dim == embeddingDim && r.value.rows == []
    ensures r.Ok? ==> (r.value.metric == L2 <==> metric == "l2")
  {
    if metric == "cosine" then Ok(Index(InnerProduct, embeddingDim, []))
    else if metric == "l2" then Ok(Index(L2, embeddingDim, []))
    else if metric == "ip" then Ok(Index(InnerProduct, embeddingDim, []))
    else Err("unsupported metric")
  }

  /** A two-dimensional array: every row as long as the first. */
  predicate Rectangular(embeddings: seq<Vector>) {
    forall k :: 0 <= k < |embeddings| ==> |embeddings[k]| == |embeddings[0]|
  }

  /** The state `add_vectors` leaves for a file: the existing index and
      metadata (or a fresh cosine index) with the new rows and records
      appended; `None` when `index.add` rejects rows of another dimension. */
  function Appended(existing: Option<Stored>, embeddings: seq<Vector>, metadata: seq<SegmentMeta>): Option<Stored>
    requires |embeddings| > 0
  {
    var dim := |embeddings[0]|;
    var base := if existing.Some? then existing.value else Stored(Index(InnerProduct, dim, []), []);
    if base.index.dim != dim then None
    else Some(Stored(Index(base.index.metric, dim, base.index.rows + embeddings), base.metadata + metadata))
  }

  /** An add appends: the earlier rows and records are kept as they were, the
      new ones follow in order, and both lists grow by the number of rows
      added. It fails only on a dimension clash with an existing index. */
  lemma AppendedSpec(existing: Option<Stored>, embeddings: seq<Vector>, metadata: seq<SegmentMeta>)
    requires |embeddings| > 0
    ensures Appended(existing, embeddings, metadata).None? <==>
      existing.Some? && existing.value.index.dim != |embeddings[0]|
    ensures existing.None? ==>
      Appended(existing, embeddings, metadata) == Some(Stored(Index(InnerProduct, |embeddings[0]|, embeddings), metadata))
    ensures existing.Some? && Appended(existing, embeddings, metadata).Some? ==>
      var old_ := existing.value;
      var new_ := Appended(existing, embeddings, metadata).value;
      && new_.index.metric == old_.index.metric && new_.index.dim == old_.index.dim
      && |new_.index.rows| == |old_.index.rows| + |embeddings|
      && |new_.metadata| == |old_.metadata| + |metadata|
      && new_.index.rows[..|old_.index.rows|] == old_.index.rows
      && new_.index.rows[|old_.index.rows|..] == embeddings
      && new_.metadata[..|old_.metadata|] == old_.metadata
      && new_.metadata[|old_.metadata|..] == metadata
  {
    if existing.None? {
      assert [] + embeddings == embeddings && [] + metadata == metadata;
    } else if Appended(existing, embeddings, metadata).Some? {
      var o := existing.value.index.rows;
      var m := existing.value.metadata;
      assert (o + embeddings)[..|o|] == o;
      assert (o + embeddings)[|o|..] == embeddings;
      assert (m + metadata)[..|m|] == m;
      assert (m + metadata)[|m|..] == metadata;
    }
  }

  // ---------------------------------------------------------------------
  // search: turning the backend answer into results
  // ---------------------------------------------------------------------

  /** What `metadata[idx]` gives for one backend row number. */
  datatype Lookup = Skip | Found(meta: SegmentMeta) | Raises

  /** -1 and numbers past the metadata are skipped; other negative numbers
      index from the end as Python does, and raise below `-len(metadata)`. */
  function LookUp(metadata: seq<SegmentMeta>, idx: int): Lookup {
    if idx == -1 || idx >= |metadata| then Skip
    else if idx >= 0 then Found(metadata[idx])
    else if |metadata| + idx >= 0 then Found(metadata[|metadata| + idx])
    else Raises
  }

  /** The result list built from a backend answer, `None` when a lookup
      raises. */
  function HitsOf(answer: seq<(real, int)>, metadata: seq<SegmentMeta>): Option<seq<Hit>> {
    if answer == [] then Some([])
    else
      var n := |answer| - 1;
      match HitsOf(answer[..n], metadata)
      case None => None
      case Some(hits) =>
        match LookUp(metadata, answer[n].1)
        case Skip => Some(hits)
        case Raises => None
        case Found(m) => Some(hits + [Hit(n + 1, answer[n].0, answer[n].0, m)])
  }

  /** A row number the FAISS backend can return for an index of `ntotal`
      rows. */
  predicate BackendRowNumber(idx: int, ntotal: nat) {
    -1 <= idx < ntotal
  }

  /** Every result comes from the backend position `rank - 1`: same score,
      reported as similarity too, and the metadata of the row found there.
      Ranks strictly increase, so the results keep backend order. */
  lemma {:induction false} HitsOfSound(answer: seq<(real, int)>, metadata: seq<SegmentMeta>)
    requires HitsOf(answer, metadata).Some?
    ensures var hits := HitsOf(answer, metadata).value;
      && |hits| <= |answer|
      && (forall k :: 0 <= k < |hits| ==>
            1 <= hits[k].rank <= |answer|
            && hits[k].score == hits[k].similarity == answer[hits[k].rank - 1].0
            && LookUp(metadata, answer[hits[k].rank - 1].1) == Found(hits[k].metadata))
      && (forall k, l :: 0 <= k < l < |hits| ==> hits[k].rank < hits[l].rank)
  {
    if answer != [] {
      HitsOfSound(answer[..|answer| - 1], metadata);
    }
  }

  /** Against a FAISS answer (row numbers -1 or within the index) nothing
      raises, and every position whose row has metadata yields a result. */
  lemma {:induction false} HitsOfComplete(answer: seq<(real, int)>, metadata: seq<SegmentMeta>, ntotal: nat)
    requires forall i :: 0 <= i < |answer| ==> BackendRowNumber(answer[i].1, ntotal)
    ensures HitsOf(answer, metadata).Some?
    ensures forall i :: 0 <= i < |answer| && 0 <= answer[i].1 < |metadata| ==>
      exists k :: 0 <= k < |HitsOf(answer, metadata).value| && HitsOf(answer, metadata).value[k].rank == i + 1
  {
    if answer != [] {
      var n := |answer| - 1;
      HitsOfComplete(answer[..n], metadata, ntotal);
      var hits := HitsOf(answer[..n], metadata).value;
      var all := HitsOf(answer, metadata).value;
      assert all[..|hits|] == hits;
      forall i | 0 <= i < |answer| && 0 <= answer[i].1 < |metadata|
        ensures exists k :: 0 <= k < |all| && all[k].rank == i + 1
      {
        if i < n {
          assert answer[..n][i] == answer[i];
          var k :| 0 <= k < |hits| && hits[k].rank == i + 1;
          assert all[k] == hits[k];
        } else {
          assert all[|all| - 1].rank == i + 1;
        }
      }
    }
  }

  /** `search(file_id, query_vector, top_k)` given the file's current state:
      `[]` for a missing or empty index and whenever FAISS or a lookup raises
      (a query of the wrong dimension, a non-positive `k`). */
  function SearchResults(stored: Option<Stored>, query: Vector, topK: int, backend: SearchBackend): seq<Hit> {
    match stored
    case None => []
    case Some(s) =>
      var ntotal := |s.index.rows|;
      if ntotal == 0 then []
      else
        var actualK := if topK < ntotal then topK else ntotal;
        if actualK < 1 || |query| != s.index.dim then []
        else
          match HitsOf(backend(s.index, query, actualK as nat), s.metadata)
          case None => []
          case Some(hits) => hits
  }

  /** The number of results is bounded by `min(top_k, ntotal)` when the
      backend answers with `k` pairs, as FAISS does. */
  lemma SearchResultsBound(s: Stored, query: Vector, topK: int, backend: SearchBackend)
    requires var ntotal := |s.index.rows|;
      var actualK := if topK < ntotal then topK else ntotal;
      actualK >= 1 ==> |backend(s.index, query, actualK as nat)| == actualK
    ensures |SearchResults(Some(s), query, topK, backend)| <= |s.index.rows|
    ensures |SearchResults(Some(s), query, topK, backend)| <= if topK < 0 then 0 else topK
  {
    var ntotal := |s.index.rows|;
    var actualK := if topK < ntotal then topK else ntotal;
    if ntotal > 0 && actualK >= 1 && |query| == s.index.dim {
      var answer := backend(s.index, query, actualK as nat);
      if HitsOf(answer, s.metadata).Some? {
        HitsOfSound(answer, s.metadata);
      }
    }
  }

  /** The results of a search are backend positions whose row has
      metadata: each carries `metadata[idx]` for a row number `idx` inside
      the metadata, and ranks increase. */
  lemma SearchResultsSound(s: Stored, query: Vector, topK: int, backend: SearchBackend)
    requires var ntotal := |s.index.rows|;
      var actualK := if topK < ntotal then topK else ntotal;
      var answer := backend(s.index, query, if actualK < 0 then 0 else actualK as nat);
      actualK >= 1 ==> forall i :: 0 <= i < |answer| ==> BackendRowNumber(answer[i].1, ntotal)
    ensures var hits := SearchResults(Some(s), query, topK, backend);
      && (forall k :: 0 <= k < |hits| ==>
            hits[k].score == hits[k].similarity
            && exists idx :: 0 <= idx < |s.metadata| && hits[k].metadata == s.metadata[idx])
      && (forall k, l :: 0 <= k < l < |hits| ==> hits[k].rank < hits[l].rank)
  {
    var ntotal := |s.index.rows|;
    var actualK := if topK < ntotal then topK else ntotal;
    if ntotal > 0 && actualK >= 1 && |query| == s.index.dim {
      var answer := backend(s.index, query, actualK as nat);
      HitsOfComplete(answer, s.metadata, ntotal);
      HitsOfSound(answer, s.metadata);
      var hits := HitsOf(answer, s.metadata).value;
      assert SearchResults(Some(s), query, topK, backend) == hits;
      forall k | 0 <= k < |hits|
        ensures exists idx :: 0 <= idx < |s.metadata| && hits[k].metadata == s.metadata[idx]
      {
        var idx := answer[hits[k].rank - 1].1;
        assert BackendRowNumber(idx, ntotal);
        assert LookUp(s.metadata, idx) == Found(hits[k].metadata);
        assert 0 <= idx < |s.metadata| && hits[k].metadata == s.metadata[idx];
      }
    } else {
      assert SearchResults(Some(s), query, topK, backend) == [];
    }
  }

  /** Once a lookup raises, the rest of the answer does not matter. */
  lemma {:induction false} HitsOfRaises(answer: seq<(real, int)>, metadata: seq<SegmentMeta>, i: nat)
    requires i <= |answer| && HitsOf(answer[..i], metadata).None?
    ensures HitsOf(answer, metadata).None?
  {
    if i < |answer| {
      var n := |answer| - 1;
      assert answer[..n][..i] == answer[..i];
      HitsOfRaises(answer[..n], metadata, i);
    } else {
      assert answer[..i] == answer;
    }
  }

  /** The result loop of `search`. */
  method CollectHits(answer: seq<(real, int)>, metadata: seq<SegmentMeta>) returns (results: Option<seq<Hit>>)
    ensures results == HitsOf(answer, metadata)
  {
    var hits: seq<Hit> := [];
    for i := 0 to |answer|
      invariant HitsOf(answer[..i], metadata) == Some(hits)
    {
      assert answer[..i + 1][..i] == answer[..i];
      var (distance, idx) := answer[i];
      if idx == -1 {
        continue;
      }
      if idx >= |metadata| {
        continue;
      }
      if idx < 0 && |metadata| + idx < 0 {
        HitsOfRaises(answer, metadata, i + 1);
        return None;
      }
      var meta := if idx >= 0 then metadata[idx] else metadata[|metadata| + idx];
      hits := hits + [Hit(i + 1, distance, distance, meta)];
    }
    assert answer[..|answer|] == answer;
    return Some(hits);
  }

  // ---------------------------------------------------------------------
  // The store
  // ---------------------------------------------------------------------

  class VectorStore {
    /** `index_cache` and `metadata_cache` */
    var indexCache: map<String, Index>
    var metadataCache: map<String, seq<SegmentMeta>>
    /** `{file_id}.faiss`, `{file_id}_metadata.json` and
        `{file_id}_embeddings.pkl` under the base directory. */
    var indexFiles: map<String, Index>
    var metadataFiles: map<String, seq<SegmentMeta>>
    var embeddingFiles: set<String>

    /** The two caches always hold the same file ids. */
    predicate Valid()
      reads this
    {
      indexCache.Keys == metadataCache.Keys
    }

    /** What `load_index` reads from disk: the index file, and the metadata
        file or `[]` when it is missing. */
    function OnDisk(fileId: String): Option<Stored>
      reads this
    {
      if fileId in indexFiles then
        Some(Stored(indexFiles[fileId], if fileId in metadataFiles then metadataFiles[fileId] else []))
      else None
    }

    /** The state every operation works on: the cache first, else disk. */
    function Current(fileId: String): Option<Stored>
      reads this
      requires Valid()
    {
      if fileId in indexCache then Some(Stored(indexCache[fileId], metadataCache[fileId]))
      else OnDisk(fileId)
    }

    /** `index_exists(file_id)`: the index file is on disk. */
    predicate IndexExists(fileId: String)
      reads this
    {
      fileId in indexFiles
    }

    /** A store over the given directory contents, with empty caches. */
    constructor(indexFiles: map<String, Index>, metadataFiles: map<String, seq<SegmentMeta>>, embeddingFiles: set<String>)
      ensures Valid()
      ensures this.indexCache == map[] && this.metadataCache == map[]
      ensures this.indexFiles == indexFiles && this.metadataFiles == metadataFiles
      ensures this.embeddingFiles == embeddingFiles
    {
      this.indexCache := map[];
      this.metadataCache := map[];
      this.indexFiles := indexFiles;
      this.metadataFiles := metadataFiles;
      this.embeddingFiles := embeddingFiles;
    }

    /** `load_index(file_id)`: reads the disk copy into the cache, or raises
        when the index file is missing. */
    method LoadIndex(fileId: String) returns (r: Result<Stored>)
      requires Valid()
      modifies this
      ensures Valid()
      ensures r.Ok? <==> old(IndexExists(fileId))
      ensures r.Ok? ==> Some(r.value) == old(OnDisk(fileId))
      ensures r.Ok? ==>
        indexCache == old(indexCache)[fileId := r.value.index]
        && metadataCache == old(metadataCache)[fileId := r.value.metadata]
      ensures r.Err? ==> indexCache == old(indexCache) && metadataCache == old(metadataCache)
      ensures indexFiles == old(indexFiles) && metadataFiles == old(metadataFiles)
      ensures embeddingFiles == old(embeddingFiles)
    {
      if fileId !in indexFiles {
        return Err("index file does not exist");
      }
      var index := indexFiles[fileId];
      var metadata := if fileId in metadataFiles then metadataFiles[fileId] else [];
      indexCache := indexCache[fileId := index];
      metadataCache := metadataCache[fileId := metadata];
      return Ok(Stored(index, metadata));
    }

    /** `save_index(file_id, index, metadata)`: writes the index file, then
        the metadata file; a failing write stops there and gives False. */
    method SaveIndex(fileId: String, index: Index, metadata: seq<SegmentMeta>, outcome: SaveOutcome)
      returns (ok: bool)
      modifies this
      ensures ok <==> outcome == Saved
      ensures indexFiles == if outcome == IndexWriteFails then old(indexFiles) else old(indexFiles)[fileId := index]
      ensures metadataFiles == if outcome == Saved then old(metadataFiles)[fileId := metadata] else old(metadataFiles)
      ensures indexCache == old(indexCache) && metadataCache == old(metadataCache)
      ensures embeddingFiles == old(embeddingFiles)
    {
      if outcome == IndexWriteFails {
        return false;
      }
      indexFiles := indexFiles[fileId := index];
      if outcome == MetadataWriteFails {
        return false;
      }
      metadataFiles := metadataFiles[fileId := metadata];
      return true;
    }

    /** The first step of an add: the file's index and metadata from the
        cache, else loaded from disk into the cache, else a new empty
        inner-product index of the batch's dimension. No file's state
        changes. */
    method Fetch(fileId: String, embeddingDim: nat) returns (index: Index, existing: seq<SegmentMeta>)
      requires Valid()
      modifies this
      ensures Valid()
      ensures old(Current(fileId)).Some? ==> old(Current(fileId)) == Some(Stored(index, existing))
      ensures old(Current(fileId)).None? ==> index == Index(InnerProduct, embeddingDim, []) && existing == []
      ensures forall id :: Current(id) == old(Current(id))
      ensures indexCache == old(indexCache) || indexCache == old(indexCache)[fileId := index]
      ensures metadataCache == old(metadataCache) || metadataCache == old(metadataCache)[fileId := existing]
      ensures indexFiles == old(indexFiles) && metadataFiles == old(metadataFiles)
      ensures embeddingFiles == old(embeddingFiles)
    {
      if fileId in indexCache {
        return indexCache[fileId], metadataCache[fileId];
      }
      if IndexExists(fileId) {
        var loaded := LoadIndex(fileId);
        return loaded.value.index, loaded.value.metadata;
      }
      return Index(InnerProduct, embeddingDim, []), [];
    }

    /** `add_vectors(file_id, embeddings, metadata)`. Mismatched lengths give
        False and change nothing; an empty batch gives True and changes
        nothing. Otherwise the rows and records are appended to the current
        state, the cache is updated and the disk write attempted, and the
        answer is True whatever the write does. A dimension clash gives
        False after the file was possibly loaded into the cache. */
    method AddVectors(fileId: String, embeddings: seq<Vector>, metadata: seq<SegmentMeta>, save: SaveOutcome)
      returns (ok: bool)
      requires Valid()
      requires Rectangular(embeddings)
      modifies this
      ensures Valid()
      ensures |embeddings| != |metadata| || |embeddings| == 0 ==>
        ok == (|embeddings| == |metadata|)
        && indexCache == old(indexCache) && metadataCache == old(metadataCache)
        && indexFiles == old(indexFiles) && metadataFiles == old(metadataFiles)
      ensures |embeddings| == |metadata| > 0 ==>
        var next := Appended(old(Current(fileId)), embeddings, metadata);
        && ok == next.Some?
        && (next.Some? ==>
              && Current(fileId) == next
              && (forall id :: id != fileId ==> Current(id) == old(Current(id)))
              && indexCache == old(indexCache)[fileId := next.value.index]
              && metadataCache == old(metadataCache)[fileId := next.value.metadata]
              && indexFiles == (if save == IndexWriteFails then old(indexFiles)
                                else old(indexFiles)[fileId := next.value.index])
              && metadataFiles == (if save == Saved then old(metadataFiles)[fileId := next.value.metadata]
                                   else old(metadataFiles)))
        && (next.None? ==>
              && (forall id :: Current(id) == old(Current(id)))
              && indexFiles == old(indexFiles) && metadataFiles == old(metadataFiles))
      ensures embeddingFiles == old(embeddingFiles)
    {
      if |embeddings| != |metadata| {
        return false;
      }
      if |embeddings| == 0 {
        return true;
      }
      var embeddingDim := |embeddings[0]|;
      ghost var before := Current(fileId);
      var index, existingMetadata := Fetch(fileId, embeddingDim);
      if index.dim != embeddingDim {
        return false;
      }
      index := Index(index.metric, embeddingDim, index.rows + embeddings);
      var updatedMetadata := existingMetadata + metadata;
      CacheAndSave(fileId, index, updatedMetadata, save);
      return true;
    }

    /** The last step of an add: the cache takes the new state and the disk
        write is attempted; its outcome is not reported. */
    method CacheAndSave(fileId: String, index: Index, metadata: seq<SegmentMeta>, save: SaveOutcome)
      requires Valid()
      modifies this
      ensures Valid()
      ensures indexCache == old(indexCache)[fileId := index]
      ensures metadataCache == old(metadataCache)[fileId := metadata]
      ensures indexFiles == if save == IndexWriteFails then old(indexFiles) else old(indexFiles)[fileId := index]
      ensures metadataFiles == if save == Saved then old(metadataFiles)[fileId := metadata] else old(metadataFiles)
      ensures embeddingFiles == old(embeddingFiles)
      ensures Current(fileId) == Some(Stored(index, metadata))
      ensures forall id :: id != fileId ==> Current(id) == old(Current(id))
    {
      indexCache := indexCache[fileId := index];
      metadataCache := metadataCache[fileId := metadata];
      var _ := SaveIndex(fileId, index, metadata, save);
    }

    /** `search(file_id, query_vector, top_k)`: the results for the file's
        current state; loading it from disk changes no file's state. */
    method Search(fileId: String, queryVector: Vector, topK: int, backend: SearchBackend)
      returns (results: seq<Hit>)
      requires Valid()
      modifies this
      ensures Valid()
      ensures results == SearchResults(old(Current(fileId)), queryVector, topK, backend)
      ensures forall id :: Current(id) == old(Current(id))
      ensures indexFiles == old(indexFiles) && metadataFiles == old(metadataFiles)
      ensures embeddingFiles == old(embeddingFiles)
    {
      var stored: Stored;
      if fileId in indexCache {
        stored := Stored(indexCache[fileId], metadataCache[fileId]);
      } else {
        var loaded := LoadIndex(fileId);
        if loaded.Err? {
          return [];
        }
        stored := loaded.value;
      }
      var ntotal := |stored.index.rows|;
      if ntotal == 0 {
        return [];
      }
      var actualK := if topK < ntotal then topK else ntotal;
      if actualK < 1 || |queryVector| != stored.index.dim {
        return [];
      }
      var answer := backend(stored.index, queryVector, actualK as nat);
      var hits := CollectHits(answer, stored.metadata);
      results := if hits.Some? then hits.value else [];
    }

    /** `search_multiple_files(file_ids, query_vector, top_k)`: one entry per
        given id, `[]` for an id without an index file. */
    method SearchMultipleFiles(fileIds: seq<String>, queryVector: Vector, topK: int, backend: SearchBackend)
      returns (results: map<String, seq<Hit>>)
      requires Valid()
      modifies this
      ensures Valid()
      ensures results.Keys == set id | id in fileIds
      ensures forall id :: id in results ==>
        results[id] == if old(IndexExists(id)) then SearchResults(old(Current(id)), queryVector, topK, backend) else []
      ensures forall id :: Current(id) == old(Current(id))
      ensures indexFiles == old(indexFiles) && metadataFiles == old(metadataFiles)
      ensures embeddingFiles == old(embeddingFiles)
    {
      results := map[];
      for i := 0 to |fileIds|
        invariant Valid()
        invariant results.Keys == set id | id in fileIds[..i]
        invariant forall id :: id in results ==>
          results[id] == if old(IndexExists(id)) then SearchResults(old(Current(id)), queryVector, topK, backend) else []
        invariant forall id :: Current(id) == old(Current(id))
        invariant indexFiles == old(indexFiles) && metadataFiles == old(metadataFiles)
        invariant embeddingFiles == old(embeddingFiles)
      {
        assert fileIds[..i + 1] == fileIds[..i] + [fileIds[i]];
        var fileId := fileIds[i];
        if IndexExists(fileId) {
          var fileResults := Search(fileId, queryVector, topK, backend);
          results := results[fileId := fileResults];
        } else {
          results := results[fileId := []];
        }
      }
      assert fileIds[..|fileIds|] == fileIds;
    }

    /** `delete_index(file_id)`: drops both cache entries and all three
        files; always True, also when nothing was there. */
    method DeleteIndex(fileId: String) returns (ok: bool)
      requires Valid()
      modifies this
      ensures Valid()
      ensures ok
      ensures !IndexExists(fileId) && Current(fileId) == None
      ensures indexCache == old(indexCache) - {fileId} && metadataCache == old(metadataCache) - {fileId}
      ensures indexFiles == old(indexFiles) - {fileId} && metadataFiles == old(metadataFiles) - {fileId}
      ensures embeddingFiles == old(embeddingFiles) - {fileId}
      ensures forall id :: id != fileId ==> Current(id) == old(Current(id))
    {
      indexCache := indexCache - {fileId};
      metadataCache := metadataCache - {fileId};
      indexFiles := indexFiles - {fileId};
      metadataFiles := metadataFiles - {fileId};
      embeddingFiles := embeddingFiles - {fileId};
      return true;
    }

    /** `get_index_info(file_id)`: `{'exists': False}` without an index
        file, else the row count, dimension and metadata count of the
        current state (loading it into the cache when needed). */
    method GetIndexInfo(fileId: String) returns (info: IndexInfo)
      requires Valid()
      modifies this
      ensures Valid()
      ensures !old(IndexExists(fileId)) ==> info == Absent
      ensures old(IndexExists(fileId)) ==>
        var s := old(Current(fileId)).value;
        info == Present(fileId, |s.index.rows|, s.index.dim, |s.metadata|)
      ensures forall id :: Current(id) == old(Current(id))
      ensures fileId in old(indexCache) || !old(IndexExists(fileId)) ==>
        indexCache == old(indexCache) && metadataCache == old(metadataCache)
      ensures fileId !in old(indexCache) && old(IndexExists(fileId)) ==>
        indexCache == old(indexCache)[fileId := old(OnDisk(fileId)).value.index]
        && metadataCache == old(metadataCache)[fileId := old(OnDisk(fileId)).value.metadata]
      ensures indexFiles == old(indexFiles) && metadataFiles == old(metadataFiles)
      ensures embeddingFiles == old(embeddingFiles)
    {
      if !IndexExists(fileId) {
        return Absent;
      }
      var stored: Stored;
      if fileId in indexCache {
        stored := Stored(indexCache[fileId], metadataCache[fileId]);
      } else {
        var loaded := LoadIndex(fileId);
        stored := loaded.value;
      }
      return Present(fileId, |stored.index.rows|, stored.index.dim, |stored.metadata|);
    }

    /** `clear_cache()` */
    method ClearCache()
      modifies this
      ensures Valid()
      ensures indexCache == map[] && metadataCache == map[]
      ensures indexFiles == old(indexFiles) && metadataFiles == old(metadataFiles)
      ensures embeddingFiles == old(embeddingFiles)
    {
      indexCache := map[];
      metadataCache := map[];
    }
  }
}
