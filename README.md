# RAG-SYS core in Dafny

This project models the core of a retrieval-augmented generation (RAG) backend. Users upload
documents and the backend parses them into text. It cleans the text and cuts it into segments of
bounded length with overlapping joins. It tags each segment and stores the segments per file. It
embeds them as vectors and keeps one vector index per file, both in a cache and on disk. A query
is answered by encoding it, searching one file, several files or every indexed file, thresholding
and quality-filtering the hits, ranking them, and packing the best of them into a context of
bounded length for the answer generator. The generator's locally computed parts are also
modelled: the token count, the choice of answer type and the heuristic quality score.

One Dafny module corresponds to each source file:

- `SegmentSplit` and `SegmentTags` model `backend/services/segment_service.py`. The first holds
  text cleaning, splitting and overlap; the second holds tags, keywords and similarity.
- `Embedding` models `backend/services/embedding_service.py`.
- `VectorStore` models `backend/services/vector_store.py`.
- `Retriever` models `backend/services/retriever.py`.
- `Parsing` models `backend/services/parsing_service.py`.
- `Generator` models `backend/services/generator.py`.
- `SegmentController`, `EmbeddingController` and `Files` model the three controllers.
- `Stores` models the MongoDB collections the controllers use. The segment collection is the
  class `Stores.SegmentStore`; the parse and file collections are sequences of records.

Two support modules complete the project. `Text` holds the Python string operations the source
relies on: `isspace`, `strip`, `split()`, `join`, `lower`, slicing and floor division. `Wrappers`
holds `Option` and `Result`.

State that the source updates in place is modelled as classes:

- `VectorStore.VectorStore` holds the index and metadata caches and the files on disk;
- `Stores.SegmentStore` holds the segment collection;
- `Files.FileController` holds the file records and the upload folder.

Each of their methods states the complete new state. Loops in the source are methods with loop
invariants, each proved equal to a specification function. The properties are lemmas about those
functions.

Oracles are passed in as function parameters:

- the embedding models;
- the OpenAI embedding call;
- the FAISS search;
- the document readers;
- the tokenizer;
- the regular-expression feature detectors;
- uuid and timestamp generation.

Outcomes of disk and database writes are passed in as parameters.

## Model

| member | source | states |
|---|---|---|
| SegmentSplit.CollapseSpace | backend/services/segment_service.py:143 | Collapsing whitespace leaves plain single spaces only, never two in a row. The result is empty exactly when the input is, and it starts with whitespace exactly when the input does. |
| SegmentSplit.CollapseIdentity | backend/services/segment_service.py:143 | Text that is already collapsed is left unchanged. |
| SegmentSplit.NoCrUnchanged | backend/services/segment_service.py:146-147 | Both line-break rewrites leave text without `\r` unchanged. |
| SegmentSplit.CleanTextShape | backend/services/segment_service.py:143-152 | Cleaned text is stripped, has no whitespace other than single spaces, and holds no `\n` or `\r`. |
| SegmentSplit.CleanTextIdempotent | backend/services/segment_service.py:143-152 | Cleaning cleaned text changes nothing. |
| SegmentSplit.SplitOnFromJoin | backend/services/segment_service.py:191 | Joining the parts of `split(sep)` with `sep` gives back the input. |
| SegmentSplit.SplitOnJoin | backend/services/segment_service.py:191 | `split('\n\n')` loses nothing: rejoining the parts gives the text. |
| SegmentSplit.SplitOnNoBreak | backend/services/segment_service.py:191 | Text without a newline splits into a single paragraph. |
| SegmentSplit.DigitRun | backend/services/segment_service.py:200 | Gives the length of the maximal leading run of ASCII digits in an item marker. |
| SegmentSplit.MarkerSplitFrom | backend/services/segment_service.py:198-204 | The item-marker split yields at least one part. |
| SegmentSplit.MarkerSplitNoBreak | backend/services/segment_service.py:198-204 | Text without a newline is never split at an item marker. |
| SegmentSplit.KeepLong | backend/services/segment_service.py:267-269 | Every kept window is stripped and at least the minimum segment length. Windows are never added. |
| SegmentSplit.LongEnough | backend/services/segment_service.py:210 | The closing filter keeps only input parts whose stripped length reaches the minimum. |
| SegmentSplit.LongEnoughIdentity | backend/services/segment_service.py:210 | The closing filter keeps a list of stripped, long-enough parts unchanged. |
| SegmentSplit.NaturalParagraphs | backend/services/segment_service.py:188-210 | Every natural paragraph is stripped and at least the minimum segment length. |
| SegmentSplit.NaturalParagraphsWithoutBreaks | backend/services/segment_service.py:188-210 | Text without a newline falls through both paragraph splits to the fixed-length split. |
| SegmentSplit.NaturalParagraphsOfCleanText | backend/services/segment_service.py:143-210 | After `_clean_text` the paragraph and item-marker splits can never fire. Segmentation of a document is always the fixed-length split. |
| SegmentSplit.LastTerminator | backend/services/segment_service.py:262-265 | The backward scan finds the last sentence terminator in the range. It finds none only when the range has none. |
| SegmentSplit.WindowEnd | backend/services/segment_service.py:256-265 | A window ends after its start and at most one past `max_length`. It reaches `max_length + 1` only when the character at `max_length` is a terminator. |
| SegmentSplit.WindowCut | backend/services/segment_service.py:256-265 | A window is cut either at `max_length` or just after the last terminator in its second half. No terminator lies between the cut and `max_length`. |
| SegmentSplit.WindowMaxPlusOne | backend/services/segment_service.py:262-265 | The scan starts at index `max_length`, so a terminator there yields a window of `max_length + 1` characters. |
| SegmentSplit.RawWindowsTile | backend/services/segment_service.py:256-273 | The windows tile the text: concatenated they give the text, and each holds 1 to `max_length + 1` characters. |
| SegmentSplit.FixedSplitFrom | backend/services/segment_service.py:251-273 | Every fixed-length segment is stripped and at least the minimum length. |
| SegmentSplit.FixedSplitIsKeptWindows | backend/services/segment_service.py:251-273 | The fixed-length split is exactly the tiling windows, stripped, with the short ones dropped. |
| SegmentSplit.SplitByFixedLength | backend/services/segment_service.py:251-273 | The loop computes the fixed-length split. |
| SegmentSplit.ScanWindowEnd | backend/services/segment_service.py:256-265 | The backward-scan loop finds the window end. |
| SegmentSplit.LeadingSpace | backend/services/segment_service.py:215 | Gives the maximal whitespace prefix that a punctuation delimiter takes along. |
| SegmentSplit.PunctSplitFrom | backend/services/segment_service.py:215 | `re.split` with a capturing group yields an odd number of pieces. |
| SegmentSplit.PunctSplitConcat | backend/services/segment_service.py:215 | The punctuation split loses nothing: the pieces concatenate to the input. |
| SegmentSplit.PunctSplitDelims | backend/services/segment_service.py:215 | Every delimiter piece (odd position) opens with sentence punctuation. |
| SegmentSplit.PunctSplitTexts | backend/services/segment_service.py:215 | Text pieces (even position) hold no sentence punctuation. |
| SegmentSplit.PunctSplitShape | backend/services/segment_service.py:215 | Combines the three facts about the punctuation split. |
| SegmentSplit.NextIndex | backend/services/segment_service.py:225-227 | Reading a sentence always advances the index, and never past the pieces. |
| SegmentSplit.GluesEveryDelimiter | backend/services/segment_service.py:225-227 | Each text piece is glued to the delimiter after it, and the loop skips by two. |
| SegmentSplit.ChunksFrom | backend/services/segment_service.py:218-247 | The chunk builder yields at least one chunk. |
| SegmentSplit.ChunksTile | backend/services/segment_service.py:218-247 | The chunks, concatenated, give back the pieces still to read. |
| SegmentSplit.ChunksClosedLong | backend/services/segment_service.py:232-238 | Every chunk closed before the last is non-empty and at least the minimum length. |
| SegmentSplit.IntelligentSplitTiles | backend/services/segment_service.py:214-249 | The intelligent split of a paragraph tiles the paragraph. |
| SegmentSplit.IntelligentSplit | backend/services/segment_service.py:214-249 | Every segment of the intelligent split is stripped. |
| SegmentSplit.IntelligentSplitParagraph | backend/services/segment_service.py:214-249 | The sentence loop computes the intelligent split. |
| SegmentSplit.ReadSentence | backend/services/segment_service.py:222-228 | One step of the loop reads the glued sentence and the next index. |
| SegmentSplit.RawOverlap | backend/services/segment_service.py:291-294 | An overlap has at most twice the overlap length plus one characters. |
| SegmentSplit.RawOverlapShape | backend/services/segment_service.py:291-294 | An overlap is the tail of one segment (at most the overlap length), a space, and the head of the next. |
| SegmentSplit.Block | backend/services/segment_service.py:287-297 | Each iteration appends the segment and, when an overlap is added, the overlap after it. |
| SegmentSplit.AddOverlappingSegments | backend/services/segment_service.py:277-299 | The overlap loop computes the enhanced list. |
| SegmentSplit.PositionGrows | backend/services/segment_service.py:287-297 | Later originals land strictly later in the enhanced list. |
| SegmentSplit.BlocksLength | backend/services/segment_service.py:287-297 | The output after `k` segments ends where segment `k` lands. |
| SegmentSplit.BlockAt | backend/services/segment_service.py:287-297 | Each original segment and its overlap sit at their computed positions. |
| SegmentSplit.BlocksLayout | backend/services/segment_service.py:287-297 | Every original segment appears in order at its position, followed by its overlap when one was added. |
| SegmentSplit.InsertedBound | backend/services/segment_service.py:287-297 | At most one overlap is inserted per pair of neighbouring segments. |
| SegmentSplit.EnhancedLength | backend/services/segment_service.py:277-299 | With one segment or none the list is returned as is. Otherwise the list grows by at most half its length. |
| SegmentSplit.BlocksStripped | backend/services/segment_service.py:287-297 | The overlap pass keeps every segment stripped. |
| SegmentSplit.ParagraphSegments | backend/services/segment_service.py:170-178 | A stripped paragraph gives only stripped segments. |
| SegmentSplit.CollectParagraphSegments | backend/services/segment_service.py:170-178 | The paragraph loop computes the base segments. |
| SegmentSplit.BaseSegmentsStripped | backend/services/segment_service.py:170-178 | Stripped paragraphs give stripped base segments. |
| SegmentSplit.SegmentsStripped | backend/services/segment_service.py:164-184 | Every segment of a text, overlaps included, is stripped. |
| SegmentSplit.SplitTextIntoSegments | backend/services/segment_service.py:164-184 | Computes the segments of a text. |
| SegmentSplit.SegmentDocument | backend/services/segment_service.py:99-130 | The document's records are those of the segments of its cleaned text. |
| SegmentSplit.RecordsSnoc | backend/services/segment_service.py:108-123 | A segment whose stripped text is too short adds no record. A long-enough one adds one record with its 1-based order. |
| SegmentSplit.RecordsWellFormed | backend/services/segment_service.py:112-123 | Every record belongs to the file. It carries a stripped segment of at least the minimum length, its length, empty tags and its 1-based order. |
| SegmentSplit.RecordsOrderBound | backend/services/segment_service.py:108-123 | Record orders lie between 1 and the number of segments read. |
| SegmentSplit.RecordsOrdered | backend/services/segment_service.py:108-123 | Record orders strictly increase, so records follow the segments. |
| SegmentSplit.RecordsComplete | backend/services/segment_service.py:108-123 | Every long-enough segment has a record carrying its order. |
| SegmentTags.KeywordTagsSpec | backend/services/segment_service.py:391-393 | A tag comes from the keyword table (lines 25-85) exactly when one of its keywords occurs in the lower-cased text. |
| SegmentTags.FeatureTagsOfSpec | backend/services/segment_service.py:419-449 | A feature tag is produced exactly when its feature is detected, and there is at most one tag per feature. |
| SegmentTags.ExtractFeatureTagsSpec | backend/services/segment_service.py:419-449 | Each of the seven feature tags appears exactly when its feature is detected, so there are at most seven. |
| SegmentTags.RecommendTagSetSpec | backend/services/segment_service.py:386-400 | A tag is recommended exactly when a table keyword occurs in the text, or a feature whose tag it is is detected. |
| SegmentTags.RecommendTags | backend/services/segment_service.py:386-407 | Gives distinct recommended tags, as many as Python's `[:max_tags]` keeps of the tag set. |
| SegmentTags.RemovePunctuationSpec | backend/services/segment_service.py:465 | Punctuation becomes whitespace. Word characters are kept in place, and the length is unchanged. |
| SegmentTags.ValidWordsAreKeywords | backend/services/segment_service.py:471-476 | Every candidate word has at least two characters and is not a digit string. |
| SegmentTags.SortedByCountTail | backend/services/segment_service.py:484-485 | The tail of a list sorted by count is sorted, and its head comes before every later word. |
| SegmentTags.SortedByCountCons | backend/services/segment_service.py:484-485 | A word that comes before every word of a sorted list can be put at its head. |
| SegmentTags.InsertByCountPerm | backend/services/segment_service.py:484-485 | Inserting a word adds exactly that word. |
| SegmentTags.InsertByCountSpec | backend/services/segment_service.py:484-485 | Inserting a word that is last in first-seen order keeps the list sorted by count. |
| SegmentTags.SortByCountSpec | backend/services/segment_service.py:484-485 | The stable sort by descending count is a permutation, and it is sorted by count with first-seen order breaking ties. |
| SegmentTags.ExtractKeywords | backend/services/segment_service.py:462-491 | The counting-and-sorting loop computes the keywords. |
| SegmentTags.FrequenciesStep | backend/services/segment_service.py:479-481 | Reading one more word increments its count by one. |
| SegmentTags.FrequenciesCount | backend/services/segment_service.py:479-481 | The frequency map counts each word's occurrences. |
| SegmentTags.SortedKeywords | backend/services/segment_service.py:479-485 | The sorted words are distinct and are exactly the candidate words. They are ordered by count, with first-seen order breaking ties. |
| SegmentTags.KeywordsValid | backend/services/segment_service.py:462-491 | Keywords are distinct valid candidate words, as many as `[:max_keywords]` keeps. |
| SegmentTags.KeywordsOrdered | backend/services/segment_service.py:484-491 | Keywords come in descending frequency, and ties keep first occurrence order. |
| SegmentTags.KeywordsTopK | backend/services/segment_service.py:484-491 | No word left out occurs more often than a keyword that was kept. |
| SegmentTags.SimilarityBounds | backend/services/segment_service.py:504-520 | Segment similarity lies in [0, 1] and does not depend on argument order. |
| SegmentTags.SimilarityExtremes | backend/services/segment_service.py:504-520 | Similarity is 1 exactly when the word sets are equal and non-empty, and 0 exactly when they share no word. |
| Embedding.EncodeTextSpec | backend/services/embedding_service.py:74-90 | Blank text, or a model that raises, gives the zero vector of the model dimension. Otherwise the model's vector is returned. |
| Embedding.NonBlank | backend/services/embedding_service.py:111-116 | Gives one keep flag per input text. |
| Embedding.PositionsBasic | backend/services/embedding_service.py:111-116 | The kept positions strictly increase, and each of them is kept. |
| Embedding.PositionsPrefix | backend/services/embedding_service.py:111-116 | The kept positions of a prefix are a prefix of all kept positions. |
| Embedding.RankSpec | backend/services/embedding_service.py:132-134 | Rank and position are inverse: each kept text's rank gives back its position, and each position's rank is its index. |
| Embedding.ValidTextsSpec | backend/services/embedding_service.py:111-116 | `valid_texts[k]` is the stripped text at `valid_indices[k]`. |
| Embedding.CollectValid | backend/services/embedding_service.py:111-116 | The loop collects the valid texts and their indices. |
| Embedding.SpliceRows | backend/services/embedding_service.py:131-134 | A well-shaped model answer is spliced into a zero matrix. Any other answer fails. |
| Embedding.EncodeBatch | backend/services/embedding_service.py:103-141 | Computes the batch rows. |
| Embedding.BatchRowsShape | backend/services/embedding_service.py:103-141 | There is one row per text, and a blank text's row is zero. With no valid text, or a model that raises, the result is all zeros. |
| Embedding.BatchRowsSplice | backend/services/embedding_service.py:131-134 | When the model answers, the `k`-th valid text's row is the model's `k`-th vector. |
| Embedding.BatchRowsWidth | backend/services/embedding_service.py:103-141 | Every row has the model dimension. |
| Embedding.EncodeSegments | backend/services/embedding_service.py:155-188 | Gives the batch rows of the stripped segment texts, and the metadata of each segment. |
| Embedding.MetaOfSpec | backend/services/embedding_service.py:162-178 | Metadata keeps the ids and order and the stripped length. The preview is the text up to 100 characters, else its first 100 followed by `...`. |
| Embedding.CalculateSimilaritySpec | backend/services/embedding_service.py:201-215 | Similarity with a zero vector is 0, otherwise it is the cosine. It is symmetric when the cosine is. |
| Stores.ParseById | backend/models/parse_model.py:71-89 | Gives the parse record with that id. None is returned exactly when no record has it. |
| Stores.LatestParse | backend/models/parse_model.py:91-112 | Gives the file's parse record with the latest `parsed_at`. None is returned exactly when the file has none. |
| Stores.Filter | backend/models/segment_model.py:192-254 | A query never returns more records than are stored. |
| Stores.FilterAppend | backend/models/segment_model.py:192-254 | Filtering distributes over concatenation. |
| Stores.FilterSound | backend/models/segment_model.py:192-254 | Every record a query returns is stored and matches. |
| Stores.FilterComplete | backend/models/segment_model.py:192-254 | Every stored record that matches a query is returned, before any limit. |
| Stores.FilterKeepsAll | backend/models/segment_model.py:192-254 | A query every record matches returns them all. |
| Stores.FilterKeepsNone | backend/models/segment_model.py:192-254 | A query no record matches returns nothing. |
| Stores.WithoutFileSpec | backend/models/segment_model.py:256-274 | Deletion removes exactly the file's segments and leaves every other file's segments as they were. |
| Stores.ReplaceFileSegments | backend/models/segment_model.py:256-274 | Deleting a file's segments and inserting new ones leaves exactly the new ones for that file. Other files are untouched. |
| Stores.SetTagsSpec | backend/models/segment_model.py:124-156 | A tag update changes only the tags of the first segment with that id. An unknown id changes nothing. |
| Stores.CountFound | backend/models/segment_model.py:158-190 | No more updates are counted as found than were given. |
| Stores.ApplyTagUpdatesIds | backend/models/segment_model.py:158-190 | Tag updates never add, remove or rename a segment. |
| Stores.SegmentStore.constructor | backend/models/segment_model.py:17-35 | Creates a collection holding the given segments. |
| Stores.SegmentStore.SaveSegments | backend/models/segment_model.py:49-74 | An empty list succeeds and changes nothing. Otherwise the records are appended exactly when the insert succeeds. |
| Stores.SegmentStore.DeleteSegmentsByFileId | backend/models/segment_model.py:256-274 | Removes exactly the file's segments and returns how many there were. |
| Stores.SegmentStore.UpdateSegmentTags | backend/models/segment_model.py:124-156 | Sets the tags, and succeeds exactly when the id exists. |
| Stores.SegmentStore.BatchUpdateTags | backend/models/segment_model.py:158-190 | Applies every update in order. Updated, failed and total counts are consistent, with updated counting the ids found. |
| VectorStore.CreateIndex | backend/services/vector_store.py:85-105 | Only `cosine`, `l2` and `ip` make an index: empty, of the given dimension, and L2 exactly for `l2`. |
| VectorStore.AppendedSpec | backend/services/vector_store.py:119-164 | A new index is an inner-product index of the vectors. A dimension mismatch fails. Otherwise vectors and metadata are appended after the existing ones. |
| VectorStore.HitsOfSound | backend/services/vector_store.py:266-280 | Hits are ranked from 1 in increasing order. Each carries its score as similarity and the metadata of its row. |
| VectorStore.HitsOfComplete | backend/services/vector_store.py:266-280 | When FAISS answers only row numbers or -1, no lookup raises, and every answer row that has metadata yields a hit. |
| VectorStore.HitsOfRaises | backend/services/vector_store.py:266-287 | Once a lookup raises, the whole search returns nothing. |
| VectorStore.SearchResultsBound | backend/services/vector_store.py:245-287 | A search returns at most `min(top_k, ntotal)` hits. |
| VectorStore.SearchResultsSound | backend/services/vector_store.py:245-287 | Every hit carries stored metadata, and ranks strictly increase. |
| VectorStore.CollectHits | backend/services/vector_store.py:266-280 | The result loop computes the hits. |
| VectorStore.VectorStore.constructor | backend/services/vector_store.py:36-56 | Creates a store over the given directory contents with empty caches. |
| VectorStore.VectorStore.LoadIndex | backend/services/vector_store.py:205-231 | Succeeds exactly when both files exist. It returns what is on disk and caches it; the disk is unchanged. |
| VectorStore.VectorStore.SaveIndex | backend/services/vector_store.py:178-193 | Writes the index file and then the metadata file. A failed write stops there, and it reports success only when both are written. |
| VectorStore.VectorStore.Fetch | backend/services/vector_store.py:133-143 | Gives the current index and metadata, or a new empty inner-product index. What each file id reads as does not change. |
| VectorStore.VectorStore.AddVectors | backend/services/vector_store.py:119-164 | Mismatched or empty input changes nothing. Otherwise the appended index is cached and saved as far as the writes succeed. A dimension mismatch leaves all state as it was. After an append, no other file's current index changes. |
| VectorStore.VectorStore.CacheAndSave | backend/services/vector_store.py:150-157 | Caches the index and metadata and writes them as far as the writes succeed. Afterwards this is the file's current index, and no other file's index changes. |
| VectorStore.VectorStore.Search | backend/services/vector_store.py:245-287 | Gives the search results of the file's current index, with no visible state change. |
| VectorStore.VectorStore.SearchMultipleFiles | backend/services/vector_store.py:302-316 | There is one entry per id. An id with an index gets its search results, any other gets an empty list. |
| VectorStore.VectorStore.DeleteIndex | backend/services/vector_store.py:341-365 | Removes the file's index, metadata and embeddings from cache and disk, after which no index exists for it. No other file's current index changes. |
| VectorStore.VectorStore.GetIndexInfo | backend/services/vector_store.py:377-404 | Reports nothing when no index exists. Otherwise it reports the vector count, dimension and metadata count of the current index. Only an index loaded from disk enters the caches. |
| VectorStore.VectorStore.ClearCache | backend/services/vector_store.py:443-444 | Empties both caches and leaves the disk alone. |
| Retriever.EncodeQuerySpec | backend/services/retriever.py:57-104 | An OpenAI vector of the index dimension (384) is used as is. Otherwise the local encoder is used, and a blank query gives its zero vector. |
| Retriever.KeepSimilarSpec | backend/services/retriever.py:146-156 | Thresholding keeps exactly the hits at or above the minimum similarity, each tagged with the query and file id. |
| Retriever.KeepSimilarRanks | backend/services/retriever.py:146-156 | Thresholding keeps the increasing rank order. |
| Retriever.FilterBySimilarity | backend/services/retriever.py:146-156 | The filter loop computes the thresholded hits. |
| Retriever.RetrieveFromFile | backend/services/retriever.py:121-160 | A file without an index gives nothing. Otherwise the result is the thresholded search with the encoded query and the configured defaults. |
| Retriever.RetrieveFromMultipleFiles | backend/services/retriever.py:178-224 | There is one entry per requested file: its thresholded search results. |
| Retriever.FilterAll | backend/services/retriever.py:204-217 | The loop thresholds every file's results. |
| Retriever.WithSimilarityCons | backend/services/retriever.py:270 | Gives the items of a given similarity in a list with a new head. |
| Retriever.WithSimilarityNone | backend/services/retriever.py:270 | No item has a similarity above all of them. |
| Retriever.InsertBySimilarityPermutes | backend/services/retriever.py:270 | Insertion adds exactly the item. |
| Retriever.InsertBySimilaritySorted | backend/services/retriever.py:270 | Insertion keeps a list sorted by descending similarity. |
| Retriever.InsertBySimilarityStable | backend/services/retriever.py:270 | Insertion puts the item after every item of equal similarity. |
| Retriever.SortBySimilaritySpec | backend/services/retriever.py:270 | The sort is a stable permutation in descending similarity, as Python's `sort` is. |
| Retriever.QualityFilteredMembers | backend/services/retriever.py:273-288 | The quality filter keeps exactly the items whose text is long enough and whose similarity is high enough. |
| Retriever.QualityFilteredSorted | backend/services/retriever.py:273-288 | The quality filter keeps a sorted list sorted. |
| Retriever.MergedSpec | backend/services/retriever.py:265-267 | The merged list holds exactly the results of the listed files. |
| Retriever.MergeResults | backend/services/retriever.py:265-267 | The merge loop computes the merged list. |
| Retriever.FilterQuality | backend/services/retriever.py:273-288 | The quality loop computes the filtered list. |
| Retriever.PerFileTopK | backend/services/retriever.py:259 | `max(1, top_k_total // n)` is at least 1 and is the floor share of the total. |
| Retriever.RankedSpec | backend/services/retriever.py:270-291 | The ranked results are sorted, at most `top_k_total` long, and all of good quality from the input. A short result holds every good result. |
| Retriever.RetrieveAllAvailable | backend/services/retriever.py:240-298 | No indices give nothing. Otherwise each listed file is searched with its share of `top_k`, and the results are merged, sorted, quality-filtered and cut. |
| Retriever.MergedThreshold | backend/services/retriever.py:240-298 | Every ranked result meets the similarity threshold. It answers the query and comes from a listed file's own search. |
| Retriever.FitCount | backend/services/retriever.py:323-349 | The number of results that fit is between the start and the total. |
| Retriever.FitCountSpec | backend/services/retriever.py:323-349 | The parts kept fit the limit, unless none is kept. When the loop stops early, the next part would overflow the limit. |
| Retriever.FormatContextForRag | backend/services/retriever.py:312-359 | No results give the fixed nothing-found text. Otherwise the context is the parts that fit, joined by the separator, with one citation for each. |
| Retriever.FormatContextSpec | backend/services/retriever.py:323-352 | The parts fit `max_length` apart from the separators, and the join adds 4 characters per gap. Citations are numbered from 1 and carry the result text. |
| Retriever.ContextCanExceedLimit | backend/services/retriever.py:323-352 | The limit ignores the separators: two results of total length 8 give a context of 12 characters under a limit of 8. |
| SegmentController.CleanTagsSpec | backend/controllers/segment_controller.py:205 | The cleaned tags are exactly the non-blank tags, stripped, in their original order. |
| SegmentController.CleanTagsIdempotent | backend/controllers/segment_controller.py:205 | Cleaning cleaned tags changes nothing. |
| SegmentController.ClampLimit | backend/controllers/segment_controller.py:364-365 | The limit is kept when it lies in 1..200. Otherwise 50 is used. |
| SegmentController.ClampLimitIdempotent | backend/controllers/segment_controller.py:364-365 | Clamping twice changes nothing. |
| SegmentController.CreateSegmentsFromFile | backend/controllers/segment_controller.py:58-132 | A missing parse gives 404 with nothing changed. Otherwise the file's old segments are deleted, and no segments gives 400. A failed insert gives 500; a successful one replaces the file's segments with the new records. |
| SegmentController.WithoutFileNoop | backend/controllers/segment_controller.py:80-84 | Deleting the segments of a file that has none changes nothing. |
| SegmentController.ResegmentReplaces | backend/controllers/segment_controller.py:80-124 | Re-segmenting a file leaves exactly its new records, each well-formed, and every other file untouched. |
| SegmentController.UpdateSegmentTags | backend/controllers/segment_controller.py:188-232 | An empty id or non-list tags gives 400. Otherwise the cleaned tags are stored, with 404 when the id is unknown. |
| SegmentController.ValidatedSpec | backend/controllers/segment_controller.py:253-265 | Kept updates have a non-empty stripped id and non-empty stripped tags. |
| SegmentController.ValidateUpdates | backend/controllers/segment_controller.py:253-265 | Validation raises exactly when an entry's `segment_id` is present but not a string. Otherwise it gives the validated updates; entries with a blank id or a non-list `tags` are dropped. |
| SegmentController.RoundHalfEvenNearest | backend/controllers/segment_controller.py:284 | Half-even rounding of the exact ratio to one decimal is within half a unit of it. |
| SegmentController.RoundHalfEvenBound | backend/controllers/segment_controller.py:284 | The rounded rate is at most 100.0%. It is exactly 100.0% when all succeed and 0.0% when none do. |
| SegmentController.SuccessRateSpec | backend/controllers/segment_controller.py:284 | The success rate is the exact-ratio percentage rounded half-even to one decimal, with a `%` sign, from `0.0%` to `100.0%`. |
| SegmentController.BatchUpdateTags | backend/controllers/segment_controller.py:244-294 | Empty input or no valid update gives 400, and a raised validation gives 500; these change nothing. Otherwise the updates are applied and the counts and the exact-ratio success rate reported. |
| SegmentController.SearchSegments | backend/controllers/segment_controller.py:353-389 | A blank keyword gives 400. Otherwise the result is a prefix of the stored segments matching the stripped keyword, in stored order. Its size is the smaller of the clamped limit and the number of matches, so under the limit it holds every match. |
| SegmentController.GetSegmentsByTags | backend/controllers/segment_controller.py:402-445 | No tags after cleaning gives 400. Otherwise the result is a prefix of the stored segments sharing a cleaned tag, in stored order. Its size is the smaller of the clamped limit and the number of matches, so under the limit it holds every match. |
| EmbeddingController.ResolveFileIdSpec | backend/controllers/embedding_controller.py:74-99 | An id with segments, or one that is no parse id, is used as is. It is replaced only by the file id of a parse record with that id. |
| EmbeddingController.RebuiltIndex | backend/controllers/embedding_controller.py:142-176 | A file's rows and metadata match its segments. A rebuilt index is an inner-product index of exactly those rows. |
| EmbeddingController.CreateEmbeddings | backend/controllers/embedding_controller.py:116-201 | An existing index is reported as is unless recreate is set. Missing segments or a failed encoding fail without change. Otherwise the rows are added and the new index is reported; other files' indexes are unchanged. The caches and the disk files follow each save outcome, and recreate drops the old index's files first. `batch_size` is accepted but never used. |
| EmbeddingController.RecreateIndex | backend/controllers/embedding_controller.py:165-176 | With recreate, the file's index is dropped and rebuilt from the new rows only. No other file changes, and the disk maps follow the save outcome. |
| EmbeddingController.AppendToCurrent | backend/controllers/embedding_controller.py:165-176 | Without recreate, the rows are appended to the current index. A mismatch changes nothing; otherwise no other file changes and the disk maps follow the save outcome. |
| EmbeddingController.AtLeastLength | backend/controllers/embedding_controller.py:361-364 | The score filter never adds results. |
| EmbeddingController.AtLeastSound | backend/controllers/embedding_controller.py:361-364 | Every kept result scores at least `min_score`. |
| EmbeddingController.AtLeastComplete | backend/controllers/embedding_controller.py:361-364 | Every result scoring at least `min_score` is kept. |
| EmbeddingController.AtLeastAll | backend/controllers/embedding_controller.py:361-364 | When every result passes, the filter returns them all. |
| EmbeddingController.SearchEmbeddings | backend/controllers/embedding_controller.py:341-386 | A missing index fails. Otherwise the result is the score-filtered search for the encoded query, with its count. |
| EmbeddingController.SumLengthsFiltered | backend/controllers/embedding_controller.py:419-428 | The filtered total is at most the unfiltered total. |
| EmbeddingController.FilterEach | backend/controllers/embedding_controller.py:419-428 | The loop filters every file's results and sums their counts. |
| EmbeddingController.SearchMultipleFiles | backend/controllers/embedding_controller.py:402-450 | Each resolved file maps to its score-filtered search, or to nothing without an index. The total counts each file once. |
| Parsing.ParseDocumentSpec | backend/services/parsing_service.py:22-55 | A missing file fails first, then an unsupported type. PDF goes to the PDF reader, DOCX and DOC to the Word reader, and TXT to the text reader. |
| Parsing.ReaderForCaseBlind | backend/services/parsing_service.py:39-41 | The type check ignores case. |
| Parsing.ReplaceBreaks | backend/services/parsing_service.py:207 | Replacing line breaks keeps the length. |
| Parsing.SummaryTextShape | backend/services/parsing_service.py:207-208 | The cleaned summary text is stripped, with single spaces only, and keeps every word in order. |
| Parsing.SummaryTextIdempotent | backend/services/parsing_service.py:207-208 | Cleaning a cleaned summary changes nothing. |
| Parsing.GetTextSummarySpec | backend/services/parsing_service.py:192-214 | Empty text gives an empty summary. A cleaned text that fits is returned. A longer one is cut to `max_length` characters plus `...`. |
| Files.RFind | backend/controllers/file_controller.py:33-34 | `rfind` gives the last position of the character, or -1 when it is absent. |
| Files.LastDotIsRFind | backend/controllers/file_controller.py:33-34 | The last dot is the one `rsplit('.', 1)` splits at. |
| Files.AllowedFileSpec | backend/controllers/file_controller.py:33-34 | A file is allowed exactly when it has a dot and its lower-cased extension after the last dot is allowed. |
| Files.SplitExt | backend/controllers/file_controller.py:44 | `os.path.splitext` gives a suffix that is empty or a single-dot extension without `/`. |
| Files.LowerKeepsDots | backend/controllers/file_controller.py:44 | Lower-casing keeps the length and the positions of the dots. |
| Files.UniqueFilenameShape | backend/controllers/file_controller.py:43-51 | A unique name is `timestamp_uuid` followed by nothing or by one dot-extension. |
| Files.UniqueFilenameExtension | backend/controllers/file_controller.py:43-51 | A plain name with a dot keeps its lower-cased extension. |
| Files.UniqueFilenameNoExtension | backend/controllers/file_controller.py:43-51 | A name without a dot gives a name without an extension. |
| Files.UploadPartition | backend/controllers/file_controller.py:102-171 | Every file is either a success or a failure. Each success has exactly one record, with its id, saved name, size and type. |
| Files.SuccessesAllowed | backend/controllers/file_controller.py:109-134 | Every stored file has an allowed type and a size within the limit. |
| Files.UploadStep | backend/controllers/file_controller.py:109-157 | A rejected file leaves the disk and the records alone. A record failure removes the saved file. A success adds one record whose file is on disk. |
| Files.UploadsStep | backend/controllers/file_controller.py:102-171 | The upload summaries grow one file at a time. |
| Files.Window | backend/models/file_model.py:57 | Skip-and-limit never returns more records than exist. |
| Files.PagesIsCeiling | backend/controllers/file_controller.py:180-192 | The page count is the ceiling of the total over the page size, and 0 exactly when there are no files. |
| Files.PageOfIndex | backend/controllers/file_controller.py:180-192 | Every file is listed on page `j // per_page + 1`, at offset `j % per_page`, and that page is within the page count. |
| Files.PagePastEnd | backend/controllers/file_controller.py:180-192 | A page past the page count is empty. |
| Files.FindFile | backend/models/file_model.py:80-108 | Gives the record with that id. None is returned exactly when no record has it. |
| Files.RemoveFileSpec | backend/models/file_model.py:110-125 | Deleting a record removes exactly the record with that id, and nothing else. |
| Files.RemoveFileUndoesUpload | backend/models/file_model.py:110-125 | Deleting a newly created record restores the record list. |
| Files.FileController.constructor | backend/controllers/file_controller.py:17-25 | Creates a controller over the given settings, records and upload folder. |
| Files.FileController.UploadOne | backend/controllers/file_controller.py:108-157 | One file is checked, saved and recorded. Records and disk grow as specified. |
| Files.FileController.UploadFiles | backend/controllers/file_controller.py:102-171 | Uploading reports the successes, the failures and the total. It appends the new records and updates the disk file by file. |
| Files.FileController.DeleteFile | backend/controllers/file_controller.py:201-235 | An unknown id changes nothing. Otherwise the file is removed from disk when present and removable, and the record is deleted unless the database fails. |
| Generator.CountTokens | backend/services/generator.py:59-64 | Gives the tokenizer's count, or a quarter of the length rounded down when the tokenizer raises. |
| Generator.ResponseTypeFor | backend/services/generator.py:153-159 | The answer is retrieval-based exactly when the context has a non-whitespace character. |
| Generator.AssessmentOf | backend/services/generator.py:375 | Good is 70 and above, fair is 40 to 69, poor is below 40. |
| Generator.EvaluateAnswerQuality | backend/services/generator.py:333-384 | The score lies in 0..100, and the assessment is that of the score. Length and token count are reported. |
| Generator.AssessmentByIndicators | backend/services/generator.py:333-384 | Good needs three of the four scored indicators, fair exactly two, poor one or none. 100 means all four, 0 means none. |
| Generator.ContextBasedIsRag | backend/services/generator.py:351 | The context is scored exactly when the answer would have been retrieval-based. |
| Generator.UncertaintyNotScored | backend/services/generator.py:346-365 | Admitting uncertainty never changes the score or the assessment. |

## Left out

- `_split_long_paragraph` and `_split_by_sentences` in `segment_service.py` are never called by the segmentation pipeline.
- SegmentTags.RecommendTags: Python iterates the recommended tag set in hash order, so only which tags are returned and how many is stated, not their order.
- The regular-expression feature detectors of `_extract_feature_tags` are a predicate parameter; only the tag each detected feature gives is modelled.
- `\d`, `\w` and `lower()` are modelled on ASCII letters and digits plus CJK ideographs; other Unicode case mappings are not.
- The sentence-transformer model, the OpenAI embedding call, FAISS search and the tiktoken tokenizer are function parameters (oracles). The model does not compute vectors, distances or token counts.
- numpy float32 arithmetic and the cosine formula are not modelled: vectors are sequences of reals and the cosine is a parameter.
- `list_all_indices` reads a directory listing, so its order is a parameter of `Retriever.RetrieveAllAvailable`.
- File sizes are compared in bytes; the MB figures in messages are not modelled.
- FAISS and pickle writes are atomic map updates. A failed write is a `SaveOutcome` parameter, and a half-written file is the file left as before.
- `encode_segments`' exception path, the empty result `retrieve_from_file` returns when encoding raises, the empty list `segment_document` returns from its `except` (segment_service.py:127-129), the `"资料处理出现错误。", []` reply of `format_context_for_rag` (retriever.py:357-359) and the exception path of `evaluate_answer_quality` cannot occur in the model, because the operations they guard are total here.
- `secure_filename` and `mimetypes.guess_type` are parameters of an upload.
- Files.FileController.DeleteFile: a failing `os.remove` is a flag, and the error text it produces is not modelled.
- The `upload_time` sort of `get_all_files` is given as the listing order.
- `_parse_pdf`, `_parse_docx` and `_parse_txt` are reader oracles.
- `generate_answer`, `generate_answer_stream` and `build_rag_prompt` call the chat model over the network. Only the answer type and the quality evaluation are modelled.
- `backend/config.py` has no `Config` class, so every setting (chunk sizes, `top_k`, thresholds, upload folder, size limit) is a parameter.
- Uuid generation and timestamps are parameters.
- SegmentController.SuccessRate: the rate is rounded half-even over the exact ratio `updated * 1000 / total`. The source formats the double `updated / total * 100` with `:.1f`, which can differ on ties: 1 of 2000 gives `0.1%` there and `0.0%` here, and 3 of 2000 gives `0.1%` there and `0.2%` here. Double arithmetic is not modelled.
- SegmentController.RoundHalfEvenNearest: bounds the exact-ratio rounding, not the formatting of the double (see SegmentController.SuccessRate).
- SegmentController.SuccessRateSpec: states the exact-ratio rate, not the double's formatting (see SegmentController.SuccessRate).
- SegmentController.BatchUpdateTags: reports the exact-ratio rate, not the double's formatting (see SegmentController.SuccessRate).
- SegmentController.UpdateSegmentTags and SegmentController.BatchUpdateTags: a tags list holding a non-string makes `tag.strip()` raise, giving 500 (segment_controller.py:205, 264). A tag list holds only strings here, so that input is not modelled.
- SegmentController.SearchSegments and SegmentController.GetSegmentsByTags: MongoDB sorts the matches by `updated_at` descending before the limit (segment_model.py:212, 241). The model has no update times and keeps the first matches in stored order.
- EmbeddingController.CreateEmbeddings: `batch_size` is accepted but never forwarded to the encoder, as in the source.
- `_resolve_file_id`'s third lookup returns the id unchanged, so it is folded into the fallthrough case.
- Flask routing, request parsing and JSON rendering are not modelled: replies are `Reply`/`Outcome` values carrying the status code.
- The MongoDB collections are sequences of records, and their indexes, ObjectIds and `_id` rewriting are not modelled.
- Concurrency: requests run one at a time.
