/** The segment controller: validation and normalisation of its inputs,
    and the delete-then-resegment flow over the segment collection. */
module SegmentController {
  import opened Wrappers
  import opened Text
  import opened Embedding
  import opened SegmentSplit
  import opened Stores

  // ---------------------------------------------------------------------
  // Tag cleaning and limit clamping
  // ---------------------------------------------------------------------

  /** `[tag.strip() for tag in tags if tag.strip()]`: the same
      comprehension `encode_batch` uses for its valid texts. */
  function CleanTags(tags: seq<String>): seq<String> {
    ValidTexts(tags)
  }

  /** Cleaned tags are stripped and non-empty; each is the stripped form of
      an input tag, and every input tag that is not blank is kept, in input
      order. */
  lemma CleanTagsSpec(tags: seq<String>)
    ensures forall k :: 0 <= k < |CleanTags(tags)| ==>
      CleanTags(tags)[k] != [] && Strip(CleanTags(tags)[k]) == CleanTags(tags)[k]
    ensures |CleanTags(tags)| == |ValidIndices(tags)|
    ensures forall k :: 0 <= k < |CleanTags(tags)| ==>
      ValidIndices(tags)[k] < |tags| && CleanTags(tags)[k] == Strip(tags[ValidIndices(tags)[k]])
    ensures forall k, l :: 0 <= k < l < |CleanTags(tags)| ==> ValidIndices(tags)[k] < ValidIndices(tags)[l]
    ensures forall j :: 0 <= j < |tags| && !IsBlank(tags[j]) ==> Strip(tags[j]) in CleanTags(tags)
  {
    ValidTextsSpec(tags);
    PositionsBasic(NonBlank(tags));
    RankSpec(NonBlank(tags));
    forall k | 0 <= k < |CleanTags(tags)|
      ensures CleanTags(tags)[k] != [] && Strip(CleanTags(tags)[k]) == CleanTags(tags)[k]
    {
      var j := ValidIndices(tags)[k];
      assert NonBlank(tags)[j];
      StripIdempotent(tags[j]);
    }
    forall j | 0 <= j < |tags| && !IsBlank(tags[j])
      ensures Strip(tags[j]) in CleanTags(tags)
    {
      assert NonBlank(tags)[j];
      var k := Rank(NonBlank(tags), j);
      assert CleanTags(tags)[k] == Strip(tags[j]);
    }
  }

  /** Cleaning twice changes nothing. */
  lemma {:induction false} CleanTagsIdempotent(tags: seq<String>)
    ensures CleanTags(CleanTags(tags)) == CleanTags(tags)
  {
    if tags != [] {
      var n := |tags| - 1;
      CleanTagsIdempotent(tags[..n]);
      var before := CleanTags(tags[..n]);
      var last := if IsBlank(tags[n]) then [] else [Strip(tags[n])];
      assert CleanTags(tags) == before + last;
      if last != [] {
        StripIdempotent(tags[n]);
        assert (before + last)[..|before|] == before;
      } else {
        assert before + last == before;
      }
    }
  }

  /** `limit` when it lies in 1..200, else 50. */
  function ClampLimit(limit: int): (r: int)
    ensures 1 <= r <= 200
    ensures r == limit <==> 1 <= limit <= 200
    ensures r != limit ==> r == 50
  {
    if limit <= 0 || limit > 200 then 50 else limit
  }

  /** Clamping a clamped limit changes nothing. */
  lemma ClampLimitIdempotent(limit: int)
    ensures ClampLimit(ClampLimit(limit)) == ClampLimit(limit)
  {
  }

  // ---------------------------------------------------------------------
  // create_segments_from_file
  // ---------------------------------------------------------------------

  /** The parse record the segments are built from and the file id they are
      filed under: the latest parse of `fileId` taken as a file id, else the
      parse record whose own id is `fileId`, filed under that record's file
      id. */
  function ParseFor(parses: seq<ParseRecord>, fileId: String): Option<(ParseRecord, String)> {
    match LatestParse(parses, fileId)
    case Some(p) => Some((p, fileId))
    case None =>
      match ParseById(parses, fileId)
      case Some(p) => Some((p, p.fileId))
      case None => None
  }

  /** The records `segment_document` builds from a parse record. */
  function Segmented(p: ParseRecord, fileId: String, uuid: nat -> String): seq<SegmentRecord> {
    var segs := SegmentsOf(CleanText(p.textContent));
    Records(fileId, p.originalName, segs, uuid, |segs|)
  }

  /** The data of a successful `create_segments_from_file`. */
  datatype CreatedSegments = CreatedSegments(fileId: String, fileName: String, segmentCount: nat, segments: seq<SegmentRecord>)

  /** `create_segments_from_file(file_id)`. Without a parse record: 404 and
      no change. Otherwise the file's old segments are deleted first; then
      no segments give 400, a failed insert 500, and success files the new
      records. `inserted` says whether `insert_many` goes through. */
  method CreateSegmentsFromFile(db: SegmentStore, parses: seq<ParseRecord>, fileId: String, uuid: nat -> String,
                                inserted: bool)
    returns (r: Reply<CreatedSegments>)
    modifies db
    ensures ParseFor(parses, fileId).None? ==> r == Failure(404) && db.segments == old(db.segments)
    ensures ParseFor(parses, fileId).Some? ==>
      var (p, actual) := ParseFor(parses, fileId).value;
      var records := Segmented(p, actual, uuid);
      && (records == [] ==> r == Failure(400) && db.segments == WithoutFile(old(db.segments), actual))
      && (records != [] && !inserted ==> r == Failure(500) && db.segments == WithoutFile(old(db.segments), actual))
      && (records != [] && inserted ==>
            r == Success(CreatedSegments(actual, p.originalName, |records|, records))
            && db.segments == WithoutFile(old(db.segments), actual) + records)
  {
    var parseRecord := LatestParse(parses, fileId);
    var actual := fileId;
    if parseRecord.None? {
      parseRecord := ParseById(parses, fileId);
      if parseRecord.Some? {
        actual := parseRecord.value.fileId;
      }
    }
    if parseRecord.None? {
      return Failure(404);
    }
    var existingSegments := FileSegments(db.segments, actual);
    if existingSegments != [] {
      var _ := db.DeleteSegmentsByFileId(actual);
    } else {
      WithoutFileNoop(db.segments, actual);
    }
    var textContent := parseRecord.value.textContent;
    var fileName := parseRecord.value.originalName;
    var segmentsData := SegmentDocument(actual, textContent, fileName, uuid);
    if segmentsData == [] {
      return Failure(400);
    }
    var saved := db.SaveSegments(segmentsData, inserted);
    if !saved {
      return Failure(500);
    }
    return Success(CreatedSegments(actual, fileName, |segmentsData|, segmentsData));
  }

  /** Deleting the segments of a file that has none changes nothing. */
  lemma {:induction false} WithoutFileNoop(segs: seq<SegmentRecord>, fileId: String)
    requires FileSegments(segs, fileId) == []
    ensures WithoutFile(segs, fileId) == segs
  {
    if segs != [] {
      var n := |segs| - 1;
      WithoutFileNoop(segs[..n], fileId);
      assert segs[..n] + [segs[n]] == segs;
    }
  }

  /** After a successful resegmentation the file's segments are exactly the
      new records, each built from a segment of the cleaned text and filed
      under the file; every other file keeps its segments. */
  lemma ResegmentReplaces(segs: seq<SegmentRecord>, p: ParseRecord, fileId: String, uuid: nat -> String)
    ensures var records := Segmented(p, fileId, uuid);
      && FileSegments(WithoutFile(segs, fileId) + records, fileId) == records
      && (forall other :: other != fileId ==>
            FileSegments(WithoutFile(segs, fileId) + records, other) == FileSegments(segs, other))
      && (forall k :: 0 <= k < |records| ==>
            RecordFor(records[k], fileId, p.originalName, SegmentsOf(CleanText(p.textContent))))
  {
    var segments := SegmentsOf(CleanText(p.textContent));
    var records := Segmented(p, fileId, uuid);
    RecordsWellFormed(fileId, p.originalName, segments, uuid, |segments|);
    forall k | 0 <= k < |records| ensures RecordFor(records[k], fileId, p.originalName, segments) {
      assert records[k] in records;
    }
    ReplaceFileSegments(segs, fileId, records);
  }

  // ---------------------------------------------------------------------
  // update_segment_tags and batch_update_tags
  // ---------------------------------------------------------------------

  /** The `tags` argument: a list, or any other value. */
  datatype TagsArg = TagList(tags: seq<String>) | NotAList

  /** `update_segment_tags(segment_id, tags)`: an empty id or a `tags` that
      is not a list is rejected with 400 before the store is touched;
      otherwise the cleaned tags are set, and a missing segment gives 404. */
  method UpdateSegmentTags(db: SegmentStore, segmentId: String, tags: TagsArg) returns (r: Reply<TagUpdate>)
    modifies db
    ensures segmentId == [] || tags.NotAList? ==> r == Failure(400) && db.segments == old(db.segments)
    ensures segmentId != [] && tags.TagList? ==>
      var cleaned := CleanTags(tags.tags);
      && db.segments == SetTags(old(db.segments), TagUpdate(segmentId, cleaned))
      && r == if segmentId in SegmentIds(old(db.segments)) then Success(TagUpdate(segmentId, cleaned)) else Failure(404)
  {
    if segmentId == [] {
      return Failure(400);
    }
    if tags.NotAList? {
      return Failure(400);
    }
    var cleanedTags := CleanTags(tags.tags);
    var success := db.UpdateSegmentTags(segmentId, cleanedTags);
    if success {
      return Success(TagUpdate(segmentId, cleanedTags));
    } else {
      return Failure(404);
    }
  }

  /** The `segment_id` of an update entry: absent (read as `""`), a string,
      or another value such as `None`, whose `.strip()` raises. */
  datatype IdArg = IdAbsent | IdText(text: String) | IdOther

  /** One entry of `tag_updates`: a dict (an absent `tags` reads as `[]`),
      or anything else. */
  datatype UpdateArg = Entry(segmentId: IdArg, tags: TagsArg) | NotADict

  /** The validated form of one entry, if it passes: a dict whose stripped
      `segment_id` is non-empty and whose `tags` is a list. */
  function ValidUpdate(u: UpdateArg): Option<TagUpdate> {
    if u.Entry? && u.segmentId.IdText? && Strip(u.segmentId.text) != [] && u.tags.TagList? then
      Some(TagUpdate(Strip(u.segmentId.text), CleanTags(u.tags.tags)))
    else None
  }

  /** `validated_updates`: the entries that pass, in order. */
  function Validated(updates: seq<UpdateArg>): seq<TagUpdate> {
    if updates == [] then []
    else
      var n := |updates| - 1;
      var v := ValidUpdate(updates[n]);
      Validated(updates[..n]) + (if v.Some? then [v.value] else [])
  }

  /** Some entry's `segment_id` makes `.strip()` raise. */
  predicate Raises(updates: seq<UpdateArg>) {
    exists k :: 0 <= k < |updates| && updates[k].Entry? && updates[k].segmentId.IdOther?
  }

  /** Every validated update names a non-empty stripped segment id and
      carries stripped, non-empty tags; there are no more of them than
      entries. */
  lemma {:induction false} ValidatedSpec(updates: seq<UpdateArg>)
    ensures |Validated(updates)| <= |updates|
    ensures forall k :: 0 <= k < |Validated(updates)| ==>
      var u := Validated(updates)[k];
      && u.segmentId != [] && Strip(u.segmentId) == u.segmentId
      && (forall t :: 0 <= t < |u.tags| ==> u.tags[t] != [] && Strip(u.tags[t]) == u.tags[t])
  {
    if updates != [] {
      var n := |updates| - 1;
      ValidatedSpec(updates[..n]);
      var v := ValidUpdate(updates[n]);
      if v.Some? {
        StripIdempotent(updates[n].segmentId.text);
        CleanTagsSpec(updates[n].tags.tags);
      }
    }
  }

  /** The validation loop of `batch_update_tags`: `None` when an entry's
      `segment_id` raises. */
  method ValidateUpdates(updates: seq<UpdateArg>) returns (validated: Option<seq<TagUpdate>>)
    ensures validated.None? <==> Raises(updates)
    ensures validated.Some? ==> validated.value == Validated(updates)
  {
    var validatedUpdates: seq<TagUpdate> := [];
    for i := 0 to |updates|
      invariant !Raises(updates[..i])
      invariant validatedUpdates == Validated(updates[..i])
    {
      assert updates[..i + 1][..i] == updates[..i];
      var update := updates[i];
      if update.NotADict? {
        continue;
      }
      if update.segmentId.IdOther? {
        assert updates[i].Entry? && updates[i].segmentId.IdOther?;
        return None;
      }
      var segmentId := if update.segmentId.IdText? then Strip(update.segmentId.text) else [];
      if segmentId != [] && update.tags.TagList? {
        validatedUpdates := validatedUpdates + [TagUpdate(segmentId, CleanTags(update.tags.tags))];
      }
    }
    assert updates[..|updates|] == updates;
    return Some(validatedUpdates);
  }

  /** Python's `round`-half-to-even of `n / d`: the nearest integer, the
      even one on a tie. */
  function RoundHalfEven(n: nat, d: nat): nat
    requires d > 0
  {
    var q := n / d;
    var r := n % d;
    if 2 * r > d || (2 * r == d && q % 2 == 1) then q + 1 else q
  }

  /** `x.y` for a count of tenths. */
  function FormatTenths(t: nat): String {
    NatToString(t / 10) + "." + [DigitChar(t % 10)]
  }

  /** `f"{updated/total*100:.1f}%" if total > 0 else "0%"`, over the exact
      ratio. */
  function SuccessRate(updated: nat, total: nat): String {
    if total > 0 then FormatTenths(RoundHalfEven(updated * 1000, total)) + "%" else "0%"
  }

  /** The rounded quotient is within half a unit of the exact one. */
  lemma RoundHalfEvenNearest(n: nat, d: nat)
    requires d > 0
    ensures 2 * (RoundHalfEven(n, d) * d - n) <= d
    ensures 2 * (n - RoundHalfEven(n, d) * d) <= d
  {
    var q := n / d;
    var r := n % d;
    assert n == q * d + r;
    assert (q + 1) * d == q * d + d;
  }

  /** A ratio of at most one is at most 1000 tenths of a percent. */
  lemma RoundHalfEvenBound(updated: nat, total: nat)
    requires 0 < total && updated <= total
    ensures RoundHalfEven(updated * 1000, total) <= 1000
    ensures updated == total ==> RoundHalfEven(updated * 1000, total) == 1000
    ensures updated == 0 ==> RoundHalfEven(updated * 1000, total) == 0
  {
    var n := updated * 1000;
    var q := n / total;
    var r := n % total;
    assert n == q * total + r;
    assert n <= 1000 * total;
    MulMono(q, 1000, total);
    if updated == total {
      DivUnique(n, total, 1000, 0);
    }
    if updated == 0 {
      DivUnique(n, total, 0, 0);
    }
  }

  /** The rate is the number of tenths of a percent nearest to
      `updated/total`, at most 1000: all updated reads `100.0%` and none
      `0.0%`. */
  lemma SuccessRateSpec(updated: nat, total: nat)
    requires 0 < total && updated <= total
    ensures var t := RoundHalfEven(updated * 1000, total);
      && t <= 1000
      && 2 * (t * total - updated * 1000) <= total
      && 2 * (updated * 1000 - t * total) <= total
      && SuccessRate(updated, total) == FormatTenths(t) + "%"
    ensures updated == total ==> SuccessRate(updated, total) == "100.0%"
    ensures updated == 0 ==> SuccessRate(updated, total) == "0.0%"
  {
    RoundHalfEvenNearest(updated * 1000, total);
    RoundHalfEvenBound(updated, total);
    if updated == total {
      assert NatToString(10) == NatToString(1) + ['0'];
      assert NatToString(100) == NatToString(10) + ['0'];
    }
  }

  /** The data of a successful `batch_update_tags`. */
  datatype BatchReport = BatchReport(total: nat, updated: nat, failed: nat, successRate: String)

  /** `batch_update_tags(tag_updates)`: an empty list is rejected with 400,
      an entry whose id raises gives 500, no valid entry gives 400, all
      before the store is touched; otherwise the valid updates are applied
      in order and counted. */
  method BatchUpdateTags(db: SegmentStore, updates: seq<UpdateArg>) returns (r: Reply<BatchReport>)
    modifies db
    ensures updates == [] || Raises(updates) || Validated(updates) == [] ==>
      db.segments == old(db.segments)
      && r == Failure(if updates != [] && Raises(updates) then 500 else 400)
    ensures updates != [] && !Raises(updates) && Validated(updates) != [] ==>
      var v := Validated(updates);
      var n := CountFound(old(db.segments), v);
      && db.segments == ApplyTagUpdates(old(db.segments), v)
      && r == Success(BatchReport(|v|, n, |v| - n, SuccessRate(n, |v|)))
  {
    if updates == [] {
      return Failure(400);
    }
    var validated := ValidateUpdates(updates);
    if validated.None? {
      return Failure(500);
    }
    var validatedUpdates := validated.value;
    if validatedUpdates == [] {
      return Failure(400);
    }
    var updated, failed, total := db.BatchUpdateTags(validatedUpdates);
    var successRate := if total > 0 then FormatTenths(RoundHalfEven(updated * 1000, total)) + "%" else "0%";
    return Success(BatchReport(total, updated, failed, successRate));
  }

  // ---------------------------------------------------------------------
  // search_segments and get_segments_by_tags
  // ---------------------------------------------------------------------

  /** The query of `search_segments_by_keyword`: the pattern matches the
      text or one of the tags. `matches(pattern, subject)` is the
      case-insensitive regular-expression search. */
  function KeywordMatch(keyword: String, matches: (String, String) -> bool): SegmentRecord -> bool {
    (r: SegmentRecord) => matches(keyword, r.text) || exists t :: t in r.tags && matches(keyword, t)
  }

  /** The query `{"tags": {"$in": tags}}`. */
  function TagMatch(tags: seq<String>): SegmentRecord -> bool {
    (r: SegmentRecord) => exists t :: t in r.tags && t in tags
  }

  datatype KeywordResults = KeywordResults(keyword: String, totalFound: nat, limit: int, segments: seq<SegmentRecord>)

  datatype TagResults = TagResults(tags: seq<String>, totalFound: nat, limit: int, segments: seq<SegmentRecord>)

  /** `search_segments(keyword, limit)`: a blank keyword is rejected with
      400; otherwise the stripped keyword is searched with the clamped
      limit. */
  function SearchSegments(segs: seq<SegmentRecord>, keyword: String, limit: int, matches: (String, String) -> bool)
    : (r: Reply<KeywordResults>)
    ensures r.Failure? <==> IsBlank(keyword)
    ensures r.Failure? ==> r.code == 400
    ensures r.Success? ==>
      && r.data.keyword == Strip(keyword) && r.data.keyword != []
      && r.data.limit == ClampLimit(limit)
      && r.data.totalFound == |r.data.segments| <= r.data.limit
      && (forall k :: 0 <= k < |r.data.segments| ==>
            r.data.segments[k] in segs && KeywordMatch(r.data.keyword, matches)(r.data.segments[k]))
      && r.data.segments <= Filter(segs, KeywordMatch(r.data.keyword, matches))
      && r.data.totalFound
           == (if |Filter(segs, KeywordMatch(r.data.keyword, matches))| < r.data.limit then |Filter(segs, KeywordMatch(r.data.keyword, matches))| else r.data.limit)
      && (r.data.totalFound < r.data.limit ==>
            forall k :: 0 <= k < |segs| && KeywordMatch(r.data.keyword, matches)(segs[k]) ==> segs[k] in r.data.segments)
  {
    if IsBlank(keyword) then Failure(400)
    else
      var kw := Strip(keyword);
      var lim := ClampLimit(limit);
      var found := Filter(segs, KeywordMatch(kw, matches));
      FilterSound(segs, KeywordMatch(kw, matches));
      FilterComplete(segs, KeywordMatch(kw, matches));
      var segments := PyTake(found, lim);
      assert |found| < lim ==> segments == found;
      Success(KeywordResults(kw, |segments|, lim, segments))
  }

  /** `get_segments_by_tags(tags, limit)`: an empty list, or one whose tags
      are all blank, is rejected with 400; otherwise the segments carrying
      one of the cleaned tags are returned, up to the clamped limit. */
  function GetSegmentsByTags(segs: seq<SegmentRecord>, tags: seq<String>, limit: int): (r: Reply<TagResults>)
    ensures r.Failure? <==> CleanTags(tags) == []
    ensures r.Failure? ==> r.code == 400
    ensures r.Success? ==>
      && r.data.tags == CleanTags(tags)
      && r.data.limit == ClampLimit(limit)
      && r.data.totalFound == |r.data.segments| <= r.data.limit
      && (forall k :: 0 <= k < |r.data.segments| ==>
            r.data.segments[k] in segs && exists t :: t in r.data.segments[k].tags && t in CleanTags(tags))
      && r.data.segments <= Filter(segs, TagMatch(r.data.tags))
      && r.data.totalFound
           == (if |Filter(segs, TagMatch(r.data.tags))| < r.data.limit then |Filter(segs, TagMatch(r.data.tags))| else r.data.limit)
      && (r.data.totalFound < r.data.limit ==>
            forall k :: 0 <= k < |segs| && TagMatch(r.data.tags)(segs[k]) ==> segs[k] in r.data.segments)
  {
    if tags == [] then Failure(400)
    else
      var cleanedTags := CleanTags(tags);
      if cleanedTags == [] then Failure(400)
      else
        var lim := ClampLimit(limit);
        var found := Filter(segs, TagMatch(cleanedTags));
        FilterSound(segs, TagMatch(cleanedTags));
        FilterComplete(segs, TagMatch(cleanedTags));
        var segments := PyTake(found, lim);
        assert |found| < lim ==> segments == found;
        Success(TagResults(cleanedTags, |segments|, lim, segments))
  }
}
