/** The MongoDB collections the controllers read and write: the segment
    collection as a class whose record list the operations replace, and the
    parse records as a plain list the controllers only read. Documents are
    kept in insertion order; timestamps are left out. */
module Stores {
  import opened Wrappers
  import opened Text
  import opened SegmentSplit

  // ---------------------------------------------------------------------
  // Parse records
  // ---------------------------------------------------------------------

  /** A parse record: its own id, the uploaded file it belongs to, the
      extracted text, the uploaded name, and when it was parsed. */
  datatype ParseRecord = ParseRecord(id: String, fileId: String, textContent: String, originalName: String, parsedAt: nat)

  /** `get_parse_by_id(parse_id)`: the record with that id, if any. */
  function ParseById(parses: seq<ParseRecord>, id: String): (r: Option<ParseRecord>)
    ensures r.Some? ==> r.value in parses && r.value.id == id
    ensures r.None? <==> forall k :: 0 <= k < |parses| ==> parses[k].id != id
  {
    if parses == [] then None
    else if parses[0].id == id then Some(parses[0])
    else ParseById(parses[1..], id)
  }

  /** `get_parse_by_file_id(file_id)`: the most recently parsed record of
      the file (of equally recent ones, the earliest stored). */
  function LatestParse(parses: seq<ParseRecord>, fileId: String): (r: Option<ParseRecord>)
    ensures r.Some? ==> r.value in parses && r.value.fileId == fileId
    ensures r.Some? ==> forall k :: 0 <= k < |parses| && parses[k].fileId == fileId ==> parses[k].parsedAt <= r.value.parsedAt
    ensures r.None? <==> forall k :: 0 <= k < |parses| ==> parses[k].fileId != fileId
  {
    if parses == [] then None
    else
      var n := |parses| - 1;
      var rest := LatestParse(parses[..n], fileId);
      assert forall k :: 0 <= k < n ==> parses[k] == parses[..n][k];
      if parses[n].fileId != fileId then rest
      else if rest.Some? && rest.value.parsedAt >= parses[n].parsedAt then rest
      else Some(parses[n])
  }

  // ---------------------------------------------------------------------
  // Queries over the segment collection
  // ---------------------------------------------------------------------

  /** The records `keep` accepts, in stored order. */
  function Filter(segs: seq<SegmentRecord>, keep: SegmentRecord -> bool): (r: seq<SegmentRecord>)
    ensures |r| <= |segs|
  {
    if segs == [] then []
    else
      var n := |segs| - 1;
      Filter(segs[..n], keep) + (if keep(segs[n]) then [segs[n]] else [])
  }

  lemma {:induction false} FilterAppend(a: seq<SegmentRecord>, b: seq<SegmentRecord>, keep: SegmentRecord -> bool)
    ensures Filter(a + b, keep) == Filter(a, keep) + Filter(b, keep)
  {
    if b != [] {
      var n := |b| - 1;
      assert (a + b)[..|a + b| - 1] == a + b[..n];
      FilterAppend(a, b[..n], keep);
    } else {
      assert a + b == a;
    }
  }

  /** Every record kept is a stored record that `keep` accepts. */
  lemma {:induction false} FilterSound(segs: seq<SegmentRecord>, keep: SegmentRecord -> bool)
    ensures forall k :: 0 <= k < |Filter(segs, keep)| ==> Filter(segs, keep)[k] in segs && keep(Filter(segs, keep)[k])
  {
    if segs != [] {
      var n := |segs| - 1;
      FilterSound(segs[..n], keep);
      assert forall x :: x in segs[..n] ==> x in segs;
    }
  }

  /** Every stored record that `keep` accepts is kept. */
  lemma {:induction false} FilterComplete(segs: seq<SegmentRecord>, keep: SegmentRecord -> bool)
    ensures forall k :: 0 <= k < |segs| && keep(segs[k]) ==> segs[k] in Filter(segs, keep)
  {
    if segs != [] {
      var n := |segs| - 1;
      FilterComplete(segs[..n], keep);
      assert forall k :: 0 <= k < n ==> segs[k] == segs[..n][k];
    }
  }

  lemma {:induction false} FilterKeepsAll(segs: seq<SegmentRecord>, keep: SegmentRecord -> bool)
    requires forall k :: 0 <= k < |segs| ==> keep(segs[k])
    ensures Filter(segs, keep) == segs
  {
    if segs != [] {
      var n := |segs| - 1;
      FilterKeepsAll(segs[..n], keep);
      assert segs[..n] + [segs[n]] == segs;
    }
  }

  lemma {:induction false} FilterKeepsNone(segs: seq<SegmentRecord>, keep: SegmentRecord -> bool)
    requires forall k :: 0 <= k < |segs| ==> !keep(segs[k])
    ensures Filter(segs, keep) == []
  {
    if segs != [] {
      FilterKeepsNone(segs[..|segs| - 1], keep);
    }
  }

  /** The query `{"file_id": file_id}` and its negation. */
  function InFile(fileId: String): SegmentRecord -> bool {
    (r: SegmentRecord) => r.fileId == fileId
  }

  function NotInFile(fileId: String): SegmentRecord -> bool {
    (r: SegmentRecord) => r.fileId != fileId
  }

  /** `get_segments_by_file_id(file_id)` */
  function FileSegments(segs: seq<SegmentRecord>, fileId: String): seq<SegmentRecord> {
    Filter(segs, InFile(fileId))
  }

  /** What `delete_many({"file_id": file_id})` leaves behind. */
  function WithoutFile(segs: seq<SegmentRecord>, fileId: String): seq<SegmentRecord> {
    Filter(segs, NotInFile(fileId))
  }

  /** A delete splits the collection in two: the file's records, which are
      removed, and the rest, kept in order; no record of the file
      remains and no other file loses a record. */
  lemma {:induction false} WithoutFileSpec(segs: seq<SegmentRecord>, fileId: String)
    ensures |WithoutFile(segs, fileId)| + |FileSegments(segs, fileId)| == |segs|
    ensures FileSegments(WithoutFile(segs, fileId), fileId) == []
    ensures forall other :: other != fileId ==>
      FileSegments(WithoutFile(segs, fileId), other) == FileSegments(segs, other)
  {
    if segs != [] {
      var n := |segs| - 1;
      WithoutFileSpec(segs[..n], fileId);
      var rest := WithoutFile(segs[..n], fileId);
      var last := if segs[n].fileId != fileId then [segs[n]] else [];
      assert WithoutFile(segs, fileId) == rest + last;
      forall other | true
        ensures FileSegments(WithoutFile(segs, fileId), other) == FileSegments(rest, other) + FileSegments(last, other)
      {
        FilterAppend(rest, last, InFile(other));
      }
      if last != [] {
        assert FileSegments(last, fileId) == [];
      }
    }
  }

  /** A file's segments after its old ones are deleted and `records`, all
      of that file, are appended: exactly `records`; any other file keeps
      its own segments. */
  lemma ReplaceFileSegments(segs: seq<SegmentRecord>, fileId: String, records: seq<SegmentRecord>)
    requires forall k :: 0 <= k < |records| ==> records[k].fileId == fileId
    ensures FileSegments(WithoutFile(segs, fileId) + records, fileId) == records
    ensures forall other :: other != fileId ==>
      FileSegments(WithoutFile(segs, fileId) + records, other) == FileSegments(segs, other)
  {
    WithoutFileSpec(segs, fileId);
    FilterAppend(WithoutFile(segs, fileId), records, InFile(fileId));
    FilterKeepsAll(records, InFile(fileId));
    forall other | other != fileId
      ensures FileSegments(WithoutFile(segs, fileId) + records, other) == FileSegments(segs, other)
    {
      FilterAppend(WithoutFile(segs, fileId), records, InFile(other));
      FilterKeepsNone(records, InFile(other));
    }
  }

  /** The `segment_id` of every record, in stored order. */
  function SegmentIds(segs: seq<SegmentRecord>): seq<String> {
    seq(|segs|, k requires 0 <= k < |segs| => segs[k].segmentId)
  }

  /** One tag update: a segment id and the tags to set on it. */
  datatype TagUpdate = TagUpdate(segmentId: String, tags: seq<String>)

  /** What `update_one({"segment_id": id}, {"$set": {"tags": tags, ...}})`
      leaves: the first record with that id carries the new tags. */
  function SetTags(segs: seq<SegmentRecord>, update: TagUpdate): seq<SegmentRecord> {
    var i := IndexOf(SegmentIds(segs), update.segmentId);
    if i < |segs| then segs[i := segs[i].(tags := update.tags)] else segs
  }

  /** A tag update touches one record at most: the first with the id, which
      afterwards carries exactly the new tags; without such a record
      nothing changes. Ids and file membership never change. */
  lemma SetTagsSpec(segs: seq<SegmentRecord>, update: TagUpdate)
    ensures |SetTags(segs, update)| == |segs|
    ensures SegmentIds(SetTags(segs, update)) == SegmentIds(segs)
    ensures forall k :: 0 <= k < |segs| ==>
      SetTags(segs, update)[k].fileId == segs[k].fileId && SetTags(segs, update)[k].text == segs[k].text
    ensures update.segmentId !in SegmentIds(segs) ==> SetTags(segs, update) == segs
    ensures var i := IndexOf(SegmentIds(segs), update.segmentId);
      i < |segs| ==>
        && segs[i].segmentId == update.segmentId
        && (forall j :: 0 <= j < i ==> segs[j].segmentId != update.segmentId)
        && SetTags(segs, update)[i] == segs[i].(tags := update.tags)
        && (forall k :: 0 <= k < |segs| && k != i ==> SetTags(segs, update)[k] == segs[k])
  {
    var ids := SegmentIds(segs);
    var i := IndexOf(ids, update.segmentId);
    if i < |segs| {
      IndexOfFirst(ids, update.segmentId);
      forall j | 0 <= j < i ensures segs[j].segmentId != update.segmentId {
        assert ids[j] == segs[j].segmentId;
      }
      assert SegmentIds(SetTags(segs, update)) == ids;
    }
  }

  lemma {:induction false} IndexOfFirst(xs: seq<String>, w: String)
    ensures forall j :: 0 <= j < IndexOf(xs, w) ==> xs[j] != w
  {
    if xs != [] && xs[0] != w {
      IndexOfFirst(xs[1..], w);
    }
  }

  /** The updates applied one after the other. */
  function ApplyTagUpdates(segs: seq<SegmentRecord>, updates: seq<TagUpdate>): seq<SegmentRecord> {
    if updates == [] then segs
    else
      var n := |updates| - 1;
      SetTags(ApplyTagUpdates(segs, updates[..n]), updates[n])
  }

  /** How many of the updates name a segment id present in `segs`. */
  function CountFound(segs: seq<SegmentRecord>, updates: seq<TagUpdate>): (c: nat)
    ensures c <= |updates|
  {
    if updates == [] then 0
    else
      var n := |updates| - 1;
      CountFound(segs, updates[..n]) + (if updates[n].segmentId in SegmentIds(segs) then 1 else 0)
  }

  /** Tag updates never add, remove or rename a segment. */
  lemma {:induction false} ApplyTagUpdatesIds(segs: seq<SegmentRecord>, updates: seq<TagUpdate>)
    ensures SegmentIds(ApplyTagUpdates(segs, updates)) == SegmentIds(segs)
  {
    if updates != [] {
      var n := |updates| - 1;
      ApplyTagUpdatesIds(segs, updates[..n]);
      SetTagsSpec(ApplyTagUpdates(segs, updates[..n]), updates[n]);
    }
  }

  // ---------------------------------------------------------------------
  // The segment collection
  // ---------------------------------------------------------------------

  class SegmentStore {
    /** The documents of the `segments` collection, in insertion order. */
    var segments: seq<SegmentRecord>

    constructor(segments: seq<SegmentRecord>)
      ensures this.segments == segments
    {
      this.segments := segments;
    }

    /** `save_segments(segments_data)`: nothing to save is a success;
        otherwise the records are appended when `insert_many` goes through
        (`inserted`) and the answer says whether it did. */
    method SaveSegments(segmentsData: seq<SegmentRecord>, inserted: bool) returns (ok: bool)
      modifies this
      ensures segmentsData == [] ==> ok && segments == old(segments)
      ensures segmentsData != [] ==>
        ok == inserted && segments == if inserted then old(segments) + segmentsData else old(segments)
    {
      if segmentsData == [] {
        return true;
      }
      if !inserted {
        return false;
      }
      segments := segments + segmentsData;
      return true;
    }

    /** `delete_segments_by_file_id(file_id)`: removes the file's records
        and reports how many there were. */
    method DeleteSegmentsByFileId(fileId: String) returns (deleted: nat)
      modifies this
      ensures segments == WithoutFile(old(segments), fileId)
      ensures deleted == |FileSegments(old(segments), fileId)|
      ensures deleted + |segments| == |old(segments)|
    {
      WithoutFileSpec(segments, fileId);
      deleted := |FileSegments(segments, fileId)|;
      segments := WithoutFile(segments, fileId);
    }

    /** `update_segment_tags(segment_id, tags)`: True exactly when a record
        with that id exists (the update always rewrites `updated_at`, so a
        matched record always counts as modified). */
    method UpdateSegmentTags(segmentId: String, tags: seq<String>) returns (success: bool)
      modifies this
      ensures success <==> segmentId in SegmentIds(old(segments))
      ensures segments == SetTags(old(segments), TagUpdate(segmentId, tags))
    {
      success := IndexOf(SegmentIds(segments), segmentId) < |segments|;
      segments := SetTags(segments, TagUpdate(segmentId, tags));
    }

    /** `batch_update_tags(tag_updates)`: the updates in order, counting
        those whose segment exists and those whose segment does not. */
    method BatchUpdateTags(updates: seq<TagUpdate>) returns (updated: nat, failed: nat, total: nat)
      modifies this
      ensures segments == ApplyTagUpdates(old(segments), updates)
      ensures updated == CountFound(old(segments), updates)
      ensures total == |updates| && updated + failed == total
    {
      ghost var start := segments;
      updated, failed := 0, 0;
      for i := 0 to |updates|
        invariant segments == ApplyTagUpdates(start, updates[..i])
        invariant updated == CountFound(start, updates[..i])
        invariant updated + failed == i
      {
        assert updates[..i + 1][..i] == updates[..i];
        ApplyTagUpdatesIds(start, updates[..i]);
        var ok := UpdateSegmentTags(updates[i].segmentId, updates[i].tags);
        if ok {
          updated := updated + 1;
        } else {
          failed := failed + 1;
        }
      }
      assert updates[..|updates|] == updates;
      total := |updates|;
    }
  }
}
