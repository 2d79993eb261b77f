/** The file controller: which uploads are accepted, the names they are
    saved under, the paged file listing, and deletion of a file and its
    record. The upload folder and the database collection are the state of
    a `FileController`; what the file system and the database answer for
    one file is part of its input. */
module Files {
  import opened Wrappers
  import opened Text

  // ---------------------------------------------------------------------
  // Names and extensions
  // ---------------------------------------------------------------------

  /** `s.rfind(c)`: the last position of `c` in `s`, or -1. */
  function RFind(s: String, c: char): (i: int)
    ensures -1 <= i < |s|
    ensures i >= 0 ==> s[i] == c
    ensures forall k :: i < k < |s| ==> s[k] != c
    decreases |s|
  {
    if s == [] then -1
    else if s[|s| - 1] == c then |s| - 1
    else RFind(s[..|s| - 1], c)
  }

  /** `filename.rsplit('.', 1)[1]`: the text after the last '.'. */
  function Extension(filename: String): (ext: String)
    requires '.' in filename
  {
    filename[RFind(filename, '.') + 1..]
  }

  /** `allowed_file(filename)` */
  predicate AllowedFile(filename: String, allowed: set<String>) {
    '.' in filename && Lower(Extension(filename)) in allowed
  }

  /** Position `i` holds the last '.' of `filename`. */
  predicate LastDotAt(filename: String, i: int) {
    0 <= i < |filename| && filename[i] == '.' && forall k :: i < k < |filename| ==> filename[k] != '.'
  }

  lemma LastDotIsRFind(filename: String, i: int)
    requires LastDotAt(filename, i)
    ensures RFind(filename, '.') == i
  {
  }

  /** A name is allowed exactly when it has a '.' and the lower-cased text
      after its last '.' is an allowed extension. */
  lemma AllowedFileSpec(filename: String, allowed: set<String>)
    ensures AllowedFile(filename, allowed) <==>
      exists i :: LastDotAt(filename, i) && Lower(filename[i + 1..]) in allowed
  {
    if AllowedFile(filename, allowed) {
      assert LastDotAt(filename, RFind(filename, '.'));
    }
    if exists i :: LastDotAt(filename, i) && Lower(filename[i + 1..]) in allowed {
      var i :| LastDotAt(filename, i) && Lower(filename[i + 1..]) in allowed;
      LastDotIsRFind(filename, i);
    }
  }

  /** The type recorded for an upload: the lower-cased text after the last
      '.' of the name as sent, or nothing. */
  function FileType(filename: String): String {
    if '.' in filename then Lower(Extension(filename)) else []
  }

  /** `os.path.splitext(p)[1]` for POSIX paths: from the last '.' of the last
      path component, unless everything before that '.' in the component is
      a '.' as well. */
  function SplitExt(p: String): (ext: String)
    ensures |ext| <= |p| && ext == p[|p| - |ext|..]
    ensures ext == [] || (ext[0] == '.' && '.' !in ext[1..] && '/' !in ext)
  {
    var sep := RFind(p, '/');
    var dot := RFind(p, '.');
    if dot > sep && exists k :: sep + 1 <= k < dot && p[k] != '.' then p[dot..] else []
  }

  /** `generate_unique_filename(original_filename)`, with the time stamp and
      the UUID given. */
  function UniqueFilename(original: String, timestamp: String, uniqueId: String): String {
    timestamp + "_" + uniqueId + Lower(SplitExt(original))
  }

  lemma LowerAppend(a: String, b: String)
    ensures Lower(a + b) == Lower(a) + Lower(b)
  {
    assert forall k :: 0 <= k < |a + b| ==> Lower(a + b)[k] == (Lower(a) + Lower(b))[k];
  }

  /** Lower-casing keeps a string's length and its '.' characters where
      they are. */
  lemma LowerKeepsDots(s: String)
    ensures |Lower(s)| == |s|
    ensures forall k :: 0 <= k < |s| ==> (Lower(s)[k] == '.' <==> s[k] == '.')
  {
  }

  /** A unique name is the time stamp, '_', the UUID and the lower-cased
      extension of the original name, which is empty or a '.' followed by
      no other '.'. */
  lemma UniqueFilenameShape(original: String, timestamp: String, uniqueId: String)
    ensures var r := UniqueFilename(original, timestamp, uniqueId);
      var n := |timestamp| + 1 + |uniqueId|;
      && n <= |r| && r[..n] == timestamp + "_" + uniqueId
      && (n == |r| || (r[n] == '.' && forall k :: n < k < |r| ==> r[k] != '.'))
  {
    var ext := SplitExt(original);
    var lext := Lower(ext);
    assert forall k :: 1 <= k < |ext| ==> ext[k] == ext[1..][k - 1];
    assert ext != [] ==> ext[0] == '.' && forall k :: 1 <= k < |ext| ==> ext[k] != '.';
    LowerKeepsDots(ext);
    var prefix := timestamp + "_" + uniqueId;
    assert UniqueFilename(original, timestamp, uniqueId) == prefix + lext;
    assert forall k :: |prefix| <= k < |prefix + lext| ==> (prefix + lext)[k] == lext[k - |prefix|];
  }

  /** For a plain file name (no '/') that does not start with '.', the
      extension of the unique name is the type the type check looks at. */
  lemma UniqueFilenameExtension(original: String, timestamp: String, uniqueId: String)
    requires '/' !in original && '.' in original && original[0] != '.'
    ensures UniqueFilename(original, timestamp, uniqueId) == timestamp + "_" + uniqueId + "." + FileType(original)
  {
    var e := Extension(original);
    SplitExtPlain(original);
    LowerDotPrefix(e);
  }

  /** A name without a '.' gives a unique name without an extension. */
  lemma UniqueFilenameNoExtension(original: String, timestamp: String, uniqueId: String)
    requires '.' !in original
    ensures UniqueFilename(original, timestamp, uniqueId) == timestamp + "_" + uniqueId
  {
    assert RFind(original, '.') == -1;
  }

  lemma LowerDotPrefix(e: String)
    ensures Lower("." + e) == "." + Lower(e)
  {
    LowerAppend(".", e);
    assert Lower(".") == ".";
  }

  /** A plain name that does not start with '.' has the extension `rsplit`
      finds. */
  lemma SplitExtPlain(p: String)
    requires '/' !in p && '.' in p && p[0] != '.'
    ensures SplitExt(p) == "." + Extension(p)
  {
    assert RFind(p, '/') == -1;
    var dot := RFind(p, '.');
    assert 0 < dot && p[0] != '.';
    assert p[dot..] == [p[dot]] + p[dot + 1..];
  }

  /** `os.path.join(folder, name)` */
  function JoinPath(folder: String, name: String): String {
    if name != [] && name[0] == '/' then name
    else if folder == [] || folder[|folder| - 1] == '/' then folder + name
    else folder + "/" + name
  }

  // ---------------------------------------------------------------------
  // upload_files
  // ---------------------------------------------------------------------

  /** One element of the uploaded `files` list. A `Part` is a `FileStorage`,
      with what the file system and the database answer for it: its size,
      the name `secure_filename` gives it, the time stamp and UUID of its
      unique name, whether `save_uploaded_file` gets through (`written`),
      and the id `create_file_record` returns, if any. */
  datatype Upload =
    | NotAFile(filename: String)
    | Part(filename: String, size: nat, secureName: String, timestamp: String, uniqueId: String,
           written: bool, recordId: Option<String>)

  /** Why an upload lands in `failed`. */
  datatype UploadError = InvalidFile | TypeNotAllowed | TooLarge | SaveFailed | RecordFailed

  /** A `success` entry. */
  datatype Uploaded = Uploaded(id: String, filename: String, savedAs: String, size: nat, fileType: String)

  /** A `failed` entry. */
  datatype Rejected = Rejected(filename: String, error: UploadError)

  /** A document of the `files` collection. */
  datatype FileRecord = FileRecord(id: String, name: String, originalName: String, path: String,
                                   fileType: String, size: nat)

  /** The deployment settings the controller reads. */
  datatype Settings = Settings(uploadFolder: String, allowedExtensions: set<String>, maxFileSize: nat)

  /** The checks an upload goes through, in order; `None` when it passes
      them all. */
  function UploadCheck(u: Upload, cfg: Settings): Option<UploadError> {
    if u.NotAFile? || u.filename == [] then Some(InvalidFile)
    else if !AllowedFile(u.filename, cfg.allowedExtensions) then Some(TypeNotAllowed)
    else if u.size > cfg.maxFileSize then Some(TooLarge)
    else if !u.written then Some(SaveFailed)
    else if u.recordId.None? then Some(RecordFailed)
    else None
  }

  /** Where an upload is saved. */
  function SavedPath(u: Upload, cfg: Settings): String
    requires u.Part?
  {
    JoinPath(cfg.uploadFolder, UniqueFilename(u.secureName, u.timestamp, u.uniqueId))
  }

  /** The record `create_file_record` stores for an accepted upload. */
  function RecordOf(u: Upload, cfg: Settings): FileRecord
    requires u.Part? && u.recordId.Some?
  {
    FileRecord(u.recordId.value, UniqueFilename(u.secureName, u.timestamp, u.uniqueId), u.secureName,
               SavedPath(u, cfg), FileType(u.filename), u.size)
  }

  /** What one upload adds to `success`: its entry when it passes. */
  function SuccessOf(u: Upload, cfg: Settings): seq<Uploaded> {
    if UploadCheck(u, cfg).None? then
      [Uploaded(u.recordId.value, u.filename, UniqueFilename(u.secureName, u.timestamp, u.uniqueId),
                u.size, FileType(u.filename))]
    else []
  }

  /** What one upload adds to `failed`: its entry when a check stops it. */
  function FailureOf(u: Upload, cfg: Settings): seq<Rejected> {
    match UploadCheck(u, cfg)
    case Some(e) => [Rejected(u.filename, e)]
    case None => []
  }

  /** What one upload adds to the collection. */
  function RecordsOf(u: Upload, cfg: Settings): seq<FileRecord> {
    if UploadCheck(u, cfg).None? then [RecordOf(u, cfg)] else []
  }

  /** The `success` entries of a list of uploads, in order. */
  function Successes(us: seq<Upload>, cfg: Settings): seq<Uploaded> {
    if us == [] then [] else Successes(us[..|us| - 1], cfg) + SuccessOf(us[|us| - 1], cfg)
  }

  /** The `failed` entries of a list of uploads, in order. */
  function Failures(us: seq<Upload>, cfg: Settings): seq<Rejected> {
    if us == [] then [] else Failures(us[..|us| - 1], cfg) + FailureOf(us[|us| - 1], cfg)
  }

  /** The records a list of uploads adds to the collection, in order. */
  function NewRecords(us: seq<Upload>, cfg: Settings): seq<FileRecord> {
    if us == [] then [] else NewRecords(us[..|us| - 1], cfg) + RecordsOf(us[|us| - 1], cfg)
  }

  /** The files in the upload folder after one upload: a file that passes
      the checks before saving and is written stays only when its record is
      stored; one whose record fails is removed again. */
  function DiskStep(disk: set<String>, u: Upload, cfg: Settings): set<String> {
    match UploadCheck(u, cfg)
    case None => disk + {SavedPath(u, cfg)}
    case Some(RecordFailed) => disk - {SavedPath(u, cfg)}
    case Some(_) => disk
  }

  /** The files in the upload folder after a list of uploads. */
  function DiskAfter(disk: set<String>, us: seq<Upload>, cfg: Settings): set<String> {
    if us == [] then disk else DiskStep(DiskAfter(disk, us[..|us| - 1], cfg), us[|us| - 1], cfg)
  }

  /** Every upload lands in exactly one of `success` and `failed`, in the
      order of the input, and every success has its record, with the same
      id, saved name, size and type. */
  lemma {:induction false} UploadPartition(us: seq<Upload>, cfg: Settings)
    ensures |Successes(us, cfg)| + |Failures(us, cfg)| == |us|
    ensures |NewRecords(us, cfg)| == |Successes(us, cfg)|
    ensures forall k :: 0 <= k < |Successes(us, cfg)| ==>
      var s := Successes(us, cfg)[k];
      var rec := NewRecords(us, cfg)[k];
      rec.id == s.id && rec.name == s.savedAs && rec.size == s.size && rec.fileType == s.fileType
  {
    if us != [] {
      UploadPartition(us[..|us| - 1], cfg);
    }
  }

  /** Everything in `success` passed the type and size checks: its type is
      an allowed extension and its size is within the limit. */
  lemma {:induction false} SuccessesAllowed(us: seq<Upload>, cfg: Settings)
    ensures forall k :: 0 <= k < |Successes(us, cfg)| ==>
      Successes(us, cfg)[k].fileType in cfg.allowedExtensions && Successes(us, cfg)[k].size <= cfg.maxFileSize
  {
    if us != [] {
      SuccessesAllowed(us[..|us| - 1], cfg);
    }
  }

  /** An upload that is not a file, has an empty name, a type that is not
      allowed or is too large is turned away before anything is written, and
      so is one whose save fails: the folder is as it was and no record is
      added. One whose record fails is not left in the folder. One that
      passes is in the folder under the path its record names. */
  lemma UploadStep(disk: set<String>, u: Upload, cfg: Settings)
    ensures UploadCheck(u, cfg).Some? && UploadCheck(u, cfg) != Some(RecordFailed) ==>
      DiskStep(disk, u, cfg) == disk && RecordsOf(u, cfg) == []
    ensures UploadCheck(u, cfg) == Some(RecordFailed) ==>
      SavedPath(u, cfg) !in DiskStep(disk, u, cfg) && RecordsOf(u, cfg) == []
      && FailureOf(u, cfg) == [Rejected(u.filename, RecordFailed)]
    ensures UploadCheck(u, cfg).None? ==>
      RecordsOf(u, cfg) == [RecordOf(u, cfg)] && RecordOf(u, cfg).path in DiskStep(disk, u, cfg)
    ensures |SuccessOf(u, cfg)| + |FailureOf(u, cfg)| == 1
    ensures !AllowedFile(u.filename, cfg.allowedExtensions) ==> SuccessOf(u, cfg) == []
  {
  }

  // ---------------------------------------------------------------------
  // get_all_files
  // ---------------------------------------------------------------------

  /** `cursor.skip(skip).limit(limit)`: a limit of 0 is no limit; a negative
      one returns at most its absolute value. */
  function Window<T>(xs: seq<T>, skip: nat, limit: int): (r: seq<T>)
    ensures |r| <= |xs|
  {
    var rest := if skip <= |xs| then xs[skip..] else [];
    var n := if limit < 0 then -limit else limit;
    if limit == 0 || n >= |rest| then rest else rest[..n]
  }

  datatype Pagination = Pagination(page: int, perPage: int, total: nat, pages: int)

  datatype FileList<T> = FileList(files: seq<T>, pagination: Pagination)

  /** `get_all_files(page, per_page)` over the collection listed newest
      first. A negative skip makes the cursor raise and a zero page size
      makes the page count divide by zero: both are `None`. */
  function GetAllFiles<T>(listing: seq<T>, page: int, perPage: int): Option<FileList<T>> {
    var skip := (page - 1) * perPage;
    if skip < 0 || perPage == 0 then None
    else
      var total := |listing|;
      Some(FileList(Window(listing, skip, perPage),
                    Pagination(page, perPage, total, FloorDiv(total + perPage - 1, perPage))))
  }

  /** For a positive page size the page count is the ceiling of the total
      over the page size. */
  lemma PagesIsCeiling<T>(listing: seq<T>, page: int, perPage: int)
    requires perPage > 0 && page >= 1
    ensures GetAllFiles(listing, page, perPage).Some?
    ensures var p := GetAllFiles(listing, page, perPage).value.pagination;
      && p.total == |listing|
      && p.pages >= 0
      && (p.pages == 0 <==> |listing| == 0)
      && (p.pages - 1) * perPage < |listing| <= p.pages * perPage
  {
    MulNonNeg(page - 1, perPage);
    CeilDiv(|listing|, perPage);
  }

  /** `(n + d - 1) // d` is the ceiling of `n / d` for a positive `d`. */
  lemma CeilDiv(n: nat, d: int)
    requires d > 0
    ensures var q := FloorDiv(n + d - 1, d);
      q >= 0 && (q == 0 <==> n == 0) && (q - 1) * d < n <= q * d
  {
    var q := FloorDiv(n + d - 1, d);
    var qd := q * d;
    assert qd <= n + d - 1 < qd + d;
    assert (q - 1) * d == qd - d;
    if q < 0 {
      MulStep(0, q, d);
      assert false;
    }
    if q > 0 {
      MulLe(1, q, d);
    }
  }

  lemma MulNonNeg(a: int, b: int)
    requires a >= 0 && b >= 0
    ensures a * b >= 0
  {
  }

  /** Every file of the listing is on exactly one page: the one numbered
      `j / per_page + 1`, at position `j % per_page`; that page is within the
      page count, and every page past the count is empty. */
  lemma PageOfIndex<T>(listing: seq<T>, perPage: int, j: int)
    requires perPage > 0 && 0 <= j < |listing|
    ensures var page := j / perPage + 1;
      && GetAllFiles(listing, page, perPage).Some?
      && j % perPage < |GetAllFiles(listing, page, perPage).value.files|
      && GetAllFiles(listing, page, perPage).value.files[j % perPage] == listing[j]
      && page <= GetAllFiles(listing, page, perPage).value.pagination.pages
  {
    var page := j / perPage + 1;
    var skip := (page - 1) * perPage;
    assert skip == j / perPage * perPage;
    assert j == skip + j % perPage;
    PagesIsCeiling(listing, page, perPage);
    var pages := GetAllFiles(listing, page, perPage).value.pagination.pages;
    assert skip < pages * perPage;
    MulStrict(page - 1, pages, perPage);
  }

  /** A page past the page count is empty. */
  lemma PagePastEnd<T>(listing: seq<T>, page: int, perPage: int)
    requires perPage > 0 && page >= 1
    requires page > GetAllFiles(listing, page, perPage).value.pagination.pages
    ensures GetAllFiles(listing, page, perPage).value.files == []
  {
    PagesIsCeiling(listing, page, perPage);
    var pages := GetAllFiles(listing, page, perPage).value.pagination.pages;
    MulLe(pages, page - 1, perPage);
    MulNonNeg(page - 1, perPage);
  }

  // ---------------------------------------------------------------------
  // delete_file
  // ---------------------------------------------------------------------

  /** `get_file_by_id(file_id)`: the first record with that id. An id that
      is not a valid ObjectId matches no record. */
  function FindFile(records: seq<FileRecord>, fileId: String): (r: Option<FileRecord>)
    ensures r.Some? ==> r.value in records && r.value.id == fileId
    ensures r.None? <==> forall k :: 0 <= k < |records| ==> records[k].id != fileId
  {
    if records == [] then None
    else if records[0].id == fileId then Some(records[0])
    else FindFile(records[1..], fileId)
  }

  /** `delete_one({'_id': file_id})`: drops the first record with that id. */
  function RemoveFile(records: seq<FileRecord>, fileId: String): seq<FileRecord> {
    if records == [] then []
    else if records[0].id == fileId then records[1..]
    else [records[0]] + RemoveFile(records[1..], fileId)
  }

  /** Removing takes out one record when the id is found and none
      otherwise. With distinct ids, it leaves every other record and no
      record with that id. */
  lemma {:induction false} RemoveFileSpec(records: seq<FileRecord>, fileId: String)
    requires forall i, j :: 0 <= i < j < |records| ==> records[i].id != records[j].id
    ensures |RemoveFile(records, fileId)| == if FindFile(records, fileId).Some? then |records| - 1 else |records|
    ensures forall k :: 0 <= k < |RemoveFile(records, fileId)| ==> RemoveFile(records, fileId)[k].id != fileId
    ensures forall x :: x in RemoveFile(records, fileId) <==> x in records && x.id != fileId
  {
    if records != [] {
      RemoveFileSpec(records[1..], fileId);
      if records[0].id == fileId {
        assert forall x :: x in records[1..] ==> x.id != fileId;
      }
    }
  }

  /** Deleting the record an upload has just added gives back the
      collection as it was, when the new id is not already taken. */
  lemma {:induction false} RemoveFileUndoesUpload(records: seq<FileRecord>, rec: FileRecord)
    requires forall k :: 0 <= k < |records| ==> records[k].id != rec.id
    ensures RemoveFile(records + [rec], rec.id) == records
  {
    if records == [] {
      assert records + [rec] == [rec];
    } else {
      var rs := records + [rec];
      assert rs[0] == records[0] && records[0].id != rec.id;
      assert rs[1..] == records[1..] + [rec];
      RemoveFileUndoesUpload(records[1..], rec);
      assert RemoveFile(rs, rec.id) == [records[0]] + records[1..];
    }
  }

  /** The upload summaries of a prefix grow by one file at a time. */
  lemma UploadsStep(files: seq<Upload>, i: int, cfg: Settings)
    requires 0 <= i < |files|
    ensures Successes(files[..i + 1], cfg) == Successes(files[..i], cfg) + SuccessOf(files[i], cfg)
    ensures Failures(files[..i + 1], cfg) == Failures(files[..i], cfg) + FailureOf(files[i], cfg)
    ensures NewRecords(files[..i + 1], cfg) == NewRecords(files[..i], cfg) + RecordsOf(files[i], cfg)
    ensures forall disk :: DiskAfter(disk, files[..i + 1], cfg) == DiskStep(DiskAfter(disk, files[..i], cfg), files[i], cfg)
  {
    assert files[..i + 1][..i] == files[..i];
  }

  /** What `delete_file` answers. */
  datatype Deletion = FileNotFound | Deleted(fileDeleted: bool) | RecordNotDeleted

  // ---------------------------------------------------------------------
  // The controller
  // ---------------------------------------------------------------------

  class FileController {
    const settings: Settings
    /** The documents of the `files` collection, in insertion order. */
    var records: seq<FileRecord>
    /** The paths present on disk. */
    var disk: set<String>

    constructor(settings: Settings, records: seq<FileRecord>, disk: set<String>)
      ensures this.settings == settings && this.records == records && this.disk == disk
    {
      this.settings := settings;
      this.records := records;
      this.disk := disk;
    }

    /** The body of the `upload_files` loop for one file: the checks in
        order, the save, and the record, with the file removed again when
        the record fails. */
    method UploadOne(file: Upload) returns (s: seq<Uploaded>, f: seq<Rejected>)
      modifies this
      ensures s == SuccessOf(file, settings) && f == FailureOf(file, settings)
      ensures records == old(records) + RecordsOf(file, settings)
      ensures disk == DiskStep(old(disk), file, settings)
    {
      s, f := [], [];
      if file.NotAFile? || file.filename == [] {
        f := [Rejected(file.filename, InvalidFile)];
        return;
      }
      if !AllowedFile(file.filename, settings.allowedExtensions) {
        f := [Rejected(file.filename, TypeNotAllowed)];
        return;
      }
      if file.size > settings.maxFileSize {
        f := [Rejected(file.filename, TooLarge)];
        return;
      }
      if !file.written {
        f := [Rejected(file.filename, SaveFailed)];
        return;
      }
      var name := UniqueFilename(file.secureName, file.timestamp, file.uniqueId);
      var path := JoinPath(settings.uploadFolder, name);
      disk := disk + {path};
      if file.recordId.None? {
        disk := disk - {path};
        f := [Rejected(file.filename, RecordFailed)];
        return;
      }
      var fileType := FileType(file.filename);
      records := records + [FileRecord(file.recordId.value, name, file.secureName, path, fileType, file.size)];
      s := [Uploaded(file.recordId.value, file.filename, name, file.size, fileType)];
    }

    /** `upload_files(files)`: every file is checked, saved and recorded in
        turn; the answer lists the successes and failures in input order
        and the number of files. */
    method UploadFiles(files: seq<Upload>) returns (success: seq<Uploaded>, failed: seq<Rejected>, total: nat)
      modifies this
      ensures success == Successes(files, settings) && failed == Failures(files, settings)
      ensures total == |files|
      ensures records == old(records) + NewRecords(files, settings)
      ensures disk == DiskAfter(old(disk), files, settings)
    {
      success, failed := [], [];
      ghost var records0, disk0 := records, disk;
      for i := 0 to |files|
        invariant success == Successes(files[..i], settings) && failed == Failures(files[..i], settings)
        invariant records == records0 + NewRecords(files[..i], settings)
        invariant disk == DiskAfter(disk0, files[..i], settings)
      {
        UploadsStep(files, i, settings);
        var s, f := UploadOne(files[i]);
        success, failed := success + s, failed + f;
      }
      assert files[..|files|] == files;
      total := |files|;
    }

    /** `delete_file(file_id)`: an unknown id changes nothing. Otherwise the
        file is removed from disk unless the removal fails (`removeFails`);
        a file already gone counts as deleted. The record is then removed
        unless the database fails (`dbFails`), and the local file stays
        deleted even then. */
    method DeleteFile(fileId: String, removeFails: bool, dbFails: bool) returns (r: Deletion)
      modifies this
      ensures FindFile(old(records), fileId).None? ==>
        r == FileNotFound && records == old(records) && disk == old(disk)
      ensures FindFile(old(records), fileId).Some? ==>
        var path := FindFile(old(records), fileId).value.path;
        && disk == (if path in old(disk) && !removeFails then old(disk) - {path} else old(disk))
        && records == (if dbFails then old(records) else RemoveFile(old(records), fileId))
        && r == (if dbFails then RecordNotDeleted else Deleted(path !in old(disk) || !removeFails))
    {
      var info := FindFile(records, fileId);
      if info.None? {
        return FileNotFound;
      }
      var path := info.value.path;
      var fileDeleted := false;
      if path in disk {
        if !removeFails {
          disk := disk - {path};
          fileDeleted := true;
        }
      } else {
        fileDeleted := true;
      }
      if dbFails {
        return RecordNotDeleted;
      }
      records := RemoveFile(records, fileId);
      return Deleted(fileDeleted);
    }
  }
}
