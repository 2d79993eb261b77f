/** The document parsing service: which reader a file type goes to, and
    the one-line summary of a parsed text. The readers themselves are
    oracles. */
module Parsing {
  import opened Wrappers
  import opened Text

  /** `supported_types` */
  const SupportedTypes: set<String> := {"pdf", "docx", "doc", "txt"}

  /** `_parse_pdf`, `_parse_docx` and `_parse_txt`. */
  datatype Reader = PdfReader | DocxReader | TxtReader

  /** The reader a type goes to after `lower()`, if it is supported. */
  function ReaderFor(fileType: String): Option<Reader> {
    var t := Lower(fileType);
    if t !in SupportedTypes then None
    else if t == "pdf" then Some(PdfReader)
    else if t == "docx" || t == "doc" then Some(DocxReader)
    else Some(TxtReader)
  }

  /** `parse_document(file_path, file_type)`: a missing file fails first,
      then an unsupported type; a supported one gets its reader's answer.
      `fileExists` is `os.path.exists(file_path)` and `read` the readers. */
  function ParseDocument(fileExists: bool, fileType: String, read: Reader -> Result<String>): Result<String> {
    if !fileExists then Err("file does not exist")
    else
      match ReaderFor(fileType)
      case None => Err("unsupported file type")
      case Some(reader) => read(reader)
  }

  /** A document is read only when the file exists and its lower-cased
      type is supported; PDF goes to the PDF reader, DOCX and DOC to the
      Word reader, TXT to the text reader. */
  lemma ParseDocumentSpec(fileExists: bool, fileType: String, read: Reader -> Result<String>)
    ensures !fileExists ==> ParseDocument(fileExists, fileType, read).Err?
    ensures fileExists && Lower(fileType) !in SupportedTypes ==> ParseDocument(fileExists, fileType, read).Err?
    ensures ReaderFor(fileType).Some? <==> Lower(fileType) in SupportedTypes
    ensures Lower(fileType) == "pdf" ==> ReaderFor(fileType) == Some(PdfReader)
    ensures Lower(fileType) in {"docx", "doc"} ==> ReaderFor(fileType) == Some(DocxReader)
    ensures Lower(fileType) == "txt" ==> ReaderFor(fileType) == Some(TxtReader)
    ensures fileExists && Lower(fileType) in SupportedTypes ==>
      ParseDocument(fileExists, fileType, read) == read(ReaderFor(fileType).value)
  {
  }

  /** The type check is blind to case: a type and its lower-cased form go
      to the same reader. */
  lemma ReaderForCaseBlind(fileType: String)
    ensures ReaderFor(Lower(fileType)) == ReaderFor(fileType)
  {
    assert Lower(Lower(fileType)) == Lower(fileType);
  }

  // ---------------------------------------------------------------------
  // get_text_summary
  // ---------------------------------------------------------------------

  /** `text.replace('\n', ' ').replace('\r', ' ')` */
  function ReplaceBreaks(s: String): (r: String)
    ensures |r| == |s|
  {
    seq(|s|, i requires 0 <= i < |s| => if s[i] == '\n' || s[i] == '\r' then ' ' else s[i])
  }

  /** `' '.join(clean_text.split())` after the line breaks are replaced. */
  function SummaryText(text: String): String {
    Join(Words(ReplaceBreaks(text)), " ")
  }

  /** `get_text_summary(text, max_length)` */
  function GetTextSummary(text: String, maxLength: int): String {
    if text == [] then []
    else
      var cleanText := SummaryText(text);
      if |cleanText| <= maxLength then cleanText else PyTake(cleanText, maxLength) + "..."
  }

  /** The cleaned text has no whitespace at either end, no whitespace but
      single spaces, and keeps every word of the text, in order. */
  lemma SummaryTextShape(text: String)
    ensures IsStripped(SummaryText(text))
    ensures forall i :: 0 <= i < |SummaryText(text)| && IsSpace(SummaryText(text)[i]) ==> SummaryText(text)[i] == ' '
    ensures forall i :: 0 <= i < |SummaryText(text)| - 1 ==>
      !(IsSpace(SummaryText(text)[i]) && IsSpace(SummaryText(text)[i + 1]))
    ensures Words(SummaryText(text)) == Words(ReplaceBreaks(text))
  {
    WordsAreWords(ReplaceBreaks(text));
    JoinWordsShape(Words(ReplaceBreaks(text)));
    WordsOfJoin(Words(ReplaceBreaks(text)));
  }

  /** Cleaning a cleaned text changes nothing. */
  lemma SummaryTextIdempotent(text: String)
    ensures SummaryText(SummaryText(text)) == SummaryText(text)
  {
    var c := SummaryText(text);
    SummaryTextShape(text);
    assert ReplaceBreaks(c) == c;
  }

  /** An empty text gives an empty summary. A cleaned text that fits is the
      summary; a longer one is cut to its first `max_length` characters
      (for a non-negative limit) and marked with `...`. Either way the
      summary starts with a prefix of the cleaned text. */
  lemma GetTextSummarySpec(text: String, maxLength: int)
    ensures text == [] ==> GetTextSummary(text, maxLength) == []
    ensures text != [] && |SummaryText(text)| <= maxLength ==> GetTextSummary(text, maxLength) == SummaryText(text)
    ensures text != [] && |SummaryText(text)| > maxLength ==>
      var r := GetTextSummary(text, maxLength);
      && r[..|r| - 3] <= SummaryText(text)
      && r[|r| - 3..] == "..."
      && (maxLength >= 0 ==> |r| == maxLength + 3)
      && (maxLength < 0 ==> |r| == TakeLength(|SummaryText(text)|, maxLength) + 3)
  {
    var c := SummaryText(text);
    if text != [] && |c| > maxLength {
      var p := PyTake(c, maxLength);
      assert (p + "...")[..|p|] == p;
    }
  }
}
