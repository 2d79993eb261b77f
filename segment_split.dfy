/** Document segmentation of the segmentation service: text cleaning, the
    three paragraph strategies, the fixed-length window, the sentence
    accumulator, the overlap pass and the segment records. */
module SegmentSplit {
  import opened Wrappers
  import opened Text

  const MinSegmentLength: nat := 50
  const MaxSegmentLength: nat := 500
  const TargetSegmentLength: nat := 300
  const OverlapLength: nat := 50

  // ---------------------------------------------------------------------
  // _clean_text
  // ---------------------------------------------------------------------

  /** No two neighbouring whitespace characters. */
  predicate NoDoubleSpace(s: String) {
    forall i :: 0 <= i < |s| - 1 ==> !(IsSpace(s[i]) && IsSpace(s[i + 1]))
  }

  /** The only whitespace character left is the plain space. */
  predicate OnlyPlainSpace(s: String) {
    forall i :: 0 <= i < |s| && IsSpace(s[i]) ==> s[i] == ' '
  }

  /** `re.sub(r'\s+', ' ', s)`: every maximal whitespace run becomes one space. */
  function CollapseSpace(s: String): (r: String)
    ensures OnlyPlainSpace(r) && NoDoubleSpace(r)
    ensures r != [] <==> s != []
    ensures r != [] ==> (IsSpace(r[0]) <==> IsSpace(s[0]))
    decreases |s|
  {
    if s == [] then []
    else if IsSpace(s[0]) then [' '] + CollapseSpace(LStrip(s))
    else [s[0]] + CollapseSpace(s[1..])
  }

  /** `re.sub(r'\r\n', '\n', s)` */
  function ReplaceCrLf(s: String): String
    decreases |s|
  {
    if s == [] then []
    else if |s| > 1 && s[0] == '\r' && s[1] == '\n' then ['\n'] + ReplaceCrLf(s[2..])
    else [s[0]] + ReplaceCrLf(s[1..])
  }

  /** `re.sub(r'\r', '\n', s)` */
  function ReplaceCr(s: String): String
    decreases |s|
  {
    if s == [] then []
    else [if s[0] == '\r' then '\n' else s[0]] + ReplaceCr(s[1..])
  }

  /** `_clean_text`: collapse whitespace runs, normalise line breaks, strip. */
  function CleanText(s: String): String {
    Strip(ReplaceCr(ReplaceCrLf(CollapseSpace(s))))
  }

  /** Both line-break rewrites leave a string without carriage returns alone. */
  lemma {:induction false} NoCrUnchanged(s: String)
    requires '\r' !in s
    ensures ReplaceCrLf(s) == s && ReplaceCr(s) == s
    decreases |s|
  {
    if s != [] {
      assert '\r' !in s[1..];
      NoCrUnchanged(s[1..]);
    }
  }

  /** The collapse leaves a string that is already collapsed unchanged. */
  lemma {:induction false} CollapseIdentity(s: String)
    requires OnlyPlainSpace(s) && NoDoubleSpace(s)
    ensures CollapseSpace(s) == s
    decreases |s|
  {
    if s != [] {
      if IsSpace(s[0]) {
        assert |s| > 1 ==> !IsSpace(s[1]);
        assert LStrip(s) == s[1..];
      }
      CollapseIdentity(s[1..]);
    }
  }

  /** A substring of a collapsed string is collapsed. */
  lemma CollapsedSlice(s: String, a: nat, b: nat)
    requires a <= b <= |s|
    requires OnlyPlainSpace(s) && NoDoubleSpace(s)
    ensures OnlyPlainSpace(s[a..b]) && NoDoubleSpace(s[a..b])
  {
    var t := s[a..b];
    forall i | 0 <= i < |t| - 1 ensures !(IsSpace(t[i]) && IsSpace(t[i + 1])) {
      assert t[i] == s[a + i] && t[i + 1] == s[a + i + 1];
    }
  }

  /** The cleaned text has no whitespace at either end, no whitespace other
      than ' ', no two whitespace characters in a row, and therefore no line
      break at all. */
  lemma CleanTextShape(s: String)
    ensures IsStripped(CleanText(s))
    ensures OnlyPlainSpace(CleanText(s)) && NoDoubleSpace(CleanText(s))
    ensures '\n' !in CleanText(s) && '\r' !in CleanText(s)
  {
    var c := CollapseSpace(s);
    NoPlainBreak(c);
    NoCrUnchanged(c);
    assert CleanText(s) == Strip(c);
    StripSpec(c);
    var a := StripStart(c);
    CollapsedSlice(c, a, a + |Strip(c)|);
    NoPlainBreak(Strip(c));
  }

  /** A string whose only whitespace is ' ' holds no line break. */
  lemma NoPlainBreak(s: String)
    requires OnlyPlainSpace(s)
    ensures '\n' !in s && '\r' !in s
  {
    forall i | 0 <= i < |s| ensures s[i] != '\n' && s[i] != '\r' {
      if IsSpace(s[i]) {
        assert s[i] == ' ';
      }
    }
  }

  /** Cleaning is idempotent. */
  lemma CleanTextIdempotent(s: String)
    ensures CleanText(CleanText(s)) == CleanText(s)
  {
    var c := CleanText(s);
    CleanTextShape(s);
    CollapseIdentity(c);
    NoCrUnchanged(c);
    StripIdentity(c);
  }

  // ---------------------------------------------------------------------
  // _split_by_natural_paragraphs
  // ---------------------------------------------------------------------

  /** `s.split(sep)`, with `cur` the part read so far. */
  function SplitOnFrom(s: String, sep: String, cur: String): (parts: seq<String>)
    requires sep != []
    ensures parts != []
    decreases |s|
  {
    if s == [] then [cur]
    else if sep <= s then [cur] + SplitOnFrom(s[|sep|..], sep, [])
    else SplitOnFrom(s[1..], sep, cur + [s[0]])
  }

  function SplitOn(s: String, sep: String): seq<String>
    requires sep != []
  {
    SplitOnFrom(s, sep, [])
  }

  /** Joining the parts back with the separator gives the input. */
  lemma {:induction false} SplitOnFromJoin(s: String, sep: String, cur: String)
    requires sep != []
    ensures Join(SplitOnFrom(s, sep, cur), sep) == cur + s
    decreases |s|
  {
    if s == [] {
    } else if sep <= s {
      SplitOnFromJoin(s[|sep|..], sep, []);
      assert s == sep + s[|sep|..];
    } else {
      SplitOnFromJoin(s[1..], sep, cur + [s[0]]);
      assert (cur + [s[0]]) + s[1..] == cur + s;
    }
  }

  lemma SplitOnJoin(s: String, sep: String)
    requires sep != []
    ensures Join(SplitOn(s, sep), sep) == s
  {
    SplitOnFromJoin(s, sep, []);
  }

  /** A string without line breaks does not split on a blank line. */
  lemma {:induction false} SplitOnNoBreak(s: String, cur: String)
    requires '\n' !in s
    ensures SplitOnFrom(s, "\n\n", cur) == [cur + s]
    decreases |s|
  {
    if s == [] {
      assert cur + s == cur;
    } else {
      assert !("\n\n" <= s) by {
        assert "\n\n"[0] != s[0];
      }
      assert '\n' !in s[1..];
      SplitOnNoBreak(s[1..], cur + [s[0]]);
      assert (cur + [s[0]]) + s[1..] == cur + s;
    }
  }

  /** The length of the leading run of ASCII digits. */
  function DigitRun(s: String): (k: nat)
    ensures k <= |s|
    ensures forall i :: 0 <= i < k ==> IsAsciiDigit(s[i])
    ensures k < |s| ==> !IsAsciiDigit(s[k])
  {
    if s != [] && IsAsciiDigit(s[0]) then 1 + DigitRun(s[1..]) else 0
  }

  predicate IsChineseNumeral(c: char) {
    c in "一二三四五六七八九十"
  }

  /** The length of the leading run of Chinese numerals. */
  function NumeralRun(s: String): (k: nat)
    ensures k <= |s|
  {
    if s != [] && IsChineseNumeral(s[0]) then 1 + NumeralRun(s[1..]) else 0
  }

  /** The look-ahead `(?=\d+\.|\d+、|[一二三四五六七八九十]+[、．]|[（【]\d+[）】])`:
      a numbered item marker opens `s`. */
  predicate MarkerAhead(s: String) {
    (var k := DigitRun(s); 0 < k < |s| && (s[k] == '.' || s[k] == '、'))
    || (var k := NumeralRun(s); 0 < k < |s| && (s[k] == '、' || s[k] == '．'))
    || (|s| > 0 && (s[0] == '（' || s[0] == '【')
        && var k := DigitRun(s[1..]); 0 < k && 1 + k < |s| && (s[1 + k] == '）' || s[1 + k] == '】'))
  }

  /** `re.split(r'\n(?=<marker>)', s)`: split at each line break that a
      numbered item marker follows, dropping that line break. */
  function MarkerSplitFrom(s: String, cur: String): (parts: seq<String>)
    ensures parts != []
    decreases |s|
  {
    if s == [] then [cur]
    else if s[0] == '\n' && MarkerAhead(s[1..]) then [cur] + MarkerSplitFrom(s[1..], [])
    else MarkerSplitFrom(s[1..], cur + [s[0]])
  }

  /** A string without line breaks is not split at item markers. */
  lemma {:induction false} MarkerSplitNoBreak(s: String, cur: String)
    requires '\n' !in s
    ensures MarkerSplitFrom(s, cur) == [cur + s]
    decreases |s|
  {
    if s == [] {
      assert cur + s == cur;
    } else {
      assert s[0] != '\n';
      assert '\n' !in s[1..];
      MarkerSplitNoBreak(s[1..], cur + [s[0]]);
      assert (cur + [s[0]]) + s[1..] == cur + s;
    }
  }

  /** What the paragraph strategies keep: stripped, and at least
      `min_segment_length` long. */
  predicate IsSegmentText(x: String) {
    IsStripped(x) && |x| >= MinSegmentLength
  }

  /** The loop `for part in parts: part = part.strip(); if len(part) >= min:
      append(part)`. */
  function KeepLong(parts: seq<String>): (r: seq<String>)
    ensures |r| <= |parts|
    ensures forall k :: 0 <= k < |r| ==> IsSegmentText(r[k])
  {
    if parts == [] then []
    else (if |Strip(parts[0])| >= MinSegmentLength then [Strip(parts[0])] else []) + KeepLong(parts[1..])
  }

  /** The closing comprehension `[p for p in ps if len(p.strip()) >= min]`. */
  function LongEnough(ps: seq<String>): (r: seq<String>)
    ensures forall k :: 0 <= k < |r| ==> r[k] in ps && |Strip(r[k])| >= MinSegmentLength
  {
    if ps == [] then []
    else (if |Strip(ps[0])| >= MinSegmentLength then [ps[0]] else []) + LongEnough(ps[1..])
  }

  /** The closing filter keeps a list of stripped, long-enough parts as is. */
  lemma {:induction false} LongEnoughIdentity(ps: seq<String>)
    requires forall k :: 0 <= k < |ps| ==> IsSegmentText(ps[k])
    ensures LongEnough(ps) == ps
  {
    if ps != [] {
      StripIdentity(ps[0]);
      LongEnoughIdentity(ps[1..]);
    }
  }

  /** `_split_by_natural_paragraphs`: blank-line parts; when at most two are
      long enough, the item-marker parts are added; when still at most two,
      the fixed-length windows replace them. */
  function NaturalParagraphs(text: String): (r: seq<String>)
    ensures forall k :: 0 <= k < |r| ==> IsSegmentText(r[k])
  {
    var byBlankLine := KeepLong(SplitOn(text, "\n\n"));
    var withMarkers :=
      if |byBlankLine| <= 2 then byBlankLine + KeepLong(MarkerSplitFrom(text, [])) else byBlankLine;
    var paragraphs :=
      if |withMarkers| <= 2 then FixedSplit(text, MaxSegmentLength) else withMarkers;
    LongEnough(paragraphs)
  }

  /** On text without line breaks (every cleaned text) neither line-break
      strategy can split, so at most two parts survive and the fixed-length
      windows are always the result. */
  lemma NaturalParagraphsWithoutBreaks(text: String)
    requires '\n' !in text
    ensures NaturalParagraphs(text) == FixedSplit(text, MaxSegmentLength)
  {
    SplitOnNoBreak(text, []);
    MarkerSplitNoBreak(text, []);
    assert [] + text == text;
    assert SplitOn(text, "\n\n") == [text];
    assert KeepLong([text]) == (if |Strip(text)| >= MinSegmentLength then [Strip(text)] else []);
    LongEnoughIdentity(FixedSplit(text, MaxSegmentLength));
  }

  lemma NaturalParagraphsOfCleanText(s: String)
    ensures NaturalParagraphs(CleanText(s)) == FixedSplit(CleanText(s), MaxSegmentLength)
  {
    CleanTextShape(s);
    NaturalParagraphsWithoutBreaks(CleanText(s));
  }

  // ---------------------------------------------------------------------
  // _split_by_fixed_length
  // ---------------------------------------------------------------------

  /** The characters the backward scan may cut after: `'。！？；\n'`. */
  predicate IsTerminator(c: char) {
    c in "。！？；\n"
  }

  /** The backward scan `for i in range(hi, lo, -1)`: the last terminator at a
      position in (lo, hi], if any. */
  function LastTerminator(text: String, lo: nat, hi: int): (r: Option<nat>)
    requires hi < |text|
    ensures r.Some? ==> lo < r.value <= hi && IsTerminator(text[r.value])
    ensures r.Some? ==> forall j :: r.value < j <= hi ==> !IsTerminator(text[j])
    ensures r.None? ==> forall j :: lo < j <= hi ==> !IsTerminator(text[j])
    decreases hi - lo
  {
    if hi <= lo then None
    else if IsTerminator(text[hi]) then Some(hi)
    else LastTerminator(text, lo, hi - 1)
  }

  /** Where the window that starts at `start` ends: `start + max_length`,
      or just after the last terminator of its back half when one exists and
      the window does not reach the end of the text. */
  function WindowEnd(text: String, start: nat, maxLength: nat): (e: nat)
    requires maxLength >= 1
    ensures start < e <= start + maxLength + 1
    ensures e == start + maxLength + 1 ==> start + maxLength < |text| && IsTerminator(text[start + maxLength])
  {
    var e := start + maxLength;
    if e < |text| then
      match LastTerminator(text, start + maxLength / 2, e)
      case Some(i) => i + 1
      case None => e
    else e
  }

  /** The raw windows `text[start:end]` from `start` on. */
  function RawWindows(text: String, start: nat, maxLength: nat): seq<String>
    requires maxLength >= 1 && start <= |text|
    decreases |text| - start
  {
    if start == |text| then []
    else
      var e := WindowEnd(text, start, maxLength);
      var stop := if e < |text| then e else |text|;
      [text[start..stop]] + RawWindows(text, stop, maxLength)
  }

  /** The stripped windows of at least `min_segment_length` characters from
      `start` on: what `_split_by_fixed_length` returns. */
  function FixedSplitFrom(text: String, start: nat, maxLength: nat): (segs: seq<String>)
    requires maxLength >= 1
    ensures forall k :: 0 <= k < |segs| ==> IsSegmentText(segs[k])
    decreases |text| - start
  {
    if start >= |text| then []
    else
      var e := WindowEnd(text, start, maxLength);
      var seg := Strip(text[start..if e < |text| then e else |text|]);
      (if |seg| >= MinSegmentLength then [seg] else []) + FixedSplitFrom(text, e, maxLength)
  }

  function FixedSplit(text: String, maxLength: nat): seq<String>
    requires maxLength >= 1
  {
    FixedSplitFrom(text, 0, maxLength)
  }

  /** `_split_by_fixed_length(text, max_length)` */
  method SplitByFixedLength(text: String, maxLength: nat) returns (segments: seq<String>)
    requires maxLength >= 1
    ensures segments == FixedSplit(text, maxLength)
  {
    segments := [];
    var start := 0;
    while start < |text|
      invariant segments + FixedSplitFrom(text, start, maxLength) == FixedSplit(text, maxLength)
      decreases |text| - start
    {
      var end := ScanWindowEnd(text, start, maxLength);
      var segment := Strip(text[start..if end < |text| then end else |text|]);
      ghost var rest := FixedSplitFrom(text, end, maxLength);
      FixedSplitStep(segments, segment, rest);
      if |segment| >= MinSegmentLength {
        segments := segments + [segment];
      }
      start := end;
    }
  }

  lemma FixedSplitStep(done: seq<String>, segment: String, rest: seq<String>)
    ensures done + ((if |segment| >= MinSegmentLength then [segment] else []) + rest)
      == (if |segment| >= MinSegmentLength then done + [segment] else done) + rest
  {
  }

  /** The body of the window loop up to the slice: `end = start + max_length`,
      then the backward scan for a terminator in the back half. */
  method ScanWindowEnd(text: String, start: nat, maxLength: nat) returns (end: nat)
    requires maxLength >= 1 && start < |text|
    ensures end == WindowEnd(text, start, maxLength)
  {
    end := start + maxLength;
    if end < |text| {
      var i := if end < |text| - 1 then end else |text| - 1;
      while i > start + maxLength / 2
        invariant start + maxLength / 2 <= i <= start + maxLength == end
        invariant LastTerminator(text, start + maxLength / 2, i) == LastTerminator(text, start + maxLength / 2, end)
        decreases i
      {
        if IsTerminator(text[i]) {
          end := i + 1;
          break;
        }
        i := i - 1;
      }
    }
  }

  /** The raw windows tile the text from `start` on, in order, with no gap
      and no overlap; each is non-empty and at most `max_length + 1` long. */
  lemma {:induction false} RawWindowsTile(text: String, start: nat, maxLength: nat)
    requires maxLength >= 1 && start <= |text|
    ensures Concat(RawWindows(text, start, maxLength)) == text[start..]
    ensures forall k :: 0 <= k < |RawWindows(text, start, maxLength)| ==>
      0 < |RawWindows(text, start, maxLength)[k]| <= maxLength + 1
    decreases |text| - start
  {
    if start < |text| {
      var e := WindowEnd(text, start, maxLength);
      var stop := if e < |text| then e else |text|;
      RawWindowsTile(text, stop, maxLength);
      assert text[start..] == text[start..stop] + text[stop..];
      var w := RawWindows(text, start, maxLength);
      forall k | 0 <= k < |w| ensures 0 < |w[k]| <= maxLength + 1 {
        if k > 0 {
          assert w[k] == RawWindows(text, stop, maxLength)[k - 1];
        }
      }
    }
  }

  /** A window that stops before the end of the text either has exactly
      `max_length` characters or ends with a terminator from its back half. */
  lemma WindowCut(text: String, start: nat, maxLength: nat)
    requires maxLength >= 1 && start + maxLength < |text|
    ensures var e := WindowEnd(text, start, maxLength);
      e == start + maxLength
      || (start + maxLength / 2 + 1 < e && IsTerminator(text[e - 1])
          && forall j :: e <= j <= start + maxLength ==> !IsTerminator(text[j]))
  {
  }

  /** The window can be one character longer than `max_length`: the
      backward scan starts at index `start + max_length` itself. */
  lemma WindowMaxPlusOne(text: String, maxLength: nat)
    requires maxLength >= 1 && maxLength < |text| && IsTerminator(text[maxLength])
    ensures |RawWindows(text, 0, maxLength)| > 0
    ensures |RawWindows(text, 0, maxLength)[0]| == maxLength + 1
  {
    assert LastTerminator(text, maxLength / 2, maxLength) == Some(maxLength);
  }

  /** The fixed-length split keeps exactly the raw windows that are long
      enough once stripped, stripped. */
  lemma {:induction false} FixedSplitIsKeptWindows(text: String, start: nat, maxLength: nat)
    requires maxLength >= 1 && start <= |text|
    ensures FixedSplitFrom(text, start, maxLength) == KeepLong(RawWindows(text, start, maxLength))
    decreases |text| - start
  {
    if start < |text| {
      var e := WindowEnd(text, start, maxLength);
      var stop := if e < |text| then e else |text|;
      FixedSplitIsKeptWindows(text, stop, maxLength);
      assert FixedSplitFrom(text, e, maxLength) == FixedSplitFrom(text, stop, maxLength);
      var w := RawWindows(text, start, maxLength);
      assert w[1..] == RawWindows(text, stop, maxLength);
    }
  }

  // ---------------------------------------------------------------------
  // _intelligent_split_paragraph
  // ---------------------------------------------------------------------

  predicate IsSentencePunct(c: char) {
    c in "。！？；"
  }

  /** `re.match(r'[。！？；]\s*', piece)` */
  predicate OpensWithPunct(piece: String) {
    piece != [] && IsSentencePunct(piece[0])
  }

  /** The whitespace run that opens `s`. */
  function LeadingSpace(s: String): (w: String)
    ensures |w| <= |s| && w == s[..|w|]
    ensures forall i :: 0 <= i < |w| ==> IsSpace(w[i])
  {
    s[..|s| - |LStrip(s)|]
  }

  /** `re.split(r'([。！？；]\s*)', s)` with `cur` the text read since the
      last delimiter: text pieces alternate with the captured delimiters. */
  function PunctSplitFrom(s: String, cur: String): (pieces: seq<String>)
    ensures |pieces| % 2 == 1
    decreases |s|
  {
    if s == [] then [cur]
    else if IsSentencePunct(s[0]) then
      var d := [s[0]] + LeadingSpace(s[1..]);
      [cur, d] + PunctSplitFrom(s[|d|..], [])
    else PunctSplitFrom(s[1..], cur + [s[0]])
  }

  function PunctSplit(s: String): seq<String> {
    PunctSplitFrom(s, [])
  }

  /** The split loses nothing. */
  lemma {:induction false} PunctSplitConcat(s: String, cur: String)
    ensures Concat(PunctSplitFrom(s, cur)) == cur + s
    decreases |s|
  {
    if s == [] {
      assert Concat(PunctSplitFrom(s, cur)) == cur + Concat([]);
    } else if IsSentencePunct(s[0]) {
      var d := [s[0]] + LeadingSpace(s[1..]);
      var rest := PunctSplitFrom(s[|d|..], []);
      PunctSplitConcat(s[|d|..], []);
      assert PunctSplitFrom(s, cur) == [cur, d] + rest;
      ConcatAppend([cur, d], rest);
      assert Concat([cur, d]) == cur + (d + Concat([]));
      assert s == d + s[|d|..];
    } else {
      PunctSplitConcat(s[1..], cur + [s[0]]);
      assert (cur + [s[0]]) + s[1..] == cur + s;
    }
  }

  /** Every delimiter (odd positions) opens with sentence punctuation. */
  lemma {:induction false} PunctSplitDelims(s: String, cur: String)
    ensures forall k :: 0 <= k < |PunctSplitFrom(s, cur)| && k % 2 == 1 ==> OpensWithPunct(PunctSplitFrom(s, cur)[k])
    decreases |s|
  {
    if s != [] && IsSentencePunct(s[0]) {
      var d := [s[0]] + LeadingSpace(s[1..]);
      var rest := PunctSplitFrom(s[|d|..], []);
      PunctSplitDelims(s[|d|..], []);
      var p := PunctSplitFrom(s, cur);
      assert p == [cur, d] + rest;
      forall k | 0 <= k < |p| && k % 2 == 1 ensures OpensWithPunct(p[k]) {
        if k > 1 {
          assert p[k] == rest[k - 2];
        }
      }
    } else if s != [] {
      PunctSplitDelims(s[1..], cur + [s[0]]);
    }
  }

  /** Text pieces (even positions) hold no sentence punctuation. */
  lemma {:induction false} PunctSplitTexts(s: String, cur: String)
    requires forall i :: 0 <= i < |cur| ==> !IsSentencePunct(cur[i])
    ensures forall k, i :: (0 <= k < |PunctSplitFrom(s, cur)| && k % 2 == 0 && 0 <= i < |PunctSplitFrom(s, cur)[k]|
      ==> !IsSentencePunct(PunctSplitFrom(s, cur)[k][i]))
    decreases |s|
  {
    if s != [] && IsSentencePunct(s[0]) {
      var d := [s[0]] + LeadingSpace(s[1..]);
      var rest := PunctSplitFrom(s[|d|..], []);
      PunctSplitTexts(s[|d|..], []);
      var p := PunctSplitFrom(s, cur);
      assert p == [cur, d] + rest;
      forall k, i | 0 <= k < |p| && k % 2 == 0 && 0 <= i < |p[k]| ensures !IsSentencePunct(p[k][i]) {
        if k > 1 {
          assert p[k] == rest[k - 2];
        }
      }
    } else if s != [] {
      PunctSplitTexts(s[1..], cur + [s[0]]);
    }
  }

  /** The split loses nothing; text pieces (even positions) hold no sentence
      punctuation and every delimiter (odd positions) opens with one. */
  lemma PunctSplitShape(s: String, cur: String)
    requires forall i :: 0 <= i < |cur| ==> !IsSentencePunct(cur[i])
    ensures Concat(PunctSplitFrom(s, cur)) == cur + s
    ensures forall k :: 0 <= k < |PunctSplitFrom(s, cur)| && k % 2 == 1 ==> OpensWithPunct(PunctSplitFrom(s, cur)[k])
    ensures forall k, i :: (0 <= k < |PunctSplitFrom(s, cur)| && k % 2 == 0 && 0 <= i < |PunctSplitFrom(s, cur)[k]|
      ==> !IsSentencePunct(PunctSplitFrom(s, cur)[k][i]))
  {
    PunctSplitConcat(s, cur);
    PunctSplitDelims(s, cur);
    PunctSplitTexts(s, cur);
  }

  /** The sentence the loop reads at index `i`: piece `i`, with piece `i+1`
      glued on when that piece opens with sentence punctuation. */
  function SentenceAt(pieces: seq<String>, i: nat): String
    requires i < |pieces|
  {
    if i < |pieces| - 1 && OpensWithPunct(pieces[i + 1]) then pieces[i] + pieces[i + 1] else pieces[i]
  }

  /** The index the loop moves to after reading the sentence at `i`. */
  function NextIndex(pieces: seq<String>, i: nat): (j: nat)
    requires i < |pieces|
    ensures i < j <= |pieces|
  {
    if i < |pieces| - 1 && OpensWithPunct(pieces[i + 1]) then i + 2 else i + 1
  }

  /** The segment under construction is closed before the next sentence when
      it is non-empty, holds at least `min_segment_length` characters and the
      sentence would take it past `target_segment_length`. */
  predicate ClosesBefore(current: String, sentence: String) {
    |current| + |sentence| > TargetSegmentLength && current != [] && |current| >= MinSegmentLength
  }

  /** The raw segments the accumulator builds from index `i` on, with
      `current` under construction: every closed one, then the last. */
  function ChunksFrom(pieces: seq<String>, i: nat, current: String): (chunks: seq<String>)
    requires i <= |pieces|
    ensures chunks != []
    decreases |pieces| - i
  {
    if i == |pieces| then [current]
    else
      var sentence := SentenceAt(pieces, i);
      if ClosesBefore(current, sentence) then [current] + ChunksFrom(pieces, NextIndex(pieces, i), sentence)
      else ChunksFrom(pieces, NextIndex(pieces, i), current + sentence)
  }

  /** `[s.strip() for s in xs]` */
  function StripAll(xs: seq<String>): seq<String> {
    seq(|xs|, k requires 0 <= k < |xs| => Strip(xs[k]))
  }

  /** What `_intelligent_split_paragraph` returns: every closed chunk
      stripped, then the last chunk stripped when it is non-blank and long
      enough. */
  function IntelligentSplit(paragraph: String): (r: seq<String>)
    ensures forall k :: 0 <= k < |r| ==> IsStripped(r[k])
  {
    var chunks := ChunksFrom(PunctSplit(paragraph), 0, []);
    var last := Strip(chunks[|chunks| - 1]);
    StripAll(chunks[..|chunks| - 1]) + (if last != [] && |last| >= MinSegmentLength then [last] else [])
  }

  /** `_intelligent_split_paragraph(paragraph)` */
  method IntelligentSplitParagraph(paragraph: String) returns (segments: seq<String>)
    ensures segments == IntelligentSplit(paragraph)
  {
    segments := [];
    var sentences := PunctSplit(paragraph);
    var currentSegment: String := [];
    var currentLength := 0;
    ghost var closed: seq<String> := [];
    var i := 0;
    while i < |sentences|
      invariant i <= |sentences|
      invariant currentLength == |currentSegment|
      invariant segments == StripAll(closed)
      invariant closed + ChunksFrom(sentences, i, currentSegment) == ChunksFrom(sentences, 0, [])
      decreases |sentences| - i
    {
      var sentence, next := ReadSentence(sentences, i);
      var sentenceLength := |sentence|;
      if currentLength + sentenceLength > TargetSegmentLength && currentSegment != []
        && currentLength >= MinSegmentLength
      {
        assert ChunksFrom(sentences, i, currentSegment) == [currentSegment] + ChunksFrom(sentences, next, sentence);
        ChunksCloseStep(closed, currentSegment, ChunksFrom(sentences, next, sentence));
        StripAllSnoc(closed, currentSegment);
        segments := segments + [Strip(currentSegment)];
        closed := closed + [currentSegment];
        currentSegment := sentence;
        currentLength := sentenceLength;
      } else {
        assert ChunksFrom(sentences, i, currentSegment) == ChunksFrom(sentences, next, currentSegment + sentence);
        currentSegment := currentSegment + sentence;
        currentLength := currentLength + sentenceLength;
      }
      i := next;
    }
    LastChunk(closed, currentSegment, ChunksFrom(sentences, 0, []));
    var last := Strip(currentSegment);
    if last != [] && |last| >= MinSegmentLength {
      segments := segments + [last];
    }
  }

  /** Reads the sentence at `i`, joined with the next piece when that one
      opens with sentence punctuation, and says where reading goes on. */
  method ReadSentence(sentences: seq<String>, i: nat) returns (sentence: String, next: nat)
    requires i < |sentences|
    ensures sentence == SentenceAt(sentences, i) && next == NextIndex(sentences, i)
  {
    sentence := sentences[i];
    next := i + 1;
    if i < |sentences| - 1 && OpensWithPunct(sentences[i + 1]) {
      sentence := sentence + sentences[i + 1];
      next := i + 2;
    }
  }

  lemma ChunksCloseStep(closed: seq<String>, current: String, rest: seq<String>)
    ensures closed + ([current] + rest) == (closed + [current]) + rest
  {
  }

  lemma StripAllSnoc(xs: seq<String>, x: String)
    ensures StripAll(xs + [x]) == StripAll(xs) + [Strip(x)]
  {
  }

  lemma LastChunk(closed: seq<String>, current: String, chunks: seq<String>)
    requires closed + [current] == chunks
    ensures chunks != [] && closed == chunks[..|chunks| - 1] && current == chunks[|chunks| - 1]
  {
    assert chunks[..|chunks| - 1] == (closed + [current])[..|closed|];
  }

  /** The chunks, put back together, are exactly the text still to read. */
  lemma {:induction false} ChunksTile(pieces: seq<String>, i: nat, current: String)
    requires i <= |pieces|
    ensures Concat(ChunksFrom(pieces, i, current)) == current + Concat(pieces[i..])
    decreases |pieces| - i
  {
    if i == |pieces| {
      assert Concat([current]) == current + Concat([]);
    } else {
      var sentence := SentenceAt(pieces, i);
      var j := NextIndex(pieces, i);
      assert Concat(pieces[i..]) == sentence + Concat(pieces[j..]) by {
        assert pieces[i..][1..] == pieces[i + 1..];
        if j == i + 2 {
          assert pieces[i + 1..][1..] == pieces[i + 2..];
        }
      }
      if ClosesBefore(current, sentence) {
        ChunksTile(pieces, j, sentence);
      } else {
        ChunksTile(pieces, j, current + sentence);
      }
    }
  }

  /** Every chunk but the last was closed because it already held at least
      `min_segment_length` characters and the next sentence would have taken
      it past `target_segment_length`. */
  lemma {:induction false} ChunksClosedLong(pieces: seq<String>, i: nat, current: String)
    requires i <= |pieces|
    ensures forall k :: 0 <= k < |ChunksFrom(pieces, i, current)| - 1 ==>
      ChunksFrom(pieces, i, current)[k] != [] && |ChunksFrom(pieces, i, current)[k]| >= MinSegmentLength
    decreases |pieces| - i
  {
    if i < |pieces| {
      var sentence := SentenceAt(pieces, i);
      var j := NextIndex(pieces, i);
      if ClosesBefore(current, sentence) {
        ChunksClosedLong(pieces, j, sentence);
        var c := ChunksFrom(pieces, i, current);
        forall k | 0 <= k < |c| - 1 ensures c[k] != [] && |c[k]| >= MinSegmentLength {
          if k > 0 {
            assert c[k] == ChunksFrom(pieces, j, sentence)[k - 1];
          }
        }
      } else {
        ChunksClosedLong(pieces, j, current + sentence);
      }
    }
  }

  /** The split of a paragraph reads the whole paragraph: its raw chunks
      concatenate to it, and each is a run of whole sentences, each sentence
      being a text piece with its delimiter glued on. */
  lemma IntelligentSplitTiles(paragraph: String)
    ensures Concat(ChunksFrom(PunctSplit(paragraph), 0, [])) == paragraph
  {
    PunctSplitShape(paragraph, []);
    ChunksTile(PunctSplit(paragraph), 0, []);
    assert PunctSplit(paragraph)[0..] == PunctSplit(paragraph);
  }

  /** On the pieces of `re.split`, every text piece but the last is followed
      by its delimiter, so the loop always glues the two. */
  lemma GluesEveryDelimiter(paragraph: String, i: nat)
    requires i % 2 == 0 && i < |PunctSplit(paragraph)| - 1
    ensures SentenceAt(PunctSplit(paragraph), i) == PunctSplit(paragraph)[i] + PunctSplit(paragraph)[i + 1]
    ensures NextIndex(PunctSplit(paragraph), i) == i + 2
  {
    PunctSplitShape(paragraph, []);
  }

  // ---------------------------------------------------------------------
  // _add_overlapping_segments
  // ---------------------------------------------------------------------

  /** `segment[overlap_start:] + " " + next_segment[:overlap_end]` */
  function RawOverlap(segment: String, next: String): (r: String)
    ensures |r| <= 2 * OverlapLength + 1
  {
    var overlapStart := if |segment| - OverlapLength > 0 then |segment| - OverlapLength else 0;
    var overlapEnd := if |next| < OverlapLength then |next| else OverlapLength;
    segment[overlapStart..] + " " + next[..overlapEnd]
  }

  /** The overlap is the last (at most `overlap_length`) characters of one
      segment, a space, and the first (at most `overlap_length`) characters
      of the next. */
  lemma RawOverlapShape(segment: String, next: String)
    ensures var a := if |segment| < OverlapLength then |segment| else OverlapLength;
      var b := if |next| < OverlapLength then |next| else OverlapLength;
      var r := RawOverlap(segment, next);
      |r| == a + 1 + b && r[..a] == segment[|segment| - a..] && r[a] == ' ' && r[a + 1..] == next[..b]
  {
  }

  /** An overlap segment follows segment `i` when `i` is even, a next
      segment exists, and the stripped overlap is long enough. */
  predicate OverlapAfter(segs: seq<String>, i: nat)
    requires i < |segs|
  {
    i < |segs| - 1 && i % 2 == 0 && |Strip(RawOverlap(segs[i], segs[i + 1]))| >= MinSegmentLength
  }

  function OverlapAt(segs: seq<String>, i: nat): String
    requires i < |segs| - 1
  {
    Strip(RawOverlap(segs[i], segs[i + 1]))
  }

  /** What one iteration of the overlap loop appends. */
  function Block(segs: seq<String>, i: nat): (b: seq<String>)
    requires i < |segs|
    ensures |b| == if OverlapAfter(segs, i) then 2 else 1
    ensures b[0] == segs[i] && (OverlapAfter(segs, i) ==> b[1] == OverlapAt(segs, i))
  {
    [segs[i]] + (if OverlapAfter(segs, i) then [OverlapAt(segs, i)] else [])
  }

  /** What the overlap loop has built after the first `k` segments. */
  function Blocks(segs: seq<String>, k: nat): seq<String>
    requires k <= |segs|
  {
    if k == 0 then [] else Blocks(segs, k - 1) + Block(segs, k - 1)
  }

  /** What `_add_overlapping_segments` returns. */
  function Enhanced(segs: seq<String>): seq<String> {
    if |segs| <= 1 then segs else Blocks(segs, |segs|)
  }

  /** `_add_overlapping_segments(segments)` */
  method AddOverlappingSegments(segments: seq<String>) returns (enhanced: seq<String>)
    ensures enhanced == Enhanced(segments)
  {
    if |segments| <= 1 {
      return segments;
    }
    enhanced := [];
    for i := 0 to |segments|
      invariant enhanced == Blocks(segments, i)
    {
      var segment := segments[i];
      ghost var before := enhanced;
      enhanced := enhanced + [segment];
      if i < |segments| - 1 && i % 2 == 0 {
        var nextSegment := segments[i + 1];
        var overlapStart := if |segment| - OverlapLength > 0 then |segment| - OverlapLength else 0;
        var overlapEnd := if |nextSegment| < OverlapLength then |nextSegment| else OverlapLength;
        var overlapSegment := segment[overlapStart..] + " " + nextSegment[..overlapEnd];
        assert overlapSegment == RawOverlap(segment, nextSegment);
        if |Strip(overlapSegment)| >= MinSegmentLength {
          enhanced := enhanced + [Strip(overlapSegment)];
        }
      }
      AppendBlock(before, segments, i, enhanced);
    }
  }

  lemma AppendBlock(before: seq<String>, segs: seq<String>, i: nat, after: seq<String>)
    requires i < |segs|
    requires OverlapAfter(segs, i) ==> after == before + [segs[i]] + [OverlapAt(segs, i)]
    requires !OverlapAfter(segs, i) ==> after == before + [segs[i]]
    ensures after == before + Block(segs, i)
  {
  }

  /** How many overlap segments precede original segment `k`. */
  function Inserted(segs: seq<String>, k: nat): nat
    requires k <= |segs|
  {
    if k == 0 then 0 else Inserted(segs, k - 1) + (if OverlapAfter(segs, k - 1) then 1 else 0)
  }

  /** Where original segment `k` lands in the overlap pass's output. */
  function Position(segs: seq<String>, k: nat): nat
    requires k <= |segs|
  {
    k + Inserted(segs, k)
  }

  /** Later originals land strictly later. */
  lemma {:induction false} PositionGrows(segs: seq<String>, a: nat, b: nat)
    requires a < b <= |segs|
    ensures Position(segs, a) + (if OverlapAfter(segs, a) then 2 else 1) <= Position(segs, b)
    decreases b - a
  {
    if a + 1 < b {
      PositionGrows(segs, a + 1, b);
    }
  }

  /** The loop output after `k` segments ends where segment `k` lands. */
  lemma {:induction false} BlocksLength(segs: seq<String>, k: nat)
    requires k <= |segs|
    ensures |Blocks(segs, k)| == Position(segs, k)
  {
    if k > 0 {
      BlocksLength(segs, k - 1);
    }
  }

  /** Once placed, original segment `j` and its overlap segment stay where
      they are. */
  lemma {:induction false} BlockAt(segs: seq<String>, j: nat, k: nat)
    requires j < k <= |segs|
    ensures Position(segs, j) < |Blocks(segs, k)| && Blocks(segs, k)[Position(segs, j)] == segs[j]
    ensures OverlapAfter(segs, j) ==>
      Position(segs, j) + 1 < |Blocks(segs, k)| && Blocks(segs, k)[Position(segs, j) + 1] == OverlapAt(segs, j)
    decreases k
  {
    var prev := Blocks(segs, k - 1);
    assert Blocks(segs, k) == prev + Block(segs, k - 1);
    if k == j + 1 {
      BlocksLength(segs, j);
    } else {
      BlockAt(segs, j, k - 1);
    }
  }

  /** Original segment `j` sits at `Position(segs, j)`, followed by its
      overlap segment exactly when one is added. */
  lemma BlocksLayout(segs: seq<String>, k: nat)
    requires k <= |segs|
    ensures |Blocks(segs, k)| == Position(segs, k)
    ensures forall j :: 0 <= j < k ==>
      Position(segs, j) < |Blocks(segs, k)| && Blocks(segs, k)[Position(segs, j)] == segs[j]
    ensures forall j :: 0 <= j < k && OverlapAfter(segs, j) ==>
      Position(segs, j) + 1 < |Blocks(segs, k)| && Blocks(segs, k)[Position(segs, j) + 1] == OverlapAt(segs, j)
  {
    BlocksLength(segs, k);
    forall j | 0 <= j < k
      ensures Position(segs, j) < |Blocks(segs, k)| && Blocks(segs, k)[Position(segs, j)] == segs[j]
      ensures OverlapAfter(segs, j) ==>
        Position(segs, j) + 1 < |Blocks(segs, k)| && Blocks(segs, k)[Position(segs, j) + 1] == OverlapAt(segs, j)
    {
      BlockAt(segs, j, k);
    }
  }

  /** At most one overlap per pair of neighbouring segments. */
  lemma {:induction false} InsertedBound(segs: seq<String>, k: nat)
    requires k <= |segs|
    ensures Inserted(segs, k) <= (k + 1) / 2
  {
    if k > 0 {
      InsertedBound(segs, k - 1);
    }
  }

  /** A list of at most one segment comes back unchanged; otherwise the
      output holds every original and at most one overlap per two segments. */
  lemma EnhancedLength(segs: seq<String>)
    ensures |segs| <= 1 ==> Enhanced(segs) == segs
    ensures |segs| <= |Enhanced(segs)| <= |segs| + |segs| / 2
  {
    if |segs| > 1 {
      var n := |segs|;
      BlocksLayout(segs, n);
      InsertedBound(segs, n - 1);
      assert Inserted(segs, n) == Inserted(segs, n - 1);
    }
  }

  /** The overlap pass keeps every segment stripped when its input is. */
  lemma {:induction false} BlocksStripped(segs: seq<String>, k: nat)
    requires k <= |segs|
    requires forall j :: 0 <= j < |segs| ==> IsStripped(segs[j])
    ensures forall j :: 0 <= j < |Blocks(segs, k)| ==> IsStripped(Blocks(segs, k)[j])
  {
    if k > 0 {
      BlocksStripped(segs, k - 1);
      var prev := Blocks(segs, k - 1);
      var b := Blocks(segs, k);
      forall j | 0 <= j < |b| ensures IsStripped(b[j]) {
        if j >= |prev| {
          assert b[j] == Block(segs, k - 1)[j - |prev|];
        } else {
          assert b[j] == prev[j];
        }
      }
    }
  }

  // ---------------------------------------------------------------------
  // _split_text_into_segments
  // ---------------------------------------------------------------------

  /** What the paragraph loop collects from one paragraph: the paragraph
      itself when it is within `max_segment_length` and long enough, the
      sentence accumulator's segments when it is longer. */
  function ParagraphSegments(p: String): (r: seq<String>)
    ensures IsStripped(p) ==> forall k :: 0 <= k < |r| ==> IsStripped(r[k])
  {
    if |p| <= MaxSegmentLength then (if |p| >= MinSegmentLength then [p] else []) else IntelligentSplit(p)
  }

  /** `f` applied to every item, the results concatenated in order. */
  function ConcatMap(f: String -> seq<String>, xs: seq<String>): seq<String> {
    if xs == [] then [] else f(xs[0]) + ConcatMap(f, xs[1..])
  }

  function BaseSegments(paragraphs: seq<String>): seq<String> {
    ConcatMap(ParagraphSegments, paragraphs)
  }

  /** The segments `_split_text_into_segments` returns for `text`. */
  function SegmentsOf(text: String): seq<String> {
    Enhanced(BaseSegments(NaturalParagraphs(text)))
  }

  /** `_split_text_into_segments(text)` */
  method SplitTextIntoSegments(text: String) returns (enhanced: seq<String>)
    ensures enhanced == SegmentsOf(text)
  {
    var naturalParagraphs := NaturalParagraphs(text);
    var segments := CollectParagraphSegments(naturalParagraphs);
    enhanced := AddOverlappingSegments(segments);
  }

  /** The paragraph loop of `_split_text_into_segments`. */
  method CollectParagraphSegments(naturalParagraphs: seq<String>) returns (segments: seq<String>)
    ensures segments == BaseSegments(naturalParagraphs)
  {
    segments := [];
    for i := 0 to |naturalParagraphs|
      invariant segments + ConcatMap(ParagraphSegments, naturalParagraphs[i..]) == BaseSegments(naturalParagraphs)
    {
      var paragraph := naturalParagraphs[i];
      ghost var before := segments;
      if |paragraph| <= MaxSegmentLength {
        if |paragraph| >= MinSegmentLength {
          segments := segments + [paragraph];
        }
      } else {
        var subSegments := IntelligentSplitParagraph(paragraph);
        segments := segments + subSegments;
      }
      assert segments == before + ParagraphSegments(paragraph);
      ConcatMapStep(ParagraphSegments, before, naturalParagraphs, i, segments);
    }
    assert naturalParagraphs[|naturalParagraphs|..] == [];
  }

  lemma ConcatMapStep(f: String -> seq<String>, before: seq<String>, xs: seq<String>, i: nat, after: seq<String>)
    requires i < |xs|
    requires after == before + f(xs[i])
    ensures before + ConcatMap(f, xs[i..]) == after + ConcatMap(f, xs[i + 1..])
  {
    assert xs[i..][1..] == xs[i + 1..];
  }

  lemma {:induction false} BaseSegmentsStripped(paragraphs: seq<String>)
    requires forall k :: 0 <= k < |paragraphs| ==> IsStripped(paragraphs[k])
    ensures forall k :: 0 <= k < |BaseSegments(paragraphs)| ==> IsStripped(BaseSegments(paragraphs)[k])
  {
    if paragraphs != [] {
      BaseSegmentsStripped(paragraphs[1..]);
      var head := ParagraphSegments(paragraphs[0]);
      var rest := BaseSegments(paragraphs[1..]);
      var b := BaseSegments(paragraphs);
      assert b == head + rest;
      forall k | 0 <= k < |b| ensures IsStripped(b[k]) {
        if k < |head| {
          assert b[k] == head[k];
        } else {
          assert b[k] == rest[k - |head|];
        }
      }
    }
  }

  /** Every segment the splitter returns is already stripped, whatever the
      input: the `.strip()` calls of `segment_document` change nothing. */
  lemma SegmentsStripped(text: String)
    ensures forall k :: 0 <= k < |SegmentsOf(text)| ==> Strip(SegmentsOf(text)[k]) == SegmentsOf(text)[k]
  {
    var base := BaseSegments(NaturalParagraphs(text));
    BaseSegmentsStripped(NaturalParagraphs(text));
    if |base| > 1 {
      BlocksStripped(base, |base|);
    }
    forall k | 0 <= k < |SegmentsOf(text)| ensures Strip(SegmentsOf(text)[k]) == SegmentsOf(text)[k] {
      StripIdentity(SegmentsOf(text)[k]);
    }
  }

  // ---------------------------------------------------------------------
  // segment_document
  // ---------------------------------------------------------------------

  /** One stored segment. */
  datatype SegmentRecord = SegmentRecord(
    segmentId: String,
    fileId: String,
    order: nat,
    text: String,
    fileName: String,
    tags: seq<String>,
    characterCount: nat,
    wordCount: nat)

  /** `f"{file_id}_{order}_"`: the part of a segment id before the uuid. */
  function SegmentIdPrefix(fileId: String, order: nat): String {
    fileId + "_" + NatToString(order) + "_"
  }

  /** The record built for the segment at position `i` (order `i + 1`);
      `uuid(order)` stands for the fresh `uuid.uuid4()` drawn for it. */
  function MakeRecord(fileId: String, fileName: String, i: nat, segmentText: String, uuid: nat -> String): SegmentRecord {
    var text := Strip(segmentText);
    SegmentRecord(SegmentIdPrefix(fileId, i + 1) + PyTake(uuid(i + 1), 8), fileId, i + 1, text, fileName, [],
                  |text|, |Words(text)|)
  }

  /** The records for the first `n` segments: a segment whose stripped text
      is shorter than `min_segment_length` gets none. */
  function Records(fileId: String, fileName: String, segs: seq<String>, uuid: nat -> String, n: nat): seq<SegmentRecord>
    requires n <= |segs|
  {
    if n == 0 then []
    else
      var kept := if |Strip(segs[n - 1])| < MinSegmentLength then [] else [MakeRecord(fileId, fileName, n - 1, segs[n - 1], uuid)];
      Records(fileId, fileName, segs, uuid, n - 1) + kept
  }

  /** `segment_document(file_id, text_content, file_name)` */
  method SegmentDocument(fileId: String, textContent: String, fileName: String, uuid: nat -> String)
    returns (segmentData: seq<SegmentRecord>)
    ensures var segs := SegmentsOf(CleanText(textContent));
      segmentData == Records(fileId, fileName, segs, uuid, |segs|)
  {
    var cleanedText := CleanText(textContent);
    var segments := SplitTextIntoSegments(cleanedText);
    segmentData := [];
    for i := 0 to |segments|
      invariant segmentData == Records(fileId, fileName, segments, uuid, i)
    {
      var segmentText := segments[i];
      if |Strip(segmentText)| < MinSegmentLength {
        continue;
      }
      var segmentId := fileId + "_" + NatToString(i + 1) + "_" + PyTake(uuid(i + 1), 8);
      var text := Strip(segmentText);
      segmentData := segmentData + [SegmentRecord(segmentId, fileId, i + 1, text, fileName, [],
                                                  |text|, |Words(text)|)];
    }
  }

  /** A record built for segment number `order` of `segs`. */
  predicate RecordFor(r: SegmentRecord, fileId: String, fileName: String, segs: seq<String>) {
    && 1 <= r.order <= |segs|
    && r.text == Strip(segs[r.order - 1])
    && |r.text| >= MinSegmentLength
    && r.characterCount == |r.text|
    && r.wordCount == |Words(r.text)|
    && r.fileId == fileId && r.fileName == fileName && r.tags == []
    && SegmentIdPrefix(fileId, r.order) <= r.segmentId
  }

  lemma RecordsSnoc(fileId: String, fileName: String, segs: seq<String>, uuid: nat -> String, n: nat)
    requires 0 < n <= |segs|
    ensures |Strip(segs[n - 1])| < MinSegmentLength ==>
      Records(fileId, fileName, segs, uuid, n) == Records(fileId, fileName, segs, uuid, n - 1)
    ensures |Strip(segs[n - 1])| >= MinSegmentLength ==>
      Records(fileId, fileName, segs, uuid, n)
        == Records(fileId, fileName, segs, uuid, n - 1) + [MakeRecord(fileId, fileName, n - 1, segs[n - 1], uuid)]
  {
  }

  /** Every record carries the stripped text of its segment, at least
      `min_segment_length` long, its character and word counts, and an id
      that starts with `f"{file_id}_{order}_"`. */
  lemma {:induction false} RecordsWellFormed(fileId: String, fileName: String, segs: seq<String>, uuid: nat -> String, n: nat)
    requires n <= |segs|
    ensures forall r :: r in Records(fileId, fileName, segs, uuid, n) ==>
      RecordFor(r, fileId, fileName, segs) && r.order <= n
  {
    if n > 0 {
      RecordsWellFormed(fileId, fileName, segs, uuid, n - 1);
      RecordsSnoc(fileId, fileName, segs, uuid, n);
      if |Strip(segs[n - 1])| >= MinSegmentLength {
        var r := MakeRecord(fileId, fileName, n - 1, segs[n - 1], uuid);
        assert RecordFor(r, fileId, fileName, segs);
      }
    }
  }

  /** Records are numbered from 1 to `n` at most. */
  lemma {:induction false} RecordsOrderBound(fileId: String, fileName: String, segs: seq<String>, uuid: nat -> String, n: nat)
    requires n <= |segs|
    ensures forall k :: 0 <= k < |Records(fileId, fileName, segs, uuid, n)| ==>
      1 <= Records(fileId, fileName, segs, uuid, n)[k].order <= n
  {
    if n > 0 {
      RecordsOrderBound(fileId, fileName, segs, uuid, n - 1);
      RecordsSnoc(fileId, fileName, segs, uuid, n);
    }
  }

  /** Orders are strictly increasing: records follow the order of the segments. */
  lemma {:induction false} RecordsOrdered(fileId: String, fileName: String, segs: seq<String>, uuid: nat -> String, n: nat)
    requires n <= |segs|
    ensures forall k, l :: 0 <= k < l < |Records(fileId, fileName, segs, uuid, n)| ==>
      Records(fileId, fileName, segs, uuid, n)[k].order < Records(fileId, fileName, segs, uuid, n)[l].order
  {
    if n > 0 {
      RecordsOrdered(fileId, fileName, segs, uuid, n - 1);
      RecordsOrderBound(fileId, fileName, segs, uuid, n - 1);
      RecordsSnoc(fileId, fileName, segs, uuid, n);
    }
  }

  /** Every segment whose stripped text is at least `min_segment_length` long
      has a record carrying its 1-based position. */
  lemma {:induction false} RecordsComplete(fileId: String, fileName: String, segs: seq<String>, uuid: nat -> String, n: nat)
    requires n <= |segs|
    ensures forall i :: 0 <= i < n && |Strip(segs[i])| >= MinSegmentLength ==>
      exists k :: 0 <= k < |Records(fileId, fileName, segs, uuid, n)| && Records(fileId, fileName, segs, uuid, n)[k].order == i + 1
  {
    if n > 0 {
      RecordsComplete(fileId, fileName, segs, uuid, n - 1);
      RecordsSnoc(fileId, fileName, segs, uuid, n);
      var prev := Records(fileId, fileName, segs, uuid, n - 1);
      var rs := Records(fileId, fileName, segs, uuid, n);
      forall i | 0 <= i < n && |Strip(segs[i])| >= MinSegmentLength
        ensures exists k :: 0 <= k < |rs| && rs[k].order == i + 1
      {
        if i < n - 1 {
          var k :| 0 <= k < |prev| && prev[k].order == i + 1;
          assert rs[k] == prev[k];
        } else {
          assert rs[|rs| - 1].order == i + 1;
        }
      }
    }
  }
}
