/** Tag recommendation, keyword extraction and word-set similarity of the
    segmentation service. */
module SegmentTags {
  import opened Text

  // ---------------------------------------------------------------------
  // Tag recommendation
  // ---------------------------------------------------------------------

  /** `keyword_tag_mapping`: chemical-engineering keywords and the tags they
      suggest, in insertion order. */
  const KeywordTagMapping: seq<(String, seq<String>)> := [
    ("实验", ["实验方法", "操作"]),
    ("测试", ["实验方法", "检测"]),
    ("试验", ["实验方法", "操作"]),
    ("检测", ["检测", "分析"]),
    ("分析", ["分析", "检测"]),
    ("测量", ["检测", "测量"]),
    ("安全", ["安全", "注意事项"]),
    ("注意", ["注意事项", "安全"]),
    ("警告", ["安全", "警告"]),
    ("危险", ["安全", "危险"]),
    ("防护", ["安全", "防护"]),
    ("事故", ["安全", "事故预防"]),
    ("工艺", ["工艺", "流程"]),
    ("流程", ["流程", "工艺"]),
    ("步骤", ["流程", "操作"]),
    ("操作", ["操作", "流程"]),
    ("控制", ["控制", "工艺"]),
    ("参数", ["参数", "控制"]),
    ("设备", ["设备", "装置"]),
    ("装置", ["装置", "设备"]),
    ("反应器", ["反应器", "设备"]),
    ("塔", ["分离设备", "设备"]),
    ("换热器", ["换热设备", "设备"]),
    ("原料", ["原料", "物料"]),
    ("产品", ["产品", "物料"]),
    ("催化剂", ["催化剂", "化学品"]),
    ("溶剂", ["溶剂", "化学品"]),
    ("化学品", ["化学品", "物料"]),
    ("理论", ["理论", "原理"]),
    ("原理", ["原理", "理论"]),
    ("机理", ["机理", "原理"]),
    ("动力学", ["动力学", "理论"]),
    ("热力学", ["热力学", "理论"]),
    ("质量", ["质量", "控制"]),
    ("标准", ["标准", "规范"]),
    ("规范", ["规范", "标准"]),
    ("检验", ["检验", "质量"]),
    ("合格", ["质量", "标准"]),
    ("环保", ["环保", "环境"]),
    ("环境", ["环境", "环保"]),
    ("污染", ["环保", "污染控制"]),
    ("废水", ["废水处理", "环保"]),
    ("废气", ["废气处理", "环保"]),
    ("废料", ["废料处理", "环保"])
  ]

  function ElementsOf(xs: seq<String>): set<String> {
    set x | x in xs
  }

  /** The tags of the entries of `table` whose keyword occurs in `textLower`. */
  function KeywordTags(textLower: String, table: seq<(String, seq<String>)>): set<String> {
    if table == [] then {}
    else
      var last := table[|table| - 1];
      KeywordTags(textLower, table[..|table| - 1])
        + (if Contains(textLower, last.0) then ElementsOf(last.1) else {})
  }

  /** A tag is suggested by the table exactly when some entry's keyword occurs
      in the text and lists that tag. */
  lemma {:induction false} KeywordTagsSpec(textLower: String, table: seq<(String, seq<String>)>, t: String)
    ensures t in KeywordTags(textLower, table)
      <==> exists k :: 0 <= k < |table| && Contains(textLower, table[k].0) && t in table[k].1
  {
    if table != [] {
      var n := |table| - 1;
      var prefix := table[..n];
      KeywordTagsSpec(textLower, prefix, t);
      if t in KeywordTags(textLower, prefix) {
        var k :| 0 <= k < |prefix| && Contains(textLower, prefix[k].0) && t in prefix[k].1;
        assert table[k] == prefix[k];
      }
      if exists k :: 0 <= k < |table| && Contains(textLower, table[k].0) && t in table[k].1 {
        var k :| 0 <= k < |table| && Contains(textLower, table[k].0) && t in table[k].1;
        if k < n {
          assert prefix[k] == table[k];
        }
      }
    }
  }

  /** The seven content features `_extract_feature_tags` looks for, in the
      order it checks them. */
  datatype Feature = Data | Reaction | Listing | Time | Condition | Concentration | Equipment

  const Features: seq<Feature> := [Data, Reaction, Listing, Time, Condition, Concentration, Equipment]

  function FeatureTag(f: Feature): String {
    match f
    case Data => "数据"
    case Reaction => "化学反应"
    case Listing => "列表"
    case Time => "时间"
    case Condition => "工艺条件"
    case Concentration => "浓度"
    case Equipment => "设备"
  }

  /** The alternatives of the equipment pattern, which are plain words. */
  const EquipmentWords: seq<String> := ["反应器", "蒸馏塔", "换热器", "泵", "阀门", "管道"]

  /** Whether the pattern for `f` matches `text`. The equipment pattern is a
      plain alternation of words; the other six regular expressions are the
      oracle `pattern`. */
  predicate Detected(f: Feature, text: String, pattern: (Feature, String) -> bool) {
    if f == Equipment then exists k :: 0 <= k < |EquipmentWords| && Contains(text, EquipmentWords[k])
    else pattern(f, text)
  }

  function FeatureTagsOf(text: String, pattern: (Feature, String) -> bool, fs: seq<Feature>): seq<String> {
    if fs == [] then []
    else (if Detected(fs[0], text, pattern) then [FeatureTag(fs[0])] else []) + FeatureTagsOf(text, pattern, fs[1..])
  }

  /** `_extract_feature_tags(text)` */
  function ExtractFeatureTags(text: String, pattern: (Feature, String) -> bool): seq<String> {
    FeatureTagsOf(text, pattern, Features)
  }

  lemma {:induction false} FeatureTagsOfSpec(text: String, pattern: (Feature, String) -> bool, fs: seq<Feature>, t: String)
    ensures t in FeatureTagsOf(text, pattern, fs)
      <==> exists k :: 0 <= k < |fs| && Detected(fs[k], text, pattern) && FeatureTag(fs[k]) == t
    ensures |FeatureTagsOf(text, pattern, fs)| <= |fs|
  {
    if fs != [] {
      FeatureTagsOfSpec(text, pattern, fs[1..], t);
      if exists k :: 0 <= k < |fs| && Detected(fs[k], text, pattern) && FeatureTag(fs[k]) == t {
        var k :| 0 <= k < |fs| && Detected(fs[k], text, pattern) && FeatureTag(fs[k]) == t;
        if k > 0 {
          assert fs[1..][k - 1] == fs[k];
        }
      }
      if t in FeatureTagsOf(text, pattern, fs[1..]) {
        var k :| 0 <= k < |fs[1..]| && Detected(fs[1..][k], text, pattern) && FeatureTag(fs[1..][k]) == t;
        assert fs[k + 1] == fs[1..][k];
      }
    }
  }

  /** A feature tag is reported exactly when its pattern matches, at most one
      per feature. */
  lemma ExtractFeatureTagsSpec(text: String, pattern: (Feature, String) -> bool, f: Feature)
    ensures FeatureTag(f) in ExtractFeatureTags(text, pattern) <==> Detected(f, text, pattern)
    ensures |ExtractFeatureTags(text, pattern)| <= 7
  {
    FeatureTagsOfSpec(text, pattern, Features, FeatureTag(f));
    var k := match f
      case Data => 0 case Reaction => 1 case Listing => 2 case Time => 3
      case Condition => 4 case Concentration => 5 case Equipment => 6;
    assert Features[k] == f;
  }

  /** The set `recommend_tags` builds before turning it into a list. */
  function RecommendTagSet(segmentText: String, pattern: (Feature, String) -> bool): set<String> {
    KeywordTags(Lower(segmentText), KeywordTagMapping) + ElementsOf(ExtractFeatureTags(segmentText, pattern))
  }

  /** Each recommended tag comes from a keyword entry whose keyword occurs in
      the lowercased text, or from a feature whose pattern matches. */
  lemma RecommendTagSetSpec(segmentText: String, pattern: (Feature, String) -> bool, t: String)
    ensures t in RecommendTagSet(segmentText, pattern) <==>
      (exists k :: 0 <= k < |KeywordTagMapping| && Contains(Lower(segmentText), KeywordTagMapping[k].0)
                   && t in KeywordTagMapping[k].1)
      || (exists f :: Detected(f, segmentText, pattern) && FeatureTag(f) == t)
  {
    KeywordTagsSpec(Lower(segmentText), KeywordTagMapping, t);
    if exists f :: Detected(f, segmentText, pattern) && FeatureTag(f) == t {
      var f :| Detected(f, segmentText, pattern) && FeatureTag(f) == t;
      ExtractFeatureTagsSpec(segmentText, pattern, f);
    }
    if t in ExtractFeatureTags(segmentText, pattern) {
      FeatureTagsOfSpec(segmentText, pattern, Features, t);
      var k :| 0 <= k < |Features| && Detected(Features[k], segmentText, pattern) && FeatureTag(Features[k]) == t;
      ExtractFeatureTagsSpec(segmentText, pattern, Features[k]);
    }
  }

  /** `recommend_tags(segment_text, max_tags)`: the keyword loop, then the
      feature tags, then `list(recommended_tags)[:max_tags]`. The order in
      which Python lists a set is left open: any distinct listing of the set
      is allowed. */
  method RecommendTags(segmentText: String, maxTags: int, pattern: (Feature, String) -> bool)
    returns (resultTags: seq<String>)
    ensures forall t :: t in resultTags ==> t in RecommendTagSet(segmentText, pattern)
    ensures Distinct(resultTags)
    ensures |resultTags| == TakeLength(|RecommendTagSet(segmentText, pattern)|, maxTags)
  {
    var recommendedTags: set<String> := {};
    var textLower := Lower(segmentText);
    for i := 0 to |KeywordTagMapping|
      invariant recommendedTags == KeywordTags(textLower, KeywordTagMapping[..i])
    {
      var (keyword, tags) := KeywordTagMapping[i];
      assert KeywordTagMapping[..i + 1][..i] == KeywordTagMapping[..i];
      if Contains(textLower, keyword) {
        recommendedTags := recommendedTags + ElementsOf(tags);
      }
    }
    assert KeywordTagMapping[..|KeywordTagMapping|] == KeywordTagMapping;
    var featureTags := ExtractFeatureTags(segmentText, pattern);
    recommendedTags := recommendedTags + ElementsOf(featureTags);

    // list(recommended_tags)
    var listed: seq<String> := [];
    var rest := recommendedTags;
    while rest != {}
      invariant Distinct(listed)
      invariant forall t :: t in listed ==> t in recommendedTags && t !in rest
      invariant rest <= recommendedTags
      invariant |listed| + |rest| == |recommendedTags|
      decreases |rest|
    {
      var t :| t in rest;
      listed := listed + [t];
      rest := rest - {t};
    }
    resultTags := PyTake(listed, maxTags);
  }

  // ---------------------------------------------------------------------
  // Keyword extraction
  // ---------------------------------------------------------------------

  /** Python's `\w`, restricted to ASCII letters and digits, `_` and the CJK
      unified ideographs. */
  predicate IsWordChar(c: char) {
    'a' <= c <= 'z' || 'A' <= c <= 'Z' || '0' <= c <= '9' || c == '_' || '一' <= c <= '鿿'
  }

  /** `re.sub(r'[^\w\s]', ' ', text)` */
  function RemovePunctuation(text: String): String {
    seq(|text|, i requires 0 <= i < |text| => if IsWordChar(text[i]) || IsSpace(text[i]) then text[i] else ' ')
  }

  /** Punctuation becomes a space: what is left are word characters and
      whitespace, at the same positions. */
  lemma RemovePunctuationSpec(text: String)
    ensures |RemovePunctuation(text)| == |text|
    ensures forall i :: 0 <= i < |text| ==>
      (IsWordChar(RemovePunctuation(text)[i]) || IsSpace(RemovePunctuation(text)[i]))
      && (IsWordChar(text[i]) ==> RemovePunctuation(text)[i] == text[i])
  {
  }

  /** Kept by the filter: at least two characters and not all digits. */
  predicate IsKeyword(w: String) {
    |w| >= 2 && !IsAllDigits(w)
  }

  /** The `valid_words` loop over the split words. */
  function ValidWords(words: seq<String>): seq<String> {
    if words == [] then []
    else
      var word := Strip(words[|words| - 1]);
      ValidWords(words[..|words| - 1]) + (if IsKeyword(word) then [word] else [])
  }

  lemma {:induction false} ValidWordsAreKeywords(words: seq<String>)
    ensures forall w :: w in ValidWords(words) ==> IsKeyword(w)
  {
    if words != [] {
      ValidWordsAreKeywords(words[..|words| - 1]);
    }
  }

  /** The words `extract_keywords` counts. */
  function CandidateWords(text: String): seq<String> {
    ValidWords(Words(RemovePunctuation(text)))
  }

  /** `word_freq` after counting `ws`. */
  function Frequencies(ws: seq<String>): map<String, nat> {
    map w | w in ws :: multiset(ws)[w]
  }

  function Count(freq: map<String, nat>, w: String): nat {
    if w in freq then freq[w] else 0
  }

  /** One insertion step of Python's stable `sorted(..., key=count,
      reverse=True)`: `w` goes after every item whose count is at least its own. */
  function InsertByCount(w: String, sorted: seq<String>, freq: map<String, nat>): seq<String> {
    if sorted == [] then [w]
    else if Count(freq, w) > Count(freq, sorted[0]) then [w] + sorted
    else [sorted[0]] + InsertByCount(w, sorted[1..], freq)
  }

  /** `sorted(word_freq.items(), key=lambda x: x[1], reverse=True)`, keys only. */
  function SortByCount(keys: seq<String>, freq: map<String, nat>): seq<String> {
    if keys == [] then []
    else InsertByCount(keys[|keys| - 1], SortByCount(keys[..|keys| - 1], freq), freq)
  }

  /** Non-increasing counts; equal counts keep the order of `keys`. */
  predicate SortedByCount(s: seq<String>, keys: seq<String>, freq: map<String, nat>) {
    forall i, j :: 0 <= i < j < |s| ==> Before(s[i], s[j], keys, freq)
  }

  /** `a` may precede `b` in the sorted list: a higher count, or the same
      count and an earlier key. */
  predicate Before(a: String, b: String, keys: seq<String>, freq: map<String, nat>) {
    Count(freq, a) > Count(freq, b)
    || (Count(freq, a) == Count(freq, b) && IndexOf(keys, a) < IndexOf(keys, b))
  }

  lemma SortedByCountTail(s: seq<String>, keys: seq<String>, freq: map<String, nat>)
    requires s != [] && SortedByCount(s, keys, freq)
    ensures SortedByCount(s[1..], keys, freq)
    ensures forall y :: y in s[1..] ==> Before(s[0], y, keys, freq)
  {
    forall i, j | 0 <= i < j < |s[1..]| ensures Before(s[1..][i], s[1..][j], keys, freq) {
      assert s[1..][i] == s[i + 1] && s[1..][j] == s[j + 1];
    }
    forall y | y in s[1..] ensures Before(s[0], y, keys, freq) {
      var m :| 0 <= m < |s[1..]| && s[1..][m] == y;
      assert s[m + 1] == y;
    }
  }

  lemma SortedByCountCons(x: String, t: seq<String>, keys: seq<String>, freq: map<String, nat>)
    requires SortedByCount(t, keys, freq)
    requires forall y :: y in t ==> Before(x, y, keys, freq)
    ensures SortedByCount([x] + t, keys, freq)
  {
    var r := [x] + t;
    forall i, j | 0 <= i < j < |r| ensures Before(r[i], r[j], keys, freq) {
      assert r[j] == t[j - 1];
      if i > 0 {
        assert r[i] == t[i - 1];
      } else {
        assert t[j - 1] in t;
      }
    }
  }

  /** Inserting a word adds exactly that word. */
  lemma {:induction false} InsertByCountPerm(w: String, s: seq<String>, freq: map<String, nat>)
    ensures multiset(InsertByCount(w, s, freq)) == multiset(s) + multiset{w}
  {
    if s != [] && Count(freq, w) <= Count(freq, s[0]) {
      InsertByCountPerm(w, s[1..], freq);
      assert s == [s[0]] + s[1..];
    }
  }

  /** Inserting a word that comes last in dict order into a sorted list
      keeps it sorted. */
  lemma {:induction false} InsertByCountSpec(w: String, s: seq<String>, keys: seq<String>, freq: map<String, nat>)
    requires SortedByCount(s, keys, freq)
    requires forall x :: x in s ==> IndexOf(keys, x) < IndexOf(keys, w)
    ensures multiset(InsertByCount(w, s, freq)) == multiset(s) + multiset{w}
    ensures SortedByCount(InsertByCount(w, s, freq), keys, freq)
  {
    InsertByCountPerm(w, s, freq);
    if s == [] {
    } else if Count(freq, w) > Count(freq, s[0]) {
      SortedByCountTail(s, keys, freq);
      assert s == [s[0]] + s[1..];
      SortedByCountCons(w, s, keys, freq);
    } else {
      var tail := s[1..];
      assert s == [s[0]] + tail;
      SortedByCountTail(s, keys, freq);
      InsertByCountSpec(w, tail, keys, freq);
      var inserted := InsertByCount(w, tail, freq);
      forall y | y in inserted ensures Before(s[0], y, keys, freq) {
        assert y in multiset(inserted);
        assert s[0] in s;
      }
      SortedByCountCons(s[0], inserted, keys, freq);
    }
  }

  /** The sort is a permutation of the keys with non-increasing counts, and
      keys of equal count keep their dict order. */
  lemma {:induction false} SortByCountSpec(keys: seq<String>, freq: map<String, nat>)
    requires Distinct(keys)
    ensures multiset(SortByCount(keys, freq)) == multiset(keys)
    ensures SortedByCount(SortByCount(keys, freq), keys, freq)
  {
    if keys != [] {
      var n := |keys| - 1;
      var p := keys[..n];
      var w := keys[n];
      assert keys == p + [w];
      SortByCountSpec(p, freq);
      var s := SortByCount(p, freq);
      assert w !in p;
      forall x | x in s ensures IndexOf(keys, x) < IndexOf(keys, w) {
        assert x in multiset(p);
        IndexOfPrefix(p, w, x);
        IndexOfLast(p, w);
      }
      assert SortedByCount(s, keys, freq) by {
        forall i, j | 0 <= i < j < |s| ensures Before(s[i], s[j], keys, freq) {
          assert s[i] in multiset(p) && s[j] in multiset(p);
          IndexOfPrefix(p, w, s[i]);
          IndexOfPrefix(p, w, s[j]);
        }
      }
      InsertByCountSpec(w, s, keys, freq);
    }
  }

  /** What `extract_keywords(text, max_keywords)` returns. */
  function Keywords(text: String, maxKeywords: int): seq<String> {
    var valid := CandidateWords(text);
    PyTake(SortByCount(Dedup(valid), Frequencies(valid)), maxKeywords)
  }

  /** `extract_keywords(text, max_keywords)` */
  method ExtractKeywords(text: String, maxKeywords: int) returns (keywords: seq<String>)
    ensures keywords == Keywords(text, maxKeywords)
  {
    var cleanedText := RemovePunctuation(text);
    var words := Words(cleanedText);
    var validWords: seq<String> := [];
    for i := 0 to |words|
      invariant validWords == ValidWords(words[..i])
    {
      var word := Strip(words[i]);
      assert words[..i + 1][..i] == words[..i];
      if |word| >= 2 && !IsAllDigits(word) {
        validWords := validWords + [word];
      }
    }
    assert words[..|words|] == words;

    // word_freq: a dict whose keys keep their insertion order
    var wordOrder: seq<String> := [];
    var wordFreq: map<String, nat> := map[];
    for i := 0 to |validWords|
      invariant wordOrder == Dedup(validWords[..i])
      invariant wordFreq == Frequencies(validWords[..i])
    {
      var word := validWords[i];
      var counted := validWords[..i];
      assert validWords[..i + 1] == counted + [word];
      DedupSpec(counted);
      if word !in wordFreq {
        wordOrder := wordOrder + [word];
      }
      wordFreq := wordFreq[word := (if word in wordFreq then wordFreq[word] else 0) + 1];
      FrequenciesStep(counted, word);
    }
    assert validWords[..|validWords|] == validWords;
    var sortedWords := SortByCount(wordOrder, wordFreq);
    keywords := PyTake(sortedWords, maxKeywords);
  }

  lemma FrequenciesStep(ws: seq<String>, w: String)
    ensures Frequencies(ws + [w])
      == Frequencies(ws)[w := (if w in Frequencies(ws) then Frequencies(ws)[w] else 0) + 1]
  {
    var f := Frequencies(ws);
    var g := Frequencies(ws + [w]);
    var h := f[w := (if w in f then f[w] else 0) + 1];
    assert multiset(ws + [w]) == multiset(ws) + multiset{w};
    forall x ensures x in g <==> x in h {
      assert x in ws + [w] <==> x in ws || x == w;
    }
    forall x | x in g ensures g[x] == h[x] {
      if x != w {
        assert x in ws;
      } else if w !in ws {
        assert multiset(ws)[w] == 0;
      }
    }
  }

  lemma FrequenciesCount(ws: seq<String>, w: String)
    ensures Count(Frequencies(ws), w) == multiset(ws)[w]
  {
    if w !in ws {
      assert multiset(ws)[w] == 0;
    }
  }

  /** The sorted keys before truncation: a duplicate-free permutation of the
      candidate words, ordered by non-increasing count. */
  lemma SortedKeywords(text: String)
    ensures var valid := CandidateWords(text);
      var sorted := SortByCount(Dedup(valid), Frequencies(valid));
      && Distinct(sorted)
      && |sorted| == |Dedup(valid)|
      && (forall w :: w in sorted <==> w in valid)
      && (forall i, j :: 0 <= i < j < |sorted| ==> Before(sorted[i], sorted[j], Dedup(valid), Frequencies(valid)))
  {
    var valid := CandidateWords(text);
    var keys := Dedup(valid);
    var sorted := SortByCount(keys, Frequencies(valid));
    DedupSpec(valid);
    SortByCountSpec(keys, Frequencies(valid));
    assert |sorted| == |keys| by {
      assert |multiset(sorted)| == |multiset(keys)|;
    }
    forall w ensures w in sorted <==> w in valid {
      assert w in sorted <==> w in multiset(keys);
    }
    forall i, j | 0 <= i < j < |sorted| ensures sorted[i] != sorted[j] {
      assert Before(sorted[i], sorted[j], keys, Frequencies(valid));
    }
  }

  /** The keywords are distinct candidate words of at least two characters,
      not all digits, and there are at most `max_keywords` of them (Python
      slice length). */
  lemma KeywordsValid(text: String, maxKeywords: int)
    ensures var valid := CandidateWords(text);
      var r := Keywords(text, maxKeywords);
      && Distinct(r)
      && (forall w :: w in r ==> w in valid && IsKeyword(w))
      && |r| == TakeLength(|Dedup(valid)|, maxKeywords)
  {
    var valid := CandidateWords(text);
    var sorted := SortByCount(Dedup(valid), Frequencies(valid));
    var r := Keywords(text, maxKeywords);
    SortedKeywords(text);
    ValidWordsAreKeywords(Words(RemovePunctuation(text)));
    assert r <= sorted;
    forall w | w in r ensures w in sorted {
      var m :| 0 <= m < |r| && r[m] == w;
      assert sorted[m] == w;
    }
  }

  /** Counts never increase along the keywords, and equal counts keep the
      order of first occurrence in the text. */
  lemma KeywordsOrdered(text: String, maxKeywords: int)
    ensures var valid := CandidateWords(text);
      var r := Keywords(text, maxKeywords);
      forall i, j :: 0 <= i < j < |r| ==>
        multiset(valid)[r[i]] > multiset(valid)[r[j]]
        || (multiset(valid)[r[i]] == multiset(valid)[r[j]] && IndexOf(valid, r[i]) < IndexOf(valid, r[j]))
  {
    var valid := CandidateWords(text);
    var keys := Dedup(valid);
    var sorted := SortByCount(keys, Frequencies(valid));
    var r := Keywords(text, maxKeywords);
    SortedKeywords(text);
    DedupSpec(valid);
    assert r <= sorted;
    forall i, j | 0 <= i < j < |r|
      ensures multiset(valid)[r[i]] > multiset(valid)[r[j]]
        || (multiset(valid)[r[i]] == multiset(valid)[r[j]] && IndexOf(valid, r[i]) < IndexOf(valid, r[j]))
    {
      assert r[i] == sorted[i] && r[j] == sorted[j];
      assert Before(sorted[i], sorted[j], keys, Frequencies(valid));
      assert sorted[i] in sorted && sorted[j] in sorted;
      FrequenciesCount(valid, r[i]);
      FrequenciesCount(valid, r[j]);
    }
  }

  /** Truncation keeps the most frequent words: no candidate word left out
      occurs more often than a keyword. */
  lemma KeywordsTopK(text: String, maxKeywords: int)
    ensures var valid := CandidateWords(text);
      var r := Keywords(text, maxKeywords);
      forall w, i :: w in valid && w !in r && 0 <= i < |r| ==> multiset(valid)[w] <= multiset(valid)[r[i]]
  {
    var valid := CandidateWords(text);
    var keys := Dedup(valid);
    var sorted := SortByCount(keys, Frequencies(valid));
    var r := Keywords(text, maxKeywords);
    SortedKeywords(text);
    assert r <= sorted;
    forall w, i | w in valid && w !in r && 0 <= i < |r|
      ensures multiset(valid)[w] <= multiset(valid)[r[i]]
    {
      var j :| 0 <= j < |sorted| && sorted[j] == w;
      assert j >= |r|;
      assert r[i] == sorted[i];
      assert Before(sorted[i], sorted[j], keys, Frequencies(valid));
      FrequenciesCount(valid, w);
      FrequenciesCount(valid, r[i]);
    }
  }

  // ---------------------------------------------------------------------
  // Similarity
  // ---------------------------------------------------------------------

  /** `set(text.lower().split())` */
  function WordSet(text: String): set<String> {
    set w | w in Words(Lower(text))
  }

  /** `calculate_segment_similarity(text1, text2)`: the Jaccard index of the
      two word sets, 0 when either is empty. */
  function SegmentSimilarity(text1: String, text2: String): real {
    var words1 := WordSet(text1);
    var words2 := WordSet(text2);
    if words1 == {} || words2 == {} then 0.0
    else
      var intersection := |words1 * words2|;
      var union := |words1 + words2|;
      if union > 0 then intersection as real / union as real else 0.0
  }

  lemma {:induction false} SubsetCard(a: set<String>, b: set<String>)
    requires a <= b
    ensures |a| <= |b|
    ensures |a| == |b| ==> a == b
    decreases |a|
  {
    if a != {} {
      var x :| x in a;
      assert x in b;
      SubsetCard(a - {x}, b - {x});
      assert a == (a - {x}) + {x};
      assert b == (b - {x}) + {x};
    } else if |b| == 0 {
      assert b == {};
    }
  }

  lemma RatioBounds(i: nat, u: nat)
    requires 0 < u && i <= u
    ensures 0.0 <= i as real / u as real <= 1.0
    ensures i as real / u as real == 1.0 <==> i == u
    ensures i as real / u as real == 0.0 <==> i == 0
  {
    var q := i as real / u as real;
    assert q * u as real == i as real;
  }

  /** The similarity lies in [0, 1] and does not depend on argument order. */
  lemma SimilarityBounds(text1: String, text2: String)
    ensures 0.0 <= SegmentSimilarity(text1, text2) <= 1.0
    ensures SegmentSimilarity(text1, text2) == SegmentSimilarity(text2, text1)
  {
    var a := WordSet(text1);
    var b := WordSet(text2);
    assert a * b == b * a;
    assert a + b == b + a;
    if a != {} && b != {} {
      SubsetCard(a * b, a + b);
      RatioBounds(|a * b|, |a + b|);
    }
  }

  /** The similarity is 1 exactly for equal non-empty word sets, and 0
      exactly when the sets share no word (in particular when one is empty). */
  lemma SimilarityExtremes(text1: String, text2: String)
    ensures SegmentSimilarity(text1, text2) == 1.0 <==> WordSet(text1) != {} && WordSet(text1) == WordSet(text2)
    ensures SegmentSimilarity(text1, text2) == 0.0 <==> WordSet(text1) * WordSet(text2) == {}
  {
    var a := WordSet(text1);
    var b := WordSet(text2);
    if a != {} && b != {} {
      SubsetCard(a * b, a + b);
      var x :| x in a;
      assert x in a + b;
      RatioBounds(|a * b|, |a + b|);
      assert SegmentSimilarity(text1, text2) == |a * b| as real / |a + b| as real;
      if |a * b| == |a + b| {
        assert a * b == a + b;
        assert a == b;
      }
      if a == b {
        assert a * b == a + b;
      }
      if |a * b| == 0 {
        assert a * b == {};
      }
    } else if a == {} {
      assert a * b == {};
    } else {
      assert a * b == {};
    }
  }
}
