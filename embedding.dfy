/** The embedding service: blank-text handling, batch encoding with zero
    rows spliced back in, per-segment metadata, and the zero-norm guard of
    cosine similarity. The sentence-transformers model is an oracle. */
module Embedding {
  import opened Wrappers
  import opened Text

  /** An embedding row (float32 values are modelled as reals). */
  type Vector = seq<real>

  /** The metadata stored next to each vector row. */
  datatype SegmentMeta = SegmentMeta(
    segmentId: String,
    fileId: String,
    order: int,
    tags: seq<String>,
    fileName: String,
    characterCount: nat,
    createdAt: String,
    textPreview: String)

  /** A segment record as read from the segment store. */
  datatype StoredSegment = StoredSegment(
    segmentId: String,
    fileId: String,
    order: int,
    text: String,
    fileName: String,
    tags: seq<String>,
    createdAt: String)

  function Zeros(dim: nat): Vector {
    seq(dim, _ => 0.0)
  }

  /** `np.zeros((n, dim))` */
  function ZeroMatrix(n: nat, dim: nat): seq<Vector> {
    seq(n, _ => Zeros(dim))
  }

  predicate IsZero(v: Vector) {
    forall i :: 0 <= i < |v| ==> v[i] == 0.0
  }

  /** `not text or not text.strip()` */
  predicate IsBlank(text: String) {
    Strip(text) == []
  }

  // ---------------------------------------------------------------------
  // encode_text
  // ---------------------------------------------------------------------

  /** `encode_text(text)`. `model` is the sentence-transformers encoder:
      `None` stands for a call that raised. */
  function EncodeText(text: String, model: String -> Option<Vector>, embeddingDim: nat): Vector {
    if IsBlank(text) then Zeros(embeddingDim)
    else match model(text)
      case Some(e) => e
      case None => Zeros(embeddingDim)
  }

  /** Blank text and a failing model both give the zero vector of the model's
      dimension; otherwise the model's own output is returned. When the model
      only produces rows of `embeddingDim` values, so does `EncodeText`. */
  lemma EncodeTextSpec(text: String, model: String -> Option<Vector>, embeddingDim: nat)
    ensures IsBlank(text) || model(text).None? ==>
      |EncodeText(text, model, embeddingDim)| == embeddingDim && IsZero(EncodeText(text, model, embeddingDim))
    ensures !IsBlank(text) && model(text).Some? ==> EncodeText(text, model, embeddingDim) == model(text).value
    ensures (model(text).Some? ==> |model(text).value| == embeddingDim) ==>
      |EncodeText(text, model, embeddingDim)| == embeddingDim
  {
  }

  // ---------------------------------------------------------------------
  // encode_batch
  // ---------------------------------------------------------------------

  /** Which texts go to the model: `text and text.strip()`. */
  function NonBlank(texts: seq<String>): (keep: seq<bool>)
    ensures |keep| == |texts|
  {
    seq(|texts|, j requires 0 <= j < |texts| => !IsBlank(texts[j]))
  }

  /** The positions holding `true`, in order. */
  function Positions(keep: seq<bool>): seq<nat> {
    if keep == [] then []
    else
      var n := |keep| - 1;
      Positions(keep[..n]) + (if keep[n] then [n] else [])
  }

  /** `valid_indices`: positions of the non-blank texts, in order. */
  function ValidIndices(texts: seq<String>): seq<nat> {
    Positions(NonBlank(texts))
  }

  /** `valid_texts`: the non-blank texts, stripped, in order. */
  function ValidTexts(texts: seq<String>): seq<String> {
    if texts == [] then []
    else
      var n := |texts| - 1;
      ValidTexts(texts[..n]) + (if IsBlank(texts[n]) then [] else [Strip(texts[n])])
  }

  /** How many kept positions come before `j`: the row of the model output
      that position `j` receives. */
  function Rank(keep: seq<bool>, j: nat): nat
    requires j <= |keep|
  {
    |Positions(keep[..j])|
  }

  /** The positions are strictly increasing and each holds `true`. */
  lemma {:induction false} PositionsBasic(keep: seq<bool>)
    ensures forall k :: 0 <= k < |Positions(keep)| ==> Positions(keep)[k] < |keep| && keep[Positions(keep)[k]]
    ensures forall k, l :: 0 <= k < l < |Positions(keep)| ==> Positions(keep)[k] < Positions(keep)[l]
  {
    if keep != [] {
      var n := |keep| - 1;
      PositionsBasic(keep[..n]);
    }
  }

  /** The positions found in the first `j` entries start the full list, and
      the rest of the list lies at or beyond `j`. */
  lemma {:induction false} PositionsPrefix(keep: seq<bool>, j: nat)
    requires j <= |keep|
    ensures Positions(keep[..j]) <= Positions(keep)
    ensures forall k :: |Positions(keep[..j])| <= k < |Positions(keep)| ==> Positions(keep)[k] >= j
  {
    if j == |keep| {
      assert keep[..j] == keep;
    } else {
      var n := |keep| - 1;
      PositionsPrefix(keep[..n], j);
      assert keep[..n][..j] == keep[..j];
    }
  }

  /** A kept position `j` is number `Rank(keep, j)` among the positions, and
      position number `k` has rank `k`. */
  lemma RankSpec(keep: seq<bool>)
    ensures forall j :: 0 <= j < |keep| && keep[j] ==>
      Rank(keep, j) < |Positions(keep)| && Positions(keep)[Rank(keep, j)] == j
    ensures forall k :: 0 <= k < |Positions(keep)| ==>
      Positions(keep)[k] < |keep| && keep[Positions(keep)[k]] && Rank(keep, Positions(keep)[k]) == k
  {
    var ps := Positions(keep);
    PositionsBasic(keep);
    forall j | 0 <= j < |keep| && keep[j]
      ensures Rank(keep, j) < |ps| && ps[Rank(keep, j)] == j
    {
      PositionsPrefix(keep, j + 1);
      assert keep[..j + 1][..j] == keep[..j];
    }
    forall k | 0 <= k < |ps| ensures Rank(keep, ps[k]) == k {
      var j := ps[k];
      PositionsPrefix(keep, j);
      PositionsBasic(keep[..j]);
    }
  }

  /** `valid_texts` and `valid_indices` are parallel: the `k`-th valid text is
      the stripped text at the `k`-th valid index. */
  lemma {:induction false} ValidTextsSpec(texts: seq<String>)
    ensures |ValidTexts(texts)| == |ValidIndices(texts)|
    ensures forall k :: 0 <= k < |ValidIndices(texts)| ==>
      ValidIndices(texts)[k] < |texts| && ValidTexts(texts)[k] == Strip(texts[ValidIndices(texts)[k]])
  {
    if texts != [] {
      var n := |texts| - 1;
      ValidTextsSpec(texts[..n]);
      assert NonBlank(texts)[..n] == NonBlank(texts[..n]);
    }
  }

  /** The model output fits: a row for every valid text, each of the model's
      dimension. A row of another length makes the assignment into the result
      matrix raise. */
  predicate Fits(embeddings: seq<Vector>, n: nat, embeddingDim: nat) {
    |embeddings| >= n && forall k :: 0 <= k < n ==> |embeddings[k]| == embeddingDim
  }

  /** The zero matrix with each kept row replaced by the model row of its
      rank. (The rank test never fails when the output fits: see
      `RankSpec`.) */
  function Spliced(keep: seq<bool>, embeddings: seq<Vector>, embeddingDim: nat): seq<Vector> {
    seq(|keep|, j requires 0 <= j < |keep| =>
      if !keep[j] || Rank(keep, j) >= |embeddings| then Zeros(embeddingDim)
      else embeddings[Rank(keep, j)])
  }

  /** What `encode_batch(texts)` returns. `model` is the batch encoder: `None`
      stands for a call that raised. */
  function BatchRows(texts: seq<String>, model: seq<String> -> Option<seq<Vector>>, embeddingDim: nat): seq<Vector> {
    if texts == [] then []
    else
      var valid := ValidTexts(texts);
      if valid == [] then ZeroMatrix(|texts|, embeddingDim)
      else match model(valid)
        case None => ZeroMatrix(|texts|, embeddingDim)
        case Some(embeddings) =>
          if Fits(embeddings, |valid|, embeddingDim) then Spliced(NonBlank(texts), embeddings, embeddingDim)
          else ZeroMatrix(|texts|, embeddingDim)
  }

  /** The `valid_texts` / `valid_indices` loop of `encode_batch`. */
  method CollectValid(texts: seq<String>) returns (validTexts: seq<String>, validIndices: seq<nat>)
    ensures validTexts == ValidTexts(texts)
    ensures validIndices == ValidIndices(texts)
  {
    validTexts := [];
    validIndices := [];
    for i := 0 to |texts|
      invariant validTexts == ValidTexts(texts[..i])
      invariant validIndices == ValidIndices(texts[..i])
    {
      assert texts[..i + 1][..i] == texts[..i];
      assert NonBlank(texts[..i + 1])[..i] == NonBlank(texts[..i]);
      var text := texts[i];
      if !IsBlank(text) {
        validTexts := validTexts + [Strip(text)];
        validIndices := validIndices + [i];
      }
    }
    assert texts[..|texts|] == texts;
  }

  /** The loop of `encode_batch` that writes model rows into a zero matrix in
      place; `None` when an assignment raises. */
  method SpliceRows(keep: seq<bool>, validIndices: seq<nat>, embeddings: seq<Vector>, embeddingDim: nat)
    returns (result: Option<seq<Vector>>)
    requires validIndices == Positions(keep)
    ensures result == if Fits(embeddings, |validIndices|, embeddingDim)
      then Some(Spliced(keep, embeddings, embeddingDim)) else None
  {
    var rows := new Vector[|keep|](_ => Zeros(embeddingDim));
    for i := 0 to |validIndices|
      invariant Fits(embeddings, i, embeddingDim)
      invariant forall j :: 0 <= j < |keep| ==>
        rows[j] == if keep[j] && Rank(keep, j) < i then embeddings[Rank(keep, j)] else Zeros(embeddingDim)
    {
      if i >= |embeddings| || |embeddings[i]| != embeddingDim {
        return None;
      }
      RankStep(keep, i);
      rows[validIndices[i]] := embeddings[i];
    }
    RankBelow(keep);
    assert rows[..] == Spliced(keep, embeddings, embeddingDim);
    return Some(rows[..]);
  }

  /** Position number `i` is the one kept position whose rank is `i`. */
  lemma RankStep(keep: seq<bool>, i: nat)
    requires i < |Positions(keep)|
    ensures Positions(keep)[i] < |keep| && keep[Positions(keep)[i]] && Rank(keep, Positions(keep)[i]) == i
    ensures forall j :: 0 <= j < |keep| ==>
      ((keep[j] && Rank(keep, j) < i + 1) <==> ((keep[j] && Rank(keep, j) < i) || j == Positions(keep)[i]))
  {
    RankSpec(keep);
  }

  /** Every kept position has a rank below the number of positions. */
  lemma RankBelow(keep: seq<bool>)
    ensures forall j :: 0 <= j < |keep| && keep[j] ==> Rank(keep, j) < |Positions(keep)|
  {
    RankSpec(keep);
  }

  /** `encode_batch(texts, batch_size)` */
  method EncodeBatch(texts: seq<String>, model: seq<String> -> Option<seq<Vector>>, embeddingDim: nat)
    returns (result: seq<Vector>)
    ensures result == BatchRows(texts, model, embeddingDim)
  {
    if texts == [] {
      return [];
    }
    var validTexts, validIndices := CollectValid(texts);
    if validTexts == [] {
      return ZeroMatrix(|texts|, embeddingDim);
    }
    var encoded := model(validTexts);
    if encoded.None? {
      return ZeroMatrix(|texts|, embeddingDim);
    }
    ValidTextsSpec(texts);
    var spliced := SpliceRows(NonBlank(texts), validIndices, encoded.value, embeddingDim);
    result := if spliced.Some? then spliced.value else ZeroMatrix(|texts|, embeddingDim);
  }

  /** The batch has one row per input text, in input order: blank texts get
      zero rows. An empty input gives no rows; all-blank input or a failing
      model gives an all-zero matrix. */
  lemma BatchRowsShape(texts: seq<String>, model: seq<String> -> Option<seq<Vector>>, embeddingDim: nat)
    ensures |BatchRows(texts, model, embeddingDim)| == |texts|
    ensures forall j :: 0 <= j < |texts| && IsBlank(texts[j]) ==>
      BatchRows(texts, model, embeddingDim)[j] == Zeros(embeddingDim)
    ensures ValidTexts(texts) == [] || model(ValidTexts(texts)).None? ==>
      BatchRows(texts, model, embeddingDim) == ZeroMatrix(|texts|, embeddingDim)
  {
  }

  /** When the model output fits, the text at the `k`-th valid index gets the
      `k`-th model row. */
  lemma BatchRowsSplice(texts: seq<String>, model: seq<String> -> Option<seq<Vector>>, embeddingDim: nat)
    requires ValidTexts(texts) != [] && model(ValidTexts(texts)).Some?
    requires Fits(model(ValidTexts(texts)).value, |ValidTexts(texts)|, embeddingDim)
    ensures |ValidIndices(texts)| == |ValidTexts(texts)|
    ensures forall k :: 0 <= k < |ValidIndices(texts)| ==>
      ValidIndices(texts)[k] < |texts|
      && BatchRows(texts, model, embeddingDim)[ValidIndices(texts)[k]] == model(ValidTexts(texts)).value[k]
  {
    var keep := NonBlank(texts);
    ValidTextsSpec(texts);
    RankSpec(keep);
    var embeddings := model(ValidTexts(texts)).value;
    var rows := BatchRows(texts, model, embeddingDim);
    assert rows == Spliced(keep, embeddings, embeddingDim);
    assert ValidIndices(texts) == Positions(keep);
    forall k | 0 <= k < |ValidIndices(texts)|
      ensures rows[ValidIndices(texts)[k]] == embeddings[k]
    {
      var j := ValidIndices(texts)[k];
      assert keep[j] && Rank(keep, j) == k;
    }
  }

  /** Every row of the batch has the model's dimension. */
  lemma BatchRowsWidth(texts: seq<String>, model: seq<String> -> Option<seq<Vector>>, embeddingDim: nat)
    ensures forall j :: 0 <= j < |BatchRows(texts, model, embeddingDim)| ==>
      |BatchRows(texts, model, embeddingDim)[j]| == embeddingDim
  {
    var valid := ValidTexts(texts);
    if texts != [] && valid != [] && model(valid).Some? && Fits(model(valid).value, |valid|, embeddingDim) {
      var keep := NonBlank(texts);
      ValidTextsSpec(texts);
      RankSpec(keep);
      var rows := BatchRows(texts, model, embeddingDim);
      forall j | 0 <= j < |rows| ensures |rows[j]| == embeddingDim {
        if keep[j] {
          assert Rank(keep, j) < |valid|;
        }
      }
    }
  }

  // ---------------------------------------------------------------------
  // encode_segments
  // ---------------------------------------------------------------------

  /** `text[:100] + '...' if len(text) > 100 else text` */
  function Preview(text: String): String {
    if |text| > 100 then text[..100] + "..." else text
  }

  /** The metadata record built for one segment. */
  function MetaOf(segment: StoredSegment): SegmentMeta {
    var text := Strip(segment.text);
    SegmentMeta(segment.segmentId, segment.fileId, segment.order, segment.tags, segment.fileName,
                |text|, segment.createdAt, Preview(text))
  }

  function StrippedTexts(segments: seq<StoredSegment>): seq<String> {
    seq(|segments|, k requires 0 <= k < |segments| => Strip(segments[k].text))
  }

  /** One metadata record per segment, in order. */
  function SegmentMetadata(segments: seq<StoredSegment>): seq<SegmentMeta> {
    seq(|segments|, k requires 0 <= k < |segments| => MetaOf(segments[k]))
  }

  /** `encode_segments(segments)` */
  method EncodeSegments(segments: seq<StoredSegment>, model: seq<String> -> Option<seq<Vector>>, embeddingDim: nat)
    returns (embeddings: seq<Vector>, metadata: seq<SegmentMeta>)
    ensures metadata == SegmentMetadata(segments)
    ensures embeddings == BatchRows(StrippedTexts(segments), model, embeddingDim)
  {
    var texts: seq<String> := [];
    metadata := [];
    for i := 0 to |segments|
      invariant |texts| == i && forall k :: 0 <= k < i ==> texts[k] == Strip(segments[k].text)
      invariant |metadata| == i && forall k :: 0 <= k < i ==> metadata[k] == MetaOf(segments[k])
    {
      var text := Strip(segments[i].text);
      texts := texts + [text];
      var meta := SegmentMeta(segments[i].segmentId, segments[i].fileId, segments[i].order, segments[i].tags,
                              segments[i].fileName, |text|, segments[i].createdAt,
                              if |text| > 100 then text[..100] + "..." else text);
      assert meta == MetaOf(segments[i]);
      metadata := metadata + [meta];
    }
    assert texts == StrippedTexts(segments);
    assert metadata == SegmentMetadata(segments);
    embeddings := EncodeBatch(texts, model, embeddingDim);
  }

  /** Each record counts the characters of the stripped text, and its preview
      is that text when at most 100 characters long, else its first 100
      characters followed by `...`. */
  lemma MetaOfSpec(segment: StoredSegment)
    ensures var text := Strip(segment.text);
      var m := MetaOf(segment);
      && m.characterCount == |text|
      && m.segmentId == segment.segmentId && m.fileId == segment.fileId && m.order == segment.order
      && (|text| <= 100 ==> m.textPreview == text)
      && (|text| > 100 ==> |m.textPreview| == 103 && m.textPreview[..100] == text[..100]
                           && m.textPreview[100..] == "...")
  {
  }

  // ---------------------------------------------------------------------
  // calculate_similarity
  // ---------------------------------------------------------------------

  /** `calculate_similarity(e1, e2)`: 0 when either vector has Euclidean
      norm zero, which over the reals is exactly the zero vector, else the
      cosine of the two, given as the oracle `cosine`. */
  function CalculateSimilarity(e1: Vector, e2: Vector, cosine: (Vector, Vector) -> real): real {
    if IsZero(e1) || IsZero(e2) then 0.0 else cosine(e1, e2)
  }

  /** A zero vector is similar to nothing, and the measure is symmetric
      whenever the cosine it wraps is. */
  lemma CalculateSimilaritySpec(e1: Vector, e2: Vector, cosine: (Vector, Vector) -> real)
    ensures IsZero(e1) || IsZero(e2) ==> CalculateSimilarity(e1, e2, cosine) == 0.0
    ensures !IsZero(e1) && !IsZero(e2) ==> CalculateSimilarity(e1, e2, cosine) == cosine(e1, e2)
    ensures cosine(e1, e2) == cosine(e2, e1) ==>
      CalculateSimilarity(e1, e2, cosine) == CalculateSimilarity(e2, e1, cosine)
  {
  }
}
