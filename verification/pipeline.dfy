/**
 `UnstructuredDataPipeline` (src/pipeline.py): content extraction followed by
 the deep review, for one item or a batch.
 */
module Pipeline {
  import opened Optional
  import opened Chars
  import opened Text
  import opened ContentExtraction
  import opened DeepReview

  /** The source name `process` and `process_batch` use when none is given. */
  const DefaultSourceName: string := "unknown"

  const PreviewLength: nat := 100

  datatype InputSummary = InputSummary(sourceName: string, dataPreview: string)

  datatype PipelineResult = PipelineResult(
    input: InputSummary,
    extraction: Extraction,
    review: ReviewResult,
    pipelineStatus: string)

  /** A batch item: a `(data, source_name)` tuple, or bare data. */
  datatype BatchItem = Named(data: string, sourceName: string) | Bare(data: string) {
    function Source(): string {
      match this
      case Named(_, name) => name
      case Bare(_) => DefaultSourceName
    }
  }

  /** `data[:100] + '...' if len(data) > 100 else data`. */
  function Preview(data: string): (p: string)
    ensures |p| <= PreviewLength + 3
    ensures |data| <= PreviewLength ==> p == data
    ensures |data| > PreviewLength ==> |p| == PreviewLength + 3 && p[..PreviewLength] == data[..PreviewLength] && p[PreviewLength..] == "..."
  {
    if |data| > PreviewLength then data[..PreviewLength] + "..." else data
  }

  /**
   The preview leaves the data unchanged exactly when the data is short, or is
   103 characters long and already ends in what the truncation would append.
   */
  lemma PreviewUnchanged(data: string)
    ensures Preview(data) == data <==>
              |data| <= PreviewLength || (|data| == PreviewLength + 3 && data[PreviewLength..] == "...")
  {
    if |data| == PreviewLength + 3 && data[PreviewLength..] == "..." {
      assert data == data[..PreviewLength] + data[PreviewLength..];
    }
  }

  /** Previewing a preview changes nothing. */
  lemma PreviewIdempotent(data: string)
    ensures Preview(Preview(data)) == Preview(data)
  {
    PreviewUnchanged(Preview(data));
  }

  /** The `text` dictionary an extraction hands to the reviewer: every key present. */
  function TextFieldsOf(t: TextData): TextFields {
    TextFields(Some(t.raw), Some(t.cleaned), Some(t.words), Some(t.sentenceCount), Some(t.wordCount), Some(t.charCount))
  }

  function MetaFieldsOf(m: Metadata): MetaFields {
    MetaFields(Some(m.dataSizeBytes))
  }

  /** `review` applied to an extraction. */
  function ReviewExtraction(e: Extraction): ReviewResult {
    Review(TextFieldsOf(e.text), MetaFieldsOf(e.metadata))
  }

  /** `process`. */
  function Process(data: string, sourceName: string): (r: PipelineResult)
    ensures r.pipelineStatus == "completed"
    ensures r.input == InputSummary(sourceName, Preview(data))
    ensures r.extraction == Extract(data, sourceName)
    ensures r.review == ReviewExtraction(r.extraction)
    ensures r.review.overallStatus == Invalid <==> !Any(data, IsWordChar)
    ensures r.review.overallStatus == Warning <==> 1 <= |Runs(data, IsWordChar)| < ValidWordCount
    ensures r.review.overallStatus == Valid <==> |Runs(data, IsWordChar)| >= ValidWordCount
  {
    var extracted := Extract(data, sourceName);
    var reviewed := ReviewExtraction(extracted);
    PipelineResult(InputSummary(sourceName, Preview(data)), extracted, reviewed, "completed")
  }

  /** One batch item through `process`. */
  function ProcessItem(item: BatchItem): PipelineResult {
    Process(item.data, item.Source())
  }

  /** Applies `f` to each element in order, as the loop in `process_batch` does. */
  method MapInOrder<A, B>(f: A -> B, xs: seq<A>) returns (ys: seq<B>)
    ensures |ys| == |xs|
    ensures forall i :: 0 <= i < |xs| ==> ys[i] == f(xs[i])
  {
    ys := [];
    for k := 0 to |xs|
      invariant |ys| == k
      invariant forall i :: 0 <= i < k ==> ys[i] == f(xs[i])
    {
      ys := ys + [f(xs[k])];
    }
  }

  /** `process_batch`: one result per item, in order. */
  method ProcessBatch(items: seq<BatchItem>) returns (results: seq<PipelineResult>)
    ensures |results| == |items|
    ensures forall i :: 0 <= i < |items| ==> results[i] == Process(items[i].data, items[i].Source())
    ensures forall i :: 0 <= i < |items| && items[i].Bare? ==> results[i].input.sourceName == DefaultSourceName
  {
    results := MapInOrder(ProcessItem, items);
  }

  /**
   On an extraction of real data, the four checks come in a fixed order of
   strength: a word implies a sentence, a sentence implies a character, and
   there is a character exactly when there is a byte.  So the number of
   checks passed is never 1.
   */
  lemma ValidationOfExtraction(data: string, sourceName: string)
    ensures var v := Process(data, sourceName).review.pointByPointValidation;
      && (v.wordCount.valid ==> v.sentenceStructure.valid)
      && (v.sentenceStructure.valid ==> v.charCount.valid)
      && (v.charCount.valid <==> v.dataSize.valid)
      && v.summary.passed != 1
  {
  }
}
