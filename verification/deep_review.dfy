/**
 `DeepReviewer` (src/deep_review.py): point-by-point validation, word-by-word
 verification, hashing and the overall status of an extraction.

 The reviewer reads plain dictionaries and treats a missing key as 0 (or as an
 empty list / empty string); `TextFields` and `MetaFields` carry each key it
 reads as an `Option`.
 */
module DeepReview {
  import opened Optional
  import opened Chars
  import opened Text

  /** The keys of the `text` dictionary that the reviewer reads. */
  datatype TextFields = TextFields(
    raw: Option<string>,
    cleaned: Option<string>,
    words: Option<seq<string>>,
    sentenceCount: Option<nat>,
    wordCount: Option<nat>,
    charCount: Option<nat>)

  /** The key of the `metadata` dictionary that the reviewer reads. */
  datatype MetaFields = MetaFields(dataSizeBytes: Option<nat>)

  /** `self.validation_rules`; `max_empty_lines` is declared but never consulted. */
  const MinWords: nat := 1
  const MinChars: nat := 1
  const MaxEmptyLines: nat := 10

  /** The number of words from which the overall status is `VALID` rather than `WARNING`. */
  const ValidWordCount: nat := 5

  /** One entry of `point_by_point_validation`. */
  datatype PointCheck = PointCheck(value: nat, valid: bool, rule: string)

  /** The `summary` entry; the score `passed / totalChecks` is kept as the pair. */
  datatype Summary = Summary(totalChecks: nat, passed: nat) {
    /** The score is 1.0 exactly when every check passed. */
    predicate ScoreIsOne() {
      totalChecks > 0 && passed == totalChecks
    }
  }

  datatype PointValidation = PointValidation(
    wordCount: PointCheck,
    charCount: PointCheck,
    sentenceStructure: PointCheck,
    dataSize: PointCheck,
    summary: Summary)
  {
    function Checks(): seq<PointCheck> {
      [wordCount, charCount, sentenceStructure, dataSize]
    }
  }

  /** The number of valid checks. */
  function CountValid(cs: seq<PointCheck>): (n: nat)
    ensures n <= |cs|
    ensures n == |cs| <==> forall i :: 0 <= i < |cs| ==> cs[i].valid
    ensures n == 0 <==> forall i :: 0 <= i < |cs| ==> !cs[i].valid
  {
    if cs == [] then 0
    else
      assert forall i :: 1 <= i < |cs| ==> cs[i] == cs[1..][i - 1];
      (if cs[0].valid then 1 else 0) + CountValid(cs[1..])
  }

  /** 1 for a passed check, 0 otherwise. */
  function Indicator(b: bool): nat {
    if b then 1 else 0
  }

  /** Four checks, counted one by one. */
  lemma CountValidFour(c0: PointCheck, c1: PointCheck, c2: PointCheck, c3: PointCheck)
    ensures CountValid([c0, c1, c2, c3]) == Indicator(c0.valid) + Indicator(c1.valid) + Indicator(c2.valid) + Indicator(c3.valid)
  {
    assert [c3][1..] == [];
    assert CountValid([c3]) == Indicator(c3.valid);
    assert [c2, c3][1..] == [c3];
    assert CountValid([c2, c3]) == Indicator(c2.valid) + CountValid([c3]);
    assert [c1, c2, c3][1..] == [c2, c3];
    assert CountValid([c1, c2, c3]) == Indicator(c1.valid) + CountValid([c2, c3]);
    assert [c0, c1, c2, c3][1..] == [c1, c2, c3];
    assert CountValid([c0, c1, c2, c3]) == Indicator(c0.valid) + CountValid([c1, c2, c3]);
  }

  /** `validate_points`. */
  function ValidatePoints(text: TextFields, meta: MetaFields): (v: PointValidation)
    ensures v.wordCount.value == text.wordCount.ValueOr(0)
    ensures v.charCount.value == text.charCount.ValueOr(0)
    ensures v.sentenceStructure.value == text.sentenceCount.ValueOr(0)
    ensures v.dataSize.value == meta.dataSizeBytes.ValueOr(0)
    ensures v.wordCount.valid <==> text.wordCount.Some? && text.wordCount.value >= 1
    ensures v.charCount.valid <==> text.charCount.Some? && text.charCount.value >= 1
    ensures v.sentenceStructure.valid <==> text.sentenceCount.Some? && text.sentenceCount.value > 0
    ensures v.dataSize.valid <==> meta.dataSizeBytes.Some? && meta.dataSizeBytes.value > 0
    ensures v.summary.totalChecks == 4
    ensures v.summary.passed == Indicator(v.wordCount.valid) + Indicator(v.charCount.valid)
                              + Indicator(v.sentenceStructure.valid) + Indicator(v.dataSize.valid)
    ensures v.summary.ScoreIsOne() <==>
              v.wordCount.valid && v.charCount.valid && v.sentenceStructure.valid && v.dataSize.valid
    ensures v.summary.passed == 0 <==>
              !v.wordCount.valid && !v.charCount.valid && !v.sentenceStructure.valid && !v.dataSize.valid
  {
    var wordCount := text.wordCount.ValueOr(0);
    var charCount := text.charCount.ValueOr(0);
    var sentenceCount := text.sentenceCount.ValueOr(0);
    var dataSize := meta.dataSizeBytes.ValueOr(0);
    var checks := [
      PointCheck(wordCount, wordCount >= MinWords, "minimum 1 words"),
      PointCheck(charCount, charCount >= MinChars, "minimum 1 characters"),
      PointCheck(sentenceCount, sentenceCount > 0, "at least one sentence"),
      PointCheck(dataSize, dataSize > 0, "non-empty data")
    ];
    CountValidFour(checks[0], checks[1], checks[2], checks[3]);
    PointValidation(checks[0], checks[1], checks[2], checks[3], Summary(|checks|, CountValid(checks)))
  }

  // ------------------------------------------------------------ verify_words

  /** `str.isalpha()`. */
  predicate IsAlphaWord(w: string) {
    |w| > 0 && All(w, IsAsciiLetter)
  }

  /** `str.isdigit()`. */
  predicate IsDigitWord(w: string) {
    |w| > 0 && All(w, IsAsciiDigit)
  }

  /** `str.isalnum()`. */
  predicate IsAlnumWord(w: string) {
    |w| > 0 && All(w, IsAsciiAlnum)
  }

  /** One entry of `word_details`. */
  datatype WordDetail = WordDetail(
    position: nat,
    word: string,
    length: nat,
    isAlphanumeric: bool,
    isNumeric: bool,
    isAlpha: bool)

  /**
   The result of `verify_words`.  `alphanumericWords` is the source's name for
   the words that are neither all letters nor all digits.  The average word
   length is `lengthSum / totalWords` (0 when there are no words).
   */
  datatype WordVerification = WordVerification(
    totalWords: nat,
    alphaWords: nat,
    numericWords: nat,
    alphanumericWords: nat,
    lengthSum: nat,
    uniqueWords: nat,
    wordDetails: seq<WordDetail>)

  /** The number of words satisfying `f`. */
  function CountWords(ws: seq<string>, f: string -> bool): (n: nat)
    ensures n <= |ws|
    ensures n == |ws| <==> forall i :: 0 <= i < |ws| ==> f(ws[i])
    ensures n == 0 <==> forall i :: 0 <= i < |ws| ==> !f(ws[i])
  {
    if ws == [] then 0
    else
      assert forall i :: 1 <= i < |ws| ==> ws[i] == ws[1..][i - 1];
      (if f(ws[0]) then 1 else 0) + CountWords(ws[1..], f)
  }

  /** `sum(len(w) for w in words)`. */
  function TotalLength(ws: seq<string>): (n: nat)
    ensures n == |Concat(ws)|
    ensures (forall i :: 0 <= i < |ws| ==> |ws[i]| > 0) ==> n >= |ws|
  {
    if ws == [] then 0
    else
      assert forall i :: 1 <= i < |ws| ==> ws[i] == ws[1..][i - 1];
      |ws[0]| + TotalLength(ws[1..])
  }

  /** All letters or all digits is alphanumeric; no word is both. */
  lemma WordClasses(w: string)
    ensures IsAlphaWord(w) || IsDigitWord(w) ==> IsAlnumWord(w)
    ensures !(IsAlphaWord(w) && IsDigitWord(w))
  {
    if |w| > 0 {
      assert IsAsciiLetter(w[0]) ==> !IsAsciiDigit(w[0]);
    }
  }

  /** One entry of `word_analysis`. */
  function Analyze(position: nat, w: string): (d: WordDetail)
    ensures d.isAlpha || d.isNumeric ==> d.isAlphanumeric
    ensures !(d.isAlpha && d.isNumeric)
  {
    WordClasses(w);
    WordDetail(position, w, |w|, IsAlnumWord(w), IsDigitWord(w), IsAlphaWord(w))
  }

  function Min(a: nat, b: nat): nat {
    if a <= b then a else b
  }

  /** `word_analysis[:100]`: the analysis of the first 100 words, in order. */
  function WordDetails(ws: seq<string>): (ds: seq<WordDetail>)
    ensures |ds| == Min(|ws|, 100)
    ensures forall i :: 0 <= i < |ds| ==>
              && ds[i].position == i && ds[i].word == ws[i] && ds[i].length == |ws[i]|
              && (ds[i].isAlpha || ds[i].isNumeric ==> ds[i].isAlphanumeric)
              && !(ds[i].isAlpha && ds[i].isNumeric)
  {
    seq(Min(|ws|, 100), i requires 0 <= i < Min(|ws|, 100) => Analyze(i, ws[i]))
  }

  /** `verify_words`. */
  function VerifyWords(text: TextFields): (r: WordVerification)
    ensures r.totalWords == |text.words.ValueOr([])|
    ensures r.alphaWords == CountWords(text.words.ValueOr([]), IsAlphaWord)
    ensures r.numericWords == CountWords(text.words.ValueOr([]), IsDigitWord)
    ensures r.lengthSum == TotalLength(text.words.ValueOr([]))
    ensures r.uniqueWords == |set w | w in text.words.ValueOr([])|
    ensures r.alphaWords + r.numericWords + r.alphanumericWords == r.totalWords
    ensures r.alphaWords == r.totalWords <==>
              forall i :: 0 <= i < r.totalWords ==> IsAlphaWord(text.words.value[i])
    ensures r.alphaWords == 0 <==>
              forall i :: 0 <= i < r.totalWords ==> !IsAlphaWord(text.words.value[i])
    ensures r.numericWords == r.totalWords <==>
              forall i :: 0 <= i < r.totalWords ==> IsDigitWord(text.words.value[i])
    ensures r.numericWords == 0 <==>
              forall i :: 0 <= i < r.totalWords ==> !IsDigitWord(text.words.value[i])
    ensures r.alphanumericWords == 0 <==>
              forall i :: 0 <= i < r.totalWords ==> IsAlphaWord(text.words.value[i]) || IsDigitWord(text.words.value[i])
    ensures (forall i :: 0 <= i < r.totalWords ==> |text.words.value[i]| > 0) ==> r.lengthSum >= r.totalWords
    ensures r.uniqueWords <= r.totalWords
    ensures r.uniqueWords == 0 <==> r.totalWords == 0
    ensures r.wordDetails == WordDetails(text.words.ValueOr([]))
  {
    var ws := text.words.ValueOr([]);
    var alpha := CountWords(ws, IsAlphaWord);
    var numeric := CountWords(ws, IsDigitWord);
    AlphaAndDigitDisjoint(ws);
    UniqueAtMostTotal(ws);
    WordVerification(|ws|, alpha, numeric, |ws| - alpha - numeric, TotalLength(ws), |set w | w in ws|, WordDetails(ws))
  }

  /** No word is both all letters and all digits, so the remainder is never negative. */
  lemma {:induction false} AlphaAndDigitDisjoint(ws: seq<string>)
    ensures CountWords(ws, IsAlphaWord) + CountWords(ws, IsDigitWord) <= |ws|
    ensures CountWords(ws, IsAlphaWord) + CountWords(ws, IsDigitWord) == |ws| <==>
              forall i :: 0 <= i < |ws| ==> IsAlphaWord(ws[i]) || IsDigitWord(ws[i])
  {
    if ws != [] {
      var w := ws[0];
      WordClasses(w);
      AlphaAndDigitDisjoint(ws[1..]);
      assert forall i :: 1 <= i < |ws| ==> ws[i] == ws[1..][i - 1];
    }
  }

  /** `len(set(words)) <= len(words)`, with equality to 0 only for no words. */
  lemma {:induction false} UniqueAtMostTotal(ws: seq<string>)
    ensures |set w | w in ws| <= |ws|
    ensures |set w | w in ws| == 0 <==> ws == []
  {
    if ws != [] {
      UniqueAtMostTotal(ws[1..]);
      assert (set w | w in ws) == {ws[0]} + (set w | w in ws[1..]);
      assert ws[0] in (set w | w in ws);
    }
  }

  // ------------------------------------------------------------ generate_hash

  datatype HashAlgorithm = Md5 | Sha1 | Sha256 | Sha512

  /**
   The hexadecimal digest of the UTF-8 bytes of `message` under `algorithm`,
   kept as a symbolic term: the hash functions themselves are not modelled.
   */
  datatype Digest = Digest(algorithm: HashAlgorithm, message: string)

  datatype Hashes = Hashes(md5: Digest, sha1: Digest, sha256: Digest, sha512: Digest, cleanedSha256: Digest)

  /** `generate_hash`: four digests of the raw text and a SHA-256 digest of the cleaned text. */
  function GenerateHash(text: TextFields): (h: Hashes)
    ensures h.md5.algorithm == Md5 && h.sha1.algorithm == Sha1
    ensures h.sha256.algorithm == Sha256 && h.sha512.algorithm == Sha512
    ensures h.md5.message == h.sha1.message == h.sha256.message == h.sha512.message == text.raw.ValueOr("")
    ensures h.cleanedSha256 == Digest(Sha256, text.cleaned.ValueOr(""))
  {
    var raw := text.raw.ValueOr("");
    Hashes(Digest(Md5, raw), Digest(Sha1, raw), Digest(Sha256, raw), Digest(Sha512, raw),
           Digest(Sha256, text.cleaned.ValueOr("")))
  }

  // ------------------------------------------------------------ overall status

  datatype Status = Invalid | Warning | Valid

  /** `_determine_overall_status`. */
  function DetermineOverallStatus(text: TextFields, meta: MetaFields): (s: Status)
    ensures var v := ValidatePoints(text, meta);
      && (s == Invalid <==> !v.wordCount.valid || !v.charCount.valid)
      && (s == Warning <==> v.wordCount.valid && v.charCount.valid && v.wordCount.value < ValidWordCount)
      && (s == Valid <==> v.charCount.valid && v.wordCount.value >= ValidWordCount)
  {
    var wordCount := text.wordCount.ValueOr(0);
    var charCount := text.charCount.ValueOr(0);
    if wordCount == 0 || charCount == 0 then Invalid
    else if wordCount < ValidWordCount then Warning
    else Valid
  }

  /** The status is `INVALID` exactly when the word-count or the character-count check fails. */
  lemma StatusAgreesWithValidation(text: TextFields, meta: MetaFields)
    ensures var v := ValidatePoints(text, meta);
      DetermineOverallStatus(text, meta) == Invalid <==> !(v.wordCount.valid && v.charCount.valid)
    ensures DetermineOverallStatus(text, meta) != Invalid ==> ValidatePoints(text, meta).summary.passed >= 2
  {
  }

  // -------------------------------------------------------------------- review

  datatype ReviewResult = ReviewResult(
    pointByPointValidation: PointValidation,
    wordByWordVerification: WordVerification,
    hash: Hashes,
    overallStatus: Status)

  /** `review`: all four parts are computed from the same text and metadata. */
  function Review(text: TextFields, meta: MetaFields): (r: ReviewResult)
    ensures r.pointByPointValidation == ValidatePoints(text, meta)
    ensures r.wordByWordVerification == VerifyWords(text)
    ensures r.hash == GenerateHash(text)
    ensures r.overallStatus == Invalid <==>
              !(r.pointByPointValidation.wordCount.valid && r.pointByPointValidation.charCount.valid)
    ensures r.overallStatus == Valid <==>
              r.pointByPointValidation.wordCount.value >= ValidWordCount && r.pointByPointValidation.charCount.valid
  {
    StatusAgreesWithValidation(text, meta);
    ReviewResult(ValidatePoints(text, meta), VerifyWords(text), GenerateHash(text),
                 DetermineOverallStatus(text, meta))
  }
}
