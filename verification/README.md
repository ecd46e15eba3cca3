# Unstructured data pipeline — a Dafny model

This project models the processing core of the unstructured-data pipeline in
`src/`. The pipeline has two stages.

- **Content extraction** (`ContentExtractor`):
  - `parse_text` cleans whitespace, splits sentences at `.`, `!` and `?`, and finds words.
  - `capture_metadata` computes the UTF-8 byte size, the line count, whether there are special characters, and an English-language hint.
  - `detect_format` decides the format, first from the source name's extension and then from the content.
  - `extract` combines the three.
- **Deep review** (`DeepReviewer`):
  - `validate_points` performs four point checks and counts how many pass.
  - `verify_words` computes per-word statistics.
  - `generate_hash` computes the content hashes.
  - `_determine_overall_status` decides whether the review is `INVALID`, `WARNING` or `VALID`.
  - `review` combines the four.

`UnstructuredDataPipeline.process` runs both stages and adds a truncated input preview. `process_batch` applies `process` to a list of items, in order.

Modules, one per concept:

- `Optional`: the `Option` type. It stands for dictionary keys that may be missing.
- `Chars`: the character classes the regular expressions and string methods use (`\s`, `\w`, `[.!?]`, `[^a-zA-Z0-9\s]`, `isalpha`, `isdigit`), and lower-casing and UTF-8 length.
- `Text`: generic string operations.
  - `Keep` filters characters.
  - `Runs` gives the maximal runs of a class, which is what `re.findall(r'\b\w+\b')` and `str.split()` compute.
  - `Strip`, `JoinSpaced` and `Count` model `str.strip()`, `' '.join(...)` and `str.count`.
- `TextParsing`: the cleaning, sentence splitting and word finding of `parse_text`.
  - Cleaning is proved equal to joining the whitespace-free fields with single spaces.
  - Words are proved to be the maximal runs of word characters.
  - Sentence boundaries are stated by lemmas. A run of one or more terminators closes exactly one piece, and terminator-free text is a single piece.
- `ContentExtraction`, `DeepReview` and `Pipeline`: the three source files.
- `UnitExamples`: the concrete cases of the repository's unit tests. Each is derived from the general contracts.

Python's floating-point results are kept exact:

- A format confidence is counted in tenths.
- The validation score is the pair `(passed, total_checks)`.
- The average word length is the pair `(length sum, word count)`.

## Model

| member | source | states |
|---|---|---|
| TextParsing.Collapse | src/content_extraction.py:52 | `re.sub(r'\s+', ' ', s)`. The result is empty only for empty input. A non-whitespace first character survives. Every whitespace character left is a plain space. No two whitespace characters are adjacent. |
| TextParsing.Clean | src/content_extraction.py:52 | The cleaned text is the input's non-whitespace fields joined by single spaces, and it is single-spaced. |
| TextParsing.CleanIsJoinedFields | src/content_extraction.py:52 | Collapsing whitespace and then stripping gives exactly `' '.join(data.split())`, proved from the two regular-expression steps. |
| TextParsing.CleanIdempotent | src/content_extraction.py:52 | Cleaning cleaned text changes nothing. |
| TextParsing.CleanKeepsRuns | src/content_extraction.py:52-59 | For any class without whitespace (word characters, sentence characters), cleaning keeps the maximal runs and the characters of the class. So words found in the cleaned text are the words of the raw text. |
| TextParsing.SplitPieces | src/content_extraction.py:55 | `re.split(r'[.!?]+', s)` yields at least one piece, and no piece contains a terminator. |
| TextParsing.SplitAtTerminator | src/content_extraction.py:55 | A single terminator after terminator-free text closes exactly that piece, and splitting continues after it. |
| TextParsing.SplitAtTerminatorRun | src/content_extraction.py:55 | A run of one or more terminators after terminator-free text closes exactly one piece (the `+` of `[.!?]+`), and splitting resumes after the run. |
| TextParsing.SplitWhole | src/content_extraction.py:55 | Terminator-free text splits into itself alone. |
| TextParsing.StrippedNonBlank | src/content_extraction.py:56 | The comprehension keeps at most as many pieces as it is given. Every kept piece is non-empty and neither starts nor ends with whitespace. |
| TextParsing.StrippedAppend | src/content_extraction.py:56 | The strip-and-filter comprehension distributes over concatenation of its input list. |
| TextParsing.Sentences | src/content_extraction.py:55-56 | Every sentence is non-empty, stripped and terminator-free. Read in order, the sentences hold exactly the non-whitespace, non-terminator characters of the cleaned text. |
| TextParsing.SentencesAtTerminatorRun | src/content_extraction.py:55-56 | A terminator run ends the sentence before it. That sentence is the stripped text before the run, dropped if blank, followed by the sentences after the run. |
| TextParsing.SentencesWhole | src/content_extraction.py:55-56 | Terminator-free text gives at most one sentence: the stripped text, unless it is blank. |
| TextParsing.FindWords | src/content_extraction.py:59 | Every word is a non-empty run of word characters. The words, concatenated, are exactly the text's word characters in order. There are none exactly when the text has no word character. |
| TextParsing.PiecesKeepContent | src/content_extraction.py:55 | Splitting at terminator runs keeps every character that is neither whitespace nor a terminator, in order. |
| TextParsing.SentencesExist | src/content_extraction.py:52-56 | There is at least one sentence exactly when the raw text has a character that is neither whitespace nor `.`, `!` or `?`. |
| TextParsing.WordsImplySentences | src/content_extraction.py:52-59 | If the cleaned text has a word, it has a sentence. |
| Text.Keep | src/content_extraction.py:59 | Filtering keeps only characters of the class. It yields nothing exactly when the input has none of them. |
| Text.Runs | src/content_extraction.py:59 | Every word found is a non-empty run of word characters. |
| Text.RunsKeep | src/content_extraction.py:59 | The words, concatenated, are exactly the input's word characters in order. So nothing is dropped or duplicated. |
| Text.RunsEmpty | src/content_extraction.py:59 | There are no words exactly when the input has no word character. |
| Text.RunsOfJoin | src/content_extraction.py:59 | Fields of one class joined by single spaces are found again as exactly those fields. |
| Text.JoinSpacedShape | src/content_extraction.py:52 | Non-empty whitespace-free fields joined by single spaces form single-spaced text. |
| Text.Strip | src/content_extraction.py:52 | `str.strip()` leaves no leading or trailing whitespace. |
| Text.StripDecompose | src/content_extraction.py:52 | The input is its stripped text between a whitespace prefix and a whitespace suffix. |
| Text.StripEmpty | src/content_extraction.py:56 | A piece strips to nothing exactly when it is all whitespace, as the `if s.strip()` filter assumes. |
| Text.CountOccurrence | src/content_extraction.py:151-153 | An occurrence of the pattern makes `str.count` at least 1. |
| Text.CountAbsent | src/content_extraction.py:151-153 | A pattern containing a character the text lacks is counted 0 times. |
| Text.Count | src/content_extraction.py:151-153 | `str.count` finds non-overlapping occurrences, so their number times the pattern length never exceeds the text length. |
| Text.CountSingle | src/content_extraction.py:86 | Counting a one-character pattern equals that character's multiplicity. |
| ContentExtraction.ParseText | src/content_extraction.py:41-69 | The `raw`, `cleaned`, `sentences`, `words` and count fields. `cleaned` is the whitespace fields joined by single spaces. `sentences` is exactly the sentence splitting of `cleaned`, and the counts agree with the lists. `char_count` is the input length. The words are the word runs of the raw input: none exactly when the input has no word character. There is a sentence exactly when the input has a sentence character, and words imply sentences. |
| ContentExtraction.Utf8Size | src/content_extraction.py:85 | The UTF-8 size is between 1 and 4 bytes per character. It equals the character count exactly when the text is ASCII. |
| ContentExtraction.Lower | src/content_extraction.py:149 | The result has the input's length and contains no ASCII capital. Text without ASCII capitals is left unchanged. |
| ContentExtraction.LowerIdempotent | src/content_extraction.py:149 | Lower-casing twice is lower-casing once. |
| ContentExtraction.LowerAppend | src/content_extraction.py:149 | Lower-casing distributes over concatenation. |
| ContentExtraction.CaptureMetadata | src/content_extraction.py:71-89 | The source name is kept. The byte size is the UTF-8 size of the text, hence 1–4 times its length. The line count is one more than the number of newlines. `has_special_chars` holds exactly when some character is not an ASCII letter, digit or whitespace. The language hint is `_detect_language_hint` of the text. |
| ContentExtraction.SpacedCommonWordIsEnglish | src/content_extraction.py:148-160 | A common English word with a space on both sides scores at least 3 and makes the hint `likely_english`. |
| ContentExtraction.LeadingCommonWordIsEnglish | src/content_extraction.py:151-159 | Text starting with a common word and a space scores at least 2 (the `word ` count plus the `startswith` bonus). |
| ContentExtraction.DetectLanguageHint | src/content_extraction.py:137-160 | Only the two hints exist: `likely_english` exactly when the count of lines 151-156 is at least 2. Every counted pattern contains a space, so text without spaces always gets `unknown`. |
| ContentExtraction.Extension | src/content_extraction.py:106-107 | There is an extension exactly when the name has a `.`. The extension is the text after the last `.` and contains no `.`. |
| ContentExtraction.ExtensionOfSuffix | src/content_extraction.py:107 | `rsplit('.', 1)[1]` of `stem.e` is `e`, whatever dots the stem holds. |
| ContentExtraction.FormatNamed | src/content_extraction.py:109-110 | A format is recognised exactly when the extension is in the supported list, and it carries that name. |
| ContentExtraction.ContentFormat | src/content_extraction.py:113-129 | The content rules, tried in order, each stated as an exact condition: `json` when the stripped text is `{…}`; otherwise `xml` when it is `<…>`; otherwise `md` when the text starts with a heading; otherwise `csv` when it has both a comma and a newline; otherwise `txt`. Confidences are 0.7, 0.7, 0.6, 0.5 and 0.5. The result is always supported. |
| ContentExtraction.HeadingPattern | src/content_extraction.py:121 | `StartsWithHeading` matches the pattern `^#+\s+` tried at position 0 only: some non-empty prefix of `#` characters followed by whitespace. |
| ContentExtraction.DetectFormat | src/content_extraction.py:91-135 | The result is always supported. Confidence is 0.8 exactly when the lower-cased extension is supported, and the type is then that extension. Otherwise the whole result (type, confidence and `supported`) is the content rules' result. `html` only ever comes from the extension. |
| ContentExtraction.ExtensionDecidesFormat | src/content_extraction.py:105-111 | A supported extension decides the format with confidence 0.8, whatever the content. |
| ContentExtraction.Extract | src/content_extraction.py:24-39 | The three parts come from the same data. Some bytes exactly when some characters. Words imply a sentence and a non-empty input. |
| ContentExtraction.LanguageHintExample | tests/test_content_extraction.py:87-92 | "The quick brown fox jumps over the lazy dog" gets hint `likely_english`. |
| DeepReview.CountValid | src/deep_review.py:93 | The number of passed checks is at most the number of checks. It equals it exactly when all pass, and is 0 exactly when none pass. |
| DeepReview.CountValidFour | src/deep_review.py:93-94 | Four checks are counted one by one. |
| DeepReview.ValidatePoints | src/deep_review.py:47-101 | Each check reports its value, with a missing key read as 0. Validity: words ≥ 1, characters ≥ 1, sentences > 0 and bytes > 0. There are 4 checks, and `passed` counts the valid ones. The score is 1 exactly when all four pass. |
| DeepReview.CountWords | src/deep_review.py:130-131 | A word count is at most the number of words. It equals it exactly when every word qualifies, and is 0 exactly when none does. |
| DeepReview.TotalLength | src/deep_review.py:138 | The value is the length of all the words laid end to end, that is the sum of their lengths. Non-empty words give at least one per word. |
| DeepReview.WordClasses | src/deep_review.py:122-124 | An all-letter or all-digit word is alphanumeric. No word is both all letters and all digits. |
| DeepReview.Analyze | src/deep_review.py:118-125 | A word's `is_alpha` and `is_numeric` flags each imply `is_alphanumeric`, and they never hold together. |
| DeepReview.WordDetails | src/deep_review.py:116-140 | The details cover the first 100 words, in order, each with its own position, word and length. |
| DeepReview.AlphaAndDigitDisjoint | src/deep_review.py:130-137 | Alpha and numeric counts never exceed the total, so `alphanumeric_words` is never negative. It is 0 exactly when every word is all letters or all digits. |
| DeepReview.UniqueAtMostTotal | src/deep_review.py:139 | There are never more distinct words than words. There are none exactly when there are no words. |
| DeepReview.VerifyWords | src/deep_review.py:103-141 | `total_words` is the number of words. `alpha_words` and `numeric_words` are the counts of all-letter and all-digit words, and the three classes partition the words. The cases where all or none of the words are alphabetic, and all or none numeric, are characterised. The length sum is the total word length. `unique_words` is the size of the word set, at most the total. The details are the first 100 analyses. |
| DeepReview.GenerateHash | src/deep_review.py:143-169 | The `md5`, `sha1`, `sha256` and `sha512` fields are digests of the raw text under MD5, SHA-1, SHA-256 and SHA-512 respectively, with a missing key read as empty. `cleaned_sha256` is the SHA-256 digest of the cleaned text. |
| DeepReview.DetermineOverallStatus | src/deep_review.py:171-190 | Against the point checks of the same dictionaries: `INVALID` exactly when the word or character check fails; `WARNING` exactly when both pass with fewer than 5 words; `VALID` exactly when the character check passes with at least 5 words. |
| DeepReview.StatusAgreesWithValidation | src/deep_review.py:171-190 | The status is `INVALID` exactly when the word or character check fails. A status that is not `INVALID` means at least two checks passed. |
| DeepReview.Review | src/deep_review.py:26-45 | The four parts are computed from the same dictionaries. `VALID` exactly when at least 5 words and a passing character check. |
| Pipeline.Preview | src/pipeline.py:53 | The preview is at most 103 characters. Short data is unchanged. Long data becomes its first 100 characters followed by `...`. |
| Pipeline.PreviewUnchanged | src/pipeline.py:53 | The preview equals the data exactly when the data is at most 100 characters, or is 103 characters ending in `...`. |
| Pipeline.PreviewIdempotent | src/pipeline.py:53 | Previewing a preview changes nothing. |
| Pipeline.Process | src/pipeline.py:32-58 | Status `completed`. The preview and the source name are stored. The overall status is `INVALID` exactly when the input has no word character, `WARNING` exactly when it has 1 to 4 words, and `VALID` exactly when it has 5 or more. |
| Pipeline.MapInOrder | src/pipeline.py:70-81 | The loop produces one result per item, the i-th result from the i-th item. |
| Pipeline.ProcessBatch | src/pipeline.py:60-81 | One `process` result per item, in order. Bare items use the source name `unknown`. |
| Pipeline.ValidationOfExtraction | src/deep_review.py:60-97 | On a real extraction the checks are ordered: a word implies a sentence, a sentence implies a character, and a character holds exactly when a byte does. So exactly one passed check is impossible. |
| UnitExamples.WordCountExample | tests/test_content_extraction.py:31-37 | "One two three four five." has 5 words. |
| UnitExamples.CleaningExample | tests/test_content_extraction.py:46-51 | "Multiple    spaces   here" cleans to "Multiple spaces here". |
| UnitExamples.SentenceCountExample | tests/test_content_extraction.py:39-44 | "First sentence. Second sentence! Third sentence?" has 3 sentences. |
| UnitExamples.TxtFormatExample | tests/test_content_extraction.py:63-69 | `file.txt` is detected as `txt`. |
| UnitExamples.JsonFormatExample | tests/test_content_extraction.py:71-77 | `data.json` is detected as `json`. |
| UnitExamples.MdFormatExample | tests/test_content_extraction.py:79-85 | `file.md` is detected as `md`. |
| UnitExamples.PangramIsValid | tests/test_pipeline.py:82-100 | The pangram has at least five words, so its overall status is `VALID`. |
| UnitExamples.LongPreviewExample | tests/test_pipeline.py:110-117 | 200 characters preview to fewer than 110 characters ending in `...`. |
| UnitExamples.EmptyInputExample | tests/test_pipeline.py:102-108 | Empty input has no words and no sentences and is `INVALID`. |
| UnitExamples.WordsGiveFullScore | src/deep_review.py:60-99 | Any input with a word character passes all four point checks, so its score is 1.0. |
| UnitExamples.FullScoreExample | tests/test_deep_review.py:35-43 | "Valid text with enough content." scores 1.0. |
| UnitExamples.ZeroScoreExample | tests/test_deep_review.py:45-54 | Zero counts fail the word check and score 0. |
| UnitExamples.LetterWordsStatistics | src/deep_review.py:129-138 | Words made only of letters are all alphabetic and none numeric, with a total length of at least their number. |
| UnitExamples.FoxStatisticsExample | tests/test_deep_review.py:67-76 | "The quick brown fox", written as its words joined by single spaces, has 4 words, all alphabetic, none numeric and a positive average length. |
| UnitExamples.MixedStatisticsExample | tests/test_deep_review.py:56-65 | "Test word123 and 456 numbers", written as its words joined by single spaces, has 5 words, with some alphabetic, some numeric and some unique. |
| UnitExamples.WarningExample | tests/test_deep_review.py:110-116 | "Short text" is reviewed as `WARNING`. |
| UnitExamples.ValidExample | tests/test_deep_review.py:102-108 | "This is valid test data with sufficient content.", written as its words joined by single spaces and a full stop, is reviewed as `VALID`. |
| UnitExamples.ReviewInvalidExample | tests/test_deep_review.py:118-127 | A review of zero counts and empty text is `INVALID`. |

## Left out

- `extraction_timestamp`: the clock is not modelled, so `Metadata` has no timestamp.
- `mimetypes.guess_type`: its result is computed but never used by `detect_format`, so it is not modelled.
- The hash functions: `DeepReview.GenerateHash` returns symbolic `Digest(algorithm, message)` terms. MD5, SHA-1, SHA-256 and SHA-512 themselves, and the UTF-8 encoding they hash, are not modelled.
- Unicode letters and digits: `\w`, `str.isalpha`, `str.isdigit` and `str.isalnum` are modelled on ASCII only. Python also accepts non-ASCII letters and digits there, so those count as non-word characters in this model. `\s` and `str.strip` use Python's full whitespace list.
- `ContentExtraction.Lower`: lowers ASCII letters only. The comparisons it feeds (supported extensions, common English words) are all ASCII. The only non-ASCII characters that lower to ASCII letters are U+0130 and U+212A. Neither can complete one of those words, but a non-ASCII `lower()` result is not reproduced.
- `ContentExtraction.Utf8Size`: a Dafny character is a Unicode scalar value, so strings holding lone surrogates cannot be represented. The `UnicodeEncodeError` Python raises for them at src/content_extraction.py:85 is not part of this model.
- Floating-point values: confidence is counted in tenths. The validation score and average word length are kept as their numerator and denominator rather than divided.
- `DeepReview.Review`: `format_info` is read but never used by the reviewer, so it is not an input of the model.
- `max_empty_lines` is declared in the validation rules but never consulted. It appears only as the constant `MaxEmptyLines`.
- `create_pipeline` (src/pipeline.py:84-91) and the `UnstructuredDataPipeline` constructor: the pipeline holds no state, so these factories have nothing to model.
- The dictionaries produced by `extract` and consumed by `review` are records. The reviewer's `.get(key, default)` reads are modelled as `Option` fields, and a missing key takes the default.
- examples/demo.py is not part of this model.
- `Pipeline.ProcessBatch`: items are either `(data, source_name)` pairs or bare strings. A tuple of another length raises `ValueError` when unpacked (src/pipeline.py:72-73), and an item that is neither a tuple nor a string fails inside `parse_text`. Neither error path is modelled.
