/**
 `ContentExtractor` (src/content_extraction.py): text parsing, metadata capture,
 language hint and format detection for one string of unstructured data.
 */
module ContentExtraction {
  import opened Optional
  import opened Chars
  import opened Text
  import opened TextParsing

  /** The `text` part of an extraction (`parse_text`). */
  datatype TextData = TextData(
    raw: string,
    cleaned: string,
    sentences: seq<string>,
    words: seq<string>,
    sentenceCount: nat,
    wordCount: nat,
    charCount: nat)

  datatype LanguageHint = LikelyEnglish | UnknownLanguage

  /** The `metadata` part of an extraction; the extraction timestamp is not modelled. */
  datatype Metadata = Metadata(
    sourceName: string,
    dataSizeBytes: nat,
    lineCount: nat,
    hasSpecialChars: bool,
    languageHint: LanguageHint)

  datatype FileType = Txt | Json | Csv | Xml | Html | Md | UnknownType {
    function Name(): string {
      match this
      case Txt => "txt"
      case Json => "json"
      case Csv => "csv"
      case Xml => "xml"
      case Html => "html"
      case Md => "md"
      case UnknownType => "unknown"
    }
  }

  /** The `format` part of an extraction; confidence is counted in tenths (0.8 is 8). */
  datatype FormatInfo = FormatInfo(detectedType: FileType, confidenceTenths: nat, supported: bool)

  datatype Extraction = Extraction(text: TextData, metadata: Metadata, format: FormatInfo)

  /** `self.supported_formats`. */
  const SupportedFormats: seq<string> := ["txt", "json", "csv", "xml", "html", "md"]

  const CommonEnglishWords: seq<string> := ["the", "is", "at", "which", "on", "a", "an"]

  // ---------------------------------------------------------------- parse_text

  function ParseText(data: string): (t: TextData)
    ensures t.raw == data && t.charCount == |data|
    ensures t.cleaned == JoinSpaced(Runs(data, NotSpace)) && SingleSpaced(t.cleaned)
    ensures t.sentences == Sentences(t.cleaned) && t.sentenceCount == |t.sentences|
    ensures forall k :: 0 <= k < |t.sentences| ==>
              && |t.sentences[k]| > 0
              && !IsSpace(t.sentences[k][0]) && !IsSpace(t.sentences[k][|t.sentences[k]| - 1])
              && All(t.sentences[k], NotTerminator)
    ensures t.sentenceCount > 0 <==> Any(data, IsSentenceChar)
    ensures t.words == Runs(data, IsWordChar) && t.wordCount == |t.words|
    ensures Concat(t.words) == Keep(data, IsWordChar)
    ensures t.wordCount == 0 <==> !Any(data, IsWordChar)
    ensures t.wordCount > 0 ==> t.sentenceCount > 0
  {
    var cleaned := Clean(data);
    var sentences := Sentences(cleaned);
    var words := FindWords(cleaned);
    ClassesAreSpaceFree();
    CleanKeepsRuns(data, IsWordChar);
    RunsKeep(data, IsWordChar);
    RunsEmpty(data, IsWordChar);
    SentencesExist(data);
    WordsImplySentences(data);
    TextData(data, cleaned, sentences, words, |sentences|, |words|, |data|)
  }

  // ---------------------------------------------------------- capture_metadata

  /** `len(data.encode('utf-8'))`. */
  function Utf8Size(s: string): (n: nat)
    ensures |s| <= n <= 4 * |s|
    ensures n == |s| <==> All(s, IsAscii)
  {
    if s == [] then 0 else Utf8Length(s[0]) + Utf8Size(s[1..])
  }

  /** `str.lower()`, character by character. */
  function Lower(s: string): (r: string)
    ensures |r| == |s|
    ensures forall i :: 0 <= i < |s| ==> r[i] == ToLower(s[i])
    ensures forall i :: 0 <= i < |r| ==> !('A' <= r[i] <= 'Z')
    ensures (forall i :: 0 <= i < |s| ==> !('A' <= s[i] <= 'Z')) ==> r == s
  {
    seq(|s|, i requires 0 <= i < |s| => ToLower(s[i]))
  }

  /** Lower-casing twice is lower-casing once. */
  lemma LowerIdempotent(s: string)
    ensures Lower(Lower(s)) == Lower(s)
  {
  }

  /** Lower-casing works piece by piece. */
  lemma LowerAppend(a: string, b: string)
    ensures Lower(a + b) == Lower(a) + Lower(b)
  {
  }

  /** Occurrences of ` w `, ` w` and `w ` of one common word. */
  function WordScore(s: string, w: string): nat {
    Count(s, " " + w + " ") + Count(s, " " + w) + Count(s, w + " ")
  }

  function ScoreSum(s: string, ws: seq<string>): nat {
    if ws == [] then 0 else WordScore(s, ws[0]) + ScoreSum(s, ws[1..])
  }

  /** How many of `ws` the text starts with, each followed by a space. */
  function LeadScore(s: string, ws: seq<string>): nat {
    if ws == [] then 0
    else (if |ws[0]| + 1 <= |s| && s[..|ws[0]| + 1] == ws[0] + " " then 1 else 0) + LeadScore(s, ws[1..])
  }

  /** `english_count` of `_detect_language_hint`, computed on the lower-cased text. */
  function EnglishCount(lowered: string): nat {
    ScoreSum(lowered, CommonEnglishWords) + LeadScore(lowered, CommonEnglishWords)
  }

  /**
   `_detect_language_hint`.  Every pattern it counts contains a space, so text
   without spaces never gets a hint.
   */
  function DetectLanguageHint(data: string): (h: LanguageHint)
    ensures h == LikelyEnglish <==> EnglishCount(Lower(data)) >= 2
    ensures ' ' !in data ==> h == UnknownLanguage
  {
    if ' ' !in data then
      var l := Lower(data);
      assert ' ' !in l;
      NoSpaceScores(l, CommonEnglishWords);
      UnknownLanguage
    else if EnglishCount(Lower(data)) >= 2 then LikelyEnglish
    else UnknownLanguage
  }

  function CaptureMetadata(data: string, sourceName: string): (m: Metadata)
    ensures m.sourceName == sourceName
    ensures m.lineCount == multiset(data)['\n'] + 1
    ensures m.dataSizeBytes == Utf8Size(data)
    ensures m.hasSpecialChars <==> Any(data, IsSpecial)
    ensures m.languageHint == DetectLanguageHint(data)
  {
    CountSingle(data, '\n');
    Metadata(
      sourceName,
      Utf8Size(data),
      Count(data, "\n") + 1,
      exists i :: 0 <= i < |data| && IsSpecial(data[i]),
      DetectLanguageHint(data))
  }

  // ------------------------------------------------------------- detect_format

  /** The text after the last `.` of a name (`name.rsplit('.', 1)[1]`), if it has a `.`. */
  function Extension(name: string): (r: Option<string>)
    ensures r.Some? <==> '.' in name
    ensures r.Some? ==> |r.value| < |name| && '.' !in r.value
    ensures r.Some? ==> name[|name| - |r.value| - 1] == '.' && name[|name| - |r.value|..] == r.value
  {
    if name == [] then None
    else
      var init, last := name[..|name| - 1], name[|name| - 1];
      assert name == init + [last];
      if last == '.' then Some([])
      else
        match Extension(init)
        case Some(e) => Some(e + [last])
        case None => None
  }

  /** The supported format with this name, if any. */
  function FormatNamed(ext: string): (t: FileType)
    ensures t != UnknownType <==> ext in SupportedFormats
    ensures t != UnknownType ==> t.Name() == ext
  {
    if ext == "txt" then Txt
    else if ext == "json" then Json
    else if ext == "csv" then Csv
    else if ext == "xml" then Xml
    else if ext == "html" then Html
    else if ext == "md" then Md
    else UnknownType
  }

  predicate IsHash(c: char) {
    c == '#'
  }

  /** `re.match(r'^#+\s+', data, re.MULTILINE)`: a match is only attempted at position 0. */
  predicate StartsWithHeading(data: string) {
    var n := SpanLen(data, IsHash);
    1 <= n < |data| && IsSpace(data[n])
  }

  /**
   The heading rule read directly off the pattern `^#+\s+`: some non-empty
   prefix of `#` characters is followed by whitespace.
   */
  lemma {:induction false} HeadingPattern(data: string)
    ensures StartsWithHeading(data) <==>
              exists n :: 1 <= n < |data| && All(data[..n], IsHash) && IsSpace(data[n])
  {
    var k := SpanLen(data, IsHash);
    if !StartsWithHeading(data) {
      forall n | 1 <= n < |data| && All(data[..n], IsHash)
        ensures !IsSpace(data[n])
      {
        if n < k {
          assert data[n] == data[..k][n];
        }
      }
    }
  }

  /** `s` is non-empty, starts with `open` and ends with `close`. */
  predicate Enclosed(s: string, open: char, close: char) {
    |s| > 0 && s[0] == open && s[|s| - 1] == close
  }

  /** The content-based rules of `detect_format`, tried in order. */
  function ContentFormat(data: string): (f: FormatInfo)
    ensures f.supported
    ensures var st := Strip(data);
      && (f.detectedType == Json <==> Enclosed(st, '{', '}'))
      && (f.detectedType == Xml <==> !Enclosed(st, '{', '}') && Enclosed(st, '<', '>'))
      && (f.detectedType == Md <==>
            !Enclosed(st, '{', '}') && !Enclosed(st, '<', '>') && StartsWithHeading(data))
      && (f.detectedType == Csv <==>
            !Enclosed(st, '{', '}') && !Enclosed(st, '<', '>') && !StartsWithHeading(data)
            && ',' in data && '\n' in data)
      && (f.detectedType == Txt <==>
            !Enclosed(st, '{', '}') && !Enclosed(st, '<', '>') && !StartsWithHeading(data)
            && !(',' in data && '\n' in data))
    ensures f.detectedType == Md ==> |data| > 1 && data[0] == '#'
    ensures f.confidenceTenths == (match f.detectedType
                                   case Json => 7 case Xml => 7 case Md => 6 case _ => 5)
  {
    var stripped := Strip(data);
    if Enclosed(stripped, '{', '}') then FormatInfo(Json, 7, true)
    else if Enclosed(stripped, '<', '>') then FormatInfo(Xml, 7, true)
    else if StartsWithHeading(data) then FormatInfo(Md, 6, true)
    else if ',' in data && '\n' in data then FormatInfo(Csv, 5, true)
    else FormatInfo(Txt, 5, true)
  }

  /** The format named by the lower-cased extension of `sourceName`, if it names a supported one. */
  function ExtensionFormat(sourceName: string): FileType {
    match Extension(sourceName)
    case Some(e) => FormatNamed(Lower(e))
    case None => UnknownType
  }

  function DetectFormat(data: string, sourceName: string): (f: FormatInfo)
    ensures f.supported && f.detectedType != UnknownType
    ensures f.detectedType.Name() in SupportedFormats
    ensures f.confidenceTenths == 8 <==>
              Extension(sourceName).Some? && Lower(Extension(sourceName).value) in SupportedFormats
    ensures f.confidenceTenths == 8 ==> f.detectedType.Name() == Lower(Extension(sourceName).value)
    ensures f.confidenceTenths != 8 ==> f == ContentFormat(data)
    ensures f.detectedType == Html ==> f.confidenceTenths == 8
    ensures 5 <= f.confidenceTenths <= 8
  {
    var byExtension := ExtensionFormat(sourceName);
    var content := ContentFormat(data);
    var t := if byExtension != UnknownType then byExtension else content.detectedType;
    var c := if byExtension != UnknownType then 8 else content.confidenceTenths;
    FormatInfo(t, c, t.Name() in SupportedFormats)
  }

  /** The text after the last dot of `stem.e` is `e`, whatever the stem holds. */
  lemma {:induction false} ExtensionOfSuffix(stem: string, e: string)
    requires '.' !in e
    ensures Extension(stem + "." + e) == Some(e)
    decreases |e|
  {
    var name := stem + "." + e;
    if e == [] {
      assert name[|name| - 1] == '.';
    } else {
      var init := e[..|e| - 1];
      assert name[..|name| - 1] == stem + "." + init;
      ExtensionOfSuffix(stem, init);
      assert init + [e[|e| - 1]] == e;
    }
  }

  /**
   A supported extension decides the format with confidence 0.8, whatever the
   content looks like.
   */
  lemma ExtensionDecidesFormat(data: string, stem: string, e: string)
    requires '.' !in e && Lower(e) in SupportedFormats
    ensures DetectFormat(data, stem + "." + e).detectedType.Name() == Lower(e)
    ensures DetectFormat(data, stem + "." + e).confidenceTenths == 8
  {
    ExtensionOfSuffix(stem, e);
  }

  // ------------------------------------------------------------------- extract

  function Extract(data: string, sourceName: string): (e: Extraction)
    ensures e.text == ParseText(data)
    ensures e.metadata == CaptureMetadata(data, sourceName)
    ensures e.format == DetectFormat(data, sourceName)
    ensures e.metadata.dataSizeBytes > 0 <==> e.text.charCount > 0
    ensures e.text.wordCount > 0 ==> e.text.sentenceCount > 0 && e.text.charCount > 0
    ensures e.format.supported
  {
    Extraction(ParseText(data), CaptureMetadata(data, sourceName), DetectFormat(data, sourceName))
  }

  // ------------------------------------------------------ language hint lemmas

  lemma {:induction false} ScoreSumAtLeast(s: string, ws: seq<string>, w: string)
    requires w in ws
    ensures ScoreSum(s, ws) >= WordScore(s, w)
  {
    if ws[0] != w {
      ScoreSumAtLeast(s, ws[1..], w);
    }
  }

  lemma {:induction false} LeadScoreAtLeast(s: string, ws: seq<string>, w: string)
    requires w in ws && |w| + 1 <= |s| && s[..|w| + 1] == w + " "
    ensures LeadScore(s, ws) >= 1
  {
    if ws[0] != w {
      LeadScoreAtLeast(s, ws[1..], w);
    }
  }

  /** A common word with a space on each side makes the text likely English. */
  lemma SpacedCommonWordIsEnglish(data: string, w: string, k: int)
    requires w in CommonEnglishWords
    requires OccursAt(Lower(data), " " + w + " ", k)
    ensures DetectLanguageHint(data) == LikelyEnglish
  {
    var l := Lower(data);
    var m := |w|;
    assert l[k..k + m + 2] == " " + w + " ";
    assert l[k..k + m + 1] == " " + w by {
      assert l[k..k + m + 1] == l[k..k + m + 2][..m + 1];
    }
    assert l[k + 1..k + 1 + m + 1] == w + " " by {
      assert l[k + 1..k + m + 2] == l[k..k + m + 2][1..];
    }
    CountOccurrence(l, " " + w + " ", k);
    CountOccurrence(l, " " + w, k);
    CountOccurrence(l, w + " ", k + 1);
    ScoreSumAtLeast(l, CommonEnglishWords, w);
  }

  /** Text starting with a common word and a space is likely English. */
  lemma LeadingCommonWordIsEnglish(data: string, w: string)
    requires w in CommonEnglishWords
    requires |w| + 1 <= |data| && Lower(data)[..|w| + 1] == w + " "
    ensures DetectLanguageHint(data) == LikelyEnglish
  {
    var l := Lower(data);
    assert OccursAt(l, w + " ", 0);
    CountOccurrence(l, w + " ", 0);
    ScoreSumAtLeast(l, CommonEnglishWords, w);
    LeadScoreAtLeast(l, CommonEnglishWords, w);
  }

  lemma {:induction false} NoSpaceScores(s: string, ws: seq<string>)
    requires ' ' !in s
    ensures ScoreSum(s, ws) == 0 && LeadScore(s, ws) == 0
  {
    if ws != [] {
      var w := ws[0];
      CountAbsent(s, " " + w + " ", ' ');
      CountAbsent(s, " " + w, ' ');
      assert (w + " ")[|w|] == ' ';
      CountAbsent(s, w + " ", ' ');
      NoSpaceScores(s, ws[1..]);
    }
  }

  /** "The quick brown fox jumps over the lazy dog", the unit test's text for the hint. */
  const HintText := "The " + "quick brown fox jumps over the lazy dog"

  /** The value the unit test for the language hint expects. */
  lemma LanguageHintExample()
    ensures DetectLanguageHint(HintText) == LikelyEnglish
  {
    var head, rest := "The ", "quick brown fox jumps over the lazy dog";
    LowerAppend(head, rest);
    assert Lower(head) == "the " by {
      assert ToLower('T') == 't';
    }
    assert Lower(HintText)[..4] == "the ";
    LeadingCommonWordIsEnglish(HintText, "the");
  }
}
