/**
 The concrete cases of the repository's unit tests, derived from the general
 contracts of the model.
 */
module UnitExamples {
  import opened Optional
  import opened Chars
  import opened Text
  import opened TextParsing
  import opened ContentExtraction
  import opened DeepReview
  import opened Pipeline

  // ------------------------------------------------------------- word counts

  lemma JoinFront(w: string, ws: seq<string>)
    requires |ws| >= 1
    ensures JoinSpaced([w] + ws) == w + " " + JoinSpaced(ws)
  {
    assert ([w] + ws)[1..] == ws;
  }

  lemma Join45()
    ensures JoinSpaced(["four", "five"]) == "four five"
  {
    JoinFront("four", ["five"]);
  }

  lemma Join345()
    ensures JoinSpaced(["three", "four", "five"]) == "three four five"
  {
    Join45();
    JoinFront("three", ["four", "five"]);
  }

  lemma Join2345()
    ensures JoinSpaced(["two", "three", "four", "five"]) == "two three four five"
  {
    Join345();
    JoinFront("two", ["three", "four", "five"]);
  }

  lemma FiveWordsJoin()
    ensures JoinSpaced(["One", "two", "three", "four", "five"]) == "One two three four five"
  {
    Join2345();
    JoinFront("One", ["two", "three", "four", "five"]);
  }

  lemma FiveWordsAreWords()
    ensures forall k :: 0 <= k < 5 ==>
      |["One", "two", "three", "four", "five"][k]| > 0 && All(["One", "two", "three", "four", "five"][k], IsWordChar)
  {
  }

  /** "One two three four five." has five words. */
  lemma WordCountExample()
    ensures ParseText("One two three four five.").wordCount == 5
  {
    var ws := ["One", "two", "three", "four", "five"];
    FiveWordsJoin();
    FiveWordsAreWords();
    RunsOfJoin(ws, IsWordChar);
    assert "One two three four five." == JoinSpaced(ws) + ".";
    RunsDropSuffix(JoinSpaced(ws), ".", IsWordChar);
  }

  // ---------------------------------------------------------------- cleaning

  /** A run, then a gap without `p`, then the rest. */
  lemma {:induction false} RunThenGap(w: string, gap: string, rest: string, p: char -> bool)
    requires |w| > 0 && All(w, p) && |gap| > 0 && !Any(gap, p)
    ensures Runs(w + gap + rest, p) == [w] + Runs(rest, p)
  {
    var g := gap[..|gap| - 1];
    assert gap == g + [gap[|gap| - 1]];
    assert w + gap + rest == (w + g) + [gap[|gap| - 1]] + rest;
    RunsSplit(w + g, gap[|gap| - 1], rest, p);
    RunsDropSuffix(w, g, p);
    RunsOfRun(w, p);
  }

  lemma {:induction false} ThreeFields(w1: string, g1: string, w2: string, g2: string, w3: string, p: char -> bool)
    requires |w1| > 0 && All(w1, p) && |g1| > 0 && !Any(g1, p)
    requires |w2| > 0 && All(w2, p) && |g2| > 0 && !Any(g2, p)
    requires |w3| > 0 && All(w3, p)
    ensures Runs(w1 + g1 + w2 + g2 + w3, p) == [w1, w2, w3]
  {
    var tail := w2 + g2 + w3;
    assert w1 + g1 + w2 + g2 + w3 == w1 + g1 + tail;
    RunThenGap(w2, g2, w3, p);
    RunsOfRun(w3, p);
    assert Runs(tail, p) == [w2, w3];
    RunThenGap(w1, g1, tail, p);
    assert [w1] + [w2, w3] == [w1, w2, w3];
  }

  lemma MultipleSpacesHereFields()
    ensures Runs("Multiple    spaces   here", NotSpace) == ["Multiple", "spaces", "here"]
  {
    assert "Multiple    spaces   here" == "Multiple" + "    " + "spaces" + "   " + "here";
    ThreeFields("Multiple", "    ", "spaces", "   ", "here", NotSpace);
  }

  lemma JoinMultipleSpacesHere()
    ensures JoinSpaced(["Multiple", "spaces", "here"]) == "Multiple spaces here"
  {
    JoinFront("spaces", ["here"]);
    JoinFront("Multiple", ["spaces", "here"]);
  }

  /** Runs of blanks inside the text collapse to one space. */
  lemma CleaningExample()
    ensures ParseText("Multiple    spaces   here").cleaned == "Multiple spaces here"
  {
    MultipleSpacesHereFields();
    JoinMultipleSpacesHere();
  }

  // --------------------------------------------------------------- sentences

  lemma NonBlankPiece(p: string, ps: seq<string>)
    requires Any(p, NotSpace)
    ensures |StrippedNonBlank([p] + ps)| == 1 + |StrippedNonBlank(ps)|
  {
    StripEmpty(p);
    assert ([p] + ps)[1..] == ps;
  }

  lemma PiecesOfThree(a: string, t1: char, b: string, t2: char, c: string, t3: char)
    requires All(a, NotTerminator) && All(b, NotTerminator) && All(c, NotTerminator)
    requires |b| > 0 && |c| > 0
    requires IsTerminator(t1) && IsTerminator(t2) && IsTerminator(t3)
    ensures SplitPieces(a + [t1] + (b + [t2] + (c + [t3] + []))) == [a] + ([b] + ([c] + [[]]))
  {
    var none: string := [];
    var r3 := c + [t3] + none;
    var r2 := b + [t2] + r3;
    SplitAtTerminator(c, t3, none);
    assert SplitPieces(none) == [none];
    assert r3[0] == c[0];
    SplitAtTerminator(b, t2, r3);
    assert r2[0] == b[0];
    SplitAtTerminator(a, t1, r2);
  }

  lemma ThreeNonBlank(a: string, b: string, c: string)
    requires Any(a, NotSpace) && Any(b, NotSpace) && Any(c, NotSpace)
    ensures |StrippedNonBlank([a] + ([b] + ([c] + [[]])))| == 3
  {
    var none: string := [];
    assert StrippedNonBlank([none]) == [] by {
      StripEmpty(none);
      assert [none][1..] == [];
    }
    NonBlankPiece(c, [none]);
    NonBlankPiece(b, [c] + [none]);
    NonBlankPiece(a, [b] + ([c] + [none]));
  }

  /** Three terminated pieces of text make three sentences. */
  lemma ThreeSentences(a: string, t1: char, b: string, t2: char, c: string, t3: char)
    requires All(a, NotTerminator) && All(b, NotTerminator) && All(c, NotTerminator)
    requires Any(a, NotSpace) && Any(b, NotSpace) && Any(c, NotSpace)
    requires IsTerminator(t1) && IsTerminator(t2) && IsTerminator(t3)
    ensures |Sentences(a + [t1] + (b + [t2] + (c + [t3] + [])))| == 3
  {
    PiecesOfThree(a, t1, b, t2, c, t3);
    ThreeNonBlank(a, b, c);
  }

  /** Text that is already single-spaced fields is its own cleaning. */
  lemma CleanOfJoin(ws: seq<string>)
    requires forall k :: 0 <= k < |ws| ==> |ws[k]| > 0 && All(ws[k], NotSpace)
    ensures Clean(JoinSpaced(ws)) == JoinSpaced(ws)
  {
    RunsOfJoin(ws, NotSpace);
  }

  lemma SentencesOfCleanText(data: string)
    requires Clean(data) == data
    ensures ParseText(data).sentenceCount == |Sentences(data)|
  {
  }

  lemma JoinSix(w1: string, w2: string, w3: string, w4: string, w5: string, w6: string)
    ensures JoinSpaced([w1, w2, w3, w4, w5, w6])
         == w1 + " " + w2 + " " + w3 + " " + w4 + " " + w5 + " " + w6
  {
    JoinFront(w5, [w6]);
    JoinFront(w4, [w5, w6]);
    JoinFront(w3, [w4, w5, w6]);
    JoinFront(w2, [w3, w4, w5, w6]);
    JoinFront(w1, [w2, w3, w4, w5, w6]);
  }

  /** Six fields, every second one ending in a terminator, read as three pieces. */
  lemma SixFieldsShape(u1: string, v1: string, t1: char, u2: string, v2: string, t2: char,
                       u3: string, v3: string, t3: char)
    ensures u1 + " " + (v1 + [t1]) + " " + u2 + " " + (v2 + [t2]) + " " + u3 + " " + (v3 + [t3])
         == (u1 + " " + v1) + [t1] + ((" " + u2 + " " + v2) + [t2] + ((" " + u3 + " " + v3) + [t3] + []))
  {
  }

  /** The test text "First sentence. Second sentence! Third sentence?", field by field. */
  const ThreeSentencesText := "First" + " " + ("sentence" + ".") + " " + "Second" + " " + ("sentence" + "!")
                            + " " + "Third" + " " + ("sentence" + "?")

  lemma ThreeSentencesAreClean()
    ensures Clean(ThreeSentencesText) == ThreeSentencesText
  {
    var ws := ["First", "sentence" + ".", "Second", "sentence" + "!", "Third", "sentence" + "?"];
    JoinSix(ws[0], ws[1], ws[2], ws[3], ws[4], ws[5]);
    assert forall k :: 0 <= k < |ws| ==> |ws[k]| > 0 && All(ws[k], NotSpace);
    CleanOfJoin(ws);
  }

  lemma ThreeSentencesSplit()
    ensures |Sentences(ThreeSentencesText)| == 3
  {
    SixFieldsShape("First", "sentence", '.', "Second", "sentence", '!', "Third", "sentence", '?');
    var a, b, c := "First" + " " + "sentence", " " + "Second" + " " + "sentence", " " + "Third" + " " + "sentence";
    assert NotSpace(a[0]) && NotSpace(b[1]) && NotSpace(c[1]);
    assert All(a, NotTerminator) && All(b, NotTerminator) && All(c, NotTerminator);
    ThreeSentences(a, '.', b, '!', c, '?');
  }

  /** "First sentence. Second sentence! Third sentence?" has three sentences. */
  lemma SentenceCountExample()
    ensures ParseText(ThreeSentencesText).sentenceCount == 3
  {
    ThreeSentencesAreClean();
    SentencesOfCleanText(ThreeSentencesText);
    ThreeSentencesSplit();
  }

  // ------------------------------------------------------------------ formats

  lemma LowerTxt()
    ensures Lower("txt") == "txt"
  {
    assert ToLower('t') == 't' && ToLower('x') == 'x';
  }

  lemma LowerJson()
    ensures Lower("json") == "json"
  {
    assert ToLower('j') == 'j' && ToLower('s') == 's' && ToLower('o') == 'o' && ToLower('n') == 'n';
  }

  lemma LowerMd()
    ensures Lower("md") == "md"
  {
    assert ToLower('m') == 'm' && ToLower('d') == 'd';
  }

  /** "file.txt" is plain text, by its extension. */
  lemma TxtFormatExample(data: string)
    ensures DetectFormat(data, "file.txt").detectedType == Txt
  {
    LowerTxt();
    assert "file.txt" == "file" + "." + "txt";
    ExtensionDecidesFormat(data, "file", "txt");
  }

  /** "data.json" is JSON, by its extension. */
  lemma JsonFormatExample(data: string)
    ensures DetectFormat(data, "data.json").detectedType == Json
  {
    LowerJson();
    assert "data.json" == "data" + "." + "json";
    ExtensionDecidesFormat(data, "data", "json");
  }

  /** "file.md" is Markdown, by its extension. */
  lemma MdFormatExample(data: string)
    ensures DetectFormat(data, "file.md").detectedType == Md
  {
    LowerMd();
    assert "file.md" == "file" + "." + "md";
    ExtensionDecidesFormat(data, "file", "md");
  }

  // ------------------------------------------------------------ end to end

  /** `s[lo..hi]` is ASCII letters, checked one position at a time. */
  predicate LettersBetween(s: string, lo: nat, hi: nat)
    requires hi <= |s|
    decreases hi - lo
  {
    lo >= hi || (IsAsciiLetter(s[lo]) && LettersBetween(s, lo + 1, hi))
  }

  lemma {:induction false} LettersBetweenAll(s: string, lo: nat, hi: nat)
    requires hi <= |s| && LettersBetween(s, lo, hi)
    ensures forall i :: lo <= i < hi ==> IsAsciiLetter(s[i])
    decreases hi - lo
  {
    if lo < hi {
      LettersBetweenAll(s, lo + 1, hi);
    }
  }

  /** The word of `k` ASCII letters at position `start`, closed by a space. */
  lemma WordAt(s: string, start: nat, k: nat)
    requires 0 < k && start + k < |s| && s[start + k] == ' '
    requires LettersBetween(s, start, start + k)
    ensures Runs(s[start..], IsWordChar) == [s[start..start + k]] + Runs(s[start + k + 1..], IsWordChar)
  {
    var w, rest := s[start..start + k], s[start + k + 1..];
    assert s[start..] == w + " " + rest by {
      assert s[start..] == s[start..start + k + 1] + rest;
      assert s[start..start + k + 1] == w + " ";
    }
    assert All(w, IsWordChar) by {
      LettersBetweenAll(s, start, start + k);
      assert forall i :: 0 <= i < k ==> w[i] == s[start + i];
    }
    RunThenGap(w, " ", rest, IsWordChar);
  }

  /** The end-to-end test's input, written in pieces: "The quick brown fox jumps over the lazy dog. This is a pangram." */
  const Pangram := "The " + "quick " + "brown " + "fox " + "jumps " + "over the lazy dog. This is a pangram."

  lemma PangramLetters()
    ensures Pangram[3] == ' ' && Pangram[9] == ' ' && Pangram[15] == ' ' && Pangram[19] == ' ' && Pangram[25] == ' '
    ensures LettersBetween(Pangram, 0, 3) && LettersBetween(Pangram, 4, 9) && LettersBetween(Pangram, 10, 15)
    ensures LettersBetween(Pangram, 16, 19) && LettersBetween(Pangram, 20, 25)
  {
  }

  /** The pangram starts with five words. */
  lemma PangramRuns()
    ensures |Runs(Pangram, IsWordChar)| >= 5
  {
    PangramLetters();
    FiveLeadingWords(Pangram);
  }

  /** Five letter words, each closed by a space, at the pangram's positions. */
  lemma FiveLeadingWords(s: string)
    requires 25 < |s| && s[3] == ' ' && s[9] == ' ' && s[15] == ' ' && s[19] == ' ' && s[25] == ' '
    requires LettersBetween(s, 0, 3) && LettersBetween(s, 4, 9) && LettersBetween(s, 10, 15)
    requires LettersBetween(s, 16, 19) && LettersBetween(s, 20, 25)
    ensures |Runs(s, IsWordChar)| >= 5
  {
    WordAt(s, 20, 5);
    WordAt(s, 16, 3);
    WordAt(s, 10, 5);
    WordAt(s, 4, 5);
    WordAt(s, 0, 3);
    assert s[0..] == s;
  }

  /** The pangram has at least five words, so the review finds it `VALID`. */
  lemma PangramIsValid(sourceName: string)
    ensures Process(Pangram, sourceName).review.overallStatus == Valid
  {
    PangramRuns();
    ManyWordsAreValid(Pangram, sourceName);
  }

  lemma ManyWordsAreValid(data: string, sourceName: string)
    requires |Runs(data, IsWordChar)| >= 5
    ensures Process(data, sourceName).review.overallStatus == Valid
  {
  }

  /** A 200-character input is previewed as its first 100 characters and "...". */
  lemma LongPreviewExample(sourceName: string)
    ensures |Process(seq(200, i => 'x'), sourceName).input.dataPreview| < 110
    ensures Process(seq(200, i => 'x'), sourceName).input.dataPreview[100..] == "..."
  {
  }

  /** Empty input: no words, no sentences, `INVALID`. */
  lemma EmptyInputExample(sourceName: string)
    ensures Process("", sourceName).extraction.text.wordCount == 0
    ensures Process("", sourceName).extraction.text.sentenceCount == 0
    ensures Process("", sourceName).review.overallStatus == Invalid
  {
  }

  // ------------------------------------------------------------ deep review

  /** Any text with a word character passes all four point checks, so its score is 1.0. */
  lemma WordsGiveFullScore(data: string, sourceName: string)
    requires Any(data, IsWordChar)
    ensures Process(data, sourceName).review.pointByPointValidation.summary.ScoreIsOne()
  {
    var t := ParseText(data);
    assert t.wordCount > 0 && t.sentenceCount > 0 && t.charCount > 0;
  }

  /** "Valid text with enough content." scores 1.0. */
  lemma FullScoreExample()
    ensures Process("Valid text with enough content.", "test.txt").review.pointByPointValidation.summary.ScoreIsOne()
  {
    var data := "Valid text with enough content.";
    assert IsWordChar(data[0]);
    WordsGiveFullScore(data, "test.txt");
  }

  /** A text dictionary of zeros fails the word check and passes none, so its score is 0. */
  lemma ZeroScoreExample()
    ensures var v := ValidatePoints(TextFields(None, None, None, Some(0), Some(0), Some(0)), MetaFields(Some(0)));
      !v.wordCount.valid && v.summary.passed == 0
  {
  }

  /** A review of zero counts and empty text is `INVALID`. */
  lemma ReviewInvalidExample()
    ensures Review(TextFields(Some(""), Some(""), None, None, Some(0), Some(0)), MetaFields(Some(0))).overallStatus == Invalid
  {
  }

  /** The words of a text that is `ws` joined by single spaces are `ws`. */
  lemma WordsOfJoin(ws: seq<string>)
    requires forall k :: 0 <= k < |ws| ==> |ws[k]| > 0 && All(ws[k], IsWordChar)
    ensures ParseText(JoinSpaced(ws)).words == ws
  {
    RunsOfJoin(ws, IsWordChar);
  }

  /** The words of "The quick brown fox". */
  const FoxWords: seq<string> := ["The", "quick", "brown", "fox"]

  /** Statistics of words made of letters only: all alphabetic, none numeric. */
  lemma LetterWordsStatistics(text: TextFields, ws: seq<string>)
    requires text.words == Some(ws)
    requires forall k :: 0 <= k < |ws| ==> |ws[k]| > 0 && All(ws[k], IsAsciiLetter)
    ensures var v := VerifyWords(text);
      v.totalWords == |ws| && v.alphaWords == |ws| && v.numericWords == 0 && v.lengthSum >= |ws|
  {
    forall k | 0 <= k < |ws|
      ensures IsAlphaWord(ws[k]) && !IsDigitWord(ws[k])
    {
      assert IsAsciiLetter(ws[k][0]);
    }
  }

  /** "The quick brown fox": four words, all alphabetic, none numeric, positive average length. */
  lemma FoxStatisticsExample()
    ensures var v := VerifyWords(TextFieldsOf(ParseText(JoinSpaced(FoxWords))));
      v.totalWords == 4 && v.alphaWords == 4 && v.numericWords == 0 && v.lengthSum > 0
  {
    var ws := FoxWords;
    assert forall k :: 0 <= k < |ws| ==> |ws[k]| > 0 && All(ws[k], IsAsciiLetter) && All(ws[k], IsWordChar);
    WordsOfJoin(ws);
    LetterWordsStatistics(TextFieldsOf(ParseText(JoinSpaced(ws))), ws);
  }

  /** The words of "Test word123 and 456 numbers". */
  const MixedWords: seq<string> := ["Test", "word123", "and", "456", "numbers"]

  /** "Test word123 and 456 numbers": five words, some alphabetic, some numeric, some unique. */
  lemma MixedStatisticsExample()
    ensures var v := VerifyWords(TextFieldsOf(ParseText(JoinSpaced(MixedWords))));
      v.totalWords == 5 && v.alphaWords > 0 && v.numericWords > 0 && v.uniqueWords > 0
  {
    var ws := MixedWords;
    assert forall k :: 0 <= k < |ws| ==> |ws[k]| > 0 && All(ws[k], IsWordChar);
    assert IsAlphaWord(ws[0]) && IsDigitWord(ws[3]);
    MixedStatistics(ws);
  }

  /** Five words, one all letters and one all digits, have both kinds counted. */
  lemma MixedStatistics(ws: seq<string>)
    requires |ws| == 5 && forall k :: 0 <= k < |ws| ==> |ws[k]| > 0 && All(ws[k], IsWordChar)
    requires IsAlphaWord(ws[0]) && IsDigitWord(ws[3])
    ensures var v := VerifyWords(TextFieldsOf(ParseText(JoinSpaced(ws))));
      v.totalWords == 5 && v.alphaWords > 0 && v.numericWords > 0 && v.uniqueWords > 0
  {
    JoinedWordsStatistics(ws);
  }

  /** The statistics of space-joined words are those of the words themselves. */
  lemma JoinedWordsStatistics(ws: seq<string>)
    requires forall k :: 0 <= k < |ws| ==> |ws[k]| > 0 && All(ws[k], IsWordChar)
    ensures var v := VerifyWords(TextFieldsOf(ParseText(JoinSpaced(ws))));
      && v.totalWords == |ws|
      && v.alphaWords == CountWords(ws, IsAlphaWord)
      && v.numericWords == CountWords(ws, IsDigitWord)
      && v.uniqueWords == |set w | w in ws|
  {
    WordsOfJoin(ws);
  }

  /** Between one and four words give `WARNING`. */
  lemma FewWordsWarn(data: string, sourceName: string)
    requires 1 <= |Runs(data, IsWordChar)| < 5
    ensures Process(data, sourceName).review.overallStatus == Warning
  {
  }

  /** The words of space-joined words followed by non-word characters are those words. */
  lemma RunsOfJoinAndSuffix(ws: seq<string>, suffix: string)
    requires forall k :: 0 <= k < |ws| ==> |ws[k]| > 0 && All(ws[k], IsWordChar)
    requires !Any(suffix, IsWordChar)
    ensures Runs(JoinSpaced(ws) + suffix, IsWordChar) == ws
  {
    RunsOfJoin(ws, IsWordChar);
    RunsDropSuffix(JoinSpaced(ws), suffix, IsWordChar);
  }

  /** "Short text" has two words, so the review gives `WARNING`. */
  lemma WarningExample()
    ensures Process("Short text", "test.txt").review.overallStatus == Warning
  {
    var ws := ["Short", "text"];
    JoinFront("Short", ["text"]);
    assert forall k :: 0 <= k < |ws| ==> |ws[k]| > 0 && All(ws[k], IsWordChar);
    RunsOfJoinAndSuffix(ws, "");
    assert JoinSpaced(ws) + "" == "Short text";
    FewWordsWarn("Short text", "test.txt");
  }

  /** The words of "This is valid test data with sufficient content.". */
  const SufficientWords: seq<string> := ["This", "is", "valid", "test", "data", "with", "sufficient", "content"]

  /** Eight words and a full stop give `VALID`. */
  lemma ValidExample()
    ensures Process(JoinSpaced(SufficientWords) + ".", "test.txt").review.overallStatus == Valid
  {
    var ws := SufficientWords;
    assert forall k :: 0 <= k < |ws| ==> |ws[k]| > 0 && All(ws[k], IsWordChar);
    RunsOfJoinAndSuffix(ws, ".");
    ManyWordsAreValid(JoinSpaced(ws) + ".", "test.txt");
  }
}
