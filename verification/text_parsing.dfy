/**
 The string transformations behind `ContentExtractor.parse_text`
 (src/content_extraction.py): whitespace cleaning, sentence splitting and
 word finding. Cleaning and word finding are stated against independent
 reference definitions; sentence splitting is pinned by lemmas about where a
 run of terminators closes a piece.
 */
module TextParsing {
  import opened Chars
  import opened Text

  /**
   `re.sub(r'\s+', ' ', s)`: every maximal whitespace run becomes one `' '`.
   The result keeps every other character and never has two whitespace
   characters side by side.
   */
  function Collapse(s: string): (r: string)
    ensures r == [] <==> s == []
    ensures s != [] && !IsSpace(s[0]) ==> r[0] == s[0]
    ensures forall i :: 0 <= i < |r| && IsSpace(r[i]) ==> r[i] == ' '
    ensures forall i :: 0 <= i < |r| ==> NoSpacePairAt(r, i)
    decreases |s|
  {
    if s == [] then []
    else if IsSpace(s[0]) then
      var t := Collapse(s[SpanLen(s, IsSpace)..]);
      NoSpacePairPrepend(' ', t);
      [' '] + t
    else
      var t := Collapse(s[1..]);
      NoSpacePairPrepend(s[0], t);
      [s[0]] + t
  }

  /** Putting a character in front keeps whitespace unpaired when it cannot pair with the first character. */
  lemma NoSpacePairPrepend(x: char, t: string)
    requires forall i :: 0 <= i < |t| ==> NoSpacePairAt(t, i)
    requires IsSpace(x) && t != [] ==> !IsSpace(t[0])
    ensures forall i :: 0 <= i < |[x] + t| ==> NoSpacePairAt([x] + t, i)
  {
    forall i | 0 <= i < |[x] + t|
      ensures NoSpacePairAt([x] + t, i)
    {
      if i > 0 {
        assert NoSpacePairAt(t, i - 1);
      }
    }
  }

  /** The `cleaned` text: `re.sub(r'\s+', ' ', data).strip()`. */
  function Clean(data: string): (r: string)
    ensures r == JoinSpaced(Runs(data, NotSpace))
    ensures SingleSpaced(r)
  {
    CleanIsJoinedFields(data);
    Strip(Collapse(data))
  }

  /** A leading whitespace run separates `a` from what follows it. */
  lemma RunsAcrossSpaces(a: string, s: string, p: char -> bool)
    requires SpaceFree(p) && s != [] && IsSpace(s[0])
    ensures Runs(a + s, p) == Runs(a, p) + Runs(s[SpanLen(s, IsSpace)..], p)
  {
    var n := SpanLen(s, IsSpace);
    var t := s[n..];
    assert a + s == a + [s[0]] + s[1..];
    RunsSplit(a, s[0], s[1..], p);
    var gap := s[1..n];
    assert s[1..] == gap + t;
    assert All(gap, IsSpace) by {
      assert forall i :: 0 <= i < |gap| ==> gap[i] == s[..n][i + 1];
    }
    SpacesOutsideClass(gap, p);
    RunsSkip(gap, t, p);
  }

  /** Runs of a whitespace-free class are unchanged by collapsing, even after any prefix. */
  lemma {:induction false} RunsCollapse(a: string, s: string, p: char -> bool)
    requires SpaceFree(p)
    ensures Runs(a + Collapse(s), p) == Runs(a + s, p)
    decreases |s|
  {
    if s == [] {
      assert a + Collapse(s) == a + s;
    } else if IsSpace(s[0]) {
      var t := s[SpanLen(s, IsSpace)..];
      RunsCollapse([], t, p);
      assert [] + Collapse(t) == Collapse(t) && [] + t == t;
      RunsCollapseSpaceStep(a, s, p);
    } else {
      CollapseCharStep(s);
      assert a + Collapse(s) == (a + [s[0]]) + Collapse(s[1..]);
      RunsCollapse(a + [s[0]], s[1..], p);
      assert (a + [s[0]]) + s[1..] == a + s;
    }
  }

  /** Collapsing a leading whitespace run, given that collapsing the rest keeps its runs. */
  lemma {:induction false} RunsCollapseSpaceStep(a: string, s: string, p: char -> bool)
    requires SpaceFree(p) && s != [] && IsSpace(s[0])
    requires Runs(Collapse(s[SpanLen(s, IsSpace)..]), p) == Runs(s[SpanLen(s, IsSpace)..], p)
    ensures Runs(a + Collapse(s), p) == Runs(a + s, p)
  {
    var t := s[SpanLen(s, IsSpace)..];
    CollapseSpaceStep(s);
    assert a + Collapse(s) == a + [' '] + Collapse(t);
    RunsSplit(a, ' ', Collapse(t), p);
    RunsAcrossSpaces(a, s, p);
  }

  /** The recursive equation of `Collapse` at a whitespace character. */
  lemma {:induction false} CollapseSpaceStep(s: string)
    requires s != [] && IsSpace(s[0])
    ensures Collapse(s) == [' '] + Collapse(s[SpanLen(s, IsSpace)..])
  {
  }

  /** The recursive equation of `Collapse` at any other character. */
  lemma {:induction false} CollapseCharStep(s: string)
    requires s != [] && !IsSpace(s[0])
    ensures Collapse(s) == [s[0]] + Collapse(s[1..])
  {
  }

  /** Whitespace around a string does not change the runs of a whitespace-free class. */
  lemma RunsInsideSpaces(pre: string, mid: string, post: string, p: char -> bool)
    requires SpaceFree(p) && All(pre, IsSpace) && All(post, IsSpace)
    ensures Runs(pre + mid + post, p) == Runs(mid, p)
  {
    SpacesOutsideClass(pre, p);
    SpacesOutsideClass(post, p);
    assert pre + mid + post == pre + (mid + post);
    RunsSkip(pre, mid + post, p);
    RunsDropSuffix(mid, post, p);
  }

  lemma RunsStrip(s: string, p: char -> bool)
    requires SpaceFree(p)
    ensures Runs(Strip(s), p) == Runs(s, p)
  {
    var pre, post := StripDecompose(s);
    RunsInsideSpaces(pre, Strip(s), post, p);
  }

  /** Runs of a whitespace-free class are the same in the raw and the cleaned text. */
  lemma CleaningKeepsRuns(s: string, p: char -> bool)
    requires SpaceFree(p)
    ensures Runs(Strip(Collapse(s)), p) == Runs(s, p)
  {
    RunsStrip(Collapse(s), p);
    RunsCollapseAll(s, p);
  }

  /** Runs of a whitespace-free class are unchanged by collapsing. */
  lemma RunsCollapseAll(s: string, p: char -> bool)
    requires SpaceFree(p)
    ensures Runs(Collapse(s), p) == Runs(s, p)
  {
    RunsCollapse([], s, p);
    assert [] + Collapse(s) == Collapse(s);
    assert [] + s == s;
  }

  /** A single-spaced string is determined by its whitespace-separated fields. */
  lemma {:induction false} SingleSpacedIsJoin(r: string)
    requires SingleSpaced(r)
    ensures r == JoinSpaced(Runs(r, NotSpace))
    decreases |r|
  {
    if r != [] {
      var n := SpanLen(r, NotSpace);
      if n == |r| {
        assert r[..n] == r;
        RunsOfRun(r, NotSpace);
      } else {
        var w, rest := r[..n], r[n + 1..];
        assert r[n] == ' ';
        assert n + 1 < |r|;
        assert r == w + [' '] + rest;
        SingleSpacedAfterSpace(r, n);
        RunsSplit(w, ' ', rest, NotSpace);
        RunsOfRun(w, NotSpace);
        SingleSpacedIsJoin(rest);
        assert Runs(rest, NotSpace) != [] by {
          RunsEmpty(rest, NotSpace);
          assert NotSpace(rest[0]);
        }
        var ws := Runs(r, NotSpace);
        assert ws == [w] + Runs(rest, NotSpace);
        assert ws[1..] == Runs(rest, NotSpace);
      }
    }
  }

  /** What follows a space of single-spaced text is single-spaced. */
  lemma SingleSpacedAfterSpace(r: string, n: nat)
    requires SingleSpaced(r) && n + 1 < |r| && r[n] == ' '
    ensures SingleSpaced(r[n + 1..])
  {
    var rest := r[n + 1..];
    assert NoSpacePairAt(r, n);
    assert forall i :: 0 <= i < |rest| ==> rest[i] == r[n + 1 + i];
    forall i | 0 <= i < |rest|
      ensures NoSpacePairAt(rest, i)
    {
      assert NoSpacePairAt(r, n + 1 + i);
    }
  }

  /** Cleaning is `' '.join(data.split())`. */
  lemma CleanIsJoinedFields(data: string)
    ensures Strip(Collapse(data)) == JoinSpaced(Runs(data, NotSpace))
    ensures SingleSpaced(Strip(Collapse(data)))
  {
    var r := Strip(Collapse(data));
    CleanedIsSingleSpaced(data);
    SingleSpacedIsJoin(r);
    ClassesAreSpaceFree();
    CleaningKeepsRuns(data, NotSpace);
  }

  /** Collapsing and then stripping leaves single-spaced text. */
  lemma CleanedIsSingleSpaced(data: string)
    ensures SingleSpaced(Strip(Collapse(data)))
  {
    var c := Collapse(data);
    var r := Strip(c);
    var pre, post := StripDecompose(c);
    assert forall i :: 0 <= i < |r| ==> r[i] == c[|pre| + i];
    forall i | 0 <= i < |r|
      ensures NoSpacePairAt(r, i)
    {
      assert NoSpacePairAt(c, |pre| + i);
    }
  }

  /** Cleaning cleaned text changes nothing. */
  lemma CleanIdempotent(data: string)
    ensures Clean(Clean(data)) == Clean(data)
  {
    ClassesAreSpaceFree();
    CleaningKeepsRuns(data, NotSpace);
  }

  /** Runs of a whitespace-free class are the same in the raw and the cleaned text. */
  lemma CleanKeepsRuns(data: string, p: char -> bool)
    requires SpaceFree(p)
    ensures Runs(Clean(data), p) == Runs(data, p)
    ensures Keep(Clean(data), p) == Keep(data, p)
  {
    CleaningKeepsRuns(data, p);
    RunsKeep(Clean(data), p);
    RunsKeep(data, p);
  }

  /**
   `re.split(r'[.!?]+', s)`: the pieces between maximal runs of terminators,
   including the empty pieces before a leading run and after a trailing one.
   */
  function SplitPieces(s: string): (ps: seq<string>)
    ensures |ps| >= 1
    ensures forall k :: 0 <= k < |ps| ==> All(ps[k], NotTerminator)
    decreases |s|
  {
    var i := SpanLen(s, NotTerminator);
    if i == |s| then
      assert s[..i] == s;
      [s]
    else
      assert s[i..][0] == s[i];
      var j := i + SpanLen(s[i..], IsTerminator);
      [s[..i]] + SplitPieces(s[j..])
  }

  /** A single terminator after terminator-free text closes exactly one piece. */
  lemma {:induction false} SplitAtTerminator(a: string, t: char, b: string)
    requires All(a, NotTerminator) && IsTerminator(t)
    requires b == [] || !IsTerminator(b[0])
    ensures SplitPieces(a + [t] + b) == [a] + SplitPieces(b)
  {
    var s := a + [t] + b;
    assert s[..|a|] == a;
    SpanLenUnique(s, NotTerminator, |a|);
    var rest := s[|a|..];
    assert rest == [t] + b;
    assert rest[..1] == [t];
    SpanLenUnique(rest, IsTerminator, 1);
    assert s[|a| + 1..] == b;
  }

  /** Terminator-free text is one piece. */
  lemma {:induction false} SplitWhole(s: string)
    requires All(s, NotTerminator)
    ensures SplitPieces(s) == [s]
  {
    assert s[..|s|] == s;
    SpanLenUnique(s, NotTerminator, |s|);
  }

  /**
   A run of terminators of any length after terminator-free text closes
   exactly one piece (the `+` of `[.!?]+`), and splitting resumes after the run.
   */
  lemma {:induction false} SplitAtTerminatorRun(a: string, t: string, b: string)
    requires All(a, NotTerminator) && |t| > 0 && All(t, IsTerminator)
    requires b == [] || !IsTerminator(b[0])
    ensures SplitPieces(a + t + b) == [a] + SplitPieces(b)
  {
    var s := a + t + b;
    assert s == a + (t + b);
    SpanOfPrefix(a, t + b, NotTerminator);
    var i, j := SplitPiecesUnfold(s);
    assert s[i..] == t + b;
    SpanOfPrefix(t, b, IsTerminator);
    assert s[..i] == a;
    assert s[j..] == b;
  }

  /** One step of splitting: the piece before the first terminator run, then the pieces after that run. */
  lemma {:induction false} SplitPiecesUnfold(s: string) returns (i: nat, j: nat)
    requires SpanLen(s, NotTerminator) < |s|
    ensures i == SpanLen(s, NotTerminator) && i < j <= |s|
    ensures j == i + SpanLen(s[i..], IsTerminator)
    ensures All(s[i..j], IsTerminator)
    ensures SplitPieces(s) == [s[..i]] + SplitPieces(s[j..])
  {
    SplitPiecesEquation(s);
    i := SpanLen(s, NotTerminator);
    assert s[i..][0] == s[i];
    var n := SpanLen(s[i..], IsTerminator);
    j := i + n;
    assert s[..i] == s[..SpanLen(s, NotTerminator)];
    assert s[j..] == s[SpanLen(s, NotTerminator) + SpanLen(s[SpanLen(s, NotTerminator)..], IsTerminator)..];
    assert s[i..j] == s[i..][..n];
  }

  /** The recursive equation of `SplitPieces`, written out in full. */
  lemma {:induction false} SplitPiecesEquation(s: string)
    requires SpanLen(s, NotTerminator) < |s|
    ensures SplitPieces(s) ==
              [s[..SpanLen(s, NotTerminator)]]
              + SplitPieces(s[SpanLen(s, NotTerminator) + SpanLen(s[SpanLen(s, NotTerminator)..], IsTerminator)..])
  {
  }

  /** `[p.strip() for p in ps if p.strip()]`. */
  function StrippedNonBlank(ps: seq<string>): (ss: seq<string>)
    ensures |ss| <= |ps|
    ensures forall k :: 0 <= k < |ss| ==> |ss[k]| > 0 && !IsSpace(ss[k][0]) && !IsSpace(ss[k][|ss[k]| - 1])
  {
    if ps == [] then []
    else
      var t := Strip(ps[0]);
      (if t != [] then [t] else []) + StrippedNonBlank(ps[1..])
  }

  lemma {:induction false} StrippedAppend(ps: seq<string>, qs: seq<string>)
    ensures StrippedNonBlank(ps + qs) == StrippedNonBlank(ps) + StrippedNonBlank(qs)
    decreases |ps|
  {
    if ps == [] {
      assert ps + qs == qs;
    } else {
      var t := Strip(ps[0]);
      var head := if t != [] then [t] else [];
      assert (ps + qs)[0] == ps[0];
      assert (ps + qs)[1..] == ps[1..] + qs;
      StrippedAppend(ps[1..], qs);
      calc {
        StrippedNonBlank(ps + qs);
        head + StrippedNonBlank(ps[1..] + qs);
        head + (StrippedNonBlank(ps[1..]) + StrippedNonBlank(qs));
        (head + StrippedNonBlank(ps[1..])) + StrippedNonBlank(qs);
      }
    }
  }

  /**
   The `sentences` of `parse_text`: the non-blank pieces of the cleaned text
   between terminator runs, stripped.
   */
  function Sentences(cleaned: string): (ss: seq<string>)
    ensures forall k :: 0 <= k < |ss| ==>
              && |ss[k]| > 0
              && !IsSpace(ss[k][0]) && !IsSpace(ss[k][|ss[k]| - 1])
              && All(ss[k], NotTerminator)
    ensures Keep(Concat(ss), IsSentenceChar) == Keep(cleaned, IsSentenceChar)
  {
    SentencesShape(cleaned);
    SentencesKeepContent(cleaned);
    StrippedNonBlank(SplitPieces(cleaned))
  }

  /** Every kept piece is non-empty, unpadded and free of terminators. */
  lemma SentencesShape(cleaned: string)
    ensures var ss := StrippedNonBlank(SplitPieces(cleaned));
      forall k :: 0 <= k < |ss| ==> |ss[k]| > 0 && All(ss[k], NotTerminator)
  {
    StrippedKeepsClass(SplitPieces(cleaned), NotTerminator);
  }

  /** The stripped piece, if it is not blank. */
  function NonBlank(p: string): seq<string> {
    if Strip(p) != [] then [Strip(p)] else []
  }

  /** Terminator-free text is at most one sentence: itself, stripped. */
  lemma {:induction false} SentencesWhole(s: string)
    requires All(s, NotTerminator)
    ensures Sentences(s) == NonBlank(s)
  {
    SplitWhole(s);
  }

  /** A terminator run ends the sentence before it; the sentences after it follow. */
  lemma {:induction false} SentencesAtTerminatorRun(a: string, t: string, b: string)
    requires All(a, NotTerminator) && |t| > 0 && All(t, IsTerminator)
    requires b == [] || !IsTerminator(b[0])
    ensures Sentences(a + t + b) == NonBlank(a) + Sentences(b)
  {
    SplitAtTerminatorRun(a, t, b);
    StrippedAppend([a], SplitPieces(b));
  }

  /** The `words` of `parse_text`: `re.findall(r'\b\w+\b', cleaned)`, the maximal runs of word characters. */
  function FindWords(cleaned: string): (ws: seq<string>)
    ensures forall k :: 0 <= k < |ws| ==> |ws[k]| > 0 && All(ws[k], IsWordChar)
    ensures Concat(ws) == Keep(cleaned, IsWordChar)
    ensures ws == [] <==> !Any(cleaned, IsWordChar)
  {
    RunsKeep(cleaned, IsWordChar);
    RunsEmpty(cleaned, IsWordChar);
    Runs(cleaned, IsWordChar)
  }

  lemma {:induction false} StrippedKeepsClass(ps: seq<string>, q: char -> bool)
    requires forall k :: 0 <= k < |ps| ==> All(ps[k], q)
    ensures forall k :: 0 <= k < |StrippedNonBlank(ps)| ==> All(StrippedNonBlank(ps)[k], q)
  {
    if ps != [] {
      StripAll(ps[0], q);
      StrippedKeepsClass(ps[1..], q);
    }
  }

  /**
   One step of the split: the first piece, and the text after the terminator
   run that closes it.
   */
  lemma {:induction false} PieceStep(s: string) returns (head: string, tail: string)
    requires SpanLen(s, NotTerminator) < |s|
    ensures |tail| < |s|
    ensures SplitPieces(s) == [head] + SplitPieces(tail)
    ensures Keep(s, IsSentenceChar) == Keep(head, IsSentenceChar) + Keep(tail, IsSentenceChar)
  {
    var i, j := SplitPiecesUnfold(s);
    head, tail := s[..i], s[j..];
    var gap := s[i..j];
    assert Keep(gap, IsSentenceChar) == [] by {
      assert !Any(gap, IsSentenceChar);
    }
    SliceThree(s, i, j);
    KeepAroundGap(head, gap, tail, IsSentenceChar);
  }

  /** Cutting out a stretch with no kept character leaves the kept characters of the two sides. */
  lemma KeepAroundGap(a: string, gap: string, b: string, p: char -> bool)
    requires Keep(gap, p) == []
    ensures Keep(a + gap + b, p) == Keep(a, p) + Keep(b, p)
  {
    KeepAppend(a + gap, b, p);
    KeepAppend(a, gap, p);
  }

  /** Terminators are the only characters splitting drops. */
  lemma {:induction false} PiecesKeepContent(s: string)
    ensures Keep(Concat(SplitPieces(s)), IsSentenceChar) == Keep(s, IsSentenceChar)
    decreases |s|
  {
    if SpanLen(s, NotTerminator) == |s| {
      assert SplitPieces(s) == [s];
      assert [s][1..] == [];
      assert Concat([s]) == s + [];
      assert s + [] == s;
    } else {
      var head, tail := PieceStep(s);
      var rest := SplitPieces(tail);
      assert Concat([head] + rest) == head + Concat(rest) by {
        assert ([head] + rest)[1..] == rest;
      }
      KeepAppend(head, Concat(rest), IsSentenceChar);
      PiecesKeepContent(tail);
    }
  }

  /** Stripping pieces and dropping blank ones loses no sentence character. */
  lemma {:induction false} StrippedKeepContent(ps: seq<string>)
    ensures Keep(Concat(StrippedNonBlank(ps)), IsSentenceChar) == Keep(Concat(ps), IsSentenceChar)
  {
    if ps != [] {
      ClassesAreSpaceFree();
      var t := Strip(ps[0]);
      var rest := StrippedNonBlank(ps[1..]);
      StripKeep(ps[0], IsSentenceChar);
      StrippedKeepContent(ps[1..]);
      KeepAppend(ps[0], Concat(ps[1..]), IsSentenceChar);
      if t != [] {
        assert StrippedNonBlank(ps) == [t] + rest;
        assert Concat([t] + rest) == t + Concat(rest);
        KeepAppend(t, Concat(rest), IsSentenceChar);
      } else {
        assert StrippedNonBlank(ps) == rest;
      }
    }
  }

  lemma SentencesKeepContent(cleaned: string)
    ensures Keep(Concat(StrippedNonBlank(SplitPieces(cleaned))), IsSentenceChar) == Keep(cleaned, IsSentenceChar)
  {
    PiecesKeepContent(cleaned);
    StrippedKeepContent(SplitPieces(cleaned));
  }

  /** Non-empty pieces that start with a sentence character: there is one exactly when their concatenation has such a character. */
  lemma SentenceCharsMeanSentences(ss: seq<string>)
    requires forall k :: 0 <= k < |ss| ==> |ss[k]| > 0 && !IsSpace(ss[k][0]) && All(ss[k], NotTerminator)
    ensures ss != [] <==> Any(Concat(ss), IsSentenceChar)
  {
    if ss != [] {
      assert Concat(ss) == ss[0] + Concat(ss[1..]);
      assert Concat(ss)[0] == ss[0][0];
      assert IsSentenceChar(Concat(ss)[0]);
    }
  }

  /** There is a sentence exactly when the text has a character that is neither whitespace nor a terminator. */
  lemma SentencesExist(data: string)
    ensures |Sentences(Clean(data))| > 0 <==> Any(data, IsSentenceChar)
  {
    var c := Clean(data);
    var ss := Sentences(c);
    SentenceCharsMeanSentences(ss);
    ClassesAreSpaceFree();
    CleanKeepsRuns(data, IsSentenceChar);
    assert Keep(Concat(ss), IsSentenceChar) == Keep(data, IsSentenceChar);
  }

  lemma WordCharsAreSentenceChars(data: string)
    ensures Any(data, IsWordChar) ==> Any(data, IsSentenceChar)
  {
    if Any(data, IsWordChar) {
      var i :| 0 <= i < |data| && IsWordChar(data[i]);
      assert IsSentenceChar(data[i]);
    }
  }

  /** Every word character is a sentence character, so words imply sentences. */
  lemma WordsImplySentences(data: string)
    ensures |FindWords(Clean(data))| > 0 ==> |Sentences(Clean(data))| > 0
  {
    assert |FindWords(Clean(data))| > 0 ==> Any(data, IsWordChar) by {
      ClassesAreSpaceFree();
      CleanKeepsRuns(data, IsWordChar);
      RunsEmpty(data, IsWordChar);
    }
    WordCharsAreSentenceChars(data);
    SentencesExist(data);
  }
}
