/**
 Sequence-of-character utilities shared by the extraction stage: filtering,
 maximal runs of a character class (`re.findall(r'\b\w+\b')`, `str.split()`),
 whitespace trimming (`str.strip()`), joining, and `str.count`.
 */
module Text {
  import opened Chars

  /** Every character of `s` satisfies `p`. */
  predicate All(s: string, p: char -> bool) {
    forall i :: 0 <= i < |s| ==> p(s[i])
  }

  /** Some character of `s` satisfies `p`. */
  predicate Any(s: string, p: char -> bool) {
    exists i :: 0 <= i < |s| && p(s[i])
  }

  /** The characters of `s` that satisfy `p`, in their original order. */
  function Keep(s: string, p: char -> bool): (r: string)
    ensures |r| <= |s|
    ensures All(r, p)
    ensures r == [] <==> !Any(s, p)
  {
    if s == [] then []
    else
      var rest := Keep(s[1..], p);
      assert forall i :: 1 <= i < |s| ==> s[i] == s[1..][i - 1];
      if p(s[0]) then [s[0]] + rest else rest
  }

  lemma {:induction false} KeepAppend(a: string, b: string, p: char -> bool)
    ensures Keep(a + b, p) == Keep(a, p) + Keep(b, p)
    decreases |a|
  {
    if a == [] {
      assert a + b == b;
    } else {
      assert (a + b)[1..] == a[1..] + b;
      KeepAppend(a[1..], b, p);
    }
  }

  /** Length of the longest prefix of `s` whose characters all satisfy `p`. */
  function SpanLen(s: string, p: char -> bool): (n: nat)
    ensures n <= |s|
    ensures All(s[..n], p)
    ensures n < |s| ==> !p(s[n])
  {
    if s == [] || !p(s[0]) then 0
    else
      1 + SpanLen(s[1..], p)
  }

  /** Length of the longest suffix of `s` whose characters all satisfy `p`. */
  function BackSpanLen(s: string, p: char -> bool): (n: nat)
    ensures n <= |s|
    ensures All(s[|s| - n..], p)
    ensures n < |s| ==> !p(s[|s| - n - 1])
  {
    if s == [] || !p(s[|s| - 1]) then 0
    else
      1 + BackSpanLen(s[..|s| - 1], p)
  }

  /**
   The maximal non-empty runs of characters satisfying `p`, left to right:
   skip a character outside the class, otherwise take the longest run.
   */
  function Runs(s: string, p: char -> bool): (rs: seq<string>)
    ensures forall k :: 0 <= k < |rs| ==> |rs[k]| > 0 && All(rs[k], p)
    decreases |s|
  {
    if s == [] then []
    else if !p(s[0]) then Runs(s[1..], p)
    else
      var n := SpanLen(s, p);
      [s[..n]] + Runs(s[n..], p)
  }

  /** The concatenation of a sequence of strings. */
  function Concat(ss: seq<string>): (r: string)
  {
    if ss == [] then [] else ss[0] + Concat(ss[1..])
  }

  lemma {:induction false} ConcatAppend(a: seq<string>, b: seq<string>)
    ensures Concat(a + b) == Concat(a) + Concat(b)
    decreases |a|
  {
    if a == [] {
      assert a + b == b;
    } else {
      assert (a + b)[1..] == a[1..] + b;
      ConcatAppend(a[1..], b);
    }
  }

  /** Strings joined with one `' '` between neighbours (Python's `' '.join(ws)`). */
  function JoinSpaced(ws: seq<string>): string
  {
    if |ws| == 0 then ""
    else if |ws| == 1 then ws[0]
    else ws[0] + " " + JoinSpaced(ws[1..])
  }

  /** `str.strip()`: `s` without leading and trailing whitespace. */
  function Strip(s: string): (r: string)
    ensures r == [] || (!IsSpace(r[0]) && !IsSpace(r[|r| - 1]))
  {
    var a := SpanLen(s, IsSpace);
    if a == |s| then []
    else
      var n := BackSpanLen(s, IsSpace);
      s[a..|s| - n]
  }

  lemma SliceThree(s: string, a: nat, b: nat)
    requires a <= b <= |s|
    ensures s == s[..a] + s[a..b] + s[b..]
  {
  }

  /** `Strip(s)` is `s` with a whitespace prefix and a whitespace suffix removed. */
  lemma StripDecompose(s: string) returns (pre: string, post: string)
    ensures s == pre + Strip(s) + post
    ensures All(pre, IsSpace) && All(post, IsSpace)
  {
    var a := SpanLen(s, IsSpace);
    if a == |s| {
      pre, post := s, [];
      assert s[..a] == s;
    } else {
      var b := |s| - BackSpanLen(s, IsSpace);
      pre, post := s[..a], s[b..];
      SliceThree(s, a, b);
    }
  }

  lemma StripKeep(s: string, q: char -> bool)
    requires SpaceFree(q)
    ensures Keep(Strip(s), q) == Keep(s, q)
  {
    var pre, post := StripDecompose(s);
    KeepAppend(pre + Strip(s), post, q);
    KeepAppend(pre, Strip(s), q);
    assert !Any(pre, q);
    assert !Any(post, q);
  }

  lemma StripAll(s: string, q: char -> bool)
    requires All(s, q)
    ensures All(Strip(s), q)
  {
    var pre, post := StripDecompose(s);
    assert forall i :: 0 <= i < |Strip(s)| ==> Strip(s)[i] == s[|pre| + i];
  }

  lemma StripEmpty(s: string)
    ensures Strip(s) == [] <==> All(s, IsSpace)
  {
    var pre, post := StripDecompose(s);
    if Strip(s) == [] {
      assert s == pre + post;
      forall i | 0 <= i < |s|
        ensures IsSpace(s[i])
      {
        if i < |pre| {
          assert s[i] == pre[i];
        } else {
          assert s[i] == post[i - |pre|];
        }
      }
    } else {
      assert s[|pre|] == Strip(s)[0];
    }
  }

  /** Position `i` and the one after it are not both whitespace. */
  predicate NoSpacePairAt(r: string, i: int) {
    0 <= i < |r| - 1 ==> !IsSpace(r[i]) || !IsSpace(r[i + 1])
  }

  /** The shape of `' '.join(s.split())`: no outer whitespace, every whitespace
      character is a plain `' '`, and no two whitespace characters are adjacent. */
  predicate SingleSpaced(r: string) {
    && (r == [] || (!IsSpace(r[0]) && !IsSpace(r[|r| - 1])))
    && (forall i :: 0 <= i < |r| && IsSpace(r[i]) ==> r[i] == ' ')
    && (forall i :: 0 <= i < |r| ==> NoSpacePairAt(r, i))
  }

  /** Whitespace contains no character of a whitespace-free class. */
  lemma SpacesOutsideClass(a: string, p: char -> bool)
    requires SpaceFree(p) && All(a, IsSpace)
    ensures !Any(a, p)
  {
  }

  /** `SpanLen` is determined by its contract. */
  lemma {:induction false} SpanLenUnique(s: string, p: char -> bool, k: nat)
    requires k <= |s| && All(s[..k], p)
    requires k < |s| ==> !p(s[k])
    ensures SpanLen(s, p) == k
  {
    if k > 0 {
      assert s[..k][0] == s[0];
      var t := s[1..][..k - 1];
      assert forall i :: 0 <= i < k - 1 ==> t[i] == s[..k][i + 1];
      SpanLenUnique(s[1..], p, k - 1);
    }
  }

  /** A prefix inside the class, followed by the end or a character outside it, is the whole span. */
  lemma SpanOfPrefix(u: string, v: string, p: char -> bool)
    requires All(u, p) && (v == [] || !p(v[0]))
    ensures SpanLen(u + v, p) == |u|
  {
    var s := u + v;
    assert s[..|u|] == u;
    if v != [] {
      assert s[|u|] == v[0];
    }
    SpanLenUnique(s, p, |u|);
  }

  lemma KeepAll(s: string, p: char -> bool)
    requires All(s, p)
    ensures Keep(s, p) == s
  {
    if s != [] {
      assert All(s[1..], p) by {
        assert forall i :: 0 <= i < |s[1..]| ==> s[1..][i] == s[i + 1];
      }
      KeepAll(s[1..], p);
    }
  }

  /** Characters outside the class in front of `b` do not change its runs. */
  lemma {:induction false} RunsSkip(a: string, b: string, p: char -> bool)
    requires !Any(a, p)
    ensures Runs(a + b, p) == Runs(b, p)
    decreases |a|
  {
    if a == [] {
      assert a + b == b;
    } else {
      assert (a + b)[0] == a[0];
      assert (a + b)[1..] == a[1..] + b;
      assert !Any(a[1..], p) by {
        assert forall i :: 0 <= i < |a[1..]| ==> a[1..][i] == a[i + 1];
      }
      RunsSkip(a[1..], b, p);
    }
  }

  /** The runs of `s` when its first run is known to be `s[..m]`. */
  lemma RunsFront(s: string, m: nat, p: char -> bool)
    requires 0 < m <= |s| && All(s[..m], p) && (m < |s| ==> !p(s[m]))
    ensures Runs(s, p) == [s[..m]] + Runs(s[m..], p)
  {
    SpanLenUnique(s, p, m);
  }

  lemma SlicesAroundSeparator(a: string, x: char, b: string, m: nat)
    requires m <= |a|
    ensures (a + [x] + b)[..m] == a[..m]
    ensures (a + [x] + b)[m..] == a[m..] + [x] + b
    ensures (a + [x] + b)[m] == if m < |a| then a[m] else x
  {
  }

  /** A separator splits the runs: nothing on its left joins anything on its right. */
  lemma {:induction false} RunsSplit(a: string, x: char, b: string, p: char -> bool)
    requires !p(x)
    ensures Runs(a + [x] + b, p) == Runs(a, p) + Runs(b, p)
    decreases |a|
  {
    var s := a + [x] + b;
    if a == [] {
      assert s[1..] == b;
    } else if !p(a[0]) {
      assert s[1..] == a[1..] + [x] + b;
      RunsSplit(a[1..], x, b, p);
    } else {
      var m := SpanLen(a, p);
      SlicesAroundSeparator(a, x, b, m);
      RunsFront(s, m, p);
      RunsFront(a, m, p);
      RunsSplit(a[m..], x, b, p);
    }
  }

  /** Characters outside the class after `a` do not change its runs. */
  lemma RunsDropSuffix(a: string, b: string, p: char -> bool)
    requires !Any(b, p)
    ensures Runs(a + b, p) == Runs(a, p)
  {
    if b != [] {
      assert a + b == a + [b[0]] + b[1..];
      RunsSplit(a, b[0], b[1..], p);
      assert !Any(b[1..], p) by {
        assert forall i :: 0 <= i < |b[1..]| ==> b[1..][i] == b[i + 1];
      }
      RunsSkip(b[1..], [], p);
      assert b[1..] + [] == b[1..];
    } else {
      assert a + b == a;
    }
  }

  /** A non-empty string made only of class characters is a single run. */
  lemma RunsOfRun(s: string, p: char -> bool)
    requires |s| > 0 && All(s, p)
    ensures Runs(s, p) == [s]
  {
    assert s[..|s|] == s;
    SpanLenUnique(s, p, |s|);
    assert s[|s|..] == [];
  }

  /** The runs, laid end to end, are exactly the class characters of `s`, in order. */
  lemma {:induction false} RunsKeep(s: string, p: char -> bool)
    ensures Concat(Runs(s, p)) == Keep(s, p)
    decreases |s|
  {
    if s == [] {
    } else if !p(s[0]) {
      RunsKeep(s[1..], p);
    } else {
      var n := SpanLen(s, p);
      RunsKeep(s[n..], p);
      assert s == s[..n] + s[n..];
      KeepAppend(s[..n], s[n..], p);
      KeepAll(s[..n], p);
      assert [s[..n]] + Runs(s[n..], p) == Runs(s, p);
      assert Concat([s[..n]] + Runs(s[n..], p)) == s[..n] + Concat(Runs(s[n..], p));
    }
  }

  /** There are no runs exactly when no character belongs to the class. */
  lemma RunsEmpty(s: string, p: char -> bool)
    ensures Runs(s, p) == [] <==> !Any(s, p)
  {
    RunsKeep(s, p);
    if Runs(s, p) != [] {
      assert Concat(Runs(s, p))[0] == Runs(s, p)[0][0];
    }
  }

  /** Splitting a space-joined list of runs gives the list back. */
  lemma {:induction false} RunsOfJoin(ws: seq<string>, p: char -> bool)
    requires !p(' ')
    requires forall k :: 0 <= k < |ws| ==> |ws[k]| > 0 && All(ws[k], p)
    ensures Runs(JoinSpaced(ws), p) == ws
  {
    if |ws| == 0 {
    } else if |ws| == 1 {
      RunsOfRun(ws[0], p);
    } else {
      RunsOfJoin(ws[1..], p);
      RunsSplit(ws[0], ' ', JoinSpaced(ws[1..]), p);
      RunsOfRun(ws[0], p);
      assert JoinSpaced(ws) == ws[0] + [' '] + JoinSpaced(ws[1..]);
      assert ws == [ws[0]] + ws[1..];
    }
  }

  /** Joining whitespace-free words with single spaces gives a single-spaced string. */
  lemma {:induction false} JoinSpacedShape(ws: seq<string>)
    requires forall k :: 0 <= k < |ws| ==> |ws[k]| > 0 && All(ws[k], NotSpace)
    ensures SingleSpaced(JoinSpaced(ws))
    ensures JoinSpaced(ws) == [] <==> ws == []
  {
    if |ws| == 0 {
    } else if |ws| == 1 {
      assert !IsSpace(ws[0][0]) && !IsSpace(ws[0][|ws[0]| - 1]);
    } else {
      JoinSpacedShape(ws[1..]);
      assert JoinSpaced(ws) == ws[0] + " " + JoinSpaced(ws[1..]);
      SpacedPairShape(ws[0], JoinSpaced(ws[1..]));
    }
  }

  /** A whitespace-free word, a space and single-spaced text make single-spaced text. */
  lemma SpacedPairShape(w: string, rest: string)
    requires |w| > 0 && All(w, NotSpace)
    requires rest != [] && SingleSpaced(rest)
    ensures SingleSpaced(w + " " + rest)
  {
    var j := w + " " + rest;
    assert forall i :: 0 <= i < |w| ==> j[i] == w[i] && !IsSpace(j[i]);
    assert j[|w|] == ' ';
    assert forall i :: |w| < i < |j| ==> j[i] == rest[i - |w| - 1];
    forall i | 0 <= i < |j|
      ensures NoSpacePairAt(j, i)
    {
      if i > |w| {
        assert NoSpacePairAt(rest, i - |w| - 1);
      }
    }
  }

  /**
   `s.count(pat)`: occurrences of `pat` found left to right, each search
   resuming after the previous occurrence, so occurrences never overlap.
   */
  function Count(s: string, pat: string): (n: nat)
    requires |pat| > 0
    ensures n * |pat| <= |s|
    decreases |s|
  {
    if |s| < |pat| then 0
    else if s[..|pat|] == pat then
      var m := Count(s[|pat|..], pat);
      assert (1 + m) * |pat| == |pat| + m * |pat|;
      1 + m
    else Count(s[1..], pat)
  }

  /** `pat` occurs in `s` starting at index `k`. */
  predicate OccursAt(s: string, pat: string, k: int) {
    0 <= k && k + |pat| <= |s| && s[k..k + |pat|] == pat
  }

  /** An occurrence of `pat` is counted at least once. */
  lemma {:induction false} CountOccurrence(s: string, pat: string, k: int)
    requires |pat| > 0 && OccursAt(s, pat, k)
    ensures Count(s, pat) >= 1
    decreases |s|
  {
    if s[..|pat|] != pat {
      assert k != 0;
      assert s[1..][k - 1..k - 1 + |pat|] == s[k..k + |pat|];
      CountOccurrence(s[1..], pat, k - 1);
    }
  }

  /** A pattern using a character absent from `s` is never counted. */
  lemma {:induction false} CountAbsent(s: string, pat: string, c: char)
    requires |pat| > 0 && c in pat && c !in s
    ensures Count(s, pat) == 0
    decreases |s|
  {
    if |s| >= |pat| {
      assert c !in s[1..];
      CountAbsent(s[1..], pat, c);
    }
  }

  /** Counting a one-character pattern counts the occurrences of that character. */
  lemma {:induction false} CountSingle(s: string, c: char)
    ensures Count(s, [c]) == multiset(s)[c]
    decreases |s|
  {
    if s != [] {
      assert s == [s[0]] + s[1..];
      assert multiset(s) == multiset([s[0]]) + multiset(s[1..]);
      assert s[..1] == [s[0]];
      CountSingle(s[1..], c);
    }
  }
}
