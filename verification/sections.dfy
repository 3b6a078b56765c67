/** The two splitting steps of `preprocess_text`: the document into sections
    at blank lines (`re.split(r'\n\s*\n', text)`), and a section into sentences
    at runs of spaces that follow sentence punctuation
    (`re.split(r'(?<=[.!?]) +', section)`), with the filter that drops
    sentences of five words or fewer. */
module Sections {
  import opened PyStr

  // ---------------------------------------------------------------------
  // Sections: re.split(r'\n\s*\n', text)

  /** The last newline in `s[lo..hi]`, or -1. */
  function LastNewline(s: string, lo: nat, hi: nat): (k: int)
    requires lo <= hi <= |s|
    ensures k == -1 || lo <= k < hi
    ensures k >= 0 ==> s[k] == '\n'
    ensures forall m :: (if k < lo then lo else k + 1) <= m < hi ==> s[m] != '\n'
    decreases hi - lo
  {
    if lo == hi then -1
    else if s[hi - 1] == '\n' then hi - 1
    else LastNewline(s, lo, hi - 1)
  }

  /** `\n\s*\n` can start at `i`: a newline, then whitespace holding another
      newline. */
  predicate BlankLineAt(s: string, i: int) {
    0 <= i < |s| && s[i] == '\n' && LastNewline(s, i + 1, SpaceEnd(s, i + 1)) >= 0
  }

  /** The leftmost separator at or after `i`, or |s|. */
  function FirstBlankLine(s: string, i: nat): (j: nat)
    requires i <= |s|
    ensures i <= j <= |s|
    ensures j < |s| ==> BlankLineAt(s, j)
    ensures forall k :: i <= k < j ==> !BlankLineAt(s, k)
    decreases |s| - i
  {
    if i == |s| || BlankLineAt(s, i) then i else FirstBlankLine(s, i + 1)
  }

  /** The sections of a document. A separator runs from a newline to the
      last newline of the whitespace that follows it (the regex's greedy
      `\s*` backs off to that newline); whitespace after it stays with the
      next section. */
  function SplitSections(s: string): (sections: seq<string>)
    ensures |sections| >= 1
    decreases |s|
  {
    var i := FirstBlankLine(s, 0);
    if i == |s| then [s]
    else
      [s[..i]] + SplitSections(s[SeparatorEnd(s, i)..])
  }

  /** One past the last newline of the separator that starts at `i`: where
      the next section begins. */
  function SeparatorEnd(s: string, i: nat): (j: nat)
    requires BlankLineAt(s, i)
    ensures i + 1 < j <= |s|
  {
    LastNewline(s, i + 1, SpaceEnd(s, i + 1)) + 1
  }

  /** A blank line inside a prefix is a blank line of the whole string. */
  lemma BlankLinePrefix(s: string, m: nat, i: nat)
    requires m <= |s| && BlankLineAt(s[..m], i)
    ensures BlankLineAt(s, i)
  {
    var p := s[..m];
    var k := LastNewline(p, i + 1, SpaceEnd(p, i + 1));
    assert s[k] == '\n';
    var e := SpaceEnd(s, i + 1);
    assert forall q :: i + 1 <= q < SpaceEnd(p, i + 1) ==> IsSpace(s[q]);
    assert k < e;
  }

  /** The separator that starts at a blank line is whitespace only. */
  lemma SeparatorIsSpace(s: string, i: nat)
    requires BlankLineAt(s, i)
    ensures AllSpace(s[i..SeparatorEnd(s, i)])
  {
    var k := LastNewline(s, i + 1, SpaceEnd(s, i + 1));
    assert forall q :: i < q <= k ==> IsSpace(s[q]);
  }

  /** Splitting into sections loses no word. */
  lemma {:induction false} SplitSectionsWords(s: string)
    ensures WordsOfAll(SplitSections(s)) == Words(s)
    decreases |s|
  {
    var i, j := SplitSectionsUnfold(s);
    if i == |s| {
      assert WordsOfAll([s]) == Words(s) + WordsOfAll([]);
    } else {
      SeparatorIsSpace(s, i);
      var rest := s[j..];
      SplitSectionsWords(rest);
      SplitThree(s, i, j);
      WordsAroundSpace(s[..i], s[i..j], rest);
    }
  }

  /** No section contains a blank line. */
  predicate NoBlankLines(r: seq<string>) {
    forall n, i :: 0 <= n < |r| && 0 <= i < |r[n]| ==> !BlankLineAt(r[n], i)
  }

  /** The sections of any document are free of blank lines. */
  lemma {:induction false} SplitSectionsNoBlankLine(s: string)
    ensures NoBlankLines(SplitSections(s))
    decreases |s|
  {
    var i, j := SplitSectionsUnfold(s);
    FirstSectionClean(s, i);
    if i < |s| {
      SplitSectionsNoBlankLine(s[j..]);
      NoBlankLinesAppend([s[..i]], SplitSections(s[j..]));
    } else {
      assert s[..i] == s;
    }
  }

  /** The first step of the split, with the first section ending at `i`
      and the rest starting after `k`. */
  lemma SplitSectionsUnfold(s: string) returns (i: nat, j: nat)
    ensures i <= |s| && forall m :: 0 <= m < i ==> !BlankLineAt(s, m)
    ensures i == |s| ==> SplitSections(s) == [s]
    ensures i < |s| ==> BlankLineAt(s, i) && j == SeparatorEnd(s, i)
    ensures i < |s| ==> SplitSections(s) == [s[..i]] + SplitSections(s[j..])
  {
    i := FirstBlankLine(s, 0);
    if i < |s| {
      j := SeparatorEnd(s, i);
    } else {
      j := 0;
    }
  }

  /** The text before the first blank line holds none. */
  lemma FirstSectionClean(s: string, i: nat)
    requires i <= |s| && forall k :: 0 <= k < i ==> !BlankLineAt(s, k)
    ensures NoBlankLines([s[..i]])
  {
    forall j | 0 <= j < i
      ensures !BlankLineAt(s[..i], j)
    {
      if BlankLineAt(s[..i], j) {
        BlankLinePrefix(s, i, j);
      }
    }
  }

  lemma NoBlankLinesAppend(a: seq<string>, b: seq<string>)
    requires NoBlankLines(a) && NoBlankLines(b)
    ensures NoBlankLines(a + b)
  {
    forall n, j | 0 <= n < |a + b| && 0 <= j < |(a + b)[n]|
      ensures !BlankLineAt((a + b)[n], j)
    {
      if n >= |a| {
        assert (a + b)[n] == b[n - |a|];
      }
    }
  }

  /** `r[0] + seps[0] + r[1] + ... + seps[|seps| - 1] + r[|seps|]`: the
      pieces of a split put back together with the text cut out between them. */
  function Interleave(r: seq<string>, seps: seq<string>): string
    requires |r| == |seps| + 1
    decreases |seps|
  {
    if seps == [] then r[0] else r[0] + seps[0] + Interleave(r[1..], seps[1..])
  }

  /** The separators that `SplitSections` cuts out, in order. */
  function SectionSeparators(s: string): seq<string>
    decreases |s|
  {
    var i := FirstBlankLine(s, 0);
    if i == |s| then []
    else [s[i..SeparatorEnd(s, i)]] + SectionSeparators(s[SeparatorEnd(s, i)..])
  }

  /** A match of `\n\s*\n`: whitespace that starts and ends with a newline. */
  predicate SectionSeparator(sep: string) {
    |sep| >= 2 && sep[0] == '\n' && sep[|sep| - 1] == '\n' && AllSpace(sep)
  }

  /** The cuts `re.split` makes: every separator is a match, no match starts
      earlier inside the section before it (leftmost), and the section after
      it does not start with whitespace holding a newline (longest). */
  predicate SectionCuts(r: seq<string>, seps: seq<string>)
    requires |r| == |seps| + 1
  {
    forall n {:trigger seps[n]} :: 0 <= n < |seps| ==> SectionCutAt(r[n], seps[n], r[n + 1])
  }

  /** One cut: `sep` is a match, none starts earlier inside `before`, and
      `after` does not start with whitespace holding a newline. */
  predicate SectionCutAt(before: string, sep: string, after: string) {
    && SectionSeparator(sep)
    && (forall m :: 0 <= m < |before| ==> !BlankLineAt(before + sep, m))
    && LastNewline(after, 0, SpaceEnd(after, 0)) < 0
  }

  /** The sections and the separators between them rebuild the document,
      and the cuts are exactly the leftmost-longest matches of `\n\s*\n`. */
  lemma {:induction false} SplitSectionsCuts(s: string)
    ensures |SectionSeparators(s)| == |SplitSections(s)| - 1
    ensures s == Interleave(SplitSections(s), SectionSeparators(s))
    ensures SectionCuts(SplitSections(s), SectionSeparators(s))
    decreases |s|
  {
    var i, j := SplitSectionsUnfold(s);
    if i < |s| {
      var rest := s[j..];
      SplitSectionsCuts(rest);
      var r', seps' := SplitSections(rest), SectionSeparators(rest);
      assert SectionSeparators(s) == [s[i..j]] + seps';
      SplitThree(s, i, j);
      FirstCut(s, i, r'[0]);
      SectionCutsCons(s[..i], s[i..j], r', seps');
    }
  }

  /** The first cut of a document that has a blank line. */
  lemma FirstCut(s: string, i: nat, t: string)
    requires i < |s| && BlankLineAt(s, i) && forall m :: 0 <= m < i ==> !BlankLineAt(s, m)
    requires |t| <= |s| - SeparatorEnd(s, i)
    requires t == s[SeparatorEnd(s, i)..SeparatorEnd(s, i) + |t|]
    ensures SectionSeparator(s[i..SeparatorEnd(s, i)])
    ensures forall m :: 0 <= m < i ==> !BlankLineAt(s[..i] + s[i..SeparatorEnd(s, i)], m)
    ensures LastNewline(t, 0, SpaceEnd(t, 0)) < 0
  {
    var j := SeparatorEnd(s, i);
    SeparatorIsSpace(s, i);
    assert s[..i] + s[i..j] == s[..j];
    forall m | 0 <= m < i
      ensures !BlankLineAt(s[..j], m)
    {
      if BlankLineAt(s[..j], m) { BlankLinePrefix(s, j, m); }
    }
    SeparatorGreedy(s, i, t);
  }

  /** One more cut in front of a well-cut split. */
  lemma SectionCutsCons(r0: string, sep: string, r: seq<string>, seps: seq<string>)
    requires |r| == |seps| + 1 && SectionCuts(r, seps)
    requires SectionSeparator(sep)
    requires forall m :: 0 <= m < |r0| ==> !BlankLineAt(r0 + sep, m)
    requires LastNewline(r[0], 0, SpaceEnd(r[0], 0)) < 0
    ensures SectionCuts([r0] + r, [sep] + seps)
  {
    var r2, seps2 := [r0] + r, [sep] + seps;
    forall n | 0 <= n < |seps2|
      ensures SectionCutAt(r2[n], seps2[n], r2[n + 1])
    {
      if n > 0 {
        assert r2[n] == r[n - 1] && r2[n + 1] == r[n] && seps2[n] == seps[n - 1];
      } else {
        assert r2[1] == r[0];
      }
    }
  }

  /** The first section is a prefix of the document. */
  lemma FirstSectionPrefix(s: string)
    ensures |SplitSections(s)[0]| <= |s|
    ensures SplitSections(s)[0] == s[..|SplitSections(s)[0]|]
  {
    var i, j := SplitSectionsUnfold(s);
  }

  /** Whitespace right after a separator holds no newline: the separator
      took the last one. */
  lemma SeparatorGreedy(s: string, i: nat, t: string)
    requires BlankLineAt(s, i)
    requires |t| <= |s| - SeparatorEnd(s, i)
    requires t == s[SeparatorEnd(s, i)..SeparatorEnd(s, i) + |t|]
    ensures LastNewline(t, 0, SpaceEnd(t, 0)) < 0
  {
    var j := SeparatorEnd(s, i);
    var e := SpaceEnd(s, i + 1);
    forall q | 0 <= q < SpaceEnd(t, 0)
      ensures t[q] != '\n'
    {
      assert t[q] == s[j + q];
    }
  }

  // ---------------------------------------------------------------------
  // Sentences: re.split(r'(?<=[.!?]) +', section)

  predicate IsSentenceEnd(c: char) { c == '.' || c == '!' || c == '?' }

  /** A split point: a space right after sentence punctuation. */
  predicate SentenceBreakAt(s: string, i: int) {
    0 < i < |s| && s[i] == ' ' && IsSentenceEnd(s[i - 1])
  }

  /** The first split point at or after `i`, or |s|. */
  function FirstSentenceBreak(s: string, i: nat): (j: nat)
    requires i <= |s|
    ensures i <= j <= |s|
    ensures j < |s| ==> SentenceBreakAt(s, j)
    ensures forall k :: i <= k < j ==> !SentenceBreakAt(s, k)
    decreases |s| - i
  {
    if i == |s| || SentenceBreakAt(s, i) then i else FirstSentenceBreak(s, i + 1)
  }

  /** The sentences of a section: cut at every split point, dropping the
      whole run of spaces there. The regex's look-behind never matches at the
      start of the remainder, because the character before it is a space. */
  function SplitSentences(s: string): (sentences: seq<string>)
    ensures |sentences| >= 1
    decreases |s|
  {
    var i := FirstSentenceBreak(s, 0);
    if i == |s| then [s]
    else [s[..i]] + SplitSentences(s[CharRunEnd(s, i, ' ')..])
  }

  /** Splitting into sentences loses no word. */
  lemma {:induction false} SplitSentencesWords(s: string)
    ensures WordsOfAll(SplitSentences(s)) == Words(s)
    decreases |s|
  {
    var i := FirstSentenceBreak(s, 0);
    if i == |s| {
      assert WordsOfAll([s]) == Words(s) + WordsOfAll([]);
    } else {
      var j := CharRunEnd(s, i, ' ');
      var rest := s[j..];
      SplitSentencesWords(rest);
      var sep := s[i..j];
      assert AllSpace(sep);
      assert s == s[..i] + sep + rest;
      WordsAroundSpace(s[..i], sep, rest);
      assert SplitSentences(s) == [s[..i]] + SplitSentences(rest);
    }
  }

  /** Every sentence but the last ends in `.`, `!` or `?`, and no sentence
      contains a split point. */
  predicate SentencesShaped(r: seq<string>) {
    && (forall n :: 0 <= n < |r| - 1 ==> |r[n]| > 0 && IsSentenceEnd(r[n][|r[n]| - 1]))
    && (forall n, i :: 0 <= n < |r| && 0 <= i < |r[n]| ==> !SentenceBreakAt(r[n], i))
  }

  /** The sentences of any section are shaped that way. */
  lemma {:induction false} SplitSentencesShape(s: string)
    ensures SentencesShaped(SplitSentences(s))
    decreases |s|
  {
    var i := FirstSentenceBreak(s, 0);
    if i < |s| {
      var rest := s[CharRunEnd(s, i, ' ')..];
      SplitSentencesShape(rest);
      var r := SplitSentences(s);
      var t := SplitSentences(rest);
      assert SentencesShaped(t);
      assert r == [s[..i]] + t;
      forall n | 0 <= n < |r| - 1
        ensures |r[n]| > 0 && IsSentenceEnd(r[n][|r[n]| - 1])
      {
        if n > 0 {
          assert r[n] == t[n - 1];
          assert |t[n - 1]| > 0 && IsSentenceEnd(t[n - 1][|t[n - 1]| - 1]);
        } else {
          assert SentenceBreakAt(s, i);
        }
      }
      forall n, k | 0 <= n < |r|
        ensures !SentenceBreakAt(r[n], k)
      {
        if n == 0 {
          if SentenceBreakAt(s[..i], k) {
            assert SentenceBreakAt(s, k);
          }
        } else {
          assert r[n] == t[n - 1];
          assert !SentenceBreakAt(t[n - 1], k);
        }
      }
    }
  }

  /** The runs of spaces that `SplitSentences` cuts out, in order. */
  function SentenceSeparators(s: string): seq<string>
    decreases |s|
  {
    var i := FirstSentenceBreak(s, 0);
    if i == |s| then []
    else [s[i..CharRunEnd(s, i, ' ')]] + SentenceSeparators(s[CharRunEnd(s, i, ' ')..])
  }

  /** Every separator is a non-empty run of spaces (the ` +` of the regex),
      and it takes all of them: the next sentence does not start with one. */
  predicate SentenceCuts(r: seq<string>, seps: seq<string>)
    requires |r| == |seps| + 1
  {
    forall n {:trigger seps[n]} :: 0 <= n < |seps| ==> SentenceCutAt(seps[n], r[n + 1])
  }

  /** `sep` is a non-empty run of spaces and `after` does not start with one. */
  predicate SentenceCutAt(sep: string, after: string) {
    && |sep| > 0
    && (forall k :: 0 <= k < |sep| ==> sep[k] == ' ')
    && (after == [] || after[0] != ' ')
  }

  /** The sentences and the space runs between them rebuild the section;
      with `SplitSentencesShape` (each cut follows `.`, `!` or `?`, and none
      is missed inside a sentence) this pins every cut. */
  lemma {:induction false} SplitSentencesCuts(s: string)
    ensures |SentenceSeparators(s)| == |SplitSentences(s)| - 1
    ensures s == Interleave(SplitSentences(s), SentenceSeparators(s))
    ensures SentenceCuts(SplitSentences(s), SentenceSeparators(s))
    decreases |s|
  {
    var i := FirstSentenceBreak(s, 0);
    if i < |s| {
      var j := CharRunEnd(s, i, ' ');
      var rest := s[j..];
      SplitSentencesCuts(rest);
      var r, seps := SplitSentences(s), SentenceSeparators(s);
      var r', seps' := SplitSentences(rest), SentenceSeparators(rest);
      assert r == [s[..i]] + r' && seps == [s[i..j]] + seps';
      assert r[1..] == r' && seps[1..] == seps';
      SplitThree(s, i, j);
      FirstSentencePrefix(rest);
      forall n | 0 <= n < |seps|
        ensures SentenceCutAt(seps[n], r[n + 1])
      {
        if n == 0 {
          assert r[1] == r'[0];
          assert r'[0] != [] ==> r'[0][0] == rest[0];
        } else {
          assert r[n + 1] == r'[n] && seps[n] == seps'[n - 1];
        }
      }
    }
  }

  /** The first sentence is a prefix of the section. */
  lemma FirstSentencePrefix(s: string)
    ensures |SplitSentences(s)[0]| <= |s|
    ensures SplitSentences(s)[0] == s[..|SplitSentences(s)[0]|]
  {
  }

  // ---------------------------------------------------------------------
  // Short-sentence filter

  /** `[s for s in sentences if len(s.split()) > 5]`. */
  function LongSentences(sentences: seq<string>): (r: seq<string>)
    ensures forall x :: x in r <==> x in sentences && |Words(x)| > 5
    ensures forall x :: multiset(r)[x] == if |Words(x)| > 5 then multiset(sentences)[x] else 0
    ensures forall k :: 0 <= k < |r| ==> |Words(r[k])| > 5
    ensures IsSubseq(r, sentences)
  {
    if sentences == [] then []
    else
      var rest := LongSentences(sentences[1..]);
      assert sentences == [sentences[0]] + sentences[1..];
      if |Words(sentences[0])| > 5 then
        SubseqCons(sentences[0], rest, sentences[1..]);
        [sentences[0]] + rest
      else
        SubseqDrop(rest, sentences[0], sentences[1..]);
        rest
  }

  /** Step 2 of the section loop: split into sentences, keep those of more
      than five words, and rejoin them with single spaces. */
  function FilterShortSentences(section: string): (r: string)
  {
    JoinSpace(LongSentences(SplitSentences(section)))
  }

  /** The filtered section is the retained sentences, in their order, each
      with more than five words, and it holds exactly their words. */
  lemma FilterShortSentencesSpec(section: string)
    ensures var kept := LongSentences(SplitSentences(section));
      && FilterShortSentences(section) == JoinSpace(kept)
      && IsSubseq(kept, SplitSentences(section))
      && (forall k :: 0 <= k < |kept| ==> |Words(kept[k])| > 5)
      && Words(FilterShortSentences(section)) == WordsOfAll(kept)
  {
    WordsOfJoinAll(LongSentences(SplitSentences(section)));
  }
}
