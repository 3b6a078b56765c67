/** The extraction passes of the section loop of `preprocess_text` that
    move text out of a section into the question and summary lists: tutor
    marked assessments (step 3), conclusion and summary trailers (step 4),
    dot leaders of a table of contents (step 10) and text after "course
    objectives" (step 11). The case-insensitive regex searches of
    steps 3, 4 and 11 are given as functions of the current section; what
    the code does with their matches is modelled exactly. */
module Extraction {
  import opened PyStr
  import opened Passes

  datatype Option<T> = None | Some(value: T)

  /** A result, or the `IndexError` the section loop can raise. */
  datatype Result<T> = Ok(value: T) | Err(error: string)

  /** A section after a pass, and the fragments the pass took from it. */
  datatype Pass = Pass(section: string, found: seq<string>)

  // ---------------------------------------------------------------------
  // Step 3: tutor marked assessments

  /** The question in front of an assessment (lines 44-50): the text
      between the last `?` before the assessment's first occurrence and that
      occurrence. When the assessment no longer occurs, `find` gives -1 and
      the slices drop the section's last character. */
  function QuestionBefore(s: string, assessment: string): (q: string)
    ensures forall k :: 0 <= k < |q| ==> q[k] != '?'
  {
    var start := Find(s, assessment);
    var preceding := Slice(s, 0, start);
    var lastQm := RFind(preceding, '?');
    if lastQm != -1 then Slice(preceding, lastQm + 1, start) else Slice(preceding, 0, start)
  }

  /** When the assessment occurs, the question is the text right in front
      of its first occurrence, back to the section start or to the `?`
      before it. */
  lemma QuestionBeforeOccurs(s: string, assessment: string)
    requires Find(s, assessment) >= 0
    ensures var start := Find(s, assessment);
      var q := QuestionBefore(s, assessment);
      && |q| <= start
      && OccursAt(s, q + assessment, start - |q|)
      && (start - |q| == 0 || s[start - |q| - 1] == '?')
  {
    var start := Find(s, assessment);
    var preceding := Slice(s, 0, start);
    assert preceding == s[..start];
    var lastQm := RFind(preceding, '?');
    var from := if lastQm != -1 then lastQm + 1 else 0;
    assert QuestionBefore(s, assessment) == s[from..start];
    assert from == 0 || s[from - 1] == '?' by {
      if from > 0 {
        assert s[from - 1] == preceding[lastQm];
      }
    }
    QuestionInFront(s, assessment, from, start);
  }

  /** The text from the start or a `?` up to an occurrence, followed by it,
      occurs there. */
  lemma QuestionInFront(s: string, assessment: string, from: nat, start: nat)
    requires from <= start && OccursAt(s, assessment, start)
    requires from == 0 || s[from - 1] == '?'
    ensures var q := s[from..start];
      && |q| <= start
      && OccursAt(s, q + assessment, start - |q|)
      && (start - |q| == 0 || s[start - |q| - 1] == '?')
  {
    SliceJoin(s, from, start, start + |assessment|);
  }

  /** Lines 44-56 for one assessment: a question of at most `maxWords`
      words is recorded and every occurrence of it is deleted. */
  function TakeQuestion(p: Pass, assessment: string, maxWords: int): Pass {
    var relevant := QuestionBefore(p.section, assessment);
    if |Words(relevant)| <= maxWords then Pass(Replace(p.section, relevant), p.found + [relevant]) else p
  }

  /** Lines 42-56: the assessments of one round, in order. */
  function TutorRound(p: Pass, assessments: seq<string>, maxWords: int): Pass
    decreases |assessments|
  {
    if assessments == [] then p
    else TutorRound(TakeQuestion(p, assessments[0], maxWords), assessments[1..], maxWords)
  }

  /** Lines 35-56: `rounds` rounds, each over the assessments found in the
      section as the previous rounds left it. */
  function TutorRounds(p: Pass, rounds: nat, assessmentsOf: string -> seq<string>, maxWords: int): Pass
    decreases rounds
  {
    if rounds == 0 then p
    else TutorRounds(TutorRound(p, assessmentsOf(p.section), maxWords), rounds - 1, assessmentsOf, maxWords)
  }

  /** Lines 34-56. `marks` is the number of matches of the outer search on
      the section as it was on entry; for each of them the inner `findall`
      is run again on the current section. A question of at most `maxWords`
      words is recorded and every occurrence of it is deleted. */
  method TutorMarked(section: string, marks: nat, assessmentsOf: string -> seq<string>, maxWords: int)
    returns (p: Pass)
    ensures p == TutorRounds(Pass(section, []), marks, assessmentsOf, maxWords)
    ensures IsSubseq(p.section, section)
    ensures forall k :: 0 <= k < |p.found| ==>
              |Words(p.found[k])| <= maxWords && forall m :: 0 <= m < |p.found[k]| ==> p.found[k][m] != '?'
    ensures marks == 0 ==> p == Pass(section, [])
  {
    var s := section;
    var questions: seq<string> := [];
    for round := 0 to marks
      invariant TutorRounds(Pass(s, questions), marks - round, assessmentsOf, maxWords) ==
                TutorRounds(Pass(section, []), marks, assessmentsOf, maxWords)
    {
      var assessments := assessmentsOf(s);
      TutorRoundsStep(Pass(s, questions), marks - round, assessmentsOf, maxWords);
      assert assessments[0..] == assessments;
      for a := 0 to |assessments|
        invariant TutorRounds(TutorRound(Pass(s, questions), assessments[a..], maxWords), marks - round - 1, assessmentsOf, maxWords) ==
                  TutorRounds(Pass(section, []), marks, assessmentsOf, maxWords)
      {
        ghost var before := Pass(s, questions);
        TutorRoundStep(before, assessments, a, maxWords);
        var relevant := QuestionBefore(s, assessments[a]);
        if |Words(relevant)| <= maxWords {
          questions := questions + [relevant];
          s := Replace(s, relevant);
        }
        assert Pass(s, questions) == TakeQuestion(before, assessments[a], maxWords);
      }
      assert assessments[|assessments|..] == [];
    }
    p := Pass(s, questions);
    SubseqRefl(section);
    TutorRoundsShape(Pass(section, []), marks, assessmentsOf, section, maxWords);
  }

  lemma TutorRoundStep(p: Pass, assessments: seq<string>, a: int, maxWords: int)
    requires 0 <= a < |assessments|
    ensures TutorRound(p, assessments[a..], maxWords) ==
            TutorRound(TakeQuestion(p, assessments[a], maxWords), assessments[a + 1..], maxWords)
  {
    assert assessments[a..][1..] == assessments[a + 1..];
  }

  lemma TutorRoundsStep(p: Pass, rounds: nat, assessmentsOf: string -> seq<string>, maxWords: int)
    requires rounds > 0
    ensures TutorRounds(p, rounds, assessmentsOf, maxWords) ==
            TutorRounds(TutorRound(p, assessmentsOf(p.section), maxWords), rounds - 1, assessmentsOf, maxWords)
  {
  }

  /** What step 3 keeps true: the section is what is left of `section` after
      deletions, and every recorded question is short and holds no `?`. */
  predicate Questioned(p: Pass, section: string, maxWords: int) {
    IsSubseq(p.section, section) &&
    forall k :: 0 <= k < |p.found| ==>
      |Words(p.found[k])| <= maxWords && forall m :: 0 <= m < |p.found[k]| ==> p.found[k][m] != '?'
  }

  lemma TakeQuestionShape(p: Pass, assessment: string, section: string, maxWords: int)
    requires Questioned(p, section, maxWords)
    ensures Questioned(TakeQuestion(p, assessment, maxWords), section, maxWords)
  {
    var relevant := QuestionBefore(p.section, assessment);
    if |Words(relevant)| <= maxWords {
      ReplaceDeletes(p.section, relevant);
      SubseqTrans(Replace(p.section, relevant), p.section, section);
    }
  }

  lemma {:induction false} TutorRoundShape(p: Pass, assessments: seq<string>, section: string, maxWords: int)
    requires Questioned(p, section, maxWords)
    ensures Questioned(TutorRound(p, assessments, maxWords), section, maxWords)
    decreases |assessments|
  {
    if assessments != [] {
      TakeQuestionShape(p, assessments[0], section, maxWords);
      TutorRoundShape(TakeQuestion(p, assessments[0], maxWords), assessments[1..], section, maxWords);
    }
  }

  lemma {:induction false} TutorRoundsShape(p: Pass, rounds: nat, assessmentsOf: string -> seq<string>,
                                            section: string, maxWords: int)
    requires Questioned(p, section, maxWords)
    ensures Questioned(TutorRounds(p, rounds, assessmentsOf, maxWords), section, maxWords)
    decreases rounds
  {
    if rounds > 0 {
      TutorRoundShape(p, assessmentsOf(p.section), section, maxWords);
      TutorRoundsShape(TutorRound(p, assessmentsOf(p.section), maxWords), rounds - 1, assessmentsOf, section, maxWords);
    }
  }

  // ---------------------------------------------------------------------
  // Step 4: conclusion and summary

  /** A match of `\bterm\b\s*[^A-Za-z]`: where it starts and ends. */
  datatype Span = Span(start: nat, end: nat)

  /** A match of `\bterm\b\s*:?\s*(.*?)(?=\n|$)`: the whole match and the
      captured text. */
  datatype Capture = Capture(whole: string, text: string)

  /** The test of lines 67-69 on the current section: no letter right
      before the match and none right after it. The spans come from the
      section as it was before earlier deletions, so reading the character
      before a span can run past the end: that is an `IndexError`. */
  function StandsAlone(s: string, span: Span): (r: Result<bool>)
    ensures r.Err? <==> span.start > 0 && span.start - 1 >= |s|
    ensures r.Ok? ==> (r.value <==>
      (span.start == 0 || !IsAlpha(s[span.start - 1])) && (span.end >= |s| || !IsAlpha(s[span.end])))
  {
    if span.start > 0 && span.start - 1 >= |s| then Err("IndexError: string index out of range")
    else
      var preceding := if span.start > 0 then s[span.start - 1] else ' ';
      var following := if span.end < |s| then s[span.end] else ' ';
      Ok(!IsAlpha(preceding) && !IsAlpha(following))
  }

  /** Lines 65-78 for one span: the `IndexError` of the test, or the pass
      after it. When the span stands alone and the trailer search matches, a
      stripped trailer of at most `maxWords` words is recorded and every
      occurrence of the whole match is deleted. */
  function TakeTrailer(p: Pass, term: string, span: Span,
                       captureOf: (string, string) -> Option<Capture>, maxWords: int): Result<Pass>
  {
    match StandsAlone(p.section, span)
    case Err(e) => Err(e)
    case Ok(alone) =>
      if !alone || captureOf(term, p.section).None? then Ok(p)
      else
        var capture := captureOf(term, p.section).value;
        if |Words(Strip(capture.text))| <= maxWords
        then Ok(Pass(Replace(p.section, capture.whole), p.found + [Strip(capture.text)]))
        else Ok(p)
  }

  /** Lines 63-78: the spans of one label, in order, up to the first error. */
  function TermTrailers(p: Pass, term: string, spans: seq<Span>,
                        captureOf: (string, string) -> Option<Capture>, maxWords: int): Result<Pass>
    decreases |spans|
  {
    if spans == [] then Ok(p)
    else
      match TakeTrailer(p, term, spans[0], captureOf, maxWords)
      case Err(e) => Err(e)
      case Ok(q) => TermTrailers(q, term, spans[1..], captureOf, maxWords)
  }

  /** Lines 60-78: the labels in order, the spans of each taken from the
      section as the earlier labels left it. */
  function Trailers(p: Pass, terms: seq<string>, spansOf: (string, string) -> seq<Span>,
                    captureOf: (string, string) -> Option<Capture>, maxWords: int): Result<Pass>
    decreases |terms|
  {
    if terms == [] then Ok(p)
    else
      match TermTrailers(p, terms[0], spansOf(terms[0], p.section), captureOf, maxWords)
      case Err(e) => Err(e)
      case Ok(q) => Trailers(q, terms[1..], spansOf, captureOf, maxWords)
  }

  /** Lines 59-78. `terms` is the `findall` of the labels on the section on
      entry; for each label, `spansOf` gives the matches on the section at
      the start of that label's loop, and `captureOf` the search on the
      current section. A trailer of at most `maxWords` words is recorded,
      stripped, and its whole match is deleted. */
  method ConclusionSummary(section: string, terms: seq<string>,
                           spansOf: (string, string) -> seq<Span>,
                           captureOf: (string, string) -> Option<Capture>, maxWords: int)
    returns (r: Result<Pass>)
    ensures r == Trailers(Pass(section, []), terms, spansOf, captureOf, maxWords)
    ensures r.Ok? ==> IsSubseq(r.value.section, section)
    ensures r.Ok? ==> forall k :: 0 <= k < |r.value.found| ==>
              |Words(r.value.found[k])| <= maxWords && Trimmed(r.value.found[k])
    ensures terms == [] ==> r == Ok(Pass(section, []))
  {
    var s := section;
    var summary: seq<string> := [];
    for t := 0 to |terms|
      invariant Trailers(Pass(s, summary), terms[t..], spansOf, captureOf, maxWords) ==
                Trailers(Pass(section, []), terms, spansOf, captureOf, maxWords)
    {
      var term := terms[t];
      var spans := spansOf(term, s);
      TrailersStep(Pass(s, summary), terms, t, spansOf, captureOf, maxWords);
      assert spans[0..] == spans;
      for m := 0 to |spans|
        invariant ThenTrailers(TermTrailers(Pass(s, summary), term, spans[m..], captureOf, maxWords),
                               terms[t + 1..], spansOf, captureOf, maxWords) ==
                  Trailers(Pass(section, []), terms, spansOf, captureOf, maxWords)
      {
        ghost var before := Pass(s, summary);
        TermTrailersStep(before, term, spans, m, captureOf, maxWords);
        var alone := StandsAlone(s, spans[m]);
        if alone.Err? {
          return Err(alone.error);
        }
        if alone.value {
          var capture := captureOf(term, s);
          if capture.Some? {
            var text := Strip(capture.value.text);
            if |Words(text)| <= maxWords {
              summary := summary + [text];
              s := Replace(s, capture.value.whole);
            }
          }
        }
        assert TakeTrailer(before, term, spans[m], captureOf, maxWords) == Ok(Pass(s, summary));
      }
      assert spans[|spans|..] == [];
    }
    r := Ok(Pass(s, summary));
    assert terms[|terms|..] == [];
    SubseqRefl(section);
    TrailersShape(Pass(section, []), terms, spansOf, captureOf, section, maxWords);
  }

  /** One label of step 4: its spans on the current section, then the rest. */
  lemma TrailersStep(p: Pass, terms: seq<string>, t: int, spansOf: (string, string) -> seq<Span>,
                     captureOf: (string, string) -> Option<Capture>, maxWords: int)
    requires 0 <= t < |terms|
    ensures Trailers(p, terms[t..], spansOf, captureOf, maxWords) ==
            ThenTrailers(TermTrailers(p, terms[t], spansOf(terms[t], p.section), captureOf, maxWords),
                         terms[t + 1..], spansOf, captureOf, maxWords)
  {
    assert terms[t..][1..] == terms[t + 1..];
  }

  /** One span of a label: its test and trailer, then the rest. */
  lemma TermTrailersStep(p: Pass, term: string, spans: seq<Span>, m: int,
                         captureOf: (string, string) -> Option<Capture>, maxWords: int)
    requires 0 <= m < |spans|
    ensures TermTrailers(p, term, spans[m..], captureOf, maxWords) ==
            match TakeTrailer(p, term, spans[m], captureOf, maxWords)
            case Err(e) => Err(e)
            case Ok(q) => TermTrailers(q, term, spans[m + 1..], captureOf, maxWords)
  {
    assert spans[m..][1..] == spans[m + 1..];
  }

  /** What step 4 keeps true: the section is what is left of `section`
      after deletions, and every recorded trailer is stripped and short. */
  predicate Summarised(p: Pass, section: string, maxWords: int) {
    IsSubseq(p.section, section) &&
    forall k :: 0 <= k < |p.found| ==> |Words(p.found[k])| <= maxWords && Trimmed(p.found[k])
  }

  lemma TakeTrailerShape(p: Pass, term: string, span: Span, captureOf: (string, string) -> Option<Capture>,
                         section: string, maxWords: int)
    requires Summarised(p, section, maxWords)
    ensures TakeTrailer(p, term, span, captureOf, maxWords).Ok? ==>
            Summarised(TakeTrailer(p, term, span, captureOf, maxWords).value, section, maxWords)
  {
    var capture := captureOf(term, p.section);
    if capture.Some? {
      ReplaceDeletes(p.section, capture.value.whole);
      SubseqTrans(Replace(p.section, capture.value.whole), p.section, section);
    }
  }

  lemma {:induction false} TermTrailersShape(p: Pass, term: string, spans: seq<Span>,
                                             captureOf: (string, string) -> Option<Capture>,
                                             section: string, maxWords: int)
    requires Summarised(p, section, maxWords)
    ensures TermTrailers(p, term, spans, captureOf, maxWords).Ok? ==>
            Summarised(TermTrailers(p, term, spans, captureOf, maxWords).value, section, maxWords)
    decreases |spans|
  {
    if spans != [] {
      TakeTrailerShape(p, term, spans[0], captureOf, section, maxWords);
      var r := TakeTrailer(p, term, spans[0], captureOf, maxWords);
      if r.Ok? {
        TermTrailersShape(r.value, term, spans[1..], captureOf, section, maxWords);
      }
    }
  }

  lemma {:induction false} TrailersShape(p: Pass, terms: seq<string>, spansOf: (string, string) -> seq<Span>,
                                         captureOf: (string, string) -> Option<Capture>,
                                         section: string, maxWords: int)
    requires Summarised(p, section, maxWords)
    ensures Trailers(p, terms, spansOf, captureOf, maxWords).Ok? ==>
            Summarised(Trailers(p, terms, spansOf, captureOf, maxWords).value, section, maxWords)
    decreases |terms|
  {
    if terms != [] {
      TermTrailersShape(p, terms[0], spansOf(terms[0], p.section), captureOf, section, maxWords);
      var r := TermTrailers(p, terms[0], spansOf(terms[0], p.section), captureOf, maxWords);
      if r.Ok? {
        TrailersShape(r.value, terms[1..], spansOf, captureOf, section, maxWords);
      }
    }
  }

  /** The rest of step 4 after one label: stop at an error, otherwise go
      on with the later labels. */
  function ThenTrailers(r: Result<Pass>, terms: seq<string>, spansOf: (string, string) -> seq<Span>,
                        captureOf: (string, string) -> Option<Capture>, maxWords: int): Result<Pass>
  {
    match r
    case Err(e) => Err(e)
    case Ok(q) => Trailers(q, terms, spansOf, captureOf, maxWords)
  }

  // ---------------------------------------------------------------------
  // Step 10: table of contents

  predicate AllDots(s: string) {
    forall k :: 0 <= k < |s| ==> s[k] == '.'
  }

  /** A string of dots is one word, or none when it is empty. */
  lemma DotsWords(s: string)
    requires AllDots(s)
    ensures s == [] ==> Words(s) == []
    ensures s != [] ==> Words(s) == [s]
  {
    if s != [] {
      WordsOfWord(s);
    }
  }

  function Reversed<T>(s: seq<T>): (r: seq<T>)
    ensures |r| == |s|
    ensures forall k :: 0 <= k < |s| ==> r[k] == s[|s| - 1 - k]
  {
    if s == [] then [] else [s[|s| - 1]] + Reversed(s[..|s| - 1])
  }

  /** Inserting at the front is appending to the reversed list. */
  lemma ReversedSnoc<T>(s: seq<T>, x: T)
    ensures Reversed(s + [x]) == [x] + Reversed(s)
  {
    assert (s + [x])[..|s|] == s;
  }

  /** Lines 106-109: the dots from `start` on in the current section,
      empty when `start` lies past its end. */
  function DotRun(s: string, start: nat): string {
    Slice(s, start, if start <= |s| then CharRunEnd(s, start, '.') else start)
  }

  /** Lines 105-113 for one start: a region of at most `maxWords` words is
      recorded and every occurrence of it is deleted. */
  function TakeRegion(p: Pass, start: nat, maxWords: int): Pass {
    var region := DotRun(p.section, start);
    if |Words(region)| <= maxWords then Pass(Replace(p.section, region), p.found + [region]) else p
  }

  /** Lines 104-113: the starts in order; `found` lists the regions taken,
      earliest first. */
  function TocRegions(p: Pass, starts: seq<nat>, maxWords: int): Pass
    decreases |starts|
  {
    if starts == [] then p else TocRegions(TakeRegion(p, starts[0], maxWords), starts[1..], maxWords)
  }

  /** Lines 102-113. The starts come from the section on entry; the run of
      dots is measured again on the current section, from which earlier
      regions may already have been deleted. Each region of at most
      `maxWords` words is inserted at the front of the summary list and
      every occurrence of it is deleted. */
  method TableOfContents(section: string, maxWords: int, summary: seq<string>)
    returns (section': string, summary': seq<string>, regions: seq<string>)
    ensures Pass(section', regions) == TocRegions(Pass(section, []), DotLeaders(section), maxWords)
    ensures summary' == Reversed(regions) + summary
    ensures forall k :: 0 <= k < |regions| ==> AllDots(regions[k]) && |Words(regions[k])| <= maxWords
    ensures IsSubseq(section', section)
    ensures maxWords >= 1 ==> |regions| == |DotLeaders(section)|
    ensures maxWords < 0 ==> regions == [] && section' == section
  {
    var starts := DotLeaders(section);
    section', summary', regions := ScanLeaders(section, starts, maxWords, summary);
    TocRegionsShape(Pass(section, []), starts, maxWords);
  }

  /** Lines 104-113: the loop over the starts, which the caller finds on
      the section on entry. */
  method ScanLeaders(section: string, starts: seq<nat>, maxWords: int, summary: seq<string>)
    returns (section': string, summary': seq<string>, regions: seq<string>)
    ensures Pass(section', regions) == TocRegions(Pass(section, []), starts, maxWords)
    ensures summary' == Reversed(regions) + summary
  {
    section', summary', regions := section, summary, [];
    assert starts[0..] == starts;
    for m := 0 to |starts|
      invariant TocRegions(Pass(section', regions), starts[m..], maxWords) ==
                TocRegions(Pass(section, []), starts, maxWords)
      invariant summary' == Reversed(regions) + summary
    {
      var tocStart := starts[m];
      var tocEnd := MeasureDots(section', tocStart);
      var region := Slice(section', tocStart, tocEnd);
      ScanStep(section', regions, starts, m, tocEnd, maxWords);
      if |Words(region)| <= maxWords {
        ReversedSnoc(regions, region);
        summary' := [region] + summary';
        regions := regions + [region];
        section' := Replace(section', region);
      }
    }
    assert starts[|starts|..] == [];
  }

  /** The scan only appends regions of dots within the word limit, only
      deletes from the section, takes every region when the limit is one or
      more, and changes nothing when it is negative. */
  lemma {:induction false} TocRegionsShape(p: Pass, starts: seq<nat>, maxWords: int)
    ensures var q := TocRegions(p, starts, maxWords);
      && |p.found| <= |q.found| && q.found[..|p.found|] == p.found
      && (forall k :: |p.found| <= k < |q.found| ==> AllDots(q.found[k]) && |Words(q.found[k])| <= maxWords)
      && IsSubseq(q.section, p.section)
      && (maxWords >= 1 ==> |q.found| == |p.found| + |starts|)
      && (maxWords < 0 ==> q == p)
    decreases |starts|
  {
    if starts == [] {
      SubseqRefl(p.section);
    } else {
      var p' := TakeRegion(p, starts[0], maxWords);
      TocRegionsShape(p', starts[1..], maxWords);
      TakeRegionShape(p, starts[0], maxWords);
      var q := TocRegions(p', starts[1..], maxWords);
      SubseqTrans(q.section, p'.section, p.section);
      assert q.found[..|p'.found|][..|p.found|] == q.found[..|p.found|];
    }
  }

  /** One start: the section only loses characters, and the found list
      grows by at most one region of dots within the limit. */
  lemma TakeRegionShape(p: Pass, start: nat, maxWords: int)
    ensures var q := TakeRegion(p, start, maxWords);
      && IsSubseq(q.section, p.section)
      && (q.found == p.found || (q.found == p.found + [DotRun(p.section, start)] &&
                                 AllDots(DotRun(p.section, start)) && |Words(DotRun(p.section, start))| <= maxWords))
      && (maxWords >= 1 ==> |q.found| == |p.found| + 1)
      && (maxWords < 0 ==> q == p)
  {
    var region := DotRun(p.section, start);
    DotRunDots(p.section, start);
    DotsWords(region);
    ReplaceDeletes(p.section, region);
    SubseqRefl(p.section);
  }

  /** One round of the loop of `ScanLeaders`, with the end of the run as
      `MeasureDots` gives it. */
  lemma ScanStep(s: string, regions: seq<string>, starts: seq<nat>, m: int, end: nat, maxWords: int)
    requires 0 <= m < |starts|
    requires end == if starts[m] <= |s| then CharRunEnd(s, starts[m], '.') else starts[m]
    ensures var region := Slice(s, starts[m], end);
      TocRegions(Pass(s, regions), starts[m..], maxWords) ==
      if |Words(region)| <= maxWords
      then TocRegions(Pass(Replace(s, region), regions + [region]), starts[m + 1..], maxWords)
      else TocRegions(Pass(s, regions), starts[m + 1..], maxWords)
  {
    TocRegionsStep(Pass(s, regions), starts, m, maxWords);
  }

  /** One start of the scan. */
  lemma TocRegionsStep(p: Pass, starts: seq<nat>, m: nat, maxWords: int)
    requires m < |starts|
    ensures TocRegions(p, starts[m..], maxWords) == TocRegions(TakeRegion(p, starts[m], maxWords), starts[m + 1..], maxWords)
  {
    assert starts[m..][1..] == starts[m + 1..];
  }

  lemma DotRunDots(s: string, start: nat)
    ensures AllDots(DotRun(s, start))
  {
    var end := if start <= |s| then CharRunEnd(s, start, '.') else start;
    if start < end {
      assert DotRun(s, start) == s[start..end];
    }
  }

  /** Lines 106-108: the end of the run of dots from `start` on in the
      current section, which is `start` itself when `start` lies past the
      end. The slice between the two is all dots. */
  method MeasureDots(s: string, start: nat) returns (end: nat)
    ensures end == if start <= |s| then CharRunEnd(s, start, '.') else start
    ensures AllDots(Slice(s, start, end))
  {
    end := start;
    while end < |s| && s[end] == '.'
      invariant start <= end
      invariant start < end ==> end <= |s|
      invariant forall k :: start <= k < end ==> k < |s| && s[k] == '.'
      invariant start <= |s| ==> end <= |s| && CharRunEnd(s, end, '.') == CharRunEnd(s, start, '.')
      decreases |s| - end
    {
      end := end + 1;
    }
    assert AllDots(Slice(s, start, end)) by {
      if start < end {
        assert Slice(s, start, end) == s[start..end];
      }
    }
  }

  // ---------------------------------------------------------------------
  // Step 11: course objectives

  /** `[x.strip() for x in xs]`. */
  function StripAll(xs: seq<string>): (r: seq<string>)
    ensures |r| == |xs|
    ensures forall k :: 0 <= k < |xs| ==> r[k] == Strip(xs[k])
  {
    seq(|xs|, k requires 0 <= k < |xs| => Strip(xs[k]))
  }

  /** `s` after `s = s.replace(p, '')` for each `p` of `ps` in turn. */
  function ReplaceAll(s: string, ps: seq<string>): string
    decreases |ps|
  {
    if ps == [] then s else ReplaceAll(Replace(s, ps[0]), ps[1..])
  }

  /** Lines 116-121: each captured text is appended, stripped, to the
      summary list, and every occurrence of the unstripped text is deleted
      from the section. */
  method CourseObjectives(section: string, objectives: seq<string>, summary: seq<string>)
    returns (section': string, summary': seq<string>)
    ensures section' == ReplaceAll(section, objectives)
    ensures summary' == summary + StripAll(objectives)
    ensures |summary'| == |summary| + |objectives|
    ensures summary'[..|summary|] == summary
    ensures forall k :: 0 <= k < |objectives| ==> summary'[|summary| + k] == Strip(objectives[k])
    ensures forall k :: |summary| <= k < |summary'| ==> Trimmed(summary'[k])
    ensures IsSubseq(section', section)
  {
    section', summary' := section, summary;
    SubseqRefl(section);
    for m := 0 to |objectives|
      invariant ReplaceAll(section', objectives[m..]) == ReplaceAll(section, objectives)
      invariant |summary'| == |summary| + m
      invariant summary'[..|summary|] == summary
      invariant forall k :: 0 <= k < m ==> summary'[|summary| + k] == Strip(objectives[k])
      invariant forall k :: |summary| <= k < |summary'| ==> Trimmed(summary'[k])
      invariant IsSubseq(section', section)
    {
      assert objectives[m..][1..] == objectives[m + 1..];
      summary' := summary' + [Strip(objectives[m])];
      ReplaceDeletes(section', objectives[m]);
      SubseqTrans(Replace(section', objectives[m]), section', section);
      section' := Replace(section', objectives[m]);
    }
    assert summary' == summary + StripAll(objectives);
  }
}
