/** `preprocess_text`: splits a document into sections, runs the reduction
    passes over each section in order, collects the questions and summary
    fragments the passes take out, and keeps the first 60% of the words of
    the reduced sections. */
module Preprocessing {
  import opened PyStr
  import opened Sections
  import opened Passes
  import opened CloseSentences
  import opened Extraction

  /** The `preprocessing` settings the passes read. The two proximities
      are repeat counts inside a pattern. */
  datatype Config = Config(
    tutorMarkedMaxWords: int,
    summaryMaxWords: int,
    numberProximity: nat,
    commonWordsThreshold: int,
    capitalProximity: nat,
    tocMaxWords: int)

  /** The case-insensitive searches, each as a function of the text
      it runs on: the number of outer tutor-marked matches (line 34), the
      assessments (line 40), the conclusion and summary labels (line 59),
      the spans of a label (line 62), the trailer of a label (line 72) and
      the course objectives (line 117). */
  datatype Matchers = Matchers(
    tutorMarks: string -> nat,
    assessments: string -> seq<string>,
    labels: string -> seq<string>,
    labelSpans: (string, string) -> seq<Span>,
    labelCapture: (string, string) -> Option<Capture>,
    courseObjectives: string -> seq<string>)

  /** What one section gives: its reduced text, the questions taken from
      it, the table-of-contents regions that go to the front of the summary
      list, and the fragments that go to its back. */
  datatype SectionResult = SectionResult(text: string, questions: seq<string>,
                                         front: seq<string>, back: seq<string>)

  /** What the whole document gives: the selected text, the question list,
      the summary list, and the reduced sections the selection is made from. */
  datatype Preprocessed = Preprocessed(selected: string, questions: seq<string>,
                                       summary: seq<string>, processed: seq<string>)

  /** The only whitespace is the plain space. */
  predicate PlainSpaces(s: string) {
    forall k :: 0 <= k < |s| && IsSpace(s[k]) ==> s[k] == ' '
  }

  /** A question as step 3 records it. */
  predicate QuestionOk(q: string, cfg: Config) {
    |Words(q)| <= cfg.tutorMarkedMaxWords && forall m :: 0 <= m < |q| ==> q[m] != '?'
  }

  /** Steps 5, 6, 7 and 9 (lines 81-99) as functions of the section: the
      upper-case runs taken out of the section after the whitespace, number
      and close-sentence passes. */
  function Tidy(section: string, cfg: Config): Extracted {
    var spaced := NormalizeWhitespace(section);
    var numbers := DeleteNumbers(spaced, cfg.numberProximity);
    var distinct := JoinSpace(Kept(SplitSentences(numbers), "", cfg.commonWordsThreshold));
    ExtractCapitals(distinct, cfg.capitalProximity)
  }

  /** What steps 2 to 11 (lines 26-121) make of one section: the `IndexError`
      of step 4, or the reduced text, the questions of step 3, the step 10
      regions latest first, and the fragments of steps 4, 9 and 11 in the
      order they are appended. */
  function SectionSpec(section: string, cfg: Config, m: Matchers): Result<SectionResult> {
    var filtered := FilterShortSentences(section);
    var tutor := TutorRounds(Pass(filtered, []), m.tutorMarks(filtered), m.assessments, cfg.tutorMarkedMaxWords);
    match Trailers(Pass(tutor.section, []), m.labels(tutor.section), m.labelSpans, m.labelCapture, cfg.summaryMaxWords)
    case Err(e) => Err(e)
    case Ok(labelled) => Ok(Finish(labelled, tutor.found, cfg, m))
  }

  /** Steps 5 to 11 (lines 81-121) after step 4 left `labelled`, with the
      questions of step 3. */
  function Finish(labelled: Pass, questions: seq<string>, cfg: Config, m: Matchers): SectionResult {
    var tidy := Tidy(labelled.section, cfg);
    var toc := TocRegions(Pass(tidy.rest, []), DotLeaders(tidy.rest), cfg.tocMaxWords);
    var objectives := m.courseObjectives(toc.section);
    SectionResult(ReplaceAll(toc.section, objectives), questions, Reversed(toc.found),
                  labelled.found + tidy.found + StripAll(objectives))
  }

  /** Steps 2 to 11 of the section loop (lines 26-121). The fragments step 4,
      step 9 and step 11 append come back in `back`; the regions step 10
      inserts at index 0 come back in `front`, latest first. */
  method ProcessSection(section: string, cfg: Config, m: Matchers) returns (r: Result<SectionResult>)
    ensures r == SectionSpec(section, cfg, m)
    ensures r.Ok? ==> PlainSpaces(r.value.text)
    ensures r.Ok? ==> forall k :: 0 <= k < |r.value.questions| ==> QuestionOk(r.value.questions[k], cfg)
    ensures r.Ok? ==> forall k :: 0 <= k < |r.value.front| ==>
              AllDots(r.value.front[k]) && |Words(r.value.front[k])| <= cfg.tocMaxWords
    ensures r.Ok? && cfg.tocMaxWords < 0 ==> r.value.front == []
    ensures r.Ok? ==> forall k :: 0 <= k < |r.value.back| ==> Trimmed(r.value.back[k])
  {
    // 2. sentences of more than five words
    var s := FilterShortSentences(section);
    // 3. tutor marked assessments
    var tutor := TutorMarked(s, m.tutorMarks(s), m.assessments, cfg.tutorMarkedMaxWords);
    s := tutor.section;
    // 4. conclusion and summary
    var labelled := ConclusionSummary(s, m.labels(s), m.labelSpans, m.labelCapture, cfg.summaryMaxWords);
    if labelled.Err? {
      return Err(labelled.error);
    }
    var x := FinishSection(labelled.value, tutor.found, cfg, m);
    r := Ok(x);
  }

  /** Steps 5 to 11 of the section loop (lines 81-121). */
  method FinishSection(labelled: Pass, questions: seq<string>, cfg: Config, m: Matchers) returns (x: SectionResult)
    requires forall k :: 0 <= k < |labelled.found| ==> Trimmed(labelled.found[k])
    ensures x == Finish(labelled, questions, cfg, m)
    ensures PlainSpaces(x.text)
    ensures forall k :: 0 <= k < |x.front| ==> AllDots(x.front[k]) && |Words(x.front[k])| <= cfg.tocMaxWords
    ensures cfg.tocMaxWords < 0 ==> x.front == []
    ensures forall k :: 0 <= k < |x.back| ==> Trimmed(x.back[k])
  {
    var tidy, runs := TidySection(labelled.section, cfg);
    CapitalRunsTrimmed(runs);
    var text, front, back := TableAndObjectives(tidy, cfg, m, labelled.found + runs);
    x := SectionResult(text, questions, front, back);
  }

  /** Steps 5, 6, 7 and 9: whitespace, numbers, close sentences and
      upper-case runs. Afterwards the only whitespace is the plain space. */
  method TidySection(section: string, cfg: Config) returns (s: string, runs: seq<string>)
    ensures Extracted(s, runs) == Tidy(section, cfg)
    ensures PlainSpaces(s)
    ensures forall k :: 0 <= k < |runs| ==> CapitalRun(runs[k])
  {
    // 5. whitespace
    s := NormalizeWhitespace(section);
    NormalizeWhitespaceSpec(section);
    // 6. numbers
    var n := DeleteNumbers(s, cfg.numberProximity);
    DeleteNumbersKeeps(s, 0, cfg.numberProximity);
    assert s[0..] == s;
    PlainSubseq(n, s);
    // 7. close sentences
    s := DiscardCloseSentences(n, cfg.commonWordsThreshold);
    DiscardKeepsPlain(n, cfg.commonWordsThreshold);
    // 9. upper-case runs
    var caps := ExtractCapitals(s, cfg.capitalProximity);
    ExtractCapitalsFromSpec(s, 0, cfg.capitalProximity);
    assert s[0..] == s;
    PlainSubseq(caps.rest, s);
    s, runs := caps.rest, caps.found;
  }

  /** Steps 10 and 11 on a section whose summary fragments so far are
      `back`: the table-of-contents regions, latest first, and the list
      with the course objectives appended. */
  method TableAndObjectives(section: string, cfg: Config, m: Matchers, back: seq<string>)
    returns (s: string, front: seq<string>, back': seq<string>)
    requires PlainSpaces(section)
    requires forall k :: 0 <= k < |back| ==> Trimmed(back[k])
    ensures var toc := TocRegions(Pass(section, []), DotLeaders(section), cfg.tocMaxWords);
      var objectives := m.courseObjectives(toc.section);
      && front == Reversed(toc.found)
      && s == ReplaceAll(toc.section, objectives)
      && back' == back + StripAll(objectives)
    ensures PlainSpaces(s)
    ensures forall k :: 0 <= k < |front| ==> AllDots(front[k]) && |Words(front[k])| <= cfg.tocMaxWords
    ensures cfg.tocMaxWords < 0 ==> front == []
    ensures forall k :: 0 <= k < |back'| ==> Trimmed(back'[k])
  {
    var regions;
    s, front, regions := TableOfContents(section, cfg.tocMaxWords, []);
    assert front == Reversed(regions);
    PlainSubseq(s, section);
    var t := s;
    s, back' := CourseObjectives(t, m.courseObjectives(t), back);
    PlainSubseq(s, t);
    assert forall k :: 0 <= k < |back| ==> back'[k] == back'[..|back|][k];
  }

  /** The questions of the sections in order. */
  function Questions(rs: seq<SectionResult>): seq<string> {
    if rs == [] then [] else Questions(rs[..|rs| - 1]) + rs[|rs| - 1].questions
  }

  /** The step 10 regions of all sections: each section's go in front of
      those of the sections before it. */
  function Fronts(rs: seq<SectionResult>): seq<string> {
    if rs == [] then [] else rs[|rs| - 1].front + Fronts(rs[..|rs| - 1])
  }

  /** The fragments that steps 4, 9 and 11 append, section by section. */
  function Backs(rs: seq<SectionResult>): seq<string> {
    if rs == [] then [] else Backs(rs[..|rs| - 1]) + rs[|rs| - 1].back
  }

  /** `SectionSpec` with the configuration and the matchers fixed. */
  function SpecOf(cfg: Config, m: Matchers): (spec: string -> Result<SectionResult>)
    ensures forall section :: spec(section) == SectionSpec(section, cfg, m)
  {
    section => SectionSpec(section, cfg, m)
  }

  /** The first `|results|` sections succeed under `spec`, with these results. */
  predicate SectionsSucceed(sections: seq<string>, spec: string -> Result<SectionResult>, results: seq<SectionResult>) {
    |results| <= |sections| &&
    forall k :: 0 <= k < |results| ==> spec(sections[k]) == Ok(results[k])
  }

  lemma SucceedNext(sections: seq<string>, spec: string -> Result<SectionResult>, results: seq<SectionResult>, x: SectionResult)
    requires SectionsSucceed(sections, spec, results) && |results| < |sections|
    requires spec(sections[|results|]) == Ok(x)
    ensures SectionsSucceed(sections, spec, results + [x])
  {
    var rs := results + [x];
    forall k | 0 <= k < |rs|
      ensures spec(sections[k]) == Ok(rs[k])
    {
      if k < |results| {
        assert rs[k] == results[k];
      }
    }
  }

  /** The section after the successful ones fails: it is the first that does. */
  lemma FirstFailure(sections: seq<string>, spec: string -> Result<SectionResult>, results: seq<SectionResult>, e: string)
    requires SectionsSucceed(sections, spec, results) && |results| < |sections|
    requires spec(sections[|results|]) == Err(e)
    ensures exists k :: 0 <= k < |sections| && spec(sections[k]) == Err(e) &&
                        forall j :: 0 <= j < k ==> spec(sections[j]).Ok?
  {
    var k := |results|;
    assert forall j :: 0 <= j < k ==> spec(sections[j]).Ok?;
  }

  /** The lists the loop has built from the results so far: the reduced
      texts are theirs, the questions are theirs in order, and the summary
      list is their regions (latest section first) followed by their other
      fragments in order. */
  predicate Collected(processed: seq<string>, questions: seq<string>, summary: seq<string>,
                      results: seq<SectionResult>)
  {
    && |processed| == |results|
    && (forall k :: 0 <= k < |results| ==> processed[k] == results[k].text)
    && questions == Questions(results)
    && summary == Fronts(results) + Backs(results)
  }

  /** One more result keeps `Collected`. */
  lemma CollectedNext(processed: seq<string>, questions: seq<string>, summary: seq<string>,
                      results: seq<SectionResult>, x: SectionResult)
    requires Collected(processed, questions, summary, results)
    ensures Collected(processed + [x.text], questions + x.questions, x.front + summary + x.back, results + [x])
  {
    assert (results + [x])[..|results|] == results;
  }

  /** What every section result satisfies, by the contract of `ProcessSection`. */
  predicate ResultShaped(x: SectionResult, cfg: Config) {
    && PlainSpaces(x.text)
    && (forall k :: 0 <= k < |x.questions| ==> QuestionOk(x.questions[k], cfg))
    && (forall k :: 0 <= k < |x.front| ==> Trimmed(x.front[k]))
    && (forall k :: 0 <= k < |x.back| ==> Trimmed(x.back[k]))
  }

  /** The contract of `ProcessSection` gives `ResultShaped`: a string of dots is trimmed. */
  lemma ResultShapedFrom(x: SectionResult, cfg: Config)
    requires PlainSpaces(x.text)
    requires forall k :: 0 <= k < |x.questions| ==> QuestionOk(x.questions[k], cfg)
    requires forall k :: 0 <= k < |x.front| ==> AllDots(x.front[k])
    requires forall k :: 0 <= k < |x.back| ==> Trimmed(x.back[k])
    ensures ResultShaped(x, cfg)
  {
    forall k | 0 <= k < |x.front|
      ensures Trimmed(x.front[k])
    {
      var d := x.front[k];
      if d != [] {
        assert d[0] == '.' && d[|d| - 1] == '.';
      }
    }
  }

  /** The shape of the lists the loop builds. */
  predicate ListsShaped(processed: seq<string>, questions: seq<string>, summary: seq<string>, cfg: Config) {
    && (forall k :: 0 <= k < |processed| ==> PlainSpaces(processed[k]))
    && (forall k :: 0 <= k < |questions| ==> QuestionOk(questions[k], cfg))
    && (forall k :: 0 <= k < |summary| ==> Trimmed(summary[k]))
  }

  lemma ListsShapedNext(processed: seq<string>, questions: seq<string>, summary: seq<string>,
                        cfg: Config, x: SectionResult)
    requires ListsShaped(processed, questions, summary, cfg) && ResultShaped(x, cfg)
    ensures ListsShaped(processed + [x.text], questions + x.questions, x.front + summary + x.back, cfg)
  {
  }

  /** The loop over the sections (lines 17-25 and 123) and the selection
      (lines 136-138). Questions are appended in order; each section's
      table-of-contents regions go in front of the summary list and its
      other fragments behind it. */
  method PreprocessText(text: string, cfg: Config, m: Matchers)
    returns (r: Result<Preprocessed>, ghost results: seq<SectionResult>)
    ensures r.Ok? ==> |results| == |SplitSections(text)| && SectionsSucceed(SplitSections(text), SpecOf(cfg, m), results)
    ensures r.Ok? ==> Collected(r.value.processed, r.value.questions, r.value.summary, results)
    ensures r.Err? ==> exists k :: (0 <= k < |SplitSections(text)| &&
      SpecOf(cfg, m)(SplitSections(text)[k]) == Err(r.error) &&
      forall j :: 0 <= j < k ==> SpecOf(cfg, m)(SplitSections(text)[j]).Ok?)
    ensures r.Ok? ==> r.value.selected == SelectText(r.value.processed)
    ensures r.Ok? ==> forall k :: 0 <= k < |r.value.processed| ==> PlainSpaces(r.value.processed[k])
    ensures r.Ok? ==> forall k :: 0 <= k < |r.value.questions| ==> QuestionOk(r.value.questions[k], cfg)
    ensures r.Ok? ==> forall k :: 0 <= k < |r.value.summary| ==> Trimmed(r.value.summary[k])
  {
    var sections := SplitSections(text);
    ghost var spec := SpecOf(cfg, m);
    var processed: seq<string> := [];
    var questions: seq<string> := [];
    var summary: seq<string> := [];
    results := [];
    for i := 0 to |sections|
      invariant |results| == i
      invariant SectionsSucceed(sections, spec, results)
      invariant Collected(processed, questions, summary, results)
      invariant ListsShaped(processed, questions, summary, cfg)
    {
      var section := ProcessSection(sections[i], cfg, m);
      if section.Err? {
        FirstFailure(sections, spec, results, section.error);
        return Err(section.error), results;
      }
      var out := section.value;
      SucceedNext(sections, spec, results, out);
      CollectedNext(processed, questions, summary, results, out);
      ResultShapedFrom(out, cfg);
      ListsShapedNext(processed, questions, summary, cfg, out);
      processed := processed + [out.text];
      questions := questions + out.questions;
      summary := out.front + summary + out.back;
      results := results + [out];
    }
    r := Ok(Preprocessed(SelectText(processed), questions, summary, processed));
  }

  /** Lines 136-138: the first `int(W * 0.6)` words of the reduced sections
      joined by spaces, where W is their word count; `int(W * 0.6)` is
      3 * W / 5. */
  function SelectText(processed: seq<string>): string {
    var words := Words(JoinSpace(processed));
    JoinSpace(words[..3 * |words| / 5])
  }

  /** The selected text is a word prefix of the reduced sections: its words
      are their first words, as many as 60% of their count rounded down, and
      it is single-spaced with no whitespace at either end. */
  lemma SelectTextSpec(processed: seq<string>)
    ensures var all := WordsOfAll(processed);
      var chosen := Words(SelectText(processed));
      && |chosen| <= |all| && chosen == all[..|chosen|]
      && 5 * |chosen| <= 3 * |all| < 5 * (|chosen| + 1)
      && Normalized(SelectText(processed))
  {
    var words := Words(JoinSpace(processed));
    WordsOfJoinAll(processed);
    var prefix := words[..3 * |words| / 5];
    WordsOfJoin(prefix);
    NormalizeWhitespaceSpec(JoinSpace(prefix));
  }

  // ---------------------------------------------------------------------
  // Whitespace after step 5

  lemma PlainSubseq(a: string, b: string)
    requires IsSubseq(a, b) && PlainSpaces(b)
    ensures PlainSpaces(a)
  {
    SubseqMembers(a, b);
  }

  lemma {:induction false} PlainJoin(ws: seq<string>)
    requires forall k :: 0 <= k < |ws| ==> PlainSpaces(ws[k])
    ensures PlainSpaces(JoinSpace(ws))
  {
    if |ws| > 1 {
      PlainJoin(ws[1..]);
      var rest := JoinSpace(ws[1..]);
      var j := ws[0] + " " + rest;
      assert forall k :: 0 <= k < |j| ==> j[k] == (if k < |ws[0]| then ws[0][k] else if k == |ws[0]| then ' ' else rest[k - |ws[0]| - 1]);
    }
  }

  /** The sentences of a string whose only whitespace is the space have
      only spaces too. */
  lemma {:induction false} PlainSentences(s: string)
    requires PlainSpaces(s)
    ensures forall n :: 0 <= n < |SplitSentences(s)| ==> PlainSpaces(SplitSentences(s)[n])
    decreases |s|
  {
    var i := FirstSentenceBreak(s, 0);
    if i < |s| {
      var rest := s[CharRunEnd(s, i, ' ')..];
      PlainSentences(rest);
      var r := SplitSentences(s);
      assert r == [s[..i]] + SplitSentences(rest);
      assert forall n :: 0 < n < |r| ==> r[n] == SplitSentences(rest)[n - 1];
    }
  }

  /** Step 7 keeps plain spaces. */
  lemma DiscardKeepsPlain(s: string, threshold: int)
    requires PlainSpaces(s)
    ensures PlainSpaces(JoinSpace(Kept(SplitSentences(s), "", threshold)))
  {
    var sentences := SplitSentences(s);
    var kept := Kept(sentences, "", threshold);
    PlainSentences(s);
    KeptSubseq(sentences, "", threshold);
    SubseqMembers(kept, sentences);
    PlainJoin(kept);
  }

  lemma CapitalRunsTrimmed(runs: seq<string>)
    requires forall k :: 0 <= k < |runs| ==> CapitalRun(runs[k])
    ensures forall k :: 0 <= k < |runs| ==> Trimmed(runs[k])
  {
  }
}
