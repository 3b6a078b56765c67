# nounlogic-summariser-lib text core, in Dafny

This project models the text-processing core of `nounlogic_summariser_lib`
and proves properties of the model:

- `preprocess_text` (`preprocessing.py`). It splits a sanitized document
  into sections at blank lines and reduces each section pass by pass:
  - drops sentences of five words or fewer;
  - takes out tutor-marked questions;
  - takes out conclusion and summary trailers;
  - collapses whitespace;
  - deletes standalone numbers;
  - drops sentences too close to the sentence before them
    (`discard_close_sentences`);
  - takes out runs of capitals, table-of-contents dot leaders, and text
    after "course objectives".

  It then keeps the first 60% of the words of the reduced sections.
  Questions and summary fragments are collected on the way.
- `sanitize_text` and `chunk_text` (`interface.py`). The first is the
  character filter run on converted documents. The second is the greedy
  word chunker that feeds the language model.
- `fib` (`skeleton.py`), the package's example function.

Modules:

- `PyStr` (`py_str.dfy`) states the Python string built-ins the core
  uses, on ASCII:
  - `split()` is `Words`; `' '.join` is `JoinSpace`.
  - `replace(p, '')` is `Replace`; `find` is `Find`; `rfind` is `RFind`.
  - Slices with negative and clamped bounds are `Slice`.
  - `strip` is `Strip`; `lower` is `Lower`.
- `Sections` holds the section and sentence splits and the short-sentence
  filter.
- `Passes` holds the regex passes whose patterns are written out character
  by character: whitespace, numbers, capitals and dot leaders.
- `CloseSentences` holds `discard_close_sentences`.
- `Extraction` holds the tutor-marked, conclusion/summary,
  table-of-contents and course-objectives passes.
- `Preprocessing` holds the section loop and the final selection.
- `Interface` holds `sanitize_text` and `chunk_text`.
- `Skeleton` holds `fib`.

The model follows the code, including these behaviours:

- `discard_close_sentences` compares each sentence with the input sentence
  before it, whether that sentence was kept or not.
- The number pass deletes every standalone number.
- A table-of-contents region is only the run of dots. It is measured again
  on the shrinking section, at positions found on the section before any
  deletion.
- The inner tutor-marked search is run once per outer match.
- `replace` deletes every occurrence left to right, and replacing `''`
  changes nothing.
- `find` returning -1 makes the slices drop the last character.
- In step 4, the character before a match is read from the section after
  earlier deletions. That can raise `IndexError`. The model returns it as
  `Err`, and `preprocess_text` then fails.

## Model

| member | source | states |
|---|---|---|
| Sections.SplitSectionsWords | src/nounlogic_summariser_lib/preprocessing.py:23 | splitting at `\n\s*\n` loses no word: the words of the sections, in order, are the words of the text |
| Sections.SplitSectionsNoBlankLine | src/nounlogic_summariser_lib/preprocessing.py:23 | no section contains a separator (a newline, whitespace, and another newline) |
| Sections.SplitSectionsCuts | src/nounlogic_summariser_lib/preprocessing.py:23 | the sections with the separators cut out between them, put back in order, are the document; every separator is a match of `\n\s*\n`; no match starts earlier inside the section before it (leftmost); the section after it does not start with whitespace holding a newline (longest) |
| Sections.SplitSentencesWords | src/nounlogic_summariser_lib/preprocessing.py:27 | splitting at spaces after `.`, `!` or `?` loses no word |
| Sections.SplitSentencesShape | src/nounlogic_summariser_lib/preprocessing.py:27 | every sentence but the last ends in `.`, `!` or `?`; no sentence contains a split point |
| Sections.SplitSentencesCuts | src/nounlogic_summariser_lib/preprocessing.py:27 | the sentences with the space runs cut out between them, put back in order, are the section; every cut is a non-empty run of spaces and takes all of them |
| Sections.LongSentences | src/nounlogic_summariser_lib/preprocessing.py:28 | a sentence is retained iff it has more than five words, as often as it occurs in the input (multiset count), and retained sentences keep their order (subsequence) |
| Sections.FilterShortSentencesSpec | src/nounlogic_summariser_lib/preprocessing.py:27-31 | the filtered section is the retained sentences, in order, joined by single spaces, and it holds exactly their words |
| Passes.CollapseSpacesSpec | src/nounlogic_summariser_lib/preprocessing.py:81 | after `re.sub(r'\s+', ' ')` every whitespace character is a single `' '` and the words are unchanged |
| Passes.NormalizeWhitespaceSpec | src/nounlogic_summariser_lib/preprocessing.py:81 | after the whitespace pass there is no whitespace at either end, runs are single spaces, the words are unchanged, and the result is the words joined by spaces |
| Passes.NormalizedIsJoin | src/nounlogic_summariser_lib/preprocessing.py:81 | a single-spaced string with no whitespace at the ends is the space-join of its words |
| Passes.DeleteNumbersLeavesNone | src/nounlogic_summariser_lib/preprocessing.py:85 | after the number pass no standalone run of digits remains, for every proximity |
| Passes.DeleteNumbersFromSpec | src/nounlogic_summariser_lib/preprocessing.py:85 | from any position, the scan's output has no standalone number after its first character; a leading digit run in the output is followed by a letter or `_`, or was preceded by one in the input; a non-digit input character is copied to the front |
| Passes.DeleteNumbersKeeps | src/nounlogic_summariser_lib/preprocessing.py:85 | the number pass only deletes (subsequence) and keeps every letter and `_` |
| Passes.DeleteNumbersMatches | src/nounlogic_summariser_lib/preprocessing.py:85 | the number pass deletes exactly the pattern's matches and nothing else: each match starts at a standalone number and ends where `\b\d+\b(?:\W+\b\d+\b){0,N}` ends from there, the matches are in order and disjoint, every standalone number lies inside one, and the output is the input with those spans cut out |
| Passes.NoNumbersUnchanged | src/nounlogic_summariser_lib/preprocessing.py:85 | text with no standalone number comes back unchanged |
| Passes.NumberGroupOnlyDeletesNumbers | src/nounlogic_summariser_lib/preprocessing.py:85 | a match of `\b\d+\b(?:\W+\b\d+\b){0,N}` holds only digits and non-word characters |
| Passes.LoneNumberDeleted | src/nounlogic_summariser_lib/preprocessing.py:85 | a string that is one number becomes empty |
| Passes.CapitalGroupShape | src/nounlogic_summariser_lib/preprocessing.py:95 | a match of the capital pattern, started on two capitals, starts with two capitals, ends with a capital, and holds only capitals and whitespace |
| Passes.ExtractCapitalsFromSpec | src/nounlogic_summariser_lib/preprocessing.py:95-99 | every extracted run is a capital run; the remaining text has no two capitals in a row and is a subsequence of the input; remainder length plus run lengths equals input length |
| Passes.ExtractCapitalsMatches | src/nounlogic_summariser_lib/preprocessing.py:95-99 | `findall` returns exactly the text of the pattern's matches and `sub` leaves exactly the text between them: each match starts where two capitals stand and ends where `[A-Z]{2,}(?:\s+[A-Z]{2,}){0,C}` ends from there, the matches are in order and disjoint, and every place where two capitals stand lies inside one |
| Passes.CapitalMatchWords | src/nounlogic_summariser_lib/preprocessing.py:95 | one match is one to `C + 1` words, each of two or more capitals |
| Passes.ExtractedWords | src/nounlogic_summariser_lib/preprocessing.py:95-97 | every run appended to the summary is one to `C + 1` words, each of two or more capitals |
| Passes.DotLeaders | src/nounlogic_summariser_lib/preprocessing.py:102-103 | the `finditer` starts are increasing, each begins five dots, and none follows a dot |
| Passes.DotLeadersExact | src/nounlogic_summariser_lib/preprocessing.py:102-103 | a position is a start iff a run of five or more dots begins there and no dot comes right before it; the starts are strictly increasing |
| CloseSentences.DiscardCloseSentences | src/nounlogic_summariser_lib/preprocessing.py:142-164 | the result is the kept sentences joined by single spaces, starting from the empty previous sentence |
| CloseSentences.KeepSentences | src/nounlogic_summariser_lib/preprocessing.py:154-163 | the loop computes `Kept`: its invariant ties the sentences kept so far plus what `Kept` gives for the rest to the whole result |
| CloseSentences.CompareSentence | src/nounlogic_summariser_lib/preprocessing.py:158-163 | a sentence is appended iff it shares fewer than `threshold` distinct lower-cased words with the previous sentence, which becomes this sentence either way |
| CloseSentences.KeptSubseq | src/nounlogic_summariser_lib/preprocessing.py:153-164 | the kept sentences are an in-order subsequence of the split sentences |
| CloseSentences.KeptIsSelect | src/nounlogic_summariser_lib/preprocessing.py:155-163 | sentence k is dropped iff it shares at least `threshold` distinct lower-cased words with input sentence k-1 (the empty string for k = 0), kept or not |
| CloseSentences.FirstSentenceKept | src/nounlogic_summariser_lib/preprocessing.py:155-160 | with a threshold of one or more the first sentence is always kept |
| CloseSentences.NonPositiveDropsAll | src/nounlogic_summariser_lib/preprocessing.py:159-163 | with a threshold of zero or less every sentence is dropped |
| CloseSentences.NonPositiveGivesEmpty | src/nounlogic_summariser_lib/preprocessing.py:153-164 | with a threshold of zero or less the result is `''` |
| Extraction.QuestionBefore | src/nounlogic_summariser_lib/preprocessing.py:44-50 | the question holds no `?`, whether or not the assessment occurs |
| Extraction.QuestionBeforeOccurs | src/nounlogic_summariser_lib/preprocessing.py:44-50 | when the assessment occurs, the question is immediately followed by the assessment's first occurrence, and it starts at the section start or right after a `?` |
| Extraction.TutorMarked | src/nounlogic_summariser_lib/preprocessing.py:34-56 | the result is `TutorRounds`: one round per outer match, each over the assessments found in the section as the earlier rounds left it; per assessment, the question in front of its first occurrence is recorded and all its occurrences deleted when it has at most `tutor_marked_max_words` words; the section only loses characters; every question respects the limit and holds no `?`; with no outer match nothing changes |
| Extraction.TutorRoundsShape | src/nounlogic_summariser_lib/preprocessing.py:35-56 | any number of rounds keeps the section a subsequence of the original and every recorded question short and free of `?` |
| Extraction.StandsAlone | src/nounlogic_summariser_lib/preprocessing.py:65-69 | `IndexError` iff the character before the match lies past the end of the current section; otherwise true iff no letter touches the match on either side |
| Extraction.ConclusionSummary | src/nounlogic_summariser_lib/preprocessing.py:59-78 | the result is `Trailers`: for each label, its spans on the section as the earlier labels left it; for each span, the `IndexError` of the standalone test stops everything, otherwise a standalone span with a trailer of at most `summary_max_words` words records the stripped trailer and deletes every occurrence of the whole match; on success the section only loses characters and every trailer is stripped and within the limit; with no label nothing changes |
| Extraction.TrailersShape | src/nounlogic_summariser_lib/preprocessing.py:60-78 | when the labels raise no error, the section only loses characters and every recorded trailer is stripped and within the limit |
| Extraction.DotsWords | src/nounlogic_summariser_lib/preprocessing.py:110 | a region of dots is one word, or none when empty, so the word gate passes whenever `toc_max_words` is at least 1 |
| Extraction.Reversed | src/nounlogic_summariser_lib/preprocessing.py:111 | repeated insertion at index 0 reverses the order: element k is element n-1-k of the input |
| Extraction.ReversedSnoc | src/nounlogic_summariser_lib/preprocessing.py:111 | inserting one more region at index 0 keeps the list equal to the regions reversed |
| Extraction.TableOfContents | src/nounlogic_summariser_lib/preprocessing.py:102-113 | the section and the regions are `TocRegions` over the `DotLeaders` starts of the section on entry: at each start the run of dots is measured on the current section, and a region within `toc_max_words` is recorded and every occurrence of it deleted; the summary list becomes the regions, latest first, ahead of its earlier fragments; every region is dots only and within the limit; one region per start when the limit is at least 1; none and no change when it is negative; the section only loses characters |
| Extraction.ScanLeaders | src/nounlogic_summariser_lib/preprocessing.py:104-113 | the loop over given starts computes `TocRegions` and puts the regions, latest first, ahead of the earlier summary fragments |
| Extraction.TocRegionsShape | src/nounlogic_summariser_lib/preprocessing.py:104-113 | the scan only appends regions of dots within the limit, only deletes from the section, takes one region per start when the limit is at least 1, and changes nothing when it is negative |
| Extraction.TakeRegionShape | src/nounlogic_summariser_lib/preprocessing.py:105-113 | one start deletes only, and records at most the run of dots from it, within the limit |
| Extraction.MeasureDots | src/nounlogic_summariser_lib/preprocessing.py:106-109 | the `while` loop stops at the end of the run of dots from the match start (`CharRunEnd`), or at the start itself past the section's end; the sliced region is all dots |
| Extraction.CourseObjectives | src/nounlogic_summariser_lib/preprocessing.py:116-121 | the section becomes the section with every occurrence of each captured text deleted, one text after the other (`ReplaceAll`); the summary list gains the captured texts stripped, in order, after its earlier fragments |
| Preprocessing.TidySection | src/nounlogic_summariser_lib/preprocessing.py:80-99 | the section and the runs are `Tidy`: the whitespace pass, then the number pass, then the close-sentence pass, then the capital runs taken out, in that order; afterwards the only whitespace is `' '` and every run is a capital run |
| Preprocessing.DiscardKeepsPlain | src/nounlogic_summariser_lib/preprocessing.py:89 | dropping close sentences keeps a space-only section space-only |
| Preprocessing.PlainSentences | src/nounlogic_summariser_lib/preprocessing.py:153 | the sentences of a space-only section are space-only |
| Preprocessing.TableAndObjectives | src/nounlogic_summariser_lib/preprocessing.py:101-121 | the front fragments are the `TocRegions` regions of the section, latest first; the section is the table-of-contents result with the course objectives of that result deleted; the back fragments gain those objectives stripped; the section stays space-only, the regions are dots within `toc_max_words`, none when it is negative, and the back fragments have no whitespace at their ends |
| Preprocessing.ProcessSection | src/nounlogic_summariser_lib/preprocessing.py:25-121 | the result is `SectionSpec`: steps 2 to 11 composed in source order on the section, each search run on the text as the earlier steps left it, and `Err` exactly when step 4 raises; a reduced section has only `' '` as whitespace; questions have no `?` and respect their limit; TOC regions are dots within their limit; all other summary fragments have no whitespace at their ends |
| Preprocessing.FinishSection | src/nounlogic_summariser_lib/preprocessing.py:80-121 | steps 5 to 11 give `Finish` of what step 4 left, with the shapes above |
| Preprocessing.PreprocessText | src/nounlogic_summariser_lib/preprocessing.py:17-140 | on success every section of the split gives `SectionSpec`, the reduced texts are theirs in order, the questions are theirs concatenated in order, and the summary list is all table-of-contents regions (latest section first, each section latest region first) followed by every other fragment in section order; on failure the error is that of the first section that fails; the selected text is `SelectText` of the reduced sections; every question and fragment keeps its shape |
| Preprocessing.CollectedNext | src/nounlogic_summariser_lib/preprocessing.py:111-123 | one more section result keeps the lists equal to what the results so far give: its text appended, its questions appended, its regions in front and its other fragments at the back |
| Preprocessing.FirstFailure | src/nounlogic_summariser_lib/preprocessing.py:25-78 | a section that fails after sections that all succeeded is the first failing section |
| Preprocessing.SelectTextSpec | src/nounlogic_summariser_lib/preprocessing.py:136-138 | the selected text's words are the first floor(0.6·W) words of the reduced sections, where W is their word count, joined by single spaces |
| Interface.SanitizeText | src/nounlogic_summariser_lib/interface.py:12 | every output character is an ASCII letter, a digit, whitespace or one of `. , ; : ! ? ' " -`; the output is a subsequence of the input; every allowed character keeps its count and every other character is gone; the length does not grow |
| Interface.SanitizeKeepsAllowed | src/nounlogic_summariser_lib/interface.py:12 | text made only of allowed characters is unchanged |
| Interface.SanitizeIdempotent | src/nounlogic_summariser_lib/interface.py:12 | sanitizing twice is sanitizing once |
| Interface.ChunkText | src/nounlogic_summariser_lib/interface.py:15-47 | the words of the chunks, in order, are `text.split()`; no chunk exceeds `token_limit` words (one word when the limit is below 1); a break word (`?` inside, or `:` at the end once stripped) only ever starts a chunk; every chunk but the last was closed because the next chunk starts with a break word or one more word would have passed the limit (greedy); an empty chunk appears only first, before a leading break word, or when the limit is below 1; a leading break word gives an empty first chunk; empty text gives `[]`; the last chunk is not empty |
| Interface.AddWord | src/nounlogic_summariser_lib/interface.py:30-42 | one word: before a break word the current chunk is appended and emptied; then, when one more token would pass the limit, the current chunk is appended and a new one holds just the word, otherwise the word is added to it; words are conserved and the count equals the chunk length |
| Interface.CloseForBreak | src/nounlogic_summariser_lib/interface.py:32-35 | before a break word the current chunk, joined by spaces, is appended and emptied (the new chunk is empty iff the current chunk was); otherwise nothing changes; words are conserved and chunk shapes kept |
| Interface.FitWord | src/nounlogic_summariser_lib/interface.py:36-42 | when the count plus the word's tokens passes the limit, the current chunk joined by spaces is appended and the new current chunk is just the word; otherwise the chunks are unchanged and the word is appended to the current chunk; words are conserved and the count equals the chunk length |
| Interface.ChunkStep | src/nounlogic_summariser_lib/interface.py:30-42 | one round of the loop over the words keeps the loop invariant with one more word consumed |
| Interface.GreedyNext | src/nounlogic_summariser_lib/interface.py:30-42 | one round of the loop keeps every closed chunk closed for a reason: the next chunk starts with a break word, or one more word would pass the limit |
| Interface.GreedyFinish | src/nounlogic_summariser_lib/interface.py:44-47 | appending the last chunk keeps every closed chunk but the last closed for such a reason |
| Interface.ChunkLoopNext | src/nounlogic_summariser_lib/interface.py:30-42 | one round of the loop preserves its invariant (`current_tokens == len(current_chunk)`, words conserved, chunk shapes) |
| Interface.FinishChunks | src/nounlogic_summariser_lib/interface.py:44-47 | appending the last non-empty chunk establishes every property of `chunk_text` |
| Interface.ChunksOkAppend | src/nounlogic_summariser_lib/interface.py:33 | closing a chunk of at most the limit and without inner break words keeps every closed chunk well-shaped |
| Interface.CloseChunk | src/nounlogic_summariser_lib/interface.py:38 | `chunks.append(' '.join(current_chunk))` adds one chunk whose words are the current chunk, empty iff the current chunk is empty |
| Skeleton.Fib | src/nounlogic_summariser_lib/skeleton.py:44-57 | for `n > 0`, `fib(n)` is the n-th Fibonacci number (`fib(1) == fib(2) == 1`, then the sum of the two before), and it is at least 1 |
| Skeleton.FibPositive | src/nounlogic_summariser_lib/skeleton.py:54-57 | every Fibonacci number is at least 1 |
| Skeleton.FibMonotone | src/nounlogic_summariser_lib/skeleton.py:54-57 | `fib` never decreases |
| PyStr.ReplaceDeletes | src/nounlogic_summariser_lib/preprocessing.py:56 | `s.replace(p, '')` is a subsequence of `s`; it is strictly shorter when a non-empty `p` occurs, and unchanged when `p` is empty or absent; when `p` occurs it is the text before the first occurrence followed by the replacement applied to the text after it, so every occurrence goes, left to right |
| PyStr.Find | src/nounlogic_summariser_lib/preprocessing.py:44 | `find` gives the first occurrence, or -1 when there is none |
| PyStr.RFind | src/nounlogic_summariser_lib/preprocessing.py:46 | `rfind('?')` gives the last `?`, or -1 |
| PyStr.Slice | src/nounlogic_summariser_lib/preprocessing.py:45-50 | a slice with in-range bounds is the plain subsequence; any slice is a contiguous piece starting at the clamped lower bound |
| PyStr.SliceLength | src/nounlogic_summariser_lib/preprocessing.py:45-50 | a slice holds exactly the characters between its two normalised bounds, none when they cross |
| PyStr.StripKeepsWords | src/nounlogic_summariser_lib/preprocessing.py:74 | `strip` keeps every word |
| PyStr.WordsOfJoin | src/nounlogic_summariser_lib/preprocessing.py:138 | splitting the space-join of non-empty, whitespace-free words gives the words back |

## Left out

- The file writes and paths: the questions file, the summary file and
  `os.path.splitext` (preprocessing.py:125-133). `preprocess_text` returns
  the pair `(selected_text, summary_file)` (line 140). The model keeps the
  selected text (`selected`) and, in place of the summary file path,
  returns the question list, the summary list and the reduced sections
  that the files would hold.
- `summariser.py` (configuration loading, the Ollama client, file
  processing) and `convert.py` (a wrapper over `markitdown`) are not part of
  this model: they are I/O and foreign services. The `skeleton.py` command
  line (`parse_args`, `setup_logging`, `main`, `run`) is argparse and
  logging plumbing, also left out.
- The case-insensitive regex searches at lines 34, 40, 59, 62, 72 and 117
  are not reimplemented. Their results are functions of the text
  they search (`Matchers`), and every stated property holds whatever those
  functions return. `tutor_marked_proximity` only appears inside one of
  these patterns, so it is not part of `Config`.
- Character classes are ASCII. Python's Unicode `\s`, `\d`, `\w`,
  `isalpha` and `lower` on non-ASCII characters are not modelled.
- `int(W * 0.6)` is computed as `3 * W / 5`. Floating-point rounding is not
  modelled; the two agree for any realistic word count.
- `number_proximity` and `capital_proximity` are `nat`. A negative value
  would make the `{0,N}` braces literal text in the source pattern; that
  case is not modelled.
- Step 8 (line 91) is a comment with no code.
- Preprocessing.PreprocessText: states which section fails first, but not
  the lists built before the failure, since the source raises and they are
  lost.
