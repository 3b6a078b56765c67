/** The regular-expression passes of the section loop of `preprocess_text`
    whose patterns are simple enough to state character by character:
    whitespace collapse (`re.sub(r'\s+', ' ', s).strip()`), deletion of
    standalone numbers (`re.sub(r'\b\d+\b(?:\W+\b\d+\b){0,N}', '', s)`),
    extraction of upper-case runs
    (`([A-Z]{2,}(?:\s+[A-Z]{2,}){0,C})`, `findall` then `sub`), and the
    positions of dot leaders (`finditer(r'(\.{5,})', s)`). */
module Passes {
  import opened PyStr

  // ---------------------------------------------------------------------
  // Whitespace: re.sub(r'\s+', ' ', s).strip()

  /** `re.sub(r'\s+', ' ', s)`: every run of whitespace becomes one space. */
  function CollapseSpaces(s: string): (r: string)
    decreases |s|
  {
    if s == [] then []
    else if IsSpace(s[0]) then " " + CollapseSpaces(s[SpaceEnd(s, 0)..])
    else [s[0]] + CollapseSpaces(s[1..])
  }

  /** Step 5 of the section loop. */
  function NormalizeWhitespace(s: string): string {
    Strip(CollapseSpaces(s))
  }

  /** Every whitespace character is a plain space and is followed by a
      non-whitespace character or by the end. */
  predicate SingleSpaced(t: string) {
    forall k :: 0 <= k < |t| && IsSpace(t[k]) ==> t[k] == ' ' && (k + 1 < |t| ==> !IsSpace(t[k + 1]))
  }

  /** No leading or trailing whitespace, and single spaces between words. */
  predicate Normalized(t: string) {
    SingleSpaced(t) && Trimmed(t)
  }

  /** The collapse leaves single spaces, keeps the words, and keeps a
      leading non-whitespace character in front. */
  lemma CollapseSpacesSpec(s: string)
    ensures SingleSpaced(CollapseSpaces(s))
    ensures Words(CollapseSpaces(s)) == Words(s)
    ensures s != [] && !IsSpace(s[0]) ==> CollapseSpaces(s) != [] && CollapseSpaces(s)[0] == s[0]
  {
    CollapseSpacesSingle(s);
    CollapseSpacesWords(s);
  }

  lemma {:induction false} CollapseSpacesSingle(s: string)
    ensures SingleSpaced(CollapseSpaces(s))
    decreases |s|
  {
    if s != [] {
      var r := CollapseSpaces(s);
      if IsSpace(s[0]) {
        var rest := s[SpaceEnd(s, 0)..];
        var c := CollapseSpaces(rest);
        CollapseSpacesSingle(rest);
        assert r == " " + c;
        assert c != [] ==> c[0] == rest[0] && !IsSpace(c[0]);
        forall k | 0 <= k < |r| && IsSpace(r[k])
          ensures r[k] == ' ' && (k + 1 < |r| ==> !IsSpace(r[k + 1]))
        {
          if k > 0 {
            assert r[k] == c[k - 1];
            if k + 1 < |r| { assert r[k + 1] == c[k]; }
          }
        }
      } else {
        var c := CollapseSpaces(s[1..]);
        CollapseSpacesSingle(s[1..]);
        assert r == [s[0]] + c;
        forall k | 0 <= k < |r| && IsSpace(r[k])
          ensures r[k] == ' ' && (k + 1 < |r| ==> !IsSpace(r[k + 1]))
        {
          assert k > 0 && r[k] == c[k - 1];
          if k + 1 < |r| { assert r[k + 1] == c[k]; }
        }
      }
    }
  }

  lemma {:induction false} CollapseSpacesWords(s: string)
    ensures Words(CollapseSpaces(s)) == Words(s)
    decreases |s|
  {
    if s != [] {
      if IsSpace(s[0]) {
        var e := SpaceEnd(s, 0);
        var rest := s[e..];
        CollapseSpacesWords(rest);
        assert s == s[..e] + rest;
        WordsSkipSpace(s[..e], rest);
        WordsSkipSpace(" ", CollapseSpaces(rest));
      } else {
        var rest := s[1..];
        CollapseSpacesWords(rest);
        var c := CollapseSpaces(rest);
        assert s == [s[0]] + rest;
        if rest == [] || IsSpace(rest[0]) {
          assert c == [] || IsSpace(c[0]);
          WordsAppend([s[0]], rest);
          WordsAppend([s[0]], c);
        } else {
          assert c != [] && c[0] == rest[0];
          WordsPrependLetter(s[0], rest);
          WordsPrependLetter(s[0], c);
        }
      }
    }
  }

  /** A non-whitespace character put in front of a string that starts with
      a word joins that word. */
  lemma WordsPrependLetter(c: char, t: string)
    requires !IsSpace(c) && t != [] && !IsSpace(t[0])
    ensures Words([c] + t) == [[c] + Words(t)[0]] + Words(t)[1..]
  {
    var s := [c] + t;
    var e := WordEnd(t, 0);
    assert WordEnd(s, 0) == e + 1 by {
      assert forall k :: 0 <= k < |t| ==> s[k + 1] == t[k];
    }
    assert s[..e + 1] == [c] + t[..e];
    assert s[e + 1..] == t[e..];
    assert Words(t) == [t[..e]] + Words(t[e..]);
    assert Words(s) == [s[..e + 1]] + Words(s[e + 1..]);
  }

  /** The whitespace pass gives the words of the section joined by single
      spaces: no leading or trailing whitespace, no run of two. */
  lemma NormalizeWhitespaceSpec(s: string)
    ensures Normalized(NormalizeWhitespace(s))
    ensures Words(NormalizeWhitespace(s)) == Words(s)
    ensures NormalizeWhitespace(s) == JoinSpace(Words(s))
  {
    var c := CollapseSpaces(s);
    CollapseSpacesSpec(s);
    StripKeepsWords(c);
    var l := c[SpaceEnd(c, 0)..];
    SingleSpacedSlice(c, SpaceEnd(c, 0), |c|);
    assert c[SpaceEnd(c, 0)..|c|] == l;
    var r := l[..TrailStart(l)];
    SingleSpacedSlice(l, 0, TrailStart(l));
    assert l[0..TrailStart(l)] == r;
    NormalizedIsJoin(r);
  }

  /** Any piece of a single-spaced string is single-spaced. */
  lemma SingleSpacedSlice(t: string, a: nat, b: nat)
    requires a <= b <= |t| && SingleSpaced(t)
    ensures SingleSpaced(t[a..b])
  {
    var r := t[a..b];
    forall k | 0 <= k < |r| && IsSpace(r[k])
      ensures r[k] == ' ' && (k + 1 < |r| ==> !IsSpace(r[k + 1]))
    {
      assert r[k] == t[a + k];
      if k + 1 < |r| { assert r[k + 1] == t[a + k + 1]; }
    }
  }

  /** A normalized string is the space-join of its words. */
  lemma {:induction false} NormalizedIsJoin(t: string)
    requires Normalized(t)
    ensures t == JoinSpace(Words(t))
    decreases |t|
  {
    if t != [] {
      var e := WordEnd(t, 0);
      if e == |t| {
        WordsOfWord(t);
      } else {
        NormalizedSplit(t, e);
        NormalizedIsJoin(t[e + 1..]);
        JoinFront(t[..e], t[e + 1..]);
      }
    }
  }

  /** A normalized string with a space in it is its first word, one space,
      and a normalized rest with at least one word. */
  lemma NormalizedSplit(t: string, e: nat)
    requires Normalized(t) && t != [] && e == WordEnd(t, 0) < |t|
    ensures IsWord(t[..e]) && t == t[..e] + " " + t[e + 1..]
    ensures Normalized(t[e + 1..]) && Words(t[e + 1..]) != []
  {
    assert t[e] == ' ' && !IsSpace(t[e + 1]);
    var rest := t[e + 1..];
    assert Normalized(rest) by {
      assert forall k :: 0 <= k < |rest| ==> rest[k] == t[e + 1 + k];
    }
    assert WordEnd(rest, 0) > 0;
    CutAt(t, e);
  }

  /** A word, a space and a nonempty join of words is the join of all. */
  lemma JoinFront(w: string, rest: string)
    requires IsWord(w) && Words(rest) != [] && rest == JoinSpace(Words(rest))
    ensures w + " " + rest == JoinSpace(Words(w + " " + rest))
  {
    WordsOfWord(w);
    WordsAroundSpace(w, " ", rest);
    assert ([w] + Words(rest))[1..] == Words(rest);
  }

  // ---------------------------------------------------------------------
  // Matches of a substitution, as spans of the input

  /** The span `[start, end)` of one match in the input. */
  datatype Match = Match(start: nat, end: nat)

  /** Matches from index `i` on, left to right: each starts at or after the
      end of the one before and ends inside `s`. */
  predicate Ordered(s: string, i: nat, ms: seq<Match>)
    decreases |ms|
  {
    ms == [] || (i <= ms[0].start <= ms[0].end <= |s| && Ordered(s, ms[0].end, ms[1..]))
  }

  /** `s[i..]` with the matches cut out: what a substitution by '' leaves. */
  function CutOut(s: string, i: nat, ms: seq<Match>): string
    requires i <= |s| && Ordered(s, i, ms)
    decreases |ms|
  {
    if ms == [] then s[i..] else s[i..ms[0].start] + CutOut(s, ms[0].end, ms[1..])
  }

  /** The text of each match, in order: what `findall` returns. */
  function Matched(s: string, i: nat, ms: seq<Match>): seq<string>
    requires Ordered(s, i, ms)
    decreases |ms|
  {
    if ms == [] then [] else [s[ms[0].start..ms[0].end]] + Matched(s, ms[0].end, ms[1..])
  }

  /** Index `p` lies inside one of the matches. */
  predicate Covers(ms: seq<Match>, p: int)
    decreases |ms|
  {
    ms != [] && (ms[0].start <= p < ms[0].end || Covers(ms[1..], p))
  }

  /** Text `s[i..e]` the scan copies in front of the matches. */
  lemma CutOutAfter(s: string, i: nat, e: nat, ms: seq<Match>)
    requires i <= e <= |s| && Ordered(s, e, ms)
    ensures Ordered(s, i, ms)
    ensures CutOut(s, i, ms) == s[i..e] + CutOut(s, e, ms)
  {
    if ms == [] {
      DropJoin(s, i, e);
    } else {
      var a, b := ms[0].start, ms[0].end;
      var t := CutOut(s, b, ms[1..]);
      assert CutOut(s, e, ms) == s[e..a] + t;
      assert CutOut(s, i, ms) == s[i..a] + t;
      SliceJoin(s, i, e, a);
      assert s[i..a] + t == s[i..e] + (s[e..a] + t);
    }
  }

  /** The matched text does not depend on where the scan started. */
  lemma MatchedAfter(s: string, i: nat, e: nat, ms: seq<Match>)
    requires i <= e && Ordered(s, e, ms)
    ensures Ordered(s, i, ms) && Matched(s, i, ms) == Matched(s, e, ms)
  {
  }

  /** A match `[i, j)` in front of the matches. */
  lemma MatchThen(s: string, i: nat, j: nat, ms: seq<Match>)
    requires i <= j <= |s| && Ordered(s, j, ms)
    ensures Ordered(s, i, [Match(i, j)] + ms)
    ensures CutOut(s, i, [Match(i, j)] + ms) == CutOut(s, j, ms)
    ensures Matched(s, i, [Match(i, j)] + ms) == [s[i..j]] + Matched(s, j, ms)
    ensures forall p :: Covers([Match(i, j)] + ms, p) <==> i <= p < j || Covers(ms, p)
  {
    assert ([Match(i, j)] + ms)[1..] == ms;
    assert s[i..i] == [];
  }

  // ---------------------------------------------------------------------
  // Numbers: re.sub(r'\b\d+\b(?:\W+\b\d+\b){0,N}', '', s)

  /** The first non-digit index at or after `i`, or |s|. */
  function DigitRunEnd(s: string, i: nat): (j: nat)
    requires i <= |s|
    ensures i <= j <= |s|
    ensures forall k :: i <= k < j ==> IsDigit(s[k])
    ensures j < |s| ==> !IsDigit(s[j])
    decreases |s| - i
  {
    if i == |s| || !IsDigit(s[i]) then i else DigitRunEnd(s, i + 1)
  }

  /** The first word-character index at or after `i`, or |s|. */
  function NonWordRunEnd(s: string, i: nat): (j: nat)
    requires i <= |s|
    ensures i <= j <= |s|
    ensures forall k :: i <= k < j ==> !IsWordChar(s[k])
    ensures j < |s| ==> IsWordChar(s[j])
    decreases |s| - i
  {
    if i == |s| || IsWordChar(s[i]) then i else NonWordRunEnd(s, i + 1)
  }

  /** `\b\d+\b` matches at `i`: a whole run of digits with no word character
      on either side. */
  predicate StandaloneNumberAt(s: string, i: int) {
    0 <= i < |s| && IsDigit(s[i]) && (i == 0 || !IsWordChar(s[i - 1])) &&
    (DigitRunEnd(s, i) == |s| || !IsWordChar(s[DigitRunEnd(s, i)]))
  }

  /** The end of a match whose numbers so far end at `e`: up to `n` more
      standalone numbers, each after a run of non-word characters. */
  function NumberGroupEnd(s: string, e: nat, n: nat): (j: nat)
    requires e <= |s| && (e == |s| || !IsWordChar(s[e]))
    ensures e <= j <= |s|
    ensures j == |s| || !IsWordChar(s[j])
    decreases n
  {
    if n == 0 then e
    else
      var w := NonWordRunEnd(s, e);
      if w > e && StandaloneNumberAt(s, w) then NumberGroupEnd(s, DigitRunEnd(s, w), n - 1)
      else e
  }

  /** The substitution from index `i` on, where `i` is never inside a run of
      digits. A run that is not standalone is copied whole: there is no word
      boundary inside a run of digits, so the regex cannot start in it. */
  function DeleteNumbersFrom(s: string, i: nat, n: nat): (r: string)
    requires i <= |s|
    decreases |s| - i
  {
    if i == |s| then []
    else if !IsDigit(s[i]) then [s[i]] + DeleteNumbersFrom(s, i + 1, n)
    else
      var e := DigitRunEnd(s, i);
      if StandaloneNumberAt(s, i) then DeleteNumbersFrom(s, NumberGroupEnd(s, e, n), n)
      else s[i..e] + DeleteNumbersFrom(s, e, n)
  }

  /** Step 6 of the section loop with `number_proximity == n`. */
  function DeleteNumbers(s: string, n: nat): string {
    DeleteNumbersFrom(s, 0, n)
  }

  /** The run of digits at the front is followed by a letter or `_`. */
  predicate RightAnchored(t: string) {
    DigitRunEnd(t, 0) < |t| && IsWordChar(t[DigitRunEnd(t, 0)])
  }

  /** No standalone number after the first character. */
  predicate NoneAfterFront(t: string) {
    forall a :: 1 <= a < |t| ==> !StandaloneNumberAt(t, a)
  }

  /** Digit runs keep their ends when a prefix is put in front. */
  lemma {:induction false} DigitRunEndShift(p: string, t: string, a: nat)
    requires a <= |t|
    ensures DigitRunEnd(p + t, |p| + a) == |p| + DigitRunEnd(t, a)
    decreases |t| - a
  {
    if a < |t| && IsDigit(t[a]) {
      assert (p + t)[|p| + a] == t[a];
      DigitRunEndShift(p, t, a + 1);
    } else if a < |t| {
      assert (p + t)[|p| + a] == t[a];
    }
  }

  /** Away from the front, being a standalone number does not depend on a
      prefix. */
  lemma StandaloneShift(p: string, t: string, a: nat)
    requires 1 <= a < |t|
    ensures StandaloneNumberAt(p + t, |p| + a) == StandaloneNumberAt(t, a)
  {
    DigitRunEndShift(p, t, a);
    assert (p + t)[|p| + a] == t[a];
    assert (p + t)[|p| + a - 1] == t[a - 1];
    var e := DigitRunEnd(t, a);
    if e < |t| { assert (p + t)[|p| + e] == t[e]; }
  }

  /** A copied non-digit in front: a number right after it is standalone
      only if it was already unanchored on its right and `c` is not a word
      character. */
  lemma PrependNonDigit(c: char, t: string)
    requires !IsDigit(c) && NoneAfterFront(t)
    requires t != [] && IsDigit(t[0]) ==> RightAnchored(t) || IsWordChar(c)
    ensures NoneAfterFront([c] + t)
  {
    var r := [c] + t;
    forall a | 1 <= a < |r|
      ensures !StandaloneNumberAt(r, a)
    {
      if a == 1 {
        DigitRunEndShift([c], t, 0);
      } else {
        StandaloneShift([c], t, a - 1);
      }
    }
  }

  /** A copied run of digits in front of a string that does not start with
      a digit. */
  lemma PrependRun(run: string, t: string)
    requires run != [] && forall k :: 0 <= k < |run| ==> IsDigit(run[k])
    requires NoneAfterFront(t) && (t == [] || !IsDigit(t[0]))
    ensures NoneAfterFront(run + t)
    ensures DigitRunEnd(run + t, 0) == |run|
  {
    var r := run + t;
    DigitRunEndShift(run, t, 0);
    DigitRunFrom(r, 0, |run|);
    forall a | 1 <= a < |r|
      ensures !StandaloneNumberAt(r, a)
    {
      if a <= |run| {
        assert IsDigit(r[a - 1]);
      } else {
        StandaloneShift(run, t, a - |run|);
      }
    }
  }

  /** A run of digits from `i` to `j` ends where the digits that follow end. */
  lemma {:induction false} DigitRunFrom(s: string, i: nat, j: nat)
    requires i <= j <= |s| && forall k :: i <= k < j ==> IsDigit(s[k])
    ensures DigitRunEnd(s, i) == DigitRunEnd(s, j)
    decreases j - i
  {
    if i < j {
      DigitRunFrom(s, i + 1, j);
    }
  }

  /** What the output from index `i` on satisfies. */
  predicate FromInvariant(s: string, i: nat, r: string)
    requires i <= |s|
  {
    && NoneAfterFront(r)
    && (r != [] && IsDigit(r[0]) ==>
          RightAnchored(r) || (0 < i && IsWordChar(s[i - 1]) && !IsDigit(s[i - 1])))
    && (i < |s| && !IsDigit(s[i]) ==> r != [] && r[0] == s[i])
    && (i == |s| ==> r == [])
  }

  /** The output from `i` on: no standalone number after its first
      character; if it starts with a digit, that run is followed by a letter
      or `_`, or preceded in the input by one; and a non-digit input
      character at `i` is copied to the front. */
  lemma {:induction false} DeleteNumbersFromSpec(s: string, i: nat, n: nat)
    requires i <= |s|
    requires i == 0 || i == |s| || !IsDigit(s[i - 1]) || !IsDigit(s[i])
    ensures FromInvariant(s, i, DeleteNumbersFrom(s, i, n))
    decreases |s| - i
  {
    if i < |s| {
      if !IsDigit(s[i]) {
        DeleteNumbersFromSpec(s, i + 1, n);
        PrependNonDigit(s[i], DeleteNumbersFrom(s, i + 1, n));
      } else if StandaloneNumberAt(s, i) {
        DeleteNumbersFromSpec(s, NumberGroupEnd(s, DigitRunEnd(s, i), n), n);
      } else {
        var e := DigitRunEnd(s, i);
        DeleteNumbersFromSpec(s, e, n);
        KeptRunCase(s, i, n);
      }
    }
  }

  /** The case of a run of digits that is not standalone and is copied. */
  lemma KeptRunCase(s: string, i: nat, n: nat)
    requires i < |s| && IsDigit(s[i]) && !StandaloneNumberAt(s, i)
    requires i == 0 || !IsDigit(s[i - 1])
    requires FromInvariant(s, DigitRunEnd(s, i), DeleteNumbersFrom(s, DigitRunEnd(s, i), n))
    ensures FromInvariant(s, i, DeleteNumbersFrom(s, i, n))
  {
    var e := DigitRunEnd(s, i);
    var t := DeleteNumbersFrom(s, e, n);
    var run := s[i..e];
    var r := DeleteNumbersFrom(s, i, n);
    assert r == run + t;
    PrependRun(run, t);
    if e < |s| {
      assert r[|run|] == s[e];
    }
  }

  /** After the number pass no standalone run of digits is left. */
  lemma DeleteNumbersLeavesNone(s: string, n: nat)
    ensures forall a :: !StandaloneNumberAt(DeleteNumbers(s, n), a)
  {
    DeleteNumbersFromSpec(s, 0, n);
  }

  /** `a` and `b` hold each letter and `_` equally often. */
  predicate SameLetters(a: string, b: string) {
    forall c :: IsWordChar(c) && !IsDigit(c) ==> multiset(a)[c] == multiset(b)[c]
  }

  /** A stretch holding only digits and non-word characters holds no letter
      and no `_`. */
  lemma NoLettersIn(seg: string)
    requires forall k :: 0 <= k < |seg| ==> IsDigit(seg[k]) || !IsWordChar(seg[k])
    ensures SameLetters(seg, [])
  {
  }

  /** The number pass only deletes: the result is a subsequence of the input,
      and it keeps every letter and `_`. */
  lemma {:induction false} DeleteNumbersKeeps(s: string, i: nat, n: nat)
    requires i <= |s|
    ensures IsSubseq(DeleteNumbersFrom(s, i, n), s[i..])
    ensures SameLetters(DeleteNumbersFrom(s, i, n), s[i..])
    decreases |s| - i
  {
    if i < |s| {
      if !IsDigit(s[i]) {
        DeleteNumbersKeeps(s, i + 1, n);
        KeptCharCase(s, i, n);
      } else {
        var e := DigitRunEnd(s, i);
        var j := if StandaloneNumberAt(s, i) then NumberGroupEnd(s, e, n) else e;
        DeleteNumbersKeeps(s, j, n);
        if StandaloneNumberAt(s, i) {
          DeletedGroupCase(s, i, n);
        } else {
          CopiedRunCase(s, i, n);
        }
      }
    }
  }

  lemma KeptCharCase(s: string, i: nat, n: nat)
    requires i < |s| && !IsDigit(s[i])
    requires IsSubseq(DeleteNumbersFrom(s, i + 1, n), s[i + 1..])
    requires SameLetters(DeleteNumbersFrom(s, i + 1, n), s[i + 1..])
    ensures IsSubseq(DeleteNumbersFrom(s, i, n), s[i..])
    ensures SameLetters(DeleteNumbersFrom(s, i, n), s[i..])
  {
    var t := DeleteNumbersFrom(s, i + 1, n);
    assert DeleteNumbersFrom(s, i, n) == [s[i]] + t;
    assert s[i..] == [s[i]] + s[i + 1..];
    SubseqCons(s[i], t, s[i + 1..]);
    SameLettersPrefix([s[i]], t, s[i + 1..]);
  }

  lemma DeletedGroupCase(s: string, i: nat, n: nat)
    requires StandaloneNumberAt(s, i)
    requires var j := NumberGroupEnd(s, DigitRunEnd(s, i), n);
      IsSubseq(DeleteNumbersFrom(s, j, n), s[j..]) && SameLetters(DeleteNumbersFrom(s, j, n), s[j..])
    ensures IsSubseq(DeleteNumbersFrom(s, i, n), s[i..])
    ensures SameLetters(DeleteNumbersFrom(s, i, n), s[i..])
  {
    var e := DigitRunEnd(s, i);
    var j := NumberGroupEnd(s, e, n);
    var t := DeleteNumbersFrom(s, j, n);
    assert DeleteNumbersFrom(s, i, n) == t;
    NumberGroupOnlyDeletesNumbers(s, e, n);
    SkipDeleted(s, i, j, t);
  }

  /** Deleting a stretch of digits and non-word characters in front keeps
      the result a subsequence with the same letters. */
  lemma SkipDeleted(s: string, i: nat, j: nat, t: string)
    requires i <= j <= |s|
    requires forall k :: i <= k < j ==> IsDigit(s[k]) || !IsWordChar(s[k])
    requires IsSubseq(t, s[j..]) && SameLetters(t, s[j..])
    ensures IsSubseq(t, s[i..]) && SameLetters(t, s[i..])
  {
    DropDrop(s, i, j - i);
    PrefixDrop(t, s[i..], j - i);
    NoLettersIn(s[i..j]);
    SameLettersDrop(s[i..j], t, s[j..]);
    DropJoin(s, i, j);
  }

  lemma CopiedRunCase(s: string, i: nat, n: nat)
    requires i < |s| && IsDigit(s[i]) && !StandaloneNumberAt(s, i)
    requires var e := DigitRunEnd(s, i);
      IsSubseq(DeleteNumbersFrom(s, e, n), s[e..]) && SameLetters(DeleteNumbersFrom(s, e, n), s[e..])
    ensures IsSubseq(DeleteNumbersFrom(s, i, n), s[i..])
    ensures SameLetters(DeleteNumbersFrom(s, i, n), s[i..])
  {
    var e := DigitRunEnd(s, i);
    var t := DeleteNumbersFrom(s, e, n);
    assert DeleteNumbersFrom(s, i, n) == s[i..e] + t;
    DropJoin(s, i, e);
    SubseqAppendLeft(s[i..e], t, s[e..]);
    SameLettersPrefix(s[i..e], t, s[e..]);
  }

  /** The same text in front keeps the letter counts equal. */
  lemma SameLettersPrefix(p: string, a: string, b: string)
    requires SameLetters(a, b)
    ensures SameLetters(p + a, p + b)
  {
    assert multiset(p + a) == multiset(p) + multiset(a);
    assert multiset(p + b) == multiset(p) + multiset(b);
  }

  /** Leaving out a stretch without letters keeps the letter counts. */
  lemma SameLettersDrop(seg: string, t: string, rest: string)
    requires SameLetters(seg, []) && SameLetters(t, rest)
    ensures SameLetters(t, seg + rest)
  {
    assert multiset(seg + rest) == multiset(seg) + multiset(rest);
  }

  /** A match of the number pattern holds only digits and non-word
      characters. */
  lemma {:induction false} NumberGroupOnlyDeletesNumbers(s: string, e: nat, n: nat)
    requires e <= |s| && (e == |s| || !IsWordChar(s[e]))
    ensures forall k :: e <= k < NumberGroupEnd(s, e, n) ==> IsDigit(s[k]) || !IsWordChar(s[k])
    decreases n
  {
    if n > 0 {
      var w := NonWordRunEnd(s, e);
      if w > e && StandaloneNumberAt(s, w) {
        NumberGroupOnlyDeletesNumbers(s, DigitRunEnd(s, w), n - 1);
      }
    }
  }

  lemma {:induction false} SubseqAppendLeft(p: string, t: string, b: string)
    requires IsSubseq(t, b)
    ensures IsSubseq(p + t, p + b)
    decreases |p|
  {
    if p != [] {
      SubseqAppendLeft(p[1..], t, b);
      assert p + t == [p[0]] + (p[1..] + t);
      assert p + b == [p[0]] + (p[1..] + b);
      SubseqCons(p[0], p[1..] + t, p[1..] + b);
    } else {
      assert p + t == t && p + b == b;
    }
  }

  /** A lone number is deleted outright. */
  lemma LoneNumberDeleted(s: string, n: nat)
    requires s != [] && forall k :: 0 <= k < |s| ==> IsDigit(s[k])
    ensures DeleteNumbers(s, n) == []
  {
    var e := DigitRunEnd(s, 0);
    assert e == |s|;
    assert StandaloneNumberAt(s, 0);
    var j := NumberGroupEnd(s, e, n);
    assert j == |s|;
    assert DeleteNumbersFrom(s, 0, n) == DeleteNumbersFrom(s, j, n);
  }

  /** The end of the match that starts at the standalone number at `p`. */
  function NumberEnd(s: string, p: nat, n: nat): nat
    requires StandaloneNumberAt(s, p)
  {
    NumberGroupEnd(s, DigitRunEnd(s, p), n)
  }

  /** The spans the substitution deletes from index `i` on. */
  function NumberMatches(s: string, i: nat, n: nat): seq<Match>
    requires i <= |s|
    decreases |s| - i
  {
    if i == |s| then []
    else if !IsDigit(s[i]) then NumberMatches(s, i + 1, n)
    else if StandaloneNumberAt(s, i) then
      [Match(i, NumberEnd(s, i, n))] + NumberMatches(s, NumberEnd(s, i, n), n)
    else NumberMatches(s, DigitRunEnd(s, i), n)
  }

  /** The matches from `i` on are the pattern's: each starts at a
      standalone number and runs to the end the pattern gives from there;
      every standalone number lies in some match; and `r` is the text with
      exactly those spans deleted. */
  predicate NumberMatchesFrom(s: string, i: nat, n: nat, ms: seq<Match>, r: string)
    requires i <= |s|
  {
    && Ordered(s, i, ms)
    && (forall k :: 0 <= k < |ms| ==>
          StandaloneNumberAt(s, ms[k].start) && ms[k].end == NumberEnd(s, ms[k].start, n))
    && (forall p :: i <= p < |s| && StandaloneNumberAt(s, p) ==> Covers(ms, p))
    && r == CutOut(s, i, ms)
  }

  lemma {:induction false} DeleteNumbersMatches(s: string, i: nat, n: nat)
    requires i <= |s|
    ensures NumberMatchesFrom(s, i, n, NumberMatches(s, i, n), DeleteNumbersFrom(s, i, n))
    decreases |s| - i, 1
  {
    if i == |s| {
      assert s[i..] == [];
    } else if !IsDigit(s[i]) {
      assert s[i..i + 1] == [s[i]];
      CopiedMatchCase(s, i, i + 1, n);
    } else if StandaloneNumberAt(s, i) {
      DeletedMatchCase(s, i, n);
    } else {
      var e := DigitRunEnd(s, i);
      forall p | i < p < e ensures !StandaloneNumberAt(s, p) {
        assert IsDigit(s[p - 1]);
      }
      CopiedMatchCase(s, i, e, n);
    }
  }

  /** Text `s[i..e]` without a standalone number, copied as it is. */
  lemma CopiedMatchCase(s: string, i: nat, e: nat, n: nat)
    requires i < e <= |s| && forall p :: i <= p < e ==> !StandaloneNumberAt(s, p)
    requires DeleteNumbersFrom(s, i, n) == s[i..e] + DeleteNumbersFrom(s, e, n)
    requires NumberMatches(s, i, n) == NumberMatches(s, e, n)
    ensures NumberMatchesFrom(s, i, n, NumberMatches(s, i, n), DeleteNumbersFrom(s, i, n))
    decreases |s| - i, 0
  {
    DeleteNumbersMatches(s, e, n);
    CutOutAfter(s, i, e, NumberMatches(s, e, n));
  }

  lemma DeletedMatchCase(s: string, i: nat, n: nat)
    requires StandaloneNumberAt(s, i)
    ensures NumberMatchesFrom(s, i, n, NumberMatches(s, i, n), DeleteNumbersFrom(s, i, n))
    decreases |s| - i, 0
  {
    var j := NumberEnd(s, i, n);
    DeleteNumbersMatches(s, j, n);
    var rest := NumberMatches(s, j, n);
    var ms := NumberMatches(s, i, n);
    assert ms == [Match(i, j)] + rest;
    MatchThen(s, i, j, rest);
    assert DeleteNumbersFrom(s, i, n) == DeleteNumbersFrom(s, j, n);
    forall k | 0 <= k < |ms|
      ensures StandaloneNumberAt(s, ms[k].start) && ms[k].end == NumberEnd(s, ms[k].start, n)
    {
      if k > 0 {
        assert ms[k] == rest[k - 1];
      }
    }
  }

  /** Text without a standalone number from index `i` on comes back
      unchanged: the substitution deletes nothing else. */
  lemma {:induction false} NoNumbersUnchanged(s: string, i: nat, n: nat)
    requires i <= |s|
    requires forall p :: i <= p < |s| ==> !StandaloneNumberAt(s, p)
    ensures DeleteNumbersFrom(s, i, n) == s[i..]
    decreases |s| - i
  {
    if i < |s| {
      if !IsDigit(s[i]) {
        NoNumbersUnchanged(s, i + 1, n);
        assert s[i..] == [s[i]] + s[i + 1..];
      } else {
        var e := DigitRunEnd(s, i);
        NoNumbersUnchanged(s, e, n);
        assert s[i..] == s[i..e] + s[e..];
      }
    }
  }

  // ---------------------------------------------------------------------
  // Upper-case runs: ([A-Z]{2,}(?:\s+[A-Z]{2,}){0,C})

  /** The first non-upper-case index at or after `i`, or |s|. */
  function UpperRunEnd(s: string, i: nat): (j: nat)
    requires i <= |s|
    ensures i <= j <= |s|
    ensures forall k :: i <= k < j ==> IsUpper(s[k])
    ensures j < |s| ==> !IsUpper(s[j])
    decreases |s| - i
  {
    if i == |s| || !IsUpper(s[i]) then i else UpperRunEnd(s, i + 1)
  }

  /** `[A-Z]{2,}` can start at `i`. */
  predicate CapitalsAt(s: string, i: int) {
    0 <= i && i + 1 < |s| && IsUpper(s[i]) && IsUpper(s[i + 1])
  }

  /** The end of a match whose capitals so far end at `e`: up to `n` more
      runs of two or more capitals, each after whitespace. */
  function CapitalGroupEnd(s: string, e: nat, n: nat): (j: nat)
    requires e <= |s|
    ensures e <= j <= |s|
    decreases n
  {
    if n == 0 then e
    else
      var w := SpaceEnd(s, e);
      if w > e && CapitalsAt(s, w) then CapitalGroupEnd(s, UpperRunEnd(s, w), n - 1)
      else e
  }

  /** What remains of a section and the runs taken out of it. */
  datatype Extracted = Extracted(rest: string, found: seq<string>)

  /** The scan from index `i` on; `findall` and `sub` make the same matches. */
  function ExtractCapitalsFrom(s: string, i: nat, n: nat): (x: Extracted)
    requires i <= |s|
    decreases |s| - i
  {
    if i == |s| then Extracted([], [])
    else if CapitalsAt(s, i) then
      var j := CapitalGroupEnd(s, UpperRunEnd(s, i), n);
      var x := ExtractCapitalsFrom(s, j, n);
      Extracted(x.rest, [s[i..j]] + x.found)
    else
      var x := ExtractCapitalsFrom(s, i + 1, n);
      Extracted([s[i]] + x.rest, x.found)
  }

  /** Step 9 of the section loop with `capital_proximity == n`. */
  function ExtractCapitals(s: string, n: nat): Extracted {
    ExtractCapitalsFrom(s, 0, n)
  }

  /** A run the pass extracts: two or more capitals first and last, only
      capitals and whitespace between. */
  predicate CapitalRun(r: string) {
    |r| >= 2 && IsUpper(r[0]) && IsUpper(r[1]) && IsUpper(r[|r| - 1]) &&
    forall k :: 0 <= k < |r| ==> IsUpper(r[k]) || IsSpace(r[k])
  }

  /** Total length of a list of strings. */
  function TotalLength(xs: seq<string>): nat {
    if xs == [] then 0 else |xs[0]| + TotalLength(xs[1..])
  }

  lemma {:induction false} CapitalGroupShape(s: string, i: nat, e: nat, n: nat)
    requires i + 2 <= e <= |s|
    requires forall k :: i <= k < e ==> IsUpper(s[k]) || IsSpace(s[k])
    requires IsUpper(s[i]) && IsUpper(s[i + 1]) && IsUpper(s[e - 1])
    ensures CapitalRun(s[i..CapitalGroupEnd(s, e, n)])
    decreases n
  {
    var j := CapitalGroupEnd(s, e, n);
    if n > 0 {
      var w := SpaceEnd(s, e);
      if w > e && CapitalsAt(s, w) {
        var u := UpperRunEnd(s, w);
        CapitalGroupShape(s, i, u, n - 1);
      } else {
        assert j == e;
      }
    }
  }

  /** What the scan from index `i` on satisfies: every extracted run is a
      run of capitals; what remains has no two capitals in a row, is a
      subsequence of the input, and its length plus the runs' lengths is
      the input's. `CapitalMatchesFrom` says where each run comes from. */
  predicate CapitalsInvariant(s: string, i: nat, x: Extracted)
    requires i <= |s|
  {
    && (forall k :: 0 <= k < |x.found| ==> CapitalRun(x.found[k]))
    && (forall k :: 0 <= k < |x.rest| - 1 ==> !(IsUpper(x.rest[k]) && IsUpper(x.rest[k + 1])))
    && |x.rest| + TotalLength(x.found) == |s| - i
    && IsSubseq(x.rest, s[i..])
    && (i < |s| && !IsUpper(s[i]) ==> x.rest != [] && x.rest[0] == s[i])
  }

  lemma {:induction false} ExtractCapitalsFromSpec(s: string, i: nat, n: nat)
    requires i <= |s|
    ensures CapitalsInvariant(s, i, ExtractCapitalsFrom(s, i, n))
    decreases |s| - i
  {
    if i < |s| {
      if CapitalsAt(s, i) {
        var j := CapitalGroupEnd(s, UpperRunEnd(s, i), n);
        ExtractCapitalsFromSpec(s, j, n);
        ExtractedRunCase(s, i, n);
      } else {
        ExtractCapitalsFromSpec(s, i + 1, n);
        KeptCapitalCase(s, i, n);
      }
    }
  }

  lemma ExtractedRunCase(s: string, i: nat, n: nat)
    requires CapitalsAt(s, i)
    requires CapitalsInvariant(s, CapitalGroupEnd(s, UpperRunEnd(s, i), n),
                               ExtractCapitalsFrom(s, CapitalGroupEnd(s, UpperRunEnd(s, i), n), n))
    ensures CapitalsInvariant(s, i, ExtractCapitalsFrom(s, i, n))
  {
    var u := UpperRunEnd(s, i);
    var j := CapitalGroupEnd(s, u, n);
    CapitalGroupShape(s, i, u, n);
    var y := ExtractCapitalsFrom(s, j, n);
    assert ExtractCapitalsFrom(s, i, n) == Extracted(y.rest, [s[i..j]] + y.found);
    RunThenRest(s, i, j, y);
  }

  /** A run taken out in front of a scan that keeps the invariant keeps it. */
  lemma RunThenRest(s: string, i: nat, j: nat, y: Extracted)
    requires i < j <= |s| && CapitalRun(s[i..j])
    requires CapitalsInvariant(s, j, y)
    ensures CapitalsInvariant(s, i, Extracted(y.rest, [s[i..j]] + y.found))
  {
    var x := Extracted(y.rest, [s[i..j]] + y.found);
    assert x.found[1..] == y.found;
    assert TotalLength(x.found) == j - i + TotalLength(y.found);
    assert forall k :: 0 < k < |x.found| ==> x.found[k] == y.found[k - 1];
    assert IsUpper(s[i]) by { assert s[i] == s[i..j][0]; }
    DropDrop(s, i, j - i);
    assert s[i..][j - i..] == s[j..];
    assert IsSubseq(y.rest, s[i..][j - i..]);
    PrefixDrop(y.rest, s[i..], j - i);
  }

  lemma KeptCapitalCase(s: string, i: nat, n: nat)
    requires i < |s| && !CapitalsAt(s, i)
    requires CapitalsInvariant(s, i + 1, ExtractCapitalsFrom(s, i + 1, n))
    ensures CapitalsInvariant(s, i, ExtractCapitalsFrom(s, i, n))
  {
    var y := ExtractCapitalsFrom(s, i + 1, n);
    var x := ExtractCapitalsFrom(s, i, n);
    assert x == Extracted([s[i]] + y.rest, y.found);
    assert s[i..] == [s[i]] + s[i + 1..];
    SubseqCons(s[i], y.rest, s[i + 1..]);
    if IsUpper(s[i]) && i + 1 < |s| {
      assert !IsUpper(s[i + 1]);
    }
  }

  /** The end of the match that starts at `p`. */
  function CapitalEnd(s: string, p: nat, n: nat): nat
    requires p <= |s|
  {
    CapitalGroupEnd(s, UpperRunEnd(s, p), n)
  }

  /** The spans of the matches the scan makes from index `i` on. */
  function CapitalMatches(s: string, i: nat, n: nat): seq<Match>
    requires i <= |s|
    decreases |s| - i
  {
    if i == |s| then []
    else if CapitalsAt(s, i) then [Match(i, CapitalEnd(s, i, n))] + CapitalMatches(s, CapitalEnd(s, i, n), n)
    else CapitalMatches(s, i + 1, n)
  }

  /** The matches from `i` on are the pattern's: each starts where two
      capitals stand and runs to the end the pattern gives from there; every
      place where two capitals stand lies in some match; `findall` returns
      exactly the matched text and `sub` leaves exactly the text between. */
  predicate CapitalMatchesFrom(s: string, i: nat, n: nat, ms: seq<Match>, x: Extracted)
    requires i <= |s|
  {
    && Ordered(s, i, ms)
    && (forall k :: 0 <= k < |ms| ==>
          CapitalsAt(s, ms[k].start) && ms[k].end == CapitalEnd(s, ms[k].start, n))
    && (forall p :: i <= p < |s| && CapitalsAt(s, p) ==> Covers(ms, p))
    && x.found == Matched(s, i, ms)
    && x.rest == CutOut(s, i, ms)
  }

  lemma {:induction false} ExtractCapitalsMatches(s: string, i: nat, n: nat)
    requires i <= |s|
    ensures CapitalMatchesFrom(s, i, n, CapitalMatches(s, i, n), ExtractCapitalsFrom(s, i, n))
    decreases |s| - i, 1
  {
    if i == |s| {
      assert s[i..] == [];
    } else if CapitalsAt(s, i) {
      ExtractedMatchCase(s, i, n);
    } else {
      KeptMatchCase(s, i, n);
    }
  }

  lemma KeptMatchCase(s: string, i: nat, n: nat)
    requires i < |s| && !CapitalsAt(s, i)
    ensures CapitalMatchesFrom(s, i, n, CapitalMatches(s, i, n), ExtractCapitalsFrom(s, i, n))
    decreases |s| - i, 0
  {
    ExtractCapitalsMatches(s, i + 1, n);
    var ms := CapitalMatches(s, i + 1, n);
    var y := ExtractCapitalsFrom(s, i + 1, n);
    assert CapitalMatches(s, i, n) == ms;
    assert ExtractCapitalsFrom(s, i, n) == Extracted([s[i]] + y.rest, y.found);
    CutOutAfter(s, i, i + 1, ms);
    MatchedAfter(s, i, i + 1, ms);
    assert s[i..i + 1] == [s[i]];
  }

  lemma ExtractedMatchCase(s: string, i: nat, n: nat)
    requires CapitalsAt(s, i)
    ensures CapitalMatchesFrom(s, i, n, CapitalMatches(s, i, n), ExtractCapitalsFrom(s, i, n))
    decreases |s| - i, 0
  {
    var j := CapitalEnd(s, i, n);
    ExtractCapitalsMatches(s, j, n);
    var rest := CapitalMatches(s, j, n);
    var ms := CapitalMatches(s, i, n);
    assert ms == [Match(i, j)] + rest;
    MatchThen(s, i, j, rest);
    forall k | 0 <= k < |ms|
      ensures CapitalsAt(s, ms[k].start) && ms[k].end == CapitalEnd(s, ms[k].start, n)
    {
      if k > 0 {
        assert ms[k] == rest[k - 1];
      }
    }
  }

  /** Two or more capitals and nothing else. */
  predicate Capitals(w: string) {
    |w| >= 2 && forall k :: 0 <= k < |w| ==> IsUpper(w[k])
  }

  /** Every word of `r` is two or more capitals. */
  predicate CapitalWords(r: string) {
    forall w :: w in Words(r) ==> Capitals(w)
  }

  /** The text `spaces[0] + runs[0] + spaces[1] + runs[1] + ...`. */
  function Spaced(spaces: seq<string>, runs: seq<string>): string
    requires |spaces| == |runs|
    decreases |runs|
  {
    if runs == [] then [] else spaces[0] + runs[0] + Spaced(spaces[1..], runs[1..])
  }

  /** Whitespace runs and capital runs, one of each per further run. */
  predicate SpacedCapitals(spaces: seq<string>, runs: seq<string>) {
    && |spaces| == |runs|
    && (forall k :: 0 <= k < |spaces| ==> |spaces[k]| > 0 && AllSpace(spaces[k]))
    && (forall k :: 0 <= k < |runs| ==> Capitals(runs[k]))
  }

  /** What a match takes after its first run: at most `n` runs of
      capitals, each after whitespace. */
  lemma {:induction false} CapitalGroupPieces(s: string, e: nat, n: nat)
    returns (spaces: seq<string>, runs: seq<string>)
    requires e <= |s|
    ensures SpacedCapitals(spaces, runs) && |runs| <= n
    ensures s[e..CapitalGroupEnd(s, e, n)] == Spaced(spaces, runs)
    decreases n
  {
    spaces, runs := [], [];
    if n > 0 {
      var w := SpaceEnd(s, e);
      if w > e && CapitalsAt(s, w) {
        var u := UpperRunEnd(s, w);
        var sp, rs := CapitalGroupPieces(s, u, n - 1);
        spaces, runs := [s[e..w]] + sp, [s[w..u]] + rs;
        PrependPiece(s, e, w, u, CapitalGroupEnd(s, u, n - 1), sp, rs);
      }
    }
  }

  lemma PrependPiece(s: string, e: nat, w: nat, u: nat, j: nat, sp: seq<string>, rs: seq<string>)
    requires e <= |s| && w == SpaceEnd(s, e) && e < w && CapitalsAt(s, w)
    requires u == UpperRunEnd(s, w) && u <= j <= |s|
    requires SpacedCapitals(sp, rs) && s[u..j] == Spaced(sp, rs)
    ensures SpacedCapitals([s[e..w]] + sp, [s[w..u]] + rs)
    ensures s[e..j] == Spaced([s[e..w]] + sp, [s[w..u]] + rs)
  {
    var spaces, runs := [s[e..w]] + sp, [s[w..u]] + rs;
    assert spaces[1..] == sp && runs[1..] == rs;
    assert AllSpace(s[e..w]) && Capitals(s[w..u]);
    SliceJoin(s, e, w, j);
    SliceJoin(s, w, u, j);
    assert s[e..j] == s[e..w] + s[w..u] + s[u..j];
  }

  /** Capitals after whitespace add one word of capitals. */
  lemma CapitalWordsStep(a: string, space: string, run: string)
    requires CapitalWords(a) && |space| > 0 && AllSpace(space) && Capitals(run)
    ensures CapitalWords(a + space + run)
    ensures |Words(a + space + run)| == |Words(a)| + 1
  {
    assert IsWord(run);
    WordsAroundSpace(a, space, run);
    WordsOfWord(run);
  }

  /** Each run after whitespace is one more word of capitals. */
  lemma {:induction false} CapitalWordsSpaced(a: string, spaces: seq<string>, runs: seq<string>)
    requires CapitalWords(a) && SpacedCapitals(spaces, runs)
    ensures CapitalWords(a + Spaced(spaces, runs))
    ensures |Words(a + Spaced(spaces, runs))| == |Words(a)| + |runs|
    decreases |runs|
  {
    if runs == [] {
      assert a + Spaced(spaces, runs) == a;
    } else {
      var a' := a + spaces[0] + runs[0];
      CapitalWordsStep(a, spaces[0], runs[0]);
      CapitalWordsSpaced(a', spaces[1..], runs[1..]);
      assert a + Spaced(spaces, runs) == a' + Spaced(spaces[1..], runs[1..]);
    }
  }

  /** A match is one to `n + 1` words, each of two or more capitals. */
  lemma CapitalMatchWords(s: string, p: nat, n: nat)
    requires CapitalsAt(s, p)
    ensures CapitalWords(s[p..CapitalEnd(s, p, n)])
    ensures 1 <= |Words(s[p..CapitalEnd(s, p, n)])| <= n + 1
  {
    var u := UpperRunEnd(s, p);
    var j := CapitalEnd(s, p, n);
    assert IsWord(s[p..u]) && Capitals(s[p..u]);
    WordsOfWord(s[p..u]);
    var spaces, runs := CapitalGroupPieces(s, u, n);
    CapitalWordsSpaced(s[p..u], spaces, runs);
    SliceJoin(s, p, u, j);
  }

  /** Every run extracted from index `i` on is one to `n + 1` words of
      capitals: the proximity bound of the pattern. */
  lemma {:induction false} ExtractedWords(s: string, i: nat, n: nat)
    requires i <= |s|
    ensures forall r :: r in ExtractCapitalsFrom(s, i, n).found ==>
              CapitalWords(r) && 1 <= |Words(r)| <= n + 1
    decreases |s| - i
  {
    if i < |s| {
      if CapitalsAt(s, i) {
        ExtractedWords(s, CapitalEnd(s, i, n), n);
        CapitalMatchWords(s, i, n);
      } else {
        ExtractedWords(s, i + 1, n);
      }
    }
  }

  // ---------------------------------------------------------------------
  // Dot leaders: re.finditer(r'(\.{5,})', s)

  /** The start positions of the matches from index `i` on: the first index
      of every maximal run of five or more dots, in increasing order
      (`DotLeadersFromShape`). */
  function DotLeadersFrom(s: string, i: nat): seq<nat>
    requires i <= |s|
    decreases |s| - i
  {
    if i == |s| then []
    else if s[i] == '.' then
      (if CharRunEnd(s, i, '.') - i >= 5 then [i] else []) + DotLeadersFrom(s, CharRunEnd(s, i, '.'))
    else DotLeadersFrom(s, i + 1)
  }

  /** Every start from `i` on begins five dots, is the first dot of its
      run (or `i` itself), and the starts increase. */
  predicate LeaderStarts(s: string, i: nat, starts: seq<nat>) {
    && (forall k :: 0 <= k < |starts| ==> i <= starts[k] && starts[k] + 5 <= |s|)
    && (forall k :: 0 <= k < |starts| ==> forall m :: starts[k] <= m < starts[k] + 5 ==> s[m] == '.')
    && (forall k :: 0 <= k < |starts| ==> starts[k] == i || s[starts[k] - 1] != '.')
    && (forall k, l :: 0 <= k < l < |starts| ==> starts[k] < starts[l])
  }

  lemma {:induction false} DotLeadersFromShape(s: string, i: nat)
    requires i <= |s|
    ensures LeaderStarts(s, i, DotLeadersFrom(s, i))
    decreases |s| - i
  {
    if i < |s| {
      if s[i] == '.' {
        var j := CharRunEnd(s, i, '.');
        var rest := DotLeadersFrom(s, j);
        DotLeadersFromShape(s, j);
        if j - i >= 5 {
          assert DotLeadersFrom(s, i) == [i] + rest;
          DotLeaderBefore(s, i, j, rest);
        } else {
          assert DotLeadersFrom(s, i) == rest;
          DotRunBefore(s, i, j, rest);
        }
      } else {
        DotLeadersFromShape(s, i + 1);
      }
    }
  }

  /** A run of dots `s[i..j]` in front of the matches after it. */
  lemma DotRunBefore(s: string, i: nat, j: nat, rest: seq<nat>)
    requires i < j <= |s| && (j == |s| || s[j] != '.')
    requires LeaderStarts(s, j, rest)
    ensures LeaderStarts(s, i, rest)
    ensures forall k :: 0 <= k < |rest| ==> i < rest[k]
  {
    forall k | 0 <= k < |rest| ensures rest[k] != j {
      assert s[rest[k]] == '.';
    }
  }

  /** A run of five or more dots `s[i..j]` is reported in front of the
      matches after it. */
  lemma DotLeaderBefore(s: string, i: nat, j: nat, rest: seq<nat>)
    requires i + 5 <= j <= |s| && (j == |s| || s[j] != '.')
    requires forall m :: i <= m < j ==> s[m] == '.'
    requires LeaderStarts(s, j, rest)
    ensures LeaderStarts(s, i, [i] + rest)
  {
    DotRunBefore(s, i, j, rest);
    var starts := [i] + rest;
    forall k | 0 <= k < |starts|
      ensures i <= starts[k] && starts[k] + 5 <= |s|
      ensures forall m :: starts[k] <= m < starts[k] + 5 ==> s[m] == '.'
      ensures starts[k] == i || s[starts[k] - 1] != '.'
    {
      if k > 0 {
        assert starts[k] == rest[k - 1];
      }
    }
    forall k, l | 0 <= k < l < |starts| ensures starts[k] < starts[l] {
      assert starts[l] == rest[l - 1];
      if k > 0 {
        assert starts[k] == rest[k - 1];
      }
    }
  }

  /** A match of `\.{5,}` starts at `p`: a run of five or more dots that
      the scan reaches at its first dot. */
  predicate LeaderAt(s: string, p: int) {
    0 <= p < |s| && s[p] == '.' && (p == 0 || s[p - 1] != '.') && CharRunEnd(s, p, '.') - p >= 5
  }

  /** The positions `finditer` reports for the table-of-contents pass. */
  function DotLeaders(s: string): (starts: seq<nat>)
    ensures forall k :: 0 <= k < |starts| ==> starts[k] + 5 <= |s|
    ensures forall k :: 0 <= k < |starts| ==> forall m :: starts[k] <= m < starts[k] + 5 ==> s[m] == '.'
    ensures forall k :: 0 <= k < |starts| ==> starts[k] == 0 || s[starts[k] - 1] != '.'
    ensures forall k, l :: 0 <= k < l < |starts| ==> starts[k] < starts[l]
  {
    DotLeadersFromShape(s, 0);
    DotLeadersFrom(s, 0)
  }

  /** The reported positions are exactly the starts of the dot runs of
      length five or more, in increasing order. */
  lemma DotLeadersExact(s: string)
    ensures forall p :: p in DotLeaders(s) <==> LeaderAt(s, p)
    ensures forall k, l :: 0 <= k < l < |DotLeaders(s)| ==> DotLeaders(s)[k] < DotLeaders(s)[l]
  {
    DotLeadersFromComplete(s, 0);
    assert forall p :: LeaderAt(s, p) ==> LeaderFrom(s, 0, p);
    LeadersAreRuns(s, DotLeaders(s));
  }

  /** A scan that starts at `i` treats `p` as the first dot of a run of
      five or more. */
  predicate LeaderFrom(s: string, i: nat, p: int) {
    i <= p < |s| && s[p] == '.' && (p == i || s[p - 1] != '.') && CharRunEnd(s, p, '.') - p >= 5
  }

  /** Every run start from `i` on with five or more dots is reported. */
  lemma {:induction false} DotLeadersFromComplete(s: string, i: nat)
    requires i <= |s|
    ensures forall p :: LeaderFrom(s, i, p) ==> p in DotLeadersFrom(s, i)
    decreases |s| - i
  {
    if i < |s| {
      var e := if s[i] == '.' then CharRunEnd(s, i, '.') else i + 1;
      DotLeadersFromComplete(s, e);
      forall p | LeaderFrom(s, i, p)
        ensures p in DotLeadersFrom(s, i)
      {
        if p != i {
          assert s[p - 1] != '.';
          assert LeaderFrom(s, e, p);
        }
      }
    }
  }

  /** A reported start begins a run of at least five dots. */
  lemma LeadersAreRuns(s: string, starts: seq<nat>)
    requires forall k :: 0 <= k < |starts| ==> starts[k] + 5 <= |s|
    requires forall k :: 0 <= k < |starts| ==> forall m :: starts[k] <= m < starts[k] + 5 ==> s[m] == '.'
    ensures forall k :: 0 <= k < |starts| ==> CharRunEnd(s, starts[k], '.') - starts[k] >= 5
  {
    forall k | 0 <= k < |starts|
      ensures CharRunEnd(s, starts[k], '.') - starts[k] >= 5
    {
      var e := CharRunEnd(s, starts[k], '.');
      assert e < |s| ==> s[e] != '.';
    }
  }
}
