/** `discard_close_sentences`: splits a section into sentences and drops
    each sentence that shares at least `threshold` distinct lower-cased
    words with the sentence right before it in the input. The baseline moves
    on to every sentence, kept or dropped. */
module CloseSentences {
  import opened PyStr
  import opened Sections

  /** `set(s.lower().split())`. */
  function WordSet(s: string): set<string> {
    var ws := Words(Lower(s));
    set k | 0 <= k < |ws| :: ws[k]
  }

  /** The sentence `s` is too close to `prev`: they share at least
      `threshold` distinct words. */
  predicate Close(prev: string, s: string, threshold: int) {
    |WordSet(prev) * WordSet(s)| >= threshold
  }

  /** The sentences the loop keeps, given the sentence before the first
      one. */
  function Kept(sentences: seq<string>, prev: string, threshold: int): seq<string>
    decreases |sentences|
  {
    if sentences == [] then []
    else
      (if Close(prev, sentences[0], threshold) then [] else [sentences[0]]) +
      Kept(sentences[1..], sentences[0], threshold)
  }

  /** The loop of `discard_close_sentences`: the first sentence is compared
      with the empty string, and the result is the kept sentences joined by
      single spaces. */
  method DiscardCloseSentences(text: string, threshold: int) returns (r: string)
    ensures r == JoinSpace(Kept(SplitSentences(text), "", threshold))
  {
    var sentences := SplitSentences(text);
    var filtered := KeepSentences(sentences, threshold);
    r := JoinSpace(filtered);
  }

  /** The loop over the sentences. */
  method KeepSentences(sentences: seq<string>, threshold: int) returns (filtered: seq<string>)
    ensures filtered == Kept(sentences, "", threshold)
  {
    filtered := [];
    var previous := "";
    for i := 0 to |sentences|
      invariant filtered + Kept(sentences[i..], previous, threshold) == Kept(sentences, "", threshold)
    {
      KeptStep(sentences, i, previous, threshold);
      ghost var rest := Kept(sentences[i + 1..], sentences[i], threshold);
      ghost var added := if Close(previous, sentences[i], threshold) then [] else [sentences[i]];
      assert filtered + (added + rest) == (filtered + added) + rest;
      filtered, previous := CompareSentence(filtered, previous, sentences[i], threshold);
    }
    assert sentences[|sentences|..] == [];
    assert Kept(sentences[|sentences|..], previous, threshold) == [];
  }

  /** The body of the loop for one sentence: keep it when it shares fewer
      than `threshold` words with the previous input sentence, and make it
      the previous sentence either way. */
  method CompareSentence(filtered: seq<string>, previous: string, sentence: string, threshold: int)
    returns (filtered': seq<string>, previous': string)
    ensures filtered' == filtered + (if Close(previous, sentence, threshold) then [] else [sentence])
    ensures previous' == sentence
  {
    var common := WordSet(previous) * WordSet(sentence);
    if |common| < threshold {
      filtered' := filtered + [sentence];
      previous' := sentence;
    } else {
      filtered' := filtered;
      previous' := sentence;
    }
  }

  /** One step of `Kept` from index `i`. */
  lemma KeptStep(sentences: seq<string>, i: nat, prev: string, threshold: int)
    requires i < |sentences|
    ensures Kept(sentences[i..], prev, threshold) ==
            (if Close(prev, sentences[i], threshold) then [] else [sentences[i]]) +
            Kept(sentences[i + 1..], sentences[i], threshold)
  {
    assert sentences[i..][1..] == sentences[i + 1..];
  }

  /** The kept sentences are an in-order subsequence of the sentences. */
  lemma {:induction false} KeptSubseq(sentences: seq<string>, prev: string, threshold: int)
    ensures IsSubseq(Kept(sentences, prev, threshold), sentences)
    decreases |sentences|
  {
    if sentences != [] {
      var rest := Kept(sentences[1..], sentences[0], threshold);
      KeptSubseq(sentences[1..], sentences[0], threshold);
      assert sentences == [sentences[0]] + sentences[1..];
      if Close(prev, sentences[0], threshold) {
        assert Kept(sentences, prev, threshold) == rest;
        SubseqDrop(rest, sentences[0], sentences[1..]);
      } else {
        assert Kept(sentences, prev, threshold) == [sentences[0]] + rest;
        SubseqCons(sentences[0], rest, sentences[1..]);
      }
    }
  }

  /** The input sentence before sentence `k`; the first one has `""`. */
  function Preceding(sentences: seq<string>, k: nat): string
    requires k < |sentences|
  {
    if k == 0 then "" else sentences[k - 1]
  }

  /** Which sentences survive, one flag per input sentence: sentence `k` is
      kept exactly when it is not close to input sentence `k - 1`. */
  function KeepMask(sentences: seq<string>, threshold: int): (m: seq<bool>)
    ensures |m| == |sentences|
  {
    seq(|sentences|, k requires 0 <= k < |sentences| =>
      !Close(Preceding(sentences, k), sentences[k], threshold))
  }

  /** The elements of `a` whose flag is set, in order. */
  function Select<T>(a: seq<T>, mask: seq<bool>): seq<T>
    requires |a| == |mask|
    decreases |a|
  {
    if a == [] then [] else (if mask[0] then [a[0]] else []) + Select(a[1..], mask[1..])
  }

  lemma SelectStep<T>(a: seq<T>, mask: seq<bool>)
    requires |a| == |mask| && a != []
    ensures Select(a, mask) == (if mask[0] then [a[0]] else []) + Select(a[1..], mask[1..])
  {
  }

  lemma {:induction false} KeptFrom(sentences: seq<string>, threshold: int, k: nat)
    requires k <= |sentences|
    ensures Kept(sentences[k..], if k == 0 then "" else sentences[k - 1], threshold) ==
            Select(sentences[k..], KeepMask(sentences, threshold)[k..])
    decreases |sentences| - k
  {
    if k < |sentences| {
      KeptFrom(sentences, threshold, k + 1);
      var m := KeepMask(sentences, threshold);
      KeptStep(sentences, k, Preceding(sentences, k), threshold);
      SelectStep(sentences[k..], m[k..]);
      assert sentences[k..][1..] == sentences[k + 1..];
      assert m[k..][1..] == m[k + 1..];
    }
  }

  /** The result is exactly the sentences whose flag is set, where sentence
      `k` is dropped if and only if it shares at least `threshold` distinct
      words with input sentence `k - 1`, whether that one was kept or not. */
  lemma KeptIsSelect(sentences: seq<string>, threshold: int)
    ensures Kept(sentences, "", threshold) == Select(sentences, KeepMask(sentences, threshold))
  {
    KeptFrom(sentences, threshold, 0);
    assert sentences[0..] == sentences;
    assert KeepMask(sentences, threshold)[0..] == KeepMask(sentences, threshold);
  }

  /** With a threshold of one or more the first sentence is always kept: it
      is compared with the empty string. */
  lemma FirstSentenceKept(sentences: seq<string>, threshold: int)
    requires sentences != [] && threshold >= 1
    ensures Kept(sentences, "", threshold) != []
    ensures Kept(sentences, "", threshold)[0] == sentences[0]
  {
    assert Words(Lower("")) == [];
    assert WordSet("") == {};
  }

  /** With a threshold of zero or less every sentence is dropped. */
  lemma {:induction false} NonPositiveDropsAll(sentences: seq<string>, prev: string, threshold: int)
    requires threshold <= 0
    ensures Kept(sentences, prev, threshold) == []
    decreases |sentences|
  {
    if sentences != [] {
      NonPositiveDropsAll(sentences[1..], sentences[0], threshold);
    }
  }

  /** ... so the whole section becomes the empty string. */
  lemma NonPositiveGivesEmpty(text: string, threshold: int)
    requires threshold <= 0
    ensures JoinSpace(Kept(SplitSentences(text), "", threshold)) == ""
  {
    NonPositiveDropsAll(SplitSentences(text), "", threshold);
  }
}
