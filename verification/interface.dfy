/** The text interface of the summariser: the character sanitizer applied to
    converted documents and the greedy word chunker that cuts the reduced text
    into pieces for the language model. */
module Interface {
  import opened PyStr

  // ---------------------------------------------------------------------
  // sanitize_text

  /** The characters the sanitizer keeps: ASCII letters, digits, whitespace
      and the punctuation `. , ; : ! ? ' " -`. */
  predicate IsAllowed(c: char) {
    IsAlpha(c) || IsDigit(c) || IsSpace(c) || c in ".,;:!?'\"-"
  }

  /** `sanitize_text`: deletes every character outside the allowed set. */
  function SanitizeText(text: string): (r: string)
    ensures forall k :: 0 <= k < |r| ==> IsAllowed(r[k])
    ensures IsSubseq(r, text)
    ensures forall c :: IsAllowed(c) ==> multiset(r)[c] == multiset(text)[c]
    ensures forall c :: !IsAllowed(c) ==> multiset(r)[c] == 0
    ensures |r| <= |text|
  {
    if text == [] then []
    else
      var rest := SanitizeText(text[1..]);
      assert text == [text[0]] + text[1..];
      if IsAllowed(text[0]) then
        SubseqCons(text[0], rest, text[1..]);
        [text[0]] + rest
      else
        SubseqDrop(rest, text[0], text[1..]);
        rest
  }

  /** Text made only of allowed characters passes through unchanged. */
  lemma {:induction false} SanitizeKeepsAllowed(text: string)
    requires forall k :: 0 <= k < |text| ==> IsAllowed(text[k])
    ensures SanitizeText(text) == text
  {
    if text != [] {
      SanitizeKeepsAllowed(text[1..]);
      assert text == [text[0]] + text[1..];
    }
  }

  /** Sanitizing twice is sanitizing once. */
  lemma SanitizeIdempotent(text: string)
    ensures SanitizeText(SanitizeText(text)) == SanitizeText(text)
  {
    SanitizeKeepsAllowed(SanitizeText(text));
  }

  // ---------------------------------------------------------------------
  // chunk_text

  /** A word that forces a new chunk: it contains `?`, or it ends in `:`
      once stripped. */
  predicate IsBreak(w: string) {
    '?' in w || (|Strip(w)| > 0 && Strip(w)[|Strip(w)| - 1] == ':')
  }

  /** `chunk_text`: walks the words of `text`, closing the current chunk
      before a break word and whenever the next word would take it past
      `tokenLimit` words. Every word stays, in order; break words only ever
      start a chunk; an empty chunk appears only in front of a leading break
      word or when the limit is below one. */
  method ChunkText(text: string, tokenLimit: int) returns (chunks: seq<string>)
    ensures WordsOfAll(chunks) == Words(text)
    ensures tokenLimit >= 1 ==> forall i :: 0 <= i < |chunks| ==> |Words(chunks[i])| <= tokenLimit
    ensures tokenLimit <= 0 ==> forall i :: 0 <= i < |chunks| ==> |Words(chunks[i])| <= 1
    ensures forall i, k :: 0 <= i < |chunks| && 0 < k < |Words(chunks[i])| ==> !IsBreak(Words(chunks[i])[k])
    ensures forall i :: 0 <= i < |chunks| && chunks[i] == [] ==>
              tokenLimit <= 0 || (i == 0 && |Words(text)| > 0 && IsBreak(Words(text)[0]))
    ensures Words(text) != [] && IsBreak(Words(text)[0]) ==> |chunks| > 0 && chunks[0] == []
    ensures Words(text) == [] <==> chunks == []
    ensures chunks != [] ==> chunks[|chunks| - 1] != []
    ensures forall k :: 0 <= k < |chunks| - 1 ==> ClosedAt(chunks, k, tokenLimit)
  {
    var words := Words(text);
    var bound := if tokenLimit >= 1 then tokenLimit else 1;
    chunks := [];
    var currentChunk: seq<string> := [];
    var currentTokens := 0;
    for idx := 0 to |words|
      invariant ChunkLoop(words, idx, chunks, currentChunk, currentTokens, tokenLimit, bound)
      invariant Greedy(chunks, currentChunk, tokenLimit)
    {
      chunks, currentChunk, currentTokens :=
        ChunkStep(words, idx, chunks, currentChunk, currentTokens, tokenLimit, bound);
    }
    TakeAll(words);
    FinishChunks(text, tokenLimit, bound, chunks, currentChunk);
    GreedyFinish(chunks, currentChunk, tokenLimit);
    if currentChunk != [] {
      chunks := CloseChunk(chunks, currentChunk);
    }
  }

  /** The invariant of the loop of `chunk_text` after the first `idx`
      words: the closed chunks and the current chunk hold exactly those
      words, the token count is the current chunk's length, and the shape
      facts of `ChunksOk` hold. */
  predicate ChunkLoop(words: seq<string>, idx: int, chunks: seq<string>, current: seq<string>,
                      tokens: int, tokenLimit: int, bound: int)
  {
    && 0 <= idx <= |words|
    && WordsOfAll(chunks) + current == words[..idx]
    && tokens == |current| <= bound
    && (forall k :: 0 <= k < |current| ==> IsWord(current[k]))
    && (forall k :: 0 < k < |current| ==> !IsBreak(current[k]))
    && (idx > 0 ==> ChunksOk(chunks, words[0], tokenLimit, bound))
    && (idx > 0 && IsBreak(words[0]) ==> |chunks| > 0 && chunks[0] == [])
    && (idx == 0 <==> current == [])
    && (idx == 0 ==> chunks == [])
  }

  /** One round of the loop: `AddWord` on the next word, which keeps the
      invariant. */
  method ChunkStep(words: seq<string>, idx: int, chunks: seq<string>, current: seq<string>,
                   tokens: int, tokenLimit: int, ghost bound: int)
    returns (chunks': seq<string>, current': seq<string>, tokens': int)
    requires forall k :: 0 <= k < |words| ==> IsWord(words[k])
    requires bound == if tokenLimit >= 1 then tokenLimit else 1
    requires ChunkLoop(words, idx, chunks, current, tokens, tokenLimit, bound) && idx < |words|
    requires Greedy(chunks, current, tokenLimit)
    ensures ChunkLoop(words, idx + 1, chunks', current', tokens', tokenLimit, bound)
    ensures Greedy(chunks', current', tokenLimit)
  {
    chunks', current', tokens' := AddWord(chunks, current, tokens, words[idx], tokenLimit, words[0], bound);
    ChunkLoopNext(words, idx, chunks, current, chunks', current', tokens', tokenLimit, bound);
    GreedyNext(chunks, current, words[idx], chunks', current', tokenLimit);
  }

  /** One round of `AddWord`, as its contract states it, keeps `Greedy`. */
  lemma GreedyNext(chunks: seq<string>, current: seq<string>, word: string,
                   chunks': seq<string>, current': seq<string>, tokenLimit: int)
    requires Greedy(chunks, current, tokenLimit)
    requires forall k :: 0 <= k < |current| ==> IsWord(current[k])
    requires var chunks1 := if IsBreak(word) then chunks + [JoinSpace(current)] else chunks;
             var current1 := if IsBreak(word) then [] else current;
             && (|current1| + 1 > tokenLimit ==> chunks' == chunks1 + [JoinSpace(current1)] && current' == [word])
             && (|current1| + 1 <= tokenLimit ==> chunks' == chunks1 && current' == current1 + [word])
    ensures Greedy(chunks', current', tokenLimit)
  {
    if IsBreak(word) {
      WordsOfJoin(current);
      if 1 > tokenLimit {
        GreedyClose(chunks, current, [], tokenLimit);
        GreedyClose(chunks + [JoinSpace(current)], [], [word], tokenLimit);
      } else {
        GreedyClose(chunks, current, [word], tokenLimit);
      }
    } else if |current| + 1 > tokenLimit {
      WordsOfJoin(current);
      GreedyClose(chunks, current, [word], tokenLimit);
    } else {
      assert current != [] ==> (current + [word])[0] == current[0];
    }
  }

  lemma ChunkLoopNext(words: seq<string>, idx: int, chunks: seq<string>, current: seq<string>,
                      chunks': seq<string>, current': seq<string>, tokens': int, tokenLimit: int, bound: int)
    requires ChunkLoop(words, idx, chunks, current, |current|, tokenLimit, bound) && idx < |words|
    requires WordsOfAll(chunks') + current' == WordsOfAll(chunks) + current + [words[idx]]
    requires tokens' == |current'| <= bound
    requires current' != [] && current'[|current'| - 1] == words[idx]
    requires forall k :: 0 <= k < |current'| ==> IsWord(current'[k])
    requires forall k :: 0 < k < |current'| ==> !IsBreak(current'[k])
    requires ChunksOk(chunks', words[0], tokenLimit, bound)
    requires |chunks'| >= |chunks| && chunks'[..|chunks|] == chunks
    requires IsBreak(words[idx]) ==> |chunks'| > |chunks| && (current == [] <==> chunks'[|chunks|] == [])
    ensures ChunkLoop(words, idx + 1, chunks', current', tokens', tokenLimit, bound)
  {
    TakeNext(words, idx);
    if idx > 0 && IsBreak(words[0]) {
      assert chunks'[0] == chunks'[..|chunks|][0];
    }
  }

  /** After the last word: `if current_chunk: chunks.append(...)`, and what
      the loop's invariant then gives about the whole list. */
  lemma FinishChunks(text: string, tokenLimit: int, bound: int, chunks: seq<string>, current: seq<string>)
    requires bound == if tokenLimit >= 1 then tokenLimit else 1
    requires WordsOfAll(chunks) + current == Words(text)
    requires |current| <= bound
    requires forall k :: 0 <= k < |current| ==> IsWord(current[k])
    requires forall k :: 0 < k < |current| ==> !IsBreak(current[k])
    requires Words(text) != [] ==> ChunksOk(chunks, Words(text)[0], tokenLimit, bound)
    requires Words(text) != [] && IsBreak(Words(text)[0]) ==> |chunks| > 0 && chunks[0] == []
    requires Words(text) == [] <==> current == []
    requires Words(text) == [] ==> chunks == []
    ensures var r := if current != [] then CloseChunk(chunks, current) else chunks;
      && WordsOfAll(r) == Words(text)
      && (tokenLimit >= 1 ==> forall i :: 0 <= i < |r| ==> |Words(r[i])| <= tokenLimit)
      && (tokenLimit <= 0 ==> forall i :: 0 <= i < |r| ==> |Words(r[i])| <= 1)
      && (forall i, k :: 0 <= i < |r| && 0 < k < |Words(r[i])| ==> !IsBreak(Words(r[i])[k]))
      && (forall i :: 0 <= i < |r| && r[i] == [] ==>
            tokenLimit <= 0 || (i == 0 && |Words(text)| > 0 && IsBreak(Words(text)[0])))
      && (Words(text) != [] && IsBreak(Words(text)[0]) ==> |r| > 0 && r[0] == [])
      && (Words(text) == [] <==> r == [])
      && (r != [] ==> r[|r| - 1] != [])
  {
    var words := Words(text);
    if current != [] {
      ChunksOkAppend(chunks, current, words[0], tokenLimit, bound);
      var r := CloseChunk(chunks, current);
      assert ChunksOk(r, words[0], tokenLimit, bound);
    }
  }

  /** The body of the loop of `chunk_text` for one word: close the current
      chunk before a break word, count the word's tokens, and start a new
      chunk with the word when the count passes the limit. */
  method AddWord(chunks: seq<string>, current: seq<string>, tokens: int, word: string,
                 tokenLimit: int, ghost first: string, ghost bound: int)
    returns (chunks': seq<string>, current': seq<string>, tokens': int)
    requires IsWord(word)
    requires bound == if tokenLimit >= 1 then tokenLimit else 1
    requires tokens == |current| <= bound
    requires forall k :: 0 <= k < |current| ==> IsWord(current[k])
    requires forall k :: 0 < k < |current| ==> !IsBreak(current[k])
    requires current == [] ==> chunks == [] && word == first
    requires chunks != [] ==> ChunksOk(chunks, first, tokenLimit, bound)
    ensures WordsOfAll(chunks') + current' == WordsOfAll(chunks) + current + [word]
    ensures tokens' == |current'| <= bound
    ensures current' != [] && current'[|current'| - 1] == word
    ensures forall k :: 0 <= k < |current'| ==> IsWord(current'[k])
    ensures forall k :: 0 < k < |current'| ==> !IsBreak(current'[k])
    ensures ChunksOk(chunks', first, tokenLimit, bound)
    ensures |chunks'| >= |chunks| && chunks'[..|chunks|] == chunks
    ensures IsBreak(word) ==> |chunks'| > |chunks| && (current == [] <==> chunks'[|chunks|] == [])
    ensures var chunks1 := if IsBreak(word) then chunks + [JoinSpace(current)] else chunks;
            var current1 := if IsBreak(word) then [] else current;
            && (|current1| + 1 > tokenLimit ==> chunks' == chunks1 + [JoinSpace(current1)] && current' == [word])
            && (|current1| + 1 <= tokenLimit ==> chunks' == chunks1 && current' == current1 + [word])
  {
    WordsOfWord(word);
    var chunks1, current1, tokens1 := CloseForBreak(chunks, current, tokens, word, tokenLimit, first, bound);
    chunks', current', tokens' := FitWord(chunks1, current1, tokens1, word, tokenLimit, first, bound);
    assert chunks'[..|chunks1|][..|chunks|] == chunks'[..|chunks|];
    if IsBreak(word) {
      assert chunks'[|chunks|] == chunks'[..|chunks1|][|chunks|];
    }
  }

  /** Before a break word: close the current chunk, even an empty one, and
      reset the count. */
  method CloseForBreak(chunks: seq<string>, current: seq<string>, tokens: int, word: string,
                       tokenLimit: int, ghost first: string, ghost bound: int)
    returns (chunks': seq<string>, current': seq<string>, tokens': int)
    requires bound == if tokenLimit >= 1 then tokenLimit else 1
    requires tokens == |current| <= bound
    requires forall k :: 0 <= k < |current| ==> IsWord(current[k])
    requires forall k :: 0 < k < |current| ==> !IsBreak(current[k])
    requires current == [] ==> chunks == [] && word == first
    requires chunks != [] ==> ChunksOk(chunks, first, tokenLimit, bound)
    ensures WordsOfAll(chunks') + current' == WordsOfAll(chunks) + current
    ensures tokens' == |current'| <= bound
    ensures forall k :: 0 <= k < |current'| ==> IsWord(current'[k])
    ensures forall k :: 0 < k < |current'| ==> !IsBreak(current'[k])
    ensures chunks' != [] ==> ChunksOk(chunks', first, tokenLimit, bound)
    ensures |chunks'| >= |chunks| && chunks'[..|chunks|] == chunks
    ensures IsBreak(word) ==> current' == [] && |chunks'| > |chunks| && (current == [] <==> chunks'[|chunks|] == [])
    ensures !IsBreak(word) ==> chunks' == chunks && current' == current
    ensures IsBreak(word) ==> chunks' == chunks + [JoinSpace(current)]
  {
    chunks', current', tokens' := chunks, current, tokens;
    if IsBreak(word) {
      ChunksOkAppend(chunks', current', first, tokenLimit, bound);
      chunks' := CloseChunk(chunks', current');
      current' := [];
      tokens' := 0;
    }
  }

  /** Count the word's tokens; on overflow close the current chunk and
      start a new one with the word, otherwise add the word to it. */
  method FitWord(chunks: seq<string>, current: seq<string>, tokens: int, word: string,
                 tokenLimit: int, ghost first: string, ghost bound: int)
    returns (chunks': seq<string>, current': seq<string>, tokens': int)
    requires IsWord(word)
    requires bound == if tokenLimit >= 1 then tokenLimit else 1
    requires tokens == |current| <= bound
    requires forall k :: 0 <= k < |current| ==> IsWord(current[k])
    requires forall k :: 0 < k < |current| ==> !IsBreak(current[k])
    requires current != [] ==> !IsBreak(word)
    requires current == [] ==> tokenLimit <= 0 || chunks != [] || word == first
    requires chunks != [] ==> ChunksOk(chunks, first, tokenLimit, bound)
    ensures WordsOfAll(chunks') + current' == WordsOfAll(chunks) + current + [word]
    ensures tokens' == |current'| <= bound
    ensures current' != [] && current'[|current'| - 1] == word
    ensures forall k :: 0 <= k < |current'| ==> IsWord(current'[k])
    ensures forall k :: 0 < k < |current'| ==> !IsBreak(current'[k])
    ensures ChunksOk(chunks', first, tokenLimit, bound)
    ensures |chunks'| >= |chunks| && chunks'[..|chunks|] == chunks
    ensures tokens + |Words(word)| > tokenLimit ==> chunks' == chunks + [JoinSpace(current)] && current' == [word]
    ensures tokens + |Words(word)| <= tokenLimit ==> chunks' == chunks && current' == current + [word]
  {
    WordsOfWord(word);
    tokens' := tokens + |Words(word)|;
    if tokens' > tokenLimit {
      ChunksOkAppend(chunks, current, first, tokenLimit, bound);
      chunks' := CloseChunk(chunks, current);
      current' := [word];
      tokens' := |Words(word)|;
    } else {
      chunks' := chunks;
      current' := current + [word];
    }
  }

  /** Why a chunk was closed before the words `after`: the first of them is
      a break word, or one more word would have passed the limit. */
  predicate ClosedFor(before: string, after: seq<string>, tokenLimit: int) {
    (after != [] && IsBreak(after[0])) || |Words(before)| + 1 > tokenLimit
  }

  /** Chunk `k` was closed for the reason above, before the next chunk. */
  predicate ClosedAt(chunks: seq<string>, k: int, tokenLimit: int) {
    0 <= k && k + 1 < |chunks| && ClosedFor(chunks[k], Words(chunks[k + 1]), tokenLimit)
  }

  /** Greedy cutting: no chunk was closed before it had to be, counting the
      current chunk as the next one. */
  predicate Greedy(chunks: seq<string>, current: seq<string>, tokenLimit: int) {
    (forall k :: 0 <= k < |chunks| - 1 ==> ClosedAt(chunks, k, tokenLimit)) &&
    (chunks != [] ==> ClosedFor(chunks[|chunks| - 1], current, tokenLimit))
  }

  /** Closing `current` for a reason that holds before `next` keeps `Greedy`. */
  lemma GreedyClose(chunks: seq<string>, current: seq<string>, next: seq<string>, tokenLimit: int)
    requires Greedy(chunks, current, tokenLimit)
    requires Words(JoinSpace(current)) == current
    requires ClosedFor(JoinSpace(current), next, tokenLimit)
    ensures Greedy(chunks + [JoinSpace(current)], next, tokenLimit)
  {
    var r := chunks + [JoinSpace(current)];
    forall k | 0 <= k < |r| - 1
      ensures ClosedAt(r, k, tokenLimit)
    {
      if k < |chunks| - 1 {
        assert ClosedAt(chunks, k, tokenLimit);
      }
    }
  }

  /** The last chunk closes the list: every closed chunk was closed greedily. */
  lemma GreedyFinish(chunks: seq<string>, current: seq<string>, tokenLimit: int)
    requires Greedy(chunks, current, tokenLimit)
    requires forall k :: 0 <= k < |current| ==> IsWord(current[k])
    ensures var r := if current != [] then CloseChunk(chunks, current) else chunks;
      forall k :: 0 <= k < |r| - 1 ==> ClosedAt(r, k, tokenLimit)
  {
    if current != [] {
      WordsOfJoin(current);
      var r := CloseChunk(chunks, current);
      forall k | 0 <= k < |r| - 1
        ensures ClosedAt(r, k, tokenLimit)
      {
        if k < |chunks| - 1 {
          assert ClosedAt(chunks, k, tokenLimit);
        }
      }
    }
  }

  /** At most `bound` words, and no break word after the first. */
  predicate ChunkShape(chunk: string, bound: int) {
    |Words(chunk)| <= bound &&
    forall k :: 0 < k < |Words(chunk)| ==> !IsBreak(Words(chunk)[k])
  }

  /** Every closed chunk has the shape above, and an empty one is either
      the first chunk in front of a leading break word or a consequence of a
      limit below one. */
  predicate ChunksOk(chunks: seq<string>, first: string, tokenLimit: int, bound: int) {
    (forall i :: 0 <= i < |chunks| ==> ChunkShape(chunks[i], bound)) &&
    (forall i :: 0 <= i < |chunks| && chunks[i] == [] ==>
       tokenLimit <= 0 || (i == 0 && IsBreak(first)))
  }

  lemma ChunksOkAppend(chunks: seq<string>, current: seq<string>, first: string, tokenLimit: int, bound: int)
    requires forall k :: 0 <= k < |current| ==> IsWord(current[k])
    requires ChunksOk(chunks, first, tokenLimit, bound)
    requires |current| <= bound
    requires forall k :: 0 < k < |current| ==> !IsBreak(current[k])
    requires current == [] ==> tokenLimit <= 0 || (chunks == [] && IsBreak(first))
    ensures ChunksOk(CloseChunk(chunks, current), first, tokenLimit, bound)
  {
    var r := CloseChunk(chunks, current);
    assert ChunkShape(r[|chunks|], bound);
  }

  /** `chunks.append(' '.join(current_chunk))`, with what it does to the
      words of the chunk list. */
  function CloseChunk(chunks: seq<string>, current: seq<string>): (r: seq<string>)
    requires forall k :: 0 <= k < |current| ==> IsWord(current[k])
    ensures |r| == |chunks| + 1
    ensures forall i :: 0 <= i < |chunks| ==> r[i] == chunks[i]
    ensures Words(r[|chunks|]) == current
    ensures r[|chunks|] == [] <==> current == []
    ensures WordsOfAll(r) == WordsOfAll(chunks) + current
  {
    WordsOfJoin(current);
    WordsOfAllAppend(chunks, [JoinSpace(current)]);
    assert WordsOfAll([JoinSpace(current)]) == current + WordsOfAll([]);
    chunks + [JoinSpace(current)]
  }
}
