/** The Python string built-ins that the summariser relies on, over ASCII.

    `Words` is `str.split()` with no argument, `JoinSpace` is `' '.join`,
    `Replace(s, p)` is `s.replace(p, '')`, `Find`/`RFind` are `str.find` and
    `str.rfind`, `Slice` is `s[i:j]` with Python's negative and clamped
    indices, and `Strip` is `str.strip()`. The character classes are the ASCII
    parts of Python's `str.isspace`, `\d`, `\w` and `str.isalpha`. */
module PyStr {

  // ---------------------------------------------------------------------
  // Character classes

  /** `str.isspace()` / regex `\s` on ASCII: space, \t \n \v \f \r and the
      information separators \x1c-\x1f. */
  predicate IsSpace(c: char) {
    c == ' ' || ('\U{9}' <= c <= '\U{D}') || ('\U{1C}' <= c <= '\U{1F}')
  }

  predicate IsDigit(c: char) { '0' <= c <= '9' }
  predicate IsUpper(c: char) { 'A' <= c <= 'Z' }
  predicate IsLower(c: char) { 'a' <= c <= 'z' }

  /** `str.isalpha()` on one ASCII character. */
  predicate IsAlpha(c: char) { IsUpper(c) || IsLower(c) }

  /** Regex `\w` on ASCII. */
  predicate IsWordChar(c: char) { IsAlpha(c) || IsDigit(c) || c == '_' }

  function LowerChar(c: char): (d: char)
    ensures !IsUpper(d)
    ensures IsUpper(c) || d == c
  {
    if IsUpper(c) then (c as int + 32) as char else c
  }

  /** `str.lower()` on ASCII. */
  function Lower(s: string): (r: string)
    ensures |r| == |s|
    ensures forall k :: 0 <= k < |s| ==> r[k] == LowerChar(s[k])
  {
    seq(|s|, k requires 0 <= k < |s| => LowerChar(s[k]))
  }

  // ---------------------------------------------------------------------
  // Whitespace splitting and joining

  /** A single word of `str.split()`: non-empty, no whitespace. */
  predicate IsWord(w: string) {
    |w| > 0 && forall k :: 0 <= k < |w| ==> !IsSpace(w[k])
  }

  predicate AllSpace(s: string) {
    forall k :: 0 <= k < |s| ==> IsSpace(s[k])
  }

  /** The first whitespace index at or after `i`, or |s|. */
  function WordEnd(s: string, i: nat): (e: nat)
    requires i <= |s|
    ensures i <= e <= |s|
    ensures forall k :: i <= k < e ==> !IsSpace(s[k])
    ensures e < |s| ==> IsSpace(s[e])
    decreases |s| - i
  {
    if i == |s| || IsSpace(s[i]) then i else WordEnd(s, i + 1)
  }

  /** The first non-whitespace index at or after `i`, or |s|. */
  function SpaceEnd(s: string, i: nat): (e: nat)
    requires i <= |s|
    ensures i <= e <= |s|
    ensures forall k :: i <= k < e ==> IsSpace(s[k])
    ensures e < |s| ==> !IsSpace(s[e])
    decreases |s| - i
  {
    if i == |s| || !IsSpace(s[i]) then i else SpaceEnd(s, i + 1)
  }

  /** `s.split()`: the maximal runs of non-whitespace characters, in order. */
  function Words(s: string): (ws: seq<string>)
    ensures forall k :: 0 <= k < |ws| ==> IsWord(ws[k])
    decreases |s|
  {
    if s == [] then []
    else if IsSpace(s[0]) then Words(s[1..])
    else
      var e := WordEnd(s, 0);
      [s[..e]] + Words(s[e..])
  }

  /** `' '.join(ws)`. */
  function JoinSpace(ws: seq<string>): string {
    if |ws| == 0 then []
    else if |ws| == 1 then ws[0]
    else ws[0] + " " + JoinSpace(ws[1..])
  }

  /** The end of the run of `c` characters starting at `i`: the first
      index at or after `i` that holds another character, or |s|. */
  function CharRunEnd(s: string, i: nat, c: char): (j: nat)
    requires i <= |s|
    ensures i <= j <= |s|
    ensures forall k :: i <= k < j ==> s[k] == c
    ensures j < |s| ==> s[j] != c
    decreases |s| - i
  {
    if i == |s| || s[i] != c then i else CharRunEnd(s, i + 1, c)
  }

  /** Word count of each string of a list, concatenated. */
  function WordsOfAll(xs: seq<string>): seq<string> {
    if |xs| == 0 then [] else Words(xs[0]) + WordsOfAll(xs[1..])
  }

  /** Extending a prefix by one element. */
  lemma TakeNext<T>(s: seq<T>, i: nat)
    requires i < |s|
    ensures s[..i + 1] == s[..i] + [s[i]]
  {
  }

  lemma TakeAll<T>(s: seq<T>)
    ensures s[..|s|] == s
  {
  }

  lemma SliceJoin<T>(s: seq<T>, a: nat, b: nat, c: nat)
    requires a <= b <= c <= |s|
    ensures s[a..c] == s[a..b] + s[b..c]
  {
  }

  lemma DropJoin<T>(s: seq<T>, a: nat, b: nat)
    requires a <= b <= |s|
    ensures s[a..b] + s[b..] == s[a..]
  {
  }

  lemma DropDrop<T>(s: seq<T>, a: nat, b: nat)
    requires a + b <= |s|
    ensures s[a..][b..] == s[a + b..]
  {
  }

  lemma CutAt<T>(s: seq<T>, e: nat)
    requires e < |s|
    ensures s == s[..e] + [s[e]] + s[e + 1..]
  {
  }

  lemma SplitThree<T>(s: seq<T>, a: nat, b: nat)
    requires a <= b <= |s|
    ensures s == s[..a] + s[a..b] + s[b..]
  {
  }

  lemma WordsOfAllAppend(a: seq<string>, b: seq<string>)
    ensures WordsOfAll(a + b) == WordsOfAll(a) + WordsOfAll(b)
  {
    if |a| > 0 {
      assert (a + b)[1..] == a[1..] + b;
      WordsOfAllAppend(a[1..], b);
    } else {
      assert a + b == b;
    }
  }

  /** Leading whitespace contributes no word. */
  lemma {:induction false} WordsSkipSpace(w: string, b: string)
    requires AllSpace(w)
    ensures Words(w + b) == Words(b)
    decreases |w|
  {
    if |w| > 0 {
      assert (w + b)[1..] == w[1..] + b;
      WordsSkipSpace(w[1..], b);
    } else {
      assert w + b == b;
    }
  }

  /** Splitting a concatenation at a whitespace boundary splits the words. */
  lemma {:induction false} WordsAppend(a: string, b: string)
    requires a == [] || b == [] || IsSpace(a[|a| - 1]) || IsSpace(b[0])
    ensures Words(a + b) == Words(a) + Words(b)
    decreases |a|
  {
    if a == [] {
      assert a + b == b;
    } else if b == [] {
      assert a + b == a;
    } else if IsSpace(a[0]) {
      assert (a + b)[1..] == a[1..] + b;
      WordsAppend(a[1..], b);
    } else if WordEnd(a, 0) < |a| {
      var e := WordEnd(a, 0);
      WordsAppend(a[e..], b);
      WordsAppendCut(a, b, e);
    } else {
      WordsAppendWhole(a, b);
    }
  }

  /** The first word of `a` ends inside `a`: it is the first word of `a + b`. */
  lemma WordsAppendCut(a: string, b: string, e: nat)
    requires a != [] && !IsSpace(a[0]) && e == WordEnd(a, 0) && e < |a|
    requires Words(a[e..] + b) == Words(a[e..]) + Words(b)
    ensures Words(a + b) == Words(a) + Words(b)
  {
    var ab := a + b;
    assert WordEnd(ab, 0) == e by {
      assert forall k :: 0 <= k < |a| ==> ab[k] == a[k];
    }
    assert ab[..e] == a[..e];
    assert ab[e..] == a[e..] + b by {
      assert forall k :: e <= k < |ab| ==> ab[k] == (a[e..] + b)[k - e];
    }
    assert Words(ab) == [a[..e]] + Words(a[e..] + b);
    assert Words(a) == [a[..e]] + Words(a[e..]);
  }

  /** `a` is one word and `b` starts with whitespace. */
  lemma WordsAppendWhole(a: string, b: string)
    requires a != [] && b != [] && !IsSpace(a[0]) && WordEnd(a, 0) == |a|
    requires IsSpace(a[|a| - 1]) || IsSpace(b[0])
    ensures Words(a + b) == Words(a) + Words(b)
  {
    var ab := a + b;
    assert WordEnd(ab, 0) == |a| by {
      assert forall k :: 0 <= k < |a| ==> ab[k] == a[k];
      assert IsSpace(b[0]) && ab[|a|] == b[0];
    }
    assert ab[..|a|] == a;
    assert ab[|a|..] == b;
    assert ab[0] == a[0];
    assert Words(ab) == [a] + Words(b);
    WordsOfWord(a);
  }

  /** A whitespace separator between two strings contributes no word. */
  lemma WordsAroundSpace(a: string, w: string, b: string)
    requires |w| > 0 && AllSpace(w)
    ensures Words(a + w + b) == Words(a) + Words(b)
  {
    assert a + w + b == a + (w + b);
    WordsAppend(a, w + b);
    WordsSkipSpace(w, b);
  }

  lemma WordsOfWord(w: string)
    requires IsWord(w)
    ensures Words(w) == [w]
  {
    assert WordEnd(w, 0) == |w|;
    assert w[|w|..] == [];
    assert w[..|w|] == w;
  }

  /** Joining words with single spaces and splitting again gives the words back. */
  lemma {:induction false} WordsOfJoin(ws: seq<string>)
    requires forall k :: 0 <= k < |ws| ==> IsWord(ws[k])
    ensures Words(JoinSpace(ws)) == ws
  {
    if |ws| == 1 {
      WordsOfWord(ws[0]);
    } else if |ws| > 1 {
      WordsOfWord(ws[0]);
      WordsOfJoin(ws[1..]);
      WordsAroundSpace(ws[0], " ", JoinSpace(ws[1..]));
      assert ws == [ws[0]] + ws[1..];
    }
  }

  /** Joining strings with spaces keeps all their words, in order. */
  lemma {:induction false} WordsOfJoinAll(xs: seq<string>)
    ensures Words(JoinSpace(xs)) == WordsOfAll(xs)
  {
    if |xs| == 1 {
      assert WordsOfAll(xs) == Words(xs[0]) + WordsOfAll([]);
    } else if |xs| > 1 {
      WordsOfJoinAll(xs[1..]);
      WordsAroundSpace(xs[0], " ", JoinSpace(xs[1..]));
    }
  }

  // ---------------------------------------------------------------------
  // Subsequences

  /** `a` is `b` with some elements deleted, order kept. */
  predicate IsSubseq<T(==)>(a: seq<T>, b: seq<T>)
    decreases |b|
  {
    if a == [] then true
    else if b == [] then false
    else if a[0] == b[0] then IsSubseq(a[1..], b[1..])
    else IsSubseq(a, b[1..])
  }

  lemma {:induction false} SubseqRefl<T>(a: seq<T>)
    ensures IsSubseq(a, a)
  {
    if a != [] { SubseqRefl(a[1..]); }
  }

  lemma {:induction false} SubseqLength<T>(a: seq<T>, b: seq<T>)
    requires IsSubseq(a, b)
    ensures |a| <= |b|
    decreases |b|
  {
    if a != [] {
      if a[0] == b[0] { SubseqLength(a[1..], b[1..]); } else { SubseqLength(a, b[1..]); }
    }
  }

  /** Extending the larger sequence at the front keeps a subsequence one. */
  lemma {:induction false} SubseqDrop<T>(a: seq<T>, x: T, b: seq<T>)
    requires IsSubseq(a, b)
    ensures IsSubseq(a, [x] + b)
    decreases |b|, 1
  {
    if a != [] && a[0] == x {
      assert ([x] + b)[1..] == b;
      if a[0] == b[0] {
        SubseqDrop(a[1..], b[0], b[1..]);
        assert [b[0]] + b[1..] == b;
      } else {
        SubseqTail(a, b);
      }
    } else if a != [] {
      assert ([x] + b)[1..] == b;
    }
  }

  lemma {:induction false} SubseqTail<T>(a: seq<T>, b: seq<T>)
    requires a != [] && IsSubseq(a, b)
    ensures IsSubseq(a[1..], b)
    decreases |b|, 0
  {
    if a[0] == b[0] {
      SubseqDrop(a[1..], b[0], b[1..]);
      assert [b[0]] + b[1..] == b;
    } else {
      SubseqTail(a, b[1..]);
      SubseqDrop(a[1..], b[0], b[1..]);
      assert [b[0]] + b[1..] == b;
    }
  }

  /** Every element of a subsequence is an element of the sequence. */
  lemma {:induction false} SubseqMembers<T>(a: seq<T>, b: seq<T>)
    requires IsSubseq(a, b)
    ensures forall k :: 0 <= k < |a| ==> a[k] in b
    decreases |b|
  {
    if a != [] {
      if a[0] == b[0] {
        SubseqMembers(a[1..], b[1..]);
        assert forall k :: 1 <= k < |a| ==> a[k] == a[1..][k - 1];
      } else {
        SubseqMembers(a, b[1..]);
      }
    }
  }

  lemma SubseqCons<T>(x: T, a: seq<T>, b: seq<T>)
    requires IsSubseq(a, b)
    ensures IsSubseq([x] + a, [x] + b)
  {
    assert ([x] + a)[1..] == a;
    assert ([x] + b)[1..] == b;
  }

  lemma {:induction false} SubseqTrans<T>(a: seq<T>, b: seq<T>, c: seq<T>)
    requires IsSubseq(a, b) && IsSubseq(b, c)
    ensures IsSubseq(a, c)
    decreases |c|
  {
    if a == [] {
    } else if b[0] == c[0] {
      if a[0] == b[0] {
        SubseqTrans(a[1..], b[1..], c[1..]);
      } else {
        SubseqTrans(a, b[1..], c[1..]);
      }
    } else {
      SubseqTrans(a, b, c[1..]);
      if a[0] == c[0] {
        SubseqTail(a, c[1..]);
      }
    }
  }

  // ---------------------------------------------------------------------
  // Replace, find, slice, strip

  /** Left-to-right deletion of every non-overlapping occurrence of `p`. */
  function Remove(s: string, p: string): (r: string)
    requires |p| > 0
    decreases |s|
  {
    if |s| < |p| then s
    else if s[..|p|] == p then Remove(s[|p|..], p)
    else [s[0]] + Remove(s[1..], p)
  }

  /** `s.replace(p, '')`; replacing the empty string changes nothing. */
  function Replace(s: string, p: string): string {
    if p == [] then s else Remove(s, p)
  }

  predicate OccursAt(s: string, p: string, i: int) {
    0 <= i && i + |p| <= |s| && s[i..i + |p|] == p
  }

  predicate Occurs(s: string, p: string) {
    exists i :: 0 <= i <= |s| - |p| && OccursAt(s, p, i)
  }

  /** Deletion only deletes: the result is a subsequence of the input, and
      strictly shorter exactly when `p` occurs in `s`. */
  lemma {:induction false} RemoveDeletes(s: string, p: string)
    requires |p| > 0
    ensures IsSubseq(Remove(s, p), s)
    ensures Occurs(s, p) <==> |Remove(s, p)| < |s|
    ensures !Occurs(s, p) ==> Remove(s, p) == s
    decreases |s|
  {
    if |s| < |p| {
      SubseqRefl(s);
    } else if s[..|p|] == p {
      RemoveDeletes(s[|p|..], p);
      assert OccursAt(s, p, 0);
      var r := Remove(s[|p|..], p);
      SubseqLength(r, s[|p|..]);
      PrefixDrop(r, s, |p|);
    } else {
      RemoveDeletes(s[1..], p);
      var r := Remove(s[1..], p);
      SubseqCons(s[0], r, s[1..]);
      assert [s[0]] + s[1..] == s;
      OccursPastFirst(s, p);
    }
  }

  /** Without an occurrence at 0, `p` occurs in `s` iff it occurs in its
      tail. */
  lemma OccursPastFirst(s: string, p: string)
    requires |p| > 0 && |s| >= |p| && s[..|p|] != p
    ensures Occurs(s, p) <==> Occurs(s[1..], p)
  {
    if Occurs(s, p) {
      var i :| 0 <= i <= |s| - |p| && OccursAt(s, p, i);
      assert i != 0;
      assert s[1..][i - 1..i - 1 + |p|] == s[i..i + |p|];
      assert OccursAt(s[1..], p, i - 1);
    }
    if Occurs(s[1..], p) {
      var i :| 0 <= i <= |s[1..]| - |p| && OccursAt(s[1..], p, i);
      assert s[i + 1..i + 1 + |p|] == s[1..][i..i + |p|];
      assert OccursAt(s, p, i + 1);
    }
  }

  /** A subsequence of a suffix is a subsequence of the whole. */
  lemma {:induction false} PrefixDrop(r: string, s: string, n: nat)
    requires n <= |s| && IsSubseq(r, s[n..])
    ensures IsSubseq(r, s)
    decreases n
  {
    if n > 0 {
      assert s[n - 1..][1..] == s[n..];
      assert [s[n - 1]] + s[n..] == s[n - 1..];
      SubseqDrop(r, s[n - 1], s[n..]);
      PrefixDrop(r, s, n - 1);
    }
  }

  lemma ReplaceDeletes(s: string, p: string)
    ensures IsSubseq(Replace(s, p), s)
    ensures |Replace(s, p)| <= |s|
    ensures p != [] && Occurs(s, p) ==> |Replace(s, p)| < |s|
    ensures !Occurs(s, p) || p == [] ==> Replace(s, p) == s
    ensures p != [] && Find(s, p) >= 0 ==>
      Replace(s, p) == s[..Find(s, p)] + Replace(s[Find(s, p) + |p|..], p)
  {
    if p == [] {
      SubseqRefl(s);
    } else {
      RemoveDeletes(s, p);
      SubseqLength(Remove(s, p), s);
      var i := Find(s, p);
      if i >= 0 {
        RemoveUpTo(s, p, i, i);
        assert s[i..][..|p|] == p;
        assert s[i..][|p|..] == s[i + |p|..];
      }
    }
  }

  /** Before the first occurrence of `p`, deletion copies the characters. */
  lemma {:induction false} RemoveUpTo(s: string, p: string, i: nat, j: nat)
    requires |p| > 0 && j <= i <= |s|
    requires forall m :: 0 <= m < i ==> !OccursAt(s, p, m)
    ensures Remove(s, p) == s[..j] + Remove(s[j..], p)
    decreases j
  {
    if j > 0 {
      RemoveUpTo(s, p, i, j - 1);
      var t := s[j - 1..];
      assert !OccursAt(s, p, j - 1);
      assert |t| >= |p| ==> t[..|p|] != p by {
        if |t| >= |p| { assert t[..|p|] == s[j - 1..j - 1 + |p|]; }
      }
      assert t[1..] == s[j..];
      assert s[..j] == s[..j - 1] + [s[j - 1]];
      if |t| < |p| {
        assert |s[j..]| < |p|;
      }
    }
  }

  /** `s.find(p)`: the first index where `p` occurs, -1 if none. */
  function Find(s: string, p: string): (i: int)
    ensures -1 <= i <= |s|
    ensures i >= 0 ==> OccursAt(s, p, i) && forall j :: 0 <= j < i ==> !OccursAt(s, p, j)
    ensures i == -1 ==> forall j :: 0 <= j <= |s| ==> !OccursAt(s, p, j)
  {
    FindFrom(s, p, 0)
  }

  function FindFrom(s: string, p: string, k: nat): (i: int)
    requires k <= |s| + 1
    ensures i == -1 || k <= i <= |s|
    ensures i >= 0 ==> OccursAt(s, p, i) && forall j :: k <= j < i ==> !OccursAt(s, p, j)
    ensures i == -1 ==> forall j :: k <= j <= |s| ==> !OccursAt(s, p, j)
    decreases |s| + 1 - k
  {
    if k + |p| > |s| then -1
    else if s[k..k + |p|] == p then k
    else FindFrom(s, p, k + 1)
  }

  /** `s.rfind(c)` for one character: the last index holding `c`, -1 if none. */
  function RFind(s: string, c: char): (i: int)
    ensures -1 <= i < |s|
    ensures i >= 0 ==> s[i] == c
    ensures forall j :: i < j < |s| ==> s[j] != c
  {
    if s == [] then -1
    else if s[|s| - 1] == c then |s| - 1
    else RFind(s[..|s| - 1], c)
  }

  /** Python's reading of a slice bound: negative counts from the end, and
      the result is clamped to [0, n]. */
  function SliceBound(i: int, n: nat): (b: nat)
    ensures b <= n
    ensures 0 <= i <= n ==> b == i
  {
    if i < 0 then (if i + n < 0 then 0 else i + n) else if i > n then n else i
  }

  /** `s[i:j]`. */
  function Slice(s: string, i: int, j: int): (r: string)
    ensures 0 <= i <= j <= |s| ==> r == s[i..j]
    ensures SliceBound(i, |s|) + |r| <= |s|
    ensures forall k :: 0 <= k < |r| ==> r[k] == s[SliceBound(i, |s|) + k]
  {
    var a, b := SliceBound(i, |s|), SliceBound(j, |s|);
    if a < b then s[a..b] else []
  }

  /** The slice holds everything between the two normalised bounds, and is
      empty when they cross. */
  lemma SliceLength(s: string, i: int, j: int)
    ensures |Slice(s, i, j)| ==
            if SliceBound(i, |s|) < SliceBound(j, |s|) then SliceBound(j, |s|) - SliceBound(i, |s|) else 0
  {
  }

  /** One past the last non-whitespace character, or 0. */
  function TrailStart(s: string): (k: nat)
    ensures k <= |s|
    ensures forall m :: k <= m < |s| ==> IsSpace(s[m])
    ensures k > 0 ==> !IsSpace(s[k - 1])
  {
    if s != [] && IsSpace(s[|s| - 1]) then TrailStart(s[..|s| - 1]) else |s|
  }

  /** No whitespace at either end. */
  predicate Trimmed(s: string) {
    s == [] || (!IsSpace(s[0]) && !IsSpace(s[|s| - 1]))
  }

  /** `s.strip()`. */
  function Strip(s: string): (r: string)
    ensures Trimmed(r)
  {
    var l := s[SpaceEnd(s, 0)..];
    l[..TrailStart(l)]
  }

  /** Stripping keeps every word: it only removes whitespace at the ends. */
  lemma StripKeepsWords(s: string)
    ensures Words(Strip(s)) == Words(s)
  {
    var l := s[SpaceEnd(s, 0)..];
    LStripKeepsWords(s);
    RStripKeepsWords(l);
  }

  lemma LStripKeepsWords(s: string)
    ensures Words(s[SpaceEnd(s, 0)..]) == Words(s)
  {
    var k := SpaceEnd(s, 0);
    assert s == s[..k] + s[k..];
    WordsSkipSpace(s[..k], s[k..]);
  }

  lemma RStripKeepsWords(l: string)
    ensures Words(l[..TrailStart(l)]) == Words(l)
  {
    var m := TrailStart(l);
    var r, t := l[..m], l[m..];
    assert l == r + t;
    if t != [] {
      WordsAppend(r, t);
      assert t + [] == t;
      WordsSkipSpace(t, []);
      assert Words(t) == [];
    } else {
      assert r == l;
    }
  }
}
