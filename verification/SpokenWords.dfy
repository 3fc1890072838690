/**
 What a word of the interruption report is, and when it counts as spoken, said without the scanning loops:
 the matches are exactly the whole words, and a word is spoken as soon as its share of the samples is played.
 */
module SpokenWords {
  import opened Numbers
  import opened Text
  import opened SpeechPosition
  import opened Interruption

  // ---------- whole words ----------

  /** An ASCII letter or digit, by its code. */
  predicate IsWordChar(c: char) {
    var n := c as int;
    48 <= n <= 57 || 65 <= n <= 90 || 97 <= n <= 122
  }

  /** An apostrophe of either kind, or a hyphen. */
  predicate IsLink(c: char) {
    c as int in {0x27, 0x2D, 0x2019}
  }

  /** Position `i` lies between two word characters and links them. */
  predicate LinksAt(s: string, i: int) {
    0 < i && i + 1 < |s| && IsLink(s[i]) && IsWordChar(s[i - 1]) && IsWordChar(s[i + 1])
  }

  /** The characters at `i - 1` and `i` belong to the same word. */
  predicate JoinedAt(s: string, i: int) {
    0 < i < |s| && ((IsWordChar(s[i - 1]) && IsWordChar(s[i])) || LinksAt(s, i - 1) || LinksAt(s, i))
  }

  /** Word characters and single links between them, and it goes no further on either side. */
  ghost predicate WholeWord(s: string, m: WordMatch) {
    && m.start < m.end <= |s| && IsWordChar(s[m.start]) && IsWordChar(s[m.end - 1])
    && (forall i :: m.start < i < m.end ==> JoinedAt(s, i))
    && !JoinedAt(s, m.start) && !JoinedAt(s, m.end)
  }

  lemma CharsAgree(c: char)
    ensures IsAlnum(c) <==> IsWordChar(c)
    ensures IsJoiner(c) <==> IsLink(c)
  {
  }

  // ---------- the matches are exactly the whole words ----------

  lemma {:induction false} AlnumRunJoined(s: string, i: nat)
    requires i < |s| && IsAlnum(s[i])
    ensures forall k :: i < k < AlnumEnd(s, i) ==> JoinedAt(s, k)
  {
    forall k | i < k < AlnumEnd(s, i)
      ensures JoinedAt(s, k)
    {
      assert IsAlnum(s[k - 1]) && IsAlnum(s[k]);
      CharsAgree(s[k - 1]);
      CharsAgree(s[k]);
    }
  }

  /** The run of word characters ends the word, unless a link carries it on. */
  lemma RunEnds(s: string, e: nat)
    requires 0 < e <= |s| && IsAlnum(s[e - 1]) && (e < |s| ==> !IsAlnum(s[e]))
    ensures JoinedAt(s, e) <==> e + 1 < |s| && IsJoiner(s[e]) && IsAlnum(s[e + 1])
    ensures JoinedAt(s, e) ==> JoinedAt(s, e + 1)
  {
    forall i | 0 <= i < |s|
      ensures (IsAlnum(s[i]) <==> IsWordChar(s[i])) && (IsJoiner(s[i]) <==> IsLink(s[i]))
    {
      CharsAgree(s[i]);
    }
  }

  /** From a word character on, the match runs as long as the characters are joined. */
  lemma {:induction false} WordEndJoined(s: string, i: nat)
    requires i < |s| && IsAlnum(s[i])
    ensures var r := WordEnd(s, i);
            && i < r <= |s| && IsWordChar(s[i]) && IsWordChar(s[r - 1])
            && (forall k :: i < k < r ==> JoinedAt(s, k)) && !JoinedAt(s, r)
    decreases |s| - i
  {
    var e, r := AlnumEnd(s, i), WordEnd(s, i);
    AlnumRunJoined(s, i);
    CharsAgree(s[i]);
    CharsAgree(s[r - 1]);
    assert e > i && IsAlnum(s[e - 1]);
    hide JoinedAt, IsWordChar, IsAlnum, IsJoiner, AlnumEnd;
    RunEnds(s, e);
    if e + 1 < |s| && IsJoiner(s[e]) && IsAlnum(s[e + 1]) {
      WordEndJoined(s, e + 1);
    }
  }

  lemma StartApart(s: string, from: nat)
    requires from <= |s| && !JoinedAt(s, from)
    ensures !JoinedAt(s, WordStart(s, from))
  {
    var start := WordStart(s, from);
    forall i | 0 <= i < |s|
      ensures IsAlnum(s[i]) <==> IsWordChar(s[i])
    {
      CharsAgree(s[i]);
    }
  }

  lemma {:induction false} MatchesAreWords(s: string, from: nat)
    requires from <= |s| && !JoinedAt(s, from)
    ensures forall m :: m in Matches(s, from) ==> WholeWord(s, m)
    decreases |s| - from
  {
    var start := WordStart(s, from);
    StartApart(s, from);
    if start < |s| {
      WordEndJoined(s, start);
      hide JoinedAt, WordEnd, IsWordChar, IsAlnum;
      MatchesAreWords(s, WordEnd(s, start));
    }
  }

  /** Two words from one place are one, and a word does not start inside another. */
  lemma WordsApart(s: string, start: nat, end: nat, m: WordMatch)
    requires WholeWord(s, WordMatch(start, end)) && WholeWord(s, m) && start <= m.start
    ensures m == WordMatch(start, end) || end <= m.start
  {
    hide JoinedAt, IsWordChar;
    assert !(start < m.start < end) && !(m.start == start && m.end < end) && !(m.start == start && end < m.end);
  }

  lemma {:induction false} WordsAreMatches(s: string, from: nat, m: WordMatch)
    requires from <= |s| && !JoinedAt(s, from) && WholeWord(s, m) && from <= m.start
    ensures m in Matches(s, from)
    decreases |s| - from
  {
    var start := WordStart(s, from);
    CharsAgree(s[m.start]);
    assert start <= m.start;
    StartApart(s, from);
    WordEndJoined(s, start);
    hide JoinedAt, WordEnd, IsWordChar, IsAlnum;
    var end := WordEnd(s, start);
    assert WholeWord(s, WordMatch(start, end));
    WordsApart(s, start, end, m);
    if m != WordMatch(start, end) {
      WordsAreMatches(s, end, m);
    }
  }

  /** What `finditer` yields: exactly the whole words of the text, from left to right. */
  lemma MatchesExactly(s: string)
    ensures forall m :: m in Matches(s, 0) <==> WholeWord(s, m)
    ensures LeftToRight(Matches(s, 0))
  {
    MatchesAreWords(s, 0);
    forall m | WholeWord(s, m)
      ensures m in Matches(s, 0)
    {
      WordsAreMatches(s, 0, m);
    }
    MatchesInOrder(s, 0);
  }

  ghost predicate LeftToRight(ms: seq<WordMatch>) {
    forall i, j :: 0 <= i < j < |ms| ==> ms[i].end <= ms[j].start
  }

  lemma PrependMatch(m: WordMatch, rest: seq<WordMatch>)
    requires LeftToRight(rest) && forall n :: n in rest ==> m.end <= n.start
    ensures LeftToRight([m] + rest)
  {
    var ms := [m] + rest;
    forall i, j | 0 <= i < j < |ms|
      ensures ms[i].end <= ms[j].start
    {
      assert ms[j] == rest[j - 1] && rest[j - 1] in rest;
      if i > 0 {
        assert ms[i] == rest[i - 1];
      }
    }
  }

  lemma {:induction false} MatchesInOrder(s: string, from: nat)
    requires from <= |s|
    ensures LeftToRight(Matches(s, from))
    decreases |s| - from
  {
    var start := WordStart(s, from);
    if start < |s| {
      var end := WordEnd(s, start);
      MatchesInOrder(s, end);
      MatchesInside(s, end);
      PrependMatch(WordMatch(start, end), Matches(s, end));
    }
  }

  /** No two words overlap, so every word character lies in exactly one. */
  lemma CoveredOnce(s: string, i: nat) returns (m: WordMatch)
    requires i < |s| && IsWordChar(s[i])
    ensures WholeWord(s, m) && m.start <= i < m.end
    ensures forall n :: WholeWord(s, n) && n.start <= i < n.end ==> n == m
  {
    m := WordAround(s, i);
    forall n | WholeWord(s, n) && n.start <= i < n.end
      ensures n == m
    {
      if n.start <= m.start {
        WordsApart(s, n.start, n.end, m);
      } else {
        WordsApart(s, m.start, m.end, n);
      }
    }
  }

  /** The word around a position, found by walking to both sides. */
  lemma WordAround(s: string, i: nat) returns (m: WordMatch)
    requires i < |s| && IsWordChar(s[i])
    ensures WholeWord(s, m) && m.start <= i < m.end
  {
    var lo, hi := i, i + 1;
    while JoinedAt(s, lo)
      decreases lo
      invariant 0 <= lo <= i && forall k :: lo < k <= i ==> JoinedAt(s, k)
    {
      lo := lo - 1;
    }
    while JoinedAt(s, hi)
      decreases |s| - hi
      invariant i < hi <= |s| && forall k :: i < k < hi ==> JoinedAt(s, k)
    {
      hi := hi + 1;
    }
    m := WordMatch(lo, hi);
    if lo < i {
      assert JoinedAt(s, lo + 1);
    }
    if i + 1 < hi {
      assert JoinedAt(s, hi - 1);
    }
  }

  // ---------- when a word is spoken ----------

  /** The word is whole, and at least its share of the chunk's samples, to its last character, is played. */
  ghost predicate SpokenWord(c: PlaybackChunk, m: WordMatch, played: nat) {
    && WholeWord(c.text, m) && c.sampleStart < c.sampleEnd && c.sampleStart < played
    && m.end * (c.sampleEnd - c.sampleStart) <= |c.text| * (Min(played, c.sampleEnd) - c.sampleStart)
  }

  lemma SpokenExactly(c: PlaybackChunk, m: WordMatch, played: nat)
    ensures IsSpoken(c, m, played) <==> SpokenWord(c, m, played)
  {
    MatchesExactly(c.text);
    if WholeWord(c.text, m) && c.sampleStart < c.sampleEnd && c.sampleStart < played {
      hide WholeWord, Matches;
      LimitExactly(c, m.end, played);
    }
  }

  /** A character counts as spoken as soon as its share of the samples is played, and no sooner. */
  lemma LimitExactly(c: PlaybackChunk, end: nat, played: nat)
    requires c.sampleStart < c.sampleEnd && c.sampleStart < played && end <= |c.text|
    ensures end <= CharLimit(c, played) <==>
            end * (c.sampleEnd - c.sampleStart) <= |c.text| * (Min(played, c.sampleEnd) - c.sampleStart)
  {
    var total, h := c.sampleEnd - c.sampleStart, Min(played, c.sampleEnd) - c.sampleStart;
    if played >= c.sampleEnd {
      MulMonotone(total, end, |c.text|);
    } else {
      Quotient(end, |c.text| * h, total);
      ShareBounded(|c.text|, h, total);
    }
  }

  lemma Quotient(x: nat, a: nat, b: nat)
    requires 0 < b
    ensures x <= a / b <==> x * b <= a
  {
    var q := a / b;
    assert a == q * b + a % b;
    if x <= q {
      MulMonotone(b, x, q);
    } else {
      MulMonotone(b, q + 1, x);
    }
  }

  lemma QuotientBelow(a: nat, b: nat, n: nat)
    requires 0 < b && a < (n + 1) * b
    ensures 0 <= a / b <= n
  {
    Quotient(n + 1, a, b);
  }

  lemma ShareBounded(n: nat, h: nat, total: nat)
    requires 0 < h < total
    ensures 0 <= (n * h) / total <= n
  {
    MulMonotone(n, h, total);
    assert (n + 1) * total == n * total + total;
    QuotientBelow(n * h, total, n);
  }

  // ---------- the report ----------

  /** The report quotes the word as it stands in its chunk, and the place right after it. */
  ghost predicate Quotes(c: PlaybackChunk, m: WordMatch, r: Report) {
    m.start < m.end <= |c.text| && r.word == c.text[m.start..m.end] && r.index == c.charStart + m.end
  }

  ghost predicate SpokenIn(q: seq<PlaybackChunk>, k: nat, m: WordMatch, played: nat) {
    k < |q| && SpokenWord(q[k], m, played)
  }

  /**
   The report over any recorded chunks of any text: nothing if no word is spoken yet, and otherwise a spoken
   word, as it stands in its chunk, after which no other spoken word ends.
   */
  lemma ReportExactly(text: string, counts: seq<nat>, played: nat)
    requires |counts| <= |DefaultChunks(Clean(text))|
    ensures ReportsSpoken(Timeline(Clean(text), counts), played,
                          LastSpoken(Clean(text), Timeline(Clean(text), counts), played))
  {
    var clean := Clean(text);
    var chunks, spans := DefaultChunks(clean), SpansOf(clean, DefaultChunks(clean), 0);
    DefaultSpansExact(text);
    QueueOrdered(clean, chunks, spans, counts);
    FurthestSpoken(Timeline(clean, counts), played);
    CleanReport(clean, Timeline(clean, counts), played);
  }

  ghost predicate ReportsSpoken(q: seq<PlaybackChunk>, played: nat, r: Report) {
    && ((forall k: nat, m :: !SpokenIn(q, k, m, played)) ==> r == Report(NO_WORD, 0))
    && ((exists k: nat, m :: SpokenIn(q, k, m, played)) ==> exists k: nat, m :: QuotedFrom(q, k, m, played, r))
    && forall k: nat, m :: SpokenIn(q, k, m, played) ==> EndsBy(q, k, m, r.index)
  }

  ghost predicate QuotedFrom(q: seq<PlaybackChunk>, k: nat, m: WordMatch, played: nat, r: Report) {
    SpokenIn(q, k, m, played) && Quotes(q[k], m, r)
  }

  ghost predicate EndsBy(q: seq<PlaybackChunk>, k: nat, m: WordMatch, index: nat) {
    k < |q| && q[k].charStart + m.end <= index
  }

  /** An empty text has no chunk, so the report is 0 there anyway. */
  lemma CleanReport(clean: string, q: seq<PlaybackChunk>, played: nat)
    requires ReportsSpoken(q, played, SpokenFrom(q, played, Report(NO_WORD, 0))) && (clean == "" ==> q == [])
    ensures ReportsSpoken(q, played, LastSpoken(clean, q, played))
  {
    hide SpokenIn, QuotedFrom, EndsBy;
  }

  lemma InsideQueue(q: seq<PlaybackChunk>, k: nat, m: WordMatch, played: nat)
    requires SpokenIn(q, k, m, played)
    ensures k < |q|
  {
  }

  lemma FurthestSpoken(q: seq<PlaybackChunk>, played: nat)
    requires Ordered(q)
    ensures ReportsSpoken(q, played, SpokenFrom(q, played, Report(NO_WORD, 0)))
  {
    var none := Report(NO_WORD, 0);
    var r := SpokenFrom(q, played, none);
    SpokenFurthest(q, played, none);
    forall k: nat, m | k < |q|
      ensures IsSpoken(q[k], m, played) <==> SpokenIn(q, k, m, played)
      ensures SpokenIn(q, k, m, played) ==> 0 < m.end
    {
      SpokenExactly(q[k], m, played);
    }
    hide SpokenWord, IsSpoken, SpokenFrom, SpokenIn;
    forall k: nat, m | SpokenIn(q, k, m, played)
      ensures EndsBy(q, k, m, r.index)
    {
      InsideQueue(q, k, m, played);
    }
    if r != none {
      var k, m :| 0 <= k < |q| && IsSpoken(q[k], m, played) && m.start < m.end <= |q[k].text| &&
                  r == WordReport(q[k], m);
      assert QuotedFrom(q, k, m, played, r);
    }
  }
}
