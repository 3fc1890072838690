/**
 Where the chunker cuts and what it joins, said without its code: the separator it prefers, the
 sentence breaks it takes, and the greedy grouping of pieces into chunks.
 */
module ChunkChoice {
  import opened Text
  import opened Chunking

  ghost predicate OccursFrom(s: string, p: string, lo: nat) {
    exists i :: lo <= i && OccursAt(s, p, i)
  }

  /** `i` is the last occurrence of `p`, and not before `lo`. */
  ghost predicate LastFrom(s: string, p: string, lo: nat, i: int) {
    lo <= i && OccursAt(s, p, i) && forall j :: i < j ==> !OccursAt(s, p, j)
  }

  lemma RFindLast(s: string, p: string, lo: nat)
    ensures RFind(s, p) >= lo <==> OccursFrom(s, p, lo)
    ensures RFind(s, p) >= lo ==> LastFrom(s, p, lo, RFind(s, p))
  {
    if i :| lo <= i && OccursAt(s, p, i) {
      assert RFind(s, p) >= i;
    }
  }

  /**
   A long sentence is cut after the last comma in reach, else before the last dash, else before the last
   space, where in reach means not before a third of the window; else at full width.
   */
  lemma SplitIndexExact(text: string, maxChars: nat)
    requires 1 <= maxChars < |text|
    ensures var w, r := text[..maxChars + 1], SplitIndex(text, maxChars);
            var lo := if maxChars < 96 then 32 else maxChars / 3;
            if OccursFrom(w, ", ", lo) then LastFrom(w, ", ", lo, r - 1)
            else if OccursFrom(w, " - ", lo) then LastFrom(w, " - ", lo, r)
            else if OccursFrom(w, " ", lo) then LastFrom(w, " ", lo, r)
            else r == maxChars
  {
    var w, lo := text[..maxChars + 1], LowerBound(SPLIT_FLOOR, maxChars);
    RFindLast(w, ", ", lo);
    RFindLast(w, " - ", lo);
    RFindLast(w, " ", lo);
  }

  /** A match of `[.!?;:,]\s+` from `at` to `end`, with `end` in reach. */
  ghost predicate PunctuationMatch(w: string, at: nat, end: nat, lo: nat, hi: nat) {
    && at + 1 < end <= |w| && w[at] in ".!?;:," && lo <= end <= hi
    && (forall i :: at < i < end ==> IsSpace(w[i])) && (end < |w| ==> !IsSpace(w[end]))
  }

  /** Where the whitespace after a punctuation mark ends. */
  function RunEnd(w: string, at: nat): nat
    requires at < |w|
  {
    at + 1 + SpaceRun(w[at + 1..])
  }

  lemma RunEndSpans(w: string, at: nat)
    requires at < |w|
    ensures var end := RunEnd(w, at);
            end <= |w| && (forall i :: at < i < end ==> IsSpace(w[i])) && (end < |w| ==> !IsSpace(w[end]))
  {
    var u := w[at + 1..];
    var end := RunEnd(w, at);
    forall i | at < i < end
      ensures IsSpace(w[i])
    {
      assert u[i - at - 1] == w[i];
    }
    assert end < |w| ==> u[end - at - 1] == w[end];
  }

  /** At most one match starts at each mark. */
  lemma MatchEndsAtRun(w: string, at: nat, end: nat, lo: nat, hi: nat)
    requires at < |w| && PunctuationMatch(w, at, end, lo, hi)
    ensures end == RunEnd(w, at)
  {
    RunEndSpans(w, at);
  }

  lemma MatchAtRun(w: string, at: nat, lo: nat, hi: nat)
    requires at + 1 < |w|
    ensures PunctuationMatch(w, at, RunEnd(w, at), lo, hi) <==>
            w[at] in ".!?;:," && RunEnd(w, at) > at + 1 && lo <= RunEnd(w, at) <= hi
  {
    RunEndSpans(w, at);
  }

  ghost predicate NoMatchBetween(w: string, from: nat, to: nat, lo: nat, hi: nat) {
    forall at, end :: from <= at < to ==> !PunctuationMatch(w, at, end, lo, hi)
  }

  /** The punctuation break is the end of the first match in reach. */
  ghost predicate IsFirstMatch(w: string, from: nat, lo: nat, hi: nat, r: int) {
    if r < 0 then r == -1 && NoMatchBetween(w, from, |w|, lo, hi)
    else exists at :: from <= at && PunctuationMatch(w, at, r, lo, hi) && NoMatchBetween(w, from, at, lo, hi)
  }

  lemma NoMatchHere(w: string, from: nat, lo: nat, hi: nat, r: int)
    requires from < |w| && (forall end: nat :: !PunctuationMatch(w, from, end, lo, hi)) &&
             IsFirstMatch(w, from + 1, lo, hi, r)
    ensures IsFirstMatch(w, from, lo, hi, r)
  {
    if r >= 0 {
      var at :| from + 1 <= at && PunctuationMatch(w, at, r, lo, hi) && NoMatchBetween(w, from + 1, at, lo, hi);
      assert NoMatchBetween(w, from, at, lo, hi);
    }
  }

  lemma {:induction false} PunctuationBreakExact(w: string, from: nat, lo: nat, hi: nat)
    ensures IsFirstMatch(w, from, lo, hi, PunctuationBreak(w, from, lo, hi))
    decreases |w| - from
  {
    if from + 1 < |w| {
      MatchAtRun(w, from, lo, hi);
      if PunctuationMatch(w, from, RunEnd(w, from), lo, hi) {
        assert NoMatchBetween(w, from, from, lo, hi);
      } else {
        forall end: nat
          ensures !PunctuationMatch(w, from, end, lo, hi)
        {
          if PunctuationMatch(w, from, end, lo, hi) {
            MatchEndsAtRun(w, from, end, lo, hi);
          }
        }
        PunctuationBreakExact(w, from + 1, lo, hi);
        NoMatchHere(w, from, lo, hi, PunctuationBreak(w, from + 1, lo, hi));
      }
    }
  }

  /** The first of the separators that occurs from `lo` on, at its last occurrence. */
  ghost predicate IsSeparatorChoice(w: string, separators: seq<string>, lo: nat, r: int) {
    if r < 0 then r == -1 && forall p :: p in separators ==> !OccursFrom(w, p, lo)
    else exists k: nat :: k < |separators| && LastFrom(w, separators[k], lo, r) &&
                          forall j :: 0 <= j < k ==> !OccursFrom(w, separators[j], lo)
  }

  lemma {:induction false} SeparatorBreakExact(w: string, separators: seq<string>, lo: nat)
    ensures IsSeparatorChoice(w, separators, lo, SeparatorBreak(w, separators, lo))
  {
    if separators != [] {
      RFindLast(w, separators[0], lo);
      if RFind(w, separators[0]) < lo {
        SeparatorBreakExact(w, separators[1..], lo);
        LaterSeparator(w, separators, lo, SeparatorBreak(w, separators[1..], lo));
      }
    }
  }

  lemma LaterSeparator(w: string, separators: seq<string>, lo: nat, r: int)
    requires separators != [] && !OccursFrom(w, separators[0], lo) && IsSeparatorChoice(w, separators[1..], lo, r)
    ensures IsSeparatorChoice(w, separators, lo, r)
  {
    var rest := separators[1..];
    if r >= 0 {
      var k: nat :| k < |rest| && LastFrom(w, rest[k], lo, r) && forall j :: 0 <= j < k ==> !OccursFrom(w, rest[j], lo);
      assert separators[k + 1] == rest[k];
      forall j | 0 <= j < k + 1
        ensures !OccursFrom(w, separators[j], lo)
      {
        assert j > 0 ==> separators[j] == rest[j - 1];
      }
    }
  }

  /**
   The first fragment is cut after the first punctuation in reach, else before the first listed
   conjunction found in reach, else before the last space in reach, else at full width.
   */
  lemma FirstSplitIndexExact(text: string, maxChars: nat)
    requires 1 <= maxChars < |text|
    ensures var w, r := text[..maxChars + 1], FirstSplitIndex(text, maxChars);
            var lo := if maxChars < 36 then 12 else maxChars / 3;
            var conjunctions :=
              [" and ", " but ", " so ", " then ", " because ", " while ", " which ", " that "];
            || IsFirstMatch(w, 0, lo, maxChars, r)
            || (IsFirstMatch(w, 0, lo, maxChars, -1) &&
                (|| IsSeparatorChoice(w, conjunctions, lo, r)
                 || (IsSeparatorChoice(w, conjunctions, lo, -1) &&
                     if OccursFrom(w, " ", lo) then LastFrom(w, " ", lo, r) else r == maxChars)))
  {
    var w, lo := text[..maxChars + 1], LowerBound(FIRST_FLOOR, maxChars);
    PunctuationBreakExact(w, 0, lo, maxChars);
    SeparatorBreakExact(w, FIRST_SEPARATORS, lo);
    RFindLast(w, " ", lo);
  }

  // ---------- packing ----------

  /** Each chunk joins as many of the next pieces as fit, and at least one. */
  ghost predicate Greedy(chunks: seq<string>, pieces: seq<string>, maxChars: nat)
    decreases |chunks|
  {
    if chunks == [] then pieces == []
    else exists k: nat :: Takes(chunks[0], pieces, k, maxChars) && Greedy(chunks[1..], pieces[k..], maxChars)
  }

  ghost predicate Takes(chunk: string, pieces: seq<string>, k: nat, maxChars: nat) {
    && 1 <= k <= |pieces| && chunk == JoinWords(pieces[..k]) && (k == 1 || |chunk| <= maxChars)
    && (k < |pieces| ==> |chunk| + 1 + |pieces[k]| > maxChars)
  }

  lemma {:induction false} JoinSnoc(ws: seq<string>, w: string)
    requires ws != []
    ensures JoinWords(ws + [w]) == JoinWords(ws) + " " + w
  {
    if |ws| == 1 {
      assert (ws + [w])[1..] == [w];
    } else {
      JoinSnoc(ws[1..], w);
      assert (ws + [w])[1..] == ws[1..] + [w];
    }
  }

  lemma JoinedNonEmpty(ws: seq<string>)
    requires ws != [] && ws[0] != ""
    ensures JoinWords(ws) != ""
  {
  }

  lemma TakesFirst(chunks: seq<string>, done: seq<string>, rest: seq<string>, maxChars: nat)
    requires done != [] && chunks != [] && chunks[0] == JoinWords(done)
    requires |done| == 1 || |chunks[0]| <= maxChars
    requires rest != [] ==> |chunks[0]| + 1 + |rest[0]| > maxChars
    requires Greedy(chunks[1..], rest, maxChars)
    ensures Greedy(chunks, done + rest, maxChars)
  {
    var k := |done|;
    assert (done + rest)[..k] == done && (done + rest)[k..] == rest;
    assert Takes(chunks[0], done + rest, k, maxChars);
  }

  lemma {:induction false} PackFrom(done: seq<string>, rest: seq<string>, maxChars: nat)
    requires done != [] && (forall p :: p in done + rest ==> p != "")
    requires |done| == 1 || |JoinWords(done)| <= maxChars
    ensures Greedy(Pack(JoinWords(done), rest, maxChars), done + rest, maxChars)
    decreases |rest|
  {
    assert done[0] in done + rest;
    JoinedNonEmpty(done);
    var current := JoinWords(done);
    if rest == [] {
      assert [current][1..] == [];
      TakesFirst([current], done, rest, maxChars);
    } else {
      var p := rest[0];
      assert done + rest == done + [p] + rest[1..];
      if |current| + 1 + |p| <= maxChars {
        JoinSnoc(done, p);
        PackFrom(done + [p], rest[1..], maxChars);
      } else {
        assert [p] + rest[1..] == rest && forall q :: q in rest ==> q in done + rest;
        PackFrom([p], rest[1..], maxChars);
        var later := Pack(p, rest[1..], maxChars);
        assert ([current] + later)[1..] == later;
        TakesFirst([current] + later, done, rest, maxChars);
      }
    }
  }

  lemma {:induction false} SplitPiecesNonEmpty(s: string, maxChars: nat)
    requires 1 <= maxChars && Stripped(s)
    ensures forall p :: p in SplitStripped(s, maxChars) ==> p != ""
    decreases |s|
  {
    if |s| > maxChars {
      var end := SplitIndex(s, maxChars);
      assert s[..end][0] == s[0];
      SplitPiecesNonEmpty(Strip(s[end..]), maxChars);
    }
  }

  lemma {:induction false} PiecesNonEmpty(sentences: seq<string>, maxChars: nat)
    requires 1 <= maxChars
    ensures forall p :: p in PiecesOf(sentences, maxChars) ==> p != ""
  {
    if sentences != [] {
      SplitPiecesNonEmpty(Strip(sentences[0]), maxChars);
      PiecesNonEmpty(sentences[1..], maxChars);
    }
  }

  /** The pieces of any sentences are packed greedily. */
  lemma PackIsGreedy(sentences: seq<string>, maxChars: nat)
    requires 1 <= maxChars
    ensures Greedy(Pack("", PiecesOf(sentences, maxChars), maxChars), PiecesOf(sentences, maxChars), maxChars)
  {
    PiecesNonEmpty(sentences, maxChars);
    PackPieces(PiecesOf(sentences, maxChars), maxChars);
  }

  lemma PackPieces(pieces: seq<string>, maxChars: nat)
    requires forall p :: p in pieces ==> p != ""
    ensures Greedy(Pack("", pieces, maxChars), pieces, maxChars)
  {
    if pieces != [] {
      assert [pieces[0]] + pieces[1..] == pieces;
      PackFrom([pieces[0]], pieces[1..], maxChars);
    }
  }

  // ---------- sentences ----------

  /** The sentences are the text cut at its sentence breaks: nothing but the whitespace there is lost. */
  ghost predicate SentencesOf(s: string, sentences: seq<string>)
    decreases |sentences|
  {
    && sentences != []
    && var first := sentences[0];
       && first <= s && (forall i :: 0 <= i < |first| ==> !EndsSentence(s, i))
       && if |sentences| == 1 then first == s
          else |first| < |s| && EndsSentence(s, |first|) &&
               exists gap: nat :: FullGap(s, |first|, gap) && SentencesOf(s[gap..], sentences[1..])
  }

  /** The whitespace run that starts at `from` ends at `gap`. */
  ghost predicate FullGap(s: string, from: nat, gap: nat) {
    from < gap <= |s| && (forall i :: from <= i < gap ==> IsSpace(s[i])) && (gap < |s| ==> !IsSpace(s[gap]))
  }

  lemma RunIsGap(s: string, from: nat)
    requires from < |s| && IsSpace(s[from])
    ensures FullGap(s, from, from + SpaceRun(s[from..]))
  {
    var u := s[from..];
    var n := SpaceRun(u);
    assert u[0] == s[from];
    forall i | from <= i < from + n
      ensures IsSpace(s[i])
    {
      assert u[i - from] == s[i];
    }
    assert n < |u| ==> u[n] == s[from + n];
  }

  lemma {:induction false} SentencesExact(s: string)
    ensures SentencesOf(s, Sentences(s))
    decreases |s|
  {
    hide SentencesOf, AfterRun;
    var end := SentenceEnd(s, 0);
    if end < |s| {
      SentencesExact(AfterRun(s, end));
      SentencesStep(s, end, Sentences(AfterRun(s, end)));
      SentencesUnfold(s);
    } else {
      OneSentence(s);
    }
  }

  lemma SentencesStep(s: string, end: nat, rest: seq<string>)
    requires end == SentenceEnd(s, 0) < |s| && SentencesOf(AfterRun(s, end), rest)
    ensures SentencesOf(s, [s[..end]] + rest)
  {
    hide SentencesOf;
    SpaceAt(s, end);
    RunIsGap(s, end);
    SentencesCons(s, end, end + SpaceRun(s[end..]), rest);
  }

  lemma SpaceAt(s: string, end: nat)
    requires end < |s| && EndsSentence(s, end)
    ensures IsSpace(s[end])
  {
  }

  lemma SentencesUnfold(s: string)
    requires SentenceEnd(s, 0) < |s|
    ensures var end := SentenceEnd(s, 0); Sentences(s) == [s[..end]] + Sentences(AfterRun(s, end))
  {
    hide SentenceEnd, AfterRun;
  }

  lemma OneSentence(s: string)
    requires SentenceEnd(s, 0) == |s|
    ensures SentencesOf(s, Sentences(s))
  {
    assert Sentences(s) == [s];
  }

  lemma SentencesCons(s: string, end: nat, gap: nat, rest: seq<string>)
    requires end < |s| && EndsSentence(s, end) && (forall i :: 0 <= i < end ==> !EndsSentence(s, i))
    requires FullGap(s, end, gap) && SentencesOf(s[gap..], rest)
    ensures SentencesOf(s, [s[..end]] + rest)
  {
    assert ([s[..end]] + rest)[1..] == rest;
  }
}
