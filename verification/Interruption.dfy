/**
 The interruption report (agent-host speech/kokoro_onnx.py): from the number of samples played
 to the last fully spoken word and its character index in the cleaned text.
 */
module Interruption {
  import opened Numbers
  import opened Text
  import opened Chunking
  import opened SpeechPosition

  const NO_WORD := "<none>"

  /** A synthesized chunk: its place in the text and its half-open range of samples. */
  datatype PlaybackChunk = PlaybackChunk(text: string, charStart: nat, sampleStart: nat, sampleEnd: nat)

  datatype WordMatch = WordMatch(start: nat, end: nat)

  datatype Report = Report(word: string, index: nat)

  // ---------- words: [A-Za-z0-9]+(?:[’'\-][A-Za-z0-9]+)* ----------

  predicate IsAlnum(c: char) {
    'A' <= c <= 'Z' || 'a' <= c <= 'z' || '0' <= c <= '9'
  }

  predicate IsJoiner(c: char) {
    c == '\U{2019}' || c == '\'' || c == '-'
  }

  function AlnumEnd(s: string, i: nat): (r: nat)
    requires i <= |s|
    ensures i <= r <= |s|
    ensures forall j :: i <= j < r ==> IsAlnum(s[j])
    ensures r < |s| ==> !IsAlnum(s[r])
    decreases |s| - i
  {
    if i < |s| && IsAlnum(s[i]) then AlnumEnd(s, i + 1) else i
  }

  /** End of the match that starts at the alphanumeric position `i`. */
  function WordEnd(s: string, i: nat): (r: nat)
    requires i < |s| && IsAlnum(s[i])
    ensures i < r <= |s| && IsAlnum(s[r - 1])
    ensures r < |s| ==> !IsAlnum(s[r])
    decreases |s| - i
  {
    var e := AlnumEnd(s, i);
    if e + 1 < |s| && IsJoiner(s[e]) && IsAlnum(s[e + 1]) then WordEnd(s, e + 1) else e
  }

  function WordStart(s: string, i: nat): (r: nat)
    requires i <= |s|
    ensures i <= r <= |s|
    ensures forall j :: i <= j < r ==> !IsAlnum(s[j])
    ensures r < |s| ==> IsAlnum(s[r])
    decreases |s| - i
  {
    if i < |s| && !IsAlnum(s[i]) then WordStart(s, i + 1) else i
  }

  /** `finditer`: the matches from position `from` on, as spans. */
  function Matches(s: string, from: nat): seq<WordMatch>
    requires from <= |s|
    decreases |s| - from
  {
    var start := WordStart(s, from);
    if start == |s| then [] else [WordMatch(start, WordEnd(s, start))] + Matches(s, WordEnd(s, start))
  }

  // ---------- the report ----------

  /** How many characters of a chunk count as spoken, by exact proportion of its samples. */
  function CharLimit(c: PlaybackChunk, played: nat): nat
    requires c.sampleStart < played && c.sampleStart < c.sampleEnd
  {
    if played >= c.sampleEnd then |c.text|
    else Max(0, Min(|c.text|, |c.text| * (played - c.sampleStart) / (c.sampleEnd - c.sampleStart)))
  }

  /** The inner loop: the last match that ends within the limit replaces the report. */
  function LastWithin(c: PlaybackChunk, matches: seq<WordMatch>, limit: nat, r: Report): Report
    requires forall m :: m in matches ==> m.start <= m.end <= |c.text|
  {
    if matches == [] || matches[0].end > limit then r
    else LastWithin(c, matches[1..], limit,
                    Report(c.text[matches[0].start..matches[0].end], c.charStart + matches[0].end))
  }

  /** The outer loop over chunks, stopping at the first one that has not started. */
  function SpokenFrom(chunks: seq<PlaybackChunk>, played: nat, r: Report): Report {
    if chunks == [] || played <= chunks[0].sampleStart then r
    else
      var c := chunks[0];
      if c.sampleEnd <= c.sampleStart then SpokenFrom(chunks[1..], played, r)
      else
        MatchesInside(c.text, 0);
        SpokenFrom(chunks[1..], played, LastWithin(c, Matches(c.text, 0), CharLimit(c, played), r))
  }

  function LastSpoken(text: string, chunks: seq<PlaybackChunk>, played: nat): Report {
    var r := SpokenFrom(chunks, played, Report(NO_WORD, 0));
    if text == "" then r.(index := 0) else r
  }

  method ScanWords(c: PlaybackChunk, limit: nat, before: Report) returns (r: Report)
    requires forall m :: m in Matches(c.text, 0) ==> m.start <= m.end <= |c.text|
    ensures r == LastWithin(c, Matches(c.text, 0), limit, before)
  {
    var matches := Matches(c.text, 0);
    r := before;
    var j := 0;
    assert matches[0..] == matches;
    while j < |matches|
      invariant 0 <= j <= |matches|
      invariant LastWithin(c, matches[j..], limit, r) == LastWithin(c, matches, limit, before)
    {
      if matches[j].end > limit {
        break;
      }
      assert matches[j..][1..] == matches[j + 1..];
      r := Report(c.text[matches[j].start..matches[j].end], c.charStart + matches[j].end);
      j := j + 1;
    }
  }

  method LastSpokenWordDetail(text: string, chunks: seq<PlaybackChunk>, played: nat) returns (r: Report)
    ensures r == LastSpoken(text, chunks, played)
  {
    r := Report(NO_WORD, 0);
    var i := 0;
    assert chunks[0..] == chunks;
    while i < |chunks|
      invariant 0 <= i <= |chunks|
      invariant SpokenFrom(chunks[i..], played, r) == SpokenFrom(chunks, played, Report(NO_WORD, 0))
    {
      var c := chunks[i];
      assert chunks[i..][1..] == chunks[i + 1..];
      if played <= c.sampleStart {
        break;
      }
      if c.sampleStart < c.sampleEnd {
        MatchesInside(c.text, 0);
        r := ScanWords(c, CharLimit(c, played), r);
      }
      i := i + 1;
    }
    if text == "" {
      r := r.(index := 0);
    }
  }

  // ---------- facts about matches ----------

  lemma {:induction false} MatchesInside(s: string, from: nat)
    requires from <= |s|
    ensures forall m :: m in Matches(s, from) ==> from <= m.start < m.end <= |s|
    decreases |s| - from
  {
    var start := WordStart(s, from);
    if start < |s| {
      MatchesInside(s, WordEnd(s, start));
    }
  }

  /** One past the last alphanumeric character, or 0. */
  function LastAlnumEnd(s: string): (r: nat)
    ensures r <= |s|
    ensures r > 0 ==> IsAlnum(s[r - 1])
    ensures forall j :: r <= j < |s| ==> !IsAlnum(s[j])
  {
    if s == "" then 0 else if IsAlnum(s[|s| - 1]) then |s| else LastAlnumEnd(s[..|s| - 1])
  }

  /** The last match ends right after the last alphanumeric character. */
  lemma {:induction false} MatchesCover(s: string, from: nat)
    requires from <= |s|
    ensures var ms := Matches(s, from);
            if ms == [] then forall j :: from <= j < |s| ==> !IsAlnum(s[j])
            else ms[|ms| - 1].end == LastAlnumEnd(s)
    decreases |s| - from
  {
    var start := WordStart(s, from);
    if start < |s| {
      MatchesCover(s, WordEnd(s, start));
    }
  }

  ghost predicate EndsIncrease(ms: seq<WordMatch>) {
    forall i, j :: 0 <= i < j < |ms| ==> ms[i].end < ms[j].end
  }

  lemma {:induction false} MatchEndsIncrease(s: string, from: nat)
    requires from <= |s|
    ensures EndsIncrease(Matches(s, from))
    decreases |s| - from
  {
    var start := WordStart(s, from);
    if start < |s| {
      var end := WordEnd(s, start);
      MatchEndsIncrease(s, end);
      MatchesInside(s, end);
      var rest := Matches(s, end);
      assert forall i :: 0 <= i < |rest| ==> rest[i] in rest;
    }
  }

  // ---------- the report is the furthest spoken word ----------

  ghost predicate IsSpoken(c: PlaybackChunk, m: WordMatch, played: nat) {
    && c.sampleStart < played && c.sampleStart < c.sampleEnd
    && m in Matches(c.text, 0) && m.end <= CharLimit(c, played)
  }

  /** Later chunks come later both in the samples and in the text. */
  ghost predicate Ordered(chunks: seq<PlaybackChunk>) {
    && (forall i :: 0 <= i < |chunks| ==> chunks[i].sampleStart <= chunks[i].sampleEnd)
    && forall i, j :: 0 <= i < j < |chunks| ==>
         chunks[i].sampleEnd <= chunks[j].sampleStart && chunks[i].charStart + |chunks[i].text| <= chunks[j].charStart
  }

  function WordReport(c: PlaybackChunk, m: WordMatch): Report
    requires m.start <= m.end <= |c.text|
  {
    Report(c.text[m.start..m.end], c.charStart + m.end)
  }

  /** The inner loop keeps the report unless some match fits, and then takes the last that does. */
  lemma {:induction false} LastWithinFurthest(c: PlaybackChunk, ms: seq<WordMatch>, limit: nat, r: Report)
    requires forall m :: m in ms ==> m.start <= m.end <= |c.text|
    requires EndsIncrease(ms)
    ensures var res := LastWithin(c, ms, limit, r);
            && (res == r || exists m :: m in ms && m.end <= limit && res == WordReport(c, m))
            && forall m :: m in ms && m.end <= limit ==> c.charStart + m.end <= res.index
  {
    if ms != [] {
      if ms[0].end > limit {
        assert forall m :: m in ms ==> exists i :: 0 <= i < |ms| && ms[i] == m;
      } else {
        var next := WordReport(c, ms[0]);
        LastWithinFurthest(c, ms[1..], limit, next);
        var res := LastWithin(c, ms[1..], limit, next);
        assert ms[0] in ms;
        if ms[1..] != [] && ms[1].end <= limit {
          assert ms[1] in ms[1..];
        }
        assert forall m :: m in ms ==> m == ms[0] || m in ms[1..];
        assert ms[0].end + c.charStart <= res.index;
      }
    }
  }

  /** `res` is the report for a word spoken in one of the chunks. */
  ghost predicate Attained(chunks: seq<PlaybackChunk>, played: nat, res: Report) {
    exists k, m :: 0 <= k < |chunks| && IsSpoken(chunks[k], m, played) &&
                   m.start < m.end <= |chunks[k].text| && res == WordReport(chunks[k], m)
  }

  /** No word spoken in any of the chunks ends after `index`. */
  ghost predicate Covers(chunks: seq<PlaybackChunk>, played: nat, index: nat) {
    forall k, m :: 0 <= k < |chunks| && IsSpoken(chunks[k], m, played) ==> chunks[k].charStart + m.end <= index
  }

  lemma CoversCons(chunks: seq<PlaybackChunk>, played: nat, index: nat)
    requires chunks != [] && Covers(chunks[1..], played, index)
    requires forall m :: IsSpoken(chunks[0], m, played) ==> chunks[0].charStart + m.end <= index
    ensures Covers(chunks, played, index)
  {
    forall k, m | 0 <= k < |chunks| && IsSpoken(chunks[k], m, played)
      ensures chunks[k].charStart + m.end <= index
    {
      if k > 0 {
        assert chunks[k] == chunks[1..][k - 1];
      }
    }
  }

  lemma AttainedCons(chunks: seq<PlaybackChunk>, played: nat, res: Report)
    requires chunks != [] && Attained(chunks[1..], played, res)
    ensures Attained(chunks, played, res)
  {
    var k, m :| 0 <= k < |chunks[1..]| && IsSpoken(chunks[1..][k], m, played) &&
                m.start < m.end <= |chunks[1..][k].text| && res == WordReport(chunks[1..][k], m);
    assert chunks[1..][k] == chunks[k + 1];
  }

  /** One started chunk with samples: its own words are covered, and the report is old or one of its words. */
  lemma ChunkFurthest(c: PlaybackChunk, played: nat, r: Report)
    requires c.sampleStart < played && c.sampleStart < c.sampleEnd && r.index <= c.charStart
    requires forall m :: m in Matches(c.text, 0) ==> m.start < m.end <= |c.text|
    ensures var res := LastWithin(c, Matches(c.text, 0), CharLimit(c, played), r);
            && r.index <= res.index <= c.charStart + |c.text|
            && (res == r || Attained([c], played, res))
            && forall m :: IsSpoken(c, m, played) ==> c.charStart + m.end <= res.index
  {
    MatchEndsIncrease(c.text, 0);
    var ms, limit := Matches(c.text, 0), CharLimit(c, played);
    LastWithinFurthest(c, ms, limit, r);
    var res := LastWithin(c, ms, limit, r);
    if res != r {
      var m :| m in ms && m.end <= limit && res == WordReport(c, m);
      assert IsSpoken([c][0], m, played);
    }
  }

  /** What `SpokenFrom` promises of its result. */
  ghost predicate Furthest(chunks: seq<PlaybackChunk>, played: nat, r: Report, res: Report) {
    r.index <= res.index && (res == r || Attained(chunks, played, res)) && Covers(chunks, played, res.index)
  }

  lemma FurthestCons(chunks: seq<PlaybackChunk>, played: nat, r: Report, next: Report, res: Report)
    requires chunks != [] && Furthest(chunks[1..], played, next, res)
    requires r.index <= next.index && (next == r || Attained([chunks[0]], played, next))
    requires forall m :: IsSpoken(chunks[0], m, played) ==> chunks[0].charStart + m.end <= next.index
    ensures Furthest(chunks, played, r, res)
  {
    CoversCons(chunks, played, res.index);
    if res != next {
      AttainedCons(chunks, played, res);
    } else if next != r {
      AttainedFirst(chunks, played, next);
    }
  }

  /** The report is the old one or a spoken word's, and no spoken word lies further on. */
  lemma {:induction false} SpokenFurthest(chunks: seq<PlaybackChunk>, played: nat, r: Report)
    requires Ordered(chunks)
    requires chunks != [] ==> r.index <= chunks[0].charStart
    ensures Furthest(chunks, played, r, SpokenFrom(chunks, played, r))
  {
    if chunks != [] {
      var c, rest := chunks[0], chunks[1..];
      if c.sampleStart < played {
        var next := r;
        if c.sampleStart < c.sampleEnd {
          MatchesInside(c.text, 0);
          next := LastWithin(c, Matches(c.text, 0), CharLimit(c, played), r);
          ChunkFurthest(c, played, r);
        }
        SpokenFurthest(rest, played, next);
        FurthestCons(chunks, played, r, next, SpokenFrom(rest, played, next));
      }
    }
  }

  lemma AttainedFirst(chunks: seq<PlaybackChunk>, played: nat, res: Report)
    requires chunks != [] && Attained([chunks[0]], played, res)
    ensures Attained(chunks, played, res)
  {
    var k, m :| 0 <= k < 1 && IsSpoken([chunks[0]][k], m, played) &&
                m.start < m.end <= |[chunks[0]][k].text| && res == WordReport([chunks[0]][k], m);
    assert IsSpoken(chunks[0], m, played);
  }

  // ---------- sample bookkeeping while speaking ----------

  /** The playback chunks recorded from chunk `i` on, given how many samples each synthesized chunk yields. */
  function QueueFrom(chunks: seq<string>, spans: seq<nat>, counts: seq<nat>, i: nat, queued: nat): seq<PlaybackChunk>
    requires i <= |counts| <= |chunks| == |spans|
    decreases |counts| - i
  {
    if i == |counts| then []
    else [PlaybackChunk(chunks[i], spans[i], queued, queued + counts[i])] +
         QueueFrom(chunks, spans, counts, i + 1, queued + counts[i])
  }

  function Queue(chunks: seq<string>, spans: seq<nat>, counts: seq<nat>): seq<PlaybackChunk>
    requires |counts| <= |chunks| == |spans|
  {
    QueueFrom(chunks, spans, counts, 0, 0)
  }

  function DefaultChunks(clean: string): seq<string> {
    Chunks(clean, DEFAULT_MAX_SPEECH_CHUNK_CHARS, DEFAULT_FIRST_SPEECH_CHUNK_CHARS)
  }

  /** What `speak` has queued after the synthesizer answered for `|counts|` chunks of the cleaned text. */
  function Timeline(clean: string, counts: seq<nat>): seq<PlaybackChunk>
    requires |counts| <= |DefaultChunks(clean)|
  {
    SpansLength(clean, DefaultChunks(clean), 0);
    Queue(DefaultChunks(clean), SpansOf(clean, DefaultChunks(clean), 0), counts)
  }

  lemma {:induction false} SpansLength(text: string, chunks: seq<string>, cursor: nat)
    ensures |SpansOf(text, chunks, cursor)| == |chunks|
    decreases |chunks|
  {
    if chunks != [] {
      var index := Find(text, chunks[0], cursor);
      SpansLength(text, chunks[1..], (if index < 0 then cursor else index) + |chunks[0]|);
    }
  }

  /** The queueing loop of `speak`, up to an interruption after `|counts|` synthesized chunks. */
  method QueueChunks(chunks: seq<string>, spans: seq<nat>, counts: seq<nat>) returns (playing: seq<PlaybackChunk>)
    requires |counts| <= |chunks| == |spans|
    ensures playing == Queue(chunks, spans, counts)
  {
    playing := [];
    var queued := 0;
    var i := 0;
    while i < |counts|
      invariant 0 <= i <= |counts|
      invariant playing + QueueFrom(chunks, spans, counts, i, queued) == Queue(chunks, spans, counts)
    {
      var chunk := PlaybackChunk(chunks[i], spans[i], queued, queued + counts[i]);
      ghost var rest := QueueFrom(chunks, spans, counts, i + 1, queued + counts[i]);
      assert playing + ([chunk] + rest) == (playing + [chunk]) + rest;
      playing := playing + [chunk];
      queued := queued + counts[i];
      i := i + 1;
    }
  }

  /** `speak`: clean, chunk, find the offsets and queue. */
  method Speak(text: string, counts: seq<nat>) returns (clean: string, playing: seq<PlaybackChunk>)
    requires |counts| <= |DefaultChunks(Clean(text))|
    ensures clean == Clean(text)
    ensures playing == Timeline(clean, counts)
  {
    clean := Clean(text);
    if clean == "" {
      assert Words("") == [];
      return clean, [];
    }
    var result := SpeechChunks(clean, DEFAULT_MAX_SPEECH_CHUNK_CHARS, DEFAULT_FIRST_SPEECH_CHUNK_CHARS);
    var spans := ChunkSpans(clean, result.value);
    SpansLength(clean, result.value, 0);
    playing := QueueChunks(result.value, spans, counts);
  }

  lemma {:induction false} QueueElements(chunks: seq<string>, spans: seq<nat>, counts: seq<nat>, i: nat, queued: nat)
    requires i <= |counts| <= |chunks| == |spans|
    ensures var q := QueueFrom(chunks, spans, counts, i, queued);
            && |q| == |counts| - i
            && (forall k :: 0 <= k < |q| ==> q[k].text == chunks[i + k] && q[k].charStart == spans[i + k])
            && (forall k :: 0 <= k < |q| ==>
                  queued <= q[k].sampleStart && q[k].sampleEnd == q[k].sampleStart + counts[i + k])
            && (forall j, k :: 0 <= j < k < |q| ==> q[j].sampleEnd <= q[k].sampleStart)
    decreases |counts| - i
  {
    if i < |counts| {
      var rest := QueueFrom(chunks, spans, counts, i + 1, queued + counts[i]);
      var q := QueueFrom(chunks, spans, counts, i, queued);
      var c := PlaybackChunk(chunks[i], spans[i], queued, queued + counts[i]);
      assert q == [c] + rest;
      assert q[0] == c && forall k :: 0 < k < |q| ==> q[k] == rest[k - 1];
      hide QueueFrom;
      QueueElements(chunks, spans, counts, i + 1, queued + counts[i]);
    }
  }

  lemma {:induction false} SpansIncrease(text: string, chunks: seq<string>, spans: seq<nat>, i: nat, j: nat)
    requires ExactSpans(text, chunks, spans) && i < j < |chunks|
    ensures spans[i] + |chunks[i]| <= spans[j]
    decreases j
  {
    assert PlacedAt(text, chunks, spans, j - 1);
    if i < j - 1 {
      SpansIncrease(text, chunks, spans, i, j - 1);
    }
  }

  /** Each playing chunk is the slice of the text at its offset. */
  ghost predicate WellPlaced(text: string, chunks: seq<PlaybackChunk>) {
    forall k :: 0 <= k < |chunks| ==> OccursAt(text, chunks[k].text, chunks[k].charStart)
  }

  lemma QueueOrdered(text: string, chunks: seq<string>, spans: seq<nat>, counts: seq<nat>)
    requires ExactSpans(text, chunks, spans) && |counts| <= |chunks|
    ensures var q := Queue(chunks, spans, counts); Ordered(q) && WellPlaced(text, q)
  {
    QueueElements(chunks, spans, counts, 0, 0);
    var q := Queue(chunks, spans, counts);
    forall i, j | 0 <= i < j < |q|
      ensures q[i].charStart + |q[i].text| <= q[j].charStart
    {
      SpansIncrease(text, chunks, spans, i, j);
    }
    forall k | 0 <= k < |q|
      ensures OccursAt(text, q[k].text, q[k].charStart)
    {
      assert PlacedAt(text, chunks, spans, k);
    }
  }

  // ---------- main results ----------

  /** A reported word is the slice of the cleaned text that ends at the reported index. */
  ghost predicate Aligned(text: string, r: Report) {
    if r.word == NO_WORD then r.index == 0
    else |r.word| <= r.index <= |text| && text[r.index - |r.word|..r.index] == r.word
  }

  /** The report of a word is the slice of the text that ends at its index. */
  ghost predicate AlignedWord(text: string, r: Report) {
    && r.word != NO_WORD && 0 < |r.word| <= r.index <= |text|
    && text[r.index - |r.word|..r.index] == r.word && IsAlnum(text[r.index - 1])
  }

  lemma WordAligned(text: string, c: PlaybackChunk, m: WordMatch)
    requires OccursAt(text, c.text, c.charStart) && m in Matches(c.text, 0)
    ensures m.start < m.end <= |c.text| && AlignedWord(text, WordReport(c, m))
  {
    assert WordReport(c, m) == Report(c.text[m.start..m.end], c.charStart + m.end) by {
      MatchEdges(c.text, 0, m);
    }
    hide *;
    MatchEdges(c.text, 0, m);
    SliceReported(text, c.text, c.charStart, m.start, m.end);
  }

  lemma SliceReported(text: string, chunk: string, at: nat, i: nat, j: nat)
    requires OccursAt(text, chunk, at) && i < j <= |chunk| && IsAlnum(chunk[i]) && IsAlnum(chunk[j - 1])
    ensures AlignedWord(text, Report(chunk[i..j], at + j))
  {
    SliceAligned(text, chunk, at, i, j);
    WordIsNotNone(chunk[i..j]);
  }

  lemma SliceAligned(text: string, chunk: string, at: nat, i: nat, j: nat)
    requires OccursAt(text, chunk, at) && i < j <= |chunk|
    ensures at + j <= |text| && text[at + i..at + j] == chunk[i..j] && text[at + j - 1] == chunk[j - 1]
    ensures |chunk[i..j]| == j - i && chunk[i..j][0] == chunk[i]
  {
    SliceOfSlice(text, at, at + |chunk|, i, j);
    SliceEnds(chunk, i, j);
    SliceEnds(text, at + i, at + j);
  }

  lemma SliceEnds(s: string, i: nat, j: nat)
    requires i < j <= |s|
    ensures |s[i..j]| == j - i && s[i..j][0] == s[i] && s[i..j][j - i - 1] == s[j - 1]
  {
  }

  lemma WordIsNotNone(w: string)
    requires w != "" && IsAlnum(w[0])
    ensures w != NO_WORD
  {
  }

  lemma SliceOfSlice(text: string, lo: nat, hi: nat, i: nat, j: nat)
    requires lo + i <= lo + j <= hi <= |text|
    ensures text[lo..hi][i..j] == text[lo + i..lo + j]
  {
    assert forall k :: 0 <= k < j - i ==> text[lo..hi][i..j][k] == text[lo + i..lo + j][k];
  }

  lemma AttainedAligned(text: string, chunks: seq<PlaybackChunk>, played: nat, r: Report)
    requires WellPlaced(text, chunks) && Attained(chunks, played, r)
    ensures r.word != NO_WORD && Aligned(text, r)
    ensures r.index > 0 && IsAlnum(text[r.index - 1])
  {
    var k, m :| 0 <= k < |chunks| && IsSpoken(chunks[k], m, played) &&
                m.start < m.end <= |chunks[k].text| && r == WordReport(chunks[k], m);
    SpokenIsMatch(chunks[k], m, played);
    assert OccursAt(text, chunks[k].text, chunks[k].charStart);
    hide *;
    WordAligned(text, chunks[k], m);
    AlignedWordMeans(text, r);
  }

  lemma SpokenIsMatch(c: PlaybackChunk, m: WordMatch, played: nat)
    requires IsSpoken(c, m, played)
    ensures m in Matches(c.text, 0)
  {
  }

  lemma AlignedWordMeans(text: string, r: Report)
    requires AlignedWord(text, r)
    ensures r.word != NO_WORD && Aligned(text, r) && r.index > 0 && IsAlnum(text[r.index - 1])
  {
  }

  lemma {:induction false} MatchEdges(s: string, from: nat, m: WordMatch)
    requires from <= |s| && m in Matches(s, from)
    ensures m.start < m.end <= |s| && IsAlnum(s[m.start]) && IsAlnum(s[m.end - 1])
    decreases |s| - from
  {
    var start := WordStart(s, from);
    if m != WordMatch(start, WordEnd(s, start)) {
      MatchEdges(s, WordEnd(s, start), m);
    }
  }

  lemma QueueAligned(text: string, chunks: seq<string>, spans: seq<nat>, counts: seq<nat>, played: nat)
    requires ExactSpans(text, chunks, spans) && |counts| <= |chunks|
    ensures var r := LastSpoken(text, Queue(chunks, spans, counts), played);
            Aligned(text, r) && r.index <= LastAlnumEnd(text)
  {
    var q, none := Queue(chunks, spans, counts), Report(NO_WORD, 0);
    QueueOrdered(text, chunks, spans, counts);
    SpokenFurthest(q, played, none);
    var r := SpokenFrom(q, played, none);
    if r != none {
      AttainedAligned(text, q, played, r);
    }
  }

  lemma MulMonotone(d: nat, x: int, y: int)
    requires x <= y
    ensures d * x <= d * y
  {
  }

  lemma DivMonotone(x: int, y: int, d: nat)
    requires x <= y && d > 0
    ensures x / d <= y / d
  {
    if x / d > y / d {
      MulMonotone(d, y / d + 1, x / d);
    }
  }

  lemma SpokenStays(c: PlaybackChunk, m: WordMatch, played: nat, later: nat)
    requires IsSpoken(c, m, played) && played <= later
    ensures IsSpoken(c, m, later)
  {
    MatchesInside(c.text, 0);
    if later < c.sampleEnd {
      MulMonotone(|c.text|, played - c.sampleStart, later - c.sampleStart);
      DivMonotone(|c.text| * (played - c.sampleStart), |c.text| * (later - c.sampleStart), c.sampleEnd - c.sampleStart);
    }
  }

  lemma ConsPrefix(c: PlaybackChunk, a: seq<PlaybackChunk>, b: seq<PlaybackChunk>)
    requires a <= b
    ensures [c] + a <= [c] + b
  {
  }

  lemma {:induction false} QueuePrefix(chunks: seq<string>, spans: seq<nat>, counts: seq<nat>, more: seq<nat>, i: nat,
                                       queued: nat)
    requires counts <= more && i <= |counts| && |more| <= |chunks| == |spans|
    ensures QueueFrom(chunks, spans, counts, i, queued) <= QueueFrom(chunks, spans, more, i, queued)
    decreases |counts| - i
  {
    if i < |counts| {
      QueuePrefix(chunks, spans, counts, more, i + 1, queued + counts[i]);
      ConsPrefix(PlaybackChunk(chunks[i], spans[i], queued, queued + counts[i]),
                 QueueFrom(chunks, spans, counts, i + 1, queued + counts[i]),
                 QueueFrom(chunks, spans, more, i + 1, queued + counts[i]));
    }
  }

  lemma SpokenMonotone(a: seq<PlaybackChunk>, b: seq<PlaybackChunk>, played: nat, later: nat)
    requires Ordered(a) && Ordered(b) && a <= b && played <= later
    ensures SpokenFrom(a, played, Report(NO_WORD, 0)).index <= SpokenFrom(b, later, Report(NO_WORD, 0)).index
  {
    var none := Report(NO_WORD, 0);
    SpokenFurthest(a, played, none);
    SpokenFurthest(b, later, none);
    var r := SpokenFrom(a, played, none);
    if r != none {
      var k, m :| 0 <= k < |a| && IsSpoken(a[k], m, played) && m.start < m.end <= |a[k].text| &&
                  r == WordReport(a[k], m);
      assert a[k] == b[k];
      SpokenStays(b[k], m, played, later);
    }
  }

  /** The chunk that holds a non-space position of the text. */
  lemma {:induction false} ChunkHolding(text: string, chunks: seq<string>, spans: seq<nat>, pos: nat, from: nat)
    returns (k: nat)
    requires ExactSpans(text, chunks, spans) && pos < |text| && text[pos] != ' '
    requires from < |chunks| && spans[from] <= pos
    ensures k < |chunks| && spans[k] <= pos < spans[k] + |chunks[k]|
    decreases |chunks| - from
  {
    assert PlacedAt(text, chunks, spans, from);
    if pos < spans[from] + |chunks[from]| {
      k := from;
    } else {
      k := ChunkHolding(text, chunks, spans, pos, from + 1);
    }
  }

  /** The last word of a chunk reaches past any alphanumeric position the chunk holds. */
  lemma LastWordReaches(text: string, c: PlaybackChunk, pos: nat) returns (m: WordMatch)
    requires OccursAt(text, c.text, c.charStart) && c.charStart <= pos < c.charStart + |c.text| && IsAlnum(text[pos])
    ensures m in Matches(c.text, 0) && m.end <= |c.text| && pos < c.charStart + m.end
  {
    assert text[c.charStart..c.charStart + |c.text|][pos - c.charStart] == text[pos];
    MatchesCover(c.text, 0);
    var ms := Matches(c.text, 0);
    m := ms[|ms| - 1];
  }

  /** A fully played chunk brings the report past every alphanumeric position that the chunk holds. */
  lemma SpokenReaches(text: string, q: seq<PlaybackChunk>, played: nat, k: nat, pos: nat)
    requires Ordered(q) && k < |q| && OccursAt(text, q[k].text, q[k].charStart)
    requires q[k].sampleStart < q[k].sampleEnd <= played
    requires q[k].charStart <= pos < q[k].charStart + |q[k].text| && IsAlnum(text[pos])
    ensures pos < SpokenFrom(q, played, Report(NO_WORD, 0)).index
  {
    var m := LastWordReaches(text, q[k], pos);
    assert IsSpoken(q[k], m, played);
    SpokenFurthest(q, played, Report(NO_WORD, 0));
  }

  /** With every chunk queued with samples and played, the report stands after the last alphanumeric character. */
  lemma QueueComplete(text: string, chunks: seq<string>, spans: seq<nat>, counts: seq<nat>, played: nat)
    requires ExactSpans(text, chunks, spans) && |counts| == |chunks|
    requires forall k :: 0 <= k < |counts| ==> counts[k] > 0
    requires forall c :: c in Queue(chunks, spans, counts) ==> c.sampleEnd <= played
    ensures LastSpoken(text, Queue(chunks, spans, counts), played).index == LastAlnumEnd(text)
  {
    var e := LastAlnumEnd(text);
    QueueAligned(text, chunks, spans, counts, played);
    if e > 0 {
      QueueReaches(text, chunks, spans, counts, played, e - 1);
    }
  }

  lemma QueueAt(chunks: seq<string>, spans: seq<nat>, counts: seq<nat>, k: nat)
    requires k < |counts| == |chunks| == |spans| && counts[k] > 0
    ensures |Queue(chunks, spans, counts)| == |chunks|
    ensures var c := Queue(chunks, spans, counts)[k];
            c in Queue(chunks, spans, counts) && c.text == chunks[k] && c.charStart == spans[k] &&
            c.sampleStart < c.sampleEnd
  {
    QueueElements(chunks, spans, counts, 0, 0);
  }

  lemma QueueReaches(text: string, chunks: seq<string>, spans: seq<nat>, counts: seq<nat>, played: nat, pos: nat)
    requires ExactSpans(text, chunks, spans) && |counts| == |chunks|
    requires forall k :: 0 <= k < |counts| ==> counts[k] > 0
    requires forall c :: c in Queue(chunks, spans, counts) ==> c.sampleEnd <= played
    requires pos < |text| && IsAlnum(text[pos]) && text[pos] != ' '
    ensures pos < SpokenFrom(Queue(chunks, spans, counts), played, Report(NO_WORD, 0)).index
  {
    var k := ChunkHolding(text, chunks, spans, pos, 0);
    QueueAt(chunks, spans, counts, k);
    QueueOrdered(text, chunks, spans, counts);
    assert PlacedAt(text, chunks, spans, k);
    SpokenReaches(text, Queue(chunks, spans, counts), played, k, pos);
  }

  /**
   The interruption report for every text, every prefix of its chunks queued with any sample counts,
   and every number of played samples: it is aligned with the cleaned text, and neither playing more
   samples nor queueing more chunks ever moves it back.
   */
  lemma ReportAlignedAndMonotone(text: string, counts: seq<nat>, more: seq<nat>, played: nat, later: nat)
    requires counts <= more && |more| <= |DefaultChunks(Clean(text))| && played <= later
    ensures var clean := Clean(text);
            var now, after := LastSpoken(clean, Timeline(clean, counts), played),
              LastSpoken(clean, Timeline(clean, more), later);
            Aligned(clean, now) && now.index <= after.index
  {
    var clean := Clean(text);
    var chunks := DefaultChunks(clean);
    var spans := SpansOf(clean, chunks, 0);
    DefaultSpansExact(text);
    QueueAligned(clean, chunks, spans, counts, played);
    QueueOrdered(clean, chunks, spans, counts);
    QueueOrdered(clean, chunks, spans, more);
    QueuePrefix(chunks, spans, counts, more, 0, 0);
    SpokenMonotone(Queue(chunks, spans, counts), Queue(chunks, spans, more), played, later);
  }

  lemma DefaultSpansExact(text: string)
    ensures var clean := Clean(text); ExactSpans(clean, DefaultChunks(clean), SpansOf(clean, DefaultChunks(clean), 0))
  {
    CleanIdempotent(text);
    ChunkSpansExact(Clean(text), DEFAULT_MAX_SPEECH_CHUNK_CHARS, DEFAULT_FIRST_SPEECH_CHUNK_CHARS);
  }

  /** A fully played text is reported as spoken up to its last alphanumeric character. */
  lemma ReportComplete(text: string, counts: seq<nat>, played: nat)
    requires |counts| == |DefaultChunks(Clean(text))|
    requires forall k :: 0 <= k < |counts| ==> counts[k] > 0
    requires forall c :: c in Timeline(Clean(text), counts) ==> c.sampleEnd <= played
    ensures LastSpoken(Clean(text), Timeline(Clean(text), counts), played).index == LastAlnumEnd(Clean(text))
  {
    var clean := Clean(text);
    var chunks := DefaultChunks(clean);
    DefaultSpansExact(text);
    QueueComplete(clean, chunks, SpansOf(clean, chunks, 0), counts, played);
  }
}
