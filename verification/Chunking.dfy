/**
 The speech chunker (agent-host speech/chunking.py): a first short fragment, sentence
 splitting, long-sentence splitting and greedy packing. The main result is that the chunks
 tile the cleaned text.
 */
module Chunking {
  import opened Numbers
  import opened Text

  datatype Outcome<T> = Ok(value: T) | ValueError(message: string)

  const DEFAULT_MAX_SPEECH_CHUNK_CHARS := 180
  const DEFAULT_FIRST_SPEECH_CHUNK_CHARS := 96

  const FIRST_SEPARATORS := [" and ", " but ", " so ", " then ", " because ", " while ", " which ", " that "]

  // Smallest useful fragment lengths, below which a window is cut at its full width instead.
  const FIRST_FLOOR := 12
  const SPLIT_FLOOR := 32

  function LowerBound(floor: nat, maxChars: nat): nat {
    Max(floor, maxChars / 3)
  }

  // ---------- choosing where to split ----------

  /** End of the first match of `[.!?;:,]\s+` that starts at or after `from` and whose end lies in lo..hi, or -1. */
  function PunctuationBreak(window: string, from: nat, lo: nat, hi: nat): (r: int)
    ensures r == -1 || (lo <= r <= hi && 2 <= r <= |window| && IsSpace(window[r - 1]))
    decreases |window| - from
  {
    if from + 1 >= |window| then -1
    else
      var end := from + 1 + SpaceRun(window[from + 1..]);
      if window[from] in ".!?;:," && end > from + 1 && lo <= end <= hi then
        assert window[from + 1..][end - from - 2] == window[end - 1];
        end
      else PunctuationBreak(window, from + 1, lo, hi)
  }

  /** The last occurrence of the first separator that has one at or after `lo`, or -1. */
  function SeparatorBreak(window: string, separators: seq<string>, lo: nat): (r: int)
    ensures r == -1 || (lo <= r && exists p :: p in separators && OccursAt(window, p, r))
  {
    if separators == [] then -1
    else
      var index := RFind(window, separators[0]);
      if index >= lo then index else SeparatorBreak(window, separators[1..], lo)
  }

  function FirstSplitIndex(text: string, maxChars: nat): (r: nat)
    requires 1 <= maxChars < |text|
    ensures 1 <= r <= maxChars
  {
    var window := text[..maxChars + 1];
    var lo := LowerBound(FIRST_FLOOR, maxChars);
    var punctuation := PunctuationBreak(window, 0, lo, maxChars);
    if punctuation >= 0 then punctuation
    else
      var separator := SeparatorBreak(window, FIRST_SEPARATORS, lo);
      if separator >= 0 then separator
      else
        var space := RFind(window, " ");
        if space >= lo then space else maxChars
  }

  function SplitIndex(text: string, maxChars: nat): (r: nat)
    requires 1 <= maxChars < |text|
    ensures 1 <= r <= maxChars
  {
    var window := text[..maxChars + 1];
    var lo := LowerBound(SPLIT_FLOOR, maxChars);
    var comma, dash, space := RFind(window, ", "), RFind(window, " - "), RFind(window, " ");
    if comma >= lo then comma + 1
    else if dash >= lo then dash
    else if space >= lo then space
    else maxChars
  }

  // ---------- splitting and packing ----------

  function FirstFragment(text: string, maxChars: nat): (string, string)
    requires 1 <= maxChars
  {
    if |text| <= maxChars then (text, "")
    else
      var splitAt := FirstSplitIndex(text, maxChars);
      (Strip(text[..splitAt]), Strip(text[splitAt..]))
  }

  /** The first sentence end at or after `from`, or the length of the text. */
  function SentenceEnd(s: string, from: nat): (r: nat)
    requires from <= |s|
    ensures from <= r <= |s|
    ensures r < |s| ==> EndsSentence(s, r)
    ensures forall i :: from <= i < r ==> !EndsSentence(s, i)
    decreases |s| - from
  {
    if from == |s| then from
    else if EndsSentence(s, from) then from
    else SentenceEnd(s, from + 1)
  }

  /** `(?<=[.!?;:])\s` matches at `i`. */
  predicate EndsSentence(s: string, i: nat)
    requires i < |s|
  {
    0 < i && IsSpace(s[i]) && s[i - 1] in ".!?;:"
  }

  /** The text after the whitespace run that starts at `end`. */
  function AfterRun(s: string, end: nat): (r: string)
    requires end < |s|
    ensures |r| <= |s| - end
  {
    s[end + SpaceRun(s[end..])..]
  }

  /** `re.split(r"(?<=[.!?;:])\s+", s)`. */
  function Sentences(s: string): (r: seq<string>)
    ensures r != []
    decreases |s|
  {
    var end := SentenceEnd(s, 0);
    if end == |s| then [s]
    else [s[..end]] + Sentences(AfterRun(s, end))
  }

  /** The pieces of a stripped fragment: cut while it is too long. */
  function SplitStripped(remaining: string, maxChars: nat): seq<string>
    requires 1 <= maxChars
    decreases |remaining|
  {
    if |remaining| <= maxChars then (if remaining == "" then [] else [remaining])
    else
      var end := SplitIndex(remaining, maxChars);
      [Strip(remaining[..end])] + SplitStripped(Strip(remaining[end..]), maxChars)
  }

  function PiecesOf(sentences: seq<string>, maxChars: nat): seq<string>
    requires 1 <= maxChars
  {
    if sentences == [] then []
    else SplitStripped(Strip(sentences[0]), maxChars) + PiecesOf(sentences[1..], maxChars)
  }

  /** Greedy packing of pieces into chunks of at most `maxChars`, joined by single spaces. */
  function Pack(current: string, pieces: seq<string>, maxChars: nat): seq<string>
    decreases |pieces|
  {
    if pieces == [] then (if current == "" then [] else [current])
    else if current == "" then Pack(pieces[0], pieces[1..], maxChars)
    else if |current| + 1 + |pieces[0]| <= maxChars then Pack(current + " " + pieces[0], pieces[1..], maxChars)
    else [current] + Pack(pieces[0], pieces[1..], maxChars)
  }

  function Chunks(text: string, maxChars: nat, firstChunkChars: nat): seq<string>
    requires 1 <= maxChars && 1 <= firstChunkChars
  {
    var clean := Clean(text);
    if clean == "" then []
    else
      var (first, remaining) := FirstFragment(clean, firstChunkChars);
      (if first == "" then [] else [first]) + Pack("", PiecesOf(Sentences(remaining), maxChars), maxChars)
  }

  // ---------- the loops of the source ----------

  lemma Shift(a: seq<string>, x: string, b: seq<string>)
    ensures (a + [x]) + b == a + ([x] + b)
  {
  }

  method SplitLongFragment(fragment: string, maxChars: nat) returns (pieces: seq<string>)
    requires 1 <= maxChars
    ensures pieces == SplitStripped(Strip(fragment), maxChars)
  {
    var remaining := Strip(fragment);
    pieces := [];
    while |remaining| > maxChars
      invariant pieces + SplitStripped(remaining, maxChars) == SplitStripped(Strip(fragment), maxChars)
      decreases |remaining|
    {
      var end := SplitIndex(remaining, maxChars);
      Shift(pieces, Strip(remaining[..end]), SplitStripped(Strip(remaining[end..]), maxChars));
      pieces := pieces + [Strip(remaining[..end])];
      remaining := Strip(remaining[end..]);
    }
    if remaining != "" {
      pieces := pieces + [remaining];
    }
  }

  /** The inner packing loop, over the pieces of one sentence; `later` stands for the pieces still to come. */
  method AddPieces(start: seq<string>, open: string, pieces: seq<string>, maxChars: nat, ghost later: seq<string>)
    returns (chunks: seq<string>, current: string)
    ensures chunks + Pack(current, later, maxChars) == start + Pack(open, pieces + later, maxChars)
  {
    chunks, current := start, open;
    var j := 0;
    assert pieces[0..] == pieces;
    while j < |pieces|
      invariant 0 <= j <= |pieces|
      invariant chunks + Pack(current, pieces[j..] + later, maxChars) == start + Pack(open, pieces + later, maxChars)
    {
      assert (pieces[j..] + later)[1..] == pieces[j + 1..] + later;
      var piece := pieces[j];
      if current == "" {
        current := piece;
      } else if |current| + 1 + |piece| <= maxChars {
        current := current + " " + piece;
      } else {
        chunks := chunks + [current];
        current := piece;
      }
      j := j + 1;
    }
    assert pieces[j..] + later == later;
  }

  lemma PiecesStep(sentences: seq<string>, i: nat, maxChars: nat)
    requires 1 <= maxChars && i < |sentences|
    ensures PiecesOf(sentences[i..], maxChars) ==
            SplitStripped(Strip(sentences[i]), maxChars) + PiecesOf(sentences[i + 1..], maxChars)
  {
    assert sentences[i..][1..] == sentences[i + 1..];
  }

  /** The main loop: split every sentence, pack its pieces, and close the last chunk. */
  method PackSentences(start: seq<string>, sentences: seq<string>, maxChars: nat) returns (chunks: seq<string>)
    requires 1 <= maxChars
    ensures chunks == start + Pack("", PiecesOf(sentences, maxChars), maxChars)
  {
    var current := "";
    chunks := start;
    assert sentences[0..] == sentences;
    for i := 0 to |sentences|
      invariant chunks + Pack(current, PiecesOf(sentences[i..], maxChars), maxChars) ==
                start + Pack("", PiecesOf(sentences, maxChars), maxChars)
    {
      var pieces := SplitLongFragment(sentences[i], maxChars);
      PiecesStep(sentences, i, maxChars);
      chunks, current := AddPieces(chunks, current, pieces, maxChars, PiecesOf(sentences[i + 1..], maxChars));
    }
    if current != "" {
      chunks := chunks + [current];
    }
  }

  method SpeechChunks(text: string, maxChars: int, firstChunkChars: int) returns (r: Outcome<seq<string>>)
    ensures r.Ok? <==> maxChars >= 1 && firstChunkChars >= 1
    ensures r.Ok? ==> r.value == Chunks(text, maxChars, firstChunkChars)
  {
    if maxChars < 1 {
      return ValueError("max_chars must be at least 1");
    }
    if firstChunkChars < 1 {
      return ValueError("first_chunk_chars must be at least 1");
    }
    var clean := Clean(text);
    if clean == "" {
      return Ok([]);
    }
    var (first, remaining) := FirstFragment(clean, firstChunkChars);
    var chunks := PackSentences(if first == "" then [] else [first], Sentences(remaining), maxChars);
    return Ok(chunks);
  }
}
