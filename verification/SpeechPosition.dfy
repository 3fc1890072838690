/**
 Where each speech chunk stands in the cleaned text (agent-host speech/kokoro_onnx.py): the offsets found
 again by substring search from a moving cursor, and why that search never falls back.
 */
module SpeechPosition {
  import opened Text
  import opened Chunking
  import opened ChunkTiling

  // ---------- chunk offsets ----------

  /** `_chunk_spans`: search each chunk from the end of the previous one, falling back to that end. */
  function SpansOf(text: string, chunks: seq<string>, cursor: nat): seq<nat>
    decreases |chunks|
  {
    if chunks == [] then []
    else
      var index := Find(text, chunks[0], cursor);
      var at := if index < 0 then cursor else index;
      [at] + SpansOf(text, chunks[1..], at + |chunks[0]|)
  }

  /** One step of the search, after the offsets found so far. */
  lemma SpansStep(text: string, chunks: seq<string>, i: nat, cursor: nat, before: seq<nat>)
    requires i < |chunks|
    ensures var index := Find(text, chunks[i], cursor);
            var at := if index < 0 then cursor else index;
            before + SpansOf(text, chunks[i..], cursor) ==
            before + [at] + SpansOf(text, chunks[i + 1..], at + |chunks[i]|)
  {
    assert chunks[i..][1..] == chunks[i + 1..];
  }

  method ChunkSpans(text: string, chunks: seq<string>) returns (spans: seq<nat>)
    ensures spans == SpansOf(text, chunks, 0)
  {
    spans := [];
    var cursor: nat := 0;
    var i := 0;
    assert chunks[0..] == chunks;
    while i < |chunks|
      invariant 0 <= i <= |chunks|
      invariant spans + SpansOf(text, chunks[i..], cursor) == SpansOf(text, chunks, 0)
    {
      var index := Find(text, chunks[i], cursor);
      if index < 0 {
        index := cursor;
      }
      SpansStep(text, chunks, i, cursor, spans);
      spans := spans + [index];
      cursor := index + |chunks[i]|;
      i := i + 1;
    }
  }

  /** Position after a chunk that ends at `next`, past the separating space if there is one. */
  function SkipGap(text: string, next: nat): nat {
    if next < |text| && text[next] == ' ' then next + 1 else next
  }

  /** The offsets of chunks laid end to end from `at`, skipping single spaces. */
  function Layout(text: string, at: nat, chunks: seq<string>): seq<nat>
    decreases |chunks|
  {
    if chunks == [] then [] else [at] + Layout(text, SkipGap(text, at + |chunks[0]|), chunks[1..])
  }

  /**
   Chunk `k` lies at its offset; the next one is found at the end of it or one space later, the last one ends
   the text.
   */
  ghost predicate PlacedAt(text: string, chunks: seq<string>, spans: seq<nat>, k: nat)
    requires k < |chunks| == |spans|
  {
    var next := spans[k] + |chunks[k]|;
    && OccursAt(text, chunks[k], spans[k])
    && (k + 1 == |chunks| ==> next == |text|)
    && (k + 1 < |chunks| ==> spans[k + 1] == SkipGap(text, next) == Find(text, chunks[k + 1], next))
  }

  ghost predicate ExactSpans(text: string, chunks: seq<string>, spans: seq<nat>) {
    && |spans| == |chunks|
    && (chunks == [] <==> text == "")
    && (chunks != [] ==> spans[0] == 0 == Find(text, chunks[0], 0))
    && forall k {:trigger PlacedAt(text, chunks, spans, k)} :: 0 <= k < |chunks| ==> PlacedAt(text, chunks, spans, k)
  }

  lemma FindAcrossGap(text: string, c: string, cursor: nat, at: nat)
    requires OccursAt(text, c, at) && 0 < |c| && c[0] != ' '
    requires cursor == at || (cursor + 1 == at && text[cursor] == ' ')
    ensures Find(text, c, cursor) == at
  {
    assert cursor < at && cursor + |c| <= |text| ==> text[cursor..cursor + |c|][0] == text[cursor];
  }

  /** Chunk `c` lies at `at`, starts a word, and is followed by the end of the text, a space and more, or a word. */
  ghost predicate LaidAt(text: string, at: nat, c: string) {
    && 0 < |c| && OccursAt(text, c, at) && c[0] != ' '
    && (at + |c| < |text| && text[at + |c|] == ' ' ==> at + |c| + 1 < |text|)
  }

  /** The chunks are laid end to end from `at` to the end of the text, one space apart at most. */
  ghost predicate Laid(text: string, at: nat, chunks: seq<string>)
    decreases |chunks|
  {
    if chunks == [] then at == |text|
    else LaidAt(text, at, chunks[0]) && Laid(text, SkipGap(text, at + |chunks[0]|), chunks[1..])
  }

  lemma CutAfter(text: string, at: nat, c: string)
    requires at < |text| && 0 < |c| && c <= text[at..]
    ensures at + |c| <= |text| && text[at..at + |c|] == c && c[0] == text[at] && text[at..][|c|..] == text[at + |c|..]
  {
    assert text[at..at + |c|] == text[at..][..|c|] == c;
  }

  /** One chunk of a clean text, and the word start that follows it. */
  lemma LayOutStep(text: string, at: nat, c: string)
    requires IsClean(text) && at < |text| && !IsSpace(text[at])
    requires 0 < |c| && c <= text[at..]
    ensures LaidAt(text, at, c)
    ensures var next := SkipGap(text, at + |c|);
            && next <= |text| && (next < |text| ==> !IsSpace(text[next]))
            && text[next..] == DropGap(text[at..][|c|..])
  {
    var next := at + |c|;
    CutAfter(text, at, c);
    hide IsSpace;
    if next < |text| {
      assert CleanAt(text, next);
    }
  }

  lemma {:induction false} TilesLaid(text: string, at: nat, chunks: seq<string>, maxChars: nat)
    requires IsClean(text) && at <= |text| && (at < |text| ==> !IsSpace(text[at]))
    requires Tiles(text[at..], chunks, maxChars, SPLIT_FLOOR)
    ensures Laid(text, at, chunks)
    decreases |chunks|
  {
    if chunks != [] {
      LayOutStep(text, at, chunks[0]);
      TilesLaid(text, SkipGap(text, at + |chunks[0]|), chunks[1..], maxChars);
    }
  }

  lemma {:induction false} SpansAreLayout(text: string, at: nat, cursor: nat, chunks: seq<string>)
    requires Laid(text, at, chunks)
    requires cursor == at || (cursor + 1 == at <= |text| && text[cursor] == ' ')
    ensures SpansOf(text, chunks, cursor) == Layout(text, at, chunks)
    ensures chunks != [] ==> Find(text, chunks[0], cursor) == at
    decreases |chunks|, 2
  {
    if chunks != [] {
      FindAcrossGap(text, chunks[0], cursor, at);
      LayoutCons(text, at, cursor, chunks[0], chunks[1..]);
      assert [chunks[0]] + chunks[1..] == chunks;
    }
  }

  lemma {:induction false} LayoutCons(text: string, at: nat, cursor: nat, c: string, rest: seq<string>)
    requires Laid(text, SkipGap(text, at + |c|), rest) && Find(text, c, cursor) == at && at + |c| <= |text|
    ensures SpansOf(text, [c] + rest, cursor) == Layout(text, at, [c] + rest)
    decreases |rest| + 1, 1
  {
    hide Find, Layout, SpansOf, Laid;
    SpansAreLayout(text, SkipGap(text, at + |c|), at + |c|, rest);
    hide SkipGap;
    FirstSpan(text, at, cursor, c, rest);
  }

  lemma FirstSpan(text: string, at: nat, cursor: nat, c: string, rest: seq<string>)
    requires Find(text, c, cursor) == at
    ensures SpansOf(text, [c] + rest, cursor) == [at] + SpansOf(text, rest, at + |c|)
    ensures Layout(text, at, [c] + rest) == [at] + Layout(text, SkipGap(text, at + |c|), rest)
  {
    TailOf(c, rest);
  }

  lemma TailOf(c: string, rest: seq<string>)
    ensures ([c] + rest)[0] == c && ([c] + rest)[1..] == rest
  {
  }

  lemma {:induction false} LaidPlaced(text: string, at: nat, chunks: seq<string>)
    requires Laid(text, at, chunks)
    ensures |Layout(text, at, chunks)| == |chunks|
    ensures forall k :: 0 <= k < |chunks| ==> PlacedAt(text, chunks, Layout(text, at, chunks), k)
    decreases |chunks|
  {
    if chunks != [] {
      var next, rest := at + |chunks[0]|, chunks[1..];
      var spans := Layout(text, SkipGap(text, next), rest);
      LaidPlaced(text, SkipGap(text, next), rest);
      SpansAreLayout(text, SkipGap(text, next), next, rest);
      forall k | 0 <= k < |chunks|
        ensures PlacedAt(text, chunks, [at] + spans, k)
      {
        if k > 0 {
          PlacedLater(text, chunks, at, spans, k);
        }
      }
    }
  }

  lemma PlacedLater(text: string, chunks: seq<string>, at: nat, spans: seq<nat>, k: nat)
    requires 0 < k < |chunks| == |spans| + 1 && PlacedAt(text, chunks[1..], spans, k - 1)
    ensures PlacedAt(text, chunks, [at] + spans, k)
  {
    assert chunks[1..][k - 1] == chunks[k];
    assert k + 1 < |chunks| ==> chunks[1..][k] == chunks[k + 1];
  }

  lemma {:induction false} TileLengths(t: string, cs: seq<string>, maxChars: nat)
    requires Tiles(t, cs, maxChars, SPLIT_FLOOR)
    ensures forall k :: 0 <= k < |cs| ==> 0 < |cs[k]| <= maxChars
    decreases |cs|
  {
    if cs != [] {
      TileLengths(DropGap(t[|cs[0]|..]), cs[1..], maxChars);
      assert forall k :: 0 < k < |cs| ==> cs[k] == cs[1..][k - 1];
    }
  }

  lemma ChunksLaid(text: string, maxChars: nat, firstChunkChars: nat)
    requires 1 <= maxChars && 1 <= firstChunkChars
    ensures Laid(Clean(text), 0, Chunks(text, maxChars, firstChunkChars))
    ensures var chunks := Chunks(text, maxChars, firstChunkChars);
            forall k :: 0 <= k < |chunks| ==> 0 < |chunks[k]| <= if k == 0 then firstChunkChars else maxChars
  {
    var clean, chunks := Clean(text), Chunks(text, maxChars, firstChunkChars);
    CleanIsClean(text);
    ChunksTile(text, maxChars, firstChunkChars);
    if chunks != [] {
      var c, rest := chunks[0], chunks[1..];
      assert CleanAt(clean, 0) && clean[0..] == clean;
      hide Clean, Chunks, Tiles, IsClean, Boundary;
      LayOutStep(clean, 0, c);
      TilesLaid(clean, SkipGap(clean, |c|), rest, maxChars);
      TileLengths(clean[SkipGap(clean, |c|)..], rest, maxChars);
      assert forall k :: 0 < k < |chunks| ==> chunks[k] == rest[k - 1];
    }
  }

  /**
   For every text and accepted limits: the computed offsets are exact. They start at 0, end at the
   length of the cleaned text, neighbours touch or are one space apart, the search never falls back,
   the first chunk fits its limit and the others theirs.
   */
  lemma ChunkSpansExact(text: string, maxChars: nat, firstChunkChars: nat)
    requires 1 <= maxChars && 1 <= firstChunkChars
    ensures var clean, chunks := Clean(text), Chunks(text, maxChars, firstChunkChars);
            && ExactSpans(clean, chunks, SpansOf(clean, chunks, 0))
            && forall k :: 0 <= k < |chunks| ==> 0 < |chunks[k]| <= if k == 0 then firstChunkChars else maxChars
  {
    var clean, chunks := Clean(text), Chunks(text, maxChars, firstChunkChars);
    ChunksLaid(text, maxChars, firstChunkChars);
    SpansAreLayout(clean, 0, 0, chunks);
    LaidPlaced(clean, 0, chunks);
  }
}
