/**
 The interruption report against the playback queue (agent-host speech/kokoro_onnx.py over
 speech/playback.py): a word is reported only if the samples that carry it were heard.
 */
module SpokenHeard {
  import opened Numbers
  import opened Text
  import opened Samples
  import opened Playback
  import opened SpeechPosition
  import opened Interruption
  import opened SpokenWords

  // ---------- one utterance at the queue ----------

  /** The chunks that are enqueued, if nothing is cleared. */
  function Frames(ops: seq<Op>): seq<Frame> {
    if ops == [] then []
    else
      var n := |ops| - 1;
      if ops[n].Enqueue? then Frames(ops[..n]) + [ops[n].samples] else Frames(ops[..n])
  }

  ghost predicate NoClear(ops: seq<Op>) {
    forall op :: op in ops ==> !op.Clear?
  }

  /** Without a clear every sample counted as played was heard, and what was sent is what was enqueued. */
  lemma {:induction false} PlayedIsHeard(limit: nat, ops: seq<Op>)
    requires NoClear(ops)
    ensures |Heard(limit, ops)| == Run(limit, ops).played && Sent(ops) == Flat(Frames(ops))
  {
    if ops != [] {
      var n := |ops| - 1;
      assert ops[n] in ops;
      PlayedIsHeard(limit, ops[..n]);
      if ops[n].Enqueue? {
        FlatAppend(Frames(ops[..n]), ops[n].samples);
      }
    }
  }

  lemma LastOp(limit: nat, ops: seq<Op>)
    requires ops != []
    ensures var n := |ops| - 1; var before := Run(limit, ops[..n]);
            && Run(limit, ops) == Step(limit, before, ops[n])
            && (ops[n].Enqueue? ==>
                Heard(limit, ops) == Heard(limit, ops[..n]) && Sent(ops) == Sent(ops[..n]) + ops[n].samples)
            && (ops[n].Clear? ==> Heard(limit, ops) == [] && Sent(ops) == [])
            && (ops[n].Callback? ==>
                Heard(limit, ops) == Heard(limit, ops[..n]) + FirstN(before.queue, ops[n].frames) &&
                Sent(ops) == Sent(ops[..n]))
  {
  }

  /** A reset forgets everything before it. */
  lemma {:induction false} ResetForgets(limit: nat, before: seq<Op>, ops: seq<Op>)
    ensures var all := before + [Clear(true)] + ops;
            && Run(limit, all) == Run(limit, ops) && Heard(limit, all) == Heard(limit, ops) && Sent(all) == Sent(ops)
  {
    var all := before + [Clear(true)] + ops;
    LastOp(limit, all);
    if ops == [] {
      assert all[|all| - 1] == Clear(true);
    } else {
      var n := |ops| - 1;
      assert all[..|all| - 1] == before + [Clear(true)] + ops[..n] && all[|all| - 1] == ops[n];
      LastOp(limit, ops);
      hide *;
      ResetForgets(limit, before, ops[..n]);
    }
  }

  // ---------- the samples of the recorded chunks ----------

  function Counts(audio: seq<Frame>): (r: seq<nat>)
    ensures |r| == |audio|
  {
    seq(|audio|, k requires 0 <= k < |audio| => |audio[k]|)
  }

  lemma {:induction false} FlatConcat(a: seq<Frame>, b: seq<Frame>)
    ensures Flat(a + b) == Flat(a) + Flat(b)
  {
    if a == [] {
      assert a + b == b;
    } else {
      assert (a + b)[1..] == a[1..] + b;
      FlatConcat(a[1..], b);
    }
  }

  lemma FlatAt(audio: seq<Frame>, k: nat)
    requires k < |audio|
    ensures Flat(audio) == Flat(audio[..k]) + audio[k] + Flat(audio[k + 1..])
    ensures Flat(audio[..k + 1]) == Flat(audio[..k]) + audio[k]
  {
    hide Flat;
    assert audio == audio[..k + 1] + audio[k + 1..];
    FlatConcat(audio[..k + 1], audio[k + 1..]);
    assert audio[..k + 1] == audio[..k] + [audio[k]];
    FlatAppend(audio[..k], audio[k]);
  }

  /** A recorded chunk's range of samples is where its samples lie in the whole audio. */
  lemma {:induction false} RangeIsPlace(chunks: seq<string>, spans: seq<nat>, audio: seq<Frame>, i: nat, k: nat)
    requires i <= k < |audio| <= |chunks| == |spans|
    ensures var q := QueueFrom(chunks, spans, Counts(audio), i, |Flat(audio[..i])|);
            && |q| == |audio| - i
            && q[k - i] == PlaybackChunk(chunks[k], spans[k], |Flat(audio[..k])|, |Flat(audio[..k])| + |audio[k]|)
    decreases k - i
  {
    var queued := |Flat(audio[..i])|;
    QueueElements(chunks, spans, Counts(audio), i, queued);
    FlatAt(audio, i);
    if i < k {
      RangeIsPlace(chunks, spans, audio, i + 1, k);
    }
  }

  // ---------- what a reported word rests on ----------

  lemma QuotientBound(x: nat, a: nat, b: nat)
    requires 0 < b && x <= a / b
    ensures x * b <= a
  {
    var q := a / b;
    assert q * b <= a;
    MulMonotone(b, x, q);
  }

  lemma LimitShare(c: PlaybackChunk, played: nat)
    requires c.sampleStart < played < c.sampleEnd
    ensures CharLimit(c, played) <= (|c.text| * (played - c.sampleStart)) / (c.sampleEnd - c.sampleStart)
  {
    var share := (|c.text| * (played - c.sampleStart)) / (c.sampleEnd - c.sampleStart);
    MulMonotone(|c.text|, 0, played - c.sampleStart);
    DivNat(|c.text| * (played - c.sampleStart), c.sampleEnd - c.sampleStart);
    assert CharLimit(c, played) == Max(0, Min(|c.text|, share));
  }

  lemma DivNat(a: nat, b: nat)
    requires 0 < b
    ensures 0 <= a / b
  {
  }

  /** A spoken word ends within the share of its chunk that was played. */
  lemma SpokenShare(c: PlaybackChunk, m: WordMatch, played: nat)
    requires IsSpoken(c, m, played) && m.end <= |c.text|
    ensures var h := Min(played, c.sampleEnd) - c.sampleStart;
            0 < h <= c.sampleEnd - c.sampleStart && m.end * (c.sampleEnd - c.sampleStart) <= |c.text| * h
  {
    var total := c.sampleEnd - c.sampleStart;
    hide Matches;
    if played >= c.sampleEnd {
      MulMonotone(total, m.end, |c.text|);
    } else {
      LimitShare(c, played);
      hide CharLimit, IsSpoken;
      QuotientBound(m.end, |c.text| * (played - c.sampleStart), total);
    }
  }

  /** Some word of chunk `k` is reported, and enough samples of the chunk were heard to carry it. */
  ghost predicate HeardWord(q: seq<PlaybackChunk>, audio: seq<Frame>, heard: Frame, r: Report, k: nat, m: WordMatch,
                            h: nat)
  {
    && k < |q| == |audio| && m.start < m.end <= |q[k].text| && WholeWord(q[k].text, m) && r == WordReport(q[k], m)
    && 0 < h <= |audio[k]| && m.end * |audio[k]| <= |q[k].text| * h
    && q[k].sampleStart + h <= |heard| && heard[q[k].sampleStart..q[k].sampleStart + h] == audio[k][..h]
  }

  lemma HeardPrefix(heard: Frame, queue: Frame, sent: seq<Frame>, audio: seq<Frame>, k: nat, h: nat)
    requires heard + queue == Flat(sent) && sent <= audio && k < |audio|
    requires h <= |audio[k]| && |Flat(audio[..k])| + h <= |heard|
    ensures var start := |Flat(audio[..k])|; heard[start..start + h] == audio[k][..h]
  {
    assert audio == sent + audio[|sent|..];
    FlatConcat(sent, audio[|sent|..]);
    FlatAt(audio, k);
    PrefixSlice(heard, queue + Flat(audio[|sent|..]), Flat(audio[..k]), audio[k], Flat(audio[k + 1..]), h);
  }

  lemma PrefixSlice(heard: Frame, rest: Frame, before: Frame, mine: Frame, after: Frame, h: nat)
    requires heard + rest == before + mine + after && h <= |mine| && |before| + h <= |heard|
    ensures heard[|before|..|before| + h] == mine[..h]
  {
    var all := heard + rest;
    assert forall i :: 0 <= i < h ==> heard[|before| + i] == all[|before| + i] && mine[i] == all[|before| + i];
  }

  /**
   After a reset, whatever came before it: if the samples of some recorded chunks are enqueued in order, with
   any callbacks between, and the player reports at most the samples counted as played, then a reported word
   is a word of a recorded chunk, and the samples heard include as large a share of that chunk's samples, from
   its first one on, as the word's end takes of the chunk's characters.
   */
  lemma ReportWasHeard(limit: nat, before: seq<Op>, ops: seq<Op>, text: string, audio: seq<Frame>, played: nat)
    requires NoClear(ops) && Frames(ops) <= audio && |audio| <= |DefaultChunks(Clean(text))|
    requires played <= Run(limit, before + [Clear(true)] + ops).played
    ensures var clean := Clean(text);
            var q := Timeline(clean, Counts(audio));
            var r := LastSpoken(clean, q, played);
            r.word != NO_WORD ==>
              exists k, m, h :: HeardWord(q, audio, Heard(limit, before + [Clear(true)] + ops), r, k, m, h)
  {
    var clean := Clean(text);
    var chunks, spans := DefaultChunks(clean), SpansOf(clean, DefaultChunks(clean), 0);
    var q := Timeline(clean, Counts(audio));
    var r := LastSpoken(clean, q, played);
    DefaultSpansExact(text);
    QueueOrdered(clean, chunks, spans, Counts(audio));
    SpokenFurthest(q, played, Report(NO_WORD, 0));
    if r.word != NO_WORD {
      var k, m :| 0 <= k < |q| && IsSpoken(q[k], m, played) && m.start < m.end <= |q[k].text| &&
                  r == WordReport(q[k], m);
      hide *;
      WordWasHeard(limit, before, ops, chunks, spans, audio, played, k, m);
    }
  }

  lemma WordWasHeard(limit: nat, before: seq<Op>, ops: seq<Op>, chunks: seq<string>, spans: seq<nat>,
                     audio: seq<Frame>, played: nat, k: nat, m: WordMatch)
    requires NoClear(ops) && Frames(ops) <= audio && |audio| <= |chunks| == |spans|
    requires played <= Run(limit, before + [Clear(true)] + ops).played
    requires var q := Queue(chunks, spans, Counts(audio));
             k < |q| && IsSpoken(q[k], m, played) && m.start < m.end <= |q[k].text|
    ensures var q := Queue(chunks, spans, Counts(audio));
            exists h :: HeardWord(q, audio, Heard(limit, before + [Clear(true)] + ops), WordReport(q[k], m), k, m, h)
  {
    var q, heard := Queue(chunks, spans, Counts(audio)), Heard(limit, before + [Clear(true)] + ops);
    QueueElements(chunks, spans, Counts(audio), 0, 0);
    RangeIsPlace(chunks, spans, audio, 0, k);
    assert q == QueueFrom(chunks, spans, Counts(audio), 0, |Flat(audio[..0])|) by {
      assert audio[..0] == [];
    }
    hide *;
    ResetForgets(limit, before, ops);
    PlayedIsHeard(limit, ops);
    PlaybackIsFifo(limit, ops);
    SpokenPartHeard(q, audio, heard, Run(limit, ops).queue, Frames(ops), played, k, m);
  }

  lemma SpokenPartHeard(q: seq<PlaybackChunk>, audio: seq<Frame>, heard: Frame, queue: Frame, sent: seq<Frame>,
                        played: nat, k: nat, m: WordMatch)
    requires |q| == |audio| && k < |q|
    requires q[k].sampleStart == |Flat(audio[..k])| && q[k].sampleEnd == q[k].sampleStart + |audio[k]|
    requires IsSpoken(q[k], m, played) && m.start < m.end <= |q[k].text|
    requires heard + queue == Flat(sent) && sent <= audio && played <= |heard|
    ensures exists h :: HeardWord(q, audio, heard, WordReport(q[k], m), k, m, h)
  {
    SpokenShare(q[k], m, played);
    MatchesExactly(q[k].text);
    var h := Min(played, q[k].sampleEnd) - q[k].sampleStart;
    hide CharLimit, Matches, Flat, WholeWord;
    HeardPrefix(heard, queue, sent, audio, k, h);
    assert HeardWord(q, audio, heard, WordReport(q[k], m), k, m, h);
  }
}
