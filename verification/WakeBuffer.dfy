/** The sliding wake-word buffer (agent-host keyphrases/pocketsphinx_phrase.py). */
module WakeBuffer {
  import opened Ids
  import opened Numbers
  import opened Samples

  /** One frame of the loop below: skipped whole, or kept from `skip` on. */
  lemma TrimStep(kept: seq<Frame>, frames: seq<Frame>, i: nat, skip: nat)
    requires i < |frames|
    ensures var frame, rest := frames[i], Flat(frames[i + 1..]);
            Flat(kept) + DropN(Flat(frames[i..]), skip) ==
            if skip >= |frame| then Flat(kept) + DropN(rest, skip - |frame|)
            else Flat(kept + [frame[skip..]]) + DropN(rest, 0)
  {
    var frame, rest := frames[i], Flat(frames[i + 1..]);
    assert frames[i..][1..] == frames[i + 1..];
    DropStep(frame, rest, skip);
    if skip < |frame| {
      FlatAppend(kept, frame[skip..]);
      assert DropN(rest, 0) == rest;
      assert Flat(kept) + (frame[skip..] + rest) == (Flat(kept) + frame[skip..]) + rest;
    }
  }

  /** `trim_frames_from_sample`. */
  method TrimFramesFromSample(frames: seq<Frame>, startSample: int) returns (trimmed: seq<Frame>)
    ensures Flat(trimmed) == DropN(Flat(frames), Max(0, startSample))
  {
    var skip: nat := Max(0, startSample);
    trimmed := [];
    var i := 0;
    assert frames[0..] == frames;
    while i < |frames|
      invariant 0 <= i <= |frames|
      invariant Flat(trimmed) + DropN(Flat(frames[i..]), skip) == DropN(Flat(frames), Max(0, startSample))
    {
      var frame := frames[i];
      TrimStep(trimmed, frames, i, skip);
      i := i + 1;
      if skip >= |frame| {
        skip := skip - |frame|;
        continue;
      }
      if skip > 0 {
        frame := frame[skip..];
        skip := 0;
      }
      trimmed := trimmed + [frame];
    }
  }

  /** `take` samples after skipping `skip`. */
  function Window(samples: Frame, skip: nat, take: int): Frame {
    FirstN(DropN(samples, skip), Max(0, take))
  }

  /** One frame of the trim loop: skipped whole, or taken from `skip` on and cut to what is still wanted. */
  lemma WindowStep(frame: Frame, rest: Frame, skip: nat, take: nat)
    ensures Window(frame + rest, skip, take) ==
            if skip >= |frame| then Window(rest, skip - |frame|, take)
            else FirstN(frame[skip..], take) + Window(rest, 0, take - |FirstN(frame[skip..], take)|)
  {
    DropStep(frame, rest, skip);
    if skip < |frame| {
      FirstStep(frame[skip..], rest, take);
      assert DropN(rest, 0) == rest;
    }
  }

  lemma JoinStep(a: Frame, b: Frame, c: Frame, all: Frame)
    requires a + (b + c) == all
    ensures (a + b) + c == all
  {
  }

  /** The part of a frame that the trim loop keeps. */
  method CutFrame(frame: Frame, skip: nat, take: nat) returns (piece: Frame)
    requires skip < |frame|
    ensures piece == FirstN(frame[skip..], take)
  {
    piece := frame;
    if skip > 0 {
      piece := piece[skip..];
    }
    if |piece| > take {
      piece := piece[..take];
    }
  }

  lemma FlatStep(frames: seq<Frame>, i: nat)
    requires i < |frames|
    ensures Flat(frames[i..]) == frames[i] + Flat(frames[i + 1..])
  {
    assert frames[i..][1..] == frames[i + 1..];
  }

  /** The loop of `trim_frames_between_samples`, once something is wanted. */
  method TrimWindow(frames: seq<Frame>, startSample: nat, count: nat) returns (trimmed: seq<Frame>)
    ensures Flat(trimmed) == Window(Flat(frames), startSample, count)
  {
    var skip: nat, take: nat := startSample, count;
    trimmed := [];
    var i := 0;
    ghost var left := Flat(frames);
    assert frames[0..] == frames && frames[|frames|..] == [];
    assert Flat([]) == [] && [] + Window(left, skip, take) == Window(left, skip, take);
    hide Flat, Window, FirstN, DropN;
    while i < |frames| && take > 0
      invariant 0 <= i <= |frames| && left == Flat(frames[i..])
      invariant Flat(trimmed) + Window(left, skip, take) == Window(Flat(frames), startSample, count)
    {
      var frame := frames[i];
      ghost var rest := Flat(frames[i + 1..]);
      FlatStep(frames, i);
      WindowStep(frame, rest, skip, take);
      i, left := i + 1, rest;
      if skip >= |frame| {
        skip := skip - |frame|;
        continue;
      }
      var piece := CutFrame(frame, skip, take);
      skip, take := 0, take - |piece|;
      FlatAppend(trimmed, piece);
      JoinStep(Flat(trimmed), piece, Window(rest, 0, take), Window(Flat(frames), startSample, count));
      trimmed := trimmed + [piece];
    }
    NothingLeft(left, skip, take);
    assert Flat(trimmed) + [] == Flat(trimmed);
  }

  lemma NothingLeft(samples: Frame, skip: nat, take: nat)
    requires samples == [] || take == 0
    ensures Window(samples, skip, take) == []
  {
  }

  /** `trim_frames_between_samples`. */
  method TrimFramesBetweenSamples(frames: seq<Frame>, startSample: int, endSample: int) returns (trimmed: seq<Frame>)
    ensures Flat(trimmed) == Window(Flat(frames), Max(0, startSample), endSample - Max(0, startSample))
  {
    if endSample <= startSample {
      return [];
    }
    trimmed := TrimWindow(frames, Max(0, startSample), Max(0, endSample - Max(0, startSample)));
  }

  /** Sample positions of a detected phrase, relative to the buffer, as far as they are known. */
  datatype Detection = Detection(start: Option<int>, end: Option<int>)

  class PhraseSpotter {
    const maxBufferSamples: nat
    var frames: seq<Frame>
    var bufferSamples: int
    var bufferStart: int
    var processed: int
    ghost var stream: Frame

    /** The buffer is the tail of everything appended so far, and the counters place it in the stream. */
    ghost predicate Valid()
      reads this
    {
      && processed == |stream| && bufferSamples == |Flat(frames)|
      && bufferStart + bufferSamples == processed
      && Flat(frames) == LastN(stream, maxBufferSamples)
    }

    constructor (maxBufferMs: nat)
      ensures Valid() && stream == [] && maxBufferSamples == Max(1, 16 * maxBufferMs)
    {
      maxBufferSamples := Max(1, 16 * maxBufferMs);
      frames, bufferSamples, bufferStart, processed, stream := [], 0, 0, 0, [];
    }

    method TrimBuffer()
      requires processed == |stream| && bufferSamples == |Flat(frames)| && bufferStart + bufferSamples == processed
      modifies this`frames, this`bufferSamples, this`bufferStart
      ensures Flat(frames) == LastN(Flat(old(frames)), maxBufferSamples)
      ensures bufferSamples == |Flat(frames)| && bufferStart + bufferSamples == processed
    {
      ghost var all := Flat(frames);
      var extra := bufferSamples - maxBufferSamples;
      while extra > 0 && frames != []
        invariant bufferSamples == |Flat(frames)| && bufferStart + bufferSamples == processed
        invariant extra == bufferSamples - maxBufferSamples
        invariant extra >= 0 || frames == old(frames)
        invariant |Flat(frames)| <= |all| && Flat(frames) == all[|all| - |Flat(frames)|..]
        decreases frames
      {
        var first := frames[0];
        assert Flat(frames) == first + Flat(frames[1..]);
        if |first| <= extra {
          frames := frames[1..];
          bufferSamples := bufferSamples - |first|;
          bufferStart := bufferStart + |first|;
          extra := extra - |first|;
          continue;
        }
        ghost var rest := frames[1..];
        frames := [first[extra..]] + frames[1..];
        assert frames[1..] == rest;
        bufferSamples := bufferSamples - extra;
        bufferStart := bufferStart + extra;
        break;
      }
    }

    method Append(frame: Frame)
      requires Valid()
      modifies this
      ensures Valid() && stream == old(stream) + frame
    {
      FlatAppend(frames, frame);
      LastNAppend(stream, frame, maxBufferSamples);
      frames := frames + [frame];
      bufferSamples := bufferSamples + |frame|;
      processed := processed + |frame|;
      stream := stream + frame;
      TrimBuffer();
    }

    /** `_phrase_sample_span`: the stream positions of a spotted phrase, translated to buffer positions. */
    method PhraseSampleSpan(span: Option<(int, int)>) returns (detection: Detection)
      requires Valid()
      ensures detection.start.Some? == detection.end.Some? == span.Some?
      ensures span.Some? ==>
                var start := |stream| - |LastN(stream, maxBufferSamples)|;
                detection == Detection(Some(Max(0, span.value.0 - start)), Some(Max(0, span.value.1 - start)))
    {
      if span.None? {
        return Detection(None, None);
      }
      detection := Detection(Some(Max(0, span.value.0 - bufferStart)), Some(Max(0, span.value.1 - bufferStart)));
    }

    /** Replay from a pre-roll before the end of the phrase, or before its start when the end is not known. */
    method ReplayFrames(detection: Detection, preRollMs: int) returns (r: seq<Frame>)
      ensures var boundary := if detection.end.Some? then detection.end else detection.start;
              Flat(r) == if boundary.None? then Flat(frames)
                         else DropN(Flat(frames), Max(0, boundary.value - Max(0, 16 * preRollMs)))
    {
      var boundary := if detection.end.Some? then detection.end else detection.start;
      if boundary.None? {
        return frames;
      }
      r := TrimFramesFromSample(frames, Max(0, boundary.value - Max(0, 16 * preRollMs)));
    }

    /** The part of the phrase that a confirmation decoder hears. */
    method ConfirmationFrames(detection: Detection, windowMs: int) returns (r: seq<Frame>)
      ensures detection.start.None? || detection.end.None? ==> r == frames
      ensures detection.start.Some? && detection.end.Some? ==>
                Flat(r) ==
                ConfirmationSlice(Flat(frames), detection.start.value, detection.end.value, Max(1, 16 * windowMs))
    {
      if detection.start.None? || detection.end.None? {
        return frames;
      }
      var window := Max(1, 16 * windowMs);
      var phraseStart := Max(0, detection.start.value);
      var phraseEnd := Max(phraseStart, detection.end.value);
      var start := Max(Max(0, phraseEnd - window), phraseStart);
      r := TrimFramesBetweenSamples(frames, start, phraseEnd);
    }
  }

  /** The last `window` samples of the phrase at `start`..`end`. */
  function ConfirmationSlice(samples: Frame, start: int, end: int, window: nat): Frame {
    var lo := Max(0, start);
    var hi := Max(lo, end);
    var from := Max(lo, hi - window);
    Window(samples, from, hi - from)
  }

  /** For a phrase within the samples: its last `window` samples, or all of it if it is shorter. */
  lemma ConfirmationExactly(samples: Frame, start: nat, end: nat, window: nat)
    requires start <= end <= |samples|
    ensures ConfirmationSlice(samples, start, end, window) ==
            if end - start <= window then samples[start..end] else samples[end - window..end]
  {
  }

  /** Dropping from the buffer is dropping from the stream at the translated position. */
  lemma BufferIsStreamTail(stream: Frame, limit: nat, from: nat)
    ensures var start := |stream| - |LastN(stream, limit)|;
            DropN(LastN(stream, limit), from) == DropN(stream, start + from)
  {
    var start := |stream| - |LastN(stream, limit)|;
    assert LastN(stream, limit) == stream[start..];
    if from < |stream| - start {
      assert stream[start..][from..] == stream[start + from..];
    }
  }

  /**
   Replay after a phrase that ends at stream position `end`: the stream from the pre-roll on, as far as it is
   still buffered.
   */
  lemma ReplayIsStreamSlice(stream: Frame, limit: nat, end: int, preRoll: nat)
    ensures var start := |stream| - |LastN(stream, limit)|;
            var boundary := Max(0, end - start);
            DropN(LastN(stream, limit), Max(0, boundary - preRoll)) == DropN(stream, Max(start, end - preRoll))
  {
    var start := |stream| - |LastN(stream, limit)|;
    BufferIsStreamTail(stream, limit, Max(0, Max(0, end - start) - preRoll));
  }

  /**
   The confirmation slice of a phrase at stream positions `first`..`last`, cut to what is buffered, is the
   flat slice of the stream.
   */
  lemma ConfirmationIsStreamSlice(stream: Frame, limit: nat, first: int, last: int, window: nat)
    ensures var start := |stream| - |LastN(stream, limit)|;
            ConfirmationSlice(LastN(stream, limit), Max(0, first - start), Max(0, last - start), window) ==
            ConfirmationSlice(stream, Max(start, first), last, window)
  {
    hide LastN, DropN, FirstN;
    var start := |stream| - |LastN(stream, limit)|;
    var lo := Max(0, first - start);
    var hi := Max(lo, Max(0, last - start));
    assert Max(0, Max(start, first)) == start + lo && Max(start + lo, last) == start + hi;
    BufferIsStreamTail(stream, limit, Max(lo, hi - window));
  }
}
