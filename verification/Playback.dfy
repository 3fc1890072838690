/** The chunked playback queue (agent-host speech/playback.py). */
module Playback {
  import opened Numbers
  import opened Samples

  /** The flat view: what is queued, how much was played, and the window of recent output. */
  datatype Output = Output(queue: Frame, played: nat, recent: Frame)

  datatype Op = Enqueue(samples: Frame) | Clear(reset: bool) | Callback(frames: nat)

  /** What one callback emits: the next queued samples, padded with silence. */
  function Emit(queue: Frame, frames: nat): Frame {
    FirstN(queue, frames) + Zeros(frames - |FirstN(queue, frames)|)
  }

  /** A callback gets exactly the frames that it asks for: the queue from the front, and zeros once it is empty. */
  lemma EmitExactly(queue: Frame, frames: nat)
    ensures var r := Emit(queue, frames);
            && |r| == frames
            && forall i :: 0 <= i < frames ==> r[i] == if i < |queue| then queue[i] else 0.0
  {
  }

  function Step(limit: nat, s: Output, op: Op): Output {
    match op
    case Enqueue(samples) => s.(queue := s.queue + samples)
    case Clear(reset) => if reset then Output([], 0, []) else s.(queue := [])
    case Callback(frames) =>
      Output(DropN(s.queue, frames), s.played + |FirstN(s.queue, frames)|,
             LastN(s.recent + Emit(s.queue, frames), limit))
  }

  function Run(limit: nat, ops: seq<Op>): Output {
    if ops == [] then Output([], 0, []) else Step(limit, Run(limit, ops[..|ops| - 1]), ops[|ops| - 1])
  }

  class QueuedAudioOutput {
    const limit: nat
    var chunks: seq<Frame>
    var queuedSamples: int
    var playedSamples: nat
    var recent: Frame

    ghost function State(): Output
      reads this
    {
      Output(Flat(chunks), playedSamples, recent)
    }

    ghost predicate Valid()
      reads this
    {
      queuedSamples == |Flat(chunks)|
    }

    constructor (sampleRate: nat)
      ensures Valid() && State() == Run(limit, []) && limit == Max(1, sampleRate * 2)
    {
      limit := Max(1, sampleRate * 2);
      chunks, queuedSamples, playedSamples, recent := [], 0, 0, [];
    }

    method ClearQueue(reset: bool)
      requires Valid()
      modifies this
      ensures Valid() && State() == Step(limit, old(State()), Clear(reset))
    {
      chunks, queuedSamples := [], 0;
      if reset {
        playedSamples, recent := 0, [];
      }
    }

    method EnqueueSamples(audio: Frame) returns (count: nat)
      requires Valid()
      modifies this
      ensures Valid() && State() == Step(limit, old(State()), Enqueue(audio)) && count == |audio|
    {
      if |audio| == 0 {
        assert Flat(chunks) + audio == Flat(chunks);
        return 0;
      }
      FlatAppend(chunks, audio);
      chunks := chunks + [audio];
      queuedSamples := queuedSamples + |audio|;
      return |audio|;
    }

    /** The consuming loop of the callback: takes samples from the front of the chunk list. */
    method Consume(frames: nat) returns (taken: Frame)
      requires Valid()
      modifies this`chunks, this`queuedSamples, this`playedSamples
      ensures Valid()
      ensures taken == FirstN(Flat(old(chunks)), frames) && Flat(chunks) == DropN(Flat(old(chunks)), frames)
      ensures playedSamples == old(playedSamples) + |taken|
    {
      taken := [];
      ghost var all := Flat(chunks);
      while |taken| < frames && chunks != []
        invariant |taken| <= frames && taken + Flat(chunks) == all
        invariant Valid() && playedSamples == old(playedSamples) + |taken|
        decreases |chunks|, frames - |taken|
      {
        var chunk := chunks[0];
        var count := if frames - |taken| < |chunk| then frames - |taken| else |chunk|;
        ConsumeStep(taken, chunk, Flat(chunks[1..]), count);
        taken := taken + chunk[..count];
        queuedSamples := queuedSamples - count;
        playedSamples := playedSamples + count;
        if count == |chunk| {
          chunks := chunks[1..];
        } else {
          ghost var rest := chunks[1..];
          chunks := [chunk[count..]] + chunks[1..];
          assert chunks[1..] == rest;
        }
      }
      SplitAll(taken, Flat(chunks), frames);
    }

    method OnCallback(frames: nat) returns (output: Frame)
      requires Valid()
      modifies this
      ensures Valid() && State() == Step(limit, old(State()), Callback(frames))
      ensures output == Emit(Flat(old(chunks)), frames)
    {
      var taken := Consume(frames);
      output := taken + Zeros(frames - |taken|);
      recent := recent + output;
      if |recent| > limit {
        recent := recent[|recent| - limit..];
      }
    }

    method RecentSamples(count: nat) returns (r: Frame)
      ensures r == LastN(recent, Max(1, count))
    {
      var wanted := Max(1, count);
      r := if |recent| <= wanted then recent else recent[|recent| - wanted..];
    }
  }

  lemma ConsumeStep(taken: Frame, chunk: Frame, rest: Frame, count: nat)
    requires count <= |chunk|
    ensures taken + (chunk + rest) == (taken + chunk[..count]) + (chunk[count..] + rest)
    ensures count == |chunk| ==> chunk[count..] + rest == rest
  {
  }

  lemma SplitAll(taken: Frame, rest: Frame, frames: nat)
    requires |taken| <= frames && (|taken| == frames || rest == [])
    ensures FirstN(taken + rest, frames) == taken && DropN(taken + rest, frames) == rest
  {
  }

  // ---------- whole runs ----------

  /** Samples enqueued since the last reset. */
  function Enqueued(ops: seq<Op>): nat {
    if ops == [] then 0
    else
      var n := |ops| - 1;
      match ops[n]
      case Enqueue(samples) => Enqueued(ops[..n]) + |samples|
      case Clear(reset) => if reset then 0 else Enqueued(ops[..n])
      case Callback(_) => Enqueued(ops[..n])
  }

  /** Samples thrown away by clears since the last reset. */
  function Cleared(limit: nat, ops: seq<Op>): nat {
    if ops == [] then 0
    else
      var n := |ops| - 1;
      match ops[n]
      case Clear(reset) => if reset then 0 else Cleared(limit, ops[..n]) + |Run(limit, ops[..n]).queue|
      case _ => Cleared(limit, ops[..n])
  }

  /** Everything the callbacks emitted since the last reset, padding included. */
  function Emitted(limit: nat, ops: seq<Op>): Frame {
    if ops == [] then []
    else
      var n := |ops| - 1;
      match ops[n]
      case Clear(reset) => if reset then [] else Emitted(limit, ops[..n])
      case Enqueue(_) => Emitted(limit, ops[..n])
      case Callback(frames) => Emitted(limit, ops[..n]) + Emit(Run(limit, ops[..n]).queue, frames)
  }

  /** Over every run no sample is lost or invented, and the recent window is the tail of all output. */
  lemma {:induction false} PlaybackConserves(limit: nat, ops: seq<Op>)
    ensures Enqueued(ops) == Run(limit, ops).played + |Run(limit, ops).queue| + Cleared(limit, ops)
    ensures Run(limit, ops).recent == LastN(Emitted(limit, ops), limit)
  {
    if ops != [] {
      var n := |ops| - 1;
      PlaybackConserves(limit, ops[..n]);
      if ops[n].Callback? {
        LastNAppend(Emitted(limit, ops[..n]), Emit(Run(limit, ops[..n]).queue, ops[n].frames), limit);
      }
    }
  }

  /**
   What `RecentSamples` returns after any run: the end of all output since the last reset, as far as the
   window goes.
   */
  lemma RecentIsOutputTail(limit: nat, ops: seq<Op>, count: nat)
    ensures LastN(Run(limit, ops).recent, Max(1, count)) == LastN(Emitted(limit, ops), Min(limit, Max(1, count)))
  {
    PlaybackConserves(limit, ops);
    LastNLastN(Emitted(limit, ops), limit, Max(1, count));
  }

  /** Samples enqueued since the last clear of either kind, in order. */
  function Sent(ops: seq<Op>): Frame {
    if ops == [] then []
    else
      var n := |ops| - 1;
      match ops[n]
      case Enqueue(samples) => Sent(ops[..n]) + samples
      case Clear(_) => []
      case Callback(_) => Sent(ops[..n])
  }

  /** Samples emitted since the last clear, without padding. */
  function Heard(limit: nat, ops: seq<Op>): Frame {
    if ops == [] then []
    else
      var n := |ops| - 1;
      match ops[n]
      case Callback(frames) => Heard(limit, ops[..n]) + FirstN(Run(limit, ops[..n]).queue, frames)
      case Clear(_) => []
      case Enqueue(_) => Heard(limit, ops[..n])
  }

  /** First in, first out: what was heard, then what is queued, is exactly what was sent. */
  lemma {:induction false} PlaybackIsFifo(limit: nat, ops: seq<Op>)
    ensures Heard(limit, ops) + Run(limit, ops).queue == Sent(ops)
  {
    if ops != [] {
      var n := |ops| - 1;
      PlaybackIsFifo(limit, ops[..n]);
      var queue := Run(limit, ops[..n]).queue;
      if ops[n].Callback? {
        assert queue == FirstN(queue, ops[n].frames) + DropN(queue, ops[n].frames);
      }
    }
  }
}
