/**
 What a voice session leaves behind, told from its event stream: which controls are decided on either exit
 of the loop, and which captures set the mode, in order.
 */
module VoiceExits {
  import opened Ids
  import opened VoiceLoop

  // ---------- leaving by an exception ----------

  /**
   When the loop fails after these events, exactly the controls that some event cancelled are cancelled, and
   the live one; exactly those that some event committed are committed; nothing else is touched.
   */
  lemma AbortDecidesExactly(events: seq<Event>, prepareSeconds: real, c: nat)
    ensures var s, done := Abort(Run(events, prepareSeconds)), Run(events, prepareSeconds);
            && (c in s.cancelled <==> (exists k :: CancelsAt(events, c, k)) || Live(events, c))
            && (c in s.committed <==> exists k :: CommitsAt(events, c, k))
            && s == done.(cancelled := s.cancelled)
  {
    DecidedExactly(events, prepareSeconds, c);
    ActiveIsLive(events, prepareSeconds, c);
  }

  /** A failing loop leaves undecided only what a confirmation of another turn dropped, and no live control. */
  lemma AbortUndecidedExactly(events: seq<Event>, prepareSeconds: real, c: nat)
    requires c < |events| && Creates(events[c])
    ensures var s := Abort(Run(events, prepareSeconds));
            c !in s.cancelled && c !in s.committed <==> exists k :: DropsAt(events, c, k)
  {
    AbortDecidesExactly(events, prepareSeconds, c);
    DecidedExactly(events, prepareSeconds, c);
    UndecidedExactly(events, prepareSeconds, c);
    if k :| DropsAt(events, c, k) {
      EndsOnce(events, c);
    }
  }

  // ---------- the captures that set the mode ----------

  /**
   The capture that the event at `k` applies: every mode switch its own, every confirmation its own or else
   that of the endpoint that is live before it.
   */
  ghost predicate AppliesAt(events: seq<Event>, k: nat, capture: Capture) {
    k < |events| &&
    (|| (events[k].kind.ModeSwitch? && events[k].capture == Some(capture))
     || (events[k].kind.Confirmed? && events[k].capture == Some(capture))
     || (events[k].kind.Confirmed? && events[k].capture.None? &&
         exists c: nat :: Live(events[..k], c) && events[c].capture == Some(capture)))
  }

  /** `at` lists, in order, exactly the positions of the events that apply a capture, and `modes` those captures. */
  ghost predicate AppliedInOrder(events: seq<Event>, at: seq<nat>, modes: seq<Capture>) {
    && |at| == |modes|
    && (forall i, j :: 0 <= i < j < |at| ==> at[i] < at[j])
    && (forall i :: 0 <= i < |at| ==> AppliesAt(events, at[i], modes[i]))
    && forall k: nat, capture :: AppliesAt(events, k, capture) ==> k in at
  }

  lemma AppliesInside(events: seq<Event>)
    ensures forall k: nat, capture :: AppliesAt(events, k, capture) ==> k < |events|
  {
  }

  lemma PrefixApplies(events: seq<Event>, k: nat, capture: Capture)
    requires k + 1 < |events|
    ensures AppliesAt(events, k, capture) <==> AppliesAt(events[..|events| - 1], k, capture)
  {
    assert events[..|events| - 1][..k] == events[..k];
    assert forall c :: 0 <= c < k ==> events[..|events| - 1][c] == events[c];
  }

  /** What the last event applies, in terms of the loop's own variables. */
  lemma LastApplies(events: seq<Event>, prepareSeconds: real, capture: Capture)
    requires events != []
    ensures var n := |events| - 1;
            var before, after := Run(events[..n], prepareSeconds), Run(events, prepareSeconds);
            && (AppliesAt(events, n, capture) ==> after.modes == before.modes + [capture])
            && ((forall other :: !AppliesAt(events, n, other)) ==> after.modes == before.modes)
  {
    var n := |events| - 1;
    var before := Run(events[..n], prepareSeconds);
    RunTracks(events[..n], prepareSeconds);
    if before.activeControl.Some? {
      var c := before.activeControl.value;
      assert Live(events[..n], c) && events[c] == events[..n][c];
      ActiveIsLive(events[..n], prepareSeconds, c);
      OneLive(events[..n]);
      if before.activeCapture.Some? {
        assert events[n].kind.Confirmed? && events[n].capture.None? ==>
                 AppliesAt(events, n, before.activeCapture.value);
      }
    }
    if events[n].capture.Some? && (events[n].kind.ModeSwitch? || events[n].kind.Confirmed?) {
      assert AppliesAt(events, n, events[n].capture.value);
    }
  }

  /** The applications of all events but the last, seen from the whole stream. */
  lemma EarlierApplied(events: seq<Event>, at: seq<nat>, modes: seq<Capture>)
    requires events != [] && AppliedInOrder(events[..|events| - 1], at, modes)
    ensures forall i :: 0 <= i < |at| ==> at[i] < |events| - 1 && AppliesAt(events, at[i], modes[i])
    ensures forall k: nat, capture :: AppliesAt(events, k, capture) ==> k in at || k == |events| - 1
  {
    var n := |events| - 1;
    AppliesInside(events);
    AppliesInside(events[..n]);
    forall k: nat, capture | k < n
      ensures AppliesAt(events, k, capture) <==> AppliesAt(events[..n], k, capture)
    {
      PrefixApplies(events, k, capture);
    }
    hide AppliesAt;
  }

  /** The mode is set by exactly those captures, once each, in the order of their events. */
  lemma {:induction false} ModesExact(events: seq<Event>, prepareSeconds: real) returns (at: seq<nat>)
    ensures AppliedInOrder(events, at, Run(events, prepareSeconds).modes)
  {
    if events == [] {
      at := [];
    } else {
      var n := |events| - 1;
      at := ModesExact(events[..n], prepareSeconds);
      EarlierApplied(events, at, Run(events[..n], prepareSeconds).modes);
      hide AppliesAt, Run;
      if capture :| AppliesAt(events, n, capture) {
        LastApplies(events, prepareSeconds, capture);
        at := at + [n];
      } else {
        LastApplies(events, prepareSeconds, Capture(""));
      }
    }
  }
}
