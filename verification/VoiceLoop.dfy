/**
 The speculative voice session (agent-host commands/voice_loop.py): capture events start voice
 flows whose turn controls are cancelled or committed as the endpoint settles. A control is named
 by the position of the endpoint event that created it.
 */
module VoiceLoop {
  import opened Ids

  datatype Kind = Endpoint | Resumed | Confirmed | ModeSwitch
  datatype Capture = Capture(utterance: string)
  datatype Event = Event(kind: Kind, turnId: int, capture: Option<Capture>)

  /** A started voice flow: its control, if it has one, and the model-prepare time charged to it. */
  datatype Flow = Flow(control: Option<nat>, capture: Capture, prepareSeconds: real)

  datatype Session = Session(
    seen: nat,
    activeTurn: Option<int>, activeCapture: Option<Capture>, activeControl: Option<nat>,
    firstFlow: bool, flows: seq<Flow>,
    cancelled: set<nat>, committed: set<nat>, modes: seq<Capture>)

  const START := Session(0, None, None, None, true, [], {}, {}, [])

  function Cancel(s: Session): Session {
    if s.activeControl.Some? then s.(cancelled := s.cancelled + {s.activeControl.value}) else s
  }

  function Forget(s: Session): Session {
    s.(activeTurn := None, activeCapture := None, activeControl := None)
  }

  function StartFlow(s: Session, control: Option<nat>, capture: Capture, prepareSeconds: real): Session {
    s.(flows := s.flows + [Flow(control, capture, if s.firstFlow then prepareSeconds else 0.0)], firstFlow := false)
  }

  function Step(s: Session, e: Event, prepareSeconds: real): Session {
    var next := s.(seen := s.seen + 1);
    match e.kind
    case Endpoint =>
      if e.capture.None? then next
      else
        StartFlow(Cancel(next).(activeTurn := Some(e.turnId), activeCapture := e.capture,
                                activeControl := Some(s.seen)),
                  Some(s.seen), e.capture.value, prepareSeconds)
    case Resumed =>
      if s.activeTurn == Some(e.turnId) then Forget(Cancel(next)) else next
    case Confirmed =>
      var capture := if e.capture.Some? then e.capture else s.activeCapture;
      var applied := if capture.Some? then next.(modes := s.modes + [capture.value]) else next;
      if s.activeTurn == Some(e.turnId) && s.activeControl.Some?
      then Forget(applied.(committed := s.committed + {s.activeControl.value}))
      else Forget(applied)
    case ModeSwitch =>
      if e.capture.None? then next
      else StartFlow(next.(modes := s.modes + [e.capture.value]), None, e.capture.value, prepareSeconds)
  }

  function Run(events: seq<Event>, prepareSeconds: real): Session {
    if events == [] then START
    else Step(Run(events[..|events| - 1], prepareSeconds), events[|events| - 1], prepareSeconds)
  }

  /** Leaving the loop by an exception cancels the active control. */
  function Abort(s: Session): Session {
    Cancel(s)
  }

  /** The event loop; `failed` says whether it is left by an exception after the given events. */
  method CaptureSession(events: seq<Event>, prepareSeconds: real, failed: bool) returns (s: Session)
    ensures s == if failed then Abort(Run(events, prepareSeconds)) else Run(events, prepareSeconds)
  {
    var activeTurn: Option<int>, activeCapture: Option<Capture>, activeControl: Option<nat> := None, None, None;
    var firstFlow, flows, modes := true, [], [];
    var cancelled: set<nat>, committed: set<nat> := {}, {};
    for i := 0 to |events|
      invariant Session(i, activeTurn, activeCapture, activeControl, firstFlow, flows, cancelled, committed, modes)
                == Run(events[..i], prepareSeconds)
    {
      var event := events[i];
      assert events[..i + 1][..i] == events[..i];
      match event.kind {
        case Endpoint =>
          if event.capture.None? {
            continue;
          }
          if activeControl.Some? {
            cancelled := cancelled + {activeControl.value};
          }
          activeTurn, activeCapture, activeControl := Some(event.turnId), event.capture, Some(i);
          var turnPrepareSeconds := if firstFlow then prepareSeconds else 0.0;
          firstFlow := false;
          flows := flows + [Flow(activeControl, event.capture.value, turnPrepareSeconds)];
        case Resumed =>
          if activeTurn == Some(event.turnId) {
            if activeControl.Some? {
              cancelled := cancelled + {activeControl.value};
            }
            activeTurn, activeCapture, activeControl := None, None, None;
          }
        case Confirmed =>
          var confirmedCapture := if event.capture.Some? then event.capture else activeCapture;
          if confirmedCapture.Some? {
            modes := modes + [confirmedCapture.value];
          }
          if activeTurn == Some(event.turnId) && activeControl.Some? {
            committed := committed + {activeControl.value};
          }
          activeTurn, activeCapture, activeControl := None, None, None;
        case ModeSwitch =>
          if event.capture.None? {
            continue;
          }
          modes := modes + [event.capture.value];
          var turnPrepareSeconds := if firstFlow then prepareSeconds else 0.0;
          firstFlow := false;
          flows := flows + [Flow(None, event.capture.value, turnPrepareSeconds)];
      }
    }
    assert events[..|events|] == events;
    if failed && activeControl.Some? {
      cancelled := cancelled + {activeControl.value};
    }
    s := Session(|events|, activeTurn, activeCapture, activeControl, firstFlow, flows, cancelled, committed, modes);
  }

  // ---------- what the event stream alone says about a control ----------

  predicate Creates(e: Event) {
    e.kind.Endpoint? && e.capture.Some?
  }

  /** An event that ends the active life of a control of the given turn. */
  predicate Ends(e: Event, turn: int) {
    Creates(e) || e.kind.Confirmed? || (e.kind.Resumed? && e.turnId == turn)
  }

  /** Nothing between positions `c` and `k` ends control `c`. */
  ghost predicate Quiet(events: seq<Event>, c: nat, k: nat)
    requires c < |events| && k <= |events|
  {
    forall j :: c < j < k ==> !Ends(events[j], events[c].turnId)
  }

  ghost predicate Live(events: seq<Event>, c: nat) {
    c < |events| && Creates(events[c]) && Quiet(events, c, |events|)
  }

  /** Control `c` is ended by the event at `k`. */
  ghost predicate EndsAt(events: seq<Event>, c: nat, k: nat) {
    c < k < |events| && Creates(events[c]) && Quiet(events, c, k) && Ends(events[k], events[c].turnId)
  }

  ghost predicate CommitsAt(events: seq<Event>, c: nat, k: nat) {
    EndsAt(events, c, k) && events[k].kind.Confirmed? && events[k].turnId == events[c].turnId
  }

  ghost predicate CancelsAt(events: seq<Event>, c: nat, k: nat) {
    EndsAt(events, c, k) && !events[k].kind.Confirmed?
  }

  /** A confirmation of another turn makes the loop forget the control undecided. */
  ghost predicate DropsAt(events: seq<Event>, c: nat, k: nat) {
    EndsAt(events, c, k) && events[k].kind.Confirmed? && events[k].turnId != events[c].turnId
  }

  // ---------- the loop does exactly that ----------

  ghost predicate Tracks(events: seq<Event>, s: Session) {
    && s.seen == |events|
    && (s.activeControl.Some? <==> s.activeTurn.Some?)
    && (s.activeControl.Some? ==> Live(events, s.activeControl.value))
    && (s.activeControl.Some? ==> s.activeTurn == Some(events[s.activeControl.value].turnId))
    && (s.activeControl.Some? ==> s.activeCapture == events[s.activeControl.value].capture)
    && (s.activeControl.None? ==> s.activeCapture.None?)
    && (s.activeControl.None? ==> forall c :: !Live(events, c))
  }

  lemma PrefixLive(events: seq<Event>, c: nat)
    requires c + 1 < |events|
    ensures Live(events, c) <==> Live(events[..|events| - 1], c) && !Ends(events[|events| - 1], events[c].turnId)
  {
    var n := |events| - 1;
    assert forall j :: 0 <= j < n ==> events[..n][j] == events[j];
  }

  lemma {:induction false} RunTracks(events: seq<Event>, prepareSeconds: real)
    ensures Tracks(events, Run(events, prepareSeconds))
  {
    if events != [] {
      var n := |events| - 1;
      var init, e := events[..n], events[n];
      var before := Run(init, prepareSeconds);
      RunTracks(init, prepareSeconds);
      forall c: nat | c < n
        ensures Live(events, c) <==> Live(init, c) && !Ends(e, events[c].turnId)
      {
        PrefixLive(events, c);
      }
      assert Live(events, n) <==> Creates(e);
      assert forall c: nat :: Live(init, c) ==> before.activeControl == Some(c) by {
        OneLive(init);
      }
      if before.activeControl.Some? {
        assert events[before.activeControl.value] == init[before.activeControl.value];
      }
    }
  }

  /** A newer endpoint ends every older control, so at most one is live. */
  lemma OneLive(events: seq<Event>)
    ensures forall c: nat, d: nat :: Live(events, c) && Live(events, d) ==> c == d
  {
  }

  /** The active control is the one live control of the stream. */
  lemma ActiveIsLive(events: seq<Event>, prepareSeconds: real, c: nat)
    ensures Run(events, prepareSeconds).activeControl == Some(c) <==> Live(events, c)
  {
    RunTracks(events, prepareSeconds);
    OneLive(events);
  }

  lemma PrefixEnds(events: seq<Event>, c: nat, k: nat)
    requires events != []
    ensures k < |events| - 1 ==> EndsAt(events, c, k) == EndsAt(events[..|events| - 1], c, k)
    ensures EndsAt(events, c, |events| - 1) <==>
            Live(events[..|events| - 1], c) && Ends(events[|events| - 1], events[c].turnId)
  {
    var n := |events| - 1;
    assert forall j :: 0 <= j < n ==> events[..n][j] == events[j];
  }

  lemma PrefixDecided(events: seq<Event>, c: nat)
    requires events != []
    ensures var n := |events| - 1;
            && ((exists k :: CommitsAt(events, c, k)) <==>
                (exists k :: CommitsAt(events[..n], c, k)) || CommitsAt(events, c, n))
            && ((exists k :: CancelsAt(events, c, k)) <==>
                (exists k :: CancelsAt(events[..n], c, k)) || CancelsAt(events, c, n))
  {
    var n := |events| - 1;
    forall k: nat | k < n
      ensures CommitsAt(events, c, k) == CommitsAt(events[..n], c, k)
      ensures CancelsAt(events, c, k) == CancelsAt(events[..n], c, k)
    {
      PrefixEnds(events, c, k);
    }
    if k :| CommitsAt(events, c, k) {
      assert k == n || CommitsAt(events[..n], c, k);
    }
    if k :| CommitsAt(events[..n], c, k) {
      assert CommitsAt(events, c, k);
    }
    if k :| CancelsAt(events, c, k) {
      assert k == n || CancelsAt(events[..n], c, k);
    }
    if k :| CancelsAt(events[..n], c, k) {
      assert CancelsAt(events, c, k);
    }
  }

  /** What one event decides about a control, in terms of the loop's own variables. */
  lemma StepDecides(s: Session, e: Event, prepareSeconds: real, c: nat)
    ensures c in Step(s, e, prepareSeconds).committed <==>
            c in s.committed || (s.activeControl == Some(c) && e.kind.Confirmed? && s.activeTurn == Some(e.turnId))
    ensures c in Step(s, e, prepareSeconds).cancelled <==>
            c in s.cancelled ||
            (s.activeControl == Some(c) && (Creates(e) || (e.kind.Resumed? && s.activeTurn == Some(e.turnId))))
  {
  }

  /** And in terms of the event stream. */
  lemma DecideStep(events: seq<Event>, prepareSeconds: real, c: nat)
    requires events != []
    ensures var n := |events| - 1;
            var before, after := Run(events[..n], prepareSeconds), Run(events, prepareSeconds);
            && (c in after.committed <==> c in before.committed || CommitsAt(events, c, n))
            && (c in after.cancelled <==> c in before.cancelled || CancelsAt(events, c, n))
  {
    var n := |events| - 1;
    var before := Run(events[..n], prepareSeconds);
    StepDecides(before, events[n], prepareSeconds, c);
    PrefixEnds(events, c, n);
    assert before.activeControl == Some(c) <==> Live(events[..n], c) by {
      ActiveIsLive(events[..n], prepareSeconds, c);
    }
    assert before.activeControl == Some(c) ==> before.activeTurn == Some(events[c].turnId) by {
      RunTracks(events[..n], prepareSeconds);
    }
  }

  /** Exactly which controls a run commits and cancels, from the event stream alone. */
  lemma {:induction false} DecidedExactly(events: seq<Event>, prepareSeconds: real, c: nat)
    ensures c in Run(events, prepareSeconds).committed <==> exists k :: CommitsAt(events, c, k)
    ensures c in Run(events, prepareSeconds).cancelled <==> exists k :: CancelsAt(events, c, k)
  {
    if events != [] {
      DecidedExactly(events[..|events| - 1], prepareSeconds, c);
      PrefixDecided(events, c);
      DecideStep(events, prepareSeconds, c);
    }
  }

  // ---------- main results ----------

  lemma EndsOnce(events: seq<Event>, c: nat)
    ensures forall j: nat, k: nat :: EndsAt(events, c, j) && EndsAt(events, c, k) ==> j == k
  {
  }

  /** No run, however it is left, both commits and cancels a control. */
  lemma NeverBothDecided(events: seq<Event>, prepareSeconds: real, c: nat)
    ensures var s := Run(events, prepareSeconds);
            && !(c in s.committed && c in s.cancelled)
            && !(c in Abort(s).committed && c in Abort(s).cancelled)
  {
    DecidedExactly(events, prepareSeconds, c);
    ActiveIsLive(events, prepareSeconds, c);
    EndsOnce(events, c);
  }

  ghost predicate Undecided(events: seq<Event>, prepareSeconds: real, c: nat) {
    var s := Run(events, prepareSeconds);
    c < |events| && Creates(events[c]) && c !in s.committed && c !in s.cancelled
  }

  /** An undecided control is the live one, or one that a confirmation of another turn dropped. */
  lemma UndecidedExactly(events: seq<Event>, prepareSeconds: real, c: nat)
    ensures Undecided(events, prepareSeconds, c) <==> Live(events, c) || exists k :: DropsAt(events, c, k)
  {
    DecidedExactly(events, prepareSeconds, c);
    if Undecided(events, prepareSeconds, c) && !Live(events, c) {
      var k := FirstEnd(events, c);
      assert CommitsAt(events, c, k) || CancelsAt(events, c, k) || DropsAt(events, c, k);
    }
    EndsOnce(events, c);
  }

  lemma FirstEnd(events: seq<Event>, c: nat) returns (k: nat)
    requires c < |events| && Creates(events[c]) && !Live(events, c)
    ensures EndsAt(events, c, k)
  {
    k := c + 1;
    while k < |events| && !Ends(events[k], events[c].turnId)
      invariant c < k <= |events| && Quiet(events, c, k)
    {
      k := k + 1;
    }
  }

  /** At every moment of the stream at most one control is undecided. */
  ghost predicate AlwaysAtMostOneUndecided(events: seq<Event>, prepareSeconds: real) {
    forall n: nat, c: nat, d: nat ::
      (n <= |events| && Undecided(events[..n], prepareSeconds, c) && Undecided(events[..n], prepareSeconds, d)) ==>
      c == d
  }

  /** No endpoint arrives after a confirmation that dropped a control of another turn. */
  ghost predicate NoEndpointAfterDrop(events: seq<Event>) {
    forall c: nat, k: nat, m: nat :: DropsAt(events, c, k) && k < m < |events| ==> !Creates(events[m])
  }

  lemma PrefixDrops(events: seq<Event>, n: nat, c: nat, k: nat)
    requires n <= |events|
    ensures DropsAt(events[..n], c, k) <==> k < n && DropsAt(events, c, k)
  {
    assert forall j :: 0 <= j < n ==> events[..n][j] == events[j];
  }

  /** Two undecided controls at once mean that the older was dropped and the newer came later. */
  lemma TwoUndecided(events: seq<Event>, prepareSeconds: real, c: nat, d: nat) returns (k: nat)
    requires Undecided(events, prepareSeconds, c) && Undecided(events, prepareSeconds, d) && c < d
    ensures DropsAt(events, c, k) && k < d
  {
    UndecidedExactly(events, prepareSeconds, c);
    assert Ends(events[d], events[c].turnId);
    k :| DropsAt(events, c, k);
  }

  lemma EndpointAfterDrop(events: seq<Event>, prepareSeconds: real, c: nat, k: nat, m: nat)
    requires DropsAt(events, c, k) && k < m < |events| && Creates(events[m])
    ensures Undecided(events[..m + 1], prepareSeconds, c) && Undecided(events[..m + 1], prepareSeconds, m)
  {
    PrefixDrops(events, m + 1, c, k);
    UndecidedExactly(events[..m + 1], prepareSeconds, c);
    UndecidedExactly(events[..m + 1], prepareSeconds, m);
    assert Live(events[..m + 1], m);
  }

  /** Exactly when the loop keeps at most one control undecided throughout. */
  lemma AtMostOneUndecidedIff(events: seq<Event>, prepareSeconds: real)
    ensures AlwaysAtMostOneUndecided(events, prepareSeconds) <==> NoEndpointAfterDrop(events)
  {
    if NoEndpointAfterDrop(events) {
      forall n: nat, c: nat, d: nat | n <= |events| && Undecided(events[..n], prepareSeconds, c) &&
        Undecided(events[..n], prepareSeconds, d)
        ensures c == d
      {
        if c != d {
          var k := TwoUndecided(events[..n], prepareSeconds, if c < d then c else d, if c < d then d else c);
          PrefixDrops(events, n, if c < d then c else d, k);
        }
      }
    }
    if AlwaysAtMostOneUndecided(events, prepareSeconds) {
      forall c: nat, k: nat, m: nat | DropsAt(events, c, k) && k < m < |events|
        ensures !Creates(events[m])
      {
        if Creates(events[m]) {
          EndpointAfterDrop(events, prepareSeconds, c, k, m);
        }
      }
    }
  }

  /** The stream assumption of the design: every confirmation names the turn that is active, if one is. */
  ghost predicate ConfirmationsNameActiveTurn(events: seq<Event>, prepareSeconds: real) {
    forall k: nat :: k < |events| && events[k].kind.Confirmed? ==>
      var active := Run(events[..k], prepareSeconds).activeTurn; active.None? || active == Some(events[k].turnId)
  }

  lemma DropsActive(events: seq<Event>, prepareSeconds: real, c: nat, k: nat)
    requires DropsAt(events, c, k)
    ensures Run(events[..k], prepareSeconds).activeTurn == Some(events[c].turnId)
  {
    assert forall j :: 0 <= j < k ==> events[..k][j] == events[j];
    assert Live(events[..k], c);
    ActiveIsLive(events[..k], prepareSeconds, c);
    RunTracks(events[..k], prepareSeconds);
  }

  /** Under that assumption at most one control is ever undecided, and it is the active one. */
  lemma AgreeingStreamUndecided(events: seq<Event>, prepareSeconds: real, c: nat)
    requires ConfirmationsNameActiveTurn(events, prepareSeconds)
    ensures Undecided(events, prepareSeconds, c) <==> Run(events, prepareSeconds).activeControl == Some(c)
    ensures AlwaysAtMostOneUndecided(events, prepareSeconds)
  {
    forall c: nat, k: nat
      ensures !DropsAt(events, c, k)
    {
      if DropsAt(events, c, k) {
        DropsActive(events, prepareSeconds, c, k);
      }
    }
    AtMostOneUndecidedIff(events, prepareSeconds);
    UndecidedExactly(events, prepareSeconds, c);
    ActiveIsLive(events, prepareSeconds, c);
  }

  /** Without the assumption two controls can be undecided at once. */
  lemma TwoCanBeUndecided(capture: Capture, prepareSeconds: real)
    ensures var events := [Event(Endpoint, 1, Some(capture)), Event(Confirmed, 2, None),
                           Event(Endpoint, 3, Some(capture))];
            Undecided(events, prepareSeconds, 0) && Undecided(events, prepareSeconds, 2)
  {
    var events := [Event(Endpoint, 1, Some(capture)), Event(Confirmed, 2, None), Event(Endpoint, 3, Some(capture))];
    assert DropsAt(events, 0, 1);
    assert Live(events, 2);
    UndecidedExactly(events, prepareSeconds, 0);
    UndecidedExactly(events, prepareSeconds, 2);
  }

  // ---------- flows ----------

  predicate Starts(e: Event) {
    (e.kind.Endpoint? || e.kind.ModeSwitch?) && e.capture.Some?
  }

  /** The flows a stream starts, in order: one per starting event, the first charged with the prepare time. */
  function ExpectedFlows(events: seq<Event>, prepareSeconds: real): seq<Flow> {
    if events == [] then []
    else
      var n := |events| - 1;
      var before := ExpectedFlows(events[..n], prepareSeconds);
      if !Starts(events[n]) then before
      else before + [Flow(if events[n].kind.Endpoint? then Some(n) else None, events[n].capture.value,
                          if before == [] then prepareSeconds else 0.0)]
  }

  lemma {:induction false} FlowsExact(events: seq<Event>, prepareSeconds: real)
    ensures var s := Run(events, prepareSeconds);
            s.flows == ExpectedFlows(events, prepareSeconds) && (s.firstFlow <==> s.flows == []) && s.seen == |events|
  {
    if events != [] {
      FlowsExact(events[..|events| - 1], prepareSeconds);
    }
  }

  /** Model-prepare time goes to exactly the first flow started. */
  lemma {:induction false} PrepareChargedOnce(events: seq<Event>, prepareSeconds: real)
    ensures var flows := Run(events, prepareSeconds).flows;
            forall i :: 0 <= i < |flows| ==> flows[i].prepareSeconds == if i == 0 then prepareSeconds else 0.0
  {
    if events != [] {
      var n := |events| - 1;
      PrepareChargedOnce(events[..n], prepareSeconds);
      FlowsExact(events[..n], prepareSeconds);
    }
  }
}
