/**
 Whole runs of the live conversation log: capture times strictly increase whatever the wall clock
 does, and the active list is exactly the unresolved human replies in capture order.
 */
module LiveRuns {
  import opened Ids
  import opened LiveConversation
  import Text

  datatype Op =
    | Add(now: int, conversationId: Option<string>, role: string, content: string)
    | Resolve(capturedAt: Option<Stamp>)

  function Step(log: Log, op: Op): Log {
    match op
    case Add(now, conversationId, role, content) => AddMessage(log, now, conversationId, role, content).0
    case Resolve(capturedAt) => ResolveHumanReply(log, capturedAt)
  }

  function Run(ops: seq<Op>): Log {
    if ops == [] then EMPTY_LOG else Step(Run(ops[..|ops| - 1]), ops[|ops| - 1])
  }

  lemma {:induction false} RunValid(ops: seq<Op>)
    ensures ValidLog(Run(ops))
  {
    if ops != [] {
      var n := |ops| - 1;
      RunValid(ops[..n]);
      if ops[n].Add? {
        AddKeepsValid(Run(ops[..n]), ops[n].now, ops[n].conversationId, ops[n].role, ops[n].content);
      }
    }
  }

  /** Operation `i` captures a human reply of the conversation at time `at`. */
  ghost predicate CapturesReply(ops: seq<Op>, i: nat, conversationId: string, at: int)
    requires i < |ops|
  {
    && ops[i].Add? && ops[i].role == "human" && ops[i].conversationId == Some(conversationId)
    && IsRecordId(conversationId) && Text.Clean(ops[i].content) != ""
    && at == NextCapturedAt(Run(ops[..i]).last, ops[i].now)
  }

  /** Some operation captured the reply and no later one resolved it. */
  ghost predicate Unresolved(ops: seq<Op>, conversationId: string, at: int) {
    exists i :: 0 <= i < |ops| && CapturesReply(ops, i, conversationId, at) && NeverResolved(ops, i, at)
  }

  ghost predicate NeverResolved(ops: seq<Op>, i: nat, at: int) {
    forall j :: i < j < |ops| ==> ops[j] != Resolve(Some(Captured(at)))
  }

  /** A message of the log is an active human reply of the conversation. */
  ghost predicate IsActive(log: Log, conversationId: string, at: int) {
    at in log.active &&
    exists i :: 0 <= i < |log.messages| && log.messages[i].conversationId == conversationId &&
      log.messages[i].capturedAt == at
  }

  /** Some message of the conversation was captured at that moment. */
  predicate CapturedIn(messages: seq<LiveMessage>, conversationId: string, at: int) {
    exists i :: 0 <= i < |messages| && messages[i].conversationId == conversationId && messages[i].capturedAt == at
  }

  lemma CapturedStep(messages: seq<LiveMessage>, n: nat, conversationId: string, at: int)
    requires n + 1 == |messages|
    ensures CapturedIn(messages, conversationId, at) <==>
            CapturedIn(messages[..n], conversationId, at) ||
            (messages[n].conversationId == conversationId && messages[n].capturedAt == at)
  {
    var init := messages[..n];
    if i :| 0 <= i < n && messages[i].conversationId == conversationId && messages[i].capturedAt == at {
      assert init[i] == messages[i];
    }
    if i :| 0 <= i < n && init[i].conversationId == conversationId && init[i].capturedAt == at {
      assert messages[i] == init[i];
    }
  }

  lemma {:induction false} ActiveListed(messages: seq<LiveMessage>, active: set<int>, conversationId: string, at: int)
    ensures at in ActiveReplies(messages, active, conversationId) <==>
            at in active && CapturedIn(messages, conversationId, at)
  {
    if messages != [] {
      var n := |messages| - 1;
      ActiveListed(messages[..n], active, conversationId, at);
      CapturedStep(messages, n, conversationId, at);
    }
  }

  lemma CaptureInPrefix(ops: seq<Op>, i: nat, conversationId: string, at: int)
    requires i < |ops| - 1
    ensures CapturesReply(ops[..|ops| - 1], i, conversationId, at) == CapturesReply(ops, i, conversationId, at)
    ensures NeverResolved(ops, i, at) <==>
            NeverResolved(ops[..|ops| - 1], i, at) && ops[|ops| - 1] != Resolve(Some(Captured(at)))
  {
    assert ops[..|ops| - 1][..i] == ops[..i];
    assert forall j :: 0 <= j < |ops| - 1 ==> ops[..|ops| - 1][j] == ops[j];
  }

  lemma UnresolvedStep(ops: seq<Op>, conversationId: string, at: int)
    requires ops != []
    ensures var n := |ops| - 1;
            Unresolved(ops, conversationId, at) <==>
            CapturesReply(ops, n, conversationId, at) ||
            (Unresolved(ops[..n], conversationId, at) && ops[n] != Resolve(Some(Captured(at))))
  {
    var n := |ops| - 1;
    if i :| 0 <= i < |ops| && CapturesReply(ops, i, conversationId, at) && NeverResolved(ops, i, at) {
      if i < n {
        CaptureInPrefix(ops, i, conversationId, at);
      }
    }
    if i :| 0 <= i < n && CapturesReply(ops[..n], i, conversationId, at) && NeverResolved(ops[..n], i, at) {
      CaptureInPrefix(ops, i, conversationId, at);
    }
    assert NeverResolved(ops, n, at);
  }

  lemma {:induction false} ActiveIffUnresolved(ops: seq<Op>, conversationId: string, at: int)
    ensures IsActive(Run(ops), conversationId, at) <==> Unresolved(ops, conversationId, at)
  {
    if ops != [] {
      var n := |ops| - 1;
      var before, after := Run(ops[..n]), Run(ops);
      ActiveIffUnresolved(ops[..n], conversationId, at);
      UnresolvedStep(ops, conversationId, at);
      RunValid(ops[..n]);
      ActiveStep(before, ops[n], conversationId, at);
    }
  }

  /** How one operation changes what is active: the newly captured reply joins, the resolved one leaves. */
  lemma ActiveStep(log: Log, op: Op, conversationId: string, at: int)
    requires ValidLog(log)
    ensures IsActive(Step(log, op), conversationId, at) <==>
            || (op.Add? && op.role == "human" && op.conversationId == Some(conversationId) &&
                IsRecordId(conversationId) && Text.Clean(op.content) != "" && at == NextCapturedAt(log.last, op.now))
            || (IsActive(log, conversationId, at) && op != Resolve(Some(Captured(at))))
  {
    var next := Step(log, op);
    var n := |log.messages|;
    assert next.messages == log.messages || (|next.messages| == n + 1 && next.messages[..n] == log.messages);
    if |next.messages| == n + 1 {
      assert forall i :: 0 <= i < n ==> next.messages[i] == log.messages[i];
      assert next.messages[n].capturedAt == NextCapturedAt(log.last, op.now);
      assert next.messages[n].capturedAt !in log.active;
    }
  }

  ghost predicate Increasing(xs: seq<int>) {
    forall i, j :: 0 <= i < j < |xs| ==> xs[i] < xs[j]
  }

  lemma {:induction false} ActiveIncreasing(messages: seq<LiveMessage>, active: set<int>, conversationId: string)
    requires forall i, j :: 0 <= i < j < |messages| ==> messages[i].capturedAt < messages[j].capturedAt
    ensures Increasing(ActiveReplies(messages, active, conversationId))
  {
    if messages != [] {
      var n := |messages| - 1;
      ActiveIncreasing(messages[..n], active, conversationId);
      var list := ActiveReplies(messages[..n], active, conversationId);
      forall i | 0 <= i < |list|
        ensures list[i] < messages[n].capturedAt
      {
        ActiveListed(messages[..n], active, conversationId, list[i]);
      }
    }
  }

  /**
   Over every run: capture times strictly increase even when the wall clock runs backwards, and the
   active list of a conversation holds exactly its unresolved human replies, in capture order.
   */
  lemma ActiveListExact(ops: seq<Op>, conversationId: string)
    ensures ValidLog(Run(ops))
    ensures var list := ActiveReplies(Run(ops).messages, Run(ops).active, conversationId);
            Increasing(list) && forall at :: at in list <==> Unresolved(ops, conversationId, at)
  {
    RunValid(ops);
    var log := Run(ops);
    ActiveIncreasing(log.messages, log.active, conversationId);
    forall at
      ensures at in ActiveReplies(log.messages, log.active, conversationId) <==> Unresolved(ops, conversationId, at)
    {
      ActiveListed(log.messages, log.active, conversationId, at);
      ActiveIffUnresolved(ops, conversationId, at);
    }
  }

  /** Resolving one reply removes that one alone: every other reply of every conversation stays as it was. */
  lemma ResolveRemovesOne(log: Log, capturedAt: Option<Stamp>, conversationId: string, at: int)
    ensures var next := ResolveHumanReply(log, capturedAt);
            at in ActiveReplies(next.messages, next.active, conversationId) <==>
            at in ActiveReplies(log.messages, log.active, conversationId) && capturedAt != Some(Captured(at))
  {
    var next := ResolveHumanReply(log, capturedAt);
    ActiveListed(log.messages, log.active, conversationId, at);
    ActiveListed(next.messages, next.active, conversationId, at);
  }
}
