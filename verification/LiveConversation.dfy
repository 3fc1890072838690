/**
 The live conversation log and its merge with persisted history
 (agent-host agent_flow/live_conversation.py).
 */
module LiveConversation {
  import opened Ids
  import Text

  datatype Outcome<T> = Ok(value: T) | ValueError

  /**
   A timestamp string. `Captured` is the text that the log itself writes for an instant, so two such
   strings are equal exactly when their instants are; `Stored` is any other text, which may parse.
   */
  datatype Stamp = Captured(micros: int) | Stored(text: string, instant: Option<int>)

  function Instant(s: Stamp): Option<int> {
    match s
    case Captured(micros) => Some(micros)
    case Stored(_, instant) => instant
  }

  datatype LiveMessage = LiveMessage(conversationId: string, role: string, content: string, capturedAt: int)
  datatype HistoryMessage = HistoryMessage(createdAt: Stamp, updatedAt: Stamp, readAt: string, role: string,
                                           content: string)
  datatype History = History(id: string, name: string, createdAt: Stamp, updatedAt: Stamp, readAt: string,
                             messages: seq<HistoryMessage>)

  /** Messages are identified across the two lists by role and content. */
  datatype Key = Key(role: string, content: string)

  function KeyOf(m: HistoryMessage): Key { Key(m.role, m.content) }

  function LiveKey(m: LiveMessage): Key { Key(m.role, m.content) }

  /** `_history_message`. */
  function AsHistory(m: LiveMessage): HistoryMessage {
    HistoryMessage(Captured(m.capturedAt), Captured(m.capturedAt), "NONE", m.role, m.content)
  }

  function AllAsHistory(live: seq<LiveMessage>): (r: seq<HistoryMessage>)
    ensures |r| == |live|
  {
    seq(|live|, i requires 0 <= i < |live| => AsHistory(live[i]))
  }

  // ---------- the log ----------

  datatype Log = Log(messages: seq<LiveMessage>, active: set<int>, last: Option<int>)

  const EMPTY_LOG := Log([], {}, None)

  /** The forced-monotone capture clock, in microseconds. */
  function NextCapturedAt(last: Option<int>, now: int): int {
    if last.Some? && now <= last.value then last.value + 1 else now
  }

  function AddMessage(log: Log, now: int, conversationId: Option<string>, role: string, content: string)
    : (Log, Outcome<Option<int>>)
  {
    var clean := Text.Clean(content);
    if conversationId.None? || clean == "" then (log, Ok(None))
    else
      var at := NextCapturedAt(log.last, now);
      // The clock has already advanced when a malformed id is rejected.
      if !IsRecordId(conversationId.value) then (log.(last := Some(at)), ValueError)
      else
        (Log(log.messages + [LiveMessage(conversationId.value, role, clean, at)],
             if role == "human" then log.active + {at} else log.active,
             Some(at)),
         Ok(Some(at)))
  }

  function ResolveHumanReply(log: Log, capturedAt: Option<Stamp>): Log {
    if capturedAt.Some? && capturedAt.value.Captured? then log.(active := log.active - {capturedAt.value.micros})
    else log
  }

  /** The captured messages of one conversation, in capture order. */
  function MessagesFor(messages: seq<LiveMessage>, conversationId: string): seq<LiveMessage> {
    if messages == [] then []
    else
      var n := |messages| - 1;
      MessagesFor(messages[..n], conversationId) +
      (if messages[n].conversationId == conversationId then [messages[n]] else [])
  }

  function ActiveReplies(messages: seq<LiveMessage>, active: set<int>, conversationId: string): seq<int> {
    if messages == [] then []
    else
      var n := |messages| - 1;
      ActiveReplies(messages[..n], active, conversationId) +
      (if messages[n].conversationId == conversationId && messages[n].capturedAt in active then [messages[n].capturedAt]
       else [])
  }

  /** Capture times strictly increase, none is after the clock, and only captured human replies are active. */
  ghost predicate ValidLog(log: Log) {
    && (forall i, j :: 0 <= i < j < |log.messages| ==> log.messages[i].capturedAt < log.messages[j].capturedAt)
    && (log.messages != [] ==> log.last.Some?)
    && (forall i :: 0 <= i < |log.messages| ==> log.messages[i].capturedAt <= log.last.value)
    && forall a :: a in log.active ==>
         exists i :: 0 <= i < |log.messages| && log.messages[i].capturedAt == a && log.messages[i].role == "human"
  }

  // ---------- merging with persisted history ----------

  /** A persisted message that a live reply may replace: same key, stored at or after the capture. */
  predicate IsHit(m: HistoryMessage, live: LiveMessage) {
    KeyOf(m) == LiveKey(live) && Instant(m.createdAt).Some? && Instant(m.createdAt).value >= live.capturedAt
  }

  /** `_replace_persisted_active_reply`: drop the last hit, unless it already carries the capture time. */
  function Replace(merged: seq<HistoryMessage>, live: LiveMessage): seq<HistoryMessage> {
    if merged == [] then []
    else
      var n := |merged| - 1;
      if !IsHit(merged[n], live) then Replace(merged[..n], live) + [merged[n]]
      else if merged[n].createdAt == Captured(live.capturedAt) then merged
      else merged[..n]
  }

  function ReplaceAll(merged: seq<HistoryMessage>, live: seq<LiveMessage>, active: set<int>): seq<HistoryMessage> {
    if live == [] then merged
    else
      var n := |live| - 1;
      var before := ReplaceAll(merged, live[..n], active);
      if live[n].capturedAt in active then Replace(before, live[n]) else before
  }

  function Keys(messages: seq<HistoryMessage>): multiset<Key> {
    if messages == [] then multiset{}
    else
      var n := |messages| - 1;
      Keys(messages[..n]) + multiset{KeyOf(messages[n])}
  }

  /** The live messages not accounted for by the counted persisted ones. */
  function Missing(counts: multiset<Key>, live: seq<LiveMessage>): seq<HistoryMessage> {
    if live == [] then []
    else if LiveKey(live[0]) in counts then Missing(counts - multiset{LiveKey(live[0])}, live[1..])
    else [AsHistory(live[0])] + Missing(counts, live[1..])
  }

  function MergeMessages(persisted: seq<HistoryMessage>, live: seq<LiveMessage>,
                         active: set<int>): seq<HistoryMessage> {
    var kept := ReplaceAll(persisted, live, active);
    kept + Missing(Keys(kept), live)
  }

  // ---------- the object ----------

  class LiveConversationContext {
    var messages: seq<LiveMessage>
    var activeHumanReplies: set<int>
    var lastCapturedAt: Option<int>

    ghost function State(): Log
      reads this
    {
      Log(messages, activeHumanReplies, lastCapturedAt)
    }

    ghost predicate Valid()
      reads this
    {
      ValidLog(State())
    }

    constructor ()
      ensures Valid() && State() == EMPTY_LOG
    {
      messages, activeHumanReplies, lastCapturedAt := [], {}, None;
    }

    method Add(now: int, conversationId: Option<string>, role: string, content: string)
      returns (r: Outcome<Option<int>>)
      requires Valid()
      modifies this
      ensures Valid()
      ensures (State(), r) == AddMessage(old(State()), now, conversationId, role, content)
    {
      var clean := Text.Clean(content);
      if conversationId.None? || clean == "" {
        return Ok(None);
      }
      var capturedAt := now;
      if lastCapturedAt.Some? && capturedAt <= lastCapturedAt.value {
        capturedAt := lastCapturedAt.value + 1;
      }
      lastCapturedAt := Some(capturedAt);
      if !IsRecordId(conversationId.value) {
        return ValueError;
      }
      messages := messages + [LiveMessage(conversationId.value, role, clean, capturedAt)];
      if role == "human" {
        activeHumanReplies := activeHumanReplies + {capturedAt};
      }
      r := Ok(Some(capturedAt));
      AddKeepsValid(old(State()), now, conversationId, role, content);
    }

    method Resolve(capturedAt: Option<Stamp>)
      requires Valid()
      modifies this
      ensures Valid()
      ensures State() == ResolveHumanReply(old(State()), capturedAt)
    {
      if capturedAt.Some? && capturedAt.value.Captured? {
        activeHumanReplies := activeHumanReplies - {capturedAt.value.micros};
      }
    }

    method ActiveHumanReplyCreatedAt(conversationId: Option<string>) returns (r: Outcome<seq<int>>)
      ensures conversationId.None? ==> r == Ok([])
      ensures conversationId.Some? && !IsRecordId(conversationId.value) ==> r == ValueError
      ensures conversationId.Some? && IsRecordId(conversationId.value) ==>
                r == Ok(ActiveReplies(messages, activeHumanReplies, conversationId.value))
    {
      if conversationId.None? {
        return Ok([]);
      }
      if !IsRecordId(conversationId.value) {
        return ValueError;
      }
      var found := [];
      for i := 0 to |messages|
        invariant found == ActiveReplies(messages[..i], activeHumanReplies, conversationId.value)
      {
        assert messages[..i + 1][..i] == messages[..i];
        if messages[i].conversationId == conversationId.value && messages[i].capturedAt in activeHumanReplies {
          found := found + [messages[i].capturedAt];
        }
      }
      assert messages[..|messages|] == messages;
      return Ok(found);
    }

    method LiveMessagesFor(conversationId: string) returns (r: seq<LiveMessage>)
      ensures r == MessagesFor(messages, conversationId)
    {
      r := [];
      for i := 0 to |messages|
        invariant r == MessagesFor(messages[..i], conversationId)
      {
        assert messages[..i + 1][..i] == messages[..i];
        if messages[i].conversationId == conversationId {
          r := r + [messages[i]];
        }
      }
      assert messages[..|messages|] == messages;
    }

    /** `merge`; `now` stands for the clock that stamps a history built from live messages alone. */
    method Merge(conversation: Option<History>, conversationId: Option<string>, now: int)
      returns (r: Outcome<Option<History>>)
      ensures conversationId.None? ==> r == Ok(conversation)
      ensures conversationId.Some? && !IsRecordId(conversationId.value) ==> r == ValueError
      ensures conversationId.Some? && IsRecordId(conversationId.value) ==>
                var live := MessagesFor(messages, conversationId.value);
                r == Ok(if live == [] then conversation
                        else if conversation.None? then
                          Some(History(conversationId.value, "Current conversation", Captured(now), Captured(now),
                                       "NONE", AllAsHistory(live)))
                        else
                          Some(conversation.value.(messages :=
                            MergeMessages(conversation.value.messages, live, activeHumanReplies))))
    {
      if conversationId.None? {
        return Ok(conversation);
      }
      if !IsRecordId(conversationId.value) {
        return ValueError;
      }
      var live := LiveMessagesFor(conversationId.value);
      if live == [] {
        return Ok(conversation);
      }
      if conversation.None? {
        return Ok(Some(History(conversationId.value, "Current conversation", Captured(now), Captured(now), "NONE",
                               AllAsHistory(live))));
      }
      var merged := conversation.value.messages;
      var replies := ActiveHumanReplyCreatedAt(conversationId);
      ActiveRepliesOfConversation(messages, activeHumanReplies, conversationId.value);
      for i := 0 to |live|
        invariant merged == ReplaceAll(conversation.value.messages, live[..i], activeHumanReplies)
      {
        assert live[..i + 1][..i] == live[..i];
        assert live[i] in live;
        if live[i].capturedAt in replies.value {
          merged := ReplacePersistedActiveReply(merged, live[i]);
        }
      }
      assert live[..|live|] == live;
      merged := AppendMissing(merged, live);
      return Ok(Some(conversation.value.(messages := merged)));
    }
  }

  method ReplacePersistedActiveReply(merged: seq<HistoryMessage>, live: LiveMessage) returns (r: seq<HistoryMessage>)
    ensures r == Replace(merged, live)
  {
    var index := |merged|;
    assert merged[..index] == merged;
    while index > 0
      invariant 0 <= index <= |merged|
      invariant Replace(merged, live) == Replace(merged[..index], live) + merged[index..]
    {
      index := index - 1;
      var message := merged[index];
      assert merged[..index + 1][..index] == merged[..index];
      if KeyOf(message) == LiveKey(live) {
        if message.createdAt == Captured(live.capturedAt) {
          assert merged[..index + 1] + merged[index + 1..] == merged;
          return merged;
        }
        var persisted := Instant(message.createdAt);
        if persisted.Some? && persisted.value >= live.capturedAt {
          return merged[..index] + merged[index + 1..];
        }
      }
      assert [message] + merged[index + 1..] == merged[index..];
    }
    return merged;
  }

  method AppendMissing(kept: seq<HistoryMessage>, live: seq<LiveMessage>) returns (merged: seq<HistoryMessage>)
    ensures merged == kept + Missing(Keys(kept), live)
  {
    merged := kept;
    var counts := Keys(kept);
    var i := 0;
    assert live[0..] == live;
    while i < |live|
      invariant 0 <= i <= |live|
      invariant merged + Missing(counts, live[i..]) == kept + Missing(Keys(kept), live)
    {
      var key := LiveKey(live[i]);
      assert live[i..][1..] == live[i + 1..];
      if counts[key] > 0 {
        counts := counts - multiset{key};
      } else {
        merged := merged + [AsHistory(live[i])];
      }
      i := i + 1;
    }
  }

  // ---------- the log keeps its invariant ----------

  lemma AddKeepsValid(log: Log, now: int, conversationId: Option<string>, role: string, content: string)
    requires ValidLog(log)
    ensures ValidLog(AddMessage(log, now, conversationId, role, content).0)
  {
    var next := AddMessage(log, now, conversationId, role, content).0;
    forall a | a in next.active
      ensures exists i :: 0 <= i < |next.messages| && next.messages[i].capturedAt == a &&
                next.messages[i].role == "human"
    {
      if a in log.active {
        var i :| 0 <= i < |log.messages| && log.messages[i].capturedAt == a && log.messages[i].role == "human";
        assert next.messages[i] == log.messages[i];
      } else {
        assert next.messages[|next.messages| - 1].capturedAt == a;
      }
    }
  }

  /** The active list of a conversation selects, among its messages, exactly those whose capture time is active. */
  lemma {:induction false} ActiveRepliesOfConversation(messages: seq<LiveMessage>, active: set<int>,
                                                       conversationId: string)
    ensures forall m :: m in MessagesFor(messages, conversationId) ==>
              (m.capturedAt in ActiveReplies(messages, active, conversationId) <==> m.capturedAt in active)
  {
    if messages != [] {
      var n := |messages| - 1;
      ActiveRepliesOfConversation(messages[..n], active, conversationId);
      ActiveRepliesAreActive(messages[..n], active, conversationId);
      ActiveRepliesAreActive(messages, active, conversationId);
    }
  }

  lemma {:induction false} ActiveRepliesAreActive(messages: seq<LiveMessage>, active: set<int>, conversationId: string)
    ensures forall a :: a in ActiveReplies(messages, active, conversationId) ==> a in active
  {
    if messages != [] {
      ActiveRepliesAreActive(messages[..|messages| - 1], active, conversationId);
    }
  }
}
