/**
 What the live log stores of a message, field by field, and where every message of a merged history comes from.
 */
module LiveContents {
  import opened Ids
  import opened LiveConversation
  import Text
  import TextMeaning

  /** The message is stored as it was given, with its words one space apart, after every earlier one. */
  lemma AddStores(log: Log, now: int, conversationId: string, role: string, content: string)
    requires ValidLog(log) && IsRecordId(conversationId)
    ensures var (next, r) := AddMessage(log, now, Some(conversationId), role, content);
            if TextMeaning.Marks(content, true) == [] then next == log && r == Ok(None)
            else
              && r.Ok? && r.value.Some? && |next.messages| == |log.messages| + 1
              && next.messages[..|log.messages|] == log.messages
              && var m, at := next.messages[|log.messages|], r.value.value;
                 && m.conversationId == conversationId && m.role == role && m.capturedAt == at && at >= now
                 && Text.IsClean(m.content)
                 && TextMeaning.Marks(m.content, true) == TextMeaning.Marks(content, true)
                 && (log.last.None? || log.last.value < now ==> at == now)
                 && (forall old' :: old' in log.messages ==> old'.capturedAt < at)
                 && next.last == Some(at)
                 && next.active == if role == "human" then log.active + {at} else log.active
  {
    Text.CleanIsClean(content);
    TextMeaning.CleanKeepsMarks(content);
    NoMarks(Text.Clean(content));
  }

  /** A clean text without marks is empty. */
  lemma NoMarks(s: string)
    requires Text.IsClean(s)
    ensures TextMeaning.Marks(s, true) == [] <==> s == ""
  {
    if s != "" {
      assert Text.CleanAt(s, 0);
    }
  }

  /** A live message as the merged history shows it: all its times are its capture, and it has not been read. */
  ghost predicate Shows(m: HistoryMessage, live: LiveMessage) {
    && m.createdAt == Captured(live.capturedAt) && m.updatedAt == m.createdAt && m.readAt == "NONE"
    && m.role == live.role && m.content == live.content
  }

  /** Every merged message is a persisted one, unchanged, or shows a live one. */
  lemma MergedComesFrom(persisted: seq<HistoryMessage>, live: seq<LiveMessage>, active: set<int>)
    ensures forall m :: m in MergeMessages(persisted, live, active) ==>
              m in persisted || exists l :: l in live && Shows(m, l)
  {
    KeptComesFrom(persisted, live, active);
    MissingComesFrom(Keys(ReplaceAll(persisted, live, active)), live);
  }

  lemma {:induction false} ReplaceComesFrom(p: seq<HistoryMessage>, live: LiveMessage)
    ensures forall m :: m in Replace(p, live) ==> m in p
  {
    if p != [] {
      ReplaceComesFrom(p[..|p| - 1], live);
    }
  }

  lemma {:induction false} KeptComesFrom(persisted: seq<HistoryMessage>, live: seq<LiveMessage>, active: set<int>)
    ensures forall m :: m in ReplaceAll(persisted, live, active) ==> m in persisted
  {
    if live != [] {
      KeptComesFrom(persisted, live[..|live| - 1], active);
      ReplaceComesFrom(ReplaceAll(persisted, live[..|live| - 1], active), live[|live| - 1]);
    }
  }

  lemma {:induction false} MissingComesFrom(counts: multiset<Key>, live: seq<LiveMessage>)
    ensures forall m :: m in Missing(counts, live) ==> exists l :: l in live && Shows(m, l)
  {
    if live != [] {
      assert live[0] in live && Shows(AsHistory(live[0]), live[0]);
      if LiveKey(live[0]) in counts {
        MissingComesFrom(counts - multiset{LiveKey(live[0])}, live[1..]);
      } else {
        MissingComesFrom(counts, live[1..]);
      }
      assert forall l :: l in live[1..] ==> l in live;
    }
  }
}
