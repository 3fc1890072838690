/** What the merge of live and persisted messages preserves, key by key. */
module LiveMerge {
  import opened Numbers
  import opened LiveConversation

  /** The messages of one key, in order. */
  function Only(messages: seq<HistoryMessage>, k: Key): seq<HistoryMessage> {
    if messages == [] then []
    else
      var n := |messages| - 1;
      if KeyOf(messages[n]) == k then Only(messages[..n], k) + [messages[n]] else Only(messages[..n], k)
  }

  function OnlyLive(live: seq<LiveMessage>, k: Key): seq<LiveMessage> {
    if live == [] then []
    else
      var n := |live| - 1;
      if LiveKey(live[n]) == k then OnlyLive(live[..n], k) + [live[n]] else OnlyLive(live[..n], k)
  }

  function Count(messages: seq<HistoryMessage>, k: Key): nat {
    |Only(messages, k)|
  }

  lemma {:induction false} OnlyAppend(a: seq<HistoryMessage>, b: seq<HistoryMessage>, k: Key)
    ensures Only(a + b, k) == Only(a, k) + Only(b, k)
    decreases |b|
  {
    if b == [] {
      assert a + b == a;
    } else {
      var n := |b| - 1;
      OnlyAppend(a, b[..n], k);
      assert (a + b)[..|a + b| - 1] == a + b[..n];
    }
  }

  lemma {:induction false} OnlyHasKey(messages: seq<HistoryMessage>, k: Key)
    ensures forall m :: m in Only(messages, k) <==> m in messages && KeyOf(m) == k
  {
    if messages != [] {
      var n := |messages| - 1;
      OnlyHasKey(messages[..n], k);
      assert messages == messages[..n] + [messages[n]];
    }
  }

  /** Replacing an active reply acts inside its own key only. */
  lemma {:induction false} ReplaceByKey(merged: seq<HistoryMessage>, live: LiveMessage, k: Key)
    ensures Only(Replace(merged, live), k) == if LiveKey(live) == k then Replace(Only(merged, k), live)
                                              else Only(merged, k)
  {
    if merged != [] {
      var n := |merged| - 1;
      var init, m := merged[..n], merged[n];
      ReplaceByKey(init, live, k);
      if !IsHit(m, live) {
        var r := Replace(init, live);
        assert (r + [m])[..|r|] == r;
      }
      if KeyOf(m) == k {
        var o := Only(init, k);
        assert (o + [m])[..|o|] == o;
      }
    }
  }

  lemma {:induction false} ReplaceAllByKey(merged: seq<HistoryMessage>, live: seq<LiveMessage>, active: set<int>,
                                           k: Key)
    ensures Only(ReplaceAll(merged, live, active), k) == ReplaceAll(Only(merged, k), OnlyLive(live, k), active)
  {
    if live != [] {
      var n := |live| - 1;
      ReplaceAllByKey(merged, live[..n], active, k);
      ReplaceByKey(ReplaceAll(merged, live[..n], active), live[n], k);
      if LiveKey(live[n]) == k {
        var o := OnlyLive(live[..n], k);
        assert (o + [live[n]])[..|o|] == o;
      }
    }
  }

  lemma {:induction false} KeysCount(messages: seq<HistoryMessage>, k: Key)
    ensures Keys(messages)[k] == Count(messages, k)
  {
    if messages != [] {
      KeysCount(messages[..|messages| - 1], k);
    }
  }

  lemma {:induction false} OnlyLiveFront(live: seq<LiveMessage>, k: Key)
    requires live != []
    ensures OnlyLive(live, k) == (if LiveKey(live[0]) == k then [live[0]] else []) + OnlyLive(live[1..], k)
  {
    var n := |live| - 1;
    if n == 0 {
      assert live[1..] == [] && live[..0] == [];
    } else {
      OnlyLiveFront(live[..n], k);
      assert live[..n][1..] == live[1..][..n - 1];
    }
  }

  /** The appended messages of a key are its live ones, less as many of the earliest as were counted. */
  lemma {:induction false} MissingByKey(counts: multiset<Key>, live: seq<LiveMessage>, k: Key)
    ensures Only(Missing(counts, live), k) == AllAsHistory(OnlyLive(live, k))[Min(counts[k], |OnlyLive(live, k)|)..]
    decreases |live|
  {
    if live != [] {
      var m, rest := live[0], live[1..];
      OnlyLiveFront(live, k);
      var o := AllAsHistory(OnlyLive(rest, k));
      if LiveKey(m) in counts {
        MissingByKey(counts - multiset{LiveKey(m)}, rest, k);
      } else {
        MissingByKey(counts, rest, k);
        OnlyAppend([AsHistory(m)], Missing(counts, rest), k);
        assert Only([AsHistory(m)], k) == (if LiveKey(m) == k then [AsHistory(m)] else []) by {
          assert [AsHistory(m)][..0] == [];
        }
      }
      if LiveKey(m) == k {
        assert AllAsHistory(OnlyLive(live, k)) == [AsHistory(m)] + o;
      } else {
        assert OnlyLive(live, k) == OnlyLive(rest, k);
      }
    }
  }

  /** The exact law of the merge: what it holds of each key. */
  lemma MergeByKey(persisted: seq<HistoryMessage>, live: seq<LiveMessage>, active: set<int>, k: Key)
    ensures var kept := ReplaceAll(Only(persisted, k), OnlyLive(live, k), active);
            Only(MergeMessages(persisted, live, active), k) ==
            kept + AllAsHistory(OnlyLive(live, k))[Min(|kept|, |OnlyLive(live, k)|)..]
  {
    var kept := ReplaceAll(persisted, live, active);
    OnlyAppend(kept, Missing(Keys(kept), live), k);
    ReplaceAllByKey(persisted, live, active, k);
    KeysCount(kept, k);
    MissingByKey(Keys(kept), live, k);
  }

  // ---------- counting ----------

  /** How many active replies are in a list. */
  function ActiveCount(live: seq<LiveMessage>, active: set<int>): nat {
    if live == [] then 0
    else
      var n := |live| - 1;
      ActiveCount(live[..n], active) + (if live[n].capturedAt in active then 1 else 0)
  }

  lemma {:induction false} ReplaceLength(merged: seq<HistoryMessage>, live: LiveMessage)
    ensures |merged| - 1 <= |Replace(merged, live)| <= |merged|
  {
    if merged != [] {
      ReplaceLength(merged[..|merged| - 1], live);
    }
  }

  lemma {:induction false} ReplaceAllLength(merged: seq<HistoryMessage>, live: seq<LiveMessage>, active: set<int>)
    ensures |merged| - ActiveCount(live, active) <= |ReplaceAll(merged, live, active)| <= |merged|
  {
    if live != [] {
      var n := |live| - 1;
      ReplaceAllLength(merged, live[..n], active);
      ReplaceLength(ReplaceAll(merged, live[..n], active), live[n]);
    }
  }

  /** How many persisted copies of a key the active replies replace. */
  function Replaced(persisted: seq<HistoryMessage>, live: seq<LiveMessage>, active: set<int>, k: Key): int {
    Count(persisted, k) - Count(ReplaceAll(persisted, live, active), k)
  }

  /** Merge law: the merged count of a key is max(P - R, L), with R at most the active live copies. */
  lemma MergeLaw(persisted: seq<HistoryMessage>, live: seq<LiveMessage>, active: set<int>, k: Key)
    ensures var p, l, r := Count(persisted, k), |OnlyLive(live, k)|, Replaced(persisted, live, active, k);
            && 0 <= r <= ActiveCount(OnlyLive(live, k), active) && r <= p
            && Count(MergeMessages(persisted, live, active), k) == Max(p - r, l)
  {
    MergeByKey(persisted, live, active, k);
    ReplaceAllByKey(persisted, live, active, k);
    ReplaceAllLength(Only(persisted, k), OnlyLive(live, k), active);
  }

  // ---------- order ----------

  ghost predicate Subsequence<T>(a: seq<T>, b: seq<T>) {
    if b == [] then a == []
    else
      var n, m := |a| - 1, |b| - 1;
      Subsequence(a, b[..m]) || (a != [] && a[n] == b[m] && Subsequence(a[..n], b[..m]))
  }

  lemma {:induction false} SubsequenceRefl<T>(a: seq<T>)
    ensures Subsequence(a, a)
  {
    if a != [] {
      SubsequenceRefl(a[..|a| - 1]);
    }
  }

  lemma {:induction false} SubsequenceTrans<T>(a: seq<T>, b: seq<T>, c: seq<T>)
    requires Subsequence(a, b) && Subsequence(b, c)
    ensures Subsequence(a, c)
    decreases |c|, |b|
  {
    if c != [] {
      var l, m := |b| - 1, |c| - 1;
      if Subsequence(b, c[..m]) {
        SubsequenceTrans(a, b, c[..m]);
      } else if b != [] {
        if Subsequence(a, b[..l]) {
          SubsequenceTrans(a, b[..l], c[..m]);
        } else {
          SubsequenceTrans(a[..|a| - 1], b[..l], c[..m]);
        }
      }
    }
  }

  lemma {:induction false} ReplaceSubsequence(merged: seq<HistoryMessage>, live: LiveMessage)
    ensures Subsequence(Replace(merged, live), merged)
  {
    if merged != [] {
      var n := |merged| - 1;
      ReplaceSubsequence(merged[..n], live);
      SubsequenceRefl(merged[..n]);
      SubsequenceRefl(merged);
      if !IsHit(merged[n], live) {
        var r := Replace(merged[..n], live);
        assert (r + [merged[n]])[..|r|] == r;
      }
    }
  }

  lemma {:induction false} ReplaceAllSubsequence(merged: seq<HistoryMessage>, live: seq<LiveMessage>, active: set<int>)
    ensures Subsequence(ReplaceAll(merged, live, active), merged)
  {
    if live == [] {
      SubsequenceRefl(merged);
    } else {
      var n := |live| - 1;
      ReplaceAllSubsequence(merged, live[..n], active);
      var before := ReplaceAll(merged, live[..n], active);
      ReplaceSubsequence(before, live[n]);
      if live[n].capturedAt in active {
        SubsequenceTrans(Replace(before, live[n]), before, merged);
      }
    }
  }

  lemma {:induction false} SubsequenceFront<T>(x: T, a: seq<T>, b: seq<T>)
    requires Subsequence(a, b)
    ensures Subsequence(a, [x] + b) && Subsequence([x] + a, [x] + b)
    decreases |b|
  {
    var xb := [x] + b;
    if b == [] {
      assert xb[..0] == [] && ([x] + a)[..0] == [];
      assert Subsequence<T>([], []);
    } else {
      var n, m := |a| - 1, |b| - 1;
      assert xb[..|xb| - 1] == [x] + b[..m];
      if Subsequence(a, b[..m]) {
        SubsequenceFront(x, a, b[..m]);
      } else {
        SubsequenceFront(x, a[..n], b[..m]);
        assert ([x] + a)[..|[x] + a| - 1] == [x] + a[..n];
      }
    }
  }

  lemma {:induction false} MissingSubsequence(counts: multiset<Key>, live: seq<LiveMessage>)
    ensures Subsequence(Missing(counts, live), AllAsHistory(live))
    decreases |live|
  {
    if live != [] {
      assert AllAsHistory(live) == [AsHistory(live[0])] + AllAsHistory(live[1..]);
      if LiveKey(live[0]) in counts {
        MissingSubsequence(counts - multiset{LiveKey(live[0])}, live[1..]);
        SubsequenceFront(AsHistory(live[0]), Missing(counts, live), AllAsHistory(live[1..]));
      } else {
        MissingSubsequence(counts, live[1..]);
        SubsequenceFront(AsHistory(live[0]), Missing(counts, live[1..]), AllAsHistory(live[1..]));
      }
    }
  }

  /** The merged history is a subsequence of the persisted one followed by a subsequence of the live one. */
  lemma MergeOrder(persisted: seq<HistoryMessage>, live: seq<LiveMessage>, active: set<int>)
    ensures exists kept, added :: MergeMessages(persisted, live, active) == kept + added &&
              Subsequence(kept, persisted) && Subsequence(added, AllAsHistory(live))
  {
    var kept := ReplaceAll(persisted, live, active);
    ReplaceAllSubsequence(persisted, live, active);
    MissingSubsequence(Keys(kept), live);
    assert MergeMessages(persisted, live, active) == kept + Missing(Keys(kept), live);
  }
}
