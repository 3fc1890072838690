/**
 When an active reply's own capture time survives the merge, told from the messages that go in: for
 one active reply of a key, and for any number of them when the persisted copies are in stored order.
 */
module LiveReplies {
  import opened Ids
  import opened Numbers
  import opened LiveConversation
  import opened LiveMerge

  ghost predicate HasStamp(messages: seq<HistoryMessage>, at: int) {
    exists m :: m in messages && m.createdAt == Captured(at)
  }

  ghost predicate CaptureOrder(live: seq<LiveMessage>) {
    forall i, j :: 0 <= i < j < |live| ==> live[i].capturedAt < live[j].capturedAt
  }

  lemma StampInMerged(kept: seq<HistoryMessage>, l: seq<LiveMessage>, i: nat)
    requires CaptureOrder(l) && i < |l|
    ensures var merged := kept + AllAsHistory(l)[Min(|kept|, |l|)..];
            HasStamp(merged, l[i].capturedAt) <==> HasStamp(kept, l[i].capturedAt) || |kept| <= i
  {
    var c, at := Min(|kept|, |l|), l[i].capturedAt;
    var added := AllAsHistory(l)[c..];
    if |kept| <= i {
      assert (kept + added)[|kept| + i - c] == AsHistory(l[i]);
    }
    if HasStamp(kept, at) {
      var m :| m in kept && m.createdAt == Captured(at);
      assert m in kept + added;
    }
    if HasStamp(kept + added, at) && !HasStamp(kept, at) {
      var m :| m in kept + added && m.createdAt == Captured(at);
      var j :| 0 <= j < |added| && added[j] == m;
      assert m == AsHistory(l[c + j]);
      assert l[c + j].capturedAt == l[i].capturedAt;
    }
  }

  /** In terms of what replacement keeps: the time is on a kept copy, or at most i copies are kept. */
  lemma ReplyKeptIff(persisted: seq<HistoryMessage>, live: seq<LiveMessage>, active: set<int>, k: Key, i: nat)
    requires CaptureOrder(OnlyLive(live, k)) && i < |OnlyLive(live, k)|
    ensures var kept := Only(ReplaceAll(persisted, live, active), k);
            var at := OnlyLive(live, k)[i].capturedAt;
            HasStamp(Only(MergeMessages(persisted, live, active), k), at) <==>
            HasStamp(kept, at) || Count(persisted, k) - Replaced(persisted, live, active, k) <= i
  {
    MergeByKey(persisted, live, active, k);
    ReplaceAllByKey(persisted, live, active, k);
    StampInMerged(Only(ReplaceAll(persisted, live, active), k), OnlyLive(live, k), i);
  }

  // ---------- one active reply ----------

  lemma {:induction false} ReplaceAllInactive(merged: seq<HistoryMessage>, live: seq<LiveMessage>, active: set<int>)
    requires forall m :: m in live ==> m.capturedAt !in active
    ensures ReplaceAll(merged, live, active) == merged
  {
    if live != [] {
      ReplaceAllInactive(merged, live[..|live| - 1], active);
    }
  }

  lemma {:induction false} OnlyLiveKey(live: seq<LiveMessage>, k: Key)
    ensures forall m :: m in OnlyLive(live, k) ==> LiveKey(m) == k
  {
    if live != [] {
      OnlyLiveKey(live[..|live| - 1], k);
    }
  }

  /** Some persisted copy may be replaced by the reply: stored at or after its capture. */
  ghost predicate CopyStored(p: seq<HistoryMessage>, live: LiveMessage) {
    exists m :: m in p && IsHit(m, live)
  }

  /**
   Replacing keeps the reply's own stamp, and drops one copy if it can, unless the last one it could drop has
   that stamp.
   */
  lemma {:induction false} ReplaceExact(p: seq<HistoryMessage>, live: LiveMessage)
    requires forall m :: m in p ==> KeyOf(m) == LiveKey(live)
    ensures HasStamp(Replace(p, live), live.capturedAt) <==> HasStamp(p, live.capturedAt)
    ensures |Replace(p, live)| == |p| - (if CopyStored(p, live) then 1 else 0) ||
            (HasStamp(p, live.capturedAt) && |Replace(p, live)| == |p|)
  {
    if p != [] {
      var n := |p| - 1;
      var init, m := p[..n], p[n];
      assert p == init + [m];
      if IsHit(m, live) {
        assert m in p;
        OwnStampIsHit(init, live);
        StampSnoc(init, m, live.capturedAt);
      } else {
        ReplaceExact(init, live);
        StampSnoc(init, m, live.capturedAt);
        StampSnoc(Replace(init, live), m, live.capturedAt);
        assert CopyStored(p, live) <==> CopyStored(init, live) by {
          if CopyStored(p, live) {
            var h :| h in p && IsHit(h, live);
            assert h in init;
          }
        }
      }
    }
  }

  lemma StampSnoc(p: seq<HistoryMessage>, m: HistoryMessage, at: int)
    ensures HasStamp(p + [m], at) <==> HasStamp(p, at) || m.createdAt == Captured(at)
  {
    if HasStamp(p, at) {
      var x :| x in p && x.createdAt == Captured(at);
      assert x in p + [m];
    }
    assert m in p + [m];
  }

  lemma OwnStampIsHit(p: seq<HistoryMessage>, live: LiveMessage)
    requires forall m :: m in p ==> KeyOf(m) == LiveKey(live)
    ensures HasStamp(p, live.capturedAt) ==> CopyStored(p, live)
  {
  }

  /** The i-th live message is the only active one. */
  ghost predicate OnlyActive(l: seq<LiveMessage>, active: set<int>, i: nat) {
    i < |l| && forall j :: 0 <= j < |l| ==> (l[j].capturedAt in active <==> j == i)
  }

  lemma {:induction false} ReplaceAllOne(p: seq<HistoryMessage>, l: seq<LiveMessage>, active: set<int>, i: nat)
    requires OnlyActive(l, active, i)
    ensures ReplaceAll(p, l, active) == Replace(p, l[i])
  {
    var n := |l| - 1;
    if i == n {
      ReplaceAllInactive(p, l[..n], active);
    } else {
      ReplaceAllOne(p, l[..n], active, i);
    }
  }

  /**
   Exactly when the only active reply of a key keeps its own capture time: a persisted copy already
   carries it, or the persisted copies, less the one that the reply replaces if any was stored at or
   after it, are too few to account for the reply and everything before it.
   */
  lemma ActiveReplyKeptIff(persisted: seq<HistoryMessage>, live: seq<LiveMessage>, active: set<int>, k: Key, i: nat)
    requires CaptureOrder(OnlyLive(live, k)) && OnlyActive(OnlyLive(live, k), active, i)
    ensures var p, l := Only(persisted, k), OnlyLive(live, k);
            HasStamp(Only(MergeMessages(persisted, live, active), k), l[i].capturedAt) <==>
            HasStamp(p, l[i].capturedAt) || |p| - (if CopyStored(p, l[i]) then 1 else 0) <= i
  {
    var p, l := Only(persisted, k), OnlyLive(live, k);
    ReplyKeptIff(persisted, live, active, k, i);
    ReplaceAllByKey(persisted, live, active, k);
    ReplaceAllOne(p, l, active, i);
    OnlyHasKey(persisted, k);
    OnlyLiveKey(live, k);
    assert l[i] in l;
    ReplaceExact(p, l[i]);
  }

  /** A persisted copy of a key, stored at `t`. */
  function Copy(k: Key, t: int): HistoryMessage {
    HistoryMessage(Stored("", Some(t)), Stored("", Some(t)), "", k.role, k.content)
  }

  lemma OnlyPair(a: HistoryMessage, b: HistoryMessage, k: Key)
    requires KeyOf(a) == k && KeyOf(b) == k
    ensures Only([a, b], k) == [a, b]
  {
    assert [a, b][..1] == [a] && [a][..0] == [];
    assert Only([a], k) == [a];
  }

  lemma OnlyLiveOne(m: LiveMessage)
    ensures OnlyLive([m], LiveKey(m)) == [m]
  {
    assert [m][..0] == [] && OnlyLive([], LiveKey(m)) + [m] == [m];
  }

  /** The pair of copies around the capture. */
  lemma PairHides(conversation: string, k: Key, t0: int, t1: int, t2: int)
    requires t0 < t1 < t2
    ensures var p, l := [Copy(k, t0), Copy(k, t2)], [LiveMessage(conversation, k.role, k.content, t1)];
            && Only(p, k) == p && OnlyLive(l, k) == l && CaptureOrder(l) && OnlyActive(l, {t1}, 0)
            && CopyStored(p, l[0]) && !HasStamp(p, t1)
  {
    var a, b, m := Copy(k, t0), Copy(k, t2), LiveMessage(conversation, k.role, k.content, t1);
    OnlyPair(a, b, k);
    OnlyLiveOne(m);
    hide Only, OnlyLive, CopyStored, HasStamp;
    PairStamps(a, b, m);
  }

  lemma PairStamps(a: HistoryMessage, b: HistoryMessage, m: LiveMessage)
    requires IsHit(b, m) && a.createdAt.Stored? && b.createdAt.Stored?
    ensures CopyStored([a, b], m) && !HasStamp([a, b], m.capturedAt)
  {
    assert b in [a, b];
  }

  /** The obvious claim fails, for every key: an older persisted copy can hide the active reply altogether. */
  lemma ReplyCanBeLost(conversation: string, k: Key, t0: int, t1: int, t2: int)
    requires t0 < t1 < t2
    ensures !HasStamp(Only(MergeMessages([Copy(k, t0), Copy(k, t2)], [LiveMessage(conversation, k.role, k.content, t1)],
                                         {t1}), k), t1)
  {
    PairHides(conversation, k, t0, t1, t2);
    hide *;
    ActiveReplyKeptIff([Copy(k, t0), Copy(k, t2)], [LiveMessage(conversation, k.role, k.content, t1)], {t1}, k, 0);
  }

  /** Each persisted copy is the stored form of a different live message, stored no earlier than its capture. */
  ghost predicate StoredForms(persisted: seq<HistoryMessage>, live: seq<LiveMessage>, origin: seq<nat>) {
    && |origin| == |persisted| && NoDup(origin)
    && forall i :: 0 <= i < |persisted| ==>
         origin[i] < |live| && Instant(persisted[i].createdAt).Some? &&
         Instant(persisted[i].createdAt).value >= live[origin[i]].capturedAt
  }

  /**
   If every persisted copy of a key is the stored form of a distinct live message and the key's only
   active reply is its latest one, the merged history carries that reply's own capture time.
   */
  lemma LatestReplyKept(persisted: seq<HistoryMessage>, live: seq<LiveMessage>, active: set<int>, k: Key,
                        origin: seq<nat>)
    requires CaptureOrder(OnlyLive(live, k)) && OnlyLive(live, k) != []
    requires StoredForms(Only(persisted, k), OnlyLive(live, k), origin)
    requires OnlyActive(OnlyLive(live, k), active, |OnlyLive(live, k)| - 1)
    ensures var l := OnlyLive(live, k);
            HasStamp(Only(MergeMessages(persisted, live, active), k), l[|l| - 1].capturedAt)
  {
    var l, p := OnlyLive(live, k), Only(persisted, k);
    var last := |l| - 1;
    OnlyHasKey(persisted, k);
    OnlyLiveKey(live, k);
    assert l[last] in l;
    Pigeonhole(origin, |l|);
    if !CopyStored(p, l[last]) {
      forall i | 0 <= i < |origin|
        ensures origin[i] < last
      {
        assert p[i] in p && !IsHit(p[i], l[last]);
      }
      Pigeonhole(origin, last);
    }
    ActiveReplyKeptIff(persisted, live, active, k, last);
  }

  // ---------- any number of active replies, copies in stored order ----------

  /** Every copy has a parseable time, and the times do not decrease. */
  ghost predicate StoredOrder(p: seq<HistoryMessage>) {
    && (forall i :: 0 <= i < |p| ==> Instant(p[i].createdAt).Some?)
    && forall i, j :: 0 <= i < j < |p| ==> Instant(p[i].createdAt).value <= Instant(p[j].createdAt).value
  }

  /** The capture times of the active messages, in order. */
  function ActiveTimes(l: seq<LiveMessage>, active: set<int>): seq<int> {
    if l == [] then []
    else
      var n := |l| - 1;
      if l[n].capturedAt in active then ActiveTimes(l[..n], active) + [l[n].capturedAt] else ActiveTimes(l[..n], active)
  }

  /** The r-th newest copy was stored at or after the r-th oldest active capture, and is not that capture itself. */
  ghost predicate Yields(p: seq<HistoryMessage>, times: seq<int>, r: int) {
    && 0 <= r < |p| && r < |times|
    && var m := p[|p| - 1 - r];
       Instant(m.createdAt).Some? && Instant(m.createdAt).value >= times[r] && m.createdAt != Captured(times[r])
  }

  /** How many copies yield. */
  ghost function Yielding(p: seq<HistoryMessage>, times: seq<int>): nat {
    |set r | 0 <= r < |p| && Yields(p, times, r)|
  }

  /** Exactly the first `r` positions yield. */
  ghost predicate FirstYield(p: seq<HistoryMessage>, times: seq<int>, r: nat) {
    r <= |p| && forall j {:trigger Yields(p, times, j)} :: Yields(p, times, j) <==> 0 <= j < r
  }

  /** The positions below `r`. */
  function Below(r: nat): (s: set<int>)
    ensures |s| == r && forall j :: j in s <==> 0 <= j < r
  {
    if r == 0 then {} else Below(r - 1) + {r - 1}
  }

  lemma YieldingIs(p: seq<HistoryMessage>, times: seq<int>, r: nat)
    requires FirstYield(p, times, r)
    ensures Yielding(p, times) == r
  {
    assert (set j | 0 <= j < |p| && Yields(p, times, j)) == Below(r);
  }

  lemma {:induction false} ReplaceNoHit(p: seq<HistoryMessage>, live: LiveMessage)
    requires forall m :: m in p ==> !IsHit(m, live)
    ensures Replace(p, live) == p
  {
    if p != [] {
      var n := |p| - 1;
      assert p == p[..n] + [p[n]];
      ReplaceNoHit(p[..n], live);
    }
  }

  lemma {:induction false} ActiveTimesEarlier(l: seq<LiveMessage>, active: set<int>, at: int)
    requires forall m :: m in l ==> m.capturedAt < at
    ensures forall j :: 0 <= j < |ActiveTimes(l, active)| ==> ActiveTimes(l, active)[j] < at
  {
    if l != [] {
      var n := |l| - 1;
      assert l == l[..n] + [l[n]];
      ActiveTimesEarlier(l[..n], active, at);
    }
  }

  /** Copies before position `n` are no hits for a capture later than the copy at `n - 1`. */
  lemma OlderAreNoHits(p: seq<HistoryMessage>, n: nat, live: LiveMessage)
    requires StoredOrder(p) && n <= |p| && (n > 0 ==> Instant(p[n - 1].createdAt).value < live.capturedAt)
    ensures Replace(p[..n], live) == p[..n]
  {
    forall m | m in p[..n]
      ensures !IsHit(m, live)
    {
      var j :| 0 <= j < n && p[j] == m;
    }
    ReplaceNoHit(p[..n], live);
  }

  /** One more active reply, the latest so far. */
  lemma ReplaceNext(p: seq<HistoryMessage>, times: seq<int>, r: nat, live: LiveMessage) returns (next: nat)
    requires StoredOrder(p) && FirstYield(p, times, r) && (forall j :: 0 <= j < |times| ==> times[j] < live.capturedAt)
    requires forall m :: m in p ==> KeyOf(m) == LiveKey(live)
    ensures FirstYield(p, times + [live.capturedAt], next)
    ensures Replace(p[..|p| - r], live) == p[..|p| - next]
  {
    var more, n := times + [live.capturedAt], |p| - r;
    assert forall j :: 0 <= j < |times| ==> more[j] == times[j];
    assert forall j :: j != |times| ==> (Yields(p, more, j) <==> Yields(p, times, j));
    assert r <= |times| by {
      assert r > 0 ==> Yields(p, times, r - 1);
    }
    assert !Yields(p, times, r);
    if Yields(p, more, r) {
      assert p[n - 1] in p && p[..n][..n - 1] == p[..n - 1];
      next := r + 1;
    } else {
      next := r;
      if n > 0 && p[n - 1].createdAt == Captured(live.capturedAt) {
        assert p[..n][n - 1] == p[n - 1];
      } else {
        OlderAreNoHits(p, n, live);
      }
    }
  }

  /** Replacing for every active reply drops the newest copies, as many as yield. */
  lemma {:induction false} SortedReplaceAll(p: seq<HistoryMessage>, l: seq<LiveMessage>, active: set<int>)
    returns (r: nat)
    requires StoredOrder(p) && CaptureOrder(l) && (forall m, x :: m in p && x in l ==> KeyOf(m) == LiveKey(x))
    ensures FirstYield(p, ActiveTimes(l, active), r)
    ensures ReplaceAll(p, l, active) == p[..|p| - r]
  {
    if l == [] {
      r := 0;
      assert forall j :: !Yields(p, [], j);
    } else {
      var n := |l| - 1;
      assert l == l[..n] + [l[n]] && l[n] in l;
      r := SortedReplaceAll(p, l[..n], active);
      if l[n].capturedAt in active {
        ActiveTimesEarlier(l[..n], active, l[n].capturedAt);
        r := ReplaceNext(p, ActiveTimes(l[..n], active), r, l[n]);
      }
    }
  }

  /**
   With the copies of a key in stored order, for any active replies: the copies replaced are the newest
   ones that yield to an active capture, and a reply keeps its own time exactly if an older copy carries
   it or the older copies are too few to account for it.
   */
  lemma SortedReplyKeptIff(persisted: seq<HistoryMessage>, live: seq<LiveMessage>, active: set<int>, k: Key, i: nat)
    requires CaptureOrder(OnlyLive(live, k)) && i < |OnlyLive(live, k)| && StoredOrder(Only(persisted, k))
    ensures var p, l := Only(persisted, k), OnlyLive(live, k);
            var r := Yielding(p, ActiveTimes(l, active));
            && r == Replaced(persisted, live, active, k) <= |p|
            && (HasStamp(Only(MergeMessages(persisted, live, active), k), l[i].capturedAt) <==>
                HasStamp(p[..|p| - r], l[i].capturedAt) || |p| - r <= i)
  {
    SortedKept(persisted, live, active, k);
    ReplyKeptIff(persisted, live, active, k, i);
  }

  lemma SortedKept(persisted: seq<HistoryMessage>, live: seq<LiveMessage>, active: set<int>, k: Key)
    requires CaptureOrder(OnlyLive(live, k)) && StoredOrder(Only(persisted, k))
    ensures var p, r := Only(persisted, k), Yielding(Only(persisted, k), ActiveTimes(OnlyLive(live, k), active));
            r <= |p| && Only(ReplaceAll(persisted, live, active), k) == p[..|p| - r]
  {
    var p, l := Only(persisted, k), OnlyLive(live, k);
    OnlyHasKey(persisted, k);
    OnlyLiveKey(live, k);
    var r := SortedReplaceAll(p, l, active);
    YieldingIs(p, ActiveTimes(l, active), r);
    ReplaceAllByKey(persisted, live, active, k);
  }
}
