/**
 What a publication stores, column by column, which memories share a record or an identity, and which
 publication of a run an update time comes from.
 */
module PublicationExact {
  import opened Ids
  import opened Publication
  import Text
  import WhereClause

  // ---------- which memories are the same ----------

  /** Both name the same directory, or the same checkpoint of the same store over the same memories. */
  predicate SameMemory(env: Env, a: Memory, b: Memory) {
    || (a.Directory? && b.Directory? && env.canonical(a.sourcePath) == env.canonical(b.sourcePath))
    || (SameCheckpoint(env, a, b) && a.baseMemoryIds == b.baseMemoryIds)
  }

  predicate SameCheckpoint(env: Env, a: Memory, b: Memory) {
    && a.Checkpoint? && b.Checkpoint?
    && env.canonical(a.backingStore) == env.canonical(b.backingStore) && a.manifestId == b.manifestId
  }

  lemma IdentityMeans(env: Env, a: Memory, b: Memory)
    ensures IdentityOf(env, a) == IdentityOf(env, b) <==> SameMemory(env, a, b)
  {
  }

  ghost predicate Injective(digest: seq<string> -> string) {
    forall x, y :: digest(x) == digest(y) ==> x == y
  }

  /**
   Two memories share a record exactly if they are the same directory or the same checkpoint, whatever it is
   based on.
   */
  lemma RecordMeans(env: Env, a: Memory, b: Memory)
    requires Injective(env.digest)
    ensures RecordId(env, a) == RecordId(env, b) <==> SameMemory(env, a, b) || SameCheckpoint(env, a, b)
  {
    if a.Directory? != b.Directory? {
      KindsDiffer(env, a, b);
    } else if a.Directory? && b.Directory? {
      PrefixCancels("memory_node:filesystem_directory_", env.digest(["directory", env.canonical(a.sourcePath)]),
                    env.digest(["directory", env.canonical(b.sourcePath)]));
      PairCancels("directory", env.canonical(a.sourcePath), env.canonical(b.sourcePath));
    } else if a.Checkpoint? && b.Checkpoint? {
      var x := ["checkpoint", env.canonical(a.backingStore), a.manifestId];
      var y := ["checkpoint", env.canonical(b.backingStore), b.manifestId];
      PrefixCancels("memory_node:filesystem_checkpoint_", env.digest(x), env.digest(y));
      assert x == y <==> x[1] == y[1] && x[2] == y[2];
    }
  }

  lemma PrefixCancels(p: string, x: string, y: string)
    ensures p + x == p + y <==> x == y
  {
    assert (p + x)[|p|..] == x && (p + y)[|p|..] == y;
  }

  lemma PairCancels(kind: string, x: string, y: string)
    ensures [kind, x] == [kind, y] <==> x == y
  {
    assert [kind, x][1] == x && [kind, y][1] == y;
  }

  /** A directory and a checkpoint never share a record. */
  lemma KindsDiffer(env: Env, a: Memory, b: Memory)
    requires a.Directory? != b.Directory?
    ensures RecordId(env, a) != RecordId(env, b)
  {
    var at := |"memory_node:filesystem_"|;
    assert "memory_node:filesystem_directory_"[at] == 'd' && "memory_node:filesystem_checkpoint_"[at] == 'c';
    assert (if a.Directory? then RecordId(env, a) else RecordId(env, b))[at] == 'd';
    assert (if a.Directory? then RecordId(env, b) else RecordId(env, a))[at] == 'c';
  }

  /** Both are spelled alike, which is all that a record without a stored identity can be compared by. */
  predicate SameSpelling(a: Memory, b: Memory) {
    || (a.Directory? && b.Directory? && a.sourcePath == b.sourcePath)
    || (a.Checkpoint? && b.Checkpoint? && a.backingStore == b.backingStore && a.manifestId == b.manifestId &&
        a.baseMemoryIds == b.baseMemoryIds)
  }

  /** A record from before identities were stored gives way exactly to a memory that is spelled like its own. */
  lemma LegacyMeans(a: Memory, m: Memory)
    ensures LegacyMatches(AsContent(a), m) <==> SameSpelling(a, m)
  {
    assert "directory"[0] != "checkpoint"[0];
  }

  /** In a valid store a record conflicts exactly if it is another memory's: by identity, or else by spelling. */
  lemma ConflictMeans(env: Env, s: Store, m: Memory, p: Memory)
    requires Valid(env, s) && RecordId(env, m) in s.records
    requires s.records[RecordId(env, m)].content == AsContent(p)
    ensures var record := s.records[RecordId(env, m)];
            Conflicts(s, RecordId(env, m), m, IdentityOf(env, m)) <==>
            if record.identity.Some? then !SameMemory(env, p, m) else !SameSpelling(p, m)
  {
    ParseStored(p);
    IdentityMeans(env, p, m);
    LegacyMeans(p, m);
  }

  // ---------- what is stored ----------

  /** The stored tags: the tags without surrounding whitespace, blank ones left out, each once. */
  lemma TagsStoredOnce(tags: seq<string>)
    ensures var r := WhereClause.NormalizedTags(tags);
            && NoDup(r) && forall t :: t in r <==> t != "" && exists x :: x in tags && Text.Strip(x) == t
  {
    CleanTermsMean(tags);
    var terms := WhereClause.CleanTerms(tags);
    assert forall t :: t in WhereClause.NormalizedTags(tags) <==> t in terms;
  }

  lemma {:induction false} CleanTermsMean(terms: seq<string>)
    ensures forall t :: t in WhereClause.CleanTerms(terms) <==> t != "" && exists x :: x in terms && Text.Strip(x) == t
  {
    if terms != [] {
      var n := |terms| - 1;
      assert terms == terms[..n] + [terms[n]];
      CleanTermsMean(terms[..n]);
    }
  }

  /**
   A publication without a conflict, column by column: the record holds the memory and its tags, its update
   time is the publication's exactly if it is new or either changed, its other times are kept, it has one root
   edge, and no other record or edge changes.
   */
  lemma StoredExactly(env: Env, s: Store, m: Memory, tags: seq<string>, now: int)
    requires !Conflicts(s, RecordId(env, m), m, IdentityOf(env, m))
    ensures var id, t := RecordId(env, m), Publish(env, s, m, tags, now).0;
            && t.records.Keys == s.records.Keys + {id} && Parse(t.records[id].content) == Some(m)
            && t.records[id].tags == WhereClause.NormalizedTags(tags)
            && t.records[id].identity == Some(IdentityOf(env, m))
            && (id !in s.records ==>
                t.records[id].createdAt == now && t.records[id].updatedAt == now && t.records[id].readAt.None?)
            && (id in s.records ==>
                var a, b := s.records[id], t.records[id];
                && b.createdAt == a.createdAt && b.readAt == a.readAt
                && b.updatedAt == if b.tags != a.tags || b.content != a.content then now else a.updatedAt)
            && (forall other :: other in s.records && other != id ==> t.records[other] == s.records[other])
            && t.edges[(ROOT_ID, id)] == 1
            && forall edge :: edge != (ROOT_ID, id) ==> t.edges[edge] == s.edges[edge]
  {
    ParseStored(m);
  }

  /** After one publication, what the next one comes to: only a checkpoint over other memories collides with it. */
  lemma NextPublication(env: Env, s: Store, a: Memory, tags: seq<string>, now: int, b: Memory, more: seq<string>,
                        later: int)
    requires Injective(env.digest) && Valid(env, s) && !Conflicts(s, RecordId(env, a), a, IdentityOf(env, a))
    ensures var t := Publish(env, s, a, tags, now).0; var r := Publish(env, t, b, more, later).1;
            if SameMemory(env, a, b) then r.Published?
            else if SameCheckpoint(env, a, b) then r == Collision
            else r == Publish(env, s, b, more, later).1
  {
    var t := Publish(env, s, a, tags, now).0;
    PublishKeepsValid(env, s, a, tags, now);
    StoredExactly(env, s, a, tags, now);
    RecordMeans(env, a, b);
    IdentityMeans(env, a, b);
    hide RecordId, IdentityOf, Transaction, WhereClause.NormalizedTags;
    if RecordId(env, a) == RecordId(env, b) {
      OutcomeExactly(env, t, b, more, later);
    } else {
      OutcomeElsewhere(env, s, t, b, more, later);
    }
  }

  /** The outcome of a publication depends on its own record alone. */
  lemma OutcomeElsewhere(env: Env, s: Store, t: Store, m: Memory, tags: seq<string>, now: int)
    requires var id := RecordId(env, m);
             (id in s.records <==> id in t.records) && (id in s.records ==> s.records[id] == t.records[id])
    ensures Publish(env, t, m, tags, now).1 == Publish(env, s, m, tags, now).1
  {
  }

  /** Reading a record moves its read time and nothing else. */
  lemma ReadExactly(env: Env, s: Store, id: Id, now: int)
    ensures var t := Step(env, s, ReadOp(id, now));
            && t.edges == s.edges && t.records.Keys == s.records.Keys
            && (id in s.records ==> t.records[id] == s.records[id].(readAt := Some(now)))
            && forall other :: other in s.records && other != id ==> t.records[other] == s.records[other]
  {
  }

  // ---------- update times over runs ----------

  /** The operation at `k` creates the record or changes its content or tags. */
  ghost predicate ChangesAt(env: Env, s: Store, ops: seq<Op>, k: nat, id: Id) {
    k < |ops| &&
    var a, b := Run(env, s, ops[..k]).records, Run(env, s, ops[..k + 1]).records;
    id in b && (id !in a || b[id].content != a[id].content || b[id].tags != a[id].tags)
  }

  ghost predicate LastChange(env: Env, s: Store, ops: seq<Op>, k: nat, id: Id) {
    ChangesAt(env, s, ops, k, id) && forall j: nat :: j > k ==> !ChangesAt(env, s, ops, j, id)
  }

  lemma PrefixChanges(env: Env, s: Store, ops: seq<Op>, k: nat, id: Id)
    requires k + 1 < |ops|
    ensures ChangesAt(env, s, ops, k, id) <==> ChangesAt(env, s, ops[..|ops| - 1], k, id)
  {
    assert ops[..|ops| - 1][..k] == ops[..k] && ops[..|ops| - 1][..k + 1] == ops[..k + 1];
  }

  /** One step gives a record a new update time exactly if it creates it or changes its content or tags. */
  lemma StepUpdates(env: Env, s: Store, op: Op, id: Id)
    ensures var t := Step(env, s, op);
            && (id in s.records ==> id in t.records)
            && (id in t.records ==>
                if id !in s.records || t.records[id].content != s.records[id].content ||
                   t.records[id].tags != s.records[id].tags
                then op.PublishOp? && t.records[id].updatedAt == op.now
                else t.records[id].updatedAt == s.records[id].updatedAt)
  {
    if op.PublishOp? && !Conflicts(s, RecordId(env, op.memory), op.memory, IdentityOf(env, op.memory)) {
      StoredExactly(env, s, op.memory, op.tags, op.now);
    }
  }

  /** `at` is the time of the last change, or the one at the start if nothing changed. */
  ghost predicate TimeOfLastChange(env: Env, s: Store, ops: seq<Op>, id: Id, at: int) {
    && ((forall k: nat :: !ChangesAt(env, s, ops, k, id)) ==> id in s.records && at == s.records[id].updatedAt)
    && forall k: nat :: LastChange(env, s, ops, k, id) ==> ops[k].PublishOp? && at == ops[k].now
  }

  lemma ChangesInside(env: Env, s: Store, ops: seq<Op>, id: Id)
    ensures forall k: nat :: ChangesAt(env, s, ops, k, id) ==> k < |ops|
  {
  }

  /** The last operation changes the record. */
  lemma ChangedLast(env: Env, s: Store, ops: seq<Op>, id: Id, at: int)
    requires ops != [] && ChangesAt(env, s, ops, |ops| - 1, id)
    requires ops[|ops| - 1].PublishOp? && at == ops[|ops| - 1].now
    ensures TimeOfLastChange(env, s, ops, id, at)
  {
    ChangesInside(env, s, ops, id);
    hide ChangesAt;
  }

  /** If the last operation changes nothing, the changes are those of the operations before it. */
  lemma ChangesBefore(env: Env, s: Store, ops: seq<Op>, id: Id)
    requires ops != [] && !ChangesAt(env, s, ops, |ops| - 1, id)
    ensures var init := ops[..|ops| - 1];
            && (forall k: nat :: ChangesAt(env, s, ops, k, id) <==> ChangesAt(env, s, init, k, id))
            && forall k: nat :: ChangesAt(env, s, init, k, id) ==> k < |init|
  {
    var init := ops[..|ops| - 1];
    ChangesInside(env, s, ops, id);
    ChangesInside(env, s, init, id);
    hide ChangesAt;
    forall k: nat
      ensures ChangesAt(env, s, ops, k, id) <==> ChangesAt(env, s, init, k, id)
    {
      if k + 1 < |ops| {
        PrefixChanges(env, s, ops, k, id);
      }
    }
  }

  /** The last operation leaves the record as it was. */
  lemma ChangedEarlier(env: Env, s: Store, ops: seq<Op>, id: Id, at: int)
    requires ops != [] && !ChangesAt(env, s, ops, |ops| - 1, id)
    requires TimeOfLastChange(env, s, ops[..|ops| - 1], id, at)
    ensures TimeOfLastChange(env, s, ops, id, at)
  {
    hide ChangesAt, LastChange, Run, Step;
    var init := ops[..|ops| - 1];
    ChangesBefore(env, s, ops, id);
    LastChangeSame(env, s, ops, init, id);
    forall k: nat | LastChange(env, s, ops, k, id)
      ensures ops[k].PublishOp? && at == ops[k].now
    {
      assert init[k] == ops[k];
    }
  }

  lemma LastChangeSame(env: Env, s: Store, ops: seq<Op>, init: seq<Op>, id: Id)
    requires forall k: nat :: ChangesAt(env, s, ops, k, id) <==> ChangesAt(env, s, init, k, id)
    requires forall k: nat :: ChangesAt(env, s, init, k, id) ==> k < |init|
    ensures forall k: nat :: LastChange(env, s, ops, k, id) ==> LastChange(env, s, init, k, id) && k < |init|
  {
    hide ChangesAt;
  }

  /**
   Over every run the update time of a record is that of the last operation that created it or changed its
   content or tags, and as it was if there is none.
   */
  lemma {:induction false} UpdatedByLastChange(env: Env, s: Store, ops: seq<Op>, id: Id)
    requires id in Run(env, s, ops).records
    ensures TimeOfLastChange(env, s, ops, id, Run(env, s, ops).records[id].updatedAt)
  {
    if ops != [] {
      var n := |ops| - 1;
      assert ops[..n + 1] == ops;
      StepUpdates(env, Run(env, s, ops[..n]), ops[n], id);
      hide Step, TimeOfLastChange;
      var at := Run(env, s, ops).records[id].updatedAt;
      if ChangesAt(env, s, ops, n, id) {
        ChangedLast(env, s, ops, id, at);
      } else {
        UpdatedByLastChange(env, s, ops[..n], id);
        ChangedEarlier(env, s, ops, id, at);
      }
    }
  }
}
