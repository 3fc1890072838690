/**
 Rewriting length-prefixed strings inside generated bytecode (agent-host baml_artifacts.py). A Borsh
 String is a 32-bit little-endian byte length followed by that many bytes.
 */
module Borsh {
  import opened Ids

  newtype byte = x: int | 0 <= x < 256
  type Bytes = seq<byte>

  const U32_LIMIT := 0x1_0000_0000

  /** `struct.pack("<I", n)`. */
  function PackU32(n: nat): (r: Bytes)
    requires n < U32_LIMIT
    ensures |r| == 4
  {
    [(n % 256) as byte, (n / 0x100 % 256) as byte, (n / 0x1_0000 % 256) as byte, (n / 0x100_0000) as byte]
  }

  /** `struct.unpack_from("<I", bytes, at)`. */
  function UnpackU32(b: Bytes, at: nat): nat
    requires at + 4 <= |b|
  {
    b[at] as nat + b[at + 1] as nat * 0x100 + b[at + 2] as nat * 0x1_0000 + b[at + 3] as nat * 0x100_0000
  }

  lemma PackUnpack(n: nat)
    requires n < U32_LIMIT
    ensures UnpackU32(PackU32(n), 0) == n
  {
    var b0, b1, b2, b3 := n % 256, n / 0x100 % 256, n / 0x1_0000 % 256, n / 0x100_0000;
    assert n / 0x1_0000 == n / 0x100 / 0x100 && n / 0x100_0000 == n / 0x1_0000 / 0x100;
    assert n == b0 + 0x100 * (n / 0x100) && n / 0x100 == b1 + 0x100 * (n / 0x1_0000);
    assert n / 0x1_0000 == b2 + 0x100 * b3;
  }

  // ---------- splicing ----------

  /** A replacement ends at `end` and puts `stable` in place of the string it covers. */
  datatype Replacement = Replacement(end: nat, stable: Bytes)

  /** Python's `b[i:j]`. */
  function Slice(b: Bytes, i: nat, j: nat): Bytes {
    if i >= |b| || j <= i then [] else if j <= |b| then b[i..j] else b[i..]
  }

  ghost predicate Ascending(keys: seq<nat>) {
    forall i, j :: 0 <= i < j < |keys| ==> keys[i] < keys[j]
  }

  lemma {:induction false} SmallestExists(keys: set<nat>, x: nat)
    requires x in keys
    ensures exists m :: m in keys && forall k :: k in keys ==> m <= k
    decreases x
  {
    if y :| y in keys && y < x {
      SmallestExists(keys, y);
    }
  }

  /** `sorted(...)` of the replacement positions. */
  function SortedKeys(keys: set<nat>): (r: seq<nat>)
    ensures forall k :: k in r <==> k in keys
    decreases |keys|
  {
    if keys == {} then []
    else
      var m := Smallest(keys);
      [m] + SortedKeys(keys - {m})
  }

  function Smallest(keys: set<nat>): (m: nat)
    requires keys != {}
    ensures m in keys && forall k :: k in keys ==> m <= k
  {
    assert exists m :: m in keys && forall k :: k in keys ==> m <= k by {
      var x :| x in keys;
      SmallestExists(keys, x);
    }
    var m :| m in keys && forall k :: k in keys ==> m <= k;
    m
  }

  lemma {:induction false} SortedKeysAscend(keys: set<nat>)
    ensures Ascending(SortedKeys(keys))
    decreases |keys|
  {
    if keys != {} {
      var m := Smallest(keys);
      var rest := SortedKeys(keys - {m});
      SortedKeysAscend(keys - {m});
      AscendingCons(m, rest);
    }
  }

  lemma AscendingCons(m: nat, rest: seq<nat>)
    requires Ascending(rest) && forall k :: k in rest ==> m < k
    ensures Ascending([m] + rest)
  {
    assert forall i :: 0 <= i < |rest| ==> rest[i] in rest;
  }

  /** The output from `cursor` on; None stands for a length that does not fit the prefix. */
  function SpliceFrom(b: Bytes, keys: seq<nat>, m: map<nat, Replacement>, cursor: nat): Option<Bytes>
    requires forall k :: k in keys ==> k in m
  {
    if keys == [] then Some(Slice(b, cursor, |b|))
    else if keys[0] < cursor then SpliceFrom(b, keys[1..], m, cursor)
    else
      var r := m[keys[0]];
      if |r.stable| >= U32_LIMIT then None
      else
        Prepend(Slice(b, cursor, keys[0]) + PackU32(|r.stable|) + r.stable, SpliceFrom(b, keys[1..], m, r.end))
  }

  function Prepend(head: Bytes, tail: Option<Bytes>): Option<Bytes> {
    if tail.None? then None else Some(head + tail.value)
  }

  lemma PrependPrepend(a: Bytes, b: Bytes, c: Option<Bytes>)
    ensures Prepend(a, Prepend(b, c)) == Prepend(a + b, c)
  {
    if c.Some? {
      assert a + (b + c.value) == (a + b) + c.value;
    }
  }

  /** `_apply_replacements`. */
  method ApplyReplacements(b: Bytes, m: map<nat, Replacement>) returns (r: Option<Bytes>)
    ensures r == SpliceFrom(b, SortedKeys(m.Keys), m, 0)
  {
    var keys := SortedKeys(m.Keys);
    var output: Bytes, cursor: nat := [], 0;
    var i := 0;
    assert keys[0..] == keys;
    ghost var all := SpliceFrom(b, keys, m, 0);
    assert all.Some? ==> [] + all.value == all.value;
    while i < |keys|
      invariant 0 <= i <= |keys|
      invariant SpliceFrom(b, keys, m, 0) == Prepend(output, SpliceFrom(b, keys[i..], m, cursor))
    {
      var prefixAt, replacement := keys[i], m[keys[i]];
      assert keys[i..][1..] == keys[i + 1..] && keys[i..][0] == prefixAt;
      i := i + 1;
      if prefixAt < cursor {
        continue;
      }
      if |replacement.stable| >= U32_LIMIT {
        return None;
      }
      var piece := Slice(b, cursor, prefixAt) + PackU32(|replacement.stable|) + replacement.stable;
      PrependPrepend(output, piece, SpliceFrom(b, keys[i..], m, replacement.end));
      output := output + piece;
      cursor := replacement.end;
    }
    return Some(output + Slice(b, cursor, |b|));
  }

  // ---------- layouts ----------

  /** A buffer as opaque bytes and length-prefixed strings. */
  datatype Item = Opaque(bytes: Bytes) | Text(bytes: Bytes)

  predicate Fits(item: Item) {
    item.Text? ==> |item.bytes| < U32_LIMIT
  }

  ghost predicate AllFit(items: seq<Item>) {
    forall i :: 0 <= i < |items| ==> Fits(items[i])
  }

  function EncodeItem(item: Item): (r: Bytes)
    requires Fits(item)
    ensures |r| == |item.bytes| + if item.Text? then 4 else 0
  {
    match item
    case Opaque(bytes) => bytes
    case Text(bytes) => PackU32(|bytes|) + bytes
  }

  function Encode(items: seq<Item>): Bytes
    requires AllFit(items)
  {
    if items == [] then [] else Encode(items[..|items| - 1]) + EncodeItem(items[|items| - 1])
  }

  /** Where item `k` starts. */
  function Offset(items: seq<Item>, k: nat): nat
    requires AllFit(items) && k <= |items|
  {
    |Encode(items[..k])|
  }

  lemma OffsetStep(items: seq<Item>, k: nat)
    requires AllFit(items) && k < |items|
    ensures Encode(items[..k + 1]) == Encode(items[..k]) + EncodeItem(items[k])
    ensures Offset(items, k + 1) == Offset(items, k) + |EncodeItem(items[k])|
  {
    assert items[..k + 1][..k] == items[..k];
  }

  lemma {:induction false} EncodePrefix(items: seq<Item>, k: nat)
    requires AllFit(items) && k <= |items|
    ensures Offset(items, k) <= |Encode(items)| && Encode(items)[..Offset(items, k)] == Encode(items[..k])
    decreases |items| - k
  {
    if k == |items| {
      assert items[..k] == items;
    } else {
      OffsetStep(items, k);
      EncodePrefix(items, k + 1);
      assert Encode(items)[..Offset(items, k)] == Encode(items)[..Offset(items, k + 1)][..Offset(items, k)];
    }
  }

  /** Item `k` occupies the bytes between its offset and the next one. */
  lemma ItemBytes(items: seq<Item>, k: nat)
    requires AllFit(items) && k < |items|
    ensures Offset(items, k) <= Offset(items, k + 1) <= |Encode(items)|
    ensures Encode(items)[Offset(items, k)..Offset(items, k + 1)] == EncodeItem(items[k])
  {
    OffsetStep(items, k);
    EncodePrefix(items, k);
    EncodePrefix(items, k + 1);
    assert Encode(items)[Offset(items, k)..Offset(items, k + 1)] ==
           Encode(items)[..Offset(items, k + 1)][Offset(items, k)..];
  }

  lemma {:induction false} OffsetMonotone(items: seq<Item>, j: nat, k: nat)
    requires AllFit(items) && j <= k <= |items|
    ensures Offset(items, j) <= Offset(items, k)
    decreases k
  {
    if j < k {
      hide Offset;
      OffsetStep(items, k - 1);
      OffsetMonotone(items, j, k - 1);
    }
  }

  // ---------- rewriting some strings of a layout ----------

  /** New bytes for some of the strings, by item number. */
  ghost predicate ValidChanges(items: seq<Item>, changes: map<nat, Bytes>) {
    forall k :: k in changes ==> k < |items| && items[k].Text? && |changes[k]| < U32_LIMIT
  }

  /** The same layout with the changed strings in place. */
  function Rewritten(items: seq<Item>, changes: map<nat, Bytes>): (r: seq<Item>)
    ensures |r| == |items|
  {
    seq(|items|, k requires 0 <= k < |items| => if k in changes then Text(changes[k]) else items[k])
  }

  /** The replacement map covers exactly the changed strings, at their positions in the buffer. */
  ghost predicate Covers(items: seq<Item>, changes: map<nat, Bytes>, m: map<nat, Replacement>)
    requires AllFit(items)
  {
    && (forall k :: k in changes ==>
          k < |items| && Offset(items, k) in m &&
          m[Offset(items, k)] == Replacement(Offset(items, k + 1), changes[k]))
    && forall p :: p in m ==> exists k :: k in changes && p == Offset(items, k)
  }

  /** The keys still to come are the positions of the changed strings from item `k` on, in order. */
  ghost predicate KeysFrom(items: seq<Item>, changes: map<nat, Bytes>, k: nat, keys: seq<nat>)
    requires AllFit(items) && ValidChanges(items, changes)
  {
    && Ascending(keys)
    && (forall j :: j in changes && j >= k ==> Offset(items, j) in keys)
    && forall p :: p in keys ==> exists j :: j in changes && j >= k && p == Offset(items, j)
  }

  lemma KeyBounds(items: seq<Item>, changes: map<nat, Bytes>, k: nat, keys: seq<nat>)
    requires AllFit(items) && ValidChanges(items, changes) && KeysFrom(items, changes, k, keys) && k <= |items|
    ensures forall p :: p in keys ==> Offset(items, k) <= p
  {
    forall p | p in keys
      ensures Offset(items, k) <= p
    {
      var j :| j in changes && j >= k && p == Offset(items, j);
      OffsetMonotone(items, k, j);
    }
  }

  /** A changed string is at least its prefix long, so every later position is beyond its own. */
  lemma ChangedAdvances(items: seq<Item>, changes: map<nat, Bytes>, k: nat, j: nat)
    requires AllFit(items) && ValidChanges(items, changes) && k in changes && j > k && j <= |items|
    ensures Offset(items, k) + 4 <= Offset(items, j)
  {
    OffsetStep(items, k);
    OffsetMonotone(items, k + 1, j);
  }

  lemma KeysSkip(items: seq<Item>, changes: map<nat, Bytes>, k: nat, keys: seq<nat>)
    requires AllFit(items) && ValidChanges(items, changes) && KeysFrom(items, changes, k, keys) && k !in changes
    ensures KeysFrom(items, changes, k + 1, keys)
  {
  }

  lemma FirstKey(items: seq<Item>, changes: map<nat, Bytes>, k: nat, keys: seq<nat>)
    requires AllFit(items) && ValidChanges(items, changes) && KeysFrom(items, changes, k, keys) && k in changes
    ensures keys != [] && keys[0] == Offset(items, k)
  {
    KeyBounds(items, changes, k, keys);
    var i :| 0 <= i < |keys| && keys[i] == Offset(items, k);
    assert keys[0] in keys;
  }

  lemma InTail(keys: seq<nat>, p: nat)
    requires Ascending(keys) && keys != []
    ensures p in keys[1..] <==> p in keys && p != keys[0]
  {
    if p in keys && p != keys[0] {
      var i :| 0 <= i < |keys| && keys[i] == p;
      assert keys[1..][i - 1] == p;
    }
  }

  lemma KeysTake(items: seq<Item>, changes: map<nat, Bytes>, k: nat, keys: seq<nat>)
    requires AllFit(items) && ValidChanges(items, changes) && KeysFrom(items, changes, k, keys) && k in changes
    ensures keys != [] && keys[0] == Offset(items, k) && KeysFrom(items, changes, k + 1, keys[1..])
  {
    FirstKey(items, changes, k, keys);
    forall j | j in changes && j >= k + 1
      ensures Offset(items, j) in keys[1..]
    {
      ChangedAdvances(items, changes, k, j);
      InTail(keys, Offset(items, j));
    }
    forall p | p in keys[1..]
      ensures exists j :: j in changes && j >= k + 1 && p == Offset(items, j)
    {
      InTail(keys, p);
      var j :| j in changes && j >= k && p == Offset(items, j);
      assert j != k;
    }
  }

  lemma RewrittenFits(items: seq<Item>, changes: map<nat, Bytes>)
    requires AllFit(items) && ValidChanges(items, changes)
    ensures AllFit(Rewritten(items, changes))
  {
  }

  function EncodeFrom(items: seq<Item>, k: nat): Bytes
    requires AllFit(items) && k <= |items|
    decreases |items| - k
  {
    if k == |items| then [] else EncodeItem(items[k]) + EncodeFrom(items, k + 1)
  }

  lemma Rejoin(a: Bytes, b: Bytes, c: Bytes)
    ensures a + (b + c) == (a + b) + c
  {
  }

  lemma {:induction false} EncodeFromRest(items: seq<Item>, k: nat)
    requires AllFit(items) && k <= |items|
    ensures Encode(items) == Encode(items[..k]) + EncodeFrom(items, k)
    decreases |items| - k
  {
    if k == |items| {
      assert items[..k] == items && Encode(items) + [] == Encode(items);
    } else {
      EncodeFromRest(items, k + 1);
      OffsetStep(items, k);
      Rejoin(Encode(items[..k]), EncodeItem(items[k]), EncodeFrom(items, k + 1));
    }
  }

  lemma SliceJoin(b: Bytes, i: nat, j: nat, k: nat)
    requires i <= j <= k <= |b|
    ensures Slice(b, i, k) == Slice(b, i, j) + b[j..k]
  {
  }

  /** The spliced output of one changed string. */
  lemma SpliceChanged(items: seq<Item>, changes: map<nat, Bytes>, m: map<nat, Replacement>, k: nat, keys: seq<nat>,
                      cursor: nat, rest: Bytes)
    requires AllFit(items) && ValidChanges(items, changes) && Covers(items, changes, m) && k in changes
    requires keys != [] && keys[0] == Offset(items, k) && (forall p :: p in keys ==> p in m) &&
             cursor <= Offset(items, k)
    requires SpliceFrom(Encode(items), keys[1..], m, Offset(items, k + 1)) == Some(rest)
    ensures SpliceFrom(Encode(items), keys, m, cursor) ==
            Some(Slice(Encode(items), cursor, Offset(items, k)) + (EncodeItem(Text(changes[k])) + rest))
  {
    var head, length, bytes := Slice(Encode(items), cursor, Offset(items, k)), PackU32(|changes[k]|), changes[k];
    Rejoin(head, length, bytes);
    Rejoin(head, length + bytes, rest);
  }

  /** The pending bytes up to the next item, with an unchanged item split off. */
  lemma SpliceKept(items: seq<Item>, k: nat, cursor: nat, rest: Bytes)
    requires AllFit(items) && k < |items| && cursor <= Offset(items, k)
    ensures Slice(Encode(items), cursor, Offset(items, k + 1)) + rest ==
            Slice(Encode(items), cursor, Offset(items, k)) + (EncodeItem(items[k]) + rest)
  {
    ItemBytes(items, k);
    SliceJoin(Encode(items), cursor, Offset(items, k), Offset(items, k + 1));
    Rejoin(Slice(Encode(items), cursor, Offset(items, k)), EncodeItem(items[k]), rest);
  }

  /** From item `k` on, splicing yields the pending bytes and then the rewritten items. */
  ghost predicate Spliced(items: seq<Item>, changes: map<nat, Bytes>, k: nat, cursor: nat, output: Option<Bytes>)
    requires AllFit(items) && AllFit(Rewritten(items, changes)) && k <= |items|
  {
    output == Some(Slice(Encode(items), cursor, Offset(items, k)) + EncodeFrom(Rewritten(items, changes), k))
  }

  lemma SpliceChangedStep(items: seq<Item>, changes: map<nat, Bytes>, m: map<nat, Replacement>, k: nat, keys: seq<nat>,
                          cursor: nat)
    requires AllFit(items) && ValidChanges(items, changes) && Covers(items, changes, m) && k in changes
    requires keys != [] && keys[0] == Offset(items, k) && (forall p :: p in keys ==> p in m) &&
             cursor <= Offset(items, k)
    requires AllFit(Rewritten(items, changes))
    requires Spliced(items, changes, k + 1, Offset(items, k + 1),
                     SpliceFrom(Encode(items), keys[1..], m, Offset(items, k + 1)))
    ensures Spliced(items, changes, k, cursor, SpliceFrom(Encode(items), keys, m, cursor))
  {
    var rest := EncodeFrom(Rewritten(items, changes), k + 1);
    assert Slice(Encode(items), Offset(items, k + 1), Offset(items, k + 1)) + rest == rest;
    SpliceChanged(items, changes, m, k, keys, cursor, rest);
  }

  lemma SpliceKeptStep(items: seq<Item>, changes: map<nat, Bytes>, k: nat, cursor: nat, output: Option<Bytes>)
    requires AllFit(items) && AllFit(Rewritten(items, changes)) && k < |items| && k !in changes &&
             cursor <= Offset(items, k)
    requires Spliced(items, changes, k + 1, cursor, output)
    ensures Spliced(items, changes, k, cursor, output)
  {
    SpliceKept(items, k, cursor, EncodeFrom(Rewritten(items, changes), k + 1));
  }

  lemma {:induction false} SpliceItems(items: seq<Item>, changes: map<nat, Bytes>, m: map<nat, Replacement>, k: nat,
                                       keys: seq<nat>, cursor: nat)
    requires AllFit(items) && ValidChanges(items, changes) && Covers(items, changes, m) && k <= |items|
    requires KeysFrom(items, changes, k, keys) && (forall p :: p in keys ==> p in m) && cursor <= Offset(items, k)
    requires AllFit(Rewritten(items, changes))
    ensures Spliced(items, changes, k, cursor, SpliceFrom(Encode(items), keys, m, cursor))
    decreases |items| - k
  {
    if k == |items| {
      var b := Encode(items);
      NoKeys(items, changes, keys);
      assert items[..k] == items && Slice(b, cursor, |b|) + [] == Slice(b, cursor, |b|);
    } else {
      OffsetMonotone(items, k, k + 1);
      if k in changes {
        KeysTake(items, changes, k, keys);
        SpliceItems(items, changes, m, k + 1, keys[1..], Offset(items, k + 1));
        SpliceChangedStep(items, changes, m, k, keys, cursor);
      } else {
        KeysSkip(items, changes, k, keys);
        SpliceItems(items, changes, m, k + 1, keys, cursor);
        SpliceKeptStep(items, changes, k, cursor, SpliceFrom(Encode(items), keys, m, cursor));
      }
    }
  }

  lemma KeyOrigin(items: seq<Item>, changes: map<nat, Bytes>, k: nat, keys: seq<nat>) returns (j: nat)
    requires AllFit(items) && ValidChanges(items, changes) && KeysFrom(items, changes, k, keys) && keys != []
    ensures j in changes && j >= k
  {
    assert keys[0] in keys;
    j :| j in changes && j >= k && keys[0] == Offset(items, j);
  }

  lemma NoKeys(items: seq<Item>, changes: map<nat, Bytes>, keys: seq<nat>)
    requires AllFit(items) && ValidChanges(items, changes) && KeysFrom(items, changes, |items|, keys)
    ensures keys == []
  {
    if keys != [] {
      var _ := KeyOrigin(items, changes, |items|, keys);
    }
  }

  /**
   Rewriting any set of strings of any layout yields the same layout with those strings replaced: the
   prefixes carry the new lengths and every other byte is unchanged.
   */
  lemma RewriteKeepsLayout(items: seq<Item>, changes: map<nat, Bytes>, m: map<nat, Replacement>)
    requires AllFit(items) && ValidChanges(items, changes) && Covers(items, changes, m)
    ensures AllFit(Rewritten(items, changes))
    ensures SpliceFrom(Encode(items), SortedKeys(m.Keys), m, 0) == Some(Encode(Rewritten(items, changes)))
  {
    RewrittenFits(items, changes);
    SortedKeysAscend(m.Keys);
    assert items[..0] == [] && Rewritten(items, changes)[..0] == [];
    SpliceItems(items, changes, m, 0, SortedKeys(m.Keys), 0);
    EncodeFromRest(Rewritten(items, changes), 0);
  }

  /** Reading a string of a layout back at its position: the prefix is its length and the bytes follow. */
  lemma StringReadsBack(items: seq<Item>, k: nat)
    requires AllFit(items) && k < |items| && items[k].Text?
    ensures var b, at := Encode(items), Offset(items, k);
            && at + 4 + |items[k].bytes| <= |b|
            && UnpackU32(b, at) == |items[k].bytes|
            && b[at + 4..at + 4 + |items[k].bytes|] == items[k].bytes
  {
    TextBytes(items, k);
    PrefixedReads(Encode(items), Offset(items, k), items[k].bytes);
  }

  lemma TextBytes(items: seq<Item>, k: nat)
    requires AllFit(items) && k < |items| && items[k].Text?
    ensures var b, at, end := Encode(items), Offset(items, k), Offset(items, k) + 4 + |items[k].bytes|;
            end <= |b| && b[at..end] == PackU32(|items[k].bytes|) + items[k].bytes
  {
    OffsetStep(items, k);
    ItemBytes(items, k);
  }

  lemma PrefixedReads(b: Bytes, at: nat, bytes: Bytes)
    requires |bytes| < U32_LIMIT && at + 4 + |bytes| <= |b| && b[at..at + 4 + |bytes|] == PackU32(|bytes|) + bytes
    ensures UnpackU32(b, at) == |bytes| && b[at + 4..at + 4 + |bytes|] == bytes
  {
    var e := b[at..at + 4 + |bytes|];
    assert b[at] == e[0] && b[at + 1] == e[1] && b[at + 2] == e[2] && b[at + 3] == e[3];
    PackUnpack(|bytes|);
    assert b[at + 4..at + 4 + |bytes|] == e[4..];
  }
}
