/** Record ids and small option/sequence vocabulary shared by the memory modules. */
module Ids {
  datatype Option<+T> = None | Some(value: T)

  predicate IsIdChar(c: char) {
    'A' <= c <= 'Z' || 'a' <= c <= 'z' || '0' <= c <= '9' || c == '_' || c == '-'
  }

  const MEMORY_NODE_PREFIX := "memory_node:"

  /** `memory_node_record_id` accepts exactly the ids that match `memory_node:[A-Za-z0-9_-]+`. */
  predicate IsRecordId(id: string) {
    MEMORY_NODE_PREFIX < id && forall i :: |MEMORY_NODE_PREFIX| <= i < |id| ==> IsIdChar(id[i])
  }

  /** `tuple(dict.fromkeys(xs))`: the first occurrence of each element, in order. */
  function Dedup<T(==)>(xs: seq<T>): (r: seq<T>)
    ensures forall i :: 0 <= i < |xs| ==> xs[i] in r
    ensures forall i :: 0 <= i < |r| ==> r[i] in xs
    ensures NoDup(r)
    ensures NoDup(xs) ==> r == xs
  {
    if xs == [] then []
    else
      var n := |xs| - 1;
      var init := Dedup(xs[..n]);
      assert xs == xs[..n] + [xs[n]];
      if xs[n] in init then
        assert xs[n] in xs[..n];
        init
      else init + [xs[n]]
  }

  ghost predicate NoDup<T>(xs: seq<T>) {
    forall i, j :: 0 <= i < j < |xs| ==> xs[i] != xs[j]
  }

  /** Pigeonhole: distinct naturals below `n` number at most `n`. */
  lemma {:induction false} Pigeonhole(f: seq<nat>, n: nat)
    requires NoDup(f)
    requires forall i :: 0 <= i < |f| ==> f[i] < n
    ensures |f| <= n
  {
    if f != [] {
      assert f[0] < n;
      var k := if exists i :: 0 <= i < |f| && f[i] == n - 1 then (var i :| 0 <= i < |f| && f[i] == n - 1; i) else 0;
      var g := f[..k] + f[k + 1..];
      Pigeonhole(g, n - 1);
    }
  }
}
