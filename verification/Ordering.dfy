/** The sorts that make the exporters' output independent of map iteration order. */
module Ordering {
  import opened Graphs
  import opened Arrangements

  // Sort keys of a person: a missing key reads as 0.
  function KeyOf(keys: map<Uuid, int>, v: Uuid): int {
    if v in keys then keys[v] else 0
  }

  // By key first, by UUID among equal keys: a strict total order.
  predicate Before(keys: map<Uuid, int>, a: Uuid, b: Uuid) {
    KeyOf(keys, a) < KeyOf(keys, b) || (KeyOf(keys, a) == KeyOf(keys, b) && a < b)
  }

  predicate SortedBy(keys: map<Uuid, int>, s: seq<Uuid>) {
    forall i, j :: 0 <= i < j < |s| ==> Before(keys, s[i], s[j])
  }

  predicate Distinct(s: seq<Uuid>) {
    forall i, j :: 0 <= i < j < |s| ==> s[i] != s[j]
  }

  ghost predicate SameMembers(a: seq<Uuid>, b: seq<Uuid>) {
    forall v :: v in a <==> v in b
  }

  function ByKey(keys: map<Uuid, int>): (Uuid, Uuid) -> bool {
    (a: Uuid, b: Uuid) => Before(keys, a, b)
  }

  lemma KeysAreOrdered(keys: map<Uuid, int>)
    ensures TotalOrder(ByKey(keys))
    ensures forall s :: SortedBy(keys, s) <==> Ascending(ByKey(keys), s)
  {
  }

  // Sorts IDs that come from map keys, hence without repetitions.
  method Sort(keys: map<Uuid, int>, values: seq<Uuid>) returns (sorted: seq<Uuid>)
    requires Distinct(values)
    ensures SortedBy(keys, sorted) && Distinct(sorted) && SameMembers(sorted, values) && |sorted| == |values|
  {
    KeysAreOrdered(keys);
    sorted := SortBy(ByKey(keys), values);
  }

  lemma PrefixGrows<T>(s: seq<T>, i: nat)
    requires i < |s|
    ensures s[..i + 1] == s[..i] + [s[i]] && s[i] in s
  {
  }

  // The members of a set in ascending order.
  ghost function SortedOf(ids: set<Uuid>): seq<Uuid> {
    KeysAreOrdered(map[]);
    Arranged(ByKey(map[]), ids)
  }

  lemma SortedIsWhole(ids: set<Uuid>)
    ensures SortedBy(map[], SortedOf(ids)) && Distinct(SortedOf(ids)) && forall v :: v in SortedOf(ids) <==> v in ids
  {
    KeysAreOrdered(map[]);
    ArrangedAscends(ByKey(map[]), ids);
  }

  method SortedIds(ids: set<Uuid>) returns (sorted: seq<Uuid>)
    ensures SortedBy(map[], sorted) && Distinct(sorted) && forall v :: v in sorted <==> v in ids
    ensures sorted == SortedOf(ids)
  {
    KeysAreOrdered(map[]);
    sorted := SortedKeys(ByKey(map[]), ids);
    SortedIsWhole(ids);
  }

  // One sorted arrangement: the sort's result does not depend on the order of its input.
  lemma SortedUnique(keys: map<Uuid, int>, a: seq<Uuid>, b: seq<Uuid>)
    requires SortedBy(keys, a) && SortedBy(keys, b) && SameMembers(a, b)
    ensures a == b
  {
    KeysAreOrdered(keys);
    AscendingUnique(ByKey(keys), a, b);
  }
}
