/** Sorting by any strict total order: a set has exactly one sorted arrangement. */
module Arrangements {
  // ---- Orders ----

  ghost predicate StrictOrder<T(!new)>(less: (T, T) -> bool) {
    (forall a :: !less(a, a)) && forall a, b, c :: less(a, b) && less(b, c) ==> less(a, c)
  }

  ghost predicate TotalOrder<T(!new)>(less: (T, T) -> bool) {
    StrictOrder(less) && forall a, b :: a == b || less(a, b) || less(b, a)
  }

  predicate Ascending<T>(less: (T, T) -> bool, s: seq<T>) {
    forall i, j :: 0 <= i < j < |s| ==> less(s[i], s[j])
  }

  // The order of strings, character by character.
  predicate Less(a: string, b: string) {
    b != "" && (a == "" || a[0] < b[0] || (a[0] == b[0] && Less(a[1..], b[1..])))
  }

  lemma {:induction false} LessIsTransitive(a: string, b: string, c: string)
    requires Less(a, b) && Less(b, c)
    ensures Less(a, c)
  {
    if a != "" && a[0] == b[0] && b[0] == c[0] {
      LessIsTransitive(a[1..], b[1..], c[1..]);
    }
  }

  lemma {:induction false} LessIsTotal(a: string, b: string)
    ensures !Less(a, a)
    ensures a == b || Less(a, b) || Less(b, a)
  {
    if a != "" {
      LessIsTotal(a[1..], if b == "" then "" else b[1..]);
      if b != "" && a[0] == b[0] && a[1..] == b[1..] {
        assert a == [a[0]] + a[1..] && b == [b[0]] + b[1..];
      }
    }
  }

  lemma StringsAreOrdered()
    ensures TotalOrder(Less)
  {
    forall a, b ensures !Less(a, a) && (a == b || Less(a, b) || Less(b, a)) {
      LessIsTotal(a, b);
    }
    forall a, b, c | Less(a, b) && Less(b, c) ensures Less(a, c) {
      LessIsTransitive(a, b, c);
    }
  }

  // ---- The one arrangement of a set ----

  lemma {:induction false} LeastExists<T(!new)>(less: (T, T) -> bool, s: set<T>)
    requires TotalOrder(less) && s != {}
    ensures exists x :: x in s && forall y :: y in s && y != x ==> less(x, y)
  {
    var v :| v in s;
    if s != {v} {
      var rest := s - {v};
      assert s == rest + {v};
      LeastExists(less, rest);
      var x :| x in rest && forall y :: y in rest && y != x ==> less(x, y);
      var least := if less(v, x) then v else x;
      assert least in s && forall y :: y in s && y != least ==> less(least, y);
    }
  }

  ghost function Arranged<T(!new)>(less: (T, T) -> bool, s: set<T>): seq<T>
    requires TotalOrder(less)
    decreases |s|
  {
    if s == {} then [] else
      LeastExists(less, s);
      var x :| x in s && forall y :: y in s && y != x ==> less(x, y);
      [x] + Arranged(less, s - {x})
  }

  lemma {:induction false} ArrangedAscends<T(!new)>(less: (T, T) -> bool, s: set<T>)
    requires TotalOrder(less)
    ensures Ascending(less, Arranged(less, s)) && forall x :: x in Arranged(less, s) <==> x in s
    decreases |s|
  {
    if s != {} {
      var all := Arranged(less, s);
      ArrangedAscends(less, s - {all[0]});
      assert all[1..] == Arranged(less, s - {all[0]});
    }
  }

  lemma NonEmptyHasMember<T>(s: seq<T>)
    ensures s != [] ==> exists v :: v in s
  {
    if s != [] {
      assert s[0] in s;
    }
  }

  lemma {:induction false} AscendingUnique<T(!new)>(less: (T, T) -> bool, a: seq<T>, b: seq<T>)
    requires StrictOrder(less) && Ascending(less, a) && Ascending(less, b) && forall x :: x in a <==> x in b
    ensures a == b
  {
    if a == [] || b == [] {
      NonEmptyHasMember(a);
      NonEmptyHasMember(b);
    } else {
      assert a[0] in b && b[0] in a;
      assert a[0] == b[0];
      forall x ensures x in a[1..] <==> x in b[1..] {
        assert x in a[1..] <==> x in a && x != a[0];
        assert x in b[1..] <==> x in b && x != b[0];
      }
      AscendingUnique(less, a[1..], b[1..]);
      assert a == [a[0]] + a[1..] && b == [b[0]] + b[1..];
    }
  }

  lemma ArrangedIs<T(!new)>(less: (T, T) -> bool, s: set<T>, a: seq<T>)
    requires TotalOrder(less) && Ascending(less, a) && forall x :: x in a <==> x in s
    ensures a == Arranged(less, s)
  {
    ArrangedAscends(less, s);
    AscendingUnique(less, a, Arranged(less, s));
  }

  // ---- Sorting ----

  lemma InsertAt<T(!new)>(less: (T, T) -> bool, s: seq<T>, v: T, k: nat)
    requires StrictOrder(less) && Ascending(less, s) && k <= |s|
    requires forall j :: 0 <= j < k ==> less(s[j], v)
    requires k < |s| ==> less(v, s[k])
    ensures Ascending(less, s[..k] + [v] + s[k..])
    ensures forall x :: x in s[..k] + [v] + s[k..] <==> x in s || x == v
  {
    var r := s[..k] + [v] + s[k..];
    assert forall i :: 0 <= i < |s| ==> s[i] == r[if i < k then i else i + 1];
    assert r[k] == v;
    forall j | k <= j < |s| ensures less(v, s[j]) {
    }
  }

  // Sorts values of which any two can be told apart by the order.
  method SortBy<T(!new)>(less: (T, T) -> bool, values: seq<T>) returns (sorted: seq<T>)
    requires StrictOrder(less)
    requires forall i, j :: 0 <= i < j < |values| ==> less(values[i], values[j]) || less(values[j], values[i])
    ensures Ascending(less, sorted) && |sorted| == |values| && forall v :: v in sorted <==> v in values
  {
    sorted := [];
    for i := 0 to |values|
      invariant Ascending(less, sorted) && |sorted| == i
      invariant forall v :: v in sorted <==> v in values[..i]
    {
      var v := values[i];
      var k := 0;
      while k < |sorted| && less(sorted[k], v)
        invariant 0 <= k <= |sorted|
        invariant forall j :: 0 <= j < k ==> less(sorted[j], v)
      {
        k := k + 1;
      }
      assert k < |sorted| ==> less(v, sorted[k]) by {
        if k < |sorted| {
          assert sorted[k] in values[..i];
        }
      }
      InsertAt(less, sorted, v, k);
      sorted := sorted[..k] + [v] + sorted[k..];
    }
    assert values[..|values|] == values;
  }

  // The keys of a map, in order.
  method SortedKeys<T(!new, ==)>(less: (T, T) -> bool, keys: set<T>) returns (sorted: seq<T>)
    requires TotalOrder(less)
    ensures sorted == Arranged(less, keys)
  {
    var values := [];
    var rest := keys;
    while rest != {}
      invariant rest <= keys && forall v :: v in values <==> v in keys - rest
      invariant forall i, j :: 0 <= i < j < |values| ==> values[i] != values[j]
      decreases rest
    {
      var v :| v in rest;
      rest := rest - {v};
      assert v !in values;
      values := values + [v];
    }
    sorted := SortBy(less, values);
    ArrangedIs(less, keys, sorted);
  }
}
