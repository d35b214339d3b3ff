/** Strings: searching, splitting and joining. */
module Texts {
  datatype Option<+T> = None | Some(value: T)

  // The index of the first c, or |s|.
  function IndexOf(s: string, c: char): (k: nat)
    ensures k <= |s| && c !in s[..k] && (k < |s| ==> s[k] == c)
  {
    if s == "" || s[0] == c then 0 else
      var k := IndexOf(s[1..], c) + 1;
      assert s[..k] == [s[0]] + s[1..][..k - 1];
      k
  }

  lemma IndexAfter(a: string, c: char, b: string)
    requires c !in a
    ensures IndexOf(a + [c] + b, c) == |a|
    ensures IndexOf(a, c) == |a|
  {
    var s := a + [c] + b;
    assert s[|a|] == c && s[..|a|] == a;
    assert forall i :: 0 <= i < |a| ==> a[i] in a && s[i] == a[i];
  }

  // The pieces of s between the occurrences of c.
  function Split(s: string, c: char): (parts: seq<string>)
    ensures parts != []
    decreases |s|
  {
    var k := IndexOf(s, c);
    if k == |s| then [s] else [s[..k]] + Split(s[k + 1..], c)
  }

  function Join(parts: seq<string>, c: char): string
    requires parts != []
  {
    if |parts| == 1 then parts[0] else parts[0] + [c] + Join(parts[1..], c)
  }

  lemma JoinFirst(first: string, parts: seq<string>, c: char)
    requires parts != []
    ensures Join([first] + parts, c) == first + [c] + Join(parts, c)
  {
    assert ([first] + parts)[1..] == parts;
  }

  lemma {:induction false} JoinSplit(s: string, c: char)
    ensures Join(Split(s, c), c) == s
    ensures forall p :: p in Split(s, c) ==> c !in p && forall d :: d in p ==> d in s
    decreases |s|
  {
    var k := IndexOf(s, c);
    if k < |s| {
      var first, rest := s[..k], s[k + 1..];
      JoinSplit(rest, c);
      JoinFirst(first, Split(rest, c), c);
      assert s == first + [c] + rest;
      assert Split(s, c) == [first] + Split(rest, c);
      forall d | d in first || d in rest ensures d in s {
      }
    }
  }

  lemma {:induction false} SplitJoin(parts: seq<string>, c: char)
    requires parts != [] && forall p :: p in parts ==> c !in p
    ensures Split(Join(parts, c), c) == parts
  {
    assert parts[0] in parts;
    if |parts| == 1 {
      IndexAfter(parts[0], c, "");
    } else {
      var rest := Join(parts[1..], c);
      var s := parts[0] + [c] + rest;
      IndexAfter(parts[0], c, rest);
      assert s[..|parts[0]|] == parts[0] && s[|parts[0]| + 1..] == rest;
      SplitJoin(parts[1..], c);
      assert parts == [parts[0]] + parts[1..];
    }
  }
}
