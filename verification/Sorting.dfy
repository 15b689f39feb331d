/** `sort_unstable_by` on a key: an ordered permutation of its input. */
module Sorting {

  ghost predicate Ordered<T>(s: seq<T>, key: T -> nat) {
    forall i, j | 0 <= i < j < |s| :: key(s[i]) <= key(s[j])
  }

  method SortBy<T>(s: seq<T>, key: T -> nat) returns (r: seq<T>)
    ensures Ordered(r, key) && multiset(r) == multiset(s)
  {
    r := [];
    for n := 0 to |s|
      invariant Ordered(r, key) && multiset(r) == multiset(s[..n])
    {
      assert s[..n + 1] == s[..n] + [s[n]];
      r := InsertBy(r, key, s[n]);
    }
    assert s[..|s|] == s;
  }

  method InsertBy<T>(s: seq<T>, key: T -> nat, x: T) returns (r: seq<T>)
    requires Ordered(s, key)
    ensures Ordered(r, key) && multiset(r) == multiset(s) + multiset{x}
  {
    var i := |s|;
    while i > 0 && key(s[i - 1]) > key(x)
      invariant 0 <= i <= |s|
      invariant forall j | i <= j < |s| :: key(x) < key(s[j])
    {
      i := i - 1;
    }
    r := InsertAt(s, i, x);
  }

  function InsertAt<T>(s: seq<T>, i: nat, x: T): (r: seq<T>)
    requires i <= |s|
    ensures |r| == |s| + 1
    ensures forall j | 0 <= j < |r| :: r[j] == if j < i then s[j] else if j == i then x else s[j - 1]
    ensures multiset(r) == multiset(s) + multiset{x}
  {
    assert s == s[..i] + s[i..];
    s[..i] + [x] + s[i..]
  }
}
