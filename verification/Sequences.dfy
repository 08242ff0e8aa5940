/** What inserting into and erasing from a vector does to its positions and contents. */
module Sequences {

  function Inserted<T>(s: seq<T>, i: nat, x: T): (r: seq<T>)
    requires i <= |s|
    ensures |r| == |s| + 1 && r[i] == x
    ensures forall k | 0 <= k < i :: r[k] == s[k]
    ensures forall k | i < k < |r| :: r[k] == s[k - 1]
  {
    s[..i] + [x] + s[i..]
  }

  function Erased<T>(s: seq<T>, i: nat): (r: seq<T>)
    requires i < |s|
    ensures |r| == |s| - 1
    ensures forall k | 0 <= k < i :: r[k] == s[k]
    ensures forall k | i <= k < |r| :: r[k] == s[k + 1]
  {
    s[..i] + s[i + 1..]
  }

  lemma {:induction false} InsertedContents<T>(s: seq<T>, i: nat, x: T)
    requires i <= |s|
    ensures multiset(Inserted(s, i, x)) == multiset(s) + multiset{x}
  {
    assert s == s[..i] + s[i..];
  }

  lemma {:induction false} InsertedMembers<T>(s: seq<T>, i: nat, x: T)
    requires i <= |s|
    ensures forall y :: y in Inserted(s, i, x) <==> y in s || y == x
  {
    assert s == s[..i] + s[i..];
  }

  lemma {:induction false} ErasedContents<T>(s: seq<T>, i: nat)
    requires i < |s|
    ensures multiset(Erased(s, i)) == multiset(s) - multiset{s[i]}
  {
    assert s == s[..i] + [s[i]] + s[i + 1..];
  }
}
