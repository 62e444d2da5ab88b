/** Concatenation of the pieces a stream was cut into. */
module Streams {

  function Flatten<T>(parts: seq<seq<T>>): seq<T> {
    if parts == [] then [] else Flatten(parts[..|parts| - 1]) + parts[|parts| - 1]
  }

  predicate AllOfSize<T>(n: nat, parts: seq<seq<T>>) {
    forall i :: 0 <= i < |parts| ==> |parts[i]| == n
  }

  lemma FlattenSnoc<T>(parts: seq<seq<T>>, last: seq<T>)
    ensures Flatten(parts + [last]) == Flatten(parts) + last
  {
    assert (parts + [last])[..|parts|] == parts;
  }

  lemma {:induction false} FlattenConcat<T>(left: seq<seq<T>>, right: seq<seq<T>>)
    ensures Flatten(left + right) == Flatten(left) + Flatten(right)
    decreases |right|
  {
    if right == [] {
      assert left + right == left;
    } else {
      var init, last := right[..|right| - 1], right[|right| - 1];
      assert (left + right)[..|left + right| - 1] == left + init;
      FlattenConcat(left, init);
      assert (Flatten(left) + Flatten(init)) + last == Flatten(left) + (Flatten(init) + last);
    }
  }

  lemma FlattenPrefix<T>(parts: seq<seq<T>>, n: nat)
    requires n <= |parts|
    ensures Flatten(parts[..n]) <= Flatten(parts)
  {
    assert Flatten(parts) == Flatten(parts[..n]) + Flatten(parts[n..]) by {
      FlattenConcat(parts[..n], parts[n..]);
      assert parts[..n] + parts[n..] == parts;
    }
  }

  lemma LastLast<T>(a: seq<T>, b: seq<T>)
    requires b != []
    ensures a + b == (a + b[..|b| - 1]) + [b[|b| - 1]]
  {
  }

  lemma SplitJoined<T>(s: seq<T>, n: nat)
    requires n <= |s|
    ensures s[..n] + s[n..] == s
  {
  }

  lemma Associate<T>(a: seq<T>, b: seq<T>, c: seq<T>)
    ensures (a + b) + c == a + (b + c)
  {
  }

  lemma SliceOfFirst<T>(a: seq<T>, b: seq<T>, i: nat)
    requires i <= |a|
    ensures (a + b)[..i] == a[..i]
    ensures (a + b)[i..] == a[i..] + b
  {
  }

  lemma SliceOfSecond<T>(a: seq<T>, b: seq<T>, i: nat)
    requires i <= |b|
    ensures (a + b)[..|a| + i] == a + b[..i]
    ensures (a + b)[|a| + i..] == b[i..]
  {
  }

  lemma AssociateFour<T>(a: seq<T>, b: seq<T>, c: seq<T>, d: seq<T>)
    ensures a + ((b + c) + d) == ((a + b) + c) + d
  {
  }

  lemma SliceMore<T>(s: seq<T>, i: nat, n: nat)
    requires i + n <= |s|
    ensures s[..i] + s[i..i + n] == s[..i + n]
  {
  }
}
