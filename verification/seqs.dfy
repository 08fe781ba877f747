/**
 * Facts about sequence slicing used by the list-processing models. Each is
 * stated for any element type so that its proof never sees the structure
 * of the elements.
 */
module Seqs {

  /** A non-empty sequence is its front followed by its last element. */
  lemma FrontLast<T>(s: seq<T>)
    requires s != []
    ensures s[..|s| - 1] + [s[|s| - 1]] == s
  {
    assert forall k :: 0 <= k < |s| ==> (s[..|s| - 1] + [s[|s| - 1]])[k] == s[k];
  }

  /** A sequence is what comes before position n, the element there, and what follows. */
  lemma SplitAt<T>(s: seq<T>, n: nat)
    requires n < |s|
    ensures s == s[..n] + [s[n]] + s[n + 1..]
  {
    assert forall k :: 0 <= k < |s| ==> (s[..n] + [s[n]] + s[n + 1..])[k] == s[k];
  }

  /** The front and last element of a concatenation whose second part is not empty. */
  lemma FrontOfAppend<T>(a: seq<T>, b: seq<T>)
    requires b != []
    ensures (a + b)[..|a + b| - 1] == a + b[..|b| - 1]
    ensures (a + b)[|a + b| - 1] == b[|b| - 1]
  {
    assert (a + b)[..|a + b| - 1] == a + b[..|b| - 1];
  }

  /** Appending nothing changes nothing. */
  lemma AppendEmpty<T>(a: seq<T>, b: seq<T>)
    requires b == []
    ensures a + b == a
  {
  }

  /** Concatenation is associative. */
  lemma AppendAssoc<T>(a: seq<T>, b: seq<T>, c: seq<T>)
    ensures (a + b) + c == a + (b + c)
  {
  }

  /** Two sequences of one length that agree at every position are equal. */
  lemma EqualPointwise<T>(a: seq<T>, b: seq<T>)
    requires |a| == |b| && forall k :: 0 <= k < |a| ==> a[k] == b[k]
    ensures a == b
  {
  }

  /**
   * Deleting the element at position n and appending x: earlier elements
   * stay, later ones move down by one, and x comes last. Moving the last
   * element to the end, when it is x, changes nothing.
   */
  lemma MoveToEnd<T>(s: seq<T>, n: nat, x: T)
    requires n < |s|
    ensures var m := s[..n] + s[n + 1..] + [x];
      && |m| == |s|
      && (forall k :: 0 <= k < n ==> m[k] == s[k])
      && (forall k :: n <= k < |s| - 1 ==> m[k] == s[k + 1])
      && m[|s| - 1] == x
      && (n == |s| - 1 && s[n] == x ==> m == s)
  {
    var m := s[..n] + s[n + 1..] + [x];
    if n == |s| - 1 && s[n] == x {
      assert forall k :: 0 <= k < |s| ==> m[k] == s[k];
    }
  }

  /** Moving one element to the end keeps the same elements. */
  lemma MoveToEndPermutes<T>(s: seq<T>, n: nat)
    requires n < |s|
    ensures multiset(s[..n] + s[n + 1..] + [s[n]]) == multiset(s)
  {
    SplitAt(s, n);
    assert multiset(s[..n] + s[n + 1..] + [s[n]]) == multiset(s[..n]) + multiset(s[n + 1..]) + multiset{s[n]};
    assert multiset(s[..n] + [s[n]] + s[n + 1..]) == multiset(s[..n]) + multiset{s[n]} + multiset(s[n + 1..]);
  }

  /** A non-empty sequence is its first element followed by the rest. */
  lemma HeadTail<T>(s: seq<T>)
    requires s != []
    ensures [s[0]] + s[1..] == s
  {
    assert forall k :: 0 <= k < |s| ==> ([s[0]] + s[1..])[k] == s[k];
  }

  /** The two parts of a concatenation are recovered by slicing at the length of the first. */
  lemma SliceAppend<T>(a: seq<T>, b: seq<T>)
    ensures (a + b)[..|a|] == a && (a + b)[|a|..] == b
  {
    assert (a + b)[..|a|] == a;
    assert (a + b)[|a|..] == b;
  }
}
