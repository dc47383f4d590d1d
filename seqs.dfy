/** Sequence reversal, shared by the crate moves of day 5 and the tree lines of day 8. */
module Seqs {

  /** The elements of `s` from last to first. */
  function Reversed<T>(s: seq<T>): (r: seq<T>)
    ensures |r| == |s|
  {
    seq(|s|, k requires 0 <= k < |s| => s[|s| - 1 - k])
  }

  /** Element `k` of the reversal is element `|s| - 1 - k` of the original. */
  lemma ReversedAt<T>(s: seq<T>, k: nat)
    requires k < |s|
    ensures Reversed(s)[k] == s[|s| - 1 - k]
  {
  }

  /** Reversing a concatenation reverses the order of the parts. */
  lemma ReversedAppend<T>(a: seq<T>, b: seq<T>)
    ensures Reversed(a + b) == Reversed(b) + Reversed(a)
  {
  }

  lemma ReversedInvolution<T>(s: seq<T>)
    ensures Reversed(Reversed(s)) == s
  {
  }

  /** Reversing keeps every element, as many times as it occurs. */
  lemma {:induction false} ReversedMultiset<T>(s: seq<T>)
    ensures multiset(Reversed(s)) == multiset(s)
  {
    if s != [] {
      var n := |s| - 1;
      assert s == s[..n] + [s[n]];
      assert Reversed(s) == [s[n]] + Reversed(s[..n]);
      ReversedMultiset(s[..n]);
    }
  }
}
