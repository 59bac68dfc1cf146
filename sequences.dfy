/** Facts about cutting a sequence into pieces. */
module Sequences {

  /** Cutting `s` at `k` and the rest `t` again after its prefix `r` gives
      three pieces that put back together make `s`. */
  lemma SplitThree<T>(s: seq<T>, k: nat, t: seq<T>, r: seq<T>)
    requires k <= |s| && t == s[k..] && |r| <= |t| && r == t[..|r|]
    ensures s == s[..k] + r + t[|r|..]
  {
    assert s == s[..k] + t;
    assert t == r + t[|r|..];
  }

  /** `s` is what comes before position `n`, the element there and what
      comes after. */
  lemma SplitAt<T>(s: seq<T>, n: nat)
    requires n < |s|
    ensures s == s[..n] + [s[n]] + s[n + 1..]
  {
    assert s[..n + 1] == s[..n] + [s[n]];
  }

  /** Putting an element in front does not change the last element. */
  lemma LastOfCons<T>(c: T, x: seq<T>)
    requires x != []
    ensures ([c] + x)[|[c] + x| - 1] == x[|x| - 1]
  {
  }

  /** An element of a sequence is its last one or an earlier one. */
  lemma LastOrEarlier<T>(s: seq<T>, x: T)
    requires x in s
    ensures s[|s| - 1] == x || x in s[..|s| - 1]
  {
    var k :| 0 <= k < |s| && s[k] == x;
    if k < |s| - 1 {
      assert s[..|s| - 1][k] == x;
    }
  }
}
