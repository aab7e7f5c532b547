/** Sums and absolute values over reals, shared by the modules of this model. */
module Reals {

  /** The sum of a sequence, accumulated from the front as a prefix-sum loop
      does. */
  function Sum(s: seq<real>): real {
    if s == [] then 0.0 else Sum(s[..|s| - 1]) + s[|s| - 1]
  }

  function Abs(x: real): real {
    if x < 0.0 then -x else x
  }

  /** Extending a prefix by one element adds that element to its sum. */
  lemma SumOfLongerPrefix(s: seq<real>, i: nat)
    requires i < |s|
    ensures Sum(s[..i + 1]) == Sum(s[..i]) + s[i]
  {
    assert s[..i + 1][..i] == s[..i];
  }
}
