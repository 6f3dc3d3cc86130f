/** Cutting a sequence at one element. */
module Slices {

  lemma CutAt<T>(s: seq<T>, i: nat)
    requires i < |s|
    ensures s[..i + 1] == s[..i] + [s[i]]
    ensures s[i..] == [s[i]] + s[i + 1..]
    ensures s == s[..i] + [s[i]] + s[i + 1..]
  {
  }
}
