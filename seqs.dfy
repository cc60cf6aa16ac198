/** Facts about sequence prefixes that the loops over a list rely on. */
module Seqs {
  /** Taking one more element of `s` extends the prefix of length `i` by `s[i]`. */
  lemma PrefixStep<T>(s: seq<T>, i: nat)
    requires i < |s|
    ensures s[..i + 1][..i] == s[..i]
    ensures s[..i + 1] == s[..i] + [s[i]]
  {
  }
}
