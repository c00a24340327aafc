/** Facts about sequence slices that the loops of the model use at every step. */
module Seqs {

  /** The whole sequence as a slice. */
  lemma Whole<T>(s: seq<T>)
    ensures s[..|s|] == s
  {
  }

  /** Appending nothing. */
  lemma AppendEmpty<T>(s: seq<T>)
    ensures s + [] == s
  {
  }

  /** Concatenation groups either way. */
  lemma Assoc<T>(a: seq<T>, b: seq<T>, c: seq<T>)
    ensures a + (b + c) == (a + b) + c
  {
  }

  /** One more element of a prefix. */
  lemma PrefixSnoc<T>(s: seq<T>, i: nat)
    requires i < |s|
    ensures s[..i + 1] == s[..i] + [s[i]]
    ensures s[..i + 1][..i] == s[..i]
  {
  }

  /** A slice inside the first part of a concatenation. */
  lemma SliceLeft<T>(p: seq<T>, t: seq<T>, i: nat, j: nat)
    requires i <= j <= |p|
    ensures (p + t)[i..j] == p[i..j]
  {
  }

  /** The second part of a concatenation as a slice. */
  lemma SliceRight<T>(p: seq<T>, t: seq<T>)
    ensures (p + t)[|p|..|p| + |t|] == t
  {
  }

  /** A constant sequence grows by two copies of its element. */
  lemma ConstantSnoc<T>(n: nat, c: T)
    ensures seq(n, _ => c) + [c, c] == seq(n + 2, _ => c)
  {
  }
}
