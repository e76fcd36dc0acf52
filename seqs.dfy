/**
 * Facts about slicing and concatenating sequences, stated for any element type so
 * that using them never makes the verifier compare elements (XML elements, rows and
 * CSV rows are deep values).
 */
module Seqs {

  /** One more element of the prefix. */
  lemma PrefixStep<T>(s: seq<T>, i: nat)
    requires i < |s|
    ensures s[..i + 1][..i] == s[..i] && s[..i + 1][i] == s[i]
    ensures s[..i + 1] == s[..i] + [s[i]]
  {
  }

  lemma WholePrefix<T>(s: seq<T>)
    ensures s[..|s|] == s
  {
  }

  /** Dropping the last element of a concatenation whose second part is not empty. */
  lemma DropLastOfAppend<T>(a: seq<T>, b: seq<T>)
    requires b != []
    ensures (a + b)[..|a + b| - 1] == a + b[..|b| - 1]
    ensures (a + b)[|a + b| - 1] == b[|b| - 1]
  {
  }

  /** The sequence one element longer, seen from its old end. */
  lemma Snoc<T>(s: seq<T>, x: T)
    ensures (s + [x])[..|s|] == s && (s + [x])[|s|] == x
  {
  }

  lemma AppendAssoc<T>(a: seq<T>, b: seq<T>, c: seq<T>)
    ensures a + b + c == a + (b + c)
  {
  }

  lemma AfterFirst<T>(first: T, rest: seq<T>, k: nat)
    requires 1 <= k <= |rest|
    ensures ([first] + rest)[k] == rest[k - 1]
  {
  }
}
