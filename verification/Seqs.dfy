/** Sequence identities that proofs call by name. */
module Seqs {

  lemma Assoc<T>(a: seq<T>, b: seq<T>, c: seq<T>)
    ensures (a + b) + c == a + (b + c)
  {
  }

  lemma EmptyIsUnit<T>(a: seq<T>)
    ensures [] + a == a && a + [] == a
  {
  }

  /** A prefix one element longer. */
  lemma Longer<T>(a: seq<T>, i: nat)
    requires i < |a|
    ensures a[..i + 1] == a[..i] + [a[i]] && a[..i + 1][..i] == a[..i] && a[..i + 1][i] == a[i]
  {
  }

  /** The cyclically next index. */
  function After(i: nat, n: nat): (j: nat)
    requires i < n
    ensures j < n
  {
    if i + 1 == n then 0 else i + 1
  }

  lemma AfterIs(i: nat, n: nat)
    requires i < n
    ensures After(i, n) == (i + 1) % n
  {
    if i + 1 < n { assert (i + 1) % n == i + 1; }
  }
}
