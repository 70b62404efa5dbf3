/** Products behind a name, so that proofs about them stay linear. */
module Arithmetic {

  function Times(a: nat, b: nat): nat { a * b }

  lemma TimesMonotone(a: nat, a': nat, b: nat)
    requires a <= a'
    ensures Times(a, b) <= Times(a', b)
  {
  }
}
