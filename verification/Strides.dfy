/** Equal slots laid end to end. */
module Strides {

  /** Where slot `i` begins: `i * size`. */
  function At(i: nat, size: nat): nat {
    if i == 0 then 0 else At(i - 1, size) + size
  }

  lemma {:induction false} AtIsProduct(i: nat, size: nat)
    ensures At(i, size) == i * size
  {
    if i > 0 {
      AtIsProduct(i - 1, size);
    }
  }

  lemma {:induction false} SlotsApart(i: nat, n: nat, size: nat)
    requires i < n
    ensures At(i, size) + size <= At(n, size)
    decreases n
  {
    if i < n - 1 {
      SlotsApart(i, n - 1, size);
    }
  }
}
