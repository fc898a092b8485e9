/** Decimal digits and the numbers they spell. */
module Digits {
  import opened Bytes

  predicate AllDigits(s: Text, i: nat, j: nat)
    requires i <= j <= |s|
  {
    forall k :: i <= k < j ==> IsDigit(s[k])
  }

  /** The number spelled by the decimal digits between `i` and `j`. */
  function Value(s: Text, i: nat, j: nat): nat
    requires i <= j <= |s| && AllDigits(s, i, j)
    decreases j - i
  {
    if i == j then 0 else Value(s, i, j - 1) * 10 + (s[j - 1] - 0x30)
  }
}
