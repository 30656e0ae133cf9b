/** The `int` that is read from a JSON number, beside its exact value. */
module JsonInts {
  const INT_MAX: nat := 2147483647

  /** valueint: the number itself as far as an int goes, and the largest int beyond. */
  function ValueInt(x: nat): (i: nat)
    ensures i <= INT_MAX && i <= x && (i == x <==> x <= INT_MAX)
    ensures x >= 0x7FFF_FFFF ==> i == 0x7FFF_FFFF
  {
    if x <= INT_MAX then x else INT_MAX
  }
}
