/** Powers of two, for the widths of columns and of C types. */
module Powers {
  function Power2(n: nat): (p: nat)
    ensures p > 0
  {
    if n == 0 then 1 else 2 * Power2(n - 1)
  }

  lemma {:induction false} PowerOfSum(a: nat, b: nat)
    ensures Power2(a + b) == Power2(a) * Power2(b)
  {
    if a > 0 {
      PowerOfSum(a - 1, b);
    }
  }
}
