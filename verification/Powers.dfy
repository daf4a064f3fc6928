/** Natural powers. */
module Powers {
  function Power(k: nat, n: nat): nat {
    if n == 0 then 1 else Power(k, n - 1) * k
  }

  lemma PowerZero(k: nat)
    ensures Power(k, 0) == 1
  {
  }

  lemma PowerNext(k: nat, n: nat)
    ensures Power(k, n + 1) == Power(k, n) * k
  {
  }
}
