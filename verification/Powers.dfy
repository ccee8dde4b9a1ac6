/** Powers of two. */
module Powers {

  function Power2(n: nat): (r: nat)
    ensures r > 0
  {
    if n == 0 then 1 else 2 * Power2(n - 1)
  }

  lemma {:induction false} PowersAscend(k: nat, m: nat)
    requires k < m
    ensures Power2(k) < Power2(m)
  {
    if k + 1 < m {
      PowersAscend(k, m - 1);
    }
  }
}
