/** The little non-linear arithmetic that the rate and denial bounds need, kept apart. */
module RealArithmetic {

  /** k times x, by repeated addition. */
  function Times(k: nat, x: real): real {
    if k == 0 then 0.0 else Times(k - 1, x) + x
  }

  lemma {:induction false} TimesIsProduct(k: nat, x: real)
    ensures Times(k, x) == k as real * x
  {
    if k > 0 {
      TimesIsProduct(k - 1, x);
      var m := (k - 1) as real;
      assert k as real == m + 1.0 && (m + 1.0) * x == m * x + x;
    }
  }

  lemma ScaleReflects(x: real, y: real, scale: real)
    requires scale > 0.0 && x * scale <= y * scale
    ensures x <= y
  {
  }

  lemma DivideOut(x: real, y: real, scale: real)
    requires scale > 0.0 && x * scale <= y
    ensures x <= y / scale
  {
    var q := y / scale;
    assert q * scale == y;
    ScaleReflects(x, q, scale);
  }

  lemma TimesFloor(k: nat, x: real, bound: real)
    requires x > 0.0 && Times(k, x) <= bound
    ensures k <= (bound / x).Floor
  {
    TimesIsProduct(k, x);
    DivideOut(k as real, bound, x);
  }
}
