/** Products and quotients of reals, one small fact at a time. */
module RealMath {

  function Abs(x: real): real {
    if x < 0.0 then -x else x
  }

  lemma ScaleUp(x: real, y: real, k: real)
    requires x <= y && k >= 0.0
    ensures x * k <= y * k
  {
  }

  lemma ScaleStrictly(x: real, y: real, k: real)
    requires x < y && k > 0.0
    ensures x * k < y * k
  {
  }

  lemma Distribute(x: real, y: real, k: real)
    ensures (x + y) * k == x * k + y * k
  {
  }

  lemma DivideThenScale(x: real, k: real)
    requires k > 0.0
    ensures x / k * k == x
  {
  }

  lemma ScaleThenDivide(x: real, k: real)
    requires k > 0.0
    ensures x * k / k == x
  {
  }
}
