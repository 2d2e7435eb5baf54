/** An optional value: the source's nil pointers and missing keys. */
module Options {
  datatype Option<+T> = None | Some(value: T)

  function Or<T>(o: Option<T>, default: T): (value: T) {
    if o.Some? then o.value else default
  }
}

/** Facts about quotients and remainders by a divisor that is not a constant. */
module Arithmetic {

  lemma {:induction false} MultipleIsFar(p: int, d: int)
    requires p > 0
    ensures d >= 1 ==> p * d >= p
    ensures d <= -1 ==> p * d <= -p
  {
    if d >= 1 {
      assert p * (d - 1) >= 0;
    } else if d <= -1 {
      assert p * (-1 - d) >= 0;
    }
  }

  lemma QuotientIs(x: int, p: int, q: int)
    requires p > 0 && q * p <= x < q * p + p
    ensures x / p == q
  {
    var d := x / p - q;
    assert p * d == p * (x / p) - p * q;
    MultipleIsFar(p, d);
  }

  lemma RemainderIs(x: int, p: int, q: int, r: int)
    requires p > 0 && x == q * p + r && 0 <= r < p
    ensures x / p == q && x % p == r
  {
    QuotientIs(x, p, q);
  }
}
