/** Amounts are counted in cents. A rounded amount is an `int`; an amount that has not been
    rounded yet is a `real` number of cents. */
module Money {
  /** `round(amount, 2)`: the nearest cent, a tie going to the even cent. */
  function Round(x: real): (r: int)
    ensures -0.5 <= r as real - x <= 0.5
    ensures r as real - x in {-0.5, 0.5} ==> r % 2 == 0
  {
    var down := x.Floor;
    var rest := x - down as real;
    if rest < 0.5 || (rest == 0.5 && down % 2 == 0) then down else down + 1
  }

  predicate IsCents(x: real) {
    Round(x) as real == x
  }

  lemma RoundFixesCents(n: int)
    ensures Round(n as real) == n
  {
  }

  /** The contract of `Round` determines it: nothing else is nearest with ties to even. */
  lemma RoundIsNearest(x: real, n: int)
    requires -0.5 < n as real - x < 0.5
    ensures Round(x) == n
  {
    var gap := Round(x) - n;
    assert -1.0 < gap as real < 1.0;
  }

  lemma RoundMonotone(x: real, y: real)
    requires x <= y
    ensures Round(x) <= Round(y)
  {
    var gap := Round(x) - Round(y);
    assert gap as real <= 1.0;
  }

  lemma ScaleMonotone(x: real, y: real, c: real)
    requires x <= y && 0.0 <= c
    ensures x * c <= y * c
  {
    assert (y - x) * c == y * c - x * c;
  }

  /** A fraction of an amount lies within it. */
  lemma FractionWithin(gap: real, c: real)
    requires 0.0 <= gap && 0.0 <= c <= 1.0
    ensures 0.0 <= gap * c <= gap
  {
    var rest := gap * (1.0 - c);
    assert rest == gap - gap * c;
  }

  /** Rounding cannot cross a cent: the reason why the bargaining corridor survives it. */
  lemma RoundBetween(lo: int, x: real, hi: int)
    requires lo as real <= x <= hi as real
    ensures lo <= Round(x) <= hi
  {
    RoundMonotone(lo as real, x);
    RoundMonotone(x, hi as real);
    RoundFixesCents(lo);
    RoundFixesCents(hi);
  }

  /** A ratio of a total, in cents. */
  function Portion(total: real, ratio: real): int {
    Round(total * ratio)
  }

  lemma PortionMonotone(total: real, x: real, y: real)
    requires 0.0 <= total && x <= y
    ensures Portion(total, x) <= Portion(total, y)
  {
    ScaleMonotone(x, y, total);
    RoundMonotone(total * x, total * y);
  }
}
