/** Flooring division. */
module Division {

  /** Rounds down whatever the signs. */
  function FloorDivide(x: int, d: int): int
    requires d != 0
  {
    if d > 0 then x / d else (-x) / (-d)
  }

  lemma DivideBounds(x: int, d: int)
    requires d > 0
    ensures (x / d) * d <= x < (x / d) * d + d
  {}

  lemma FloorDivideNegative(x: int, d: int)
    requires d < 0
    ensures x <= FloorDivide(x, d) * d < x - d
  {
    var q := FloorDivide(x, d);
    DivideBounds(-x, -d);
    assert q * d == -(q * (-d));
  }

  lemma TimesInOrder(a: int, b: int, d: int)
    requires a <= b && d > 0
    ensures a * d <= b * d
  {
    assert (b - a) * d >= 0;
    assert b * d == a * d + (b - a) * d;
  }

  lemma DivideUnique(x: int, d: int, q: int)
    requires d > 0 && q * d <= x < q * d + d
    ensures x / d == q
  {
    var r := x / d;
    DivideBounds(x, d);
    assert (r + 1) * d == r * d + d && (q + 1) * d == q * d + d;
    if r < q {
      TimesInOrder(r + 1, q, d);
    } else if q < r {
      TimesInOrder(q + 1, r, d);
    }
  }
}
