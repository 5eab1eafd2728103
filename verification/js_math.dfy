/** JavaScript number arithmetic as the face-harmony engine uses it, over ideal reals.

    Rounding error is not modelled. What is modelled is where a computation leaves the
    finite numbers (a division by zero), `Math.round`, and `Math.hypot`'s square root.
 */
module JsMath {

  /** A JavaScript number: a finite real, or one of the non-finite values
      (`Infinity`, `-Infinity`, `NaN`). With ideal reals the only source of a
      non-finite value is a division by zero. */
  datatype Num = Finite(v: real) | NonFinite

  /** `a / b` in JavaScript: dividing by zero gives `±Infinity` or `NaN`, never a finite number. */
  function Div(a: real, b: real): (q: Num)
    ensures q.NonFinite? <==> b == 0.0
    ensures q.Finite? ==> q.v * b == a
  {
    if b == 0.0 then NonFinite else Finite(a / b)
  }

  /** A finite, strictly positive number: the values every scoring function accepts. */
  predicate IsPositive(n: Num) {
    n.Finite? && n.v > 0.0
  }

  function Abs(x: real): (r: real)
    ensures r >= 0.0
    ensures r == x || r == -x
  {
    if x < 0.0 then -x else x
  }

  function Max(a: real, b: real): (r: real)
    ensures r >= a && r >= b
    ensures r == a || r == b
  {
    if a < b then b else a
  }

  function Min(a: real, b: real): (r: real)
    ensures r <= a && r <= b
    ensures r == a || r == b
  {
    if a < b then a else b
  }

  /** `x || 1` on a number that cannot be `NaN`: zero is falsy and falls back to one. */
  function OrOne(x: real): (r: real)
    ensures r != 0.0
    ensures x != 0.0 ==> r == x
  {
    if x == 0.0 then 1.0 else x
  }

  /** `Math.round`: the nearest integer, with halves rounded up (towards +Infinity). */
  function Round(x: real): (n: int)
    ensures x - 0.5 < n as real <= x + 0.5
  {
    (x + 0.5).Floor
  }

  /** Rounding never reverses an order. */
  lemma RoundMonotone(x: real, y: real)
    requires x <= y
    ensures Round(x) <= Round(y)
  {
  }

  /** A value between two integers rounds to an integer between them. */
  lemma RoundWithin(x: real, lo: int, hi: int)
    requires lo as real <= x <= hi as real
    ensures lo <= Round(x) <= hi
  {
    RoundMonotone(lo as real, x);
    RoundMonotone(x, hi as real);
  }

  /** Multiplying by a positive number keeps the sign. */
  lemma ProductSign(p: real, d: real)
    requires d > 0.0
    ensures p * d > 0.0 <==> p > 0.0
    ensures p * d == 0.0 <==> p == 0.0
  {
  }

  /** Dividing by a positive number keeps the order. */
  lemma DivOrder(x: real, y: real, d: real)
    requires d > 0.0
    ensures x <= y <==> x / d <= y / d
  {
    var q1, q2 := x / d, y / d;
    assert q1 * d == x;
    assert q2 * d == y;
    assert (q2 - q1) * d == y - x;
    ProductSign(q2 - q1, d);
  }

  function Sq(x: real): real {
    x * x
  }

  /** `r` is the non-negative square root of `x`. */
  predicate IsRoot(r: real, x: real) {
    r >= 0.0 && Sq(r) == x
  }

  /** Squaring is strictly increasing on the non-negative reals. */
  lemma SquareLess(a: real, b: real)
    requires 0.0 <= a < b
    ensures Sq(a) < Sq(b)
  {
    var small, cross, large := a * a, a * b, b * b;
    assert small <= cross;
    assert cross < large;
  }

  /** Two non-negative numbers with the same square are equal. */
  lemma RootUnique(r: real, s: real, x: real)
    requires IsRoot(r, x) && IsRoot(s, x)
    ensures r == s
  {
    if r < s {
      SquareLess(r, s);
    } else if s < r {
      SquareLess(s, r);
    }
  }

  /** The square root inside `Math.hypot`. A root is chosen whenever one exists; the
      verifier cannot exhibit a root for an arbitrary real, so facts about particular
      square roots are established by naming the root (see `SqrtOfSquare`). */
  ghost function Sqrt(x: real): (r: real)
    ensures r >= 0.0
    ensures (exists s :: IsRoot(s, x)) ==> IsRoot(r, x)
  {
    if exists s :: IsRoot(s, x) then
      var s :| IsRoot(s, x); s
    else
      0.0
  }

  /** The square root of a square is the absolute value. */
  lemma SqrtOfSquare(y: real)
    ensures Sqrt(Sq(y)) == Abs(y)
  {
    assert IsRoot(Abs(y), Sq(y));
    RootUnique(Sqrt(Sq(y)), Abs(y), Sq(y));
  }
}
