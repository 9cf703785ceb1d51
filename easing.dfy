/** The arithmetic behind the donut chart animation: the cubic ease-out curve
    and JavaScript's `Math.round`. Both are stated over `real`, so they describe
    the mathematics and not IEEE double rounding. */
module Easing {

  /** `easeOutCubic(t, b, c, d)`: position `t` of duration `d`, start value `b`,
      change `c`. The curve starts at `b` and ends exactly at `b + c`. */
  function EaseOutCubic(t: real, b: real, c: real, d: real): (r: real)
    requires d != 0.0
    ensures t == 0.0 ==> r == b
    ensures t == d ==> r == b + c
  {
    var u := t / d - 1.0;
    c * (u * u * u + 1.0) + b
  }

  /** Cubing is monotone on the whole real line. */
  lemma CubeMonotone(x: real, y: real)
    requires x <= y
    ensures x * x * x <= y * y * y
  {
    var p := x + y / 2.0;
    var s := x * x + x * y + y * y;
    assert s == p * p + 3.0 * (y * y) / 4.0;
    assert p * p >= 0.0 && y * y >= 0.0 by {
      if p < 0.0 { assert p * p == (-p) * (-p); }
      if y < 0.0 { assert y * y == (-y) * (-y); }
    }
    assert y * y * y - x * x * x == (y - x) * s;
    assert (y - x) * s >= 0.0;
  }

  /** Dividing by a positive number keeps the order. */
  lemma DivideMonotone(a: real, b: real, d: real)
    requires d > 0.0 && a <= b
    ensures a / d <= b / d
  {
    assert b / d - a / d == (b - a) / d;
  }

  /** For a non-negative change and `0 <= t <= d` the eased value lies between
      the start value and the end value. */
  lemma EaseBounds(t: real, b: real, c: real, d: real)
    requires d > 0.0 && c >= 0.0 && 0.0 <= t <= d
    ensures b <= EaseOutCubic(t, b, c, d) <= b + c
  {
    var u := t / d - 1.0;
    DivideMonotone(0.0, t, d);
    DivideMonotone(t, d, d);
    assert -1.0 <= u <= 0.0;
    CubeMonotone(-1.0, u);
    CubeMonotone(u, 0.0);
    var k := u * u * u + 1.0;
    assert 0.0 <= k <= 1.0;
    assert c * k <= c by {
      assert c - c * k == c * (1.0 - k);
    }
  }

  /** Scaling by a non-negative factor keeps the order. */
  lemma ScaleMonotone(c: real, k1: real, k2: real)
    requires c >= 0.0 && k1 <= k2
    ensures c * k1 <= c * k2
  {
    assert c * k2 - c * k1 == c * (k2 - k1);
  }

  /** For a positive duration and a non-negative change the curve never goes down. */
  lemma EaseMonotone(t1: real, t2: real, b: real, c: real, d: real)
    requires d > 0.0 && c >= 0.0 && t1 <= t2
    ensures EaseOutCubic(t1, b, c, d) <= EaseOutCubic(t2, b, c, d)
  {
    var u1, u2 := t1 / d - 1.0, t2 / d - 1.0;
    assert u1 <= u2 by { DivideMonotone(t1, t2, d); }
    var k1, k2 := u1 * u1 * u1 + 1.0, u2 * u2 * u2 + 1.0;
    assert k1 <= k2 by { CubeMonotone(u1, u2); }
    var s1, s2 := c * k1, c * k2;
    assert s1 <= s2 by { ScaleMonotone(c, k1, k2); }
    assert EaseOutCubic(t1, b, c, d) == s1 + b;
    assert EaseOutCubic(t2, b, c, d) == s2 + b;
  }

  /** `Math.round(x)`: the nearest integer, halves rounded up (towards +infinity). */
  function JsRound(x: real): (r: int)
    ensures r as real - 0.5 <= x < r as real + 0.5
  {
    (x + 0.5).Floor
  }

  /** `Math.round` of a whole number is that number. */
  lemma JsRoundWhole(k: int)
    ensures JsRound(k as real) == k
  {
  }

  /** `Math.round` never goes down. */
  lemma JsRoundMonotone(x: real, y: real)
    requires x <= y
    ensures JsRound(x) <= JsRound(y)
  {
  }
}
