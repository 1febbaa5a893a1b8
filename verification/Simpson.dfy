/** Simpson's rule (akka/scala/SimpsonIntegration.scala), in exact arithmetic. */
module Simpson {

  /** A polynomial of degree at most four. */
  datatype Polynomial = Polynomial(c0: real, c1: real, c2: real, c3: real, c4: real)

  function Low(p: Polynomial, x: real): real { p.c0 + p.c1 * x + p.c2 * (x * x) }

  function High(p: Polynomial, x: real): real { p.c3 * (x * x * x) + p.c4 * (x * x * x * x) }

  function Eval(p: Polynomial, x: real): real { Low(p, x) + High(p, x) }

  lemma EvalInFull(p: Polynomial, x: real)
    ensures Eval(p, x) == p.c0 + p.c1 * x + p.c2 * (x * x) + p.c3 * (x * x * x) + p.c4 * (x * x * x * x)
  {
  }

  // Antiderivatives

  function PrimitiveLow(p: Polynomial, x: real): real { p.c0 * x + p.c1 * (x * x / 2.0) + p.c2 * (x * x * x / 3.0) }

  function PrimitiveHigh(p: Polynomial, x: real): real
  {
    p.c3 * (x * x * x * x / 4.0) + p.c4 * (x * x * x * x * x / 5.0)
  }

  function Primitive(p: Polynomial, x: real): real { PrimitiveLow(p, x) + PrimitiveHigh(p, x) }

  /** The difference quotient of the antiderivative is the polynomial, but for a term with the factor h. */
  lemma PrimitiveDerives(p: Polynomial, x: real, h: real)
    ensures Primitive(p, x + h) - Primitive(p, x) == h * Eval(p, x) + h * h * (
      p.c1 * 0.5 + p.c2 * (x + h / 3.0) + p.c3 * (1.5 * (x * x) + x * h + h * h / 4.0)
      + p.c4 * (2.0 * (x * x * x) + 2.0 * (x * x * h) + x * h * h + h * h * h / 5.0))
  {
    Quotients(p, x, h);
    hide Eval, Primitive;
    AddUp(p, x, h, Primitive(p, x + h) - Primitive(p, x), x + h / 3.0, 1.5 * (x * x) + x * h + h * h / 4.0,
          2.0 * (x * x * x) + 2.0 * (x * x * h) + x * h * h + h * h * h / 5.0);
  }

  lemma Quotients(p: Polynomial, x: real, h: real)
    ensures Primitive(p, x + h) - Primitive(p, x) ==
      h * p.c0 + (h * (p.c1 * x) + h * h * (p.c1 * 0.5)) + (h * (p.c2 * (x * x)) + h * h * (p.c2 * (x + h / 3.0)))
      + (h * (p.c3 * (x * x * x)) + h * h * (p.c3 * (1.5 * (x * x) + x * h + h * h / 4.0)))
      + (h * (p.c4 * (x * x * x * x))
         + h * h * (p.c4 * (2.0 * (x * x * x) + 2.0 * (x * x * h) + x * h * h + h * h * h / 5.0)))
  {
    var y := x + h;
    Quotient1(x, h);
    Quotient2(x, h);
    Quotient3(x, h);
    Quotient4(x, h);
    Term(p.c1, y * y / 2.0, x * x / 2.0, h, x, 0.5);
    Term(p.c2, y * y * y / 3.0, x * x * x / 3.0, h, x * x, x + h / 3.0);
    Term(p.c3, y * y * y * y / 4.0, x * x * x * x / 4.0, h, x * x * x, 1.5 * (x * x) + x * h + h * h / 4.0);
    Term(p.c4, y * y * y * y * y / 5.0, x * x * x * x * x / 5.0, h, x * x * x * x,
         2.0 * (x * x * x) + 2.0 * (x * x * h) + x * h * h + h * h * h / 5.0);
    assert p.c0 * y - p.c0 * x == h * p.c0;
  }

  lemma AddUp(p: Polynomial, x: real, h: real, d: real, r2: real, r3: real, r4: real)
    requires d == h * p.c0 + (h * (p.c1 * x) + h * h * (p.c1 * 0.5)) + (h * (p.c2 * (x * x)) + h * h * (p.c2 * r2))
      + (h * (p.c3 * (x * x * x)) + h * h * (p.c3 * r3)) + (h * (p.c4 * (x * x * x * x)) + h * h * (p.c4 * r4))
    ensures d == h * Eval(p, x) + h * h * (p.c1 * 0.5 + p.c2 * r2 + p.c3 * r3 + p.c4 * r4)
  {
    FiveTerms(h, p.c0, p.c1 * x, p.c2 * (x * x), p.c3 * (x * x * x), p.c4 * (x * x * x * x),
              p.c1 * 0.5, p.c2 * r2, p.c3 * r3, p.c4 * r4);
  }

  lemma Term(c: real, u: real, v: real, h: real, m: real, r: real)
    requires u - v == h * m + h * h * r
    ensures c * u - c * v == h * (c * m) + h * h * (c * r)
  {
    assert c * u - c * v == c * (h * m + h * h * r);
  }

  lemma FiveTerms(h: real, a: real, b: real, c: real, d: real, e: real, r: real, s: real, t: real, u: real)
    ensures h * (a + b + c + (d + e)) == h * a + h * b + h * c + h * d + h * e
    ensures h * h * (r + s + t + u) == h * h * r + h * h * s + h * h * t + h * h * u
  {
  }

  lemma Quotient1(x: real, h: real)
    ensures var y := x + h; y * y / 2.0 - x * x / 2.0 == h * x + h * h * 0.5
  {
  }

  lemma Quotient2(x: real, h: real)
    ensures var y := x + h; y * y * y / 3.0 - x * x * x / 3.0 == h * (x * x) + h * h * (x + h / 3.0)
  {
  }

  lemma Quotient3(x: real, h: real)
    ensures var y := x + h;
      y * y * y * y / 4.0 - x * x * x * x / 4.0 == h * (x * x * x) + h * h * (1.5 * (x * x) + x * h + h * h / 4.0)
  {
  }

  lemma Quotient4(x: real, h: real)
    ensures var y := x + h;
      y * y * y * y * y / 5.0 - x * x * x * x * x / 5.0
      == h * (x * x * x * x) + h * h * (2.0 * (x * x * x) + 2.0 * (x * x * h) + x * h * h + h * h * h / 5.0)
  {
  }

  function Fifth(h: real): real { h * h * h * h * h }

  function Step(a: real, b: real, n: int): real
    requires n != 0
  {
    (b - a) / (2 * n) as real
  }

  /** What one panel of width 2h adds. */
  function Panel(f: real -> real, x0: real, h: real): real {
    var x1 := x0 + h;
    var x2 := x1 + h;
    h / 3.0 * (f(x0) + 4.0 * f(x1) + f(x2))
  }

  /** Where panel i starts. */
  function Point(a: real, i: int, h: real): real { a + (2 * i) as real * h }

  /** By how much one panel of width 2h misses the integral of p. */
  function PanelError(p: Polynomial, h: real): real { 4.0 / 15.0 * p.c4 * Fifth(h) }

  function Error(p: Polynomial, n: int, h: real): real { n as real * PanelError(p, h) }

  lemma Monomial1(x: real, h: real)
    ensures h / 3.0 * (x + 4.0 * (x + h) + (x + h + h)) == (x + h + h) * (x + h + h) / 2.0 - x * x / 2.0
  {
  }

  lemma Monomial2(x: real, h: real)
    ensures var y, z := x + h, x + h + h; h / 3.0 * (x * x + 4.0 * (y * y) + z * z) == z * z * z / 3.0 - x * x * x / 3.0
  {
  }

  lemma Monomial3(x: real, h: real)
    ensures var y, z := x + h, x + h + h;
      h / 3.0 * (x * x * x + 4.0 * (y * y * y) + z * z * z) == z * z * z * z / 4.0 - x * x * x * x / 4.0
  {
  }

  lemma Monomial4(x: real, h: real)
    ensures var y, z := x + h, x + h + h;
      h / 3.0 * (x * x * x * x + 4.0 * (y * y * y * y) + z * z * z * z) ==
      z * z * z * z * z / 5.0 - x * x * x * x * x / 5.0 + 4.0 / 15.0 * Fifth(h)
  {
  }

  lemma PanelLow(p: Polynomial, x: real, h: real)
    ensures var y, z := x + h, x + h + h;
      h / 3.0 * (Low(p, x) + 4.0 * Low(p, y) + Low(p, z)) == PrimitiveLow(p, z) - PrimitiveLow(p, x)
  {
    Monomial1(x, h);
    Monomial2(x, h);
    var y, z, k := x + h, x + h + h, h / 3.0;
    Gather(k, p.c1, x, y, z);
    Gather(k, p.c2, x * x, y * y, z * z);
    ThreeSums(k, p.c0, p.c1 * x, p.c1 * y, p.c1 * z, p.c2 * (x * x), p.c2 * (y * y), p.c2 * (z * z));
    Difference(p.c1, z * z / 2.0, x * x / 2.0);
    Difference(p.c2, z * z * z / 3.0, x * x * x / 3.0);
    assert k * (6.0 * p.c0) == p.c0 * z - p.c0 * x;
  }

  lemma ThreeSums(k: real, c: real, u: real, v: real, w: real, r: real, s: real, t: real)
    ensures k * (c + u + r + 4.0 * (c + v + s) + (c + w + t))
         == k * (6.0 * c) + k * (u + 4.0 * v + w) + k * (r + 4.0 * s + t)
  {
  }

  lemma Difference(c: real, u: real, v: real)
    ensures c * (u - v) == c * u - c * v
  {
  }

  lemma PanelHigh(p: Polynomial, x: real, h: real)
    ensures var y, z := x + h, x + h + h;
      h / 3.0 * (High(p, x) + 4.0 * High(p, y) + High(p, z))
        == PrimitiveHigh(p, z) - PrimitiveHigh(p, x) + 4.0 / 15.0 * p.c4 * Fifth(h)
  {
    Monomial3(x, h);
    Monomial4(x, h);
    var y, z, k := x + h, x + h + h, h / 3.0;
    Gather(k, p.c3, x * x * x, y * y * y, z * z * z);
    Gather(k, p.c4, x * x * x * x, y * y * y * y, z * z * z * z);
  }

  /** On a polynomial, a panel adds the exact integral and a multiple of the coefficient of degree four. */
  lemma PanelOfPolynomial(p: Polynomial, x: real, h: real)
    ensures var y, z := x + h, x + h + h;
      h / 3.0 * (Eval(p, x) + 4.0 * Eval(p, y) + Eval(p, z))
        == Primitive(p, z) - Primitive(p, x) + 4.0 / 15.0 * p.c4 * Fifth(h)
  {
    PanelLow(p, x, h);
    PanelHigh(p, x, h);
    hide Low, High, PrimitiveLow, PrimitiveHigh, Fifth;
    var y, z := x + h, x + h + h;
    Together(h / 3.0, Low(p, x), Low(p, y), Low(p, z), High(p, x), High(p, y), High(p, z));
  }

  lemma Together(k: real, u: real, v: real, w: real, x: real, y: real, z: real)
    ensures k * (u + x + 4.0 * (v + y) + (w + z)) == k * (u + 4.0 * v + w) + k * (x + 4.0 * y + z)
  {
  }

  lemma Gather(k: real, c: real, u: real, v: real, w: real)
    ensures k * (c * u + 4.0 * (c * v) + c * w) == c * (k * (u + 4.0 * v + w))
  {
  }

  lemma OnePanel(f: real -> real, p: Polynomial, x: real, h: real)
    requires forall x :: f(x) == Eval(p, x)
    ensures Panel(f, x, h) == Primitive(p, x + h + h) - Primitive(p, x) + PanelError(p, h)
  {
    PanelOfPolynomial(p, x, h);
    hide Eval, Primitive, Fifth;
  }

  lemma PanelStep(f: real -> real, p: Polynomial, a: real, i: int, h: real)
    requires forall x :: f(x) == Eval(p, x)
    ensures Panel(f, Point(a, i, h), h) ==
      Primitive(p, Point(a, i + 1, h)) - Primitive(p, Point(a, i, h)) + Error(p, i + 1, h) - Error(p, i, h)
  {
    hide Eval, Primitive, Point, PanelError, Panel;
    OnePanel(f, p, Point(a, i, h), h);
    NextPoint(a, i, h);
    OnceMore(i, PanelError(p, h));
  }

  lemma NextPoint(a: real, i: int, h: real)
    ensures Point(a, i, h) + h + h == Point(a, i + 1, h)
  {
  }

  lemma OnceMore(i: int, e: real)
    ensures (i + 1) as real * e == i as real * e + e
  {
  }

  lemma StartsAt(p: Polynomial, a: real, h: real)
    ensures Point(a, 0, h) == a && Error(p, 0, h) == 0.0
  {
  }

  /** On a polynomial of degree at most four, the sum is the integral and an error that depends on the highest
      coefficient only; without panels it is 0. */
  method Integrate(f: real -> real, a: real, b: real, n: int, ghost p: Polynomial) returns (sum: real)
    requires forall x :: f(x) == Eval(p, x)
    ensures n <= 0 ==> sum == 0.0
    ensures n > 0 ==> sum == Primitive(p, b) - Primitive(p, a) + Error(p, n, Step(a, b, n))
  {
    hide Eval, Primitive, Point, Panel, Error, Step;
    sum := 0.0;
    if n > 0 {
      var step := Step(a, b, n);
      StartsAt(p, a, step);
      for i := 0 to n
        invariant sum == Primitive(p, Point(a, i, step)) - Primitive(p, a) + Error(p, i, step)
      {
        sum := sum + Panel(f, Point(a, i, step), step);
        PanelStep(f, p, a, i, step);
      }
      LastPoint(a, b, n);
    }
  }

  lemma LastPoint(a: real, b: real, n: int)
    requires n > 0
    ensures Point(a, n, Step(a, b, n)) == b
  {
  }

  /** The error in full. */
  lemma ErrorInFull(p: Polynomial, a: real, b: real, n: int)
    requires n > 0
    ensures var h := (b - a) / (2 * n) as real;
      Error(p, n, Step(a, b, n)) == n as real * (4.0 / 15.0 * p.c4 * (h * h * h * h * h))
  {
  }

  /** The rule is exact for every polynomial of degree at most three, and for degree four only on an empty interval. */
  lemma ExactIff(p: Polynomial, a: real, b: real, n: int)
    requires n > 0
    ensures Error(p, n, Step(a, b, n)) == 0.0 <==> p.c4 == 0.0 || a == b
  {
    var h := Step(a, b, n);
    LastPoint(a, b, n);
    assert h == 0.0 <==> a == b;
    FifthZero(h);
    var e := p.c4 * Fifth(h);
    assert PanelError(p, h) == 4.0 / 15.0 * e;
  }

  lemma FifthZero(h: real)
    ensures Fifth(h) == 0.0 <==> h == 0.0
  {
    if h != 0.0 {
      assert h * h > 0.0;
      assert h * h * h * h == (h * h) * (h * h) > 0.0;
    }
  }
}
