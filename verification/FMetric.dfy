/** The generator of the digit table (scripts/calculate-fmetric) and the metric that uses the table. */
module FMetricTable {
  import opened Bytes
  import opened Metrics
  import opened Sums

  const BYTES: nat := 256
  const S: nat := 65536

  /** The count of byte b if it is printable, else 0. */
  function PrintableCount(count: seq<nat>, b: nat): nat
    requires b < |count|
  {
    if IsStringByte(b) then count[b] else 0
  }

  function PrintableSum(count: seq<nat>, n: nat): nat
    requires n <= |count|
  {
    if n == 0 then 0 else PrintableSum(count, n - 1) + PrintableCount(count, n - 1)
  }

  function NonPrintables(n: nat): nat {
    if n == 0 then 0 else NonPrintables(n - 1) + if IsStringByte(n - 1) then 0 else 1
  }

  /** The minimal weight given to non-printable bytes. */
  function MinWeight(printable_sum: nat, non_printable_count: nat): nat
    requires non_printable_count < S
  {
    (printable_sum + S - non_printable_count - 1) / (S - non_printable_count)
  }

  function Preferred(count: seq<nat>, v: nat): (r: seq<nat>) {
    seq(|count|, b requires 0 <= b < |count| => if IsStringByte(b) then count[b] else v)
  }

  lemma {:induction false} NonPrintablesBound(n: nat)
    ensures NonPrintables(n) <= n
  {
    if n > 0 { NonPrintablesBound(n - 1); }
  }

  function V(count: seq<nat>): nat
    requires |count| == BYTES
  {
    NonPrintablesBound(|count|);
    MinWeight(PrintableSum(count, |count|), NonPrintables(|count|))
  }

  // ---------------------------------------------------------------- the ceiling division argument

  /** v is the ceiling of p / (S - n): the least weight with v / (n*v + p) >= 1/S. */
  lemma MinWeightLeast(p: nat, n: nat, v: nat)
    requires n < S
    ensures v >= MinWeight(p, n) <==> v * S >= n * v + p
  {
    var d := S - n;
    var m := MinWeight(p, n);
    assert v * S - n * v == v * d;
    CeilingDivision(p, d, v);
  }

  lemma CeilingDivision(p: nat, d: nat, v: nat)
    requires d > 0
    ensures v >= (p + d - 1) / d <==> v * d >= p
  {
    var m := (p + d - 1) / d;
    assert m * d <= p + d - 1 < m * d + d by { DivBounds(p + d - 1, d); }
    if v >= m {
      MulLeqNat(m, v, d);
    } else {
      MulLeqNat(v + 1, m, d);
    }
  }

  lemma DivBounds(x: nat, d: nat)
    requires d > 0
    ensures x / d * d <= x < x / d * d + d
  {
    assert x == d * (x / d) + x % d;
  }

  lemma MulLeqNat(x: nat, y: nat, z: nat)
    requires x <= y
    ensures x * z <= y * z
  {
    assert y * z == x * z + (y - x) * z;
  }

  // ---------------------------------------------------------------- sums over the table

  lemma {:induction false} SumPreferred(count: seq<nat>, v: nat, n: nat)
    requires n <= |count|
    ensures Sum(Preferred(count, v)[..n]) == PrintableSum(count, n) + NonPrintables(n) * v
  {
    if n > 0 {
      SumPreferred(count, v, n - 1);
      SumPush(Preferred(count, v), n - 1);
      MulPlusOne(NonPrintables(n - 1), v);
    }
  }

  lemma MulPlusOne(x: nat, y: nat)
    ensures (x + 1) * y == x * y + y
  {
  }

  lemma {:induction false} SumStep(s: seq<nat>, b: nat, c: nat, v: nat)
    requires b < c <= |s| && forall i :: 0 <= i < |s| ==> s[i] >= v
    ensures Sum(s[..b]) + v <= Sum(s[..c])
  {
    assert s[..c][..c - 1] == s[..c - 1];
    if b < c - 1 { SumStep(s, b, c - 1, v); }
  }

  // ---------------------------------------------------------------- the table

  /** The accumulated weight below b, relative to the total weight. */
  function Share(weights: seq<nat>, b: nat): real
    requires b <= |weights| && Sum(weights) > 0
  {
    Sum(weights[..b]) as real / Sum(weights) as real
  }

  /** The table as the script computes it, before it prints the factors with 14 decimals. */
  ghost predicate IsTable(factors: seq<real>, weights: seq<nat>) {
    && |factors| == |weights| == BYTES && Sum(weights) > 0
    && forall b :: 0 <= b < BYTES ==> factors[b] == Share(weights, b)
  }

  function TableDigit(factors: seq<real>): CChar -> real
    requires |factors| == BYTES
  {
    (b: CChar) => factors[b]
  }

  /** A weight of at least 1/S of the total for every byte spaces the digits for base S. */
  lemma TableSpaced(factors: seq<real>, weights: seq<nat>, v: nat)
    requires IsTable(factors, weights) && v * S >= Sum(weights)
    requires forall b :: 0 <= b < BYTES ==> weights[b] >= v
    ensures Spaced(TableDigit(factors), S as real, 1.0 / S as real)
  {
    var total, gap := Sum(weights), 1.0 / S as real;
    assert weights[..BYTES] == weights;
    forall b: CChar ensures gap <= factors[b] <= (S as real - 1.0) * gap {
      SumStep(weights, 0, b, v);
      SumStep(weights, b, BYTES, v);
      GapOf(0, Sum(weights[..b]), total, v);
      GapOf(Sum(weights[..b]), total, total, v);
    }
    forall b: CChar, c: CChar | b < c ensures factors[b] + gap <= factors[c] {
      SumStep(weights, b, c, v);
      SumNat(weights[..b]);
      SumNat(weights[..c]);
      GapOf(Sum(weights[..b]), Sum(weights[..c]), total, v);
    }
  }

  lemma GapOf(x: nat, y: nat, total: nat, v: nat)
    requires total > 0 && v * S >= total && x + v <= y
    ensures x as real / total as real + 1.0 / S as real <= y as real / total as real
    ensures y == total ==> y as real / total as real == 1.0
    ensures x == 0 ==> x as real / total as real == 0.0
  {
    QuotientTimes(x as real, total as real);
    QuotientTimes(y as real, total as real);
    GapTimes(total as real, v);
    var t := total as real;
    GapScaled(x as real / t, y as real / t, 1.0 / S as real, t, x as real, y as real, v as real);
  }

  lemma GapScaled(fx: real, fy: real, g: real, t: real, x: real, y: real, v: real)
    requires t > 0.0 && fx * t == x && fy * t == y && g * t <= v && x + v <= y
    ensures fx + g <= fy
    ensures y == t ==> fy == 1.0
    ensures x == 0.0 ==> fx == 0.0
  {
    assert (fx + g) * t == fx * t + g * t;
    if fx + g > fy { MulLess(fy, fx + g, t); }
  }

  lemma GapTimes(t: real, v: nat)
    requires (v * S) as real >= t
    ensures 1.0 / S as real * t <= v as real
  {
  }

  lemma MulLess(x: real, y: real, z: real)
    requires x < y && z > 0.0
    ensures x * z < y * z
  {
    assert y * z == x * z + (y - x) * z;
  }

  // ---------------------------------------------------------------- the script

  /** The script: the minimal weight v, the factors, and what it prints of them. (With a zero total it would divide by
      zero.) */
  method CalculateFMetric(binary_byte_count: array<nat>) returns (v: nat, factors: array<real>, digits: array<nat>)
    requires binary_byte_count.Length == BYTES && PrintableSum(binary_byte_count[..], binary_byte_count.Length) > 0
    ensures v == V(binary_byte_count[..])
    ensures IsTable(factors[..], Preferred(binary_byte_count[..], v))
    ensures Printed(digits[..], Preferred(binary_byte_count[..], v))
  {
    ghost var count := binary_byte_count[..];
    v := MinimalWeight(binary_byte_count);
    TotalPositive(count, v);
    hide V, PrintableSum, Preferred;
    var preferred := PreferredCounts(binary_byte_count, v);
    factors := Factors(preferred);
    digits := PrintFactors(factors, preferred[..]);
  }

  lemma TotalPositive(count: seq<nat>, v: nat)
    requires PrintableSum(count, |count|) > 0
    ensures Sum(Preferred(count, v)) > 0
  {
    SumPreferred(count, v, |count|);
    hide PrintableSum, NonPrintables;
    assert Preferred(count, v)[..|count|] == Preferred(count, v);
    ProductNat(NonPrintables(|count|), v);
  }

  lemma ProductNat(x: nat, y: nat)
    ensures x * y >= 0
  {
  }

  method MinimalWeight(binary_byte_count: array<nat>) returns (v: nat)
    requires binary_byte_count.Length == BYTES
    ensures v == V(binary_byte_count[..])
  {
    ghost var count := binary_byte_count[..];
    var printable_sum, non_printable_count := 0, 0;
    for b := 0 to binary_byte_count.Length
      invariant printable_sum == PrintableSum(count, b) && non_printable_count == NonPrintables(b)
    {
      if IsStringByte(b) {
        var val := binary_byte_count[b];
        printable_sum := printable_sum + val;
      } else {
        non_printable_count := non_printable_count + 1;
      }
    }
    NonPrintablesBound(|count|);
    v := (printable_sum + S - non_printable_count - 1) / (S - non_printable_count);
  }

  method PreferredCounts(binary_byte_count: array<nat>, v: nat) returns (preferred: array<nat>)
    requires binary_byte_count.Length == BYTES
    ensures fresh(preferred) && preferred[..] == Preferred(binary_byte_count[..], v)
  {
    preferred := new nat[BYTES];
    for b := 0 to BYTES
      invariant forall i :: 0 <= i < b ==> preferred[i] == if IsStringByte(i) then binary_byte_count[i] else v
    {
      if IsStringByte(b) {
        preferred[b] := binary_byte_count[b];
      } else {
        preferred[b] := v;
      }
    }
  }

  method Factors(preferred: array<nat>) returns (factors: array<real>)
    requires preferred.Length == BYTES && Sum(preferred[..]) > 0
    ensures fresh(factors) && IsTable(factors[..], preferred[..])
  {
    ghost var weights := preferred[..];
    var accumulated := new nat[preferred.Length];
    var partial_sum_prt := 0;
    for b := 0 to preferred.Length
      invariant partial_sum_prt == Sum(weights[..b])
      invariant forall i :: 0 <= i < b ==> accumulated[i] == Sum(weights[..i])
    {
      SumPush(weights, b);
      accumulated[b] := partial_sum_prt;
      partial_sum_prt := partial_sum_prt + preferred[b];
    }
    assert weights[..|weights|] == weights;
    var total_sum_prt := partial_sum_prt;
    factors := new real[preferred.Length];
    for b := 0 to preferred.Length
      invariant forall i :: 0 <= i < b ==> factors[i] == Share(weights, i)
      modifies factors
    {
      factors[b] := accumulated[b] as real / total_sum_prt as real;
    }
  }

  // ---------------------------------------------------------------- printing

  /** Printed factors are counted in units of 10^-14. */
  const UNITS: nat := 100_000_000_000_000

  /** Rounding to the nearest integer, halves to the even one. */
  function Round(x: real): (n: int)
    ensures x - 0.5 <= n as real <= x + 0.5
  {
    var low := x.Floor;
    var rest := x - low as real;
    if rest < 0.5 || (rest == 0.5 && low % 2 == 0) then low else low + 1
  }

  /** d is x / total in units of 10^-14, up to half a unit for rounding to an integer, and a fiftieth of a unit for
      the division: a quotient of doubles below 1 is off by at most 2^-53, which is less than 0.012 units. */
  predicate Nearest(d: nat, x: nat, total: nat) {
    -26 * total as int <= 50 * (d * total - UNITS * x) <= 26 * total
  }

  /** The table the script prints, whichever way halves are rounded, and also if it divides doubles. */
  ghost predicate Printed(digits: seq<nat>, weights: seq<nat>) {
    && |digits| == |weights| == BYTES && Sum(weights) > 0
    && forall b :: 0 <= b < BYTES ==> Sum(weights[..b]) >= 0 && Nearest(digits[b], Sum(weights[..b]), Sum(weights))
  }

  method PrintFactors(factors: array<real>, ghost weights: seq<nat>) returns (digits: array<nat>)
    requires IsTable(factors[..], weights)
    ensures fresh(digits) && Printed(digits[..], weights)
  {
    hide Round;
    digits := new nat[factors.Length];
    for b := 0 to factors.Length
      invariant forall i :: 0 <= i < b ==> Sum(weights[..i]) >= 0 && Nearest(digits[i], Sum(weights[..i]), Sum(weights))
    {
      SumNat(weights[..b]);
      assert factors[..][b] == Share(weights, b);
      RoundedShare(factors[b], Sum(weights[..b]), Sum(weights));
      digits[b] := Round(factors[b] * UNITS as real);
    }
  }

  lemma RoundedShare(share: real, x: nat, total: nat)
    requires total > 0 && share == x as real / total as real
    ensures Round(share * UNITS as real) >= 0 && Nearest(Round(share * UNITS as real), x, total)
  {
    QuotientTimes(x as real, total as real);
    RoundTimes(share, UNITS as real, total as real, x as real, Round(share * UNITS as real));
    hide Round;
    InIntegers(Round(share * UNITS as real), x, total);
  }

  lemma RoundTimes(share: real, u: real, t: real, x: real, d: int)
    requires share * t == x >= 0.0 && t > 0.0 && u > 0.0 && share * u - 0.5 <= d as real <= share * u + 0.5
    ensures d >= 0 && x * u - 0.5 * t <= d as real * t <= x * u + 0.5 * t
  {
    NotNegative(share, x, t);
    MulLeq(0.0, share, u);
    SwapFactors(share, u, t, x);
    WithinHalf(share * u, d as real, t, x * u);
  }

  lemma SwapFactors(share: real, u: real, t: real, x: real)
    requires share * t == x
    ensures share * u * t == x * u
  {
    assert share * u * t == u * (share * t);
  }

  lemma WithinHalf(y: real, d: real, t: real, z: real)
    requires y - 0.5 <= d <= y + 0.5 && t > 0.0 && y * t == z
    ensures z - 0.5 * t <= d * t <= z + 0.5 * t
  {
    var h := 0.5 * t;
    MulLeq(y - 0.5, d, t);
    assert z - h <= d * t;
    MulLeq(d, y + 0.5, t);
    assert d * t <= z + h;
  }

  lemma InIntegers(d: int, x: nat, total: nat)
    requires d >= 0
    requires x as real * UNITS as real - 0.5 * total as real <= d as real * total as real
    requires d as real * total as real <= x as real * UNITS as real + 0.5 * total as real
    ensures Nearest(d, x, total)
  {
    assert d as real * total as real == (d * total) as real;
  }

  lemma NotNegative(q: real, x: real, t: real)
    requires t > 0.0 && x >= 0.0 && q * t == x
    ensures q >= 0.0
  {
    if q < 0.0 { MulLess(q, 0.0, t); }
  }

  lemma SumPush(s: seq<nat>, b: nat)
    requires b < |s|
    ensures Sum(s[..b + 1]) == Sum(s[..b]) + s[b]
  {
    assert s[..b + 1][..b] == s[..b];
  }

  /** Before printing, every generated table makes metric_binary_printable_pref order strings exactly as strcmp does,
      provided no printable byte counted less than v. */
  lemma GeneratedTableAgrees(count: seq<nat>, factors: seq<real>, s: CString, t: CString)
    requires |count| == BYTES && PrintableSum(count, |count|) > 0
    requires IsTable(factors, Preferred(count, V(count)))
    requires forall b :: 0 <= b < BYTES && IsStringByte(b) ==> count[b] >= V(count)
    ensures StrCmp(s, t) < 0 <==> PrintablePref(factors, s) < PrintablePref(factors, t)
    ensures s == t <==> PrintablePref(factors, s) == PrintablePref(factors, t)
  {
    GeneratedTableSpaced(count, factors);
    ExpandAgrees(TableDigit(factors), S as real, 1.0 / S as real, s, t);
  }

  lemma GeneratedTableSpaced(count: seq<nat>, factors: seq<real>)
    requires |count| == BYTES && PrintableSum(count, |count|) > 0
    requires IsTable(factors, Preferred(count, V(count)))
    requires forall b :: 0 <= b < BYTES && IsStringByte(b) ==> count[b] >= V(count)
    ensures Spaced(TableDigit(factors), S as real, 1.0 / S as real)
  {
    GeneratedTotal(count);
    TableSpaced(factors, Preferred(count, V(count)), V(count));
  }

  /** The minimal weight is at least 1/S of the total. */
  lemma GeneratedTotal(count: seq<nat>)
    requires |count| == BYTES
    ensures V(count) * S >= Sum(Preferred(count, V(count)))
  {
    var v := V(count);
    NonPrintablesBound(|count|);
    SumPreferred(count, v, |count|);
    MinWeightLeast(PrintableSum(count, |count|), NonPrintables(|count|), v);
    assert Preferred(count, v)[..|count|] == Preferred(count, v);
  }

  /** metric_binary_printable_pref, as a function of the table. */
  function PrintablePref(factors: seq<real>, s: CString): real
    requires |factors| == BYTES
  {
    Expand(TableDigit(factors), S as real, s)
  }

  /** The first byte counts with its factor, everything behind it 65536 times less. */
  lemma PrintablePrefFirst(factors: seq<real>, b: CChar, s: CString)
    requires |factors| == BYTES
    ensures PrintablePref(factors, []) == 0.0
    ensures PrintablePref(factors, [b] + s) == factors[b] + PrintablePref(factors, s) / 65536.0
  {
    ExpandCons(TableDigit(factors), S as real, b, s);
  }

  method MetricBinaryPrintablePref(factors: seq<real>, str: CString) returns (result: real)
    requires |factors| == BYTES
    ensures result == PrintablePref(factors, str)
  {
    result := Accumulate(TableDigit(factors), S as real, str);
  }

  // ---------------------------------------------------------------- exactly which tables order strings

  /** Checkable on the weights before the table is used. */
  ghost predicate HeavyEnough(weights: seq<nat>)
    requires |weights| == BYTES
  {
    weights[0] > 0 && forall b :: 1 <= b < 255 ==> (S - 1) * weights[b] + weights[255] >= Sum(weights)
  }

  lemma QuotientDifference(x: nat, y: nat, total: nat)
    requires total > 0
    ensures (y as real / total as real - x as real / total as real) * total as real == y as real - x as real
  {
    var t := total as real;
    var fx, fy := x as real / t, y as real / t;
    QuotientTimes(x as real, t);
    QuotientTimes(y as real, t);
    assert (fy - fx) * t == fy * t - fx * t;
  }

  /** The step from b to c is wide enough exactly when the weight between them is. */
  lemma WideStepIff(factors: seq<real>, weights: seq<nat>, b: CChar, c: CChar)
    requires IsTable(factors, weights) && b < c
    ensures WideStep(TableDigit(factors), S as real, b, c)
       <==> (S - 1) * (Sum(weights[..c]) - Sum(weights[..b])) + weights[255] >= Sum(weights)
  {
    hide Sum, IsStringByte;
    var t := Sum(weights) as real;
    var step, top := factors[c] - factors[b], factors[255];
    SumNat(weights[..b]);
    SumNat(weights[..c]);
    QuotientDifference(Sum(weights[..b]), Sum(weights[..c]), Sum(weights));
    QuotientTimes(Sum(weights[..255]) as real, t);
    SumPush(weights, 255);
    assert weights[..256] == weights;
    var w := Sum(weights[..c]) - Sum(weights[..b]);
    assert step * t == w as real && top * t == (Sum(weights) - weights[255]) as real;
    CompareScaled(step, top, t, w as real);
  }

  lemma CompareScaled(step: real, top: real, t: real, w: real)
    requires t > 0.0 && step * t == w
    ensures step * (S as real - 1.0) >= top <==> w * (S as real - 1.0) >= top * t
  {
    var x := step * (S as real - 1.0);
    assert x * t == w * (S as real - 1.0);
    if x >= top { MulLeq(top, x, t); } else { MulLess(x, top, t); }
  }

  /** A table makes the metric order all strings as strcmp does if and only if its weights are heavy enough. */
  lemma TableOrdersIff(factors: seq<real>, weights: seq<nat>)
    requires IsTable(factors, weights)
    ensures OrdersStrings(TableDigit(factors), S as real) <==> HeavyEnough(weights)
  {
    var digit := TableDigit(factors);
    OrdersStringsIff(digit, S as real);
    hide OrdersStrings, WideStep;
    if WideSteps(digit, S as real) {
      SumPush(weights, 0);
      assert digit(1) > 0.0;
      forall b | 1 <= b < 255 ensures (S - 1) * weights[b] + weights[255] >= Sum(weights) {
        var c: CChar := b + 1;
        assert WideStep(digit, S as real, b, c);
        WideStepIff(factors, weights, b, c);
        SumPush(weights, b);
      }
    }
    if HeavyEnough(weights) {
      forall b: CChar ensures digit(b) > 0.0 {
        SumPush(weights, 0);
        SumStep(weights, 1, b + 1, 0);
        SumGrows(weights, 1, b);
        PositiveQuotient(Sum(weights[..b]) as real, Sum(weights) as real);
      }
      forall b: CChar, c: CChar {:trigger WideStep(digit, S as real, b, c)} | b < c
        ensures WideStep(digit, S as real, b, c)
      {
        WideStepIff(factors, weights, b, c);
        SumPush(weights, b);
        SumGrows(weights, b + 1, c);
      }
    }
  }

  lemma {:induction false} SumGrows(s: seq<nat>, b: nat, c: nat)
    requires b <= c <= |s|
    ensures Sum(s[..b]) <= Sum(s[..c])
  {
    if b < c {
      SumPush(s, c - 1);
      SumGrows(s, b, c - 1);
    }
  }

  /** The promise of the generator before it prints: with no printable byte below v, the weights are heavy enough. */
  lemma GeneratedHeavy(count: seq<nat>, factors: seq<real>)
    requires |count| == BYTES && PrintableSum(count, |count|) > 0
    requires IsTable(factors, Preferred(count, V(count)))
    requires forall b :: 0 <= b < BYTES && IsStringByte(b) ==> count[b] >= V(count)
    ensures HeavyEnough(Preferred(count, V(count)))
  {
    GeneratedTableSpaced(count, factors);
    SpacedOrders(TableDigit(factors), S as real, 1.0 / S as real);
    TableOrdersIff(factors, Preferred(count, V(count)));
  }

  /** What goes wrong otherwise: a printable byte that was never counted is not told from its successor. */
  lemma UncountedByteCollides(factors: seq<real>, weights: seq<nat>, b: CChar)
    requires IsTable(factors, weights) && b < 255 && weights[b] == 0
    ensures var c: CChar := b + 1;
      StrCmp([b], [c]) < 0 && PrintablePref(factors, [b]) == PrintablePref(factors, [c])
  {
    assert weights[..b + 1][..b] == weights[..b];
    var c: CChar := b + 1;
    assert [b][1..] == [] && [c][1..] == [];
  }
}
