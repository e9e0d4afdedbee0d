/** The baseline's statistics over exact reals: the Wilson interval on a pass
    rate and the nearest-rank 95th percentile. */
module BaselineStats {
  import opened Decimals

  // ---- the Wilson interval ------------------------------------------------

  datatype Interval = Interval(lo: real, hi: real)

  /** Any square root: `math.sqrt` without rounding. */
  ghost predicate IsSqrt(sqrt: real -> real) {
    forall x :: x >= 0.0 ==> sqrt(x) >= 0.0 && sqrt(x) * sqrt(x) == x
  }

  function Discriminant(passes: int, total: int, z: real): real
    requires total != 0
  {
    var n, p := total as real, passes as real / total as real;
    p * (1.0 - p) / n + z * z / (4.0 * n * n)
  }

  /** The interval before clamping. */
  function Raw(passes: int, total: int, z: real, root: real): Interval
    requires total > 0
  {
    var n, p := total as real, passes as real / total as real;
    SquareOver(z, n);
    var denom := 1.0 + z * z / n;
    var centre := (p + z * z / (2.0 * n)) / denom;
    var half := z * root / denom;
    Interval(centre - half, centre + half)
  }

  /** `_wilson_ci`; None is the ValueError of a negative square root. */
  function WilsonCi(passes: int, total: nat, z: real, sqrt: real -> real): Option<Interval> {
    if total == 0 then Some(Interval(0.0, 0.0))
    else
      var d := Discriminant(passes, total, z);
      if d < 0.0 then None
      else
        var r := Raw(passes, total, z, sqrt(d));
        Some(Interval(if r.lo > 0.0 then r.lo else 0.0, if r.hi < 1.0 then r.hi else 1.0))
  }

  lemma SquareOver(z: real, n: real)
    requires n > 0.0
    ensures z * z / n >= 0.0
  {
    assert z * z >= 0.0;
  }

  /** Over the common denominator the ends are p + w/2 - h and p + w/2 + h, with w = z²/n and h² = w p (1-p) + w²/4. */
  datatype Shape = Shape(p: real, w: real, h: real)

  predicate Shaped(s: Shape) {
    0.0 <= s.p <= 1.0 && s.w >= 0.0 && s.h >= 0.0 && s.h * s.h == s.w * (s.p * (1.0 - s.p)) + s.w * s.w / 4.0
  }

  function Lo(s: Shape): real requires s.w >= 0.0 { (s.p + s.w / 2.0 - s.h) / (1.0 + s.w) }

  function Hi(s: Shape): real requires s.w >= 0.0 { (s.p + s.w / 2.0 + s.h) / (1.0 + s.w) }

  lemma SquareMonotone(a: real, b: real)
    requires b >= 0.0 && a * a <= b * b
    ensures a <= b
  {
    if a > b { SquareGrows(a, b); }
  }

  lemma SquareGrows(a: real, b: real)
    requires a > b >= 0.0
    ensures a * a > b * b
  {
    Times(a - b, 0.0, a + b);
    assert (a - b) * (a + b) == a * a - b * b;
  }

  lemma Times(a: real, b: real, c: real)
    ensures c > 0.0 && a > b ==> a * c > b * c
    ensures c >= 0.0 && a >= b ==> a * c >= b * c
  {
  }

  lemma ProductNonNegative(a: real, b: real)
    requires a >= 0.0 && b >= 0.0
    ensures a * b >= 0.0
  {
  }

  /** h is at least the distance of p from the middle, scaled by w. */
  lemma HalfWidthBound(s: Shape)
    requires Shaped(s)
    ensures s.h >= s.w / 2.0 - s.p * s.w && s.h >= s.p * s.w - s.w / 2.0
  {
    var p, w := s.p, s.w;
    var u := w / 2.0 - p * w;
    var v := p * (1.0 - p);
    ProductNonNegative(p, 1.0 - p);
    ProductNonNegative(w, v);
    ProductNonNegative(w, w);
    ProductNonNegative(w * w, v);
    assert u * u == w * w / 4.0 - w * w * v;
    SquareMonotone(u, s.h);
    SquareMonotone(-u, s.h);
  }

  lemma HalfWidthBelow(w: real, x: real, y: real, h: real)
    requires w >= 0.0 && 0.0 <= x && 0.0 <= y && x + y == 1.0 && h >= 0.0 && h * h == w * (x * y) + w * w / 4.0
    ensures h <= x + w / 2.0
  {
    var b := x + w / 2.0;
    ProductNonNegative(w, x);
    ProductNonNegative(w, x * x);
    ProductNonNegative(x, x);
    assert x * y == x - x * x;
    assert w * (x * y) == w * x - w * (x * x);
    assert b * b == x * x + w * x + w * w / 4.0;
    SquareMonotone(h, b);
  }

  lemma OverDenominator(a: real, b: real, w: real)
    requires w >= 0.0 && a <= b * (1.0 + w)
    ensures a / (1.0 + w) <= b
  {
    if a / (1.0 + w) > b { Times(a / (1.0 + w), b, 1.0 + w); }
  }

  lemma AboveDenominator(a: real, b: real, w: real)
    requires w >= 0.0 && a >= b * (1.0 + w)
    ensures a / (1.0 + w) >= b
  {
    if a / (1.0 + w) < b { Times(b, a / (1.0 + w), 1.0 + w); }
  }

  lemma ShapeBounds(s: Shape)
    requires Shaped(s)
    ensures 0.0 <= Lo(s) <= s.p <= Hi(s) <= 1.0
  {
    var p, w, h := s.p, s.w, s.h;
    HalfWidthBelow(w, p, 1.0 - p, h);
    assert h * h == w * ((1.0 - p) * p) + w * w / 4.0;
    HalfWidthBelow(w, 1.0 - p, p, h);
    HalfWidthBound(s);
    AboveDenominator(p + w / 2.0 - h, 0.0, w);
    assert p * (1.0 + w) == p + p * w;
    OverDenominator(p + w / 2.0 - h, p, w);
    AboveDenominator(p + w / 2.0 + h, p, w);
    OverDenominator(p + w / 2.0 + h, 1.0, w);
  }

  /** The half width is 1-Lipschitz in p. */
  lemma HalfWidthLipschitz(s: Shape, t: Shape)
    requires Shaped(s) && Shaped(t) && s.w == t.w && s.p <= t.p
    ensures -(t.p - s.p) <= t.h - s.h <= t.p - s.p
  {
    var d, sum, m := t.p - s.p, s.h + t.h, s.w * (1.0 - s.p - t.p);
    HalfWidthBound(s);
    HalfWidthBound(t);
    assert m == (s.w / 2.0 - s.p * s.w) + (t.w / 2.0 - t.p * t.w);
    assert -sum <= m <= sum;
    DifferenceOfSquares(s, t);
    Scaled(t.h - s.h, d, sum, m);
    assert (s.h - t.h) * sum == -((t.h - s.h) * sum) && d * -m == -(d * m);
    Scaled(s.h - t.h, d, sum, -m);
  }

  lemma DifferenceOfSquares(s: Shape, t: Shape)
    requires Shaped(s) && Shaped(t) && s.w == t.w
    ensures (t.h - s.h) * (s.h + t.h) == (t.p - s.p) * (s.w * (1.0 - s.p - t.p))
  {
    var w := s.w;
    assert (t.h - s.h) * (s.h + t.h) == t.h * t.h - s.h * s.h;
    var a, b := t.p * (1.0 - t.p), s.p * (1.0 - s.p);
    assert w * a - w * b == w * (a - b);
    assert a - b == (t.p - s.p) * (1.0 - s.p - t.p);
    Reassociate(w, t.p - s.p, 1.0 - s.p - t.p);
  }

  lemma Reassociate(a: real, b: real, c: real)
    ensures a * (b * c) == b * (a * c)
  {
  }

  /** x·sum = d·m with |m| and x at most sum. */
  lemma Scaled(x: real, d: real, sum: real, m: real)
    requires d >= 0.0 && sum >= 0.0 && m <= sum && x <= sum
    requires x * sum == d * m
    ensures x <= d
  {
    ProductNonNegative(d, sum - m);
    assert d * (sum - m) == d * sum - d * m;
    if x > d { Times(x, d, sum); }
  }

  lemma ShapeMonotone(s: Shape, t: Shape)
    requires Shaped(s) && Shaped(t) && s.w == t.w && s.p <= t.p
    ensures Lo(s) <= Lo(t) && Hi(s) <= Hi(t)
  {
    HalfWidthLipschitz(s, t);
    DivideMonotone(s.p + s.w / 2.0 - s.h, t.p + t.w / 2.0 - t.h, 1.0 + s.w);
    DivideMonotone(s.p + s.w / 2.0 + s.h, t.p + t.w / 2.0 + t.h, 1.0 + s.w);
  }

  lemma DivideMonotone(a: real, b: real, c: real)
    requires c > 0.0 && a <= b
    ensures a / c <= b / c
  {
    var x, y := a / c, b / c;
    if x > y { Times(x, y, c); }
  }

  // ---- the theorems -------------------------------------------------------

  function ShapeOf(passes: int, total: nat, z: real, root: real): Shape
    requires total > 0
  {
    Shape(passes as real / total as real, z * z / total as real, z * root)
  }

  lemma Ratio(passes: nat, total: nat)
    requires passes <= total && total > 0
    ensures 0.0 <= passes as real / total as real <= 1.0
  {
  }

  lemma DiscriminantNonNegative(passes: nat, total: nat, z: real)
    requires passes <= total && total > 0
    ensures Discriminant(passes, total, z) >= 0.0
  {
    var n, p := total as real, passes as real / total as real;
    Ratio(passes, total);
    ProductNonNegative(p, 1.0 - p);
    ProductNonNegative(n, n);
    QuotientNonNegative(p * (1.0 - p), n);
    SquareNonNegative(z);
    assert 4.0 * n * n == 4.0 * (n * n) && n * n >= n;
    QuotientNonNegative(z * z, 4.0 * n * n);
  }

  lemma SquareNonNegative(x: real)
    ensures x * x >= 0.0
  {
  }

  lemma QuotientNonNegative(a: real, b: real)
    requires a >= 0.0 && b > 0.0
    ensures a / b >= 0.0
  {
  }

  lemma RawIsShaped(passes: nat, total: nat, z: real, root: real)
    requires passes <= total && total > 0 && z >= 0.0
    requires root >= 0.0 && root * root == Discriminant(passes, total, z)
    ensures var s := ShapeOf(passes, total, z, root);
            Shaped(s) && Raw(passes, total, z, root) == Interval(Lo(s), Hi(s))
  {
    var n, p := total as real, passes as real / total as real;
    var s := ShapeOf(passes, total, z, root);
    Ratio(passes, total);
    SquareOver(z, n);
    ProductNonNegative(z, root);
    SquareOfProduct(z, root);
    Spread(z * z, p * (1.0 - p), n);
    HalfOver(z * z, n);
    Separate(s.p + s.w / 2.0, s.h, 1.0 + s.w);
  }

  lemma SquareOfProduct(a: real, b: real)
    ensures (a * b) * (a * b) == (a * a) * (b * b)
  {
  }

  lemma HalfOver(a: real, n: real)
    requires n > 0.0
    ensures a / (2.0 * n) == a / n / 2.0
  {
  }

  lemma Separate(a: real, b: real, c: real)
    requires c > 0.0
    ensures (a - b) / c == a / c - b / c && (a + b) / c == a / c + b / c
  {
  }

  lemma Spread(zz: real, v: real, n: real)
    requires n > 0.0
    ensures 4.0 * n * n > 0.0
    ensures zz * (v / n + zz / (4.0 * n * n)) == zz / n * v + (zz / n) * (zz / n) / 4.0
  {
    var u := 1.0 / n;
    ProductNonNegative(n, n);
    assert u * n == 1.0;
    assert v / n == v * u && zz / n == zz * u;
    Quarter(zz, n, u);
  }

  lemma Quarter(zz: real, n: real, u: real)
    requires n > 0.0 && u * n == 1.0
    ensures 4.0 * n * n > 0.0
    ensures zz / (4.0 * n * n) == zz * (u * u) / 4.0
  {
    ProductNonNegative(n, n);
    var x := zz * (u * u) / 4.0;
    assert n * n > 0.0;
    assert (u * u) * (n * n) == (u * n) * (u * n) == 1.0;
    assert x * (4.0 * n * n) == zz * ((u * u) * (n * n));
  }

  lemma WilsonEnds(passes: nat, total: nat, z: real, sqrt: real -> real) returns (s: Shape)
    requires passes <= total && total > 0 && z >= 0.0 && IsSqrt(sqrt)
    ensures s.p == passes as real / total as real && s.w == z * z / total as real && Shaped(s)
    ensures Raw(passes, total, z, sqrt(Discriminant(passes, total, z))) == Interval(Lo(s), Hi(s))
    ensures WilsonCi(passes, total, z, sqrt) == Some(Interval(Lo(s), Hi(s)))
  {
    DiscriminantNonNegative(passes, total, z);
    var root := sqrt(Discriminant(passes, total, z));
    RawIsShaped(passes, total, z, root);
    s := ShapeOf(passes, total, z, root);
    ShapeBounds(s);
    hide Raw, Discriminant, Lo, Hi, Shaped;
  }

  /** For every pass count of a non-empty sample and every z ≥ 0 the interval contains the observed rate, lies in
      [0, 1], and is the unclamped one: both clamps are redundant in exact arithmetic. */
  lemma WilsonContainsTheRate(passes: nat, total: nat, z: real, sqrt: real -> real)
    requires passes <= total && total > 0 && z >= 0.0 && IsSqrt(sqrt)
    ensures var r := WilsonCi(passes, total, z, sqrt);
            && r.Some?
            && r.value == Raw(passes, total, z, sqrt(Discriminant(passes, total, z)))
            && 0.0 <= r.value.lo <= passes as real / total as real <= r.value.hi <= 1.0
  {
    var s := WilsonEnds(passes, total, z, sqrt);
    ShapeBounds(s);
    hide Raw, Discriminant, Lo, Hi, WilsonCi, Shaped;
  }

  /** One more pass never lowers either end. */
  lemma WilsonIsMonotone(passes: nat, more: nat, total: nat, z: real, sqrt: real -> real)
    requires passes <= more <= total && total > 0 && z >= 0.0 && IsSqrt(sqrt)
    ensures var a, b := WilsonCi(passes, total, z, sqrt), WilsonCi(more, total, z, sqrt);
            a.Some? && b.Some? && a.value.lo <= b.value.lo && a.value.hi <= b.value.hi
  {
    var s := WilsonEnds(passes, total, z, sqrt);
    var t := WilsonEnds(more, total, z, sqrt);
    hide Raw, Discriminant, Lo, Hi, WilsonCi, Shaped;
    DivideMonotone(passes as real, more as real, total as real);
    ShapeMonotone(s, t);
  }

  // ---- what the interval is -----------------------------------------------

  lemma SquareOfDifference(a: real, b: real)
    ensures (a - b) * (a - b) == a * a - 2.0 * a * b + b * b
  {
  }

  /** y lies within h of m exactly when the square of its distance is at most h². */
  lemma WithinIff(y: real, m: real, h: real)
    requires h >= 0.0
    ensures (y - m) * (y - m) <= h * h <==> m - h <= y <= m + h
  {
    var d := if y >= m then y - m else m - y;
    assert d * d == (y - m) * (y - m) by { SquareOfDifference(y, m); SquareOfDifference(m, y); }
    if d * d <= h * h { SquareMonotone(d, h); }
    Times(h, d, d);
    Times(h, d, h);
  }

  /** How far the observed rate is from what x predicts, against the tolerance. */
  function Excess(s: Shape, x: real): real { (s.p - x) * (s.p - x) - s.w * (x * (1.0 - x)) }

  /** The squared distance of the scaled rate from the middle. */
  function Distance(s: Shape, x: real): real {
    ((1.0 + s.w) * x - (s.p + s.w / 2.0)) * ((1.0 + s.w) * x - (s.p + s.w / 2.0))
  }

  /** Completing the square. */
  lemma Completed(s: Shape, x: real)
    requires Shaped(s)
    ensures Distance(s, x) - s.h * s.h == (1.0 + s.w) * Excess(s, x)
  {
    SquareOfDifference((1.0 + s.w) * x, s.p + s.w / 2.0);
    SquareOfDifference(s.p, x);
    Expanded(s.p, s.w, x);
  }

  lemma Expanded(p: real, w: real, x: real)
    ensures ((1.0 + w) * x) * ((1.0 + w) * x) - 2.0 * ((1.0 + w) * x) * (p + w / 2.0)
              + (p + w / 2.0) * (p + w / 2.0) - (w * (p * (1.0 - p)) + w * w / 4.0)
         == (1.0 + w) * (p * p - 2.0 * p * x + x * x - w * (x * (1.0 - x)))
  {
  }

  lemma SignOfProduct(c: real, t: real)
    requires c > 0.0
    ensures c * t <= 0.0 <==> t <= 0.0
  {
    if t > 0.0 { assert c * t > 0.0; }
    if t <= 0.0 { ProductNonNegative(c, -t); assert c * -t == -(c * t); }
  }

  lemma Scaled1(a: real, c: real, x: real)
    requires c > 0.0
    ensures a <= c * x <==> a / c <= x
    ensures c * x <= a <==> x <= a / c
  {
    var u := a / c;
    assert u * c == a && c * x == x * c;
    Times(u, x, c);
    Times(x, u, c);
  }

  lemma EndsIff(s: Shape, x: real)
    requires Shaped(s)
    ensures Distance(s, x) <= s.h * s.h <==> Lo(s) <= x <= Hi(s)
  {
    var c, m := 1.0 + s.w, s.p + s.w / 2.0;
    WithinIff(c * x, m, s.h);
    Scaled1(m - s.h, c, x);
    Scaled1(m + s.h, c, x);
  }

  lemma ScoreOfShape(s: Shape, x: real)
    requires Shaped(s)
    ensures Excess(s, x) <= 0.0 <==> Lo(s) <= x <= Hi(s)
  {
    hide Excess, Distance, Lo, Hi;
    Completed(s, x);
    SignOfProduct(1.0 + s.w, Excess(s, x));
    EndsIff(s, x);
  }

  lemma ScaleBothSides(s: Shape, n: real, zz: real, x: real)
    requires n > 0.0 && s.w == zz / n
    ensures n * ((s.p - x) * (s.p - x)) <= zz * (x * (1.0 - x)) <==> Excess(s, x) <= 0.0
  {
    var d, v := (s.p - x) * (s.p - x), x * (1.0 - x);
    assert zz == s.w * n;
    Regrouped(s.w, n, v);
    Times(d, s.w * v, n);
    Times(s.w * v, d, n);
  }

  lemma Regrouped(w: real, n: real, v: real)
    ensures w * n * v == (w * v) * n
  {
  }

  /** The interval is the inverse of the score test: a rate x lies in it if and only if the observed passes are no more
      than z standard deviations away from what x predicts. */
  lemma WilsonInvertsTheScoreTest(passes: nat, total: nat, z: real, sqrt: real -> real, x: real)
    requires passes <= total && total > 0 && z >= 0.0 && IsSqrt(sqrt)
    ensures var r, p := WilsonCi(passes, total, z, sqrt), passes as real / total as real;
            r.Some? && (r.value.lo <= x <= r.value.hi <==>
                          total as real * ((p - x) * (p - x)) <= z * z * (x * (1.0 - x)))
  {
    hide Raw, Discriminant, Lo, Hi, WilsonCi, Shaped, Excess;
    var s := WilsonEnds(passes, total, z, sqrt);
    ScoreOfShape(s, x);
    ScaleBothSides(s, total as real, z * z, x);
  }

  /** An empty sample has the interval [0, 0]. */
  lemma EmptySample(passes: int, z: real, sqrt: real -> real)
    ensures WilsonCi(passes, 0, z, sqrt) == Some(Interval(0.0, 0.0))
  {
  }

  // ---- the nearest-rank percentile ----------------------------------------

  function Insert(x: real, s: seq<real>): seq<real> {
    if s == [] || x <= s[0] then [x] + s else [s[0]] + Insert(x, s[1..])
  }

  function Sorted(s: seq<real>): (r: seq<real>)
    ensures |r| == |s|
  {
    if s == [] then [] else
      var rest := Sorted(s[1..]);
      InsertLength(s[0], rest);
      Insert(s[0], rest)
  }

  lemma {:induction false} InsertLength(x: real, s: seq<real>)
    ensures |Insert(x, s)| == |s| + 1
  {
    if s != [] && x > s[0] { InsertLength(x, s[1..]); }
  }

  /** `_p95`: rank ⌈0.95 n⌉ of the sorted values, counted from one. */
  function P95(values: seq<real>): real {
    if values == [] then 0.0 else Sorted(values)[(19 * |values| + 19) / 20 - 1]
  }

  function CountIf(s: seq<real>, p: real -> bool): (n: nat)
    ensures n <= |s|
  {
    if s == [] then 0 else (if p(s[0]) then 1 else 0) + CountIf(s[1..], p)
  }

  lemma {:induction false} CountInsert(x: real, s: seq<real>, p: real -> bool)
    ensures CountIf(Insert(x, s), p) == CountIf([x] + s, p)
  {
    if s != [] && x > s[0] {
      CountInsert(x, s[1..], p);
      assert ([s[0]] + Insert(x, s[1..]))[1..] == Insert(x, s[1..]);
      assert ([x] + s)[1..] == s && ([x] + s[1..])[1..] == s[1..];
    }
  }

  lemma {:induction false} CountSorted(s: seq<real>, p: real -> bool)
    ensures CountIf(Sorted(s), p) == CountIf(s, p)
  {
    if s != [] {
      CountSorted(s[1..], p);
      CountInsert(s[0], Sorted(s[1..]), p);
      assert ([s[0]] + Sorted(s[1..]))[1..] == Sorted(s[1..]);
    }
  }

  predicate Ascending(s: seq<real>) { forall i, j :: 0 <= i < j < |s| ==> s[i] <= s[j] }

  lemma {:induction false} InsertAscends(x: real, s: seq<real>)
    requires Ascending(s)
    ensures Ascending(Insert(x, s))
    ensures forall y :: y in Insert(x, s) <==> y == x || y in s
  {
    if s != [] && x > s[0] {
      InsertAscends(x, s[1..]);
      var r := Insert(x, s[1..]);
      assert s == [s[0]] + s[1..];
      assert forall y :: y in r ==> s[0] <= y;
      assert forall i :: 0 <= i < |r| ==> r[i] in r;
    }
  }

  lemma {:induction false} SortedAscends(s: seq<real>)
    ensures Ascending(Sorted(s))
    ensures forall y :: y in Sorted(s) <==> y in s
  {
    if s != [] {
      SortedAscends(s[1..]);
      InsertAscends(s[0], Sorted(s[1..]));
      assert s == [s[0]] + s[1..];
    }
  }

  lemma {:induction false} CountRank(s: seq<real>, k: nat)
    requires Ascending(s) && k < |s|
    ensures CountIf(s, y => y <= s[k]) >= k + 1
    ensures CountIf(s, y => y < s[k]) <= k
  {
    var x := s[k];
    if k == 0 {
      CountNone(s, y => y < x);
    } else {
      CountRank(s[1..], k - 1);
      assert s[1..][k - 1] == x;
    }
  }

  lemma {:induction false} CountNone(s: seq<real>, p: real -> bool)
    requires forall i :: 0 <= i < |s| ==> !p(s[i])
    ensures CountIf(s, p) == 0
  {
    if s != [] { CountNone(s[1..], p); }
  }

  /** The percentile is one of the values; at least 95% of the values do not exceed it, and fewer than 95% lie
      below it, so no smaller value would do. */
  lemma P95Covers(values: seq<real>)
    requires values != []
    ensures var r := P95(values);
            && r in values
            && 100 * CountIf(values, y => y <= r) >= 95 * |values|
            && 100 * CountIf(values, y => y < r) < 95 * |values|
  {
    var s, k := Sorted(values), (19 * |values| + 19) / 20 - 1;
    SortedAscends(values);
    var r := s[k];
    assert r in s;
    CountRank(s, k);
    CountSorted(values, y => y <= r);
    CountSorted(values, y => y < r);
  }
}
