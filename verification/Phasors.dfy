/** Phasors, the one-cycle Fourier filter and the zero-sequence processor, over the reals. */
module Phasors {
  import opened Window

  /** The functions of the mathematics library, all but `hypot` arbitrary. */
  datatype Math = Math(pi: real, cos: real -> real, sin: real -> real,
                       hypot: (real, real) -> real, atan2: (real, real) -> real)

  ghost predicate Euclidean(m: Math) {
    forall x, y :: m.hypot(x, y) >= 0.0 && m.hypot(x, y) * m.hypot(x, y) == x * x + y * y
  }

  datatype Phasor = Phasor(Real: real, Imag: real, Mag: real, Angle: real)

  const ZERO := Phasor(0.0, 0.0, 0.0, 0.0)

  function NewPhasor(m: Math, re: real, im: real): Phasor {
    Phasor(re, im, m.hypot(re, im), m.atan2(im, re))
  }

  function Add(m: Math, p: Phasor, q: Phasor): Phasor {
    NewPhasor(m, p.Real + q.Real, p.Imag + q.Imag)
  }

  function Sub(m: Math, p: Phasor, q: Phasor): Phasor {
    NewPhasor(m, p.Real - q.Real, p.Imag - q.Imag)
  }

  function Times(x: real, k: real): real {
    x * k
  }

  function Scale(m: Math, p: Phasor, k: real): Phasor {
    NewPhasor(m, Times(p.Real, k), Times(p.Imag, k))
  }

  /** What every phasor of the program satisfies. */
  ghost predicate Proper(p: Phasor) {
    p.Mag >= 0.0 && p.Mag * p.Mag == p.Real * p.Real + p.Imag * p.Imag
  }

  // ---------------------------------------------------------------- magnitudes

  lemma Product(a: real, b: real)
    requires a >= 0.0 && b >= 0.0
    ensures a * b >= 0.0
  {
  }

  lemma SquareNonneg(a: real)
    ensures a * a >= 0.0
  {
  }

  lemma PositiveProduct(a: real, b: real)
    requires a > 0.0 && b > 0.0
    ensures a * b > 0.0
  {
  }

  lemma SquareAbove(a: real, b: real)
    requires a > b >= 0.0
    ensures a * a > b * b
  {
    PositiveProduct(a - b, a + b);
    assert (a - b) * (a + b) == a * a - b * b;
  }

  lemma SquareBelow(a: real, b: real)
    requires b >= 0.0 && a * a <= b * b
    ensures a <= b
  {
    if a > b { SquareAbove(a, b); }
  }

  /** A magnitude is determined by its square. */
  lemma SameMagnitude(a: real, b: real)
    requires a >= 0.0 && b >= 0.0 && a * a == b * b
    ensures a == b
  {
    SquareBelow(a, b);
    SquareBelow(b, a);
  }

  /** Lagrange's identity behind the triangle inequality. */
  lemma Cauchy(x: real, y: real, u: real, v: real)
    ensures (x * u + y * v) * (x * u + y * v) + (x * v - y * u) * (x * v - y * u) == (x * x + y * y) * (u * u + v * v)
  {
    var xu, yv, xv, yu := x * u, y * v, x * v, y * u;
    assert (x * x + y * y) * (u * u + v * v) == xu * xu + xv * xv + yu * yu + yv * yv by {
      Swap(x, u); Swap(x, v); Swap(y, u); Swap(y, v);
      assert (x * x + y * y) * (u * u + v * v)
          == (x * x) * (u * u) + (x * x) * (v * v) + (y * y) * (u * u) + (y * y) * (v * v);
    }
    assert xu * yv == xv * yu by {
      assert (x * u) * (y * v) == (x * v) * (y * u);
    }
  }

  lemma Swap(a: real, b: real)
    ensures (a * a) * (b * b) == (a * b) * (a * b)
  {
  }

  /** The inner product of two phasors, of either sign, is at most the product of their magnitudes. */
  lemma InnerProduct(p: Phasor, q: Phasor)
    requires Proper(p) && Proper(q)
    ensures -(p.Mag * q.Mag) <= p.Real * q.Real + p.Imag * q.Imag <= p.Mag * q.Mag
  {
    var t, c := p.Real * q.Real + p.Imag * q.Imag, p.Real * q.Imag - p.Imag * q.Real;
    Cauchy(p.Real, p.Imag, q.Real, q.Imag);
    Swap(p.Mag, q.Mag);
    SquareNonneg(c);
    assert t * t <= (p.Mag * q.Mag) * (p.Mag * q.Mag);
    Product(p.Mag, q.Mag);
    SquareBelow(t, p.Mag * q.Mag);
    assert (-t) * (-t) == t * t;
    SquareBelow(-t, p.Mag * q.Mag);
  }

  /** The triangle inequality, both ways: the sum and the difference of two phasors are no longer than both together and
      no shorter than the difference of their lengths. */
  lemma Triangle(m: Math, p: Phasor, q: Phasor)
    requires Euclidean(m) && Proper(p) && Proper(q)
    ensures Sub(m, p, q).Mag <= p.Mag + q.Mag
    ensures p.Mag - q.Mag <= Sub(m, p, q).Mag && q.Mag - p.Mag <= Sub(m, p, q).Mag
    ensures Add(m, p, q).Mag <= p.Mag + q.Mag
    ensures p.Mag - q.Mag <= Add(m, p, q).Mag && q.Mag - p.Mag <= Add(m, p, q).Mag
  {
    SubTriangle(m, p, q);
    var opposite := Phasor(-q.Real, -q.Imag, q.Mag, q.Angle);
    SubTriangle(m, p, opposite);
    assert Sub(m, p, opposite).Mag == Add(m, p, q).Mag;
  }

  lemma Binomials(x: real, y: real)
    ensures (x - y) * (x - y) == x * x + y * y - 2.0 * (x * y)
    ensures (y - x) * (y - x) == x * x + y * y - 2.0 * (x * y)
    ensures (x + y) * (x + y) == x * x + y * y + 2.0 * (x * y)
    ensures 4.0 * ((x + y) / 2.0 * ((x + y) / 2.0)) == x * x + y * y + 2.0 * (x * y)
  {
  }

  /** The law of cosines. */
  lemma CosineLaw(m: Math, p: Phasor, q: Phasor)
    requires Euclidean(m) && Proper(p) && Proper(q)
    ensures var d := Sub(m, p, q).Mag;
            d >= 0.0 && d * d == p.Mag * p.Mag + q.Mag * q.Mag - 2.0 * (p.Real * q.Real + p.Imag * q.Imag)
  {
    var d := Sub(m, p, q);
    assert d.Mag * d.Mag == d.Real * d.Real + d.Imag * d.Imag;
    Binomials(p.Real, q.Real);
    Binomials(p.Imag, q.Imag);
  }

  /** A side between two others whose angle is anything at all. */
  lemma SideBounds(d: real, a: real, b: real, t: real)
    requires d >= 0.0 && a >= 0.0 && b >= 0.0 && d * d == a * a + b * b - 2.0 * t
    requires -(a * b) <= t <= a * b
    ensures d <= a + b && a - b <= d && b - a <= d
  {
    Binomials(a, b);
    SquareBelow(d, a + b);
    SquareBelow(a - b, d);
    SquareBelow(b - a, d);
  }

  lemma SubTriangle(m: Math, p: Phasor, q: Phasor)
    requires Euclidean(m) && Proper(p) && Proper(q)
    ensures Sub(m, p, q).Mag <= p.Mag + q.Mag
    ensures p.Mag - q.Mag <= Sub(m, p, q).Mag && q.Mag - p.Mag <= Sub(m, p, q).Mag
  {
    InnerProduct(p, q);
    CosineLaw(m, p, q);
    hide Sub, Euclidean;
    SideBounds(Sub(m, p, q).Mag, p.Mag, q.Mag, p.Real * q.Real + p.Imag * q.Imag);
  }

  function Abs(x: real): real {
    if x < 0.0 then -x else x
  }

  lemma ScaledMagnitude(m: Math, p: Phasor, k: real)
    requires Euclidean(m) && Proper(p)
    ensures Scale(m, p, k).Mag == Abs(k) * p.Mag
  {
    var s := Scale(m, p, k);
    Product(Abs(k), p.Mag);
    Swap(p.Real, k);
    Swap(p.Imag, k);
    Swap(Abs(k), p.Mag);
    assert s.Mag * s.Mag == (p.Real * p.Real) * (k * k) + (p.Imag * p.Imag) * (k * k);
    assert Abs(k) * Abs(k) == k * k;
    assert (k * k) * (p.Mag * p.Mag) == (k * k) * (p.Real * p.Real + p.Imag * p.Imag);
    SameMagnitude(s.Mag, Abs(k) * p.Mag);
  }

  /** Adding back what was subtracted restores a phasor. */
  lemma AddUndoesSub(m: Math, p: Phasor, q: Phasor)
    ensures Add(m, Sub(m, p, q), q) == NewPhasor(m, p.Real, p.Imag)
    ensures Sub(m, Add(m, p, q), q) == NewPhasor(m, p.Real, p.Imag)
  {
  }

  /** Scaling is repeated addition: it adds up over factors, and the factor 1 changes nothing. */
  lemma ScaleAdds(m: Math, p: Phasor, j: real, k: real)
    ensures Add(m, Scale(m, p, j), Scale(m, p, k)) == Scale(m, p, j + k)
    ensures Scale(m, p, 1.0) == NewPhasor(m, p.Real, p.Imag)
  {
    assert Times(p.Real, j) + Times(p.Real, k) == Times(p.Real, j + k);
    assert Times(p.Imag, j) + Times(p.Imag, k) == Times(p.Imag, j + k);
    assert Times(p.Real, 1.0) == p.Real && Times(p.Imag, 1.0) == p.Imag;
    hide Times;
  }

  /** The functions of the library belong together: radius and direction of a point give its coordinates. */
  ghost predicate Polar(m: Math) {
    forall x, y :: x == m.hypot(x, y) * m.cos(m.atan2(y, x)) && y == m.hypot(x, y) * m.sin(m.atan2(y, x))
  }

  /** Then magnitude and angle of every phasor built from coordinates give these coordinates back. */
  lemma PolarForm(m: Math, re: real, im: real)
    requires Polar(m)
    ensures var p := NewPhasor(m, re, im); p.Real == re == p.Mag * m.cos(p.Angle) && p.Imag == im == p.Mag * m.sin(p.Angle)
  {
  }

  // ---------------------------------------------------------------- the filter

  function Angle(pi: real, i: nat, n: nat): real
    requires n > 0
  {
    2.0 * pi * (i as real) / (n as real)
  }

  /** One cycle of `f`, in `n` steps. */
  function Table(f: real -> real, pi: real, n: nat): (t: seq<real>)
    ensures |t| == n
  {
    seq(n, i requires 0 <= i < n => f(Angle(pi, i, n)))
  }

  function Dot(a: seq<real>, b: seq<real>, n: nat): real
    requires n <= |a| && n <= |b|
  {
    if n == 0 then 0.0 else Dot(a, b, n - 1) + a[n - 1] * b[n - 1]
  }

  /** `sum * (g / n)`. */
  function Scaled(sum: real, g: real, n: nat): real
    requires n > 0
  {
    sum * (g / (n as real))
  }

  lemma DotStep(a: seq<real>, b: seq<real>, n: nat)
    requires n <= |a| && n <= |b|
    ensures Dot(a, b, 0) == 0.0
    ensures n > 0 ==> Dot(a, b, n) == Dot(a, b, n - 1) + a[n - 1] * b[n - 1]
  {
  }

  /** The phasor of the first `n` samples, zero when there are fewer. */
  function Dft(m: Math, samples: seq<real>, n: nat): Phasor
    requires n > 0
  {
    if |samples| < n then ZERO
    else
      NewPhasor(m,
        Scaled(Dot(samples, Table(m.cos, m.pi, n), n), 2.0, n),
        Scaled(Dot(samples, Table(m.sin, m.pi, n), n), -2.0, n))
  }

  function SampleDifference(a: seq<real>, b: seq<real>): (d: seq<real>)
    requires |a| == |b|
    ensures |d| == |a|
  {
    seq(|a|, i requires 0 <= i < |a| => a[i] - b[i])
  }

  lemma {:induction false} DotLinear(a: seq<real>, b: seq<real>, t: seq<real>, n: nat)
    requires n <= |a| == |b| && n <= |t|
    ensures Dot(SampleDifference(a, b), t, n) == Dot(a, t, n) - Dot(b, t, n)
  {
    if n > 0 {
      DotLinear(a, b, t, n - 1);
      assert SampleDifference(a, b)[n - 1] * t[n - 1] == a[n - 1] * t[n - 1] - b[n - 1] * t[n - 1];
    }
  }

  /** The filter is linear: the phasor difference of two windows is the phasor of their sample-wise difference. */
  lemma DftLinear(m: Math, a: seq<real>, b: seq<real>, n: nat)
    requires 0 < n <= |a| == |b|
    ensures Sub(m, Dft(m, a, n), Dft(m, b, n)) == Dft(m, SampleDifference(a, b), n)
  {
    var c, s := Table(m.cos, m.pi, n), Table(m.sin, m.pi, n);
    DotLinear(a, b, c, n);
    DotLinear(a, b, s, n);
    ScaledLinear(Dot(a, c, n), Dot(b, c, n), 2.0, n);
    ScaledLinear(Dot(a, s, n), Dot(b, s, n), -2.0, n);
    hide Dot, Scaled, Table, SampleDifference;
  }

  lemma ScaledLinear(x: real, y: real, g: real, n: nat)
    requires n > 0
    ensures Scaled(x - y, g, n) == Scaled(x, g, n) - Scaled(y, g, n)
  {
  }

  function SampleMean(a: seq<real>, b: seq<real>): (d: seq<real>)
    requires |a| == |b|
    ensures |d| == |a|
  {
    seq(|a|, i requires 0 <= i < |a| => (a[i] + b[i]) / 2.0)
  }

  lemma {:induction false} DotMean(a: seq<real>, b: seq<real>, t: seq<real>, n: nat)
    requires n <= |a| == |b| && n <= |t|
    ensures Dot(SampleMean(a, b), t, n) == (Dot(a, t, n) + Dot(b, t, n)) / 2.0
  {
    if n > 0 {
      DotMean(a, b, t, n - 1);
      assert SampleMean(a, b)[n - 1] * t[n - 1] == (a[n - 1] * t[n - 1] + b[n - 1] * t[n - 1]) / 2.0;
    }
  }

  lemma ScaledMean(x: real, y: real, g: real, n: nat)
    requires n > 0
    ensures Scaled((x + y) / 2.0, g, n) == (Scaled(x, g, n) + Scaled(y, g, n)) / 2.0
  {
  }

  /** The mean of two phasors is the phasor of the sample-wise mean. */
  lemma DftMean(m: Math, a: seq<real>, b: seq<real>, n: nat)
    requires 0 < n <= |a| == |b|
    ensures var p, q := Dft(m, a, n), Dft(m, b, n);
            NewPhasor(m, (p.Real + q.Real) / 2.0, (p.Imag + q.Imag) / 2.0) == Dft(m, SampleMean(a, b), n)
  {
    var c, s := Table(m.cos, m.pi, n), Table(m.sin, m.pi, n);
    DotMean(a, b, c, n);
    DotMean(a, b, s, n);
    ScaledMean(Dot(a, c, n), Dot(b, c, n), 2.0, n);
    ScaledMean(Dot(a, s, n), Dot(b, s, n), -2.0, n);
    hide Dot, Scaled, Table, SampleMean;
  }

  function Multiple(k: real, a: seq<real>): (d: seq<real>)
    ensures |d| == |a|
  {
    seq(|a|, i requires 0 <= i < |a| => k * a[i])
  }

  lemma {:induction false} DotMultiple(k: real, a: seq<real>, t: seq<real>, n: nat)
    requires n <= |a| && n <= |t|
    ensures Dot(Multiple(k, a), t, n) == Times(Dot(a, t, n), k)
  {
    if n > 0 {
      DotMultiple(k, a, t, n - 1);
      var u, x, y := Dot(a, t, n - 1), a[n - 1], t[n - 1];
      assert Multiple(k, a)[n - 1] * y == k * x * y == x * y * k;
      assert u * k + x * y * k == (u + x * y) * k;
    }
  }

  lemma ScaledFactor(x: real, k: real, g: real, n: nat)
    requires n > 0
    ensures Scaled(Times(x, k), g, n) == Times(Scaled(x, g, n), k)
  {
    var h := g / (n as real);
    assert x * k * h == x * h * k;
  }

  lemma ScaleIs(m: Math, re: real, im: real, k: real, re': real, im': real)
    requires re' == Times(re, k) && im' == Times(im, k)
    ensures Scale(m, NewPhasor(m, re, im), k) == NewPhasor(m, re', im')
  {
    hide Times;
  }

  lemma ScaledDotMultiple(k: real, a: seq<real>, t: seq<real>, n: nat, g: real)
    requires 0 < n <= |a| && n <= |t|
    ensures Scaled(Dot(Multiple(k, a), t, n), g, n) == Times(Scaled(Dot(a, t, n), g, n), k)
  {
    DotMultiple(k, a, t, n);
    ScaledFactor(Dot(a, t, n), k, g, n);
    hide Dot, Scaled, Multiple, Times;
  }

  /** The filter keeps factors. */
  lemma DftMultiple(m: Math, k: real, a: seq<real>, n: nat)
    requires 0 < n <= |a|
    ensures Dft(m, Multiple(k, a), n) == Scale(m, Dft(m, a, n), k)
  {
    hide Dot, Scaled, Table, Multiple, Scale, NewPhasor, Times;
    var c, s, b := Table(m.cos, m.pi, n), Table(m.sin, m.pi, n), Multiple(k, a);
    assert Dft(m, a, n) == NewPhasor(m, Scaled(Dot(a, c, n), 2.0, n), Scaled(Dot(a, s, n), -2.0, n));
    assert Dft(m, b, n) == NewPhasor(m, Scaled(Dot(b, c, n), 2.0, n), Scaled(Dot(b, s, n), -2.0, n));
    ScaledDotMultiple(k, a, c, n, 2.0);
    ScaledDotMultiple(k, a, s, n, -2.0);
    ScaleIs(m, Scaled(Dot(a, c, n), 2.0, n), Scaled(Dot(a, s, n), -2.0, n), k,
            Scaled(Dot(b, c, n), 2.0, n), Scaled(Dot(b, s, n), -2.0, n));
  }

  /** The sum of products of two sequences, front to back. */
  function Correlation(a: seq<real>, b: seq<real>): real
    requires |a| == |b|
  {
    if a == [] then 0.0 else a[0] * b[0] + Correlation(a[1..], b[1..])
  }

  lemma {:induction false} CorrelationSnoc(a: seq<real>, b: seq<real>)
    requires |a| == |b| > 0
    ensures var n := |a| - 1; Correlation(a, b) == Correlation(a[..n], b[..n]) + a[n] * b[n]
  {
    var n := |a| - 1;
    if n > 0 {
      CorrelationSnoc(a[1..], b[1..]);
      assert a[1..][..n - 1] == a[..n][1..] && b[1..][..n - 1] == b[..n][1..];
    }
  }

  lemma {:induction false} DotIsCorrelation(a: seq<real>, b: seq<real>, n: nat)
    requires n <= |a| && n <= |b|
    ensures Dot(a, b, n) == Correlation(a[..n], b[..n])
  {
    if n > 0 {
      DotIsCorrelation(a, b, n - 1);
      CorrelationSnoc(a[..n], b[..n]);
      assert a[..n][..n - 1] == a[..n - 1] && b[..n][..n - 1] == b[..n - 1];
    }
  }

  /** Two tables are orthogonal over a cycle, each with square sum `n/2`. */
  ghost predicate Orthogonal(c: seq<real>, s: seq<real>) {
    && |c| == |s|
    && 2.0 * Correlation(c, c) == |c| as real && 2.0 * Correlation(s, s) == |s| as real
    && Correlation(c, s) == 0.0 == Correlation(s, c)
  }

  lemma {:induction false} DotCombines(x: seq<real>, a: real, c: seq<real>, b: real, s: seq<real>, t: seq<real>, n: nat)
    requires n <= |x| && n <= |c| && n <= |s| && n <= |t|
    requires forall k | 0 <= k < n :: x[k] == a * c[k] - b * s[k]
    ensures Dot(x, t, n) == a * Dot(c, t, n) - b * Dot(s, t, n)
  {
    if n > 0 {
      DotCombines(x, a, c, b, s, t, n - 1);
      CombineStep(a, c[n - 1], b, s[n - 1], t[n - 1], Dot(c, t, n - 1), Dot(s, t, n - 1));
    }
  }

  lemma CombineStep(a: real, c: real, b: real, s: real, t: real, u: real, v: real)
    ensures a * u - b * v + (a * c - b * s) * t == a * (u + c * t) - b * (v + s * t)
  {
    var ct, st := c * t, s * t;
    assert (a * c - b * s) * t == a * ct - b * st by {
      assert (a * c - b * s) * t == a * c * t - b * s * t;
      assert a * c * t == a * ct && b * s * t == b * st;
    }
    assert a * (u + ct) == a * u + a * ct && b * (v + st) == b * v + b * st;
  }

  lemma ScaledBack(a: real, x: real, n: nat)
    requires n > 0 && 2.0 * x == n as real
    ensures Scaled(a * x, 2.0, n) == a && Scaled(-(a * x), -2.0, n) == a
  {
    var r := n as real;
    var h := 2.0 / r;
    assert x * h == 1.0;
    assert a * x * h == a * (x * h);
    assert -2.0 / r == -h;
    assert -(a * x) * -h == a * x * h;
  }

  /** One cycle of `f` in equal steps. */
  ghost predicate CycleOf(t: seq<real>, f: real -> real, pi: real) {
    forall k: nat | k < |t| :: t[k] == f(2.0 * pi * (k as real) / (|t| as real))
  }

  lemma CycleIsTable(t: seq<real>, f: real -> real, pi: real)
    requires CycleOf(t, f, pi) && |t| > 0
    ensures t == Table(f, pi, |t|)
  {
    forall k: nat | k < |t| ensures t[k] == Table(f, pi, |t|)[k] {
      assert Angle(pi, k, |t|) == 2.0 * pi * (k as real) / (|t| as real);
    }
  }

  /** The filter recovers a sine of the fundamental: with tables orthogonal over the cycle, the samples
      `a cos(2 pi k/n) - b sin(2 pi k/n)` give the phasor (a, b). */
  lemma DftRecovers(m: Math, a: real, b: real, c: seq<real>, s: seq<real>, x: seq<real>)
    requires |x| >= |c| == |s| > 0 && Orthogonal(c, s)
    requires CycleOf(c, m.cos, m.pi) && CycleOf(s, m.sin, m.pi)
    requires forall k | 0 <= k < |c| :: x[k] == a * c[k] - b * s[k]
    ensures Dft(m, x, |c|) == NewPhasor(m, a, b)
  {
    var n := |c|;
    CycleIsTable(c, m.cos, m.pi);
    CycleIsTable(s, m.sin, m.pi);
    hide Table, Angle, CycleOf;
    assert c[..n] == c && s[..n] == s;
    DotCombines(x, a, c, b, s, c, n);
    DotCombines(x, a, c, b, s, s, n);
    DotIsCorrelation(c, c, n);
    DotIsCorrelation(s, s, n);
    DotIsCorrelation(c, s, n);
    DotIsCorrelation(s, c, n);
    hide Dot, Correlation, Scaled;
    var cc, ss := Correlation(c, c), Correlation(s, s);
    assert Dot(x, c, n) == a * cc && Dot(x, s, n) == -(b * ss);
    ScaledBack(a, cc, n);
    ScaledBack(b, ss, n);
  }

  lemma DftProper(m: Math, a: seq<real>, n: nat)
    requires Euclidean(m) && n > 0
    ensures Proper(Dft(m, a, n))
  {
  }

  /** `buildTables`. */
  method BuildTables(math: Math, n: nat) returns (cosTable: array<real>, sinTable: array<real>)
    ensures fresh(cosTable) && fresh(sinTable)
    ensures cosTable[..] == Table(math.cos, math.pi, n)
    ensures sinTable[..] == Table(math.sin, math.pi, n)
  {
    hide Angle;
    cosTable := new real[n](_ => 0.0);
    sinTable := new real[n](_ => 0.0);
    for i := 0 to n
      invariant cosTable[..i] == Table(math.cos, math.pi, n)[..i]
      invariant sinTable[..i] == Table(math.sin, math.pi, n)[..i]
    {
      var angle := Angle(math.pi, i, n);
      cosTable[i] := math.cos(angle);
      sinTable[i] := math.sin(angle);
    }
    assert cosTable[..n] == cosTable[..];
    assert sinTable[..n] == sinTable[..];
  }

  class DFTProcessor {
    const SampleRate: nat
    const SamplesPerCycle: nat
    const math: Math
    const cosTable: array<real>
    const sinTable: array<real>

    ghost predicate Valid()
      reads cosTable, sinTable
    {
      && SamplesPerCycle == SampleRate / 50 > 0
      && cosTable[..] == Table(math.cos, math.pi, SamplesPerCycle)
      && sinTable[..] == Table(math.sin, math.pi, SamplesPerCycle)
    }

    constructor (math: Math, sampleRate: nat)
      requires sampleRate >= 50
      ensures Valid() && fresh(cosTable) && fresh(sinTable)
      ensures this.math == math && SampleRate == sampleRate && SamplesPerCycle == sampleRate / 50
    {
      hide Table;
      var c, s := BuildTables(math, sampleRate / 50);
      SampleRate, SamplesPerCycle := sampleRate, sampleRate / 50;
      this.math, cosTable, sinTable := math, c, s;
    }

    method ComputePhasor(samples: array<real>) returns (p: Phasor)
      requires Valid()
      ensures p == Dft(math, samples[..], SamplesPerCycle)
    {
      hide Dot, Table, Scaled;
      var n := SamplesPerCycle;
      if samples.Length < n {
        return ZERO;
      }
      var realPart, imagPart := 0.0, 0.0;
      ghost var x, c, s := samples[..], cosTable[..], sinTable[..];
      DotStep(x, c, 0);
      DotStep(x, s, 0);
      for k := 0 to n
        invariant realPart == Dot(x, c, k)
        invariant imagPart == Dot(x, s, k)
      {
        DotStep(x, c, k + 1);
        DotStep(x, s, k + 1);
        realPart := realPart + samples[k] * cosTable[k];
        imagPart := imagPart + samples[k] * sinTable[k];
      }
      assert c == Table(math.cos, math.pi, n) && s == Table(math.sin, math.pi, n);
      realPart := Scaled(realPart, 2.0, n);
      imagPart := Scaled(imagPart, -2.0, n);
      return NewPhasor(math, realPart, imagPart);
    }

    method ComputePhasorFromBuffer(buf: ChannelBuffer) returns (p: Phasor)
      requires Valid() && buf.Valid() && buf.BufferSize >= SamplesPerCycle
      ensures p == CyclePhasor(math, buf.History, SamplesPerCycle)
    {
      var n := SamplesPerCycle;
      var available := buf.AvailableSamples();
      if available < n {
        return ZERO;
      }
      var samples := buf.GetLastN(n);
      assert samples[..] == Last(buf.History, n);
      p := ComputePhasor(samples);
    }
  }

  /** The phasor of the last cycle of a history, zero before there is one. */
  function CyclePhasor(m: Math, history: seq<real>, n: nat): Phasor
    requires n > 0
  {
    if |history| < n then ZERO else Dft(m, Last(history, n), n)
  }

  lemma NoCycle(m: Math, history: seq<real>, n: nat)
    requires n > 0
    ensures |history| < n ==> CyclePhasor(m, history, n) == ZERO
  {
  }

  // ---------------------------------------------------------------- zero sequence

  function ZeroSequence(ia: real, ib: real, ic: real): real {
    (ia + ib + ic) / 3.0
  }

  /** Three times the zero-sequence current is the sum of the phase currents: equal currents are their own zero-sequence
      current, and currents that cancel have none. */
  lemma ZeroSequenceIs(a: real, b: real, c: real)
    ensures 3.0 * ZeroSequence(a, b, c) == a + b + c
    ensures ZeroSequence(a, a, a) == a
    ensures ZeroSequence(a, b, c) == 0.0 <==> a + b + c == 0.0
  {
  }

  class ZeroSequenceProcessor {
    const BufferIa: ChannelBuffer
    const BufferIb: ChannelBuffer
    const BufferIc: ChannelBuffer
    const BufferI0: ChannelBuffer
    const DFT: DFTProcessor
    var LastPhasor: Phasor

    /** The objects a push writes. */
    ghost function Repr(): (r: set<object>)
      ensures this in r && BufferI0 in r
    {
      {this, BufferIa, BufferIb, BufferIc, BufferI0,
       BufferIa.Buffer, BufferIb.Buffer, BufferIc.Buffer, BufferI0.Buffer}
    }

    ghost function Tables(): set<object> {
      {DFT.cosTable, DFT.sinTable}
    }

    ghost predicate Valid()
      reads Repr(), Tables()
    {
      && Separate()
      && BufferIa.Valid() && BufferIb.Valid() && BufferIc.Valid() && BufferI0.Valid() && DFT.Valid()
      && BufferIa.BufferSize == BufferIb.BufferSize == BufferIc.BufferSize == BufferI0.BufferSize
      && BufferI0.BufferSize == CYCLES * DFT.SamplesPerCycle > 0
      && LastPhasor == CyclePhasor(DFT.math, BufferI0.History, DFT.SamplesPerCycle)
    }

    ghost predicate Separate() {
      && BufferIa != BufferIb && BufferIa != BufferIc && BufferIa != BufferI0
      && BufferIb != BufferIc && BufferIb != BufferI0 && BufferIc != BufferI0
      && BufferIa.Buffer != BufferIb.Buffer && BufferIa.Buffer != BufferIc.Buffer && BufferIa.Buffer != BufferI0.Buffer
      && BufferIb.Buffer != BufferIc.Buffer && BufferIb.Buffer != BufferI0.Buffer && BufferIc.Buffer != BufferI0.Buffer
      && Tables() !! {BufferIa.Buffer, BufferIb.Buffer, BufferIc.Buffer, BufferI0.Buffer}
    }

    ghost function Math(): Math {
      DFT.math
    }

    /** The zero-sequence currents of all samples pushed. */
    ghost function Currents(): seq<real>
      reads BufferI0
    {
      BufferI0.History
    }

    constructor (math: Math, sampleRate: nat)
      requires sampleRate >= 50
      ensures Valid() && fresh(Repr()) && fresh(Tables()) && Tables() !! Repr()
      ensures Math() == math && DFT.SamplesPerCycle == sampleRate / 50
      ensures Currents() == [] && LastPhasor == ZERO
    {
      hide ChannelBuffer.Valid, DFTProcessor.Valid;
      var a := new ChannelBuffer(sampleRate);
      var b := new ChannelBuffer(sampleRate);
      var c := new ChannelBuffer(sampleRate);
      var i0 := new ChannelBuffer(sampleRate);
      var dft := new DFTProcessor(math, sampleRate);
      BufferIa, BufferIb, BufferIc, BufferI0, DFT := a, b, c, i0, dft;
      LastPhasor := ZERO;
    }

    method PushSamples(Ia: real, Ib: real, Ic: real)
      requires Valid()
      modifies Repr()
      ensures Valid() && Currents() == old(Currents()) + [ZeroSequence(Ia, Ib, Ic)]
      ensures BufferIa.History == old(BufferIa.History) + [Ia]
      ensures BufferIb.History == old(BufferIb.History) + [Ib]
      ensures BufferIc.History == old(BufferIc.History) + [Ic]
    {
      hide CyclePhasor, ZeroSequence, ChannelBuffer.Valid, DFTProcessor.Valid;
      NoCycle(Math(), BufferI0.History, DFT.SamplesPerCycle);
      NoCycle(Math(), BufferI0.History + [ZeroSequence(Ia, Ib, Ic)], DFT.SamplesPerCycle);
      BufferIa.Push(Ia);
      BufferIb.Push(Ib);
      BufferIc.Push(Ic);
      BufferI0.Push(ZeroSequence(Ia, Ib, Ic));
      var available := BufferI0.AvailableSamples();
      if available >= DFT.SamplesPerCycle {
        LastPhasor := DFT.ComputePhasorFromBuffer(BufferI0);
      }
    }

    method Ready() returns (ready: bool)
      requires Valid()
      ensures ready <==> |Currents()| >= DFT.SamplesPerCycle
    {
      var available := BufferI0.AvailableSamples();
      return available >= DFT.SamplesPerCycle;
    }

    method GetI0Phasor() returns (p: Phasor)
      requires Valid()
      ensures p == CyclePhasor(Math(), Currents(), DFT.SamplesPerCycle)
    {
      return LastPhasor;
    }
  }
}
