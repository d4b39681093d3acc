// The sums over paired observations that both the Pearson correlation
// (src/pages/Index.tsx:356-363) and the closed-form least-squares line
// (:535-546, :714-724) are built from: n, Σx, Σy, Σxy, Σx², Σy². The two
// formulas share the numerator n·Σxy − Σx·Σy and the spread n·Σx² − (Σx)².
//
// Every nonlinear step below is a lemma over plain reals. The lemmas about
// sequences write each product as `Product(x, y)` or `Square(x)`: the solver
// recognises two applications of one function to equal arguments at once,
// but two equal products only through costly nonlinear reasoning.

module Moments {
  import opened Sums

  type Pair = (real, real)

  // Products kept as single terms (see above).
  function Square(x: real): real { x * x }
  function Product(x: real, y: real): real { x * y }
  function Quotient(x: real, y: real): real requires y != 0.0 { x / y }
  function XY(p: Pair): real { p.0 * p.1 }
  function XX(p: Pair): real { Square(p.0) }
  function YY(p: Pair): real { Square(p.1) }

  /** n·x − s: n times the deviation of x from the mean s/n. */
  function Deviation(n: real, x: real, s: real): real { n * x - s }

  /** a·u + b·v + c·w + d. */
  function Combine(a: real, u: real, b: real, v: real, c: real, w: real, d: real): real
  {
    a * u + b * v + c * w + d
  }

  /** s is, element by element, a·u + b·v + c·w + d. */
  ghost predicate Combination(s: seq<real>, u: seq<real>, v: seq<real>, w: seq<real>,
                              a: real, b: real, c: real, d: real)
  {
    && |u| == |s| && |v| == |s| && |w| == |s|
    && forall i :: 0 <= i < |s| ==> s[i] == Combine(a, u[i], b, v[i], c, w[i], d)
  }

  function Xs(ps: seq<Pair>): (r: seq<real>)
    ensures |r| == |ps| && forall i :: 0 <= i < |ps| ==> r[i] == ps[i].0
  {
    seq(|ps|, i requires 0 <= i < |ps| => ps[i].0)
  }

  function Ys(ps: seq<Pair>): (r: seq<real>)
    ensures |r| == |ps| && forall i :: 0 <= i < |ps| ==> r[i] == ps[i].1
  {
    seq(|ps|, i requires 0 <= i < |ps| => ps[i].1)
  }

  function XYs(ps: seq<Pair>): (r: seq<real>)
    ensures |r| == |ps| && forall i :: 0 <= i < |ps| ==> r[i] == XY(ps[i])
  {
    seq(|ps|, i requires 0 <= i < |ps| => XY(ps[i]))
  }

  function XXs(ps: seq<Pair>): (r: seq<real>)
    ensures |r| == |ps| && forall i :: 0 <= i < |ps| ==> r[i] == XX(ps[i])
  {
    seq(|ps|, i requires 0 <= i < |ps| => XX(ps[i]))
  }

  function YYs(ps: seq<Pair>): (r: seq<real>)
    ensures |r| == |ps| && forall i :: 0 <= i < |ps| ==> r[i] == YY(ps[i])
  {
    seq(|ps|, i requires 0 <= i < |ps| => YY(ps[i]))
  }

  /** n·Σxy − Σx·Σy, from the sums. */
  function Cross(n: real, sxy: real, sx: real, sy: real): real { n * sxy - sx * sy }

  /** n·Σx² − (Σx)², from the sums. */
  function Spread(n: real, sq: real, s: real): real { n * sq - s * s }

  /** c² ≤ u·v. */
  predicate Dominated(c: real, u: real, v: real) { c * c <= u * v }

  /** n·Σxy − Σx·Σy. */
  function CrossDeviation(ps: seq<Pair>): real
  {
    Cross(|ps| as real, Sum(XYs(ps)), Sum(Xs(ps)), Sum(Ys(ps)))
  }

  /** n·Σx² − (Σx)². */
  function SpreadX(ps: seq<Pair>): real
  {
    Spread(|ps| as real, Sum(XXs(ps)), Sum(Xs(ps)))
  }

  /** n·Σy² − (Σy)². */
  function SpreadY(ps: seq<Pair>): real
  {
    Spread(|ps| as real, Sum(YYs(ps)), Sum(Ys(ps)))
  }

  /** The pairs with x and y swapped. */
  function Swap(ps: seq<Pair>): (r: seq<Pair>)
    ensures |r| == |ps| && forall i :: 0 <= i < |ps| ==> r[i] == (ps[i].1, ps[i].0)
  {
    seq(|ps|, i requires 0 <= i < |ps| => (ps[i].1, ps[i].0))
  }

  /** Every pair moved to (n·x − Σx, n·y − Σy): n times its deviation from the means. */
  function Centered(ps: seq<Pair>): (r: seq<Pair>)
    ensures |r| == |ps|
    ensures forall i :: 0 <= i < |ps| ==>
      r[i] == (Deviation(|ps| as real, ps[i].0, Sum(Xs(ps))), Deviation(|ps| as real, ps[i].1, Sum(Ys(ps))))
  {
    seq(|ps|, i requires 0 <= i < |ps| =>
      (Deviation(|ps| as real, ps[i].0, Sum(Xs(ps))), Deviation(|ps| as real, ps[i].1, Sum(Ys(ps)))))
  }


  // ---------------------------------------------------------------- arithmetic facts

  lemma PositiveProduct(a: real, b: real)
    requires a > 0.0 && b > 0.0
    ensures a * b > 0.0
  {
  }

  lemma NonNegativeProduct(a: real, b: real)
    requires a >= 0.0 && b >= 0.0
    ensures a * b >= 0.0
  {
  }

  lemma DifferenceOfSquares(x: real, y: real)
    ensures (y - x) * (y + x) == y * y - x * x
  {
  }

  /** X >= 0 and X*X >= Y*Y give X >= Y. */
  lemma SquareDominates(x: real, y: real)
    requires x >= 0.0 && x * x >= y * y
    ensures x >= y
  {
    if y > x {
      PositiveProduct(y - x, y + x);
      DifferenceOfSquares(x, y);
    }
  }

  lemma Distribute(k: real, a: real, b: real)
    ensures k * (a - b) == k * a - k * b
  {
  }

  lemma CancelPositive(k: real, a: real, b: real)
    requires k > 0.0 && k * a <= k * b
    ensures a <= b
  {
    if a > b {
      PositiveProduct(k, a - b);
      Distribute(k, a, b);
    }
  }

  // ---------------------------------------------------------------- sums of sequences

  /** The last pair's contribution to each of the five sums. */
  lemma {:induction false} MomentsStep(ps: seq<Pair>)
    requires ps != []
    ensures var init, p := ps[..|ps| - 1], ps[|ps| - 1];
      && Sum(Xs(ps)) == Sum(Xs(init)) + p.0
      && Sum(Ys(ps)) == Sum(Ys(init)) + p.1
      && Sum(XYs(ps)) == Sum(XYs(init)) + XY(p)
      && Sum(XXs(ps)) == Sum(XXs(init)) + Square(p.0)
      && Sum(YYs(ps)) == Sum(YYs(init)) + Square(p.1)
  {
    var init := ps[..|ps| - 1];
    assert Xs(ps)[..|ps| - 1] == Xs(init);
    assert Ys(ps)[..|ps| - 1] == Ys(init);
    assert XYs(ps)[..|ps| - 1] == XYs(init);
    assert XXs(ps)[..|ps| - 1] == XXs(init);
    assert YYs(ps)[..|ps| - 1] == YYs(init);
  }

  lemma LinearStep(a: real, b: real, c: real, d: real, k: real, n: real,
                   su: real, sv: real, sw: real, ss: real,
                   u: real, v: real, w: real, s: real,
                   tu: real, tv: real, tw: real, ts: real)
    requires ss == Combine(a, su, b, sv, c, sw, Product(k, d))
    requires s == Combine(a, u, b, v, c, w, d)
    requires tu == su + u && tv == sv + v && tw == sw + w && ts == ss + s && n == k + 1.0
    ensures ts == Combine(a, tu, b, tv, c, tw, Product(n, d))
  {
  }

  /** The sum of a pointwise linear combination is that combination of the sums. */
  lemma {:induction false} SumLinear(s: seq<real>, u: seq<real>, v: seq<real>, w: seq<real>,
                                     a: real, b: real, c: real, d: real, n: real)
    requires Combination(s, u, v, w, a, b, c, d) && n == |s| as real
    ensures Sum(s) == Combine(a, Sum(u), b, Sum(v), c, Sum(w), Product(n, d))
  {
    if s != [] {
      var k := |s| - 1;
      PrefixCombination(s, u, v, w, a, b, c, d, k);
      SumLinear(s[..k], u[..k], v[..k], w[..k], a, b, c, d, k as real);
      SumLinearStep(s, u, v, w, a, b, c, d, n);
    } else {
      assert u == [] && v == [] && w == [];
      EmptyCombination(a, b, c, d, n);
    }
  }

  lemma EmptyCombination(a: real, b: real, c: real, d: real, n: real)
    requires n == 0.0
    ensures 0.0 == Combine(a, 0.0, b, 0.0, c, 0.0, Product(n, d))
  {
  }

  lemma PrefixCombination(s: seq<real>, u: seq<real>, v: seq<real>, w: seq<real>,
                          a: real, b: real, c: real, d: real, k: nat)
    requires Combination(s, u, v, w, a, b, c, d) && k <= |s|
    ensures Combination(s[..k], u[..k], v[..k], w[..k], a, b, c, d)
  {
    forall i | 0 <= i < k
      ensures s[..k][i] == Combine(a, u[..k][i], b, v[..k][i], c, w[..k][i], d)
    {
      assert s[..k][i] == s[i] && u[..k][i] == u[i] && v[..k][i] == v[i] && w[..k][i] == w[i];
    }
  }

  lemma SumLinearStep(s: seq<real>, u: seq<real>, v: seq<real>, w: seq<real>,
                      a: real, b: real, c: real, d: real, n: real)
    requires |u| == |s| && |v| == |s| && |w| == |s| && n == |s| as real && s != []
    requires s[|s| - 1] == Combine(a, u[|s| - 1], b, v[|s| - 1], c, w[|s| - 1], d)
    requires var k := |s| - 1;
      Sum(s[..k]) == Combine(a, Sum(u[..k]), b, Sum(v[..k]), c, Sum(w[..k]), Product(k as real, d))
    ensures Sum(s) == Combine(a, Sum(u), b, Sum(v), c, Sum(w), Product(n, d))
  {
    var k := |s| - 1;
    LinearStep(a, b, c, d, k as real, n, Sum(u[..k]), Sum(v[..k]), Sum(w[..k]), Sum(s[..k]),
               u[k], v[k], w[k], s[k], Sum(u), Sum(v), Sum(w), Sum(s));
  }

  // ---------------------------------------------------------------- symmetry

  lemma Commute(p: Pair, q: Pair)
    requires q == (p.1, p.0)
    ensures XY(q) == XY(p)
  {
  }

  /** Swapping the roles of x and y swaps the x- and y-sums and keeps Σxy. */
  lemma {:induction false} SwapSums(ps: seq<Pair>)
    ensures Sum(Xs(Swap(ps))) == Sum(Ys(ps)) && Sum(Ys(Swap(ps))) == Sum(Xs(ps))
    ensures Sum(XYs(Swap(ps))) == Sum(XYs(ps))
    ensures Sum(XXs(Swap(ps))) == Sum(YYs(ps)) && Sum(YYs(Swap(ps))) == Sum(XXs(ps))
  {
    var q := Swap(ps);
    assert Xs(q) == Ys(ps);
    assert Ys(q) == Xs(ps);
    assert XXs(q) == YYs(ps);
    assert YYs(q) == XXs(ps);
    forall i | 0 <= i < |ps| ensures XYs(q)[i] == XYs(ps)[i] {
      Commute(ps[i], q[i]);
    }
    assert XYs(q) == XYs(ps);
  }

  lemma CrossCommutes(n: real, sxy: real, sx: real, sy: real)
    ensures Cross(n, sxy, sy, sx) == Cross(n, sxy, sx, sy)
  {
  }

  /** Swapping x and y keeps the numerator and exchanges the two spreads. */
  lemma SwapMoments(ps: seq<Pair>)
    ensures CrossDeviation(Swap(ps)) == CrossDeviation(ps)
    ensures SpreadX(Swap(ps)) == SpreadY(ps) && SpreadY(Swap(ps)) == SpreadX(ps)
  {
    SwapSums(ps);
    CrossCommutes(|ps| as real, Sum(XYs(ps)), Sum(Xs(ps)), Sum(Ys(ps)));
  }

  // ---------------------------------------------------------------- signs

  lemma SquareNonNegative(x: real)
    ensures Square(x) >= 0.0
  {
  }

  lemma {:induction false} SquareSumsNonNegative(ps: seq<Pair>)
    ensures Sum(XXs(ps)) >= 0.0 && Sum(YYs(ps)) >= 0.0
  {
    forall i | 0 <= i < |ps| ensures XXs(ps)[i] >= 0.0 && YYs(ps)[i] >= 0.0 {
      SquareNonNegative(ps[i].0);
      SquareNonNegative(ps[i].1);
    }
    SumNonNegative(XXs(ps));
    SumNonNegative(YYs(ps));
  }

  // ---------------------------------------------------------------- Cauchy–Schwarz

  lemma CrossTermIdentity(a: real, b: real, A: real, P: real, Q: real)
    ensures var X, Y, D := P * (b * b) + Q * (a * a), 2.0 * A * a * b, P * (b * b) - Q * (a * a);
      X * X - Y * Y == D * D + 4.0 * ((a * a) * (b * b)) * (P * Q - A * A)
  {
  }

  /** The induction step of Cauchy–Schwarz: 2·A·a·b ≤ P·b² + Q·a² whenever A² ≤ P·Q. */
  lemma CrossTermBound(a: real, b: real, A: real, P: real, Q: real)
    requires P >= 0.0 && Q >= 0.0 && A * A <= P * Q
    ensures 2.0 * A * a * b <= P * (b * b) + Q * (a * a)
  {
    var aa, bb := a * a, b * b;
    NonNegativeProduct(P, bb);
    NonNegativeProduct(Q, aa);
    var X := P * bb + Q * aa;
    var Y := 2.0 * A * a * b;
    var D := P * bb - Q * aa;
    CrossTermIdentity(a, b, A, P, Q);
    assert D * D >= 0.0;
    NonNegativeProduct(aa, bb);
    NonNegativeProduct(4.0 * (aa * bb), P * Q - A * A);
    SquareDominates(X, Y);
  }

  lemma CauchySchwarzStep(p: Pair, A: real, P: real, Q: real, A': real, P': real, Q': real)
    requires P >= 0.0 && Q >= 0.0 && Dominated(A, P, Q)
    requires A' == A + XY(p) && P' == P + Square(p.0) && Q' == Q + Square(p.1)
    ensures Dominated(A', P', Q')
  {
    var a, b := p.0, p.1;
    CrossTermBound(a, b, A, P, Q);
    assert (A + a * b) * (A + a * b) == A * A + 2.0 * A * a * b + (a * b) * (a * b);
    assert (P + a * a) * (Q + b * b) == P * Q + P * (b * b) + Q * (a * a) + (a * b) * (a * b);
  }

  /** Cauchy–Schwarz: (Σxy)² ≤ Σx²·Σy². */
  lemma {:induction false} CauchySchwarz(ps: seq<Pair>)
    ensures Dominated(Sum(XYs(ps)), Sum(XXs(ps)), Sum(YYs(ps)))
  {
    if ps == [] {
      assert XYs(ps) == [] && XXs(ps) == [] && YYs(ps) == [];
    } else {
      var init := ps[..|ps| - 1];
      CauchySchwarz(init);
      SquareSumsNonNegative(init);
      MomentsStep(ps);
      CauchySchwarzStep(ps[|ps| - 1], Sum(XYs(init)), Sum(XXs(init)), Sum(YYs(init)),
                        Sum(XYs(ps)), Sum(XXs(ps)), Sum(YYs(ps)));
    }
  }

  // ---------------------------------------------------------------- centring

  lemma CenterProduct(n: real, sx: real, sy: real, p: Pair, q: Pair)
    requires q == (Deviation(n, p.0, sx), Deviation(n, p.1, sy))
    ensures XY(q) == Combine(Square(n), XY(p), -Product(n, sy), p.0, -Product(n, sx), p.1, Product(sx, sy))
  {
  }

  lemma CenterSquare(n: real, s: real, x: real, d: real)
    requires d == Deviation(n, x, s)
    ensures Square(d) == Combine(Square(n), Square(x), -2.0 * Product(n, s), x, 0.0, x, Square(s))
  {
  }

  lemma CenterCross(n: real, sxy: real, sx: real, sy: real, t: real)
    requires t == Combine(Square(n), sxy, -Product(n, sy), sx, -Product(n, sx), sy, Product(n, Product(sx, sy)))
    ensures t == Product(n, Cross(n, sxy, sx, sy))
  {
  }

  lemma CenterSpread(n: real, sxx: real, sx: real, t: real)
    requires t == Combine(Square(n), sxx, -2.0 * Product(n, sx), sx, 0.0, sx, Product(n, Square(sx)))
    ensures t == Product(n, Spread(n, sxx, sx))
  {
  }

  /** Each centred product, written as a combination of the raw terms. */
  lemma CenteredTermsXY(ps: seq<Pair>)
    ensures var n, sx, sy := |ps| as real, Sum(Xs(ps)), Sum(Ys(ps));
      Combination(XYs(Centered(ps)), XYs(ps), Xs(ps), Ys(ps),
                  Square(n), -Product(n, sy), -Product(n, sx), Product(sx, sy))
  {
    var n, sx, sy := |ps| as real, Sum(Xs(ps)), Sum(Ys(ps));
    forall i | 0 <= i < |ps|
      ensures XYs(Centered(ps))[i]
        == Combine(Square(n), XYs(ps)[i], -Product(n, sy), Xs(ps)[i], -Product(n, sx), Ys(ps)[i], Product(sx, sy))
    {
      CenteredXYAt(ps, i);
    }
  }

  lemma CenteredXYAt(ps: seq<Pair>, i: nat)
    requires i < |ps|
    ensures var n, sx, sy := |ps| as real, Sum(Xs(ps)), Sum(Ys(ps));
      XYs(Centered(ps))[i]
        == Combine(Square(n), XYs(ps)[i], -Product(n, sy), Xs(ps)[i], -Product(n, sx), Ys(ps)[i], Product(sx, sy))
  {
    CenterProduct(|ps| as real, Sum(Xs(ps)), Sum(Ys(ps)), ps[i], Centered(ps)[i]);
  }

  lemma CenteredTermsXX(ps: seq<Pair>)
    ensures var n, sx := |ps| as real, Sum(Xs(ps));
      Combination(XXs(Centered(ps)), XXs(ps), Xs(ps), Xs(ps), Square(n), -2.0 * Product(n, sx), 0.0, Square(sx))
  {
    var n, sx := |ps| as real, Sum(Xs(ps));
    forall i | 0 <= i < |ps|
      ensures XXs(Centered(ps))[i]
        == Combine(Square(n), XXs(ps)[i], -2.0 * Product(n, sx), Xs(ps)[i], 0.0, Xs(ps)[i], Square(sx))
    {
      CenteredXXAt(ps, i);
    }
  }

  lemma CenteredXXAt(ps: seq<Pair>, i: nat)
    requires i < |ps|
    ensures var n, sx := |ps| as real, Sum(Xs(ps));
      XXs(Centered(ps))[i]
        == Combine(Square(n), XXs(ps)[i], -2.0 * Product(n, sx), Xs(ps)[i], 0.0, Xs(ps)[i], Square(sx))
  {
    CenterSquare(|ps| as real, Sum(Xs(ps)), ps[i].0, Centered(ps)[i].0);
  }

  lemma CenteredTermsYY(ps: seq<Pair>)
    ensures var n, sy := |ps| as real, Sum(Ys(ps));
      Combination(YYs(Centered(ps)), YYs(ps), Ys(ps), Ys(ps), Square(n), -2.0 * Product(n, sy), 0.0, Square(sy))
  {
    var n, sy := |ps| as real, Sum(Ys(ps));
    forall i | 0 <= i < |ps|
      ensures YYs(Centered(ps))[i]
        == Combine(Square(n), YYs(ps)[i], -2.0 * Product(n, sy), Ys(ps)[i], 0.0, Ys(ps)[i], Square(sy))
    {
      CenteredYYAt(ps, i);
    }
  }

  lemma CenteredYYAt(ps: seq<Pair>, i: nat)
    requires i < |ps|
    ensures var n, sy := |ps| as real, Sum(Ys(ps));
      YYs(Centered(ps))[i]
        == Combine(Square(n), YYs(ps)[i], -2.0 * Product(n, sy), Ys(ps)[i], 0.0, Ys(ps)[i], Square(sy))
  {
    CenterSquare(|ps| as real, Sum(Ys(ps)), ps[i].1, Centered(ps)[i].1);
  }

  /** Centring at n times the means scales the raw moments by n. */
  lemma CenteredSums(ps: seq<Pair>)
    ensures Sum(XYs(Centered(ps))) == Product(|ps| as real, CrossDeviation(ps))
    ensures Sum(XXs(Centered(ps))) == Product(|ps| as real, SpreadX(ps))
    ensures Sum(YYs(Centered(ps))) == Product(|ps| as real, SpreadY(ps))
  {
    CenteredCross(ps);
    CenteredSpreadX(ps);
    CenteredSpreadY(ps);
  }

  lemma CenteredCross(ps: seq<Pair>)
    ensures Sum(XYs(Centered(ps))) == Product(|ps| as real, CrossDeviation(ps))
  {
    var n, sx, sy := |ps| as real, Sum(Xs(ps)), Sum(Ys(ps));
    CenteredTermsXY(ps);
    SumLinear(XYs(Centered(ps)), XYs(ps), Xs(ps), Ys(ps), Square(n), -Product(n, sy), -Product(n, sx),
              Product(sx, sy), n);
    CenterCross(n, Sum(XYs(ps)), sx, sy, Sum(XYs(Centered(ps))));
  }

  lemma CenteredSpreadX(ps: seq<Pair>)
    ensures Sum(XXs(Centered(ps))) == Product(|ps| as real, SpreadX(ps))
  {
    var n, sx := |ps| as real, Sum(Xs(ps));
    CenteredTermsXX(ps);
    SumLinear(XXs(Centered(ps)), XXs(ps), Xs(ps), Xs(ps), Square(n), -2.0 * Product(n, sx), 0.0, Square(sx), n);
    CenterSpread(n, Sum(XXs(ps)), sx, Sum(XXs(Centered(ps))));
  }

  lemma CenteredSpreadY(ps: seq<Pair>)
    ensures Sum(YYs(Centered(ps))) == Product(|ps| as real, SpreadY(ps))
  {
    var n, sy := |ps| as real, Sum(Ys(ps));
    CenteredTermsYY(ps);
    SumLinear(YYs(Centered(ps)), YYs(ps), Ys(ps), Ys(ps), Square(n), -2.0 * Product(n, sy), 0.0, Square(sy), n);
    CenterSpread(n, Sum(YYs(ps)), sy, Sum(YYs(Centered(ps))));
  }

  lemma UnscaleNonNegative(n: real, s: real, t: real)
    requires n > 0.0 && t == Product(n, s) && t >= 0.0
    ensures s >= 0.0
  {
    CancelPositive(n, 0.0, s);
  }

  lemma ZeroMoments(n: real, sxy: real, sx: real, sy: real, sxx: real, syy: real)
    requires n == 0.0 && sx == 0.0 && sy == 0.0
    ensures Cross(n, sxy, sx, sy) == 0.0 && Spread(n, sxx, sx) == 0.0 && Spread(n, syy, sy) == 0.0
  {
  }

  /** With no pairs every sum, and so the numerator and both spreads, is zero. */
  lemma EmptyMoments(ps: seq<Pair>)
    requires ps == []
    ensures CrossDeviation(ps) == 0.0 && SpreadX(ps) == 0.0 && SpreadY(ps) == 0.0
  {
    assert Xs(ps) == [] && Ys(ps) == [];
    ZeroMoments(|ps| as real, Sum(XYs(ps)), Sum(Xs(ps)), Sum(Ys(ps)), Sum(XXs(ps)), Sum(YYs(ps)));
  }

  /** The spreads are never negative. */
  lemma {:induction false} SpreadsNonNegative(ps: seq<Pair>)
    ensures SpreadX(ps) >= 0.0 && SpreadY(ps) >= 0.0
  {
    if ps == [] {
      EmptyMoments(ps);
    } else {
      CenteredSums(ps);
      SquareSumsNonNegative(Centered(ps));
      UnscaleNonNegative(|ps| as real, SpreadX(ps), Sum(XXs(Centered(ps))));
      UnscaleNonNegative(|ps| as real, SpreadY(ps), Sum(YYs(Centered(ps))));
    }
  }

  lemma ProductNonZero(a: real, b: real)
    requires a > 0.0 && b > 0.0
    ensures Product(a, b) != 0.0
  {
  }

  lemma ZeroSquareOfNonNegative(d: real)
    requires d >= 0.0 && Square(d) == 0.0
    ensures d == 0.0
  {
    if d > 0.0 {
      ProductNonZero(d, d);
    }
  }

  /** Only zero squares to zero. */
  lemma ZeroSquare(d: real)
    requires Square(d) == 0.0
    ensures d == 0.0
  {
    if d < 0.0 {
      SquareOfNegation(d);
      ZeroSquareOfNonNegative(-d);
    } else {
      ZeroSquareOfNonNegative(d);
    }
  }

  lemma SquareOfNegation(d: real)
    ensures Square(-d) == Square(d)
  {
  }

  lemma SameDeviation(n: real, x: real, y: real, s: real)
    requires n > 0.0 && Deviation(n, x, s) == Deviation(n, y, s)
    ensures x == y
  {
    CancelPositive(n, x, y);
    CancelPositive(n, y, x);
  }

  /** A zero x-spread means every x equals the mean, so any two are equal. */
  lemma ZeroSpreadXEqual(ps: seq<Pair>, i: nat, j: nat)
    requires i < |ps| && j < |ps|
    ensures SpreadX(ps) == 0.0 ==> ps[i].0 == ps[j].0
  {
    if SpreadX(ps) == 0.0 {
      var c := Centered(ps);
      CenteredSpreadX(ps);
      assert Sum(XXs(c)) == 0.0;
      forall k | 0 <= k < |c| ensures XXs(c)[k] >= 0.0 {
        SquareNonNegative(c[k].0);
      }
      SumZeroOnlyIfAllZero(XXs(c));
      ZeroSquare(c[i].0);
      ZeroSquare(c[j].0);
      SameDeviation(|ps| as real, ps[i].0, ps[j].0, Sum(Xs(ps)));
    }
  }

  /** Two different x values make the x-spread positive. */
  lemma SpreadXPositive(ps: seq<Pair>, i: nat, j: nat)
    requires i < |ps| && j < |ps| && ps[i].0 != ps[j].0
    ensures SpreadX(ps) > 0.0
  {
    SpreadsNonNegative(ps);
    ZeroSpreadXEqual(ps, i, j);
  }

  lemma ZeroBound(c: real, u: real, v: real)
    requires c == 0.0 && u == 0.0
    ensures Dominated(c, u, v)
  {
  }

  lemma UnscaleBound(n: real, C: real, U: real, V: real, p: real, q: real, r: real)
    requires n > 0.0 && p == Product(n, C) && q == Product(n, U) && r == Product(n, V)
    requires Dominated(p, q, r)
    ensures Dominated(C, U, V)
  {
    assert p * p == n * (n * (C * C));
    assert q * r == n * (n * (U * V));
    CancelPositive(n, n * (C * C), n * (U * V));
    CancelPositive(n, C * C, U * V);
  }

  /**
   * The centred Cauchy–Schwarz inequality: the Pearson numerator squared
   * never exceeds the product of the spreads, so the coefficient lies in [-1, 1].
   */
  lemma {:induction false} CrossDeviationBound(ps: seq<Pair>)
    ensures Dominated(CrossDeviation(ps), SpreadX(ps), SpreadY(ps))
  {
    if ps == [] {
      EmptyMoments(ps);
      ZeroBound(CrossDeviation(ps), SpreadX(ps), SpreadY(ps));
    } else {
      CenteredSums(ps);
      CauchySchwarz(Centered(ps));
      UnscaleBound(|ps| as real, CrossDeviation(ps), SpreadX(ps), SpreadY(ps),
                   Sum(XYs(Centered(ps))), Sum(XXs(Centered(ps))), Sum(YYs(Centered(ps))));
    }
  }

  // ---------------------------------------------------------------- exact lines

  /** Every y lies on the line a·x + b. */
  ghost predicate OnLine(ps: seq<Pair>, a: real, b: real)
  {
    forall i :: 0 <= i < |ps| ==> ps[i].1 == Line(a, b, ps[i].0)
  }

  function Line(a: real, b: real, x: real): real { a * x + b }

  lemma LineTerms(p: Pair, a: real, b: real)
    requires p.1 == Line(a, b, p.0)
    ensures p.1 == Combine(a, p.0, 0.0, p.0, 0.0, p.0, b)
    ensures XY(p) == Combine(a, Square(p.0), b, p.0, 0.0, p.0, 0.0)
    ensures Square(p.1) == Combine(a, XY(p), b, p.1, 0.0, p.1, 0.0)
  {
  }

  lemma LineYTerms(ps: seq<Pair>, a: real, b: real)
    requires OnLine(ps, a, b)
    ensures Combination(Ys(ps), Xs(ps), Xs(ps), Xs(ps), a, 0.0, 0.0, b)
  {
    forall i | 0 <= i < |ps|
      ensures Ys(ps)[i] == Combine(a, Xs(ps)[i], 0.0, Xs(ps)[i], 0.0, Xs(ps)[i], b)
    {
      LineTerms(ps[i], a, b);
    }
  }

  lemma LineXYTerms(ps: seq<Pair>, a: real, b: real)
    requires OnLine(ps, a, b)
    ensures Combination(XYs(ps), XXs(ps), Xs(ps), Xs(ps), a, b, 0.0, 0.0)
  {
    forall i | 0 <= i < |ps|
      ensures XYs(ps)[i] == Combine(a, XXs(ps)[i], b, Xs(ps)[i], 0.0, Xs(ps)[i], 0.0)
    {
      LineTerms(ps[i], a, b);
    }
  }

  lemma LineYYTerms(ps: seq<Pair>, a: real, b: real)
    requires OnLine(ps, a, b)
    ensures Combination(YYs(ps), XYs(ps), Ys(ps), Ys(ps), a, b, 0.0, 0.0)
  {
    forall i | 0 <= i < |ps|
      ensures YYs(ps)[i] == Combine(a, XYs(ps)[i], b, Ys(ps)[i], 0.0, Ys(ps)[i], 0.0)
    {
      LineTerms(ps[i], a, b);
    }
  }

  /** On an exact line, Σy = a·Σx + n·b. */
  lemma LineYSum(ps: seq<Pair>, a: real, b: real)
    requires OnLine(ps, a, b)
    ensures var sx := Sum(Xs(ps));
      Sum(Ys(ps)) == Combine(a, sx, 0.0, sx, 0.0, sx, Product(|ps| as real, b))
  {
    LineYTerms(ps, a, b);
    SumLinear(Ys(ps), Xs(ps), Xs(ps), Xs(ps), a, 0.0, 0.0, b, |ps| as real);
  }

  /** On an exact line, Σxy = a·Σx² + b·Σx. */
  lemma LineXYSum(ps: seq<Pair>, a: real, b: real)
    requires OnLine(ps, a, b)
    ensures var sx := Sum(Xs(ps));
      Sum(XYs(ps)) == Combine(a, Sum(XXs(ps)), b, sx, 0.0, sx, Product(|ps| as real, 0.0))
  {
    LineXYTerms(ps, a, b);
    SumLinear(XYs(ps), XXs(ps), Xs(ps), Xs(ps), a, b, 0.0, 0.0, |ps| as real);
  }

  /** On an exact line, Σy² = a·Σxy + b·Σy. */
  lemma LineYYSum(ps: seq<Pair>, a: real, b: real)
    requires OnLine(ps, a, b)
    ensures var sy := Sum(Ys(ps));
      Sum(YYs(ps)) == Combine(a, Sum(XYs(ps)), b, sy, 0.0, sy, Product(|ps| as real, 0.0))
  {
    LineYYTerms(ps, a, b);
    SumLinear(YYs(ps), XYs(ps), Ys(ps), Ys(ps), a, b, 0.0, 0.0, |ps| as real);
  }

  lemma LineNumerator(n: real, a: real, b: real, sxx: real, sx: real, sy: real, sxy: real)
    requires sy == Combine(a, sx, 0.0, sx, 0.0, sx, Product(n, b))
    requires sxy == Combine(a, sxx, b, sx, 0.0, sx, Product(n, 0.0))
    ensures Cross(n, sxy, sx, sy) == Product(a, Spread(n, sxx, sx))
  {
  }

  lemma LineSpread(n: real, a: real, b: real, sx: real, sy: real, sxy: real, syy: real)
    requires sy == Combine(a, sx, 0.0, sx, 0.0, sx, Product(n, b))
    requires syy == Combine(a, sxy, b, sy, 0.0, sy, Product(n, 0.0))
    ensures Spread(n, syy, sy) == Product(a, Cross(n, sxy, sx, sy))
  {
    assert Spread(n, syy, sy) - a * Cross(n, sxy, sx, sy) == sy * (n * b + a * sx - sy);
  }

  /** On an exact line the numerator is the slope times the x-spread. */
  lemma LineCrossDeviation(ps: seq<Pair>, a: real, b: real)
    requires OnLine(ps, a, b)
    ensures CrossDeviation(ps) == Product(a, SpreadX(ps))
  {
    LineYSum(ps, a, b);
    LineXYSum(ps, a, b);
    LineNumerator(|ps| as real, a, b, Sum(XXs(ps)), Sum(Xs(ps)), Sum(Ys(ps)), Sum(XYs(ps)));
  }

  /** On an exact line the y-spread is the slope times the numerator. */
  lemma LineSpreadY(ps: seq<Pair>, a: real, b: real)
    requires OnLine(ps, a, b)
    ensures SpreadY(ps) == Product(a, CrossDeviation(ps))
  {
    LineYSum(ps, a, b);
    LineYYSum(ps, a, b);
    LineSpread(|ps| as real, a, b, Sum(Xs(ps)), Sum(Ys(ps)), Sum(XYs(ps)), Sum(YYs(ps)));
  }
}
