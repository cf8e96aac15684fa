/** The softmax of one column of scores, shifted by its maximum. */
module SoftmaxColumn {

  type Fn = real -> real

  /** All that the layer needs of the exponential: it is positive and strictly increasing. */
  ghost predicate ExpLike(exp: Fn) {
    (forall x :: exp(x) > 0.0) && (forall x, y :: x < y ==> exp(x) < exp(y))
  }

  ghost predicate Multiplicative(exp: Fn) {
    forall x, y :: exp(x + y) == exp(x) * exp(y)
  }

  function Largest(col: seq<real>): (m: real)
    requires col != []
    ensures m in col && forall c :: 0 <= c < |col| ==> col[c] <= m
  {
    var n := |col| - 1;
    if n == 0 then col[0] else
    var m := Largest(col[..n]);
    assert forall c :: 0 <= c < n ==> col[..n][c] == col[c];
    if col[n] > m then col[n] else m
  }

  function Sum(xs: seq<real>): real {
    if xs == [] then 0.0 else Sum(xs[..|xs| - 1]) + xs[|xs| - 1]
  }

  /** The exponentials of the scores less a shift. */
  function Weights(exp: Fn, col: seq<real>, shift: real): (ws: seq<real>)
    ensures |ws| == |col| && forall c :: 0 <= c < |col| ==> ws[c] == exp(col[c] - shift)
  {
    seq(|col|, c requires 0 <= c < |col| => exp(col[c] - shift))
  }

  function Scaled(xs: seq<real>, d: real): (ys: seq<real>)
    requires d != 0.0
    ensures |ys| == |xs| && forall c :: 0 <= c < |xs| ==> ys[c] == xs[c] / d
  {
    seq(|xs|, c requires 0 <= c < |xs| => xs[c] / d)
  }

  lemma {:induction false} SumPositive(xs: seq<real>)
    requires forall c :: 0 <= c < |xs| ==> xs[c] > 0.0
    ensures xs != [] ==> Sum(xs) > 0.0
    ensures Sum(xs) >= 0.0
  {
    if xs != [] {
      SumPositive(xs[..|xs| - 1]);
    }
  }

  lemma WeightsPositive(exp: Fn, col: seq<real>, shift: real)
    requires ExpLike(exp) && col != []
    ensures Sum(Weights(exp, col, shift)) > 0.0
    ensures forall c :: 0 <= c < |col| ==> Weights(exp, col, shift)[c] > 0.0
  {
    hide Sum;
    SumPositive(Weights(exp, col, shift));
  }

  function Softmax(exp: Fn, col: seq<real>): (r: seq<real>)
    requires ExpLike(exp) && col != []
    ensures |r| == |col|
  {
    var ws := Weights(exp, col, Largest(col));
    WeightsPositive(exp, col, Largest(col));
    Scaled(ws, Sum(ws))
  }

  lemma {:induction false} SumScaled(xs: seq<real>, d: real)
    requires d != 0.0
    ensures Sum(Scaled(xs, d)) == Sum(xs) / d
  {
    if xs != [] {
      var front := xs[..|xs| - 1];
      SumScaled(front, d);
      assert Scaled(xs, d)[..|front|] == Scaled(front, d);
    }
  }

  lemma Divided(x: real, y: real, d: real)
    requires d > 0.0
    ensures x > 0.0 ==> x / d > 0.0
    ensures d / d == 1.0 && (x < y <==> x / d < y / d)
  {
    assert (y - x) / d == y / d - x / d;
  }

  lemma ExpOrder(exp: Fn, x: real, y: real)
    requires ExpLike(exp)
    ensures exp(x) > 0.0 && (x < y <==> exp(x) < exp(y))
  {
    if y < x {
      assert exp(y) < exp(x);
    }
  }

  /** One result, as a quotient of positive numbers. */
  lemma Quotient(exp: Fn, col: seq<real>, c: nat)
    requires ExpLike(exp) && c < |col|
    ensures var ws := Weights(exp, col, Largest(col));
            Sum(ws) > 0.0 && ws[c] > 0.0 && Softmax(exp, col) == Scaled(ws, Sum(ws))
  {
    hide ExpLike, Sum, Weights, Scaled, Largest;
    WeightsPositive(exp, col, Largest(col));
  }

  /** The results are positive and sum to one, */
  lemma Distribution(exp: Fn, col: seq<real>)
    requires ExpLike(exp) && col != []
    ensures forall c :: 0 <= c < |col| ==> Softmax(exp, col)[c] > 0.0
    ensures Sum(Softmax(exp, col)) == 1.0
  {
    hide Softmax, Sum, Largest, Weights, ExpLike, Scaled;
    var ws := Weights(exp, col, Largest(col));
    forall c | 0 <= c < |col| ensures Softmax(exp, col)[c] > 0.0 {
      Quotient(exp, col, c);
      Divided(ws[c], ws[c], Sum(ws));
    }
    Quotient(exp, col, 0);
    Divided(ws[0], ws[0], Sum(ws));
    SumScaled(ws, Sum(ws));
  }

  /** and a larger score has the larger result. */
  lemma OrderKept(exp: Fn, col: seq<real>, a: nat, b: nat)
    requires ExpLike(exp) && a < |col| && b < |col|
    ensures col[a] < col[b] <==> Softmax(exp, col)[a] < Softmax(exp, col)[b]
  {
    hide Softmax, Sum, Largest, ExpLike;
    var m := Largest(col);
    var ws := Weights(exp, col, m);
    Quotient(exp, col, a);
    Quotient(exp, col, b);
    Divided(ws[a], ws[b], Sum(ws));
    ExpOrder(exp, col[a] - m, col[b] - m);
  }

  /** For a multiplicative exponential the shift by the maximum does not change the result. */
  lemma ShiftFree(exp: Fn, col: seq<real>, c: nat)
    requires ExpLike(exp) && c < |col| && Multiplicative(exp)
    ensures Sum(Weights(exp, col, 0.0)) > 0.0
    ensures Softmax(exp, col)[c] == exp(col[c]) / Sum(Weights(exp, col, 0.0))
  {
    hide *;
    var m := Largest(col);
    var ws, plain := Weights(exp, col, m), Weights(exp, col, 0.0);
    Quotient(exp, col, c);
    WeightsPositive(exp, col, 0.0);
    PlainSum(exp, col, m);
    ExpOrder(exp, m, m);
    ExpShift(exp, col[c], m);
    PlainWeight(exp, col, c);
    Cancel(ws[c], Sum(ws), exp(m), exp(col[c]), Sum(plain));
  }

  lemma PlainSum(exp: Fn, col: seq<real>, m: real)
    requires Multiplicative(exp)
    ensures Sum(Weights(exp, col, 0.0)) == Sum(Weights(exp, col, m)) * exp(m)
  {
    hide *;
    Unshifted(exp, col, m);
    SumTimes(Weights(exp, col, m), Weights(exp, col, 0.0), exp(m));
  }

  lemma ExpShift(exp: Fn, x: real, m: real)
    requires Multiplicative(exp)
    ensures exp(x - 0.0) == exp(x - m) * exp(m)
  {
    assert exp((x - m) + m) == exp(x - m) * exp(m);
    assert (x - m) + m == x - 0.0;
  }

  lemma Unshifted(exp: Fn, col: seq<real>, m: real)
    requires Multiplicative(exp)
    ensures var ws, plain := Weights(exp, col, m), Weights(exp, col, 0.0);
            forall a :: 0 <= a < |col| ==> plain[a] == ws[a] * exp(m)
  {
    hide Multiplicative, Weights;
    var ws, plain := Weights(exp, col, m), Weights(exp, col, 0.0);
    forall a | 0 <= a < |col| ensures plain[a] == ws[a] * exp(m) {
      ExpShift(exp, col[a], m);
    }
  }

  lemma PlainWeight(exp: Fn, col: seq<real>, c: nat)
    requires c < |col|
    ensures Weights(exp, col, 0.0)[c] == exp(col[c])
  {
    assert col[c] - 0.0 == col[c];
  }

  lemma Cancel(x: real, y: real, k: real, x': real, y': real)
    requires y > 0.0 && k > 0.0 && x' == x * k && y' == y * k
    ensures y' > 0.0 && x' / y' == x / y
  {
    var q := x / y;
    assert x == q * y;
    assert x' == q * y';
  }

  lemma {:induction false} SumTimes(xs: seq<real>, ys: seq<real>, k: real)
    requires |xs| == |ys| && forall c :: 0 <= c < |xs| ==> ys[c] == xs[c] * k
    ensures Sum(ys) == Sum(xs) * k
  {
    if xs != [] {
      SumTimes(xs[..|xs| - 1], ys[..|ys| - 1], k);
    }
  }
}
