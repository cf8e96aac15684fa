/** What one pixel of a feature map contributes, and where: its weights, its strongest channel, its direction. */
module HogGradient {

  const NUM_SECTOR: nat := 9

  /** Distances of pixel j of a cell of k pixels from the centre of its cell and from the nearest other centre,
      as the code computes them. */
  function Own(k: nat, j: nat): real {
    if j < k / 2 then (k / 2) as real - j as real - 0.5 else j as real - (k / 2) as real + 0.5
  }

  function Other(k: nat, j: nat): real {
    if j < k / 2 then (k / 2) as real + j as real + 0.5 else -(j as real) + (k / 2) as real - 0.5 + k as real
  }

  lemma Distances(k: nat, j: nat)
    requires j < k
    ensures Own(k, j) > 0.0 && Other(k, j) > 0.0
    ensures k % 2 == 0 || j >= k / 2 ==> Own(k, j) + Other(k, j) == k as real
  {
    if k % 2 == 0 {
      assert (k / 2) as real + (k / 2) as real == k as real;
    }
  }

  /** The shape of the weight in the code is a plain quotient. */
  lemma WeightQuotient(a: real, b: real)
    requires a > 0.0 && b > 0.0
    ensures 1.0 / a * ((a * b) / (a + b)) == b / (a + b)
  {
    var p, q := 1.0 / a, (a * b) / (a + b);
    assert p * a == 1.0;
    assert q * (a + b) == a * b;
    Cancels(p, q, a, b, a + b);
  }

  lemma Cancels(p: real, q: real, a: real, b: real, s: real)
    requires p * a == 1.0 && q * s == a * b && s > 0.0
    ensures p * q == b / s
  {
    assert p * q * s == p * (q * s);
    assert p * (a * b) == p * a * b;
    assert p * q * s == b;
  }

  lemma Shares(a: real, b: real)
    requires a > 0.0 && b > 0.0
    ensures 0.0 < b / (a + b) < 1.0 && b / (a + b) + a / (a + b) == 1.0
  {
    assert (b + a) / (a + b) == b / (a + b) + a / (a + b);
    Positive(b, a + b);
    Positive(a, a + b);
  }

  lemma Positive(x: real, y: real)
    requires x > 0.0 && y > 0.0
    ensures x / y > 0.0
  {
  }

  /** The share of pixel j that its own cell gets; the nearest other cell gets the rest. */
  ghost function Share(k: nat, j: nat): (w: real)
    requires j < k
    ensures 0.0 < w < 1.0
  {
    Distances(k, j);
    Shares(Own(k, j), Other(k, j));
    Other(k, j) / (Own(k, j) + Other(k, j))
  }

  /** For an even cell size the share falls linearly with the distance of the pixel from its cell's centre. */
  lemma Linear(k: nat, j: nat)
    requires j < k && k % 2 == 0
    ensures var away := j as real + 0.5 - k as real / 2.0;
            Share(k, j) == 1.0 - (if away < 0.0 then -away else away) / k as real
  {
    Distances(k, j);
    Shares(Own(k, j), Other(k, j));
    assert (k / 2) as real == k as real / 2.0;
  }

  ghost predicate Weighted(k: nat, j: nat, own: real, other: real) {
    j < k && own == Share(k, j) && other == 1.0 - Share(k, j)
  }

  /** The two loops that fill the weights, and those that fill the neighbour directions. */
  method FillWeights(k: nat) returns (w: array<real>, nearest: array<int>)
    ensures w.Length == 2 * k && nearest.Length == k && fresh(w) && fresh(nearest)
    ensures forall j :: 0 <= j < k ==> Weighted(k, j, w[2 * j], w[2 * j + 1])
    ensures forall j :: 0 <= j < k ==> nearest[j] == if j < k / 2 then -1 else 1
  {
    hide Share, Weighted;
    nearest := new int[k];
    for i := 0 to k / 2
      invariant forall j :: 0 <= j < i ==> nearest[j] == -1
    {
      nearest[i] := -1;
    }
    for i := k / 2 to k
      invariant forall j :: 0 <= j < i ==> nearest[j] == if j < k / 2 then -1 else 1
    {
      nearest[i] := 1;
    }
    w := new real[k * 2];
    for j := 0 to k / 2
      invariant forall i :: 0 <= i < j ==> Weighted(k, i, w[2 * i], w[2 * i + 1])
      invariant forall i :: 0 <= i < k ==> nearest[i] == if i < k / 2 then -1 else 1
    {
      var b := (k / 2) as real + j as real + 0.5;
      var a := (k / 2) as real - j as real - 0.5;
      w[j * 2], w[j * 2 + 1] := PixelWeights(k, j, a, b);
    }
    for j := k / 2 to k
      invariant forall i :: 0 <= i < j ==> Weighted(k, i, w[2 * i], w[2 * i + 1])
      invariant forall i :: 0 <= i < k ==> nearest[i] == if i < k / 2 then -1 else 1
    {
      var a := j as real - (k / 2) as real + 0.5;
      var b := -(j as real) + (k / 2) as real - 0.5 + k as real;
      w[j * 2], w[j * 2 + 1] := PixelWeights(k, j, a, b);
    }
  }

  method PixelWeights(ghost k: nat, ghost j: nat, a: real, b: real) returns (own: real, other: real)
    requires j < k && a == Own(k, j) && b == Other(k, j)
    ensures Weighted(k, j, own, other)
  {
    Distances(k, j);
    WeightQuotient(a, b);
    WeightQuotient(b, a);
    Shares(a, b);
    own := 1.0 / a * ((a * b) / (a + b));
    other := 1.0 / b * ((a * b) / (a + b));
  }

  /** The first channel of the greatest gradient magnitude. */
  method StrongestChannel(magnitude: (real, real) -> real, dx: seq<real>, dy: seq<real>)
    returns (r: real, c: nat, x: real, y: real)
    requires |dx| == |dy| > 0
    ensures c < |dx| && x == dx[c] && y == dy[c] && r == magnitude(x, y)
    ensures forall ch :: 0 <= ch < |dx| ==> magnitude(dx[ch], dy[ch]) <= r
    ensures forall ch :: 0 <= ch < c ==> magnitude(dx[ch], dy[ch]) < r
  {
    c, x, y := 0, dx[0], dy[0];
    r := magnitude(x, y);
    for ch := 1 to |dx|
      invariant c < ch && x == dx[c] && y == dy[c] && r == magnitude(x, y)
      invariant forall i :: 0 <= i < ch ==> magnitude(dx[i], dy[i]) <= r
      invariant forall i :: 0 <= i < c ==> magnitude(dx[i], dy[i]) < r
    {
      var tx, ty := dx[ch], dy[ch];
      var m := magnitude(tx, ty);
      if m > r {
        r, c, x, y := m, ch, tx, ty;
      }
    }
  }

  function Dot(dirX: seq<real>, dirY: seq<real>, x: real, y: real, m: nat): real
    requires m < |dirX| && m < |dirY|
  {
    dirX[m] * x + dirY[m] * y
  }

  /** The gradient along direction m of the 18: nine boundaries, then their opposites. */
  function Along(dirX: seq<real>, dirY: seq<real>, x: real, y: real, m: nat): real
    requires |dirX| > NUM_SECTOR && |dirY| > NUM_SECTOR && m < 2 * NUM_SECTOR
  {
    if m < NUM_SECTOR then Dot(dirX, dirY, x, y, m) else -Dot(dirX, dirY, x, y, m - NUM_SECTOR)
  }

  /** In numbers: direction maxi has the gradient's greatest projection in size, and is on its side. */
  lemma GreatestProjection(dirX: seq<real>, dirY: seq<real>, x: real, y: real, maxi: nat)
    requires |dirX| > NUM_SECTOR && |dirY| > NUM_SECTOR && maxi < 2 * NUM_SECTOR
    requires forall m: nat :: m < 2 * NUM_SECTOR ==> Along(dirX, dirY, x, y, m) <= Along(dirX, dirY, x, y, maxi)
    ensures var best := dirX[maxi % 9] * x + dirY[maxi % 9] * y;
            && (maxi < 9 ==> best >= 0.0) && (maxi >= 9 ==> best <= 0.0)
            && forall m: nat :: m < 9 ==>
                 var dot := dirX[m] * x + dirY[m] * y;
                 (if dot < 0.0 then -dot else dot) <= (if best < 0.0 then -best else best)
  {
    var k := maxi % 9;
    forall m: nat | m < 9
      ensures var dot := dirX[m] * x + dirY[m] * y;
              dot <= Along(dirX, dirY, x, y, maxi) && -dot <= Along(dirX, dirY, x, y, maxi)
    {
      assert Along(dirX, dirY, x, y, m) <= Along(dirX, dirY, x, y, maxi);
      assert Along(dirX, dirY, x, y, m + 9) <= Along(dirX, dirY, x, y, maxi);
    }
    assert Dot(dirX, dirY, x, y, k) == dirX[k] * x + dirY[k] * y;
  }

  /** When direction m is looked at: each boundary, then its opposite. */
  function Turn(m: nat): nat {
    if m < NUM_SECTOR then 2 * m else 2 * (m - NUM_SECTOR) + 1
  }

  /** The first direction, in that order, along which the gradient is greatest. */
  method ChooseSector(dirX: seq<real>, dirY: seq<real>, x: real, y: real) returns (maxi: nat)
    requires |dirX| > NUM_SECTOR && |dirY| > NUM_SECTOR
    ensures maxi < 2 * NUM_SECTOR
    ensures forall m: nat :: m < 2 * NUM_SECTOR ==> Along(dirX, dirY, x, y, m) <= Along(dirX, dirY, x, y, maxi)
    ensures forall m: nat :: m < 2 * NUM_SECTOR && Turn(m) < Turn(maxi) ==>
              Along(dirX, dirY, x, y, m) < Along(dirX, dirY, x, y, maxi)
  {
    hide Dot;
    var max := Dot(dirX, dirY, x, y, 0);
    maxi := 0;
    for kk := 0 to NUM_SECTOR
      invariant maxi < 2 * NUM_SECTOR && max == Along(dirX, dirY, x, y, maxi)
      invariant Turn(maxi) <= 2 * kk && (kk > 0 ==> max >= 0.0)
      invariant forall m: nat :: m < 2 * NUM_SECTOR && Turn(m) < 2 * kk ==> Along(dirX, dirY, x, y, m) <= max
      invariant forall m: nat :: m < 2 * NUM_SECTOR && Turn(m) < Turn(maxi) ==> Along(dirX, dirY, x, y, m) < max
    {
      var dotProd := Dot(dirX, dirY, x, y, kk);
      assert -dotProd == Along(dirX, dirY, x, y, kk + NUM_SECTOR);
      if dotProd > max {
        max := dotProd;
        maxi := kk;
      } else {
        if -dotProd > max {
          max := -dotProd;
          maxi := kk + NUM_SECTOR;
        }
      }
    }
  }
}
