/** Vectors over exact reals: difference, inner product and squared distance. */
module Vectors {

  type Vector = seq<real>

  function Minus(x: Vector, y: Vector): (z: Vector)
    requires |x| == |y|
    ensures |z| == |x|
  {
    seq(|x|, i requires 0 <= i < |x| => x[i] - y[i])
  }

  function Zero(n: nat): (z: Vector)
    ensures |z| == n
  {
    seq(n, _ => 0.0)
  }

  /** One at place `k`, zero elsewhere. */
  function Unit(n: nat, k: nat): (z: Vector)
    ensures |z| == n
  {
    seq(n, i => if i == k then 1.0 else 0.0)
  }

  function Sum(x: Vector, y: Vector): (z: Vector)
    requires |x| == |y|
    ensures |z| == |x|
  {
    seq(|x|, p requires 0 <= p < |x| => x[p] + y[p])
  }

  function Multiple(r: real, x: Vector): (z: Vector)
    ensures |z| == |x|
  {
    seq(|x|, i requires 0 <= i < |x| => Mul(r, x[i]))
  }

  function Mul(r: real, s: real): real {
    r * s
  }

  function Inner(x: Vector, y: Vector): real
    requires |x| == |y|
  {
    if x == [] then 0.0
    else Inner(x[..|x| - 1], y[..|y| - 1]) + Mul(x[|x| - 1], y[|y| - 1])
  }

  function SquaredDistance(x: Vector, y: Vector): real
    requires |x| == |y|
  {
    Inner(Minus(x, y), Minus(x, y))
  }

  lemma {:induction false} InnerOfMinus(u: Vector, v: Vector, w: Vector)
    requires |u| == |v| == |w|
    ensures Inner(u, Minus(v, w)) == Inner(u, v) - Inner(u, w)
  {
    if u != [] {
      var n := |u| - 1;
      assert Minus(v, w)[..n] == Minus(v[..n], w[..n]);
      InnerOfMinus(u[..n], v[..n], w[..n]);
    }
  }

  lemma {:induction false} SquaresVanish(x: Vector)
    ensures Inner(x, x) >= 0.0
    ensures Inner(x, x) == 0.0 ==> x == Zero(|x|)
  {
    if x == [] {
      assert x == Zero(0);
    } else {
      var n := |x| - 1;
      SquaresVanish(x[..n]);
      SquareSign(x[n]);
      assert Inner(x, x) == Inner(x[..n], x[..n]) + Mul(x[n], x[n]);
      if x[n] == 0.0 && x[..n] == Zero(n) {
        assert x == x[..n] + [x[n]] == Zero(n + 1);
      }
    }
  }

  lemma SquareSign(r: real)
    ensures if r == 0.0 then Mul(r, r) == 0.0 else Mul(r, r) > 0.0
  {
    if r > 0.0 {
      ProductPositive(r, r);
    } else if r < 0.0 {
      ProductPositive(-r, -r);
      assert Mul(-r, -r) == Mul(r, r);
    }
  }

  lemma ProductPositive(r: real, s: real)
    requires r > 0.0 && s > 0.0
    ensures Mul(r, s) > 0.0
  {
  }

  lemma {:induction false} InnerOfZero(n: nat)
    ensures Inner(Zero(n), Zero(n)) == 0.0
  {
    if n > 0 {
      InnerOfZero(n - 1);
      assert Zero(n)[..n - 1] == Zero(n - 1);
    }
  }

  // ----- What the product and the distance are

  /** A single coordinate. */
  lemma InnerOfOne(a: real, b: real)
    ensures Inner([a], [b]) == a * b
    ensures SquaredDistance([a], [b]) == (a - b) * (a - b)
  {
    assert [a][..0] == [b][..0] == [] && Inner([], []) == 0.0;
    assert Minus([a], [b]) == [a - b] && [a - b][..0] == [];
  }

  /** Every part of a vector counts the same. */
  lemma {:induction false} InnerOfConcat(x: Vector, x': Vector, y: Vector, y': Vector)
    requires |x| == |y| && |x'| == |y'|
    ensures Inner(x + x', y + y') == Inner(x, y) + Inner(x', y')
    decreases |x'|
  {
    if x' == [] {
      assert x + x' == x && y + y' == y;
    } else {
      var n := |x'| - 1;
      InnerOfConcat(x, x'[..n], y, y'[..n]);
      assert (x + x')[..|x| + n] == x + x'[..n] && (y + y')[..|y| + n] == y + y'[..n];
    }
  }

  lemma DistanceOfConcat(x: Vector, x': Vector, y: Vector, y': Vector)
    requires |x| == |y| && |x'| == |y'|
    ensures SquaredDistance(x + x', y + y') == SquaredDistance(x, y) + SquaredDistance(x', y')
  {
    assert Minus(x + x', y + y') == Minus(x, y) + Minus(x', y');
    InnerOfConcat(Minus(x, y), Minus(x', y'), Minus(x, y), Minus(x', y'));
  }

  lemma {:induction false} InnerSymmetric(x: Vector, y: Vector)
    requires |x| == |y|
    ensures Inner(x, y) == Inner(y, x)
  {
    if x != [] {
      InnerSymmetric(x[..|x| - 1], y[..|y| - 1]);
    }
  }

  lemma {:induction false} InnerWithZero(x: Vector)
    ensures Inner(x, Zero(|x|)) == 0.0
  {
    if x != [] {
      var n := |x| - 1;
      InnerWithZero(x[..n]);
      assert Zero(|x|)[..n] == Zero(n);
    }
  }

  /** The product with a unit vector is the coordinate. */
  lemma {:induction false} InnerOfUnit(x: Vector, k: nat)
    requires k < |x|
    ensures Inner(x, Unit(|x|, k)) == x[k]
  {
    var n := |x| - 1;
    if k < n {
      InnerOfUnit(x[..n], k);
      assert Unit(|x|, k)[..n] == Unit(n, k);
    } else {
      InnerWithZero(x[..n]);
      assert Unit(|x|, k)[..n] == Zero(n);
    }
  }

  /** The distance of vectors that differ at one place only is the square of that difference. */
  lemma DistanceAtOnePlace(x: Vector, k: nat, c: real)
    requires k < |x|
    ensures SquaredDistance(x, x[k := c]) == (x[k] - c) * (x[k] - c)
  {
    var y := x[k := c];
    NoDistance(x[..k]);
    NoDistance(x[k + 1..]);
    InnerOfOne(x[k], c);
    assert x == (x[..k] + [x[k]]) + x[k + 1..] && y == (x[..k] + [c]) + x[k + 1..];
    DistanceOfConcat(x[..k], [x[k]], x[..k], [c]);
    DistanceOfConcat(x[..k] + [x[k]], x[k + 1..], x[..k] + [c], x[k + 1..]);
  }

  lemma NoDistance(x: Vector)
    ensures SquaredDistance(x, x) == 0.0
  {
    assert Minus(x, x) == Zero(|x|);
    InnerOfZero(|x|);
  }
}
