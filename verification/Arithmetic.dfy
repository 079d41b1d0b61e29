/** Small arithmetic (include/svs/lib/misc.h) and the facts about products it needs. */
module Arithmetic {

  function Min(a: nat, b: nat): nat {
    if a < b then a else b
  }

  lemma MulGap(a: int, b: int, m: nat)
    requires a < b
    ensures a * m + m <= b * m
  {
    assert b * m == a * m + (b - a) * m;
    assert (b - a) * m == m + (b - a - 1) * m;
  }

  /** `div_round_up`. */
  function DivRoundUp(x: nat, y: nat): nat
    requires y > 0
  {
    x / y + if x % y != 0 then 1 else 0
  }

  /** The batches of size `y` cover `0..x`, and all but the last are full. */
  lemma RoundUpCovers(x: nat, y: nat)
    requires y > 0
    ensures DivRoundUp(x, y) * y >= x
    ensures forall b: nat :: b < DivRoundUp(x, y) ==> b * y < x
  {
    var d := x / y;
    assert x == d * y + x % y;
    forall b: nat | b < DivRoundUp(x, y) ensures b * y < x {
      if b < d {
        MulGap(b, d, y);
      }
    }
  }

  /** The start of the batch that `i` belongs to. */
  lemma BatchStartIs(i: nat, batch: nat, q: nat)
    requires batch > 0 && q * batch <= i < q * batch + batch
    ensures i - i % batch == q * batch
  {
    var d, r := i / batch, i % batch;
    assert i == d * batch + r && 0 <= r < batch;
    if d < q {
      MulGap(d, q, batch);
    } else if d > q {
      MulGap(q, d, batch);
    }
  }

  lemma NextMultiple(n: nat, m: nat)
    requires m > 0 && n % m == 0
    ensures (n + m) % m == 0
  {
    var d := n / m;
    assert n == d * m;
    assert n + m == (d + 1) * m + 0;
    BatchStartIs(n + m, m, d + 1);
  }
}
