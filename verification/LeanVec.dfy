/** The LeanVec transform (include/svs/leanvec/leanvec.h) over exact reals: data and queries
    are multiplied by a matrix, after the means are subtracted where the mode asks for it. */
module LeanVec {
  import opened Arithmetic
  import opened Common
  import opened Vectors
  import Threads

  /** Row-major; the rows of a matrix have the same length. */
  datatype Matrix = Matrix(rows: seq<Vector>, cols: nat)

  predicate WellShaped(a: Matrix) {
    forall k :: 0 <= k < |a.rows| ==> |a.rows[k]| == a.cols
  }

  /** What the pair of matrices is checked for when it is made. */
  predicate Matched(matrices: (Matrix, Matrix)) {
    var (a, b) := matrices;
    WellShaped(a) && WellShaped(b) && |a.rows| == |b.rows| && a.cols == b.cols
  }

  datatype Distance = L2 | IP

  // ----- Linear algebra

  /** The first `k` terms of entry `j` of the product of `x` with `a`. */
  function Entry(x: Vector, a: Matrix, j: nat, k: nat): real
    requires WellShaped(a) && |x| == |a.rows| && j < a.cols && k <= |x|
  {
    if k == 0 then 0.0 else Entry(x, a, j, k - 1) + x[k - 1] * a.rows[k - 1][j]
  }

  /** One row of `cblas_sgemm`. */
  function Times(x: Vector, a: Matrix): (y: Vector)
    requires WellShaped(a) && |x| == |a.rows|
    ensures |y| == a.cols
  {
    seq(a.cols, j requires 0 <= j < a.cols => Entry(x, a, j, |x|))
  }

  lemma {:induction false} EntryOfMinus(x: Vector, m: Vector, a: Matrix, j: nat, k: nat)
    requires WellShaped(a) && |x| == |m| == |a.rows| && j < a.cols && k <= |x|
    ensures Entry(Minus(x, m), a, j, k) == Entry(x, a, j, k) - Entry(m, a, j, k)
  {
    if k > 0 {
      EntryOfMinus(x, m, a, j, k - 1);
    }
  }

  /** The product is linear: centring before it is centring after it. */
  lemma TimesOfMinus(x: Vector, m: Vector, a: Matrix)
    requires WellShaped(a) && |x| == |m| == |a.rows|
    ensures Times(Minus(x, m), a) == Minus(Times(x, a), Times(m, a))
  {
    forall j | 0 <= j < a.cols ensures Times(Minus(x, m), a)[j] == Minus(Times(x, a), Times(m, a))[j] {
      EntryOfMinus(x, m, a, j, |x|);
    }
  }

  lemma {:induction false} EntryOfZero(a: Matrix, j: nat, k: nat)
    requires WellShaped(a) && j < a.cols && k <= |a.rows|
    ensures Entry(Zero(|a.rows|), a, j, k) == 0.0
  {
    if k > 0 {
      EntryOfZero(a, j, k - 1);
    }
  }

  /** The product of a unit vector is a row of the matrix. */
  lemma TimesOfUnit(a: Matrix, i: nat)
    requires WellShaped(a) && i < |a.rows|
    ensures Times(Unit(|a.rows|, i), a) == a.rows[i]
  {
    forall j | 0 <= j < a.cols ensures Times(Unit(|a.rows|, i), a)[j] == a.rows[i][j] {
      EntryOfUnit(a, i, j, |a.rows|);
    }
  }

  lemma {:induction false} EntryOfUnit(a: Matrix, i: nat, j: nat, k: nat)
    requires WellShaped(a) && i < |a.rows| && j < a.cols && k <= |a.rows|
    ensures Entry(Unit(|a.rows|, i), a, j, k) == if i < k then a.rows[i][j] else 0.0
  {
    if k > 0 {
      EntryOfUnit(a, i, j, k - 1);
    }
  }

  /** The product respects sums and multiples. */
  lemma TimesOfSum(x: Vector, y: Vector, a: Matrix)
    requires WellShaped(a) && |x| == |y| == |a.rows|
    ensures Times(Sum(x, y), a) == Sum(Times(x, a), Times(y, a))
  {
    forall j | 0 <= j < a.cols ensures Times(Sum(x, y), a)[j] == Sum(Times(x, a), Times(y, a))[j] {
      EntryOfSum(x, y, a, j, |x|);
    }
  }

  lemma {:induction false} EntryOfSum(x: Vector, y: Vector, a: Matrix, j: nat, k: nat)
    requires WellShaped(a) && |x| == |y| == |a.rows| && j < a.cols && k <= |x|
    ensures Entry(Sum(x, y), a, j, k) == Entry(x, a, j, k) + Entry(y, a, j, k)
  {
    if k > 0 {
      EntryOfSum(x, y, a, j, k - 1);
    }
  }

  lemma TimesOfMultiple(r: real, x: Vector, a: Matrix)
    requires WellShaped(a) && |x| == |a.rows|
    ensures Times(Multiple(r, x), a) == Multiple(r, Times(x, a))
  {
    forall j | 0 <= j < a.cols ensures Times(Multiple(r, x), a)[j] == Multiple(r, Times(x, a))[j] {
      EntryOfMultiple(r, x, a, j, |x|);
    }
  }

  lemma {:induction false} EntryOfMultiple(r: real, x: Vector, a: Matrix, j: nat, k: nat)
    requires WellShaped(a) && |x| == |a.rows| && j < a.cols && k <= |x|
    ensures Entry(Multiple(r, x), a, j, k) == r * Entry(x, a, j, k)
  {
    if k > 0 {
      EntryOfMultiple(r, x, a, j, k - 1);
      Distribute(r, Entry(x, a, j, k - 1), x[k - 1], a.rows[k - 1][j]);
    }
  }

  lemma Distribute(r: real, s: real, x: real, y: real)
    ensures r * (s + x * y) == r * s + (r * x) * y
  {
  }

  /** Each entry is the inner product with a column of the matrix. */
  lemma EntryIsInner(x: Vector, a: Matrix, j: nat)
    requires WellShaped(a) && |x| == |a.rows| && j < a.cols
    ensures Times(x, a)[j] == Inner(x, Column(a, j))
  {
    assert x[..|x|] == x && Column(a, j)[..|x|] == Column(a, j);
    EntryIsInnerTo(x, a, j, |x|);
  }

  function Column(a: Matrix, j: nat): (y: Vector)
    requires WellShaped(a) && j < a.cols
    ensures |y| == |a.rows|
  {
    seq(|a.rows|, i requires 0 <= i < |a.rows| => a.rows[i][j])
  }

  lemma {:induction false} EntryIsInnerTo(x: Vector, a: Matrix, j: nat, k: nat)
    requires WellShaped(a) && |x| == |a.rows| && j < a.cols && k <= |x|
    ensures Entry(x, a, j, k) == Inner(x[..k], Column(a, j)[..k])
  {
    if k > 0 {
      EntryIsInnerTo(x, a, j, k - 1);
      assert x[..k][..k - 1] == x[..k - 1] && Column(a, j)[..k][..k - 1] == Column(a, j)[..k - 1];
    }
  }

  // ----- The transforms

  /** What a datum becomes. */
  function Reduced(x: Vector, a: Matrix, means: Vector, isPca: bool): (y: Vector)
    requires WellShaped(a) && |x| == |means| == |a.rows|
    ensures |y| == a.cols
  {
    Times(if isPca then Minus(x, means) else x, a)
  }

  /** What a query becomes: only L2 queries are centred. */
  function Prepared(q: Vector, b: Matrix, means: Vector, isPca: bool, distance: Distance): (y: Vector)
    requires WellShaped(b) && |q| == |means| == |b.rows|
    ensures |y| == b.cols
  {
    Times(if isPca && distance.L2? then Minus(q, means) else q, b)
  }

  /** What the transforms do to unit vectors, off the means where those are taken away: a datum
      becomes a row of its matrix, and a query one of its own. */
  lemma UnitsBecomeRows(a: Matrix, b: Matrix, means: Vector, k: nat)
    requires WellShaped(a) && WellShaped(b) && |a.rows| == |b.rows| == |means| && k < |means|
    ensures var e := Unit(|means|, k);
      && Reduced(e, a, means, false) == Reduced(Sum(means, e), a, means, true) == a.rows[k]
      && Prepared(e, b, means, false, L2) == Prepared(Sum(means, e), b, means, true, L2) == b.rows[k]
      && Prepared(e, b, means, false, IP) == Prepared(e, b, means, true, IP) == b.rows[k]
  {
    var e := Unit(|means|, k);
    assert Minus(Sum(means, e), means) == e;
    TimesOfUnit(a, k);
    TimesOfUnit(b, k);
  }

  predicate AllHave(data: seq<Vector>, dims: nat) {
    forall i :: 0 <= i < |data| ==> |data[i]| == dims
  }

  /** `transform_leanvec`: one matrix product, row by row. */
  method TransformLeanvec(data: seq<Vector>, a: Matrix) returns (r: seq<Vector>)
    requires WellShaped(a) && AllHave(data, |a.rows|)
    ensures |r| == |data| && forall i :: 0 <= i < |data| ==> r[i] == Times(data[i], a)
  {
    r := [];
    for i := 0 to |data|
      invariant |r| == i && forall l :: 0 <= l < i ==> r[l] == Times(data[l], a)
    {
      r := r + [Times(data[i], a)];
    }
  }

  /** Subtract the means from one vector, in place. */
  method Centre(x: Vector, means: Vector) returns (y: Vector)
    requires |x| == |means|
    ensures y == Minus(x, means)
  {
    y := x;
    for j := 0 to |x|
      invariant |y| == |x|
      invariant forall l :: 0 <= l < |x| ==> y[l] == if l < j then x[l] - means[l] else x[l]
    {
      y := y[j := y[j] - means[j]];
    }
  }

  /** `remove_means`: every row, in any order. */
  method RemoveMeans(data: array<Vector>, means: Vector)
    requires AllHave(data[..], |means|)
    modifies data
    ensures forall i :: 0 <= i < data.Length ==> data[i] == Minus(old(data[i]), means)
  {
    ghost var was := data[..];
    var remaining := Threads.Indices(data.Length);
    while remaining != {}
      invariant forall i :: i in remaining ==> 0 <= i < data.Length
      invariant AllHave(was, |means|)
      invariant forall i :: 0 <= i < data.Length ==> data[i] == if i in remaining then was[i] else Minus(was[i], means)
      decreases remaining
    {
      var i :| i in remaining;
      data[i] := Centre(data[i], means);
      remaining := remaining - {i};
    }
  }

  /** `transform_queries`, both overloads. */
  method TransformQueries(distance: Distance, queries: seq<Vector>, b: Matrix, means: Vector) returns (r: seq<Vector>)
    requires WellShaped(b) && |means| == |b.rows| && AllHave(queries, |means|)
    ensures |r| == |queries| && forall i :: 0 <= i < |r| ==> r[i] == Prepared(queries[i], b, means, true, distance)
  {
    if distance.IP? {
      r := TransformLeanvec(queries, b);
    } else {
      var processed: seq<Vector> := [];
      for i := 0 to |queries|
        invariant |processed| == i && forall l :: 0 <= l < i ==> processed[l] == Minus(queries[l], means)
      {
        var datum := Centre(queries[i], means);
        processed := processed + [datum];
      }
      r := TransformLeanvec(processed, b);
    }
  }

  /** Copy `n` rows from position `i` of the data into the batch; its other rows are stale. */
  method LoadBatch(data: seq<Vector>, i: nat, n: nat, batch: array<Vector>)
    requires i + n <= |data| && n <= batch.Length
    modifies batch
    ensures forall l :: 0 <= l < batch.Length ==> batch[l] == if l < n then data[i + l] else old(batch[l])
  {
    for j := 0 to n
      invariant forall l :: 0 <= l < batch.Length ==> batch[l] == if l < j then data[i + l] else old(batch[l])
    {
      batch[j] := data[i + j];
    }
  }

  /** The products of the first `n` rows, in any order. */
  method MultiplyBatch(batch: array<Vector>, n: nat, a: Matrix, reducedBatch: array<Vector>)
    requires WellShaped(a) && AllHave(batch[..], |a.rows|)
    requires n <= batch.Length == reducedBatch.Length && batch != reducedBatch
    modifies reducedBatch
    ensures forall l :: 0 <= l < n ==> |batch[l]| == |a.rows| && reducedBatch[l] == Times(batch[l], a)
  {
    var remaining := Threads.Indices(n);
    while remaining != {}
      invariant forall l :: l in remaining ==> 0 <= l < n
      invariant AllHave(batch[..], |a.rows|)
      invariant forall l :: 0 <= l < n && l !in remaining ==>
        |batch[l]| == |a.rows| && reducedBatch[l] == Times(batch[l], a)
      decreases remaining
    {
      var l :| l in remaining;
      reducedBatch[l] := Times(batch[l], a);
      remaining := remaining - {l};
    }
  }

  /** Write the first `n` products to positions `i..i + n`. */
  method StoreBatch(reducedBatch: array<Vector>, i: nat, n: nat, reduced: array<Vector>)
    requires i + n <= reduced.Length && n <= reducedBatch.Length && reduced != reducedBatch
    modifies reduced
    ensures forall l :: 0 <= l < reduced.Length ==>
      reduced[l] == if i <= l < i + n then reducedBatch[l - i] else old(reduced[l])
  {
    for j := 0 to n
      invariant forall l :: 0 <= l < reduced.Length ==>
        reduced[l] == if i <= l < i + j then reducedBatch[l - i] else old(reduced[l])
    {
      reduced[i + j] := reducedBatch[j];
    }
  }

  /** One batch of `transform_batch`: rows `i..i + n` go through the reused buffers. The means
      are removed from the whole buffer, stale rows included; nothing reads those. */
  method TransformRows(data: seq<Vector>, a: Matrix, means: Vector, isPca: bool, i: nat, n: nat,
      batch: array<Vector>, reducedBatch: array<Vector>, reduced: array<Vector>)
    requires WellShaped(a) && |means| == |a.rows| && AllHave(data, |means|) && AllHave(batch[..], |means|)
    requires i + n <= |data| == reduced.Length && n <= batch.Length == reducedBatch.Length
    requires batch != reducedBatch && batch != reduced && reducedBatch != reduced
    modifies batch, reducedBatch, reduced
    ensures AllHave(batch[..], |means|)
    ensures forall l :: 0 <= l < |data| ==>
      reduced[l] == if i <= l < i + n then Reduced(data[l], a, means, isPca) else old(reduced[l])
  {
    LoadBatch(data, i, n, batch);
    assert AllHave(batch[..], |means|);
    if isPca {
      RemoveMeans(batch, means);
    }
    MultiplyBatch(batch, n, a, reducedBatch);
    assert forall l :: 0 <= l < n ==> reducedBatch[l] == Reduced(data[i + l], a, means, isPca);
    StoreBatch(reducedBatch, i, n, reduced);
  }

  /** `transform_batch`; `maxBatch` is its 1,000,000 rows. Null stands for the exception. */
  method TransformBatch(data: seq<Vector>, a: Matrix, means: Vector, isPca: bool, maxBatch: nat)
    returns (reduced: array?<Vector>)
    requires WellShaped(a) && |means| == |a.rows| && AllHave(data, |means|) && maxBatch > 0
    ensures reduced == null <==> a.cols > |a.rows|
    ensures reduced != null ==>
      && fresh(reduced) && reduced.Length == |data|
      && forall l :: 0 <= l < |data| ==> reduced[l] == Reduced(data[l], a, means, isPca)
  {
    if a.cols > |a.rows| {
      return null;
    }
    var result := new Vector[|data|](_ => []);
    var batchSize := Min(|data|, maxBatch);
    var batch := new Vector[batchSize](_ => Zero(|means|));
    var reducedBatch := new Vector[batchSize](_ => Zero(a.cols));
    var i := 0;
    while i < |data|
      invariant fresh(result) && fresh(batch) && fresh(reducedBatch)
      invariant AllHave(batch[..], |means|)
      invariant forall l :: 0 <= l < i && l < |data| ==> result[l] == Reduced(data[l], a, means, isPca)
    {
      var batchEnd := Min(i + batchSize, |data|);
      TransformRows(data, a, means, isPca, i, batchEnd - i, batch, reducedBatch, result);
      i := i + batchSize;
    }
    return result;
  }

  // ----- The dataset

  class LeanDataset {
    var primary: seq<Vector>
    var secondary: seq<Vector>
    const dataMatrix: Matrix
    const queryMatrix: Matrix
    const means: Vector
    const isPca: bool

    /** Every reduced row is the transform of its full row, however it got there. */
    ghost predicate Valid()
      reads this
    {
      && WellShaped(dataMatrix) && WellShaped(queryMatrix)
      && |dataMatrix.rows| == |queryMatrix.rows| == |means| && dataMatrix.cols == queryMatrix.cols
      && |primary| == |secondary| && AllHave(secondary, |means|)
      && forall i :: 0 <= i < |primary| ==> primary[i] == Reduced(secondary[i], dataMatrix, means, isPca)
    }

    constructor (primary: seq<Vector>, secondary: seq<Vector>, matrices: (Matrix, Matrix), means: Vector, isPca: bool)
      ensures this.primary == primary && this.secondary == secondary && this.means == means && this.isPca == isPca
      ensures (this.dataMatrix, this.queryMatrix) == matrices
    {
      this.primary, this.secondary, this.means, this.isPca := primary, secondary, means, isPca;
      this.dataMatrix, this.queryMatrix := matrices.0, matrices.1;
    }

    /** The public constructor, with the dimensions of the two datasets, which may have no rows.
        Null stands for its exceptions: the matrices lead from the one dimension to the other. */
    static method Make(primary: seq<Vector>, reducedDims: nat, secondary: seq<Vector>, dims: nat,
        matrices: (Matrix, Matrix), means: Vector, isPca: bool) returns (d: LeanDataset?)
      requires AllHave(primary, reducedDims) && AllHave(secondary, dims) && Matched(matrices)
      ensures d == null <==> reducedDims != matrices.0.cols || dims != |matrices.0.rows|
      ensures d != null ==>
        && fresh(d) && d.primary == primary && d.secondary == secondary && d.means == means && d.isPca == isPca
        && (d.dataMatrix, d.queryMatrix) == matrices
    {
      if reducedDims != matrices.0.cols || dims != |matrices.0.rows| {
        return null;
      }
      d := new LeanDataset(primary, secondary, matrices, means, isPca);
    }

    /** `reduce`: PCA mode when no matrices are given; then `svd` is the matrix for both. Null
        stands for the exceptions: the transform would not reduce, or the matrices given are not
        for data of this dimension. What is computed with such matrices before that is found out
        is not part of this model. */
    static method Reduce(data: seq<Vector>, matrices: Option<(Matrix, Matrix)>, svd: Matrix, means: Vector,
        maxBatch: nat)
      returns (d: LeanDataset?)
      requires WellShaped(svd) && |svd.rows| == |means|
      requires matrices.Some? ==> Matched(matrices.value)
      requires AllHave(data, |means|) && maxBatch > 0
      ensures var (a, b) := if matrices.Some? then matrices.value else (svd, svd);
        && (d == null <==> a.cols > |means| || |a.rows| != |means|)
        && (d != null ==>
          && d.Valid() && fresh(d) && d.secondary == data && d.means == means && d.isPca == matrices.None?
          && d.dataMatrix == a && d.queryMatrix == b)
    {
      var isPca := matrices.None?;
      var both := if isPca then (svd, svd) else matrices.value;
      if |both.0.rows| != |means| {
        return null;
      }
      var reduced := TransformBatch(data, both.0, means, isPca, maxBatch);
      if reduced == null {
        return null;
      }
      assert forall i :: 0 <= i < |data| ==> reduced[..][i] == Reduced(data[i], both.0, means, isPca);
      d := Make(reduced[..], both.0.cols, data, |means|, both, means, isPca);
    }

    /** `set_datum`; false stands for the dimension exception. */
    method SetDatum(i: nat, datum: Vector) returns (ok: bool)
      requires Valid() && i < |primary|
      modifies this
      ensures Valid()
      ensures ok <==> |datum| == |means|
      ensures secondary == if ok then old(secondary)[i := datum] else old(secondary)
      ensures !ok ==> primary == old(primary)
    {
      if |datum| != |means| {
        return false;
      }
      var buffer := datum;
      if isPca {
        buffer := Centre(buffer, means);
      }
      var reduced := TransformLeanvec([buffer], dataMatrix);
      primary := primary[i := reduced[0]];
      secondary := secondary[i := datum];
      return true;
    }

    /** `preprocess_queries`. */
    method PreprocessQueries(distance: Distance, queries: seq<Vector>) returns (r: seq<Vector>)
      requires Valid() && AllHave(queries, |means|)
      ensures |r| == |queries|
      ensures forall i :: 0 <= i < |r| ==> r[i] == Prepared(queries[i], queryMatrix, means, isPca, distance)
    {
      if isPca {
        r := TransformQueries(distance, queries, queryMatrix, means);
      } else {
        r := TransformLeanvec(queries, queryMatrix);
      }
    }
  }

  // ----- What the transform preserves

  /** L2: the distance is the one without any mean removal, for every query and datum, exactly
      when both matrices send the means to the same vector; in particular when they are equal,
      as in PCA mode. */
  lemma L2DistanceKept(a: Matrix, b: Matrix, means: Vector, q: Vector, x: Vector)
    requires WellShaped(a) && WellShaped(b) && a.cols == b.cols
    requires |a.rows| == |b.rows| == |means| == |q| == |x|
    requires Times(means, a) == Times(means, b)
    ensures SquaredDistance(Prepared(q, b, means, true, L2), Reduced(x, a, means, true))
         == SquaredDistance(Times(q, b), Times(x, a))
  {
    TimesOfMinus(q, means, b);
    TimesOfMinus(x, means, a);
    assert Minus(Prepared(q, b, means, true, L2), Reduced(x, a, means, true)) == Minus(Times(q, b), Times(x, a));
  }

  ghost predicate KeepsL2(a: Matrix, b: Matrix, means: Vector)
    requires WellShaped(a) && WellShaped(b) && a.cols == b.cols && |a.rows| == |b.rows| == |means|
  {
    forall q: Vector, x: Vector :: |q| == |means| && |x| == |means| ==>
      SquaredDistance(Prepared(q, b, means, true, L2), Reduced(x, a, means, true))
        == SquaredDistance(Times(q, b), Times(x, a))
  }

  lemma L2KeptIff(a: Matrix, b: Matrix, means: Vector)
    requires WellShaped(a) && WellShaped(b) && a.cols == b.cols && |a.rows| == |b.rows| == |means|
    ensures KeepsL2(a, b, means) <==> Times(means, a) == Times(means, b)
  {
    if Times(means, a) == Times(means, b) {
      forall q: Vector, x: Vector | |q| == |means| && |x| == |means|
        ensures SquaredDistance(Prepared(q, b, means, true, L2), Reduced(x, a, means, true))
             == SquaredDistance(Times(q, b), Times(x, a))
      {
        L2DistanceKept(a, b, means, q, x);
      }
    }
    if KeepsL2(a, b, means) {
      OriginTellsMeans(a, b, means);
    }
  }

  lemma PlainOriginsMeet(a: Matrix, b: Matrix)
    requires WellShaped(a) && WellShaped(b) && a.cols == b.cols && |a.rows| == |b.rows|
    ensures SquaredDistance(Times(Zero(|b.rows|), b), Times(Zero(|a.rows|), a)) == 0.0
  {
    TimesOfZero(a);
    TimesOfZero(b);
    assert Minus(Zero(a.cols), Zero(a.cols)) == Zero(a.cols);
    InnerOfZero(a.cols);
  }

  lemma NoDistanceNoDifference(x: Vector, y: Vector)
    requires |x| == |y| && SquaredDistance(x, y) == 0.0
    ensures Minus(x, y) == Zero(|x|)
  {
    SquaresVanish(Minus(x, y));
  }

  lemma OriginsKept(a: Matrix, b: Matrix, means: Vector)
    requires WellShaped(a) && WellShaped(b) && a.cols == b.cols && |a.rows| == |b.rows| == |means|
    requires KeepsL2(a, b, means)
    ensures var o := Zero(|means|);
      SquaredDistance(Times(Minus(o, means), b), Times(Minus(o, means), a))
        == SquaredDistance(Times(o, b), Times(o, a))
  {
    var o := Zero(|means|);
    assert Prepared(o, b, means, true, L2) == Times(Minus(o, means), b);
    assert Reduced(o, a, means, true) == Times(Minus(o, means), a);
  }

  /** The query and the datum at the origin already show any difference. */
  lemma OriginTellsMeans(a: Matrix, b: Matrix, means: Vector)
    requires WellShaped(a) && WellShaped(b) && a.cols == b.cols && |a.rows| == |b.rows| == |means|
    requires KeepsL2(a, b, means)
    ensures Times(means, a) == Times(means, b)
  {
    hide KeepsL2, SquaredDistance;
    var o := Zero(|means|);
    OriginsKept(a, b, means);
    PlainOriginsMeet(a, b);
    NoDistanceNoDifference(Times(Minus(o, means), b), Times(Minus(o, means), a));
    CentredOriginsAgree(a, b, means);
  }

  lemma CentredOriginsAgree(a: Matrix, b: Matrix, means: Vector)
    requires WellShaped(a) && WellShaped(b) && a.cols == b.cols && |a.rows| == |b.rows| == |means|
    requires var o := Zero(|means|);
      Minus(Times(Minus(o, means), b), Times(Minus(o, means), a)) == Zero(a.cols)
    ensures Times(means, a) == Times(means, b)
  {
    var o := Zero(|means|);
    TimesOfZero(a);
    TimesOfZero(b);
    TimesOfMinus(o, means, b);
    TimesOfMinus(o, means, a);
    forall j | 0 <= j < a.cols ensures Times(means, a)[j] == Times(means, b)[j] {
      assert Minus(Times(Minus(o, means), b), Times(Minus(o, means), a))[j] == 0.0;
    }
  }

  lemma TimesOfZero(a: Matrix)
    requires WellShaped(a)
    ensures Times(Zero(|a.rows|), a) == Zero(a.cols)
  {
    forall j | 0 <= j < a.cols ensures Times(Zero(|a.rows|), a)[j] == 0.0 {
      EntryOfZero(a, j, |a.rows|);
    }
  }

  /** Inner product: what centring the data takes away depends on the query alone. */
  lemma InnerProductShifted(a: Matrix, b: Matrix, means: Vector, q: Vector, x: Vector)
    requires WellShaped(a) && WellShaped(b) && a.cols == b.cols
    requires |a.rows| == |b.rows| == |means| == |q| == |x|
    ensures Inner(Prepared(q, b, means, true, IP), Reduced(x, a, means, true))
         == Inner(Times(q, b), Times(x, a)) - Inner(Times(q, b), Times(means, a))
  {
    TimesOfMinus(x, means, a);
    InnerOfMinus(Times(q, b), Times(x, a), Times(means, a));
  }

  /** The main result, for a dataset in any state its methods can leave it in: the inner product
      ranks two data as the product with the matrices alone does; so does the distance, where
      both matrices send the means to the same vector or no means are subtracted. */
  lemma RankingUnchanged(d: LeanDataset, q: Vector, i: nat, j: nat)
    requires d.Valid() && |q| == |d.means| && i < |d.primary| && j < |d.primary|
    ensures
      var ip := Prepared(q, d.queryMatrix, d.means, d.isPca, IP);
      var plain := Times(q, d.queryMatrix);
      Inner(ip, d.primary[i]) < Inner(ip, d.primary[j]) <==>
        Inner(plain, Times(d.secondary[i], d.dataMatrix)) < Inner(plain, Times(d.secondary[j], d.dataMatrix))
    ensures (d.isPca ==> Times(d.means, d.dataMatrix) == Times(d.means, d.queryMatrix)) ==>
      var l2 := Prepared(q, d.queryMatrix, d.means, d.isPca, L2);
      var plain := Times(q, d.queryMatrix);
      && SquaredDistance(l2, d.primary[i]) == SquaredDistance(plain, Times(d.secondary[i], d.dataMatrix))
      && (SquaredDistance(l2, d.primary[i]) < SquaredDistance(l2, d.primary[j]) <==>
          SquaredDistance(plain, Times(d.secondary[i], d.dataMatrix))
            < SquaredDistance(plain, Times(d.secondary[j], d.dataMatrix)))
  {
    if d.isPca {
      InnerProductShifted(d.dataMatrix, d.queryMatrix, d.means, q, d.secondary[i]);
      InnerProductShifted(d.dataMatrix, d.queryMatrix, d.means, q, d.secondary[j]);
      if Times(d.means, d.dataMatrix) == Times(d.means, d.queryMatrix) {
        L2DistanceKept(d.dataMatrix, d.queryMatrix, d.means, q, d.secondary[i]);
        L2DistanceKept(d.dataMatrix, d.queryMatrix, d.means, q, d.secondary[j]);
      }
    }
  }
}
