/** Row-major offsets into a dense array with any number of dimensions
    (include/svs/lib/array.h). */
module Offsets {
  import opened Arithmetic

  /** `array_impl::size`. */
  function Size(dims: seq<nat>): nat {
    if dims == [] then 1 else dims[0] * Size(dims[1..])
  }

  ghost predicate InBounds(dims: seq<nat>, inds: seq<nat>) {
    |inds| == |dims| && forall d :: 0 <= d < |dims| ==> inds[d] < dims[d]
  }

  /** The offset of an element: whole sub-arrays before its own, then the offset within. */
  function RowMajor(dims: seq<nat>, inds: seq<nat>): nat
    requires |inds| == |dims|
  {
    if dims == [] then 0 else inds[0] * Size(dims[1..]) + RowMajor(dims[1..], inds[1..])
  }

  /** `offset`: from the fastest dimension to the slowest. */
  method Offset(dims: seq<nat>, inds: seq<nat>) returns (offset: nat)
    requires |inds| == |dims|
    ensures offset == RowMajor(dims, inds)
  {
    offset := 0;
    var stride, n := 1, |dims|;
    for i := 0 to n
      invariant offset == RowMajor(dims[n - i..], inds[n - i..])
      invariant stride == Size(dims[n - i..])
    {
      assert dims[n - i - 1..][1..] == dims[n - i..] && inds[n - i - 1..][1..] == inds[n - i..];
      offset := offset + stride * inds[n - i - 1];
      stride := stride * dims[n - i - 1];
    }
    assert dims[0..] == dims && inds[0..] == inds;
  }

  /** `default_strides`: the stride of a dimension is the size of the sub-arrays it steps over. */
  method DefaultStrides(dims: seq<nat>) returns (strides: seq<nat>)
    ensures strides == Strides(dims)
  {
    strides := seq(|dims|, _ => 0);
    var s, index := 1, |dims|;
    while index > 0
      invariant |strides| == |dims| && 0 <= index <= |dims|
      invariant s == Size(dims[index..])
      invariant forall d :: index <= d < |dims| ==> strides[d] == Size(dims[d + 1..])
    {
      index := index - 1;
      strides := strides[index := s];
      assert dims[index..][1..] == dims[index + 1..];
      s := s * dims[index];
    }
  }

  function Strides(dims: seq<nat>): (strides: seq<nat>)
    ensures |strides| == |dims|
  {
    seq(|dims|, d requires 0 <= d < |dims| => Size(dims[d + 1..]))
  }

  function Dot(a: seq<nat>, b: seq<nat>): nat
    requires |a| == |b|
  {
    if a == [] then 0 else a[0] * b[0] + Dot(a[1..], b[1..])
  }

  lemma StridesOfRest(dims: seq<nat>)
    requires dims != []
    ensures Strides(dims)[0] == Size(dims[1..]) && Strides(dims)[1..] == Strides(dims[1..])
  {
    var rest := dims[1..];
    forall d | 0 <= d < |rest| ensures Strides(dims)[1..][d] == Strides(rest)[d] {
      assert rest[d + 1..] == dims[d + 2..];
    }
  }

  /** The two ways of indexing agree. */
  lemma {:induction false} OffsetIsDotWithStrides(dims: seq<nat>, inds: seq<nat>)
    requires |inds| == |dims|
    ensures RowMajor(dims, inds) == Dot(Strides(dims), inds)
  {
    if dims != [] {
      OffsetIsDotWithStrides(dims[1..], inds[1..]);
      StridesOfRest(dims);
    }
  }

  // ----- A bijection

  /** The indices of the element at an offset. */
  function Unravel(dims: seq<nat>, k: nat): (inds: seq<nat>)
    requires k < Size(dims)
    ensures InBounds(dims, inds)
  {
    if dims == [] then []
    else
      var inner := Size(dims[1..]);
      QuotientBelow(k, dims[0], inner);
      [k / inner] + Unravel(dims[1..], k % inner)
  }

  lemma QuotientBelow(k: nat, a: nat, inner: nat)
    requires k < a * inner
    ensures inner > 0 && k / inner < a
  {
    if inner > 0 {
      var d := k / inner;
      assert k == d * inner + k % inner;
      if d > a {
        MulGap(a, d, inner);
      }
    }
  }

  lemma {:induction false} OffsetOfUnravel(dims: seq<nat>, k: nat)
    requires k < Size(dims)
    ensures RowMajor(dims, Unravel(dims, k)) == k
  {
    if dims != [] {
      var inner := Size(dims[1..]);
      QuotientBelow(k, dims[0], inner);
      OffsetOfUnravel(dims[1..], k % inner);
      assert Unravel(dims, k)[1..] == Unravel(dims[1..], k % inner);
      assert k == (k / inner) * inner + k % inner;
    }
  }

  lemma SplitBelow(q: nat, a: nat, r: nat, inner: nat)
    requires q < a && r < inner
    ensures q * inner + r < a * inner
    ensures (q * inner + r) / inner == q && (q * inner + r) % inner == r
  {
    MulGap(q, a, inner);
    var k := q * inner + r;
    assert k == (k / inner) * inner + k % inner;
    if k / inner < q {
      MulGap(k / inner, q, inner);
    } else if k / inner > q {
      MulGap(q, k / inner, inner);
    }
  }

  lemma {:induction false} UnravelOfOffset(dims: seq<nat>, inds: seq<nat>)
    requires InBounds(dims, inds)
    ensures RowMajor(dims, inds) < Size(dims)
    ensures Unravel(dims, RowMajor(dims, inds)) == inds
  {
    if dims != [] {
      UnravelOfOffset(dims[1..], inds[1..]);
      SplitBelow(inds[0], dims[0], RowMajor(dims[1..], inds[1..]), Size(dims[1..]));
    }
  }

  /** Distinct elements lie at distinct offsets. */
  lemma OffsetsDistinct(dims: seq<nat>, x: seq<nat>, y: seq<nat>)
    requires InBounds(dims, x) && InBounds(dims, y)
    ensures RowMajor(dims, x) == RowMajor(dims, y) <==> x == y
  {
    UnravelOfOffset(dims, x);
    UnravelOfOffset(dims, y);
  }

  /** The order of the indices, first dimension first. */
  predicate Precedes(x: seq<nat>, y: seq<nat>)
    requires |x| == |y|
  {
    x != [] && (x[0] < y[0] || (x[0] == y[0] && Precedes(x[1..], y[1..])))
  }

  /** Elements are laid out in that order. */
  lemma {:induction false} OffsetsOrdered(dims: seq<nat>, x: seq<nat>, y: seq<nat>)
    requires InBounds(dims, x) && InBounds(dims, y)
    ensures RowMajor(dims, x) < RowMajor(dims, y) <==> Precedes(x, y)
  {
    if dims != [] {
      var inner := Size(dims[1..]);
      UnravelOfOffset(dims[1..], x[1..]);
      UnravelOfOffset(dims[1..], y[1..]);
      OffsetsOrdered(dims[1..], x[1..], y[1..]);
      if x[0] < y[0] {
        MulGap(x[0], y[0], inner);
      } else if y[0] < x[0] {
        MulGap(y[0], x[0], inner);
      }
    }
  }

  // ----- Slices

  /** A span into the array. */
  datatype Span = Span(start: nat, length: nat)

  /** `slice`: all but the last index are given. */
  method Slice(dims: seq<nat>, row: seq<nat>) returns (span: Span)
    requires |dims| == |row| + 1
    ensures span == RowSpan(dims, row)
  {
    var o := Offset(dims, row + [0]);
    return Span(o, dims[|dims| - 1]);
  }

  function RowSpan(dims: seq<nat>, row: seq<nat>): Span
    requires |dims| == |row| + 1
  {
    Span(RowMajor(dims, row + [0]), dims[|dims| - 1])
  }

  predicate Covers(span: Span, k: int) {
    span.start <= k < span.start + span.length
  }

  lemma {:induction false} LastIndexCounts(dims: seq<nat>, row: seq<nat>, j: nat)
    requires |dims| == |row| + 1
    ensures RowMajor(dims, row + [j]) == RowMajor(dims, row + [0]) + j
  {
    if row == [] {
      assert dims[1..] == [] && ([] + [j])[1..] == [] && ([] + [0])[1..] == [];
    } else {
      LastIndexCounts(dims[1..], row[1..], j);
      assert (row + [j])[1..] == row[1..] + [j] && (row + [0])[1..] == row[1..] + [0];
    }
  }

  lemma SpanHoldsRow(dims: seq<nat>, row: seq<nat>, j: nat, k: nat)
    requires |dims| == |row| + 1 && InBounds(dims[..|row|], row) && j < dims[|row|]
    requires k == RowSpan(dims, row).start + j
    ensures k < Size(dims) && Unravel(dims, k) == row + [j]
  {
    var inds := row + [j];
    forall d | 0 <= d < |dims| ensures inds[d] < dims[d] {
      if d < |row| {
        assert row[d] < dims[..|row|][d];
      }
    }
    LastIndexCounts(dims, row, j);
    assert RowMajor(dims, inds) == k;
    UnravelOfOffset(dims, inds);
  }

  lemma RowLiesInSpan(dims: seq<nat>, k: nat)
    requires dims != [] && k < Size(dims)
    ensures var inds, n := Unravel(dims, k), |dims| - 1;
      InBounds(dims[..n], inds[..n]) && Covers(RowSpan(dims, inds[..n]), k)
  {
    var inds, n := Unravel(dims, k), |dims| - 1;
    assert inds == inds[..n] + [inds[n]];
    LastIndexCounts(dims, inds[..n], inds[n]);
    OffsetOfUnravel(dims, k);
  }

  /** The span of a row holds exactly the elements of that row, at consecutive places, and lies
      in the array. */
  lemma SpanIsRow(dims: seq<nat>, row: seq<nat>, k: nat)
    requires |dims| == |row| + 1 && InBounds(dims[..|row|], row)
    ensures Covers(RowSpan(dims, row), k) <==> k < Size(dims) && Unravel(dims, k)[..|row|] == row
    ensures Covers(RowSpan(dims, row), k) ==> Unravel(dims, k) == row + [k - RowSpan(dims, row).start]
  {
    if Covers(RowSpan(dims, row), k) {
      SpanHoldsRow(dims, row, k - RowSpan(dims, row).start, k);
    } else if k < Size(dims) {
      RowLiesInSpan(dims, k);
    }
  }

  /** Every element lies in the span of exactly one row. */
  lemma RowsTile(dims: seq<nat>, k: nat)
    requires dims != [] && k < Size(dims)
    ensures var n := |dims| - 1; InBounds(dims[..n], Unravel(dims, k)[..n])
    ensures forall row :: |row| == |dims| - 1 && InBounds(dims[..|dims| - 1], row) ==>
      (Covers(RowSpan(dims, row), k) <==> row == Unravel(dims, k)[..|dims| - 1])
  {
    forall row | |row| == |dims| - 1 && InBounds(dims[..|dims| - 1], row)
      ensures Covers(RowSpan(dims, row), k) <==> row == Unravel(dims, k)[..|dims| - 1]
    {
      SpanIsRow(dims, row, k);
    }
  }
}
