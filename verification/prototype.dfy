/** Class prototypes and the imprinted classifier matrix
    (train_RFB_imprinted.py, lines 285-291): each bucket is averaged, the
    mean divided by its norm, and the rows stacked into an
    `NWay x width` matrix. The norm is an abstract function of the
    vector; the unit-length property is proved for any function that
    behaves as the Euclidean norm. */
module Prototype {
  import opened Outcomes
  import opened Cascade
  import opened Buckets

  /** Component-wise sum. */
  function VecAdd(a: Row, b: Row): (r: Row)
    requires |a| == |b|
    ensures |r| == |a|
    ensures forall j :: 0 <= j < |a| ==> r[j] == a[j] + b[j]
  {
    seq(|a|, j requires 0 <= j < |a| => a[j] + b[j])
  }

  /** Multiplication by a scalar. */
  function Scale(c: real, v: Row): (r: Row)
    ensures |r| == |v|
    ensures forall j :: 0 <= j < |v| ==> r[j] == c * v[j]
  {
    seq(|v|, j requires 0 <= j < |v| => c * v[j])
  }

  /** The zero vector of width `w`. */
  function Zeros(w: nat): (r: Row)
    ensures |r| == w
    ensures forall j :: 0 <= j < w ==> r[j] == 0.0
  {
    seq(w, j => 0.0)
  }

  /** Sum of the rows, all of width `w`. */
  function VecSum(rows: seq<Row>, w: nat): (r: Row)
    requires RowsHaveWidth(rows, w)
    ensures |r| == w
    decreases |rows|
  {
    if |rows| == 0 then Zeros(w)
    else VecAdd(VecSum(rows[..|rows| - 1], w), rows[|rows| - 1])
  }

  /** `item.mean(0)`: the average row of a non-empty bucket. */
  function Mean(rows: seq<Row>, w: nat): (m: Row)
    requires |rows| > 0 && RowsHaveWidth(rows, w)
    ensures |m| == w
    // as many copies of the mean as there are rows add up to their sum
    ensures Scale(|rows| as real, m) == VecSum(rows, w)
  {
    var n := |rows| as real;
    var m := Scale(1.0 / n, VecSum(rows, w));
    assert Scale(n, m) == VecSum(rows, w) by {
      forall j | 0 <= j < w
        ensures Scale(n, m)[j] == VecSum(rows, w)[j]
      {
        assert n * (1.0 / n * VecSum(rows, w)[j]) == VecSum(rows, w)[j];
      }
    }
    m
  }

  /** Sum of the squared components. */
  function SumSquares(v: Row): real
    decreases |v|
  {
    if |v| == 0 then 0.0 else SumSquares(v[..|v| - 1]) + v[|v| - 1] * v[|v| - 1]
  }

  /** `norm` behaves as the Euclidean norm: non-negative, and its square is
      the sum of squares. */
  ghost predicate IsL2Norm(norm: Row -> real) {
    forall v :: NormOf(norm, v)
  }

  /** `norm(v)` is the Euclidean norm of `v`. */
  ghost predicate NormOf(norm: Row -> real, v: Row) {
    0.0 <= norm(v) && norm(v) * norm(v) == SumSquares(v)
  }

  /** `item / n` for a non-zero `n`. */
  function Normalize(v: Row, n: real): (r: Row)
    requires n != 0.0
    ensures |r| == |v|
    // scaling back by `n` recovers the vector
    ensures Scale(n, r) == v
  {
    var r := Scale(1.0 / n, v);
    assert Scale(n, r) == v by {
      forall j | 0 <= j < |v|
        ensures Scale(n, r)[j] == v[j]
      {
        assert n * (1.0 / n * v[j]) == v[j];
      }
    }
    r
  }

  /** Scaling works component by component, so it commutes with dropping
      the last component. */
  lemma ScaleInit(c: real, v: Row)
    requires |v| > 0
    ensures Scale(c, v)[..|v| - 1] == Scale(c, v[..|v| - 1])
  {
    var sv := Scale(c, v);
    var si := Scale(c, v[..|v| - 1]);
    forall j | 0 <= j < |v| - 1
      ensures sv[..|v| - 1][j] == si[j]
    {
    }
  }

  /** The arithmetic step of `SumSquaresScale`. */
  lemma ScaledSquareStep(c: real, s0: real, x: real)
    ensures c * c * s0 + (c * x) * (c * x) == c * c * (s0 + x * x)
  {
    assert (c * x) * (c * x) == c * c * (x * x);
  }

  lemma {:induction false} SumSquaresScale(c: real, v: Row)
    ensures SumSquares(Scale(c, v)) == c * c * SumSquares(v)
    decreases |v|
  {
    if |v| > 0 {
      var init := v[..|v| - 1];
      var sv := Scale(c, v);
      var x := v[|v| - 1];
      SumSquaresScale(c, init);
      ScaleInit(c, v);
      assert sv[|v| - 1] == c * x;
      assert SumSquares(sv) == SumSquares(Scale(c, init)) + (c * x) * (c * x);
      assert SumSquares(v) == SumSquares(init) + x * x;
      ScaledSquareStep(c, SumSquares(init), x);
    } else {
      assert SumSquares(v) == 0.0 && SumSquares(Scale(c, v)) == 0.0;
    }
  }

  /** Dividing a vector by its Euclidean norm gives a vector of unit length. */
  lemma UnitLength(v: Row, n: real)
    requires 0.0 < n && n * n == SumSquares(v)
    ensures SumSquares(Normalize(v, n)) == 1.0
  {
    var c := 1.0 / n;
    assert Normalize(v, n) == Scale(c, v);
    SumSquaresScale(c, v);
    assert c * c * (n * n) == 1.0;
  }

  /** Why a bucket cannot be imprinted. The original would write a row of
      NaN values; the model reports the class index instead. */
  datatype ImprintError =
    | EmptyBucket(index: nat)   // no row of this class in any episode: the mean is undefined
    | ZeroNorm(index: nat)      // the mean is the zero vector: division by zero

  /** Every bucket holds rows of width `w`. */
  predicate BucketsHaveWidth(b: seq<seq<Row>>, w: nat) {
    forall i :: 0 <= i < |b| ==> RowsHaveWidth(b[i], w)
  }

  /** Bucket `i` has a well-defined prototype. */
  predicate Imprintable(b: seq<seq<Row>>, w: nat, norm: Row -> real, i: nat)
    requires BucketsHaveWidth(b, w) && i < |b|
  {
    |b[i]| > 0 && norm(Mean(b[i], w)) != 0.0
  }

  /** The stacked prototypes `torch.stack([item / torch.norm(item) ...])`
      of lines 285-291; the first bucket without a prototype is reported. */
  function Imprint(b: seq<seq<Row>>, w: nat, norm: Row -> real): (r: Result<seq<Row>, ImprintError>)
    requires BucketsHaveWidth(b, w)
    // it succeeds exactly when every bucket has a prototype
    ensures r.Ok? <==> forall i :: 0 <= i < |b| ==> Imprintable(b, w, norm, i)
    // then row i is bucket i's mean divided by the mean's norm
    ensures r.Ok? ==> |r.value| == |b|
    ensures r.Ok? ==> forall i :: 0 <= i < |b| ==>
      && Imprintable(b, w, norm, i)
      && |r.value[i]| == w
      && r.value[i] == Normalize(Mean(b[i], w), norm(Mean(b[i], w)))
    // otherwise the error names the first bucket without one, and why
    ensures r.Err? ==>
      && r.error.index < |b|
      && (forall i :: 0 <= i < r.error.index ==> Imprintable(b, w, norm, i))
      && !Imprintable(b, w, norm, r.error.index)
      && (r.error.EmptyBucket? <==> b[r.error.index] == [])
    decreases |b|
  {
    if |b| == 0 then Ok([])
    else
      var init := b[..|b| - 1];
      var k := |b| - 1;
      assert forall i :: 0 <= i < k ==> init[i] == b[i];
      assert forall i :: 0 <= i < k ==> Imprintable(init, w, norm, i) == Imprintable(b, w, norm, i);
      match Imprint(init, w, norm)
      case Err(e) => Err(e)
      case Ok(rows) =>
        if |b[k]| == 0 then
          assert !Imprintable(b, w, norm, k);
          Err(EmptyBucket(k))
        else
          var m := Mean(b[k], w);
          if norm(m) == 0.0 then
            assert !Imprintable(b, w, norm, k);
            Err(ZeroNorm(k))
          else
            assert Imprintable(b, w, norm, k);
            var r := rows + [Normalize(m, norm(m))];
            assert forall i :: 0 <= i < k ==> r[i] == rows[i];
            Ok(r)
  }

  /** What a Euclidean norm gives for one vector. */
  lemma NormAt(norm: Row -> real, v: Row)
    requires IsL2Norm(norm)
    ensures 0.0 <= norm(v) && norm(v) * norm(v) == SumSquares(v)
  {
    assert NormOf(norm, v);
  }

  /** Row `i` of an imprinted matrix, under a Euclidean norm. */
  lemma ImprintedRowIsUnit(b: seq<seq<Row>>, w: nat, norm: Row -> real, i: nat)
    requires BucketsHaveWidth(b, w)
    requires IsL2Norm(norm)
    requires Imprint(b, w, norm).Ok? && i < |b|
    ensures SumSquares(Imprint(b, w, norm).value[i]) == 1.0
  {
    assert Imprintable(b, w, norm, i);
    var m := Mean(b[i], w);
    var n := norm(m);
    assert Imprint(b, w, norm).value[i] == Normalize(m, n);
    NormAt(norm, m);
    UnitLength(m, n);
  }

  /** Under a Euclidean norm every imprinted row has unit length. */
  lemma ImprintedRowsAreUnit(b: seq<seq<Row>>, w: nat, norm: Row -> real)
    requires BucketsHaveWidth(b, w)
    requires IsL2Norm(norm)
    requires Imprint(b, w, norm).Ok?
    ensures forall i :: 0 <= i < |b| ==> SumSquares(Imprint(b, w, norm).value[i]) == 1.0
  {
    forall i | 0 <= i < |b|
      ensures SumSquares(Imprint(b, w, norm).value[i]) == 1.0
    {
      ImprintedRowIsUnit(b, w, norm, i);
    }
  }

  /** One more copy of `v` adds one to the scale factor. */
  lemma ScaleAddOne(k: real, v: Row)
    ensures VecAdd(Scale(k, v), v) == Scale(k + 1.0, v)
  {
    forall j | 0 <= j < |v|
      ensures VecAdd(Scale(k, v), v)[j] == Scale(k + 1.0, v)[j]
    {
      assert k * v[j] + v[j] == (k + 1.0) * v[j];
    }
  }

  lemma {:induction false} SumOfCopies(rows: seq<Row>, v: Row)
    requires forall k :: 0 <= k < |rows| ==> rows[k] == v
    ensures RowsHaveWidth(rows, |v|)
    ensures VecSum(rows, |v|) == Scale(|rows| as real, v)
    decreases |rows|
  {
    if |rows| > 0 {
      var init := rows[..|rows| - 1];
      SumOfCopies(init, v);
      assert rows[|rows| - 1] == v;
      assert VecSum(rows, |v|) == VecAdd(VecSum(init, |v|), v);
      ScaleAddOne(|init| as real, v);
    }
  }

  /** A bucket holding copies of one vector has that vector as its mean. */
  lemma MeanOfCopies(rows: seq<Row>, v: Row)
    requires |rows| > 0
    requires forall k :: 0 <= k < |rows| ==> rows[k] == v
    ensures RowsHaveWidth(rows, |v|) && Mean(rows, |v|) == v
  {
    SumOfCopies(rows, v);
    var n := |rows| as real;
    var m := Mean(rows, |v|);
    forall j | 0 <= j < |v|
      ensures m[j] == v[j]
    {
      assert Scale(n, m)[j] == Scale(n, v)[j];
    }
  }

  /** A bucket holding copies of a unit vector imprints that very vector:
      repeating the embedding `[1, 0]` for a class in every episode yields
      the weight row `[1, 0]`. */
  lemma CopiesOfUnitVector(rows: seq<Row>, v: Row, norm: Row -> real)
    requires |rows| > 0
    requires forall k :: 0 <= k < |rows| ==> rows[k] == v
    requires IsL2Norm(norm) && SumSquares(v) == 1.0
    ensures RowsHaveWidth(rows, |v|)
    ensures norm(Mean(rows, |v|)) == 1.0
    ensures Normalize(Mean(rows, |v|), norm(Mean(rows, |v|))) == v
  {
    MeanOfCopies(rows, v);
    NormAt(norm, v);
    UnitRoot(norm(v));
    assert Normalize(v, 1.0) == v;
  }

  /** The only non-negative square root of one is one. */
  lemma UnitRoot(n: real)
    requires 0.0 <= n && n * n == 1.0
    ensures n == 1.0
  {
    SquareCompare(n);
  }

  /** Squaring keeps a non-negative number on its side of one. */
  lemma SquareCompare(n: real)
    requires 0.0 <= n
    ensures n < 1.0 ==> n * n < 1.0
    ensures n > 1.0 ==> n * n > 1.0
  {
    if n < 1.0 {
      assert n * n <= n * 1.0;
    } else if n > 1.0 {
      assert n * n > 1.0 * n;
    }
  }

  /** Shape of a matrix whose rows all have width `w`. */
  function ShapeOf(m: seq<Row>, w: nat): Shape
    requires RowsHaveWidth(m, w)
  {
    Shape(|m|, w)
  }

  /** The classifier matrix imprinted in `stage` from the stage's episodes
      (lines 218-291): bucket the rows, then stack the prototypes. */
  function StageWeights(eps: seq<seq<Tagged>>, stage: nat, norm: Row -> real): (r: Result<seq<Row>, ImprintError>)
    requires stage < 3
    requires forall e, k :: 0 <= e < |eps| && 0 <= k < |eps[e]| ==> |eps[e][k].row| == ViewWidth(stage)
    // on success: NWay rows of the stage's width
    ensures r.Ok? ==> |r.value| == NWay && RowsHaveWidth(r.value, StageWidth(stage + 1))
  {
    var w := ViewWidth(stage);
    var b := StageBuckets(eps);
    forall i | 0 <= i < NWay
      ensures RowsHaveWidth(b[i], w)
    {
      BucketRowWidths(eps, w, i);
    }
    Imprint(b, w, norm)
  }

  /** Imprinting one stage prepares the network for the next: the stored
      `[NWay, width]` matrix is exactly the fc weight the next stage's
      cascade needs. */
  lemma ImprintFeedsNextStage(net: Net, eps: seq<seq<Tagged>>, stage: nat, norm: Row -> real)
    requires stage < 2
    requires ReadyFor(net, stage)
    requires forall e, k :: 0 <= e < |eps| && 0 <= k < |eps[e]| ==> |eps[e][k].row| == ViewWidth(stage)
    requires StageWeights(eps, stage, norm).Ok?
    ensures var wt := StageWeights(eps, stage, norm).value;
      ReadyFor(SetFcWeight(net, stage, ShapeOf(wt, StageWidth(stage + 1))), stage + 1)
  {
  }
}
