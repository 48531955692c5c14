/** Shape-level model of the cascaded denselayers used while imprinting
    (train_RFB_imprinted.py, lines 180-189 and 264-291). `composite`
    concatenates its inputs along the feature axis, applies a batch norm
    and the shared norm layer, and, when given one, the previous stage's
    fully connected layer. Only the (rows, columns) shapes are modelled:
    batch norm keeps the width it was built for, the norm layer keeps any
    width (one instance serves all three stages), and `fc` maps a row of
    its input width to one value per class. The network is in training
    mode (line 192), so batch norm normalises with the statistics of the
    batch and raises on a single row. */
module Cascade {
  import opened Outcomes

  /** Width of the embedding rows at matched priors (line 93). */
  const FeatureDim: nat := 60
  /** Number of classes imprinted; the classifier matrices have this many rows (line 94). */
  const NWay: nat := 20

  /** A (rows, columns) tensor shape. */
  datatype Shape = Shape(rows: nat, cols: nat)

  /** The ways a shape-level step raises in the original. */
  datatype ShapeError =
    | NoInputs                                   // `torch.cat` of an empty list
    | RowMismatch                                // `torch.cat` along axis 1 of unequal row counts
    | SingleRow                                  // training-mode batch norm given one row
    | BatchNormWidth(expected: nat, got: nat)    // batch norm built for another width
    | FcWidth(expected: nat, got: nat)           // fc weight `[out, in]` with `in` != input width

  /** What the imprinting code uses of one denselayer: the width its batch
      norm was built for and the shape `[out, in]` of its fc weight. */
  datatype Denselayer = Denselayer(bnWidth: nat, fcWeight: Shape)

  /** The three denselayers of the network. */
  datatype Net = Net(d1: Denselayer, d2: Denselayer, d3: Denselayer)

  /** Total width of the inputs. */
  function SumCols(inputs: seq<Shape>): nat
    decreases |inputs|
  {
    if |inputs| == 0 then 0 else inputs[0].cols + SumCols(inputs[1..])
  }

  /** `torch.cat(inputs, 1)`. */
  function Concat(inputs: seq<Shape>): (r: Result<Shape, ShapeError>)
    ensures r.Ok? <==> |inputs| > 0 && forall k :: 0 <= k < |inputs| ==> inputs[k].rows == inputs[0].rows
    ensures r.Ok? ==> r.value == Shape(inputs[0].rows, SumCols(inputs))
  {
    if |inputs| == 0 then Err(NoInputs)
    else if forall k :: 0 <= k < |inputs| ==> inputs[k].rows == inputs[0].rows then
      Ok(Shape(inputs[0].rows, SumCols(inputs)))
    else Err(RowMismatch)
  }

  /** `composite(bn, norm, fc)(*inputs)` of lines 180-189 on shapes; `useFc`
      says whether an fc layer was passed. */
  function Composite(layer: Denselayer, useFc: bool, inputs: seq<Shape>): (r: Result<Shape, ShapeError>)
    // the rows are the inputs' rows, one output row per input row
    ensures r.Ok? ==> |inputs| > 0 && r.value.rows == inputs[0].rows
    // without fc the width is the sum of the input widths, with fc one column per fc row
    ensures r.Ok? && !useFc ==> r.value.cols == SumCols(inputs)
    ensures r.Ok? && useFc ==> r.value.cols == layer.fcWeight.rows
    // it succeeds exactly when the concatenation is defined, has more than
    // one row, and fits the layers
    ensures r.Ok? <==>
      && Concat(inputs).Ok?
      && inputs[0].rows != 1
      && SumCols(inputs) == layer.bnWidth
      && (useFc ==> layer.fcWeight.cols == SumCols(inputs))
  {
    match Concat(inputs)
    case Err(e) => Err(e)
    case Ok(x) =>
      // batch statistics need more than one value per channel
      if x.rows == 1 then Err(SingleRow)
      else if x.cols != layer.bnWidth then Err(BatchNormWidth(layer.bnWidth, x.cols))
      // the norm layer keeps the shape
      else if !useFc then Ok(x)
      else if layer.fcWeight.cols != x.cols then Err(FcWidth(layer.fcWeight.cols, x.cols))
      else Ok(Shape(x.rows, layer.fcWeight.rows))
  }

  /** The stage embedding computed from the selected features `x` in
      imprinting stage `stage` (0, 1, 2), following the three branches of
      lines 264-284. */
  function StageEmbedding(net: Net, stage: nat, x: Shape): (r: Result<Shape, ShapeError>)
    requires stage < 3
    // one embedded row per selected feature, as wide as the last batch norm used
    ensures r.Ok? ==> r.value == Shape(x.rows, Layer(net, stage).bnWidth)
  {
    if stage == 0 then
      Composite(net.d1, false, [x])
    else if stage == 1 then
      match Composite(net.d1, true, [x])
      case Err(e) => Err(e)
      case Ok(f1) => Composite(net.d2, false, [x, f1])
    else
      match Composite(net.d1, true, [x])
      case Err(e) => Err(e)
      case Ok(f1) =>
        match Composite(net.d2, true, [x, f1])
        case Err(e) => Err(e)
        case Ok(f2) => Composite(net.d3, false, [x, f1, f2])
  }

  /** Input width of stage `k` (1, 2, 3): the feature width plus one class
      score column for every earlier stage. */
  function StageWidth(k: nat): (w: nat)
    requires 1 <= k <= 3
    ensures w == FeatureDim + NWay * (k - 1)
  {
    if k == 1 then FeatureDim else StageWidth(k - 1) + NWay
  }

  /** The widths written into the `view(-1, w)` calls of lines 267, 274, 284. */
  function ViewWidth(stage: nat): nat
    requires stage < 3
  {
    [60, 80, 100][stage]
  }

  /** The literal widths agree with the cascade: 60, 80, 100. */
  lemma ViewWidthsAreStageWidths(stage: nat)
    requires stage < 3
    ensures ViewWidth(stage) == StageWidth(stage + 1)
  {
  }

  /** The network after the stages before `stage` were imprinted: every
      batch norm has its stage's width and every fc weight used so far is
      the `[NWay, width]` matrix imprinted for its stage. */
  predicate ReadyFor(net: Net, stage: nat)
    requires stage < 3
  {
    && net.d1.bnWidth == StageWidth(1)
    && net.d2.bnWidth == StageWidth(2)
    && net.d3.bnWidth == StageWidth(3)
    && (stage >= 1 ==> net.d1.fcWeight == Shape(NWay, StageWidth(1)))
    && (stage >= 2 ==> net.d2.fcWeight == Shape(NWay, StageWidth(2)))
  }

  /** The denselayer of stage `s` (0, 1, 2). */
  function Layer(net: Net, s: nat): Denselayer
    requires s < 3
  {
    if s == 0 then net.d1 else if s == 1 then net.d2 else net.d3
  }

  /** Overwriting the fc weight of the denselayer of `stage` (lines 286-291):
      that layer's fc weight becomes `weight`, its batch norm is kept, and
      the other layers are untouched. */
  function SetFcWeight(net: Net, stage: nat, weight: Shape): (r: Net)
    requires stage < 3
    ensures Layer(r, stage) == Layer(net, stage).(fcWeight := weight)
    ensures forall s :: 0 <= s < 3 && s != stage ==> Layer(r, s) == Layer(net, s)
  {
    if stage == 0 then net.(d1 := net.d1.(fcWeight := weight))
    else if stage == 1 then net.(d2 := net.d2.(fcWeight := weight))
    else net.(d3 := net.d3.(fcWeight := weight))
  }

  /** On a network ready for the stage, the stage embedding is defined
      exactly when the feature rows have width `FeatureDim` and there are
      not exactly one of them, and then has one row per selected feature and
      the stage's width. */
  lemma {:induction false} StageEmbeddingShape(net: Net, stage: nat, x: Shape)
    requires stage < 3
    requires ReadyFor(net, stage)
    ensures StageEmbedding(net, stage, x).Ok? <==> x.cols == FeatureDim && x.rows != 1
    ensures StageEmbedding(net, stage, x).Ok? ==>
      StageEmbedding(net, stage, x).value == Shape(x.rows, StageWidth(stage + 1))
  {
    var f1 := Shape(x.rows, NWay);
    assert SumCols([f1]) == NWay by {
      assert [f1][1..] == [];
    }
    assert SumCols([x]) == x.cols by {
      assert [x][1..] == [];
    }
    assert SumCols([x, f1]) == x.cols + NWay by {
      assert [x, f1][1..] == [f1];
    }
    assert SumCols([x, f1, f1]) == x.cols + NWay + NWay by {
      assert [x, f1, f1][1..] == [f1, f1];
      assert [f1, f1][1..] == [f1];
    }
  }
}
