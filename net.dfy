/** `Net.build_net` and its two helpers, at the level of tensor shapes: the
    conv/pool stack, the analytic flatten size, the dense chain and the
    `(argmax, logits)` pair it returns. */
module Net {
  import opened Arith
  import opened Tf

  /** One pass of the conv/pool loop: the variables `tf.layers.conv2d` creates
      (`kernel`, `bias`), and the shapes of the conv and of the pool output. */
  datatype ConvPoolStage = ConvPoolStage(kernel: seq<nat>, bias: seq<nat>, convOut: ImageShape, poolOut: ImageShape)

  /** Names given to `tf.get_variable`: `"W" + str(index)` and `"b" + str(index)`. */
  datatype VarName = W(index: nat) | B(index: nat)

  datatype Variable = Variable(name: VarName, shape: seq<nat>)

  /** The weight and bias one pass of the dense loop creates. */
  datatype DenseLayer = DenseLayer(weight: Variable, bias: Variable)

  /** What `build_net` produces: the returned pair `(argmax, output)`, in that
      order, and the trainable variables the call leaves in the graph. */
  datatype Graph = Graph(predicted: VectorShape, logits: MatrixShape, convPool: seq<ConvPoolStage>, dense: seq<DenseLayer>)

  // ---------------------------------------------------------------------
  // __build_conv_and_poll

  /** One conv (same padding, `f` filters) followed by one 2x2, stride-2 pool. */
  function Stage(x: ImageShape, f: nat, kernelSize: nat): (r: ConvPoolStage)
  {
    var conv := Conv2DSame(x, f);
    ConvPoolStage(Conv2DKernel(kernelSize, x.channels, f), [f], conv, MaxPool2x2(conv))
  }

  /** Shape of `current_layer` after the loop has run over `fs`. */
  function ConvPoolOutput(x: ImageShape, fs: seq<nat>): (r: ImageShape)
    decreases |fs|
  {
    if fs == [] then x
    else MaxPool2x2(Conv2DSame(ConvPoolOutput(x, fs[..|fs| - 1]), fs[|fs| - 1]))
  }

  /** The stages the loop builds over `fs`, in order. */
  function ConvPoolStages(x: ImageShape, fs: seq<nat>, kernelSize: nat): (r: seq<ConvPoolStage>)
    decreases |fs|
  {
    if fs == [] then []
    else
      var init := fs[..|fs| - 1];
      ConvPoolStages(x, init, kernelSize) + [Stage(ConvPoolOutput(x, init), fs[|fs| - 1], kernelSize)]
  }

  /** Channel count entering pass `i`: the input's, then the previous filter count. */
  function InChannels(x: ImageShape, fs: seq<nat>, i: nat): (r: nat)
    requires i < |fs|
  {
    if i == 0 then x.channels else fs[i - 1]
  }

  /** After the stack, height and width are divided by `2^|fs|` (rounding down,
      once per pool) and the channel count is the last filter size; the batch
      size is untouched. */
  lemma {:induction false} ConvPoolOutputShape(x: ImageShape, fs: seq<nat>)
    ensures ConvPoolOutput(x, fs)
         == ImageShape(x.batch, Halved(x.height, |fs|), Halved(x.width, |fs|),
                       if fs == [] then x.channels else fs[|fs| - 1])
  {
    if fs != [] {
      var init := fs[..|fs| - 1];
      ConvPoolOutputShape(x, init);
      HalveStep(x.height, |init|);
      HalveStep(x.width, |init|);
    }
  }

  /** Exactly one stage, hence one pooling layer, per filter size; stage `i`
      convolves `InChannels` channels into `fs[i]` with "same" padding, so only
      its pool changes the spatial size. */
  lemma {:induction false} ConvPoolStagesShape(x: ImageShape, fs: seq<nat>, kernelSize: nat)
    ensures |ConvPoolStages(x, fs, kernelSize)| == |fs|
    ensures forall i :: 0 <= i < |fs| ==>
      ConvPoolStages(x, fs, kernelSize)[i]
        == ConvPoolStage(
             [kernelSize, kernelSize, InChannels(x, fs, i), fs[i]],
             [fs[i]],
             ImageShape(x.batch, Halved(x.height, i), Halved(x.width, i), fs[i]),
             ImageShape(x.batch, Halved(x.height, i + 1), Halved(x.width, i + 1), fs[i]))
  {
    if fs != [] {
      var n := |fs| - 1;
      var init := fs[..n];
      ConvPoolStagesShape(x, init, kernelSize);
      ConvPoolOutputShape(x, init);
      HalveStep(x.height, n);
      HalveStep(x.width, n);
      var s := ConvPoolStages(x, fs, kernelSize);
      forall i | 0 <= i < |fs|
        ensures s[i]
          == ConvPoolStage(
               [kernelSize, kernelSize, InChannels(x, fs, i), fs[i]],
               [fs[i]],
               ImageShape(x.batch, Halved(x.height, i), Halved(x.width, i), fs[i]),
               ImageShape(x.batch, Halved(x.height, i + 1), Halved(x.width, i + 1), fs[i]))
      {
        if i < n {
          assert s[i] == ConvPoolStages(x, init, kernelSize)[i];
          assert init[i] == fs[i];
          assert InChannels(x, init, i) == InChannels(x, fs, i);
        }
      }
    }
  }

  /** The loop of `__build_conv_and_poll`: one conv and one pool per filter size. */
  method BuildConvAndPool(x: ImageShape, fs: seq<nat>, kernelSize: nat)
    returns (current: ImageShape, stages: seq<ConvPoolStage>)
    ensures current == ConvPoolOutput(x, fs)
    ensures stages == ConvPoolStages(x, fs, kernelSize)
  {
    current := x;
    stages := [];
    var i := 0;
    while i < |fs|
      invariant 0 <= i <= |fs|
      invariant current == ConvPoolOutput(x, fs[..i])
      invariant stages == ConvPoolStages(x, fs[..i], kernelSize)
    {
      var conv := Conv2DSame(current, fs[i]);
      stages := stages + [ConvPoolStage(Conv2DKernel(kernelSize, current.channels, fs[i]), [fs[i]], conv, MaxPool2x2(conv))];
      current := MaxPool2x2(conv);
      assert fs[..i + 1][..i] == fs[..i];
      i := i + 1;
    }
    assert fs[..|fs|] == fs;
  }

  // ---------------------------------------------------------------------
  // __build_feed_forward

  /** Value of `x_size` after the loop has run over `ds`. */
  function SizeAfter(xSize: nat, ds: seq<nat>): (r: nat)
  {
    if ds == [] then xSize else ds[|ds| - 1]
  }

  /** Shape of `current_layer` after the loop has run over `ds`, or the error
      `tf.matmul` raises. */
  function FeedForward(x: MatrixShape, xSize: nat, ds: seq<nat>): (r: Result<MatrixShape>)
    decreases |ds|
  {
    if ds == [] then Ok(x)
    else
      var init := ds[..|ds| - 1];
      match FeedForward(x, xSize, init)
      case Err(e) => Err(e)
      case Ok(current) => MatMul(current, MatrixShape(SizeAfter(xSize, init), ds[|ds| - 1]))
  }

  /** The weights and biases the loop creates over `ds`, in order. */
  function DenseLayers(xSize: nat, ds: seq<nat>): (r: seq<DenseLayer>)
    decreases |ds|
  {
    if ds == [] then []
    else
      var n := |ds| - 1;
      var init := ds[..n];
      DenseLayers(xSize, init) + [DenseLayer(Variable(W(n), [SizeAfter(xSize, init), ds[n]]), Variable(B(n), [ds[n]]))]
  }

  /** Width entering dense layer `i`: `x_size`, then the previous layer's size. */
  function InSize(xSize: nat, ds: seq<nat>, i: nat): (r: nat)
    requires i < |ds|
  {
    if i == 0 then xSize else ds[i - 1]
  }

  /** The dense chain fails exactly when its first multiply does: after one
      layer, the width of `current_layer` and `x_size` agree. With no layer it
      returns its input unchanged; otherwise the width is the last size and the
      rows are the input's. */
  lemma {:induction false} FeedForwardResult(x: MatrixShape, xSize: nat, ds: seq<nat>)
    ensures FeedForward(x, xSize, ds)
         == if ds == [] then Ok(x)
            else if x.cols == xSize then Ok(MatrixShape(x.rows, ds[|ds| - 1]))
            else Err(MatMulError)
  {
    if ds != [] {
      var init := ds[..|ds| - 1];
      FeedForwardResult(x, xSize, init);
    }
  }

  /** `W_i : [InSize(i), ds[i]]` and `b_i : [ds[i]]`, one pair per dense size,
      named by its index. */
  lemma {:induction false} DenseLayersShape(xSize: nat, ds: seq<nat>)
    ensures |DenseLayers(xSize, ds)| == |ds|
    ensures forall i :: 0 <= i < |ds| ==>
      DenseLayers(xSize, ds)[i]
        == DenseLayer(Variable(W(i), [InSize(xSize, ds, i), ds[i]]), Variable(B(i), [ds[i]]))
  {
    if ds != [] {
      var n := |ds| - 1;
      var init := ds[..n];
      DenseLayersShape(xSize, init);
      var l := DenseLayers(xSize, ds);
      var prev := DenseLayers(xSize, init);
      assert l == prev + [DenseLayer(Variable(W(n), [SizeAfter(xSize, init), ds[n]]), Variable(B(n), [ds[n]]))];
      forall i | 0 <= i < |ds|
        ensures l[i] == DenseLayer(Variable(W(i), [InSize(xSize, ds, i), ds[i]]), Variable(B(i), [ds[i]]))
      {
        if i < n {
          assert l[i] == prev[i];
          assert init[i] == ds[i];
          assert InSize(xSize, init, i) == InSize(xSize, ds, i);
        }
      }
    }
  }

  /** The weight shapes chain (the rows of `W_i` are the columns of `W_(i-1)`)
      and no two passes of the loop reuse a variable name. */
  lemma DenseLayersChain(xSize: nat, ds: seq<nat>)
    ensures |DenseLayers(xSize, ds)| == |ds|
    ensures forall i, j :: 0 <= i && j == i + 1 && j < |ds| ==>
      |DenseLayers(xSize, ds)[j].weight.shape| == 2 && |DenseLayers(xSize, ds)[i].weight.shape| == 2 &&
      DenseLayers(xSize, ds)[j].weight.shape[0] == DenseLayers(xSize, ds)[i].weight.shape[1]
    ensures forall i, j :: 0 <= i < j < |ds| ==>
      DenseLayers(xSize, ds)[i].weight.name != DenseLayers(xSize, ds)[j].weight.name &&
      DenseLayers(xSize, ds)[i].bias.name != DenseLayers(xSize, ds)[j].bias.name
  {
    DenseLayersShape(xSize, ds);
  }

  /** The loop of `__build_feed_forward`. On success it yields the output shape
      and every variable it created; when `tf.matmul` raises, the variables of
      the failing pass (the first one) were already created. */
  method BuildFeedForward(x: MatrixShape, xSize: nat, ds: seq<nat>)
    returns (r: Result<MatrixShape>, vars: seq<DenseLayer>)
    ensures r == FeedForward(x, xSize, ds)
    ensures r.Ok? ==> vars == DenseLayers(xSize, ds)
    ensures r.Err? ==> vars == DenseLayers(xSize, ds[..1])
  {
    var current := x;
    var size := xSize;
    vars := [];
    var i := 0;
    while i < |ds|
      invariant 0 <= i <= |ds|
      invariant FeedForward(x, xSize, ds[..i]) == Ok(current)
      invariant size == SizeAfter(xSize, ds[..i])
      invariant vars == DenseLayers(xSize, ds[..i])
    {
      assert ds[..i + 1][..i] == ds[..i];
      vars := vars + [DenseLayer(Variable(W(i), [size, ds[i]]), Variable(B(i), [ds[i]]))];
      var next := MatMul(current, MatrixShape(size, ds[i]));
      if next.Err? {
        FeedForwardResult(x, xSize, ds[..i]);
        FeedForwardResult(x, xSize, ds[..i + 1]);
        FeedForwardResult(x, xSize, ds);
        r := next;
        return;
      }
      current := next.value;
      size := ds[i];
      i := i + 1;
    }
    assert ds[..|ds|] == ds;
    r := Ok(current);
  }

  // ---------------------------------------------------------------------
  // build_net

  /** `ff_input_size`: input height times width times the last filter size,
      divided by `4 ** len(filter_sizes)`, assuming every pool divides the
      spatial size by 4. */
  function FlattenSize(x: ImageShape, fs: seq<nat>): (r: nat)
    requires fs != []
  {
    var traits: nat := x.height * x.width * fs[|fs| - 1];
    Quartered(traits, |fs|)
  }

  /** `build_net(x, filter_sizes, deep_sizes, kernel_size)`. The conv/pool
      stack is built first; then `filter_sizes[-1]` is read, which fails on an
      empty list. No shape check of its own is made: only `tf.reshape` and
      `tf.matmul` can reject the shapes. */
  function BuildNet(x: ImageShape, fs: seq<nat>, ds: seq<nat>, kernelSize: nat): (r: Result<Graph>)
    ensures fs == [] ==> r == Err(IndexError)
  {
    var convOut := ConvPoolOutput(x, fs);
    if fs == [] then Err(IndexError)
    else
      var ffSize := FlattenSize(x, fs);
      match Reshape(convOut, ffSize)
      case Err(e) => Err(e)
      case Ok(ffInput) =>
        match FeedForward(ffInput, ffSize, ds)
        case Err(e) => Err(e)
        case Ok(output) =>
          Ok(Graph(ArgMaxShape(output), output, ConvPoolStages(x, fs, kernelSize), DenseLayers(ffSize, ds)))
  }

  /** The build fails only where `filter_sizes` is empty or `tf.reshape`
      cannot split the conv output into rows of `ff_input_size`; the dense
      chain never rejects it. */
  lemma BuildNetSucceedsIff(x: ImageShape, fs: seq<nat>, ds: seq<nat>, kernelSize: nat)
    ensures BuildNet(x, fs, ds, kernelSize).Ok?
        <==> fs != [] && FlattenSize(x, fs) > 0 && Elements(ConvPoolOutput(x, fs)) % FlattenSize(x, fs) == 0
    ensures BuildNet(x, fs, ds, kernelSize).Err? && fs != [] ==> BuildNet(x, fs, ds, kernelSize) == Err(ReshapeError)
  {
    if fs != [] {
      var ffSize := FlattenSize(x, fs);
      var ffInput := Reshape(ConvPoolOutput(x, fs), ffSize);
      if ffInput.Ok? {
        FeedForwardResult(ffInput.value, ffSize, ds);
      }
    }
  }

  /** What a successful build yields: logits whose width is the last dense
      size (or `ff_input_size` with no dense layer), one predicted class per
      logits row, rows that hold the conv output's elements `ff_input_size`
      at a time, one conv/pool stage per filter size ending in `fs[-1]`
      channels, and `W0 : [ff_input_size, ds[0]]` heading the dense chain. */
  lemma BuildNetShapes(x: ImageShape, fs: seq<nat>, ds: seq<nat>, kernelSize: nat)
    requires BuildNet(x, fs, ds, kernelSize).Ok?
    ensures fs != []
    ensures var g := BuildNet(x, fs, ds, kernelSize).value;
      && g.logits.cols == SizeAfter(FlattenSize(x, fs), ds)
      && g.predicted == VectorShape(g.logits.rows)
      && g.logits.rows * FlattenSize(x, fs) == Elements(ConvPoolOutput(x, fs))
      && |g.convPool| == |fs|
      && g.convPool[|fs| - 1].poolOut.channels == fs[|fs| - 1]
      && g.dense == DenseLayers(FlattenSize(x, fs), ds)
      && (ds != [] ==> g.dense[0].weight.shape == [FlattenSize(x, fs), ds[0]])
  {
    var ffSize := FlattenSize(x, fs);
    var ffInput := Reshape(ConvPoolOutput(x, fs), ffSize).value;
    FeedForwardResult(ffInput, ffSize, ds);
    ConvPoolStagesShape(x, fs, kernelSize);
    DenseLayersShape(ffSize, ds);
  }

  /** The real per-example element count of the conv output never exceeds
      the analytic flatten size. */
  lemma FlattenSizeUpperBound(x: ImageShape, fs: seq<nat>)
    requires fs != []
    ensures PerExample(ConvPoolOutput(x, fs)) <= FlattenSize(x, fs)
  {
    ConvPoolOutputShape(x, fs);
    DivPow4Bound(x.height, x.width, fs[|fs| - 1], |fs|);
  }

  /** With height and width multiples of `2^n`, the analytic size is exact:
      `ff_input_size == (h / 2^n) * (w / 2^n) * fs[-1]`, the per-example
      element count of the conv output. */
  lemma FlattenSizeExact(x: ImageShape, fs: seq<nat>)
    requires fs != []
    requires x.height % Pow2(|fs|) == 0 && x.width % Pow2(|fs|) == 0
    ensures FlattenSize(x, fs) == Halved(x.height, |fs|) * Halved(x.width, |fs|) * fs[|fs| - 1]
    ensures FlattenSize(x, fs) == PerExample(ConvPoolOutput(x, fs))
  {
    ConvPoolOutputShape(x, fs);
    DivPow4Exact(x.height, x.width, fs[|fs| - 1], |fs|);
  }

  /** Under the same divisibility, with non-empty input and a non-zero last
      filter size, the build succeeds and every example of the batch becomes
      exactly one row of logits. */
  lemma BuildNetDivisible(x: ImageShape, fs: seq<nat>, ds: seq<nat>, kernelSize: nat)
    requires fs != [] && fs[|fs| - 1] > 0
    requires x.height > 0 && x.width > 0
    requires x.height % Pow2(|fs|) == 0 && x.width % Pow2(|fs|) == 0
    ensures BuildNet(x, fs, ds, kernelSize).Ok?
    ensures BuildNet(x, fs, ds, kernelSize).value.logits.rows == x.batch
    ensures BuildNet(x, fs, ds, kernelSize).value.predicted == VectorShape(x.batch)
  {
    var n := |fs|;
    var ffSize := FlattenSize(x, fs);
    var conv := ConvPoolOutput(x, fs);
    FlattenSizeExact(x, fs);
    HalvedPositive(x.height, n);
    HalvedPositive(x.width, n);
    MulPositive(Halved(x.height, n), Halved(x.width, n), fs[n - 1]);
    ConvPoolOutputShape(x, fs);
    assert Elements(conv) == conv.batch * PerExample(conv);
    MulDivCancel(x.batch, ffSize);
    BuildNetSucceedsIff(x, fs, ds, kernelSize);
    var g := BuildNet(x, fs, ds, kernelSize).value;
    BuildNetShapes(x, fs, ds, kernelSize);
    MulCancel(g.logits.rows, x.batch, ffSize);
  }

  /** Without the divisibility the assumption behind the analytic size fails
      silently: three 5x5 single-channel images through one 1-filter stage
      pool to 2x2 (12 elements), while `ff_input_size` is `25 // 4 == 6`, so
      `tf.reshape` turns the batch of 3 into 2 rows of 6. */
  lemma OddInputChangesBatch(kernelSize: nat)
    ensures BuildNet(ImageShape(3, 5, 5, 1), [1], [], kernelSize).Ok?
    ensures BuildNet(ImageShape(3, 5, 5, 1), [1], [], kernelSize).value.logits == MatrixShape(2, 6)
  {
    var x := ImageShape(3, 5, 5, 1);
    assert [1][..0] == [];
    assert ConvPoolOutput(x, [1]) == ImageShape(3, 2, 2, 1);
    assert FlattenSize(x, [1]) == 6;
  }

  /** For logits values of the shape a successful build yields, with a
      positive width: one predicted class per row, each below the width
      (`deep_sizes[-1]`, or `ff_input_size` with no dense layer), picking a
      maximal logit of its row. */
  lemma PredictedClassInRange(x: ImageShape, fs: seq<nat>, ds: seq<nat>, kernelSize: nat, logits: seq<seq<real>>)
    requires BuildNet(x, fs, ds, kernelSize).Ok?
    requires BuildNet(x, fs, ds, kernelSize).value.logits.cols > 0
    requires |logits| == BuildNet(x, fs, ds, kernelSize).value.logits.rows
    requires forall i :: 0 <= i < |logits| ==> |logits[i]| == BuildNet(x, fs, ds, kernelSize).value.logits.cols
    ensures fs != []
    ensures |ArgMaxAxis1(logits)| == BuildNet(x, fs, ds, kernelSize).value.predicted.len
    ensures forall i :: 0 <= i < |logits| ==> ArgMaxAxis1(logits)[i] < SizeAfter(FlattenSize(x, fs), ds)
    ensures ds != [] ==> forall i :: 0 <= i < |logits| ==> ArgMaxAxis1(logits)[i] < ds[|ds| - 1]
    ensures ds == [] ==> forall i :: 0 <= i < |logits| ==> ArgMaxAxis1(logits)[i] < FlattenSize(x, fs)
    ensures forall i :: 0 <= i < |logits| ==>
      forall j :: 0 <= j < BuildNet(x, fs, ds, kernelSize).value.logits.cols ==>
        logits[i][j] <= logits[i][ArgMaxAxis1(logits)[i]]
  {
    BuildNetShapes(x, fs, ds, kernelSize);
  }
}
