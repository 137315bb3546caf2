/** The TensorFlow calls the network builder makes, each reduced to the rule
    that turns the static shapes of its inputs into the shape of its result.
    A tensor is modelled by its shape alone. */
module Tf {
  import opened Arith

  /** A batch of images in NHWC layout: `(batch, height, width, channels)`. */
  datatype ImageShape = ImageShape(batch: nat, height: nat, width: nat, channels: nat)

  /** A 2-D tensor `(rows, cols)`: one row per example. */
  datatype MatrixShape = MatrixShape(rows: nat, cols: nat)

  /** A 1-D tensor. */
  datatype VectorShape = VectorShape(len: nat)

  /** The ways a call can fail while the graph is built. */
  datatype Error =
    | IndexError    // `filter_sizes[-1]` on an empty list
    | ReshapeError  // `tf.reshape` cannot infer the `-1` dimension
    | MatMulError   // `tf.matmul` with an inner dimension that does not agree

  datatype Result<T> = Ok(value: T) | Err(error: Error)

  /** Elements of one example of an image batch. */
  function PerExample(s: ImageShape): (r: nat)
  {
    s.height * s.width * s.channels
  }

  /** Elements of the whole batch. */
  function Elements(s: ImageShape): (r: nat)
  {
    s.batch * PerExample(s)
  }

  /** `tf.layers.conv2d(filters=f, padding="same")` with stride 1: the spatial
      size is kept and the channel count becomes the filter count. */
  function Conv2DSame(x: ImageShape, filters: nat): (r: ImageShape)
  {
    x.(channels := filters)
  }

  /** Shape of the kernel variable `tf.layers.conv2d` creates:
      `[kernel_size, kernel_size, in_channels, filters]`. */
  function Conv2DKernel(kernelSize: nat, inChannels: nat, filters: nat): (r: seq<nat>)
  {
    [kernelSize, kernelSize, inChannels, filters]
  }

  /** `tf.layers.max_pooling2d(pool_size=[2, 2], strides=2)` with its default
      "valid" padding: each spatial dimension is halved, rounding down. */
  function MaxPool2x2(x: ImageShape): (r: ImageShape)
  {
    x.(height := x.height / 2, width := x.width / 2)
  }

  /** `tf.reshape(x, [-1, cols])`: the first dimension is inferred so that the
      element count is kept; it cannot be inferred when `cols` is zero or does
      not divide the element count. */
  function Reshape(x: ImageShape, cols: nat): (r: Result<MatrixShape>)
    ensures r.Ok? ==> r.value.cols == cols && r.value.rows * cols == Elements(x)
    ensures r.Err? <==> cols == 0 || Elements(x) % cols != 0
  {
    if cols == 0 || Elements(x) % cols != 0 then Err(ReshapeError)
    else Ok(MatrixShape(Elements(x) / cols, cols))
  }

  /** `tf.matmul(a, W)` with `W` of shape `w`, followed by `+ b` with `b` of
      shape `[w.cols]`, which broadcasts over the rows and keeps the shape. */
  function MatMul(a: MatrixShape, w: MatrixShape): (r: Result<MatrixShape>)
  {
    if a.cols == w.rows then Ok(MatrixShape(a.rows, w.cols)) else Err(MatMulError)
  }

  /** `tf.argmax(m, axis=1)`: one index per row. */
  function ArgMaxShape(m: MatrixShape): (r: VectorShape)
  {
    VectorShape(m.rows)
  }

  /** The index `tf.argmax` picks in one row of logits: a position holding the
      maximum. Ties go to the first such position. */
  function ArgMax(row: seq<real>): (k: nat)
    requires |row| > 0
    ensures k < |row|
    ensures forall j :: 0 <= j < |row| ==> row[j] <= row[k]
    ensures forall j :: 0 <= j < k ==> row[j] < row[k]
  {
    if |row| == 1 then 0
    else
      var k := ArgMax(row[..|row| - 1]);
      if row[|row| - 1] > row[k] then |row| - 1 else k
  }

  /** `tf.argmax(m, axis=1)` on values: the predicted class of every row. */
  function ArgMaxAxis1(m: seq<seq<real>>): (p: seq<nat>)
    requires forall i :: 0 <= i < |m| ==> |m[i]| > 0
    ensures |p| == |m|
    ensures forall i :: 0 <= i < |m| ==> p[i] < |m[i]|
    ensures forall i :: 0 <= i < |m| ==> forall j :: 0 <= j < |m[i]| ==> m[i][j] <= m[i][p[i]]
  {
    seq(|m|, i requires 0 <= i < |m| => ArgMax(m[i]))
  }
}
