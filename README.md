# Shape model of the emotion classifier's network builder

The classifier's network is built by `Net.build_net(x, filter_sizes,
deep_sizes, kernel_size)` in `net.py`. It builds a stack of convolution and
pooling layers, flattens the result to one vector per example, and then
builds a chain of dense layers. It returns the pair `(argmax, logits)`.
The only real logic is the shape arithmetic: which tensor shapes and
which variable shapes the calls produce. This project models every tensor
as its static shape and every TensorFlow call as a rule from shapes to
shapes. It then proves what `build_net` promises about those shapes.

- `arith.dfy` (module `Arith`): `2^n`, `4^n`, `h` halved `n` times
  (`Halved`), `t // 4^n` (`Quartered`), and the division lemmas the shape
  proofs need.
- `tf.dfy` (module `Tf`): the shape rules this code relies on.
  - `conv2d` with `padding="same"` keeps the size and sets the channels to
    the filter count. Its kernel is `[k, k, in_channels, filters]`.
  - `max_pooling2d` with a 2x2 pool and stride 2 halves height and width,
    rounding down.
  - `reshape(x, [-1, n])` infers the row count, or fails.
  - `matmul`, followed by the bias add, fails when the inner dimensions
    differ.
  - `argmax` along axis 1 is modelled on shapes and also on real-valued
    rows.
- `net.dfy` (module `Net`):
  - `__build_conv_and_poll` is the method `BuildConvAndPool`, a loop proved
    against the recursive functions `ConvPoolOutput` and `ConvPoolStages`.
  - `__build_feed_forward` is the method `BuildFeedForward`, a loop proved
    against `FeedForward` and `DenseLayers`.
  - `build_net` is the function `BuildNet`. It is straight-line code over
    those functions, plus the flatten size `FlattenSize`.

Main facts proved:
- After the conv/pool stack, height and width are `h / 2^n` and
  `w / 2^n`, and the channel count is `filter_sizes[-1]`.
- There is exactly one conv/pool stage per filter size.
- The analytic `ff_input_size = h*w*filter_sizes[-1] // 4**n` never
  undercounts the real per-example element count.
- `ff_input_size` is exact when `2^n` divides both `h` and `w`.
- When in addition `h`, `w` and `filter_sizes[-1]` are positive, the build
  succeeds and every example becomes exactly one row of logits. If any of
  them is 0, `ff_input_size` is 0 and `tf.reshape` fails.
- The dense weights chain: `W0 : [ff_input_size, d0]`, then
  `W_i : [d_(i-1), d_i]`, and `b_i : [d_i]`.
- The dense chain can never reject what `build_net` feeds it.
- The logits width is `deep_sizes[-1]`, or `ff_input_size` when there is
  no dense layer.
- Every predicted class is in `[0, width)` for the logits width above:
  `[0, deep_sizes[-1])`, or `[0, ff_input_size)` with no dense layer.

A consequence of the analytic flatten size is proved in
`OddInputChangesBatch`. Take three 5x5 single-channel images and one
1-filter stage. They pool to 2x2, which is 12 elements. But
`ff_input_size` is 6, so `tf.reshape` silently turns the batch of 3 into 2
rows. `net.py` adds no check against this. The model keeps that behaviour:
`BuildNet` fails only where `filter_sizes` is empty, or where `tf.reshape`
cannot infer its `-1` dimension (`BuildNetSucceedsIff`).

What `build_net` takes and checks:
- It takes the conv stack as a flat list of filter counts. Each entry
  builds one same-padding conv and one 2x2/stride-2 pool (net.py:30-44).
- It checks no shape itself. Only `tf.reshape` and `tf.matmul` can reject
  one.
- An empty `filter_sizes` fails only when `filter_sizes[-1]` is read. That
  happens after the (empty) conv/pool stack is built.
- An empty `deep_sizes` is accepted. The flattened input is then returned
  as the logits.

## Model

| member | source | states |
|---|---|---|
| `Net.BuildConvAndPool` | net.py:26-46 | the loop yields the shape of `current_layer` after one same-padding conv and one 2x2/stride-2 pool per filter size, and the conv variables of every stage, in order |
| `Net.ConvPoolOutputShape` | net.py:28-46 | after the stack the batch is kept, height and width are divided by `2^len(filter_sizes)` rounding down, and the channel count is the last filter size (the input's when the list is empty) |
| `Net.ConvPoolStagesShape` | net.py:30-44 | exactly one stage, with its one pool, per filter size; stage `i` has kernel `[k, k, in_channels_i, f_i]` and bias `[f_i]`, its conv keeps the spatial size `h/2^i` and its pool gives `h/2^(i+1)` |
| `Net.BuildFeedForward` | net.py:49-75 | the loop yields the output shape of the dense chain and creates `W_i`, `b_i` for every size; when `tf.matmul` raises, only the first pass's variables exist |
| `Net.FeedForwardResult` | net.py:57-75 | with no dense size the input is returned unchanged; otherwise the output has the input's rows and width `deep_sizes[-1]`, and the chain fails exactly when the input width differs from `x_size` |
| `Net.DenseLayersShape` | net.py:59-73 | one weight/bias pair per dense size: `W_i : [x_size or d_(i-1), d_i]`, `b_i : [d_i]`, named `W<i>` and `b<i>` |
| `Net.DenseLayersChain` | net.py:59-73 | consecutive weight shapes chain (rows of `W_(i+1)` equal columns of `W_i`) and no two passes reuse a variable name |
| `Net.BuildNet` | net.py:9-13 | an empty `filter_sizes` fails with the index error of `filter_sizes[-1]` |
| `Net.BuildNetSucceedsIff` | net.py:9-21 | the build succeeds if and only if `filter_sizes` is non-empty and `ff_input_size` is positive and divides the conv output's element count; any other failure is the reshape's |
| `Net.BuildNetShapes` | net.py:9-23 | on success: logits width is `deep_sizes[-1]` (or `ff_input_size`), one predicted class per logits row, logits rows times `ff_input_size` equal the conv output's elements, one stage per filter size ending in `filter_sizes[-1]` channels, dense variables as built from `ff_input_size`, `W0 : [ff_input_size, deep_sizes[0]]` |
| `Net.FlattenSizeUpperBound` | net.py:11-16 | the real per-example element count of the conv output is at most `h*w*filter_sizes[-1] // 4**len(filter_sizes)` |
| `Net.FlattenSizeExact` | net.py:11-16 | when `2^n` divides height and width, `ff_input_size == (h/2^n)*(w/2^n)*filter_sizes[-1]`, the real per-example element count |
| `Net.BuildNetDivisible` | net.py:11-23 | under that divisibility, with positive height, width and last filter size, the build succeeds and the logits and the predicted classes have one row per input example |
| `Net.OddInputChangesBatch` | net.py:15-19 | a 3x5x5x1 input through one 1-filter stage yields 2 logits rows of width 6: the batch size is silently changed |
| `Net.PredictedClassInRange` | net.py:23 | for logits values of the built shape with positive width, there is one predicted class per row, each below the logits width (`deep_sizes[-1]`, or `ff_input_size` with no dense layer), and it selects a maximal logit of its row |
| `Tf.Reshape` | net.py:19 | `reshape(conv_output, [-1, ff_input_size])` fails if and only if the size is zero or does not divide the element count; otherwise it keeps every element in rows of `ff_input_size` |
| `Tf.ArgMax` | net.py:23 | the index picked in a row is in range, holds a maximal value, and no earlier index holds the same maximum |
| `Tf.ArgMaxAxis1` | net.py:23 | one index per row, each in range and at a maximal value of its row |

## Left out

- Numerics: convolution, ReLU, matmul values, Xavier and constant
  initializers, and floating point are not modelled. Only shapes are, and
  argmax works on `real` logits.
- The TensorFlow graph state of `tf.get_variable` is not modelled. In
  particular, the error when `W0` already exists in the graph is left out.
  Variable names are a datatype `W(i)` / `B(i)` rather than the strings
  `"W" + str(i)`.
- The batch dimension is the run-time batch size, a natural number. A
  static `None` batch, and the deferral of the reshape check to run time,
  are not modelled.
- `Tf.ArgMax`: the tie-break is fixed to the first maximal index.
  TensorFlow does not promise which maximal index it returns.
- Height and width are natural numbers. A `None` spatial dimension makes
  `x_shape[1] * x_shape[2]` raise in Python, and that case is not modelled.
- Pooling below a 2x2 input: the model uses the rounded-down half. The
  framework's own errors for such degenerate inputs depend on the version
  and are left out.
- The callers are not part of this model. That is the Qt/tkinter front
  ends, image loading, and `train.py`, whose calls into `Model` and
  `DataSet` cannot be seen. The training loop, the classifier session and
  softmax are in modules that are not part of this model either.
