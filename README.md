# Shape and parameter contracts of two KotlinDL layers

This project models the shape and parameter bookkeeping of two layers of KotlinDL, a Kotlin
deep-learning API that runs on TensorFlow. It proves properties of that model.

- **`Cropping2D`** removes `top`/`bottom` rows and `left`/`right` columns from a batch of images
  shaped `[batch, height, width, channels]`. The model covers the check its constructor makes
  on the cropping array, the cropped output shape, and the `begin`/`size` vectors it passes to
  the engine's slice operation. The model treats the layer as fixed after construction, so it
  is a datatype (`Cropping2DLayer.Cropping2D`). `NewCropping2D` is its constructor. Layers that
  passed the constructor's check have the subset type `ValidCropping2D`.
- **`DepthwiseConv2D`** is a class (`DepthwiseConv2DLayer.DepthwiseConv2D`). Its
  hyperparameters are `const` fields. Its `lateinit` properties (`kernelShape`, `biasShape`,
  `kernel`, `bias`) and `fanIn` are `Option` fields: `None` until `defineVariables` assigns
  them. `DefineVariables` runs the source's steps in order. When a step throws, the fields
  assigned by the earlier steps keep their new values. `Valid()` is the invariant that every
  reachable state satisfies. `GetParams`, `ComputeOutputShape`, `TransformInput` and
  `HasActivation` read that state.

Kotlin `Int` and `Long` are the subset types `Int32` and `Int64`. Every overflow and every
`toInt()` is made explicit with `Wrap32`/`Wrap64` (two's complement). JVM exceptions become
values of `Shapes.Error`:

- `IllegalArgument`: a failed `require`, or `roundToInt` of NaN.
- `IndexOutOfBounds`: `Shape.size(i)` or a `LongArray` index out of range.
- `UninitializedProperty`: a `lateinit` read too early.
- `NotImplemented`: `TODO()`.

Engine objects are symbolic values. A `Variable` records the name a weight is registered
under and its shape. An `Operand` is the graph term that `transformInput` builds.

`Cropping2D` checks neither that the crop amounts are non-negative nor that the cropped
extents are positive, and neither does the model: negative crops and negative extents simply
go through the arithmetic.

## Model

| member | source | states |
|---|---|---|
| `Numerics.Wrap32` | src/main/kotlin/api/keras/layers/twodim/DepthwiseConv2D.kt:53 | `toInt()` and `Int` overflow: the only `Int` congruent to the exact value modulo 2^32; equal to it when it fits |
| `Numerics.Wrap64` | api/src/main/kotlin/org/jetbrains/kotlinx/dl/api/core/layer/reshaping/Cropping2D.kt:39-40 | `Long` overflow: the only `Long` congruent to the exact value modulo 2^64; equal to it when it fits |
| `Numerics.Wrap32OfWrap64` | src/main/kotlin/api/keras/layers/twodim/DepthwiseConv2D.kt:53 | converting an overflowed `Long` to `Int` gives the same `Int` as converting the exact value |
| `Numerics.LongTimesTwice` | src/main/kotlin/api/keras/layers/twodim/DepthwiseConv2D.kt:53 | two `Long` multiplications in a row equal the wrapped exact product |
| `Numerics.LongMinusTwice` | api/src/main/kotlin/org/jetbrains/kotlinx/dl/api/core/layer/reshaping/Cropping2D.kt:39-40 | two `Long` subtractions in a row equal the wrapped exact difference |
| `Numerics.IntMinusTwice` | api/src/main/kotlin/org/jetbrains/kotlinx/dl/api/core/layer/reshaping/Cropping2D.kt:48-49 | two `Int` subtractions in a row equal the wrapped exact difference |
| `Numerics.LongPlusToInt` | src/main/kotlin/api/keras/layers/twodim/DepthwiseConv2D.kt:117 | a `Long` sum of two wrapped counts, converted to `Int`, equals the exact sum converted to `Int` |
| `Shapes.ProductAppend` | src/main/kotlin/api/keras/layers/twodim/DepthwiseConv2D.kt:45 | the element count of a concatenated shape is the product of the parts' counts |
| `Shapes.NumElementsInShape` | src/main/kotlin/api/keras/layers/twodim/DepthwiseConv2D.kt:117 | the `Long` element count of a shape equals the exact product of its extents when that fits |
| `Cropping2DLayer.NewCropping2D` | api/src/main/kotlin/org/jetbrains/kotlinx/dl/api/core/layer/reshaping/Cropping2D.kt:27-34 | construction succeeds iff the cropping is 2 arrays of 2; an outer size other than 2 fails with the first message, otherwise a wrong inner size fails with the second; success keeps the cropping and name (`name` defaults to empty) |
| `Cropping2DLayer.ComputeCroppedShape` | api/src/main/kotlin/org/jetbrains/kotlinx/dl/api/core/layer/reshaping/Cropping2D.kt:36-43 | succeeds iff the input has at least 4 axes, else fails at the first missing index; the result has rank 4; batch (even -1) and channels pass through; height is `in[1] - top - bottom` and width `in[2] - left - right`, each from its own pair, wrapped as `Long` and exact when representable |
| `Cropping2DLayer.Crop` | api/src/main/kotlin/org/jetbrains/kotlinx/dl/api/core/layer/reshaping/Cropping2D.kt:45-63 | succeeds iff the input has at least 4 axes; fails on axis 1 for rank 0 or 1, else on the first missing axis; `begin == [0, top, left, 0]`; `size` is batch, cropped height, cropped width and channels, in `Int` arithmetic |
| `Cropping2DLayer.CropExtent` | api/src/main/kotlin/org/jetbrains/kotlinx/dl/api/core/layer/reshaping/Cropping2D.kt:48-49 | `extent.toInt() - start - end` in `Int` arithmetic equals the exact difference converted to `Int` |
| `Cropping2DLayer.CropSizeIsCroppedExtent` | api/src/main/kotlin/org/jetbrains/kotlinx/dl/api/core/layer/reshaping/Cropping2D.kt:47-50 | on axes 1 and 2 the slice size is the computed cropped extent converted to `Int`, and equals it when it fits |
| `Cropping2DLayer.SliceEnd` | api/src/main/kotlin/org/jetbrains/kotlinx/dl/api/core/layer/reshaping/Cropping2D.kt:53-57 | a slice of one axis starting at `start` whose `Int` size is `extent - start - end` ends at `extent - end`; always modulo 2^32, exactly when the size fits |
| `Cropping2DLayer.CropEndsBeforeEndCrop` | api/src/main/kotlin/org/jetbrains/kotlinx/dl/api/core/layer/reshaping/Cropping2D.kt:47-60 | on axes 1 and 2, `begin + size == extent - endCrop`, so the slice stops exactly `bottom` (`right`) elements before the end; always modulo 2^32, exactly when the cropped extent fits in an `Int` |
| `DepthwiseConv2DLayer.KernelVarName` | src/main/kotlin/api/keras/layers/twodim/DepthwiseConv2D.kt:56-70 | a non-empty layer name gives the name-derived kernel name; an empty name gives `"depthwise_conv2d_kernel"` |
| `DepthwiseConv2DLayer.BiasVarName` | src/main/kotlin/api/keras/layers/twodim/DepthwiseConv2D.kt:56-70 | a non-empty layer name gives the name-derived bias name; an empty name gives `"depthwise_conv2d_bias"` |
| `DepthwiseConv2DLayer.TfPadding` | src/main/kotlin/api/keras/layers/twodim/DepthwiseConv2D.kt:80-84 | SAME gives "SAME", VALID gives "VALID", FULL fails as not implemented; it succeeds iff the mode is not FULL |
| `DepthwiseConv2DLayer.TfPaddingInjective` | src/main/kotlin/api/keras/layers/twodim/DepthwiseConv2D.kt:80-84 | two supported modes that give the same engine string are the same mode |
| `DepthwiseConv2DLayer.FanIn` | src/main/kotlin/api/keras/layers/twodim/DepthwiseConv2D.kt:50-53 | `fanIn == inputDepth * kernelSize[0] * kernelSize[1]` after the `Long` products and `toInt()`; exact when it fits in an `Int`; only the first two kernel extents count |
| `DepthwiseConv2DLayer.ParamCount` | src/main/kotlin/api/keras/layers/twodim/DepthwiseConv2D.kt:116-118 | the element count of the kernel shape plus that of the bias shape, added in `Long`, converted to `Int` |
| `DepthwiseConv2DLayer.KernelElementCount` | src/main/kotlin/api/keras/layers/twodim/DepthwiseConv2D.kt:45 | the kernel shape `kernelSize ++ [inputDepth, filters]` holds `product(kernelSize) * inputDepth * filters` elements |
| `DepthwiseConv2DLayer.ParamsOfDefinedShapes` | src/main/kotlin/api/keras/layers/twodim/DepthwiseConv2D.kt:45-46 | with the shapes `defineVariables` sets, the parameter count is `product(kernelSize) * inputDepth * filters + filters` as an `Int` (the exact count truncated by `toInt()`; equal to it when it fits) |
| `DepthwiseConv2DLayer.ParamsOfTwoDimensionalKernel` | src/main/kotlin/api/keras/layers/twodim/DepthwiseConv2D.kt:116-118 | for a kernel `[kh, kw]` the parameter count is `kh * kw * inputDepth * filters + filters`, exactly when it fits in an `Int` |
| `DepthwiseConv2DLayer.FanOutFailure` | src/main/kotlin/api/keras/layers/twodim/DepthwiseConv2D.kt:54 | with fewer than 2 strides, `strides[0]`/`strides[1]` throws at index `|strides|`; otherwise it throws "Cannot round NaN value." iff the exact `filters * k[0] * k[1]`, wrapped to a `Long`, is 0 and one of the first two strides is 0 (0.0 / 0.0); otherwise nothing throws |
| `DepthwiseConv2DLayer.DepthwiseConv2D.constructor` | src/main/kotlin/api/keras/layers/twodim/DepthwiseConv2D.kt:19-35 | keeps the hyperparameters (`activation` defaults to ReLU, `name` to empty); every `lateinit` property and `fanIn` starts unassigned |
| `DepthwiseConv2DLayer.DepthwiseConv2D.DefineVariables` | src/main/kotlin/api/keras/layers/twodim/DepthwiseConv2D.kt:40-71 | rank 0 throws at index -1 and changes nothing. Otherwise `kernelShape = kernelSize ++ [in[last], filters]` and `biasShape = [filters]`. Fewer than 2 kernel extents then throw at that index with `fanIn` and the weights unchanged. Otherwise `fanIn` is set, and a `fanOut` failure (too few strides, NaN) leaves the weights unchanged. On success the kernel and bias have those shapes and the names chosen by the layer name, and `GetParams()` is `product(kernelSize) * in[last] * filters + filters` as an `Int` (the exact count truncated by `toInt()`; equal to it when it fits) |
| `DepthwiseConv2DLayer.DepthwiseConv2D.ComputeOutputShape` | src/main/kotlin/api/keras/layers/twodim/DepthwiseConv2D.kt:73-77 | succeeds iff the input has at least 3 axes; the result is rank 4: `in[0], in[1], in[2]`, then `filters`. Padding, strides and kernel size play no part |
| `DepthwiseConv2DLayer.DepthwiseConv2D.TransformInput` | src/main/kotlin/api/keras/layers/twodim/DepthwiseConv2D.kt:79-88 | FULL padding fails as not implemented before anything else. An unassigned kernel, then an unassigned bias, fails as uninitialized. Otherwise the result is the activation applied to bias-add over a depthwise convolution with the layer's strides and padding string |
| `DepthwiseConv2DLayer.DepthwiseConv2D.ValidStateNeverLacksBias` | src/main/kotlin/api/keras/layers/twodim/DepthwiseConv2D.kt:44-71 | in every state `Valid()` admits, `getParams` never fails on `biasShape` and `transformInput` never fails on `bias` alone; once `kernelShape` is set, `getParams` gives `product(kernelSize) * depth * filters + filters` as an `Int`, where `depth` is the kernel shape's input-depth axis |
| `DepthwiseConv2DLayer.DepthwiseConv2D.HasActivation` | src/main/kotlin/api/keras/layers/twodim/DepthwiseConv2D.kt:112-114 | always true |
| `DepthwiseConv2DLayer.DepthwiseConv2D.GetParams` | src/main/kotlin/api/keras/layers/twodim/DepthwiseConv2D.kt:116-118 | fails with "kernelShape" uninitialized before the shapes are set, and succeeds iff both are set; the count is `product(kernelShape) + product(biasShape)` as an `Int` |
| `DepthwiseConv2DLayer.KernelPlusBiasScenario` | src/main/kotlin/api/keras/layers/twodim/DepthwiseConv2D.kt:116-118 | a 5x5 kernel, 32 filters, on `[-1, 28, 28, 1]`: `getParams` fails as uninitialized before `defineVariables` and gives 832 = 5*5*1*32 + 32 after it |

## Left out

- Engine calls are not modelled: `tf.variable`, `tf.withName`, `addWeight`, `tf.slice`, `tf.constant`, `depthwiseConv2dNative`, `biasAdd` and `Activations.convert(...).apply`. They are foreign code. They appear only as the symbolic `Variable` and `Operand` values and the `SliceArgs` vectors.
- The arrays handed to the constructors (`cropping: Array<IntArray>`, `kernelSize` and `strides: LongArray`) belong to the caller and stay mutable in the source. The model assumes they never change after construction, so it treats the 2x2 check of `Cropping2D` and the `DepthwiseConv2D` hyperparameters as lasting. Aliasing and later mutation of those arrays are not captured. The layer name is also fixed in the `Cropping2D` datatype, while it is a `var` field of the `DepthwiseConv2D` class that `DefineVariables` leaves unchanged.
- The kernel and bias initializers are not modelled. Only the engine uses them, so they are not fields of the model class.
- `depthwiseConv2dKernelVarName` and `depthwiseConv2dBiasVarName` are not part of this model. Their results are the symbolic names `KernelVarNameOf(n)` and `BiasVarNameOf(n)`, and nothing is claimed about their text. The three `VarName` constructors make a kernel name, a bias name and a literal name distinct by construction, but no contract relies on that.
- `fanOut` is Double division plus `roundToInt`, so its value is floating point and is left out. Its two ways of throwing are modelled, because they decide which fields `defineVariables` assigns: fewer than two strides, and NaN from 0/0.
- `getWeights` is not modelled. It is a session fetch plus tensor conversion, which is engine I/O. It fetches the name-derived variable names even for an unnamed layer.
- `toString` of `Cropping2D` is not modelled because it is only formatting.
- `numElementsInShape`, `shapeFromDims` and `shapeToLongArray` are not part of this model. They are taken as the `Long` product of the extents, the concatenation of the dimensions, and the identity.
- The base classes `AbstractCropping` and `LayerWithoutGradients` are not part of this model. This includes how they call `computeCroppedShape`/`crop` and where `fanIn` is declared and initialised. Before `defineVariables`, `fanIn` is modelled as unassigned.
- Shapes of unknown rank (TensorFlow's `numDimensions() == -1`) are not modelled: a `Shape` always has a known rank.
- The sequential model is not modelled: layer-name generation, duplicate-name rejection, compilation and `summary()`. Their source is not part of this model.
- The ReLU layer and `Cropping1D` are not modelled. Their source is not part of this model, and the `Cropping1D` test is unfinished.
