/** The `DepthwiseConv2D` layer: its shape bookkeeping, parameter count, weight naming and
    the padding string it hands to the engine.

    The model treats the layer's hyperparameters as fixed, so they are `const` fields. The `lateinit`
    properties that `defineVariables` assigns are `Option` fields: `None` until assigned.
    Tensor-engine objects appear only as symbolic values (`Variable`, `Operand`). */
module DepthwiseConv2DLayer {
  import opened Numerics
  import opened Shapes

  datatype ConvPadding = SAME | VALID | FULL

  /** The activation chosen at construction (`Activations.Relu` by default); the engine
      applies it, so only its identity matters here. */
  datatype Activation = Activation(tag: string)

  const RELU := Activation("Relu")

  /** Registration names used when the layer has no name of its own. */
  const KERNEL := "depthwise_conv2d_kernel"
  const BIAS := "depthwise_conv2d_bias"

  /** The name a weight is registered under. `KernelVarNameOf(n)` and `BiasVarNameOf(n)` stand
      for what the helpers `depthwiseConv2dKernelVarName(n)` and `depthwiseConv2dBiasVarName(n)`
      return. Their text is not part of this model. The three constructors make the names
      distinct by construction, but no contract relies on that. */
  datatype VarName = KernelVarNameOf(layer: string) | BiasVarNameOf(layer: string) | Literal(text: string)

  /** A weight variable created in the engine: its registration name and its shape. */
  datatype Variable = Variable(name: VarName, shape: Shape)

  /** A node of the engine's computation graph, built by `transformInput`. */
  datatype Operand =
    | Given(id: int)
    | DepthwiseConv2dNative(input: Operand, filter: Variable, strides: seq<Int64>, padding: string)
    | BiasAdd(value: Operand, bias: Variable)
    | Activated(activation: Activation, signal: Operand, layerName: string)

  /** The kernel's registration name: derived from the layer's name when it has one,
      the fixed `KERNEL` otherwise. */
  function KernelVarName(layerName: string): (n: VarName)
    ensures layerName != "" ==> n == KernelVarNameOf(layerName)
    ensures layerName == "" ==> n == Literal("depthwise_conv2d_kernel")
  {
    if layerName != "" then KernelVarNameOf(layerName) else Literal(KERNEL)
  }

  /** The bias's registration name: derived from the layer's name when it has one,
      the fixed `BIAS` otherwise. */
  function BiasVarName(layerName: string): (n: VarName)
    ensures layerName != "" ==> n == BiasVarNameOf(layerName)
    ensures layerName == "" ==> n == Literal("depthwise_conv2d_bias")
  {
    if layerName != "" then BiasVarNameOf(layerName) else Literal(BIAS)
  }

  /** The padding string the engine understands; `FULL` is declared but not implemented. */
  function TfPadding(padding: ConvPadding): (r: Result<string>)
    ensures r.Ok? <==> padding != FULL
    ensures padding == FULL ==> r == Err(NotImplemented)
    ensures padding == SAME ==> r == Ok("SAME")
    ensures padding == VALID ==> r == Ok("VALID")
  {
    match padding
    case SAME => Ok("SAME")
    case VALID => Ok("VALID")
    case FULL => Err(NotImplemented)
  }

  /** No two padding modes are handed to the engine as the same string. */
  lemma TfPaddingInjective(p: ConvPadding, q: ConvPadding)
    requires TfPadding(p).Ok? && TfPadding(p) == TfPadding(q)
    ensures p == q
  {
  }

  /** `fanIn`: input channels times the first two kernel extents, multiplied in `Long`
      and converted to `Int`. */
  function FanIn(inputDepth: Int64, kernelSize: seq<Int64>): (r: Int32)
    requires |kernelSize| >= 2
    ensures r == Wrap32(inputDepth * kernelSize[0] * kernelSize[1])
    ensures InInt32(inputDepth * kernelSize[0] * kernelSize[1]) ==> r == inputDepth * kernelSize[0] * kernelSize[1]
  {
    LongTimesTwice(inputDepth, kernelSize[0], kernelSize[1]);
    Wrap32OfWrap64(inputDepth * kernelSize[0] * kernelSize[1]);
    Wrap32(LongTimes(LongTimes(inputDepth, kernelSize[0]), kernelSize[1]))
  }

  /** Whether computing `fanOut` throws. Its value is a floating-point quantity and is not
      modelled; it fails when `strides` has fewer than two entries, and when the quotient
      is 0.0 / 0.0, whose NaN `roundToInt()` rejects. A nonzero `Long` converts to a nonzero
      `Double`, and a product of two such doubles is never zero, so NaN arises exactly when
      the `Long` numerator is zero and one of the first two strides is zero. */
  function FanOutFailure(filters: Int64, kernelSize: seq<Int64>, strides: seq<Int64>): (r: Option<Error>)
    requires |kernelSize| >= 2
    ensures |strides| < 2 ==> r == Some(IndexOutOfBounds(|strides|))
    ensures |strides| >= 2 ==>
              (r.Some? <==> Wrap64(filters * kernelSize[0] * kernelSize[1]) == 0 && (strides[0] == 0 || strides[1] == 0))
    ensures |strides| >= 2 && r.Some? ==> r == Some(IllegalArgument("Cannot round NaN value."))
  {
    LongTimesTwice(filters, kernelSize[0], kernelSize[1]);
    if |strides| < 2 then
      Some(IndexOutOfBounds(|strides|))
    else if LongTimes(LongTimes(filters, kernelSize[0]), kernelSize[1]) == 0
         && (strides[0] == 0 || strides[1] == 0) then
      Some(IllegalArgument("Cannot round NaN value."))
    else
      None
  }

  /** Whether `defineVariables` runs to the end on an input of the given rank. */
  predicate DefinesAll(filters: Int64, kernelSize: seq<Int64>, strides: seq<Int64>, rank: nat)
  {
    rank > 0 && |kernelSize| >= 2 && FanOutFailure(filters, kernelSize, strides).None?
  }

  /** `getParams`: the element count of the kernel plus that of the bias, added in `Long`
      and converted to `Int`. */
  function ParamCount(kernelShape: Shape, biasShape: Shape): (r: Int32)
    ensures r == Wrap32(Product(kernelShape) + Product(biasShape))
  {
    LongPlusToInt(Product(kernelShape), Product(biasShape));
    Wrap32(LongPlus(NumElementsInShape(kernelShape), NumElementsInShape(biasShape)))
  }

  /** The element count of the kernel shape `kernelSize ++ [inputDepth, filters]`. */
  lemma KernelElementCount(kernelSize: seq<int>, inputDepth: int, filters: int)
    ensures Product(kernelSize + [inputDepth, filters]) == Product(kernelSize) * inputDepth * filters
  {
    ProductAppend(kernelSize, [inputDepth, filters]);
    ProductPair(inputDepth, filters);
    MulAssociative(Product(kernelSize), inputDepth, filters);
  }

  /** The layer's parameters once its shapes are defined: the kernel
      `kernelSize ++ [inputDepth, filters]` plus the bias `[filters]`. */
  lemma ParamsOfDefinedShapes(kernelSize: seq<Int64>, inputDepth: Int64, filters: Int64)
    ensures ParamCount(kernelSize + [inputDepth, filters], [filters])
              == Wrap32(Product(kernelSize) * inputDepth * filters + filters)
  {
    KernelElementCount(kernelSize, inputDepth, filters);
    ProductSingleton(filters);
  }

  /** For a two-dimensional kernel, `kh * kw * inputDepth * filters + filters`, exactly when
      that number fits in an `Int`. */
  lemma ParamsOfTwoDimensionalKernel(kh: Int64, kw: Int64, inputDepth: Int64, filters: Int64)
    ensures ParamCount([kh, kw, inputDepth, filters], [filters])
              == Wrap32(kh * kw * inputDepth * filters + filters)
    ensures InInt32(kh * kw * inputDepth * filters + filters) ==>
              ParamCount([kh, kw, inputDepth, filters], [filters]) == kh * kw * inputDepth * filters + filters
  {
    assert [kh, kw, inputDepth, filters] == [kh, kw] + [inputDepth, filters];
    ParamsOfDefinedShapes([kh, kw], inputDepth, filters);
    ProductPair(kh, kw);
  }

  class DepthwiseConv2D {
    const filters: Int64
    const kernelSize: seq<Int64>
    const strides: seq<Int64>
    const activation: Activation
    const padding: ConvPadding
    var name: string

    // `lateinit` weight tensors and their shapes
    var kernel: Option<Variable>
    var bias: Option<Variable>
    var biasShape: Option<Shape>
    var kernelShape: Option<Shape>
    var fanIn: Option<Int32>

    /** What every assignment `defineVariables` can make leaves true: the shapes are set
        together and have the layer's form, `fanIn` belongs to the current kernel shape,
        and the weights exist only if a call ran to the end, with the current shapes. */
    ghost predicate Valid()
      reads this
    {
      (kernelShape.Some? <==> biasShape.Some?) &&
      (kernelShape.Some? ==>
         |kernelShape.value| == |kernelSize| + 2 &&
         kernelShape.value[..|kernelSize|] == kernelSize &&
         kernelShape.value[|kernelSize| + 1] == filters &&
         biasShape.value == [filters]) &&
      (fanIn.Some? ==>
         kernelShape.Some? && |kernelSize| >= 2 &&
         fanIn.value == FanIn(kernelShape.value[|kernelSize|], kernelSize)) &&
      (kernel.Some? <==> bias.Some?) &&
      (kernel.Some? ==>
         fanIn.Some? && FanOutFailure(filters, kernelSize, strides).None? &&
         kernel.value.shape == kernelShape.value &&
         bias.value.shape == biasShape.value)
    }

    /** A freshly built layer: nothing defined yet. */
    constructor (filters: Int64, kernelSize: seq<Int64>, strides: seq<Int64>,
                 activation: Activation := RELU, padding: ConvPadding, name: string := "")
      ensures this.filters == filters && this.kernelSize == kernelSize && this.strides == strides
      ensures this.activation == activation && this.padding == padding && this.name == name
      ensures kernel == None && bias == None && biasShape == None && kernelShape == None && fanIn == None
      ensures Valid()
    {
      this.filters := filters;
      this.kernelSize := kernelSize;
      this.strides := strides;
      this.activation := activation;
      this.padding := padding;
      this.name := name;
      kernel, bias, biasShape, kernelShape, fanIn := None, None, None, None, None;
    }

    /** `defineVariables`, step by step: read the channel count from the input's last axis,
        set both shapes, compute `fanIn` from the first two kernel extents, compute `fanOut`
        from the first two strides, then create the two weights. Each step that throws
        leaves the assignments of the earlier steps in place. */
    method DefineVariables(inputShape: Shape) returns (outcome: Outcome)
      requires Valid()
      modifies this
      ensures Valid()
      ensures name == old(name)
      ensures outcome.Pass? <==> DefinesAll(filters, kernelSize, strides, |inputShape|)
      // the last axis is read first; an input of rank 0 throws before anything is assigned
      ensures |inputShape| == 0 ==>
                outcome == Fail(IndexOutOfBounds(-1)) &&
                kernelShape == old(kernelShape) && biasShape == old(biasShape) &&
                fanIn == old(fanIn) && kernel == old(kernel) && bias == old(bias)
      ensures |inputShape| > 0 ==>
                kernelShape == Some(kernelSize + [inputShape[|inputShape| - 1], filters]) &&
                biasShape == Some([filters])
      // `fanIn` indexes the kernel size
      ensures |inputShape| > 0 && |kernelSize| < 2 ==>
                outcome == Fail(IndexOutOfBounds(|kernelSize|)) &&
                fanIn == old(fanIn) && kernel == old(kernel) && bias == old(bias)
      ensures |inputShape| > 0 && |kernelSize| >= 2 ==>
                fanIn == Some(Wrap32((inputShape[|inputShape| - 1] as int) * kernelSize[0] * kernelSize[1]))
      // `fanOut` indexes the strides and rounds a quotient
      ensures |inputShape| > 0 && |kernelSize| >= 2 && FanOutFailure(filters, kernelSize, strides).Some? ==>
                outcome == Fail(FanOutFailure(filters, kernelSize, strides).value) &&
                kernel == old(kernel) && bias == old(bias)
      ensures outcome.Pass? ==>
                kernel == Some(Variable(KernelVarName(name), kernelSize + [inputShape[|inputShape| - 1], filters])) &&
                bias == Some(Variable(BiasVarName(name), [filters]))
      ensures outcome.Pass? ==>
                GetParams() == Ok(Wrap32(Product(kernelSize) * inputShape[|inputShape| - 1] * filters + filters))
    {
      if |inputShape| == 0 {
        return Fail(IndexOutOfBounds(-1));
      }
      var lastElement := inputShape[|inputShape| - 1];

      kernelShape := Some(kernelSize + [lastElement, filters]);
      biasShape := Some([filters]);

      var inputDepth := lastElement;
      if |kernelSize| < 2 {
        return Fail(IndexOutOfBounds(|kernelSize|));
      }
      assert (kernelSize + [lastElement, filters])[|kernelSize|] == lastElement;
      fanIn := Some(FanIn(inputDepth, kernelSize));

      var fanOutFailure := FanOutFailure(filters, kernelSize, strides);
      if fanOutFailure.Some? {
        return Fail(fanOutFailure.value);
      }

      // the choice between the name-derived and the fixed names is `KernelVarName`/`BiasVarName`
      kernel := Some(Variable(KernelVarName(name), kernelShape.value));
      bias := Some(Variable(BiasVarName(name), biasShape.value));
      ParamsOfDefinedShapes(kernelSize, lastElement, filters);
      outcome := Pass;
    }

    /** `computeOutputShape`: the first three axes of the input, then `filters`. Padding,
        strides and the kernel size play no part. */
    function ComputeOutputShape(inputShape: Shape): (r: Result<Shape>)
      ensures r.Ok? <==> |inputShape| >= 3
      ensures r.Err? ==> r.error == IndexOutOfBounds(|inputShape|)
      ensures r.Ok? ==> |r.value| == 4 && r.value[..3] == inputShape[..3] && r.value[3] == filters
    {
      if |inputShape| < 3 then Err(IndexOutOfBounds(|inputShape|))
      else Ok([inputShape[0], inputShape[1], inputShape[2], filters])
    }

    /** `transformInput`: a depthwise convolution with the kernel, plus the bias, through the
        activation. The padding is mapped first, then the kernel is read, then the bias. */
    function TransformInput(input: Operand): (r: Result<Operand>)
      reads this
      ensures r.Ok? <==> padding != FULL && kernel.Some? && bias.Some?
      ensures padding == FULL ==> r == Err(NotImplemented)
      ensures padding != FULL && kernel.None? ==> r == Err(UninitializedProperty("kernel"))
      ensures padding != FULL && kernel.Some? && bias.None? ==> r == Err(UninitializedProperty("bias"))
      ensures r.Ok? ==> r.value.Activated? && r.value.activation == activation && r.value.layerName == name
      ensures r.Ok? ==> r.value.signal == BiasAdd(DepthwiseConv2dNative(input, kernel.value, strides, TfPadding(padding).value), bias.value)
    {
      match TfPadding(padding)
      case Err(e) => Err(e)
      case Ok(tfPadding) =>
        if kernel.None? then Err(UninitializedProperty("kernel"))
        else if bias.None? then Err(UninitializedProperty("bias"))
        else Ok(Activated(activation, BiasAdd(DepthwiseConv2dNative(input, kernel.value, strides, tfPadding), bias.value), name))
    }

    /** The layer always reports an activation. */
    function HasActivation(): (r: bool)
      ensures r
    {
      true
    }

    /** `getParams`: fails while `kernelShape` (read first) or `biasShape` is unassigned. */
    function GetParams(): (r: Result<Int32>)
      reads this
      ensures r.Ok? <==> kernelShape.Some? && biasShape.Some?
      ensures kernelShape.None? ==> r == Err(UninitializedProperty("kernelShape"))
      ensures kernelShape.Some? && biasShape.None? ==> r == Err(UninitializedProperty("biasShape"))
      ensures r.Ok? ==> r.value == Wrap32(Product(kernelShape.value) + Product(biasShape.value))
    {
      if kernelShape.None? then Err(UninitializedProperty("kernelShape"))
      else if biasShape.None? then Err(UninitializedProperty("biasShape"))
      else Ok(ParamCount(kernelShape.value, biasShape.value))
    }

    /** In every reachable state the bias is never the missing half: `getParams` and
        `transformInput` cannot fail on `biasShape` or `bias` alone, and once the shapes are
        set the count is that of `kernelSize ++ [depth, filters]` plus `[filters]`, where
        `depth` is the input depth the kernel shape was made for. */
    lemma ValidStateNeverLacksBias(input: Operand)
      requires Valid()
      ensures GetParams() != Err(UninitializedProperty("biasShape"))
      ensures TransformInput(input) != Err(UninitializedProperty("bias"))
      ensures kernelShape.Some? ==>
                GetParams() == Ok(Wrap32(Product(kernelSize) * kernelShape.value[|kernelSize|] * filters + filters))
    {
      if kernelShape.Some? {
        var depth := kernelShape.value[|kernelSize|];
        assert kernelShape.value == kernelSize + [depth, filters];
        ParamsOfDefinedShapes(kernelSize, depth, filters);
      }
    }
  }

  /** A 5x5 depthwise layer with 32 filters over one-channel 28x28 images: 5*5*1*32 + 32
      parameters once defined, and an uninitialized-property failure before. */
  method KernelPlusBiasScenario() returns (before: Result<Int32>, after: Result<Int32>)
    ensures before == Err(UninitializedProperty("kernelShape"))
    ensures after == Ok(832)
  {
    var layer := new DepthwiseConv2D(32, [5, 5], [1, 1], padding := SAME);
    before := layer.GetParams();
    assert [5, 5][1..] == [5] && [5][1..] == [];
    var outcome := layer.DefineVariables([-1, 28, 28, 1]);
    after := layer.GetParams();
  }
}
