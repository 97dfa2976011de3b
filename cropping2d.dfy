/** The `Cropping2D` layer: it removes rows from the top and bottom and columns from the
    left and right of a batch of images laid out as `[batch, height, width, channels]`.

    The model treats the layer as fixed after construction, so it is a datatype; the checks of
    its `init` block are the smart constructor `NewCropping2D`, and the subset type
    `ValidCropping2D` holds exactly the layers that constructor can return. */
module Cropping2DLayer {
  import opened Numerics
  import opened Shapes

  const CROPPING_SIZE_MESSAGE := "The cropping should be an array of size 2."
  const CROPPING_ELEMENT_SIZE_MESSAGE := "All elements of cropping should be arrays of size 2."

  /** The cropping holds one (start, end) pair for the height axis and one for the width axis. */
  predicate IsCroppingSpec(cropping: seq<seq<Int32>>)
  {
    |cropping| == 2 && |cropping[0]| == 2 && |cropping[1]| == 2
  }

  datatype Cropping2D = Cropping2D(cropping: seq<seq<Int32>>, name: string)
  {
    predicate Valid() { IsCroppingSpec(cropping) }

    /** Rows removed from the top. */
    function Top(): Int32 requires Valid() { cropping[0][0] }
    /** Rows removed from the bottom. */
    function Bottom(): Int32 requires Valid() { cropping[0][1] }
    /** Columns removed from the left. */
    function Left(): Int32 requires Valid() { cropping[1][0] }
    /** Columns removed from the right. */
    function Right(): Int32 requires Valid() { cropping[1][1] }
  }

  type ValidCropping2D = c: Cropping2D | c.Valid() witness Cropping2D([[0, 0], [0, 0]], "")

  /** Construction: the cropping must be two arrays of two numbers each. Nothing requires
      the numbers to be non-negative or to fit the input. */
  function NewCropping2D(cropping: seq<seq<Int32>>, name: string := ""): (r: Result<ValidCropping2D>)
    ensures r.Ok? <==> IsCroppingSpec(cropping)
    ensures r.Ok? ==> r.value.cropping == cropping && r.value.name == name
    ensures |cropping| != 2 ==> r == Err(IllegalArgument(CROPPING_SIZE_MESSAGE))
    ensures |cropping| == 2 && !IsCroppingSpec(cropping) ==>
              r == Err(IllegalArgument(CROPPING_ELEMENT_SIZE_MESSAGE))
  {
    if |cropping| != 2 then
      Err(IllegalArgument(CROPPING_SIZE_MESSAGE))
    else if !(|cropping[0]| == 2 && |cropping[1]| == 2) then
      Err(IllegalArgument(CROPPING_ELEMENT_SIZE_MESSAGE))
    else
      Ok(Cropping2D(cropping, name))
  }

  /** `computeCroppedShape`: the shape of the cropped batch, in `Long` arithmetic.
      An input of rank below 4 fails on the first missing axis; axes past the fourth are
      dropped. */
  function ComputeCroppedShape(layer: ValidCropping2D, inputShape: Shape): (r: Result<Shape>)
    ensures r.Ok? <==> |inputShape| >= 4
    ensures r.Err? ==> r.error == IndexOutOfBounds(|inputShape|)
    ensures r.Ok? ==> |r.value| == 4
    ensures r.Ok? ==> r.value[0] == inputShape[0] && r.value[3] == inputShape[3]
    ensures r.Ok? ==> r.value[1] == Wrap64(inputShape[1] - layer.Top() - layer.Bottom())
    ensures r.Ok? ==> r.value[2] == Wrap64(inputShape[2] - layer.Left() - layer.Right())
    ensures r.Ok? && InInt64(inputShape[1] - layer.Top() - layer.Bottom()) ==>
              r.value[1] == inputShape[1] - layer.Top() - layer.Bottom()
    ensures r.Ok? && InInt64(inputShape[2] - layer.Left() - layer.Right()) ==>
              r.value[2] == inputShape[2] - layer.Left() - layer.Right()
  {
    if |inputShape| < 4 then
      Err(IndexOutOfBounds(|inputShape|))
    else
      LongMinusTwice(inputShape[1], layer.Top(), layer.Bottom());
      LongMinusTwice(inputShape[2], layer.Left(), layer.Right());
      Ok([inputShape[0],
          LongMinus(LongMinus(inputShape[1], layer.Top()), layer.Bottom()),
          LongMinus(LongMinus(inputShape[2], layer.Left()), layer.Right()),
          inputShape[3]])
  }

  /** The `begin` and `size` vectors handed to the engine's slice operation. A size of -1
      on an axis means "everything from begin on". */
  datatype SliceArgs = SliceArgs(begin: seq<Int32>, size: seq<Int32>)

  /** The slice arguments that `crop` builds from the input's shape, in `Int` arithmetic.
      `crop` reads the height and width extents first, so a missing axis below 3 fails on
      axis 1 or 2, and a missing fourth axis fails on axis 3. */
  function Crop(layer: ValidCropping2D, inputShape: Shape): (r: Result<SliceArgs>)
    ensures r.Ok? <==> |inputShape| >= 4
    ensures r.Err? ==> r.error == IndexOutOfBounds(if |inputShape| <= 1 then 1 else |inputShape|)
    ensures r.Ok? ==> r.value.begin == [0, layer.Top(), layer.Left(), 0]
    ensures r.Ok? ==> |r.value.size| == 4
    ensures r.Ok? ==> r.value.size[0] == Wrap32(inputShape[0]) && r.value.size[3] == Wrap32(inputShape[3])
    ensures r.Ok? ==> r.value.size[1] == Wrap32(inputShape[1] - layer.Top() - layer.Bottom())
    ensures r.Ok? ==> r.value.size[2] == Wrap32(inputShape[2] - layer.Left() - layer.Right())
  {
    if |inputShape| <= 1 then
      Err(IndexOutOfBounds(1))
    else if |inputShape| == 2 then
      Err(IndexOutOfBounds(2))
    else
      var height := IntMinus(IntMinus(Wrap32(inputShape[1]), layer.Top()), layer.Bottom());
      var width := IntMinus(IntMinus(Wrap32(inputShape[2]), layer.Left()), layer.Right());
      if |inputShape| == 3 then
        Err(IndexOutOfBounds(3))
      else
        CropExtent(inputShape[1], layer.Top(), layer.Bottom());
        CropExtent(inputShape[2], layer.Left(), layer.Right());
        Ok(SliceArgs([0, layer.Top(), layer.Left(), 0],
                     [Wrap32(inputShape[0]), height, width, Wrap32(inputShape[3])]))
  }

  /** `extent.toInt() - start - end` in `Int` arithmetic is the low 32 bits of the exact
      difference. */
  lemma CropExtent(extent: Int64, start: Int32, end: Int32)
    ensures IntMinus(IntMinus(Wrap32(extent), start), end) == Wrap32(extent - start - end)
  {
    IntMinusTwice(Wrap32(extent), start, end);
    Congruent32Plus(extent, Wrap32(extent), -(start as int) - end);
    Wrap32Congruent(extent - start - end, Wrap32(extent) - start - end);
  }

  /** On the two cropped axes the slice size is the cropped shape's extent converted to
      `Int`; the two agree exactly when that extent fits in an `Int`. */
  lemma CropSizeIsCroppedExtent(layer: ValidCropping2D, inputShape: Shape)
    requires |inputShape| >= 4
    ensures Crop(layer, inputShape).value.size[1] == Wrap32(ComputeCroppedShape(layer, inputShape).value[1])
    ensures Crop(layer, inputShape).value.size[2] == Wrap32(ComputeCroppedShape(layer, inputShape).value[2])
    ensures InInt32(ComputeCroppedShape(layer, inputShape).value[1]) ==>
              Crop(layer, inputShape).value.size[1] == ComputeCroppedShape(layer, inputShape).value[1]
    ensures InInt32(ComputeCroppedShape(layer, inputShape).value[2]) ==>
              Crop(layer, inputShape).value.size[2] == ComputeCroppedShape(layer, inputShape).value[2]
  {
    var h := inputShape[1] - layer.Top() - layer.Bottom();
    var w := inputShape[2] - layer.Left() - layer.Right();
    var shape := ComputeCroppedShape(layer, inputShape).value;
    var size := Crop(layer, inputShape).value.size;
    assert shape[1] == Wrap64(h) && shape[2] == Wrap64(w);
    assert size[1] == Wrap32(h) && size[2] == Wrap32(w);
    Wrap32OfWrap64(h);
    Wrap32OfWrap64(w);
  }

  /** An axis sliced from `start` with size `extent - start - end` (as an `Int`) ends at
      `extent - end`, modulo 2^32 always and exactly when the size fits in an `Int`. */
  lemma SliceEnd(extent: int, start: Int32, end: Int32)
    ensures Wrap32(start + Wrap32(extent - start - end)) == Wrap32(extent - end)
    ensures InInt32(extent - start - end) ==> start + Wrap32(extent - start - end) == extent - end
  {
    var size := Wrap32(extent - start - end);
    Congruent32Plus(extent - start - end, size, start);
    Wrap32Congruent(extent - end, size + start);
  }

  /** On the two cropped axes the slice ends exactly `end` elements before the input's
      extent: `begin + size == extent - end`, modulo 2^32 always, and exactly when the
      cropped extent fits in an `Int`. */
  lemma CropEndsBeforeEndCrop(layer: ValidCropping2D, inputShape: Shape)
    requires |inputShape| >= 4
    ensures Wrap32((Crop(layer, inputShape).value.begin[1] as int) + Crop(layer, inputShape).value.size[1])
              == Wrap32(inputShape[1] - layer.Bottom())
    ensures Wrap32((Crop(layer, inputShape).value.begin[2] as int) + Crop(layer, inputShape).value.size[2])
              == Wrap32(inputShape[2] - layer.Right())
    ensures InInt32(inputShape[1] - layer.Top() - layer.Bottom()) ==>
              (Crop(layer, inputShape).value.begin[1] as int) + Crop(layer, inputShape).value.size[1]
                == inputShape[1] - layer.Bottom()
    ensures InInt32(inputShape[2] - layer.Left() - layer.Right()) ==>
              (Crop(layer, inputShape).value.begin[2] as int) + Crop(layer, inputShape).value.size[2]
                == inputShape[2] - layer.Right()
  {
    var args := Crop(layer, inputShape).value;
    assert args.size[1] == Wrap32(inputShape[1] - layer.Top() - layer.Bottom());
    assert args.size[2] == Wrap32(inputShape[2] - layer.Left() - layer.Right());
    SliceEnd(inputShape[1], layer.Top(), layer.Bottom());
    SliceEnd(inputShape[2], layer.Left(), layer.Right());
  }
}
