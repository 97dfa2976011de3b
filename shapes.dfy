/** Shapes, element counts and the failures the layers can raise. */
module Shapes {
  import opened Numerics

  datatype Option<+T> = None | Some(value: T)

  /** The JVM exceptions the two layers can raise, as values. */
  datatype Error =
    | IllegalArgument(message: string)       // `require(...)` failing, or `roundToInt()` of NaN
    | IndexOutOfBounds(index: int)           // an index into a `Shape` or a `LongArray` outside it
    | UninitializedProperty(property: string) // a `lateinit` property read before it was assigned
    | NotImplemented                         // Kotlin's `TODO()`

  datatype Result<+T> = Ok(value: T) | Err(error: Error)

  /** The outcome of an operation that returns nothing and may throw. */
  datatype Outcome = Pass | Fail(error: Error)

  /** A tensor shape: one `Long` extent per axis; the batch axis may hold -1 (unknown). */
  type Shape = seq<Int64>

  /** The exact number of elements of a tensor whose extents are s. */
  function Product(s: seq<int>): int
  {
    if s == [] then 1 else s[0] * Product(s[1..])
  }

  /** Element counts multiply when shapes are concatenated. */
  lemma {:induction false} ProductAppend(a: seq<int>, b: seq<int>)
    ensures Product(a + b) == Product(a) * Product(b)
  {
    if a == [] {
      assert a + b == b;
    } else {
      assert (a + b)[0] == a[0];
      assert (a + b)[1..] == a[1..] + b;
      ProductAppend(a[1..], b);
      calc {
        Product(a + b);
        a[0] * Product(a[1..] + b);
        a[0] * (Product(a[1..]) * Product(b));
        (a[0] * Product(a[1..])) * Product(b);
        Product(a) * Product(b);
      }
    }
  }

  /** The element count of a shape of one extent is that extent. */
  lemma ProductSingleton(x: int)
    ensures Product([x]) == x
  {
    assert [x][1..] == [];
  }

  /** The element count of a shape of two extents is their product. */
  lemma ProductPair(x: int, y: int)
    ensures Product([x, y]) == x * y
  {
    assert [x, y][1..] == [y];
    ProductSingleton(y);
  }

  /** `numElementsInShape` of a shape: the product of its extents, computed in `Long`. */
  function NumElementsInShape(s: Shape): (r: Int64)
    ensures InInt64(Product(s)) ==> r == Product(s)
  {
    Wrap64(Product(s))
  }
}
