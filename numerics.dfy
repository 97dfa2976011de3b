/** Two's-complement arithmetic of the JVM, as Kotlin's `Int` and `Long` perform it.

    Mathematical integers are unbounded; every place where the layers convert a `Long`
    to an `Int` (`toInt()`) or let a product or difference of `Int`s or `Long`s overflow
    is written with `Wrap32` or `Wrap64` below. */
module Numerics {

  const INT_MODULUS: int := 0x1_0000_0000
  const LONG_MODULUS: int := 0x1_0000_0000_0000_0000

  predicate InInt32(x: int) { -0x8000_0000 <= x <= 0x7fff_ffff }
  predicate InInt64(x: int) { -0x8000_0000_0000_0000 <= x <= 0x7fff_ffff_ffff_ffff }

  /** Kotlin `Int`. */
  type Int32 = x: int | InInt32(x)

  /** Kotlin `Long`. */
  type Int64 = x: int | InInt64(x)

  /** x and y leave the same remainder modulo 2^32. */
  predicate Congruent32(x: int, y: int) { (x - y) % INT_MODULUS == 0 }

  /** x and y leave the same remainder modulo 2^64. */
  predicate Congruent64(x: int, y: int) { (x - y) % LONG_MODULUS == 0 }

  /** The one `Int` that is congruent to x modulo 2^32: what `toInt()` makes of a `Long`,
      and what an overflowing `Int` operation leaves. */
  function Wrap32(x: int): (r: Int32)
    ensures Congruent32(x, r)
    ensures InInt32(x) ==> r == x
  {
    (x + 0x8000_0000) % INT_MODULUS - 0x8000_0000
  }

  /** The one `Long` that is congruent to x modulo 2^64: what an overflowing `Long`
      operation leaves. */
  function Wrap64(x: int): (r: Int64)
    ensures Congruent64(x, r)
    ensures InInt64(x) ==> r == x
  {
    (x + 0x8000_0000_0000_0000) % LONG_MODULUS - 0x8000_0000_0000_0000
  }

  /** `a * b` on two `Long`s. */
  function LongTimes(a: Int64, b: Int64): Int64 { Wrap64(a * b) }

  /** `a - b` on two `Long`s (an `Int` operand is widened first, which changes nothing). */
  function LongMinus(a: Int64, b: Int64): Int64 { Wrap64(a - b) }

  /** `a + b` on two `Long`s. */
  function LongPlus(a: Int64, b: Int64): Int64 { Wrap64(a + b) }

  /** `a - b` on two `Int`s. */
  function IntMinus(a: Int32, b: Int32): Int32 { Wrap32(a - b) }

  /** An `Int` is determined by its remainder modulo 2^32. */
  lemma Wrap32Unique(x: int, y: int)
    requires InInt32(y) && Congruent32(x, y)
    ensures Wrap32(x) == y
  {
    var r := Wrap32(x);
    var q1 := (x - r) / INT_MODULUS;
    var q2 := (x - y) / INT_MODULUS;
    assert x - r == INT_MODULUS * q1;
    assert x - y == INT_MODULUS * q2;
    assert r - y == INT_MODULUS * (q2 - q1);
  }

  /** A `Long` is determined by its remainder modulo 2^64. */
  lemma Wrap64Unique(x: int, y: int)
    requires InInt64(y) && Congruent64(x, y)
    ensures Wrap64(x) == y
  {
    var r := Wrap64(x);
    var q1 := (x - r) / LONG_MODULUS;
    var q2 := (x - y) / LONG_MODULUS;
    assert x - r == LONG_MODULUS * q1;
    assert x - y == LONG_MODULUS * q2;
    assert r - y == LONG_MODULUS * (q2 - q1);
  }

  lemma Congruent32Trans(x: int, y: int, z: int)
    requires Congruent32(x, y) && Congruent32(y, z)
    ensures Congruent32(x, z)
  {
    var q1 := (x - y) / INT_MODULUS;
    var q2 := (y - z) / INT_MODULUS;
    assert x - y == INT_MODULUS * q1;
    assert y - z == INT_MODULUS * q2;
    assert x - z == INT_MODULUS * (q1 + q2);
  }

  lemma Congruent64Trans(x: int, y: int, z: int)
    requires Congruent64(x, y) && Congruent64(y, z)
    ensures Congruent64(x, z)
  {
    var q1 := (x - y) / LONG_MODULUS;
    var q2 := (y - z) / LONG_MODULUS;
    assert x - y == LONG_MODULUS * q1;
    assert y - z == LONG_MODULUS * q2;
    assert x - z == LONG_MODULUS * (q1 + q2);
  }

  /** Agreeing modulo 2^64 implies agreeing modulo 2^32. */
  lemma Congruent64To32(x: int, y: int)
    requires Congruent64(x, y)
    ensures Congruent32(x, y)
  {
    var q := (x - y) / LONG_MODULUS;
    assert x - y == LONG_MODULUS * q;
    assert x - y == INT_MODULUS * (INT_MODULUS * q);
  }

  /** Congruence modulo 2^32 survives adding the same number to both sides. */
  lemma Congruent32Plus(x: int, y: int, c: int)
    requires Congruent32(x, y)
    ensures Congruent32(x + c, y + c)
  {
  }

  /** Congruence modulo 2^64 survives adding the same number to both sides. */
  lemma Congruent64Plus(x: int, y: int, c: int)
    requires Congruent64(x, y)
    ensures Congruent64(x + c, y + c)
  {
  }

  /** Congruence modulo 2^64 survives multiplying both sides by the same number. */
  lemma Congruent64Times(x: int, y: int, c: int)
    requires Congruent64(x, y)
    ensures Congruent64(x * c, y * c)
  {
    var q := (x - y) / LONG_MODULUS;
    assert x - y == LONG_MODULUS * q;
    calc {
      x * c - y * c;
      (x - y) * c;
      (LONG_MODULUS * q) * c;
      LONG_MODULUS * (q * c);
    }
  }

  /** Converting a `Long` result to `Int` loses nothing compared with converting the exact
      value: the low 32 bits do not depend on how often the `Long` wrapped. */
  lemma Wrap32OfWrap64(x: int)
    ensures Wrap32(Wrap64(x)) == Wrap32(x)
  {
    Congruent64To32(x, Wrap64(x));
    Wrap32Congruent(x, Wrap64(x));
  }

  /** Two `Long` multiplications in a row, `a * b * c`, agree with the exact product modulo 2^64. */
  lemma LongTimesTwice(a: Int64, b: Int64, c: Int64)
    ensures LongTimes(LongTimes(a, b), c) == Wrap64(a * b * c)
  {
    var ab := LongTimes(a, b);
    Congruent64Times(a * b, ab, c);
    Wrap64Congruent(a * b * c, ab * c);
  }

  /** Two `Int` subtractions in a row, `a - b - c`, agree with the exact difference modulo 2^32. */
  lemma IntMinusTwice(a: Int32, b: Int32, c: Int32)
    ensures IntMinus(IntMinus(a, b), c) == Wrap32(a - b - c)
  {
    var ab := IntMinus(a, b);
    Congruent32Plus(a - b, ab, -(c as int));
    Wrap32Congruent(a - b - c, ab - c);
  }

  /** Two `Long` subtractions in a row, `a - b - c`, agree with the exact difference modulo 2^64. */
  lemma LongMinusTwice(a: Int64, b: Int64, c: Int64)
    ensures LongMinus(LongMinus(a, b), c) == Wrap64(a - b - c)
  {
    var ab := LongMinus(a, b);
    Congruent64Plus(a - b, ab, -(c as int));
    Wrap64Congruent(a - b - c, ab - c);
  }

  /** Adding two `Long`s that each wrapped, and converting the sum to `Int`, gives the low
      32 bits of the exact sum. */
  lemma LongPlusToInt(x: int, y: int)
    ensures Wrap32(LongPlus(Wrap64(x), Wrap64(y))) == Wrap32(x + y)
  {
    var a: int, b: int := Wrap64(x), Wrap64(y);
    assert Congruent64(x + y, a + b) by {
      Congruent64Plus(x, a, y);
      Congruent64Plus(y, b, a);
      Congruent64Trans(x + y, a + y, a + b);
    }
    Wrap32OfWrap64(a + b);
    Congruent64To32(x + y, a + b);
    Wrap32Congruent(x + y, a + b);
  }

  lemma MulAssociative(a: int, b: int, c: int)
    ensures a * (b * c) == a * b * c
  {
  }

  /** `Wrap64` depends only on the remainder modulo 2^64. */
  lemma Wrap64Congruent(x: int, y: int)
    requires Congruent64(x, y)
    ensures Wrap64(x) == Wrap64(y)
  {
    Congruent64Trans(x, y, Wrap64(y));
    Wrap64Unique(x, Wrap64(y));
  }

  /** `Wrap32` depends only on the remainder modulo 2^32. */
  lemma Wrap32Congruent(x: int, y: int)
    requires Congruent32(x, y)
    ensures Wrap32(x) == Wrap32(y)
  {
    Congruent32Trans(x, y, Wrap32(y));
    Wrap32Unique(x, Wrap32(y));
  }
}
