/**
 * The vector normaliser `ToFloat4Array` of src/hnsw/utils.c: turns a SQL
 * array of `real` or `integer` elements into the `float4` buffer the engine
 * reads.
 *
 * An array's data area is an `array<Word>` of 4-byte element images, so a
 * `real[]` array can be handed out by identity (the source returns the data
 * pointer itself). The `int32`-to-`float4` conversion C performs on
 * assignment is the parameter `toFloat4`, any total function: the model is
 * about count, order, aliasing and errors, not about rounding.
 */
module Normaliser {

  /** Type OIDs from the system catalog (`pg_type`). */
  const INT4OID: int := 23
  const FLOAT4OID: int := 700

  /** A 4-byte element image: an `int32` or a `float4` bit pattern. */
  newtype Word = x: int | 0 <= x < 0x1_0000_0000

  /** The parts of an `ArrayType` the normaliser reads: element type, dimensions, data area. */
  datatype ArrayType = ArrayType(elemType: int, dims: seq<nat>, data: array<Word>)

  /** `ArrayGetNItems`: no dimensions means no items, otherwise the product of the extents. */
  function NItems(dims: seq<nat>): nat
  {
    if dims == [] then 0 else Product(dims)
  }

  function Product(dims: seq<nat>): nat
  {
    if dims == [] then 1 else dims[0] * Product(dims[1..])
  }

  /** The data area of a `real[]` or `integer[]` array holds one word per element. */
  predicate WellFormed(arr: ArrayType) {
    arr.elemType == INT4OID || arr.elemType == FLOAT4OID ==> arr.data.Length == NItems(arr.dims)
  }

  /** A word read as a two's-complement `int32`. */
  function AsInt32(w: Word): (v: int)
    ensures -0x8000_0000 <= v < 0x8000_0000
    ensures v % 0x1_0000_0000 == w as int
    ensures v < 0 <==> w >= 0x8000_0000
  {
    if w < 0x8000_0000 then w as int else w as int - 0x1_0000_0000
  }

  /** The element-by-element conversion of `int32` images, in order. */
  function Converted(src: seq<Word>, toFloat4: int -> Word): (dst: seq<Word>)
    ensures |dst| == |src|
  {
    if src == [] then []
    else Converted(src[..|src| - 1], toFloat4) + [toFloat4(AsInt32(src[|src| - 1]))]
  }

  /** The conversion keeps the count and converts element i into position i. */
  lemma {:induction false} ConvertedAt(src: seq<Word>, toFloat4: int -> Word, i: nat)
    requires i < |src|
    ensures |Converted(src, toFloat4)| == |src|
    ensures Converted(src, toFloat4)[i] == toFloat4(AsInt32(src[i]))
  {
    if i < |src| - 1 {
      ConvertedAt(src[..|src| - 1], toFloat4, i);
    }
  }

  datatype Float4Result =
    | Float4Array(values: array<Word>)   // the float4 buffer the caller hands to the engine
    | UnsupportedType(elemType: int)     // elog(ERROR, "unsupported element type: %d", ...)

  method ToFloat4Array(arr: ArrayType, toFloat4: int -> Word) returns (r: Float4Result)
    requires WellFormed(arr)
    ensures arr.elemType == FLOAT4OID ==> r == Float4Array(arr.data)
    ensures arr.elemType == INT4OID ==>
              && r.Float4Array? && fresh(r.values)
              && r.values[..] == Converted(arr.data[..], toFloat4)
    ensures arr.elemType != FLOAT4OID && arr.elemType != INT4OID ==> r == UnsupportedType(arr.elemType)
  {
    var elementType := arr.elemType;
    if elementType == FLOAT4OID {
      return Float4Array(arr.data);
    } else if elementType == INT4OID {
      var arrDim := NItems(arr.dims);
      var result := new Word[arrDim];
      for i := 0 to arrDim
        invariant result[..i] == Converted(arr.data[..i], toFloat4)
      {
        result[i] := toFloat4(AsInt32(arr.data[i]));
        assert arr.data[..i + 1][..i] == arr.data[..i];
        assert result[..i + 1] == result[..i] + [result[i]];
      }
      assert result[..] == result[..arrDim];
      assert arr.data[..] == arr.data[..arrDim];
      return Float4Array(result);
    } else {
      return UnsupportedType(elementType);
    }
  }
}
