/**
 * The node-label codec `GetUsearchLabel` of src/hnsw/utils.c: a zeroed
 * 64-bit `usearch_label_t` into whose first six bytes of storage the six
 * bytes of a row's `ItemPointerData` are copied.
 *
 * The label is modelled as its eight bytes of storage, which is the same on
 * every host; `LabelValue` reads them as the little-endian number they are on
 * the hosts the engine runs on. An item pointer is modelled by its six-byte
 * image; `Image` lays out its three 16-bit fields (block number high and low
 * halves, then the line offset) in little-endian order.
 */
module LabelCodec {
  import opened CString

  const ItemPointerSize: nat := 6
  const LabelSize: nat := 8

  /** The in-memory image of an `ItemPointerData`. */
  type ItemPointerBytes = s: seq<byte> | |s| == ItemPointerSize
    witness [0, 0, 0, 0, 0, 0]

  /** The storage of a `usearch_label_t`. */
  type LabelBytes = s: seq<byte> | |s| == LabelSize
    witness [0, 0, 0, 0, 0, 0, 0, 0]

  /** `label = 0; memcpy(&label, itemPtr, 6)`. */
  function GetUsearchLabel(item: ItemPointerBytes): (encoded: LabelBytes)
    ensures encoded[..ItemPointerSize] == item
    ensures forall i :: ItemPointerSize <= i < LabelSize ==> encoded[i] == 0
  {
    item + [0, 0]
  }

  /** The number a byte sequence denotes when read least significant byte first. */
  function LittleEndian(s: seq<byte>): nat
  {
    if s == [] then 0 else s[0] as nat + 256 * LittleEndian(s[1..])
  }

  /** The value of a label on a little-endian host. */
  function LabelValue(encoded: LabelBytes): nat
  {
    LittleEndian(encoded)
  }

  function Pow256(n: nat): (p: nat)
    ensures p > 0
  {
    if n == 0 then 1 else 256 * Pow256(n - 1)
  }

  /** The first six bytes of the label are the item pointer's bytes; the top two are zero. */
  lemma LabelLayout(item: ItemPointerBytes)
    ensures GetUsearchLabel(item)[..ItemPointerSize] == item
    ensures GetUsearchLabel(item)[6] == 0 && GetUsearchLabel(item)[7] == 0
  {
  }

  /** A byte sequence of length n reads as a number below 256^n. */
  lemma {:induction false} LittleEndianBound(s: seq<byte>)
    ensures LittleEndian(s) < Pow256(|s|)
  {
    if s != [] {
      LittleEndianBound(s[1..]);
    }
  }

  /** Trailing zero bytes do not change the value. */
  lemma {:induction false} LittleEndianZeroExtend(s: seq<byte>, zeros: seq<byte>)
    requires forall i :: 0 <= i < |zeros| ==> zeros[i] == 0
    ensures LittleEndian(s + zeros) == LittleEndian(s)
  {
    if s == [] {
      assert s + zeros == zeros;
      LittleEndianZeros(zeros);
    } else {
      assert (s + zeros)[1..] == s[1..] + zeros;
      LittleEndianZeroExtend(s[1..], zeros);
    }
  }

  lemma {:induction false} LittleEndianZeros(zeros: seq<byte>)
    requires forall i :: 0 <= i < |zeros| ==> zeros[i] == 0
    ensures LittleEndian(zeros) == 0
  {
    if zeros != [] {
      LittleEndianZeros(zeros[1..]);
    }
  }

  /** The label's value is the item pointer's six bytes read as a number, so it is below 2^48. */
  lemma LabelBelow2To48(item: ItemPointerBytes)
    ensures LabelValue(GetUsearchLabel(item)) == LittleEndian(item)
    ensures LabelValue(GetUsearchLabel(item)) < 0x1_0000_0000_0000
  {
    LittleEndianZeroExtend(item, [0, 0]);
    LittleEndianBound(item);
  }

  /** Two byte sequences of one length with one value are the same sequence. */
  lemma {:induction false} LittleEndianInjective(s: seq<byte>, t: seq<byte>)
    requires |s| == |t| && LittleEndian(s) == LittleEndian(t)
    ensures s == t
  {
    if s != [] {
      assert s[0] as nat == LittleEndian(s) % 256;
      assert t[0] as nat == LittleEndian(t) % 256;
      LittleEndianInjective(s[1..], t[1..]);
      assert s == [s[0]] + s[1..];
      assert t == [t[0]] + t[1..];
    }
  }

  /** Distinct item pointers get distinct labels, as byte strings and as numbers. */
  lemma LabelInjective(a: ItemPointerBytes, b: ItemPointerBytes)
    requires a != b
    ensures GetUsearchLabel(a) != GetUsearchLabel(b)
    ensures LabelValue(GetUsearchLabel(a)) != LabelValue(GetUsearchLabel(b))
  {
    LabelLayout(a);
    LabelLayout(b);
    if LabelValue(GetUsearchLabel(a)) == LabelValue(GetUsearchLabel(b)) {
      LittleEndianInjective(GetUsearchLabel(a), GetUsearchLabel(b));
      assert false;
    }
  }

  /** The `n` bytes, least significant first, of a number below 256^n. */
  function ToLittleEndian(v: nat, n: nat): (s: seq<byte>)
    requires v < Pow256(n)
    ensures |s| == n && LittleEndian(s) == v
  {
    if n == 0 then []
    else [(v % 256) as byte] + ToLittleEndian(v / 256, n - 1)
  }

  /**
   * The codec loses nothing: reading the label's value back as six bytes gives
   * the item pointer's image. (The source has no decoder; this one is only the
   * witness of losslessness.)
   */
  lemma LabelRoundTrip(item: ItemPointerBytes)
    ensures LabelValue(GetUsearchLabel(item)) < Pow256(ItemPointerSize)
    ensures ToLittleEndian(LabelValue(GetUsearchLabel(item)), ItemPointerSize) == item
  {
    LabelBelow2To48(item);
    var back := ToLittleEndian(LabelValue(GetUsearchLabel(item)), ItemPointerSize);
    LittleEndianInjective(back, item);
  }

  /** A row identifier: the block number as two 16-bit halves, and the line offset. */
  datatype ItemPointer = ItemPointer(blockHi: nat, blockLo: nat, offset: nat)

  predicate ValidItemPointer(ip: ItemPointer) {
    ip.blockHi < 0x1_0000 && ip.blockLo < 0x1_0000 && ip.offset < 0x1_0000
  }

  /** The storage of an item pointer on a little-endian host. */
  function Image(ip: ItemPointer): (s: ItemPointerBytes)
    requires ValidItemPointer(ip)
  {
    ToLittleEndian(ip.blockHi, 2) + ToLittleEndian(ip.blockLo, 2) + ToLittleEndian(ip.offset, 2)
  }

  /** On a little-endian host the label is block-hi + 2^16 * block-lo + 2^32 * offset. */
  lemma {:induction false} LabelOfItemPointer(ip: ItemPointer)
    requires ValidItemPointer(ip)
    ensures LabelValue(GetUsearchLabel(Image(ip)))
         == ip.blockHi + 0x1_0000 * ip.blockLo + 0x1_0000_0000 * ip.offset
  {
    var hi, lo, off := ToLittleEndian(ip.blockHi, 2), ToLittleEndian(ip.blockLo, 2), ToLittleEndian(ip.offset, 2);
    LabelBelow2To48(Image(ip));
    LittleEndianAppend(hi, lo + off);
    LittleEndianAppend(lo, off);
    assert hi + lo + off == hi + (lo + off);
  }

  lemma {:induction false} LittleEndianAppend(s: seq<byte>, t: seq<byte>)
    ensures LittleEndian(s + t) == LittleEndian(s) + Pow256(|s|) * LittleEndian(t)
  {
    if s == [] {
      assert s + t == t;
    } else {
      assert (s + t)[1..] == s[1..] + t;
      LittleEndianAppend(s[1..], t);
      var rest, p, v := LittleEndian(s[1..]), Pow256(|s| - 1), LittleEndian(t);
      assert LittleEndian(s + t) == s[0] as nat + 256 * (rest + p * v);
      ShiftByte(s[0] as nat, rest, p, v);
    }
  }

  /** Distinct valid row identifiers have distinct images. */
  lemma ImageInjective(a: ItemPointer, b: ItemPointer)
    requires ValidItemPointer(a) && ValidItemPointer(b) && a != b
    ensures Image(a) != Image(b)
  {
    var ia, ib := Image(a), Image(b);
    if a.blockHi != b.blockHi {
      assert ia[0..2] == ToLittleEndian(a.blockHi, 2) && ib[0..2] == ToLittleEndian(b.blockHi, 2);
      assert ia[0..2] != ib[0..2];
    } else if a.blockLo != b.blockLo {
      assert ia[2..4] == ToLittleEndian(a.blockLo, 2) && ib[2..4] == ToLittleEndian(b.blockLo, 2);
      assert ia[2..4] != ib[2..4];
    } else {
      assert ia[4..6] == ToLittleEndian(a.offset, 2) && ib[4..6] == ToLittleEndian(b.offset, 2);
      assert ia[4..6] != ib[4..6];
    }
  }

  lemma ShiftByte(b: nat, rest: nat, p: nat, v: nat)
    ensures b + 256 * (rest + p * v) == (b + 256 * rest) + (256 * p) * v
  {
  }

  /** Distinct valid row identifiers get distinct labels. */
  lemma ItemPointerLabelInjective(a: ItemPointer, b: ItemPointer)
    requires ValidItemPointer(a) && ValidItemPointer(b) && a != b
    ensures GetUsearchLabel(Image(a)) != GetUsearchLabel(Image(b))
    ensures LabelValue(GetUsearchLabel(Image(a))) != LabelValue(GetUsearchLabel(Image(b)))
  {
    ImageInjective(a, b);
    LabelInjective(Image(a), Image(b));
  }
}
