/** Bytes and the little-endian integer encodings that `struct.pack` produces
    for the format characters `B`, `H`, `I`, `Q` (unsigned) and `h` (signed). */
module LittleEndian {

  /** One octet of a binary message. */
  type Byte = b: int | 0 <= b < 256

  type Bytes = seq<Byte>

  const U16Limit: nat := 0x1_0000
  const U32Limit: nat := 0x1_0000_0000
  const U64Limit: nat := 0x1_0000_0000_0000_0000

  /** The number of distinct values an n-byte unsigned field can hold. */
  function Pow256(n: nat): (r: nat)
    ensures r > 0
  {
    if n == 0 then 1 else 256 * Pow256(n - 1)
  }

  lemma PowLimits()
    ensures Pow256(2) == U16Limit && Pow256(4) == U32Limit && Pow256(8) == U64Limit
  {
  }

  /** `x` as `n` bytes, least significant first. */
  function LE(x: nat, n: nat): (r: Bytes)
    requires x < Pow256(n)
    ensures |r| == n
  {
    if n == 0 then [] else [x % 256] + LE(x / 256, n - 1)
  }

  /** The unsigned value of bytes stored least significant first. */
  function FromLE(b: Bytes): (x: nat)
    ensures x < Pow256(|b|)
  {
    if b == [] then 0 else b[0] + 256 * FromLE(b[1..])
  }

  /** Decoding an encoded value gives the value back. */
  lemma {:induction false} FromLEOfLE(x: nat, n: nat)
    requires x < Pow256(n)
    ensures FromLE(LE(x, n)) == x
  {
    if n > 0 {
      FromLEOfLE(x / 256, n - 1);
      assert LE(x, n)[1..] == LE(x / 256, n - 1);
    }
  }

  /** Encoding a decoded value at the same width gives the bytes back: the
      encoding is a bijection between `[0, 256^n)` and the n-byte strings. */
  lemma {:induction false} LEOfFromLE(b: Bytes)
    ensures LE(FromLE(b), |b|) == b
  {
    if b != [] {
      var x := FromLE(b);
      assert x % 256 == b[0] && x / 256 == FromLE(b[1..]);
      LEOfFromLE(b[1..]);
    }
  }

  /** Two equally wide encodings are equal exactly when the values are. */
  lemma LEInjective(x: nat, y: nat, n: nat)
    requires x < Pow256(n) && y < Pow256(n)
    ensures LE(x, n) == LE(y, n) <==> x == y
  {
    FromLEOfLE(x, n);
    FromLEOfLE(y, n);
  }

  // ------------------------------------------------- fixed-layout records

  /** The widths in bytes of a record's unsigned fields, in order: the
      format `<IHH` is the layout `[4, 2, 2]`. */
  type Layout = seq<nat>

  function Size(layout: Layout): nat
  {
    if layout == [] then 0 else layout[0] + Size(layout[1..])
  }

  /** Every value fits the field that holds it. */
  predicate Fits(layout: Layout, values: seq<int>)
  {
    |values| == |layout| &&
    forall i :: 0 <= i < |layout| ==> 0 <= values[i] < Pow256(layout[i])
  }

  /** `struct.pack` for a little-endian format of unsigned fields. */
  function Pack(layout: Layout, values: seq<int>): (r: Bytes)
    requires Fits(layout, values)
    ensures |r| == Size(layout)
  {
    if layout == [] then []
    else LE(values[0], layout[0]) + Pack(layout[1..], values[1..])
  }

  /** `struct.unpack`: the fields of a record of exactly the layout's size. */
  function Unpack(layout: Layout, b: Bytes): (values: seq<nat>)
    requires |b| == Size(layout)
    ensures Fits(layout, values)
  {
    if layout == [] then []
    else [FromLE(b[..layout[0]])] + Unpack(layout[1..], b[layout[0]..])
  }

  /** The fields after the first fit the rest of the layout. */
  lemma FitsTail(layout: Layout, values: seq<int>)
    requires Fits(layout, values) && layout != []
    ensures Fits(layout[1..], values[1..])
  {
    forall i | 0 <= i < |layout| - 1
      ensures 0 <= values[1..][i] < Pow256(layout[1..][i])
    {
      assert values[1..][i] == values[i + 1] && layout[1..][i] == layout[i + 1];
    }
  }

  /** Unpacking a packed record gives back the values. */
  lemma {:induction false} UnpackPack(layout: Layout, values: seq<int>)
    requires Fits(layout, values)
    ensures Unpack(layout, Pack(layout, values)) == values
  {
    if layout != [] {
      var b := Pack(layout, values);
      FitsTail(layout, values);
      assert b[..layout[0]] == LE(values[0], layout[0]);
      assert b[layout[0]..] == Pack(layout[1..], values[1..]);
      FromLEOfLE(values[0], layout[0]);
      UnpackPack(layout[1..], values[1..]);
    }
  }

  /** Packing the unpacked values gives back the record: every record of the
      layout's size is the packing of exactly one list of values. */
  lemma {:induction false} PackUnpack(layout: Layout, b: Bytes)
    requires |b| == Size(layout)
    ensures Pack(layout, Unpack(layout, b)) == b
  {
    if layout != [] {
      LEOfFromLE(b[..layout[0]]);
      PackUnpack(layout[1..], b[layout[0]..]);
      assert b == b[..layout[0]] + b[layout[0]..];
    }
  }

  /** The fields behind field `i` fill the first `Size(layout[..i])` bytes. */
  lemma {:induction false} SizeSnoc(layout: Layout, i: nat)
    requires i < |layout|
    ensures Size(layout[..i + 1]) == Size(layout[..i]) + layout[i]
  {
    if i > 0 {
      assert layout[..i + 1][1..] == layout[1..][..i];
      assert layout[..i][1..] == layout[1..][..i - 1];
      SizeSnoc(layout[1..], i - 1);
    }
  }

  /** Field `i` of a packed record is the encoding of value `i` at that
      field's width, placed after the fields before it. */
  lemma {:induction false} PackField(layout: Layout, values: seq<int>, i: nat)
    requires Fits(layout, values) && i < |layout|
    ensures Size(layout[..i]) + layout[i] <= Size(layout)
    ensures Pack(layout, values)[Size(layout[..i])..Size(layout[..i]) + layout[i]]
         == LE(values[i], layout[i])
  {
    var head := LE(values[0], layout[0]);
    FitsTail(layout, values);
    var tail := Pack(layout[1..], values[1..]);
    assert Pack(layout, values) == head + tail;
    if i == 0 {
      assert layout[..0] == [];
    } else {
      PackField(layout[1..], values[1..], i - 1);
      assert layout[..i][1..] == layout[1..][..i - 1];
      var lo := Size(layout[1..][..i - 1]);
      assert (head + tail)[layout[0] + lo..layout[0] + lo + layout[i]] == tail[lo..lo + layout[i]];
    }
  }

  /** A value `struct.pack` accepts for the signed format `h`. */
  type Int16 = x: int | -0x8000 <= x < 0x8000

  /** `struct.pack("<h", x)`: two's complement in two bytes. */
  function I16LE(x: Int16): (r: Bytes)
    ensures |r| == 2
  {
    PowLimits();
    LE(if x < 0 then x + U16Limit else x, 2)
  }

  /** Reads two bytes as a two's-complement 16-bit value. */
  function FromI16LE(b: Bytes): (x: Int16)
    requires |b| == 2
  {
    PowLimits();
    var v := FromLE(b);
    if v >= 0x8000 then v - U16Limit else v
  }

  lemma I16RoundTrip(x: Int16)
    ensures FromI16LE(I16LE(x)) == x
  {
    PowLimits();
    FromLEOfLE(if x < 0 then x + U16Limit else x, 2);
  }

  lemma I16RoundTripBytes(b: Bytes)
    requires |b| == 2
    ensures I16LE(FromI16LE(b)) == b
  {
    PowLimits();
    LEOfFromLE(b);
  }
}
