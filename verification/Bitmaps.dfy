/**
  Packed one-bit bitmaps: each row MSB-first in whole bytes, padded with unset
  bits. Setting one bit changes that pixel and no other.
 */
module Bitmaps {

  function RowBytes(width: nat): nat {
    (width + 7) / 8
  }

  function Mask(i: nat): bv8
    requires i < 8
  {
    0x80 >> i
  }

  /** Where row `y` begins: y * rowBytes, row by row. */
  function RowStart(rowBytes: nat, y: nat): nat {
    if y == 0 then 0 else RowStart(rowBytes, y - 1) + rowBytes
  }

  lemma {:induction false} RowStartIsProduct(rowBytes: nat, y: nat)
    ensures RowStart(rowBytes, y) == y * rowBytes
  {
    if y > 0 {
      RowStartIsProduct(rowBytes, y - 1);
      assert y * rowBytes == (y - 1) * rowBytes + rowBytes;
    }
  }

  /** The bit at column `x` of row `y`, padding included; false outside `bits`. */
  predicate Pixel(bits: seq<bv8>, rowBytes: nat, x: nat, y: nat) {
    RowStart(rowBytes, y) + x / 8 < |bits| && bits[RowStart(rowBytes, y) + x / 8] & Mask(x % 8) != 0
  }

  /** Go's test of one packed bit. */
  method TestBit(bits: seq<bv8>, rowBytes: nat, ghost height: nat, x: nat, y: nat) returns (isSet: bool)
    requires |bits| == rowBytes * height && x < 8 * rowBytes && y < height
    ensures isSet == Pixel(bits, rowBytes, x, y)
  {
    RowStartIsProduct(rowBytes, y);
    IndexInRange(rowBytes, height, x / 8, y);
    isSet := bits[y * rowBytes + x / 8] & Mask(x % 8) != 0;
  }

  datatype Bitmap = Bitmap(width: nat, height: nat, bits: seq<bv8>) {
    predicate WellSized() {
      |bits| == RowBytes(width) * height
    }

    /** Padding bits are unset. */
    ghost predicate Clean() {
      forall x: nat, y: nat | width <= x < 8 * RowBytes(width) && y < height :: !Pixel(bits, RowBytes(width), x, y)
    }

    predicate InBounds(x: int, y: int) {
      0 <= x < width && 0 <= y < height
    }

    /** Whether the pixel at (x, y) is set; nothing is set out of bounds. */
    predicate At(x: int, y: int) {
      InBounds(x, y) && Pixel(bits, RowBytes(width), x, y)
    }
  }

  lemma MaskOr(b: bv8, i: nat, j: nat)
    requires i < 8 && j < 8
    ensures ((b | Mask(i)) & Mask(j) != 0) <==> (b & Mask(j) != 0 || i == j)
  {}

  /** Distinct columns and rows have distinct bit positions. */
  lemma IndexInjective(rowBytes: nat, a: nat, y: nat, b: nat, z: nat)
    requires a < rowBytes && b < rowBytes && y * rowBytes + a == z * rowBytes + b
    ensures a == b && y == z
  {
    if y < z {
      assert z * rowBytes >= (y + 1) * rowBytes by { MulMonotone(y + 1, z, rowBytes); }
    } else if z < y {
      assert y * rowBytes >= (z + 1) * rowBytes by { MulMonotone(z + 1, y, rowBytes); }
    }
  }

  lemma MulMonotone(a: nat, b: nat, c: nat)
    requires a <= b
    ensures a * c <= b * c
  {}

  lemma IndexInRange(rowBytes: nat, height: nat, a: nat, y: nat)
    requires a < rowBytes && y < height
    ensures y * rowBytes + a < height * rowBytes
  {
    MulMonotone(y + 1, height, rowBytes);
    assert (y + 1) * rowBytes == y * rowBytes + rowBytes;
  }

  lemma SetOne(bits: seq<bv8>, rowBytes: nat, height: nat, x: nat, y: nat, u: nat, v: nat)
    requires |bits| == rowBytes * height && x < 8 * rowBytes && y < height && u < 8 * rowBytes
    requires y * rowBytes + x / 8 < |bits|
    ensures Pixel(bits[y * rowBytes + x / 8 := bits[y * rowBytes + x / 8] | Mask(x % 8)], rowBytes, u, v)
       <==> Pixel(bits, rowBytes, u, v) || (u == x && v == y)
  {
    RowStartIsProduct(rowBytes, y);
    RowStartIsProduct(rowBytes, v);
    if y * rowBytes + x / 8 == v * rowBytes + u / 8 {
      IndexInjective(rowBytes, x / 8, y, u / 8, v);
      MaskOr(bits[y * rowBytes + x / 8], x % 8, u % 8);
    }
  }

  /** The one write every painting loop makes. */
  method SetBit(bits: array<bv8>, rowBytes: nat, ghost height: nat, x: nat, y: nat)
    requires bits.Length == rowBytes * height && x < 8 * rowBytes && y < height
    modifies bits
    ensures forall u: nat, v: nat | u < 8 * rowBytes ::
              Pixel(bits[..], rowBytes, u, v) <==> old(Pixel(bits[..], rowBytes, u, v)) || (u == x && v == y)
  {
    IndexInRange(rowBytes, height, x / 8, y);
    ghost var before := bits[..];
    bits[y * rowBytes + x / 8] := bits[y * rowBytes + x / 8] | Mask(x % 8);
    assert bits[..] == before[y * rowBytes + x / 8 := before[y * rowBytes + x / 8] | Mask(x % 8)];
    forall u: nat, v: nat | u < 8 * rowBytes
      ensures Pixel(bits[..], rowBytes, u, v) <==> Pixel(before, rowBytes, u, v) || (u == x && v == y)
    {
      SetOne(before, rowBytes, height, x, y, u, v);
    }
  }

  /** A fresh all-unset raster. */
  method Blank(rowBytes: nat, height: nat) returns (bits: array<bv8>)
    ensures fresh(bits) && bits.Length == rowBytes * height
    ensures forall u: nat, v: nat :: !Pixel(bits[..], rowBytes, u, v)
  {
    bits := new bv8[rowBytes * height](_ => 0);
  }

  lemma ByteFromBits(a: bv8, b: bv8)
    requires forall i: nat | i < 8 :: (a & Mask(i) != 0) == (b & Mask(i) != 0)
    ensures a == b
  {
    assert (a & Mask(0) != 0) == (b & Mask(0) != 0);
    assert (a & Mask(1) != 0) == (b & Mask(1) != 0);
    assert (a & Mask(2) != 0) == (b & Mask(2) != 0);
    assert (a & Mask(3) != 0) == (b & Mask(3) != 0);
    assert (a & Mask(4) != 0) == (b & Mask(4) != 0);
    assert (a & Mask(5) != 0) == (b & Mask(5) != 0);
    assert (a & Mask(6) != 0) == (b & Mask(6) != 0);
    assert (a & Mask(7) != 0) == (b & Mask(7) != 0);
  }

  /** Clean bitmaps with the same size and pixels are the same bytes. */
  lemma SamePixelsSameBytes(a: Bitmap, b: Bitmap)
    requires a.WellSized() && b.WellSized() && a.Clean() && b.Clean()
    requires a.width == b.width && a.height == b.height
    requires forall x, y :: a.At(x, y) == b.At(x, y)
    ensures a == b
  {
    var rb := RowBytes(a.width);
    forall i | 0 <= i < |a.bits|
      ensures a.bits[i] == b.bits[i]
    {
      Coordinates(rb, a.height, i);
      var y, c := i / rb, i % rb;
      forall k: nat | k < 8
        ensures (a.bits[i] & Mask(k) != 0) == (b.bits[i] & Mask(k) != 0)
      {
        var x := 8 * c + k;
        RowStartIsProduct(rb, y);
        assert x / 8 == c && x % 8 == k && y * rb + x / 8 == i;
        assert Pixel(a.bits, rb, x, y) == (a.bits[i] & Mask(k) != 0);
        assert Pixel(b.bits, rb, x, y) == (b.bits[i] & Mask(k) != 0);
        assert a.At(x, y) == b.At(x, y);
      }
      ByteFromBits(a.bits[i], b.bits[i]);
    }
  }

  lemma Coordinates(rowBytes: nat, height: nat, i: nat)
    requires i < rowBytes * height
    ensures rowBytes > 0 && i / rowBytes < height && i % rowBytes < rowBytes
    ensures (i / rowBytes) * rowBytes + i % rowBytes == i
  {
    assert rowBytes > 0;
    if i / rowBytes >= height { MulMonotone(height, i / rowBytes, rowBytes); }
  }
}
