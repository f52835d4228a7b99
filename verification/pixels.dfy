/** The packed 32-bit colour the renderer stores in its `Int32` arrays, with the
    byte layout made explicit. `BitConverter.GetBytes` on the little-endian
    platform yields byte 0 as the lowest 8 bits; with XNA's colour layout byte 0
    is red, byte 1 green, byte 2 blue and byte 3 alpha. */
module Pixels {
  import opened Numerics

  type byte = b: int | 0 <= b < 256

  datatype Pixel = Pixel(r: byte, g: byte, b: byte, a: byte)

  /** The value 0 the frame buffer is cleared to: every byte zero. */
  const Background: Pixel := Pixel(0, 0, 0, 0)

  /** The unsigned 32-bit pattern: byte 0 in bits 0-7 up to byte 3 in bits 24-31. */
  function Pack(p: Pixel): (w: nat)
    ensures w < Word
  {
    p.r + 0x100 * p.g + 0x1_0000 * p.b + 0x100_0000 * p.a
  }

  /** Splits a 32-bit pattern into its four bytes. */
  function Unpack(w: nat): (p: Pixel)
    requires w < Word
  {
    var w1 := w / 0x100;
    var w2 := w1 / 0x100;
    Pixel(w % 0x100, w1 % 0x100, w2 % 0x100, w2 / 0x100)
  }

  /** The signed `Int32` a packed pixel is stored as (two's complement). */
  function ToInt32(p: Pixel): (v: int)
    ensures IsInt32(v)
    ensures p.a < 0x80 <==> v >= 0
  {
    var w := Pack(p);
    if w <= Int32Max then w else w - Word
  }

  /** `BitConverter.GetBytes` of an `Int32`, read back as a pixel. */
  function FromInt32(v: int): (p: Pixel)
    requires IsInt32(v)
    ensures ToInt32(p) == v
  {
    PackUnpack(if v < 0 then v + Word else v);
    Unpack(if v < 0 then v + Word else v)
  }

  lemma UnpackPack(p: Pixel)
    ensures Unpack(Pack(p)) == p
  {
    var w := Pack(p);
    var w1 := p.g + 0x100 * (p.b + 0x100 * p.a);
    assert w == p.r + 0x100 * w1;
    assert w / 0x100 == w1;
    assert w1 / 0x100 == p.b + 0x100 * p.a;
  }

  lemma PackUnpack(w: nat)
    requires w < Word
    ensures Pack(Unpack(w)) == w
  {
    var w1 := w / 0x100;
    var w2 := w1 / 0x100;
    assert w == w % 0x100 + 0x100 * w1;
    assert w1 == w1 % 0x100 + 0x100 * w2;
    assert w2 == w2 % 0x100 + 0x100 * (w2 / 0x100);
    assert w2 / 0x100 < 0x100;
  }

  /** Storing a pixel in an `Int32` array and reading its bytes back loses nothing,
      and every `Int32` is the storage of exactly one pixel. */
  lemma Int32RoundTrip(p: Pixel, v: int)
    requires IsInt32(v)
    ensures FromInt32(ToInt32(p)) == p
    ensures ToInt32(FromInt32(v)) == v
  {
    UnpackPack(p);
    PackUnpack(if v < 0 then v + Word else v);
  }
}
