/**
 * The pixel store the glitch effects work on: Go's `image.RGBA`, whose pixels
 * hold four alpha-premultiplied 8-bit channels, and the 16-bit view of a
 * colour that `color.Color.RGBA()` reports.
 */
module Pixel {

  /** An 8-bit channel, as `image.RGBA` stores it. */
  type byte = x: int | 0 <= x < 0x100

  /** A 16-bit channel, as `RGBA()` reports it and `color.RGBA64` holds it. */
  type u16 = x: int | 0 <= x < 0x1_0000

  /** The largest 16-bit channel value (`MAXC = 1<<16 - 1`). */
  const MAXC: int := 0xFFFF

  /** One stored pixel: red, green, blue and alpha, premultiplied. */
  datatype Color = Color(r: byte, g: byte, b: byte, a: byte)

  /** What `At` reports outside an image's bounds: `color.RGBA{}`. */
  const Transparent: Color := Color(0, 0, 0, 0)

  /** A `color.RGBA64`: four 16-bit channels. */
  datatype Color64 = Color64(r: u16, g: u16, b: u16, a: u16)

  /** `RGBA()` of an 8-bit channel: the byte repeated in both halves (`v * 0x101`). */
  function Wide(v: byte): (w: u16)
    ensures w / 0x100 == v && w % 0x100 == v
  {
    v * 0x101
  }

  /** Go's `uint8(x)` conversion of a non-negative value: its low byte. */
  function Low8(v: nat): byte
  {
    v % 0x100
  }

  /** Storing a 16-bit channel into an `image.RGBA` keeps its high byte (`v >> 8`). */
  function High8(v: u16): byte
  {
    v / 0x100
  }

  /** Go's `uint32` arithmetic on non-negative operands: the value modulo 2^32. */
  function U32(v: nat): nat
  {
    v % 0x1_0000_0000
  }

  /** Go's `uint16(x)` conversion of a non-negative value: the value modulo 2^16. */
  function U16(v: nat): u16
  {
    v % 0x1_0000
  }

  /** The 16-bit view `RGBA()` gives of a stored pixel. */
  function Expand(c: Color): Color64
  {
    Color64(Wide(c.r), Wide(c.g), Wide(c.b), Wide(c.a))
  }

  /** `Set` of a 16-bit colour on an `image.RGBA`: each channel keeps its high byte. */
  function Store64(c: Color64): Color
  {
    Color(High8(c.r), High8(c.g), High8(c.b), High8(c.a))
  }

  /** Storing the 16-bit view of a pixel gives the pixel back, and so does
      taking the low bytes of that view. */
  lemma ExpandRoundTrip(c: Color)
    ensures Store64(Expand(c)) == c
    ensures Color(Low8(Wide(c.r)), Low8(Wide(c.g)), Low8(Wide(c.b)), Low8(Wide(c.a))) == c
  {
  }
}
