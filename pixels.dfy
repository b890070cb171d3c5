/**
 * Pixel samples as captured from the desktop surface
 * (src/graphics/desktop_duplicator.h:29-31): three unsigned 8-bit channels.
 */
module Pixels {
  /** An unsigned 8-bit value (`uint8_t` / `BYTE`). */
  type Byte = x: int | 0 <= x < 256

  /** The `Color` struct: red, green and blue, no alpha. */
  datatype Color = Color(r: Byte, g: Byte, b: Byte)

  datatype Channel = Red | Green | Blue

  function Component(ch: Channel, c: Color): Byte
  {
    match ch
    case Red => c.r
    case Green => c.g
    case Blue => c.b
  }

  /** `std::abs(int(cur.x) - int(ref.x))` for one channel. */
  function ChannelDiff(ch: Channel, cur: Color, ref: Color): (d: nat)
    ensures d <= 255
    ensures d == 0 <==> Component(ch, cur) == Component(ch, ref)
  {
    var a := Component(ch, cur);
    var b := Component(ch, ref);
    if a >= b then a - b else b - a
  }
}
