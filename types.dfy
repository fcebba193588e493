/** Value types shared by the editor: points, colours, pixels and the editing mode. */
module Types {
  /** An 8-bit colour channel (`Uint8`). */
  type Byte = x: int | 0 <= x < 0x100

  /** A packed 32-bit pixel value (`Uint32`). */
  type Uint32 = x: int | 0 <= x < 0x1_0000_0000

  /** `T_POINT`: a position in canvas or screen space. */
  datatype Point = Point(x: int, y: int)

  /** `T_RGB`: three 8-bit channels, no alpha. */
  datatype Rgb = Rgb(r: Byte, g: Byte, b: Byte)

  /** `T_MODE`. */
  datatype Mode = Edit | Preview

  const White := Rgb(0xFF, 0xFF, 0xFF)
  const Black := Rgb(0x00, 0x00, 0x00)
  /** The dark colour the frame is cleared to before drawing. */
  const Background := Rgb(0x08, 0x08, 0x08)
  /** The brush colour a fresh workspace starts with. */
  const InitialBrush := Rgb(0xFF, 0x0F, 0x0F)
}
