/** Go's `color.RGBA`, the pixel value that `image.RGBA` stores per cell. */
module Color {
  import opened GoInt

  /** One pixel: red, green, blue and alpha, each an 8-bit channel. */
  datatype RGBA = RGBA(r: Uint8, g: Uint8, b: Uint8, a: Uint8)

  /** The zero value of `color.RGBA`, which every pixel of a freshly allocated
      `image.RGBA` holds. */
  const Transparent: RGBA := RGBA(0, 0, 0, 0)
}
