/** Optional values: the model's stand-in for a reference that may be null. */
module Optional {
  datatype Option<+T> = None | Some(value: T)
}

/**
 * Colours as four 8-bit channels. The toolkit converts its colours to a
 * floating-point Color4 before painting; that conversion is one-to-one on
 * 8-bit channels, so the model keeps the channels themselves.
 */
module Colors {
  newtype byte = x: int | 0 <= x < 256

  datatype Color = Rgba(r: byte, g: byte, b: byte, a: byte)

  /** The baseline colour of a vertex that was never painted. */
  const Black := Rgba(0, 0, 0, 255)

  /** The default colours of the X, Y and Z axes (the named colours Red, Green and Blue). */
  const Red := Rgba(255, 0, 0, 255)
  const Green := Rgba(0, 128, 0, 255)
  const Blue := Rgba(0, 0, 255, 255)
}
