/**
 * What a header parser hands back: Go's image.Config paired with an error,
 * plus how far the parser advanced the stream.
 */
module Image {

  /** The only colour model the parsers report (color.RGBAModel). */
  datatype ColorModel = RGBAModel

  /** image.Config: a colour model and the pixel dimensions. */
  datatype Config = Config(colorModel: ColorModel, width: int, height: int)

  /** The configuration each parser starts from and returns on every error path. */
  const Blank: Config := Config(RGBAModel, 0, 0)

  /**
   * ReadError: the stream ended inside a fixed-size read (io.EOF and
   * io.ErrUnexpectedEOF folded together).
   * Invalid: the format's ErrInvalid.
   * SliceBoundsPanic: the run-time panic of a negative slice bound; not an
   * error value in the source, see the JPEG parser.
   */
  datatype Error = ReadError | Invalid | SliceBoundsPanic

  /** A Go error value: nil or one of the errors above. */
  datatype Option<T> = None | Some(value: T)

  /** The pair (cfg, err) a DecodeConfig returns, and the bytes it consumed. */
  datatype Decoded = Decoded(cfg: Config, err: Option<Error>, consumed: nat)
}
