# go-stbi header parsers in Dafny

This project models the two image-header parsers of go-stbi. Each one reads
just enough of a byte stream to report an `image.Config`: the colour model
(always RGBA), a width and a height. Nothing is decoded beyond that.

- **BMP** (`bmp.dfy`, module `Bmp`). The parser reads an 18-byte fixed
  header: the 14-byte file header plus the 4-byte DIB-header size. It then
  checks the magic `BM`. The DIB size selects the header variant.
  BITMAPCOREHEADER (12) stores the dimensions as two little-endian `uint16`.
  BITMAPINFOHEADER, V3, V4 and V5 (40, 56, 108, 124) store them as two
  little-endian `int32`. Any other size is `ErrInvalid`. A negative height
  is replaced by its magnitude.
- **JPEG** (`jpeg.dfy`, module `Jpeg`). The parser checks the SOI marker
  `FF D8`. It then reads 4-byte segment headers: the sentinel `FF`, a marker
  code, and a big-endian length that counts itself (sections B.1.1.2 to
  B.1.1.4 of ITU-T T.81). It skips `length - 2` payload bytes for every
  marker except SOF0, SOF1 and SOF2. At the first of those it reads the
  precision byte, then the height, then the width (section B.2.2 of ITU-T
  T.81), and returns.
- **Wire** (`wire.dfy`). Covers what `encoding/binary.Read` does for these
  parsers: fixed-width little- and big-endian integers, and a read that
  either delivers exactly `n` bytes or fails on a short stream. The encoders
  here exist only to state round trips.
- **Image** (`image.dfy`). Holds `Config`, the errors, and `Decoded`. A
  `Decoded` is the `(cfg, err)` pair that Go returns, plus the number of
  stream bytes the parser consumed.

How the stream is modelled:

- The `io.Reader` is a `seq<byte>` with a cursor.
- Each `DecodeConfig` method keeps the cursor in a local variable. It
  returns how far the cursor got as `Decoded.consumed`.
- A short read consumes every remaining byte, as `io.ReadFull` does.
- Each method is proved equal to a pure function of the bytes (`ConfigOf`).
  The lemmas state the source's properties about that function.
- The JPEG loop keeps the source's scratch buffer as an `array<byte>`. The
  buffer is reallocated larger when a segment is longer than it. The loop invariant says the buffer length is the largest
  segment length seen so far. So the buffer never shrinks, and slicing it to
  `length - 2` is in bounds whenever the length is at least 2.

Facts about the source that the model follows:

- The BMP parser's first read takes 18 bytes: the 14-byte file header and
  the 4-byte DIB size together.
- The BMP parser reports the width with its sign. Only the height is
  replaced by its magnitude.
- The JPEG parser reads a whole 4-byte segment header on every iteration,
  SOF segments included. So the length field of an SOF segment is read
  before the frame fields. `Jpeg.SkipThenFrame` uses this layout.

## Model

| member | source | states |
|---|---|---|
| `Wire.LE16` | bmp/bmp.go:43-45 | a little-endian `uint16` field lies in 0..65535 |
| `Wire.BE16` | jpeg/jpeg.go:54-59 | a big-endian `uint16` field lies in 0..65535 |
| `Wire.LE32` | bmp/bmp.go:68-75 | a little-endian `uint32` field (such as DIBSize) lies in 0..2^32-1 |
| `Wire.LE32s` | bmp/bmp.go:48-50 | a little-endian `int32` lies in -2^31..2^31-1, and it is negative exactly when the top bit of its last byte is set |
| `Wire.PutLE16` | bmp/bmp.go:43-45 | encoding x as two little-endian bytes and reading them back gives x |
| `Wire.PutBE16` | jpeg/jpeg.go:81-84 | encoding x as two big-endian bytes and reading them back gives x |
| `Wire.PutLE32` | bmp/bmp.go:68-75 | encoding x as four little-endian bytes and reading them back gives x |
| `Wire.PutLE32s` | bmp/bmp.go:48-50 | encoding a signed x in two's complement and reading it back as `int32` gives x |
| `Wire.LE16Bytes` | bmp/bmp.go:43-45 | every 2-byte field is the encoding of the value read from it (the other direction of the round trip) |
| `Wire.BE16Bytes` | jpeg/jpeg.go:81-84 | every 2-byte big-endian field is the encoding of the value read from it |
| `Wire.LE32Bytes` | bmp/bmp.go:68-75 | every 4-byte field is the encoding of the `uint32` read from it |
| `Wire.LE32sBytes` | bmp/bmp.go:48-50 | every 4-byte field is the encoding of the `int32` read from it |
| `Wire.ReadFull` | bmp/bmp.go:32-35 | a read of n bytes succeeds exactly when n bytes remain; it then yields those bytes and moves the cursor past them, and otherwise it consumes the rest of the stream and fails |
| `Bmp.ParseHeader` | bmp/bmp.go:68-75 | the 18 header bytes decode to magic (bytes 0..1) and DIBSize (little-endian at 14..17), with every field in its width's range |
| `Bmp.EncodeHeader` | bmp/bmp.go:68-75 | a header record is stored in exactly 18 bytes |
| `Bmp.ParseEncodeHeader` | bmp/bmp.go:68-75 | decoding the bytes of a well-formed header gives it back |
| `Bmp.EncodeParseHeader` | bmp/bmp.go:68-75 | every 18-byte block is the encoding of the header decoded from it |
| `Bmp.Abs` | bmp/bmp.go:56-60 | the height correction gives a non-negative value of the same magnitude |
| `Bmp.ConfigOf` | bmp/bmp.go:28-62 | the reported height is never negative; every error returns the blank RGBA config; a success consumed exactly 22 or 26 bytes, and never more than the stream holds |
| `Bmp.DecodeConfig` | bmp/bmp.go:28-62 | the step-by-step parser (read the header, check the magic, switch on DIBSize, read the dimensions, fix the height sign) returns exactly `ConfigOf` of the stream |
| `Bmp.HeaderFields` | bmp/bmp.go:36-41 | the magic and the DIB size that the parser switches on are bytes 0..1 and the little-endian value at 14..17 |
| `Bmp.ShortHeader` | bmp/bmp.go:31-35 | under 18 bytes gives a read error; the outcome depends only on the length, so the magic is never inspected |
| `Bmp.BadMagic` | bmp/bmp.go:36-38 | a complete header without `BM` gives `ErrInvalid`, the blank config and 18 bytes consumed |
| `Bmp.CoreHeader` | bmp/bmp.go:42-45 | DIB size 12: width and height are the little-endian `uint16` at 18..19 and 20..21, both in 0..65535, with 22 bytes consumed; a shorter stream gives a read error |
| `Bmp.InfoHeader` | bmp/bmp.go:47-50 | DIB size 40, 56, 108 or 124: width is the signed `int32` at 18..21, sign kept; height is the magnitude of the `int32` at 22..25; 26 bytes consumed; a shorter stream gives a read error |
| `Bmp.UnknownVariant` | bmp/bmp.go:52-53 | any other DIB size gives `ErrInvalid` with width and height 0, and no dimension bytes read |
| `Bmp.IgnoredFields` | bmp/bmp.go:68-75 | FileSize, Reserved1, Reserved2 and DataOffset never affect the result |
| `Bmp.ExtendAfterSuccess` | bmp/bmp.go:44-49 | after a success, appending bytes to the stream changes nothing, so nothing beyond the dimensions is read |
| `Bmp.TruncationNeverWrong` | bmp/bmp.go:44-61 | a truncated stream either fails or gives the same result as the whole stream, never a wrong config |
| `Bmp.SignedDimensions` | bmp/bmp.go:56-60 | a BITMAPINFOHEADER (DIB size 40) with width -2 and height -3 reports width -2 and height 3 |
| `Jpeg.ParseSegmentHeader` | jpeg/jpeg.go:81-84 | a segment header is the sentinel, the marker and a big-endian length in 0..65535 |
| `Jpeg.EncodeSegmentHeader` | jpeg/jpeg.go:81-84 | a segment header is stored in exactly 4 bytes |
| `Jpeg.ParseEncodeSegmentHeader` | jpeg/jpeg.go:81-84 | decoding an encoded segment header gives it back |
| `Jpeg.EncodeParseSegmentHeader` | jpeg/jpeg.go:81-84 | every 4-byte block is the encoding of the segment header decoded from it |
| `Jpeg.Walk` | jpeg/jpeg.go:40-74 | the marker loop from a header at pos never reads backwards or beyond the stream; every error returns the blank config; a success read at least one header and the frame fields, and its width and height are in 0..65535 |
| `Jpeg.ConfigOf` | jpeg/jpeg.go:28-75 | a success reports width and height in 0..65535; every error returns the blank RGBA config |
| `Jpeg.TurnAt` | jpeg/jpeg.go:43-70 | one pass of the loop either goes on at a header at least 4 bytes further on within the stream, or stops; an error stop returns the blank config, and a success stop sits right after the 5 frame-field bytes with width and height in 0..65535 |
| `Jpeg.WalkTurn` | jpeg/jpeg.go:42-72 | the loop's outcome is that pass's outcome when the pass stops, and the outcome from the next header when it goes on |
| `Jpeg.ReadSegmentHeader` | jpeg/jpeg.go:43-46 | the header read succeeds exactly when 4 bytes remain; it then yields the decoded segment header and advances 4 bytes, and otherwise consumes the rest of the stream |
| `Jpeg.ReadFrameFields` | jpeg/jpeg.go:54-59 | the frame read succeeds exactly when 5 bytes remain; it then reports height from bytes 1..2 and width from bytes 3..4, big-endian, and otherwise leaves the config blank and consumes the rest |
| `Jpeg.Grow` | jpeg/jpeg.go:63-65 | a buffer shorter than n is replaced by a new one of length n, and a buffer at least n long is kept as the same array, so its length becomes the larger of the two |
| `Jpeg.Fill` | jpeg/jpeg.go:67 | the payload is read into the front of the buffer and the bytes past it are unchanged |
| `Jpeg.DecodeConfig` | jpeg/jpeg.go:28-75 | the SOI check and then the segment loop return exactly `ConfigOf` of the stream |
| `Jpeg.WalkSegments` | jpeg/jpeg.go:40-74 | the segment loop, with its scratch buffer, returns exactly `Walk` from its start; the buffer length is the largest segment length seen, so the payload slice is in bounds; it terminates because each iteration consumes at least 4 bytes |
| `Jpeg.MaxOf` | jpeg/jpeg.go:63-65 | the buffer size kept by the loop is at least every segment length seen so far, and is one of them (or 0) |
| `Jpeg.SkipTarget` | jpeg/jpeg.go:62-70 | a skipped segment moves the cursor forward by at least 4 bytes and stays within the stream |
| `Jpeg.HeaderAt` | jpeg/jpeg.go:81-84 | the segment header at p is byte p as sentinel, byte p+1 as marker and the big-endian length at p+2..p+3 |
| `Jpeg.SkipSegment` | jpeg/jpeg.go:62-70 | for a non-SOF marker with length L >= 2 and its payload present, the next header begins at p + 2 + L and the outcome is that of the walk from there |
| `Jpeg.BadSentinel` | jpeg/jpeg.go:47-50 | a header whose first byte is not `FF` gives `ErrInvalid` after reading the 4 header bytes |
| `Jpeg.TruncatedHeader` | jpeg/jpeg.go:43-46 | a stream that ends inside a segment header gives a read error |
| `Jpeg.TruncatedPayload` | jpeg/jpeg.go:67-69 | a stream that ends inside the payload of a skipped segment gives a read error, the blank config and the whole stream consumed |
| `Jpeg.FrameWalk` | jpeg/jpeg.go:51-60 | at a complete SOF0-SOF2 header the loop returns that frame's height and width with exactly 9 bytes consumed |
| `Jpeg.ChainWalk` | jpeg/jpeg.go:42-72 | skipping any number of whole segments leaves the outcome unchanged |
| `Jpeg.SuccessMeansFrame` | jpeg/jpeg.go:51-60 | every success comes from an SOF0-SOF2 header reached by skipping whole segments; height is read at offset 5 and width at offset 7 of that header, and the frame fields are the last bytes read |
| `Jpeg.FirstFrameWins` | jpeg/jpeg.go:51-62 | the first SOF0-SOF2 header reached by skipping gives the result, with exactly its 9 bytes consumed |
| `Jpeg.NoFrameNoConfig` | jpeg/jpeg.go:43-46 | when no SOF0-SOF2 header can be reached, the result is an error with the blank config, never a configuration |
| `Jpeg.ExtendAfterSuccess` | jpeg/jpeg.go:58-60 | after a success, appending bytes changes nothing: the parser returns right after the frame fields |
| `Jpeg.CutGivesReadError` | jpeg/jpeg.go:43-69 | cutting a stream that parses successfully anywhere before the end of its frame fields gives a read error with the whole cut stream consumed |
| `Jpeg.TruncationNeverWrong` | jpeg/jpeg.go:67-74 | a stream cut anywhere either fails or gives the same result as the whole stream |
| `Jpeg.BadMagic` | jpeg/jpeg.go:31-38 | under 2 bytes gives a read error; two bytes other than `FF D8` give `ErrInvalid` with no segment read |
| `Jpeg.SkipThenFrame` | jpeg/jpeg.go:51-67 | an APP0 segment of length 16, then a C3 segment, then an SOF0 frame with height 0x0140 and width 0x00F0, give 240 x 320; the C3 segment is skipped like any other |
| `Jpeg.SkipThenBadSentinel` | jpeg/jpeg.go:47-50 | a byte other than `FF` right after a skipped payload gives `ErrInvalid` |
| `Jpeg.ShortLengthPanics` | jpeg/jpeg.go:63-67 | as written, a segment length of 0 or 1 ends in the negative-slice-bound panic |
| `Jpeg.CheckedWalk` | jpeg/jpeg.go:42-72 | the marker loop with a segment length below 2 rejected as `ErrInvalid` before the payload slice is taken; like the original it never reads backwards or beyond the stream, returns the blank config on every error, and on success has read a header and the frame fields, with width and height in 0..65535 |
| `Jpeg.CheckedAgrees` | jpeg/jpeg.go:63-67 | the loop with the length check added never panics; it returns `ErrInvalid` at the point where the original panics and agrees with it everywhere else |
| `Jpeg.CheckedConfigOf` | jpeg/jpeg.go:28-75 | with the length check added, the parser never panics; it returns `ErrInvalid` where the original panics and agrees with it everywhere else |
| `Jpeg.CheckedShortLength` | jpeg/jpeg.go:63-67 | with the length check added, a segment length of 0 or 1 gives `ErrInvalid` |

## Left out

- `Decode` in `bmp/bmp.go` and `jpeg/jpeg.go`: both only hand the stream to the stb_image C library through cgo.
- `stbi.go` (`Load`, `LoadFile`, `LoadMemory`, `LoadReader`, `SetFlipVerticallyOnLoad`): foreign calls into stb_image and its global state.
- The `init` registrations and the sniffing registry: prefix matching and dispatch happen inside Go's `image.RegisterFormat` and `image.Decode`, which are not part of this model.
- `jpeg/stbjpeg.go` is not part of this model: it only wraps the standard library's JPEG `DecodeConfig`.
- The difference between `io.EOF` and `io.ErrUnexpectedEOF`: both are the one `ReadError`. Other I/O errors from the reader are not modelled; the stream is a finite byte sequence.
- Go's `int` is taken to be 64 bits wide. The magnitude of a height of -2^31 is then 2^31. On a 32-bit platform the negation in the height fix would wrap around.
- The `ErrInvalid` values are modelled as one `Invalid` error per parser. Their message texts are not modelled.
- Jpeg.WalkSegments: the negative slice bound at jpeg/jpeg.go:67 is a run-time panic in Go. The model returns it as the explicit outcome `SliceBoundsPanic` instead of aborting.

## Findings

| source | as written | input that shows it | evidently intended | confidence | as-written member | corrected member |
|---|---|---|---|---|---|---|
| jpeg/jpeg.go:63-67 | the skip path slices the scratch buffer to length minus 2 without checking that the length is at least 2 | `FF D8 FF E0 00 00` or `FF D8 FF E0 00 01` (segment length 0 or 1) | reject the stream with `ErrInvalid`, as for the other malformed-marker cases | high, not executed | `Jpeg.ShortLengthPanics` | `Jpeg.CheckedConfigOf` |
