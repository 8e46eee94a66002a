/**
 * BMP header parser: reads the 14-byte file header and the 4-byte size of
 * the DIB header that follows it, and from the size decides which
 * Microsoft header variant holds the dimensions.
 */
module Bmp {
  import opened Wire
  import opened Image

  /** The magic "BM" at the start of a BMP file. */
  const Header: seq<byte> := [0x42, 0x4D]

  /** Bytes of the fixed header: file header (14) plus the DIB size field (4). */
  const FixedHeaderSize: nat := 18

  /** DIB size of BITMAPCOREHEADER, whose dimensions are two uint16. */
  const CoreHeaderSize: int := 12

  /** DIB sizes of BITMAPINFOHEADER, V3, V4 and V5, whose dimensions are two int32. */
  const InfoHeaderSizes: set<int> := {40, 56, 108, 124}

  /** The bmpHeader record, field by field as binary.Read lays it out. */
  datatype BmpHeader = BmpHeader(
    magic: seq<byte>,
    fileSize: int,
    reserved1: int,
    reserved2: int,
    dataOffset: int,
    dibSize: int)

  /** The field values that 18 bytes can hold. */
  predicate WellFormed(h: BmpHeader)
  {
    && |h.magic| == 2
    && 0 <= h.fileSize < U32_LIMIT
    && 0 <= h.reserved1 < U16_LIMIT
    && 0 <= h.reserved2 < U16_LIMIT
    && 0 <= h.dataOffset < U32_LIMIT
    && 0 <= h.dibSize < U32_LIMIT
  }

  /** Decodes the 18 header bytes, all integers little-endian. */
  function ParseHeader(s: seq<byte>): (h: BmpHeader)
    requires |s| == FixedHeaderSize
    ensures WellFormed(h)
    ensures h.magic == s[..2] && h.dibSize == LE32(s[14..18])
  {
    BmpHeader(s[..2], LE32(s[2..6]), LE16(s[6..8]), LE16(s[8..10]), LE32(s[10..14]), LE32(s[14..18]))
  }

  /** The 18 bytes a header is stored as. */
  function EncodeHeader(h: BmpHeader): (s: seq<byte>)
    requires WellFormed(h)
    ensures |s| == FixedHeaderSize
  {
    h.magic + PutLE32(h.fileSize) + PutLE16(h.reserved1) + PutLE16(h.reserved2)
      + PutLE32(h.dataOffset) + PutLE32(h.dibSize)
  }

  lemma ParseEncodeHeader(h: BmpHeader)
    requires WellFormed(h)
    ensures ParseHeader(EncodeHeader(h)) == h
  {
    var s := EncodeHeader(h);
    var p2 := h.magic + PutLE32(h.fileSize);
    var p3 := p2 + PutLE16(h.reserved1);
    var p4 := p3 + PutLE16(h.reserved2);
    var p5 := p4 + PutLE32(h.dataOffset);
    assert s == p5 + PutLE32(h.dibSize) && |p5| == 14;
    assert s[14..18] == PutLE32(h.dibSize);
    assert s[..14] == p5 && p5[..10] == p4 && p4[..8] == p3 && p3[..6] == p2;
    assert s[10..14] == PutLE32(h.dataOffset) by { assert s[10..14] == p5[10..14]; }
    assert s[8..10] == PutLE16(h.reserved2) by { assert s[8..10] == p4[8..10]; }
    assert s[6..8] == PutLE16(h.reserved1) by { assert s[6..8] == p3[6..8]; }
    assert s[2..6] == PutLE32(h.fileSize) by { assert s[2..6] == p2[2..6]; }
    assert s[..2] == h.magic by { assert s[..2] == p2[..2]; }
  }

  lemma EncodeParseHeader(s: seq<byte>)
    requires |s| == FixedHeaderSize
    ensures EncodeHeader(ParseHeader(s)) == s
  {
    LE32Bytes(s[2..6]);
    LE16Bytes(s[6..8]);
    LE16Bytes(s[8..10]);
    LE32Bytes(s[10..14]);
    LE32Bytes(s[14..18]);
    assert s == s[..2] + s[2..6] + s[6..8] + s[8..10] + s[10..14] + s[14..18];
  }

  function Abs(x: int): (r: int)
    ensures r >= 0 && (r == x || r == -x)
  {
    if x < 0 then -x else x
  }

  /**
   * What DecodeConfig returns for the stream data: the configuration, the
   * error, and how many bytes it consumed.
   */
  function ConfigOf(data: seq<byte>): (r: Decoded)
    ensures r.cfg.height >= 0
    ensures r.consumed <= |data|
    ensures r.err != None ==> r.cfg == Blank
    ensures r.err == None ==> r.consumed == 22 || r.consumed == 26
  {
    if |data| < FixedHeaderSize then Decoded(Blank, Some(ReadError), |data|)
    else
      var h := ParseHeader(data[..FixedHeaderSize]);
      if h.magic != Header then Decoded(Blank, Some(Invalid), FixedHeaderSize)
      else if h.dibSize == CoreHeaderSize then
        if |data| < 22 then Decoded(Blank, Some(ReadError), |data|)
        else Decoded(Config(RGBAModel, LE16(data[18..20]), LE16(data[20..22])), None, 22)
      else if h.dibSize in InfoHeaderSizes then
        if |data| < 26 then Decoded(Blank, Some(ReadError), |data|)
        else Decoded(Config(RGBAModel, LE32s(data[18..22]), Abs(LE32s(data[22..26]))), None, 26)
      else Decoded(Blank, Some(Invalid), FixedHeaderSize)
  }

  /**
   * The parser itself: reads the fixed header, checks the magic, reads the
   * dimensions the DIB size selects, then replaces a negative height by its
   * magnitude.
   */
  method DecodeConfig(data: seq<byte>) returns (d: Decoded)
    ensures d == ConfigOf(data)
  {
    var cfg := Blank;
    var ok, raw, pos := ReadFull(data, 0, FixedHeaderSize);
    if !ok {
      return Decoded(cfg, Some(ReadError), pos);
    }
    assert raw == data[..FixedHeaderSize];
    var h := ParseHeader(raw);
    if h.magic != Header {
      return Decoded(cfg, Some(Invalid), pos);
    }
    var err: Option<Error> := None;
    var dim: seq<byte>;
    if h.dibSize == CoreHeaderSize {
      ok, dim, pos := ReadFull(data, pos, 4);
      if ok {
        assert dim[..2] == data[18..20] && dim[2..] == data[20..22];
        cfg := cfg.(width := LE16(dim[..2]), height := LE16(dim[2..]));
      } else {
        err := Some(ReadError);
      }
    } else if h.dibSize in InfoHeaderSizes {
      ok, dim, pos := ReadFull(data, pos, 8);
      if ok {
        assert dim[..4] == data[18..22] && dim[4..] == data[22..26];
        cfg := cfg.(width := LE32s(dim[..4]), height := LE32s(dim[4..]));
      } else {
        err := Some(ReadError);
      }
    } else {
      err := Some(Invalid);
    }
    if cfg.height < 0 {
      cfg := cfg.(height := -cfg.height);
    }
    d := Decoded(cfg, err, pos);
  }

  /** The DIB size field, little-endian at bytes 14..17. */
  function DibSize(data: seq<byte>): int
    requires |data| >= FixedHeaderSize
  {
    LE32(data[14..18])
  }

  /** The magic and the DIB size as ConfigOf sees them through ParseHeader. */
  lemma HeaderFields(data: seq<byte>)
    requires |data| >= FixedHeaderSize
    ensures ParseHeader(data[..FixedHeaderSize]).magic == data[..2]
    ensures ParseHeader(data[..FixedHeaderSize]).dibSize == DibSize(data)
  {
    assert data[..FixedHeaderSize][..2] == data[..2];
    assert data[..FixedHeaderSize][14..18] == data[14..18];
  }

  /** A stream shorter than the fixed header fails to read, whatever its bytes. */
  lemma ShortHeader(data: seq<byte>, other: seq<byte>)
    requires |data| < FixedHeaderSize && |other| == |data|
    ensures ConfigOf(data) == Decoded(Blank, Some(ReadError), |data|)
    ensures ConfigOf(other) == ConfigOf(data)
  {
  }

  /** A complete fixed header without "BM" is invalid; nothing after it is read. */
  lemma BadMagic(data: seq<byte>)
    requires |data| >= FixedHeaderSize && data[..2] != Header
    ensures ConfigOf(data) == Decoded(Blank, Some(Invalid), FixedHeaderSize)
  {
  }

  /** BITMAPCOREHEADER: two little-endian uint16 at 18..21. */
  lemma CoreHeader(data: seq<byte>)
    requires |data| >= FixedHeaderSize && data[..2] == Header && DibSize(data) == 12
    ensures |data| < 22 ==> ConfigOf(data) == Decoded(Blank, Some(ReadError), |data|)
    ensures |data| >= 22 ==>
      var r := ConfigOf(data);
      && r.err == None && r.consumed == 22
      && r.cfg.width == data[18] as int + 0x100 * data[19] as int
      && r.cfg.height == data[20] as int + 0x100 * data[21] as int
      && 0 <= r.cfg.width < U16_LIMIT && 0 <= r.cfg.height < U16_LIMIT
  {
  }

  /**
   * BITMAPINFOHEADER and later: width is the signed int32 at 18..21 with its
   * sign kept, height the magnitude of the signed int32 at 22..25.
   */
  lemma InfoHeader(data: seq<byte>)
    requires |data| >= FixedHeaderSize && data[..2] == Header && DibSize(data) in InfoHeaderSizes
    ensures |data| < 26 ==> ConfigOf(data) == Decoded(Blank, Some(ReadError), |data|)
    ensures |data| >= 26 ==>
      var r := ConfigOf(data);
      && r.err == None && r.consumed == 26
      && r.cfg.width == LE32s(data[18..22])
      && (r.cfg.width < 0 <==> data[21] >= 0x80)
      && r.cfg.height == Abs(LE32s(data[22..26]))
      && 0 <= r.cfg.height <= I32_LIMIT
  {
  }

  /** Any other DIB size is invalid, with zero dimensions and no dimension bytes read. */
  lemma UnknownVariant(data: seq<byte>)
    requires |data| >= FixedHeaderSize && data[..2] == Header
    requires DibSize(data) != 12 && DibSize(data) !in InfoHeaderSizes
    ensures ConfigOf(data) == Decoded(Blank, Some(Invalid), FixedHeaderSize)
  {
  }

  /** FileSize, Reserved1, Reserved2 and DataOffset (bytes 2..13) never affect the result. */
  lemma IgnoredFields(data: seq<byte>, other: seq<byte>)
    requires |data| >= 14 && |other| >= 14
    requires other[..2] == data[..2] && other[14..] == data[14..]
    ensures ConfigOf(other) == ConfigOf(data)
  {
    assert |other| == |data|;
    if |data| >= FixedHeaderSize {
      HeaderFields(data);
      HeaderFields(other);
      assert other[14..18] == data[14..18] by {
        assert other[14..18] == other[14..][..4] && data[14..18] == data[14..][..4];
      }
      if |data| >= 22 {
        assert other[18..22] == data[18..22] by {
          assert other[18..22] == other[14..][4..8] && data[18..22] == data[14..][4..8];
        }
        assert other[18..20] == data[18..20] && other[20..22] == data[20..22] by {
          assert other[18..20] == other[14..][4..6] && data[18..20] == data[14..][4..6];
          assert other[20..22] == other[14..][6..8] && data[20..22] == data[14..][6..8];
        }
      }
      if |data| >= 26 {
        assert other[22..26] == data[22..26] by {
          assert other[22..26] == other[14..][8..12] && data[22..26] == data[14..][8..12];
        }
      }
    }
  }

  /** A successful result depends on the first 26 bytes only: appending bytes never changes it. */
  lemma ExtendAfterSuccess(data: seq<byte>, extra: seq<byte>)
    requires ConfigOf(data).err == None
    ensures ConfigOf(data + extra) == ConfigOf(data)
  {
    var long := data + extra;
    assert long[..FixedHeaderSize] == data[..FixedHeaderSize];
    assert long[18..20] == data[18..20] && long[20..22] == data[20..22];
    if |data| >= 26 {
      assert long[18..22] == data[18..22] && long[22..26] == data[22..26];
    }
  }

  /** A truncated stream never yields a wrong configuration: it fails or agrees with the whole. */
  lemma TruncationNeverWrong(data: seq<byte>, k: nat)
    requires k <= |data|
    ensures ConfigOf(data[..k]).err == None ==> ConfigOf(data[..k]) == ConfigOf(data)
  {
    if ConfigOf(data[..k]).err == None {
      ExtendAfterSuccess(data[..k], data[k..]);
      assert data[..k] + data[k..] == data;
    }
  }

  /** A top-down BMP: negative width kept, negative height reported as its magnitude. */
  lemma SignedDimensions()
    ensures
      var data := Header + [0, 0, 0, 0, 0, 0, 0, 0, 0, 0, 0, 0]
        + PutLE32(40) + PutLE32s(-2) + PutLE32s(-3);
      ConfigOf(data) == Decoded(Config(RGBAModel, -2, 3), None, 26)
  {
    var data := Header + [0, 0, 0, 0, 0, 0, 0, 0, 0, 0, 0, 0]
      + PutLE32(40) + PutLE32s(-2) + PutLE32s(-3);
    HeaderFields(data);
    assert data[..2] == Header;
    assert data[14..18] == PutLE32(40);
    assert data[18..22] == PutLE32s(-2);
    assert data[22..26] == PutLE32s(-3);
  }
}
