/**
 * Fixed-width integer reads on a forward-only byte stream, as the two
 * header parsers perform them with Go's encoding/binary package: a read of
 * n bytes either delivers exactly n bytes or fails because the stream ended.
 */
module Wire {

  /** One octet of the input stream. */
  newtype byte = b: int | 0 <= b < 0x100

  const U16_LIMIT: int := 0x1_0000
  const U32_LIMIT: int := 0x1_0000_0000
  const I32_MIN: int := -0x8000_0000
  const I32_LIMIT: int := 0x8000_0000

  /** Unsigned 16-bit little-endian integer. */
  function LE16(s: seq<byte>): (r: int)
    requires |s| == 2
    ensures 0 <= r < U16_LIMIT
  {
    s[0] as int + 0x100 * s[1] as int
  }

  /** Unsigned 16-bit big-endian integer. */
  function BE16(s: seq<byte>): (r: int)
    requires |s| == 2
    ensures 0 <= r < U16_LIMIT
  {
    0x100 * s[0] as int + s[1] as int
  }

  /** Unsigned 32-bit little-endian integer: the low half comes first. */
  function LE32(s: seq<byte>): (r: int)
    requires |s| == 4
    ensures 0 <= r < U32_LIMIT
  {
    LE16(s[..2]) + U16_LIMIT * LE16(s[2..])
  }

  /** Signed (two's complement) 32-bit little-endian integer. */
  function LE32s(s: seq<byte>): (r: int)
    requires |s| == 4
    ensures I32_MIN <= r < I32_LIMIT
    ensures r < 0 <==> s[3] >= 0x80
  {
    var u := LE32(s);
    if u < I32_LIMIT then u else u - U32_LIMIT
  }

  /** The two bytes that encode x in little-endian order. */
  function PutLE16(x: int): (r: seq<byte>)
    requires 0 <= x < U16_LIMIT
    ensures |r| == 2 && LE16(r) == x
  {
    [(x % 0x100) as byte, (x / 0x100) as byte]
  }

  /** The two bytes that encode x in big-endian order. */
  function PutBE16(x: int): (r: seq<byte>)
    requires 0 <= x < U16_LIMIT
    ensures |r| == 2 && BE16(r) == x
  {
    [(x / 0x100) as byte, (x % 0x100) as byte]
  }

  /** The four bytes that encode x in little-endian order. */
  function PutLE32(x: int): (r: seq<byte>)
    requires 0 <= x < U32_LIMIT
    ensures |r| == 4 && LE32(r) == x
  {
    var lo, hi := PutLE16(x % U16_LIMIT), PutLE16(x / U16_LIMIT);
    assert (lo + hi)[..2] == lo && (lo + hi)[2..] == hi;
    lo + hi
  }

  /** The four bytes that encode the signed x in two's complement, little-endian. */
  function PutLE32s(x: int): (r: seq<byte>)
    requires I32_MIN <= x < I32_LIMIT
    ensures |r| == 4 && LE32s(r) == x
  {
    PutLE32(if x < 0 then x + U32_LIMIT else x)
  }

  lemma LE16Bytes(s: seq<byte>)
    requires |s| == 2
    ensures PutLE16(LE16(s)) == s
  {
    var x := LE16(s);
    assert x % 0x100 == s[0] as int && x / 0x100 == s[1] as int;
  }

  lemma BE16Bytes(s: seq<byte>)
    requires |s| == 2
    ensures PutBE16(BE16(s)) == s
  {
    var x := BE16(s);
    assert x % 0x100 == s[1] as int && x / 0x100 == s[0] as int;
  }

  lemma LE32Bytes(s: seq<byte>)
    requires |s| == 4
    ensures PutLE32(LE32(s)) == s
  {
    var x, lo, hi := LE32(s), LE16(s[..2]), LE16(s[2..]);
    assert x % U16_LIMIT == lo && x / U16_LIMIT == hi;
    LE16Bytes(s[..2]);
    LE16Bytes(s[2..]);
    assert s == s[..2] + s[2..];
  }

  lemma LE32sBytes(s: seq<byte>)
    requires |s| == 4
    ensures PutLE32s(LE32s(s)) == s
  {
    LE32Bytes(s);
  }

  /**
   * Reads exactly n bytes starting at the cursor pos (io.ReadFull under
   * binary.Read). On success the cursor moves past the n bytes; when fewer
   * than n remain, every remaining byte is consumed and the read fails.
   */
  method ReadFull(data: seq<byte>, pos: nat, n: nat) returns (ok: bool, bytes: seq<byte>, next: nat)
    requires pos <= |data|
    ensures ok <==> pos + n <= |data|
    ensures ok ==> bytes == data[pos..pos + n] && next == pos + n
    ensures !ok ==> bytes == [] && next == |data|
  {
    if pos + n <= |data| {
      ok, bytes, next := true, data[pos..pos + n], pos + n;
    } else {
      ok, bytes, next := false, [], |data|;
    }
  }
}
