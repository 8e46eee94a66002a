/**
 * JPEG header parser: after the SOI marker it walks the marker segments of
 * the stream (sections B.1.1.2 to B.1.1.4 of ITU-T T.81), skipping each by
 * its self-declared length, until the first baseline, extended or
 * progressive start-of-frame segment, whose frame header (section B.2.2 of
 * ITU-T T.81) gives the dimensions.
 */
module Jpeg {
  import opened Wire
  import opened Image

  /** The SOI marker FF D8 at the start of a JPEG file. */
  const Header: seq<byte> := [0xFF, 0xD8]

  /** The byte that introduces every marker. */
  const Sentinel: byte := 0xFF

  /** Bytes of a segment header: sentinel, marker code, 16-bit length. */
  const SegmentHeaderSize: nat := 4

  /** Bytes of the frame fields read after an SOF header: precision, height, width. */
  const FrameFieldsSize: nat := 5

  /** The segmentHeader record; its length counts the two length bytes themselves. */
  datatype SegmentHeader = SegmentHeader(sentinel: byte, marker: byte, length: int)

  /** Decodes a segment header; the length is big-endian. */
  function ParseSegmentHeader(s: seq<byte>): (h: SegmentHeader)
    requires |s| == SegmentHeaderSize
    ensures h.sentinel == s[0] && h.marker == s[1]
    ensures 0 <= h.length < U16_LIMIT
  {
    SegmentHeader(s[0], s[1], BE16(s[2..4]))
  }

  /** The four bytes a segment header is stored as. */
  function EncodeSegmentHeader(h: SegmentHeader): (s: seq<byte>)
    requires 0 <= h.length < U16_LIMIT
    ensures |s| == SegmentHeaderSize
  {
    [h.sentinel, h.marker] + PutBE16(h.length)
  }

  lemma ParseEncodeSegmentHeader(h: SegmentHeader)
    requires 0 <= h.length < U16_LIMIT
    ensures ParseSegmentHeader(EncodeSegmentHeader(h)) == h
  {
    assert EncodeSegmentHeader(h)[2..4] == PutBE16(h.length);
  }

  lemma EncodeParseSegmentHeader(s: seq<byte>)
    requires |s| == SegmentHeaderSize
    ensures EncodeSegmentHeader(ParseSegmentHeader(s)) == s
  {
    BE16Bytes(s[2..4]);
    assert s == [s[0], s[1]] + s[2..4];
  }

  /** SOF0, SOF1 and SOF2: the only frame markers the parser stops at. */
  predicate IsStartOfFrame(marker: byte)
  {
    marker == 0xC0 || marker == 0xC1 || marker == 0xC2
  }

  /** One pass of the marker loop: it stops with an outcome or goes on at the next header. */
  datatype Turn = Stop(result: Decoded) | Continue(next: nat)

  /**
   * What one pass of the loop does with the segment header at pos: read the
   * 4-byte header, check the sentinel, then either read the frame fields of
   * an SOF0-SOF2 segment and stop, or skip the L - 2 payload bytes.
   */
  function TurnAt(data: seq<byte>, pos: nat): (t: Turn)
    requires pos <= |data|
    ensures t.Continue? ==> pos + SegmentHeaderSize <= t.next <= |data|
    ensures t.Stop? ==> pos <= t.result.consumed <= |data|
    ensures t.Stop? && t.result.err != None ==> t.result.cfg == Blank
    ensures t.Stop? && t.result.err == None ==>
      && t.result.consumed == pos + SegmentHeaderSize + FrameFieldsSize
      && 0 <= t.result.cfg.width < U16_LIMIT && 0 <= t.result.cfg.height < U16_LIMIT
  {
    if |data| - pos < SegmentHeaderSize then Stop(Decoded(Blank, Some(ReadError), |data|))
    else
      var h := ParseSegmentHeader(data[pos..pos + SegmentHeaderSize]);
      var body := pos + SegmentHeaderSize;
      if h.sentinel != Sentinel then Stop(Decoded(Blank, Some(Invalid), body))
      else if IsStartOfFrame(h.marker) then
        if |data| - body < FrameFieldsSize then Stop(Decoded(Blank, Some(ReadError), |data|))
        else Stop(Decoded(Config(RGBAModel, BE16(data[body + 3..body + 5]), BE16(data[body + 1..body + 3])),
                          None, body + FrameFieldsSize))
      else if h.length < 2 then Stop(Decoded(Blank, Some(SliceBoundsPanic), body))
      else if |data| - body < h.length - 2 then Stop(Decoded(Blank, Some(ReadError), |data|))
      else Continue(body + h.length - 2)
  }

  /**
   * What the marker loop returns when a segment header starts at pos: the
   * configuration, the error, and how far into data the stream was read.
   */
  function Walk(data: seq<byte>, pos: nat): (r: Decoded)
    requires pos <= |data|
    ensures pos <= r.consumed <= |data|
    ensures r.err != None ==> r.cfg == Blank
    ensures r.err == None ==>
      && pos + SegmentHeaderSize + FrameFieldsSize <= r.consumed
      && 0 <= r.cfg.width < U16_LIMIT && 0 <= r.cfg.height < U16_LIMIT
    decreases |data| - pos
  {
    match TurnAt(data, pos)
    case Stop(r) => r
    case Continue(next) => Walk(data, next)
  }

  /** What DecodeConfig returns for the stream data. */
  function ConfigOf(data: seq<byte>): (r: Decoded)
    ensures r.consumed <= |data|
    ensures r.err != None ==> r.cfg == Blank
    ensures r.err == None ==> 0 <= r.cfg.width < U16_LIMIT && 0 <= r.cfg.height < U16_LIMIT
  {
    if |data| < 2 then Decoded(Blank, Some(ReadError), |data|)
    else if data[..2] != Header then Decoded(Blank, Some(Invalid), 2)
    else Walk(data, 2)
  }

  /** The largest element of s, or 0 for the empty sequence. */
  function MaxOf(s: seq<int>): (m: int)
    ensures forall i :: 0 <= i < |s| ==> s[i] <= m
    ensures m == 0 || m in s
  {
    if s == [] then 0
    else
      var m := MaxOf(s[..|s| - 1]);
      if s[|s| - 1] > m then s[|s| - 1] else m
  }

  /** Reads the 4-byte segment header at pos (binary.Read into a segmentHeader). */
  method ReadSegmentHeader(data: seq<byte>, pos: nat) returns (ok: bool, h: SegmentHeader, next: nat)
    requires pos <= |data|
    ensures ok <==> pos + SegmentHeaderSize <= |data|
    ensures ok ==> h == ParseSegmentHeader(data[pos..pos + SegmentHeaderSize]) && next == pos + SegmentHeaderSize
    ensures !ok ==> next == |data|
  {
    var raw;
    ok, raw, next := ReadFull(data, pos, SegmentHeaderSize);
    h := if ok then ParseSegmentHeader(raw) else SegmentHeader(0, 0, 0);
  }

  /**
   * Reads the precision byte, height and width that follow an SOF header at
   * pos; on a short read the configuration stays blank.
   */
  method ReadFrameFields(data: seq<byte>, pos: nat) returns (ok: bool, cfg: Config, next: nat)
    requires pos <= |data|
    ensures ok <==> pos + FrameFieldsSize <= |data|
    ensures ok ==>
      && next == pos + FrameFieldsSize
      && cfg == Config(RGBAModel, BE16(data[pos + 3..pos + 5]), BE16(data[pos + 1..pos + 3]))
    ensures !ok ==> next == |data| && cfg == Blank
  {
    var dim;
    ok, dim, next := ReadFull(data, pos, FrameFieldsSize);
    cfg := Blank;
    if ok {
      assert dim[3..5] == data[pos + 3..pos + 5] && dim[1..3] == data[pos + 1..pos + 3];
      cfg := cfg.(width := BE16(dim[3..5]), height := BE16(dim[1..3]));
    }
  }

  /**
   * The resize check: a buffer shorter than n is replaced by a new one of
   * length n; a buffer long enough is kept and reused.
   */
  method Grow(buf: array<byte>, n: nat) returns (b: array<byte>)
    ensures b.Length == if buf.Length < n then n else buf.Length
    ensures buf.Length >= n ==> b == buf
    ensures buf.Length < n ==> fresh(b)
  {
    b := buf;
    if b.Length < n {
      b := new byte[n];
    }
  }

  /** Reads the payload into the front of the buffer; the rest is left as it was. */
  method Fill(buf: array<byte>, payload: seq<byte>)
    requires |payload| <= buf.Length
    modifies buf
    ensures buf[..|payload|] == payload
    ensures buf[|payload|..] == old(buf[|payload|..])
  {
    forall i | 0 <= i < |payload| {
      buf[i] := payload[i];
    }
  }

  /**
   * The parser itself: the SOI check, then the marker loop.
   */
  method DecodeConfig(data: seq<byte>) returns (d: Decoded)
    ensures d == ConfigOf(data)
  {
    var ok, magic, pos := ReadFull(data, 0, 2);
    if !ok {
      return Decoded(Blank, Some(ReadError), pos);
    }
    if magic != Header {
      return Decoded(Blank, Some(Invalid), pos);
    }
    d := WalkSegments(data, pos);
  }

  /**
   * The marker loop from the header at pos. The scratch buffer buf is
   * reallocated larger when a segment is longer than it, so it never
   * shrinks, its length is always the longest segment length seen so far,
   * and buf[..L - 2] is in bounds whenever L >= 2.
   */
  method WalkSegments(data: seq<byte>, start: nat) returns (d: Decoded)
    requires start <= |data|
    ensures d == Walk(data, start)
  {
    var cfg := Blank;
    var pos := start;
    var ok: bool;
    var err: Option<Error> := None;
    var buf := new byte[0];
    ghost var lengths: seq<int> := [];
    while true
      invariant start <= pos <= |data|
      invariant Walk(data, pos) == Walk(data, start)
      invariant fresh(buf)
      invariant buf.Length == MaxOf(lengths)
      decreases |data| - pos
    {
      ghost var turn := TurnAt(data, pos);
      WalkTurn(data, pos);
      var h;
      ok, h, pos := ReadSegmentHeader(data, pos);
      if !ok {
        err := Some(ReadError);
        break;
      }
      if h.sentinel != Sentinel {
        err := Some(Invalid);
        break;
      }
      if IsStartOfFrame(h.marker) {
        ok, cfg, pos := ReadFrameFields(data, pos);
        if ok {
          return Decoded(cfg, None, pos);
        }
        return Decoded(cfg, Some(ReadError), pos);
      }
      ghost var before := buf.Length;
      buf := Grow(buf, h.length);
      lengths := lengths + [h.length];
      assert buf.Length >= before && buf.Length >= h.length;
      if h.length < 2 {
        return Decoded(cfg, Some(SliceBoundsPanic), pos);
      }
      var payload;
      ok, payload, pos := ReadFull(data, pos, h.length - 2);
      if !ok {
        return Decoded(cfg, Some(ReadError), pos);
      }
      Fill(buf, payload);
      assert turn == Continue(pos);
    }
    return Decoded(cfg, err, pos);
  }

  /** Walk takes one turn, then stops or walks on from the next header. */
  lemma WalkTurn(data: seq<byte>, pos: nat)
    requires pos <= |data|
    ensures TurnAt(data, pos).Stop? ==> Walk(data, pos) == TurnAt(data, pos).result
    ensures TurnAt(data, pos).Continue? ==> Walk(data, pos) == Walk(data, TurnAt(data, pos).next)
  {
  }

  /**
   * Where the loop goes on after the segment at p when it skips that
   * segment: a complete header with the sentinel, a marker other than
   * SOF0-SOF2, a length L >= 2 and all L - 2 payload bytes present.
   */
  function SkipTarget(data: seq<byte>, p: nat): (r: Option<nat>)
    requires p <= |data|
    ensures r.Some? ==> p + SegmentHeaderSize <= r.value <= |data|
  {
    if |data| - p < SegmentHeaderSize then None
    else
      var h := ParseSegmentHeader(data[p..p + SegmentHeaderSize]);
      if h.sentinel == Sentinel && !IsStartOfFrame(h.marker) && h.length >= 2 && p + 2 + h.length <= |data|
      then Some(p + 2 + h.length)
      else None
  }

  /** q is reached from p by skipping zero or more whole segments. */
  predicate Chain(data: seq<byte>, p: nat, q: nat)
    requires p <= |data|
    decreases |data| - p
  {
    p == q || (SkipTarget(data, p).Some? && Chain(data, SkipTarget(data, p).value, q))
  }

  /** A complete SOF0-SOF2 header and its frame fields start at q. */
  predicate FrameAt(data: seq<byte>, q: nat)
  {
    && q + SegmentHeaderSize + FrameFieldsSize <= |data|
    && data[q] == Sentinel
    && IsStartOfFrame(data[q + 1])
  }

  /** The dimensions of the frame at q: height at q + 5, width at q + 7, both big-endian. */
  function FrameConfig(data: seq<byte>, q: nat): Config
    requires FrameAt(data, q)
  {
    Config(RGBAModel, BE16(data[q + 7..q + 9]), BE16(data[q + 5..q + 7]))
  }

  /** The segment header at p, field by field. */
  lemma HeaderAt(data: seq<byte>, p: nat)
    requires p + SegmentHeaderSize <= |data|
    ensures ParseSegmentHeader(data[p..p + SegmentHeaderSize])
      == SegmentHeader(data[p], data[p + 1], BE16(data[p + 2..p + 4]))
  {
    assert data[p..p + SegmentHeaderSize][2..4] == data[p + 2..p + 4];
  }

  /** A skipped segment starting at p is followed by the next header at p + 2 + L. */
  lemma SkipSegment(data: seq<byte>, p: nat)
    requires p + SegmentHeaderSize <= |data|
    requires data[p] == Sentinel && !IsStartOfFrame(data[p + 1])
    requires 2 <= BE16(data[p + 2..p + 4]) && p + 2 + BE16(data[p + 2..p + 4]) <= |data|
    ensures SkipTarget(data, p) == Some(p + 2 + BE16(data[p + 2..p + 4]))
    ensures Walk(data, p) == Walk(data, p + 2 + BE16(data[p + 2..p + 4]))
  {
    HeaderAt(data, p);
    WalkTurn(data, p);
  }

  /** A frame header at q ends the walk with its dimensions, 9 bytes past q. */
  lemma FrameWalk(data: seq<byte>, q: nat)
    requires FrameAt(data, q)
    ensures Walk(data, q) == Decoded(FrameConfig(data, q), None, q + SegmentHeaderSize + FrameFieldsSize)
  {
    HeaderAt(data, q);
    WalkTurn(data, q);
  }

  /** A header whose first byte is not the sentinel is invalid; nothing after it is read. */
  lemma BadSentinel(data: seq<byte>, p: nat)
    requires p + SegmentHeaderSize <= |data| && data[p] != Sentinel
    ensures Walk(data, p) == Decoded(Blank, Some(Invalid), p + SegmentHeaderSize)
  {
    WalkTurn(data, p);
  }

  /** A stream that ends inside a segment header is a read error. */
  lemma TruncatedHeader(data: seq<byte>, p: nat)
    requires p <= |data| < p + SegmentHeaderSize
    ensures Walk(data, p) == Decoded(Blank, Some(ReadError), |data|)
  {
    WalkTurn(data, p);
  }

  /** A stream that ends inside the payload of a segment being skipped is a read error. */
  lemma TruncatedPayload(data: seq<byte>, p: nat)
    requires p + SegmentHeaderSize <= |data|
    requires data[p] == Sentinel && !IsStartOfFrame(data[p + 1])
    requires 2 <= BE16(data[p + 2..p + 4]) && |data| < p + 2 + BE16(data[p + 2..p + 4])
    ensures Walk(data, p) == Decoded(Blank, Some(ReadError), |data|)
  {
    HeaderAt(data, p);
    WalkTurn(data, p);
  }

  /** Skipping whole segments never changes the outcome. */
  lemma {:induction false} ChainWalk(data: seq<byte>, p: nat, q: nat)
    requires p <= |data| && Chain(data, p, q)
    ensures q <= |data| && Walk(data, p) == Walk(data, q)
    decreases |data| - p
  {
    if p != q {
      var t := SkipTarget(data, p).value;
      HeaderAt(data, p);
      WalkTurn(data, p);
      ChainWalk(data, t, q);
    }
  }

  /**
   * A success always comes from a frame reached by skipping whole segments,
   * and the frame fields are the last bytes read.
   */
  lemma {:induction false} SuccessMeansFrame(data: seq<byte>, p: nat)
    requires p <= |data| && Walk(data, p).err == None
    ensures
      var r := Walk(data, p);
      var q := r.consumed - SegmentHeaderSize - FrameFieldsSize;
      && p <= q
      && Chain(data, p, q)
      && FrameAt(data, q)
      && r.cfg == FrameConfig(data, q)
    decreases |data| - p
  {
    WalkTurn(data, p);
    HeaderAt(data, p);
    match TurnAt(data, p)
    case Stop(r) =>
      assert FrameAt(data, p);
    case Continue(next) =>
      assert SkipTarget(data, p) == Some(next);
      SuccessMeansFrame(data, next);
  }

  /** Only the first SOF0-SOF2 segment on the chain determines the result. */
  lemma FirstFrameWins(data: seq<byte>, q: nat)
    requires |data| >= 2 && data[..2] == Header
    requires Chain(data, 2, q) && FrameAt(data, q)
    ensures ConfigOf(data) == Decoded(FrameConfig(data, q), None, q + SegmentHeaderSize + FrameFieldsSize)
  {
    ChainWalk(data, 2, q);
    FrameWalk(data, q);
  }

  /** Without a reachable frame the result is an error, never a configuration. */
  lemma NoFrameNoConfig(data: seq<byte>)
    requires |data| >= 2 && data[..2] == Header
    requires forall q :: 2 <= q <= |data| && Chain(data, 2, q) ==> !FrameAt(data, q)
    ensures ConfigOf(data).err != None && ConfigOf(data).cfg == Blank
  {
    if ConfigOf(data).err == None {
      SuccessMeansFrame(data, 2);
    }
  }

  /** Bytes after the frame fields are never read: appending them changes nothing. */
  lemma {:induction false} ExtendAfterSuccess(data: seq<byte>, extra: seq<byte>, p: nat)
    requires p <= |data| && Walk(data, p).err == None
    ensures Walk(data + extra, p) == Walk(data, p)
    decreases |data| - p
  {
    var long := data + extra;
    WalkTurn(data, p);
    WalkTurn(long, p);
    HeaderAt(data, p);
    HeaderAt(long, p);
    assert long[p + 2..p + 4] == data[p + 2..p + 4];
    var body := p + SegmentHeaderSize;
    match TurnAt(data, p)
    case Stop(r) =>
      assert long[body + 3..body + 5] == data[body + 3..body + 5];
      assert long[body + 1..body + 3] == data[body + 1..body + 3];
      assert TurnAt(long, p) == TurnAt(data, p);
    case Continue(next) =>
      assert TurnAt(long, p) == Continue(next);
      ExtendAfterSuccess(data, extra, next);
  }

  /**
   * Cutting the stream anywhere inside the bytes a successful walk reads
   * gives a read error, with the whole cut stream consumed.
   */
  lemma {:induction false} CutGivesReadError(data: seq<byte>, p: nat, k: nat)
    requires p <= |data| && Walk(data, p).err == None
    requires p <= k < Walk(data, p).consumed
    ensures Walk(data[..k], p) == Decoded(Blank, Some(ReadError), k)
    decreases |data| - p
  {
    var cut := data[..k];
    WalkTurn(data, p);
    WalkTurn(cut, p);
    if k >= p + SegmentHeaderSize {
      assert cut[p..p + SegmentHeaderSize] == data[p..p + SegmentHeaderSize];
      match TurnAt(data, p)
      case Stop(r) =>
      case Continue(next) =>
        if next <= k {
          assert TurnAt(cut, p) == Continue(next);
          assert cut[..next] == data[..next];
          CutGivesReadError(data, next, k);
        }
    }
  }

  /** A truncated stream never yields a wrong configuration: it fails or agrees with the whole. */
  lemma TruncationNeverWrong(data: seq<byte>, k: nat)
    requires k <= |data|
    ensures ConfigOf(data[..k]).err == None ==> ConfigOf(data[..k]) == ConfigOf(data)
  {
    if ConfigOf(data[..k]).err == None {
      assert data[..k] + data[k..] == data;
      assert data[..k][..2] == data[..2];
      ExtendAfterSuccess(data[..k], data[k..], 2);
    }
  }

  /** Under two bytes is a read error; two bytes other than FF D8 are invalid, with no segment read. */
  lemma BadMagic(data: seq<byte>)
    ensures |data| < 2 ==> ConfigOf(data) == Decoded(Blank, Some(ReadError), |data|)
    ensures |data| >= 2 && data[..2] != Header ==> ConfigOf(data) == Decoded(Blank, Some(Invalid), 2)
  {
  }

  /**
   * SOI, an APP0 segment of length 16, then an SOF0 frame header with
   * precision 8, height 0x0140 and width 0x00F0: the result is 240 x 320.
   * A C3 (lossless) frame in front of it is skipped like any other segment.
   */
  lemma SkipThenFrame(payload: seq<byte>)
    requires |payload| == 14
    ensures
      var data := Header + [0xFF, 0xE0, 0x00, 0x10] + payload
        + [0xFF, 0xC3, 0x00, 0x02]
        + [0xFF, 0xC0, 0x00, 0x11, 0x08, 0x01, 0x40, 0x00, 0xF0];
      ConfigOf(data) == Decoded(Config(RGBAModel, 240, 320), None, 33)
  {
    var data := Header + [0xFF, 0xE0, 0x00, 0x10] + payload
      + [0xFF, 0xC3, 0x00, 0x02]
      + [0xFF, 0xC0, 0x00, 0x11, 0x08, 0x01, 0x40, 0x00, 0xF0];
    assert data[..2] == Header;
    SkipSegment(data, 2);
    SkipSegment(data, 20);
    assert FrameAt(data, 24);
    FrameWalk(data, 24);
    assert data[29..31] == [0x01, 0x40] && data[31..33] == [0x00, 0xF0];
  }

  /** The sentinel check applies to the byte after a skipped payload. */
  lemma SkipThenBadSentinel(payload: seq<byte>)
    requires |payload| == 14
    ensures
      var data := Header + [0xFF, 0xE0, 0x00, 0x10] + payload + [0x00, 0xC0, 0x00, 0x11];
      ConfigOf(data) == Decoded(Blank, Some(Invalid), 24)
  {
    var data := Header + [0xFF, 0xE0, 0x00, 0x10] + payload + [0x00, 0xC0, 0x00, 0x11];
    assert data[..2] == Header;
    SkipSegment(data, 2);
    BadSentinel(data, 20);
  }

  /**
   * As written, a segment length of 0 or 1 makes buf[:L - 2] a negative
   * slice bound: the parser panics instead of returning an error.
   */
  lemma ShortLengthPanics(length: byte)
    requires length < 2
    ensures ConfigOf(Header + [0xFF, 0xE0, 0x00, length]) == Decoded(Blank, Some(SliceBoundsPanic), 6)
  {
    var data := Header + [0xFF, 0xE0, 0x00, length];
    assert data[..2] == Header;
    assert data[2..6] == [0xFF, 0xE0, 0x00, length];
    assert data[2..6][2..4] == [0x00, length];
  }

  /**
   * The evidently intended marker loop: Walk with a segment length below 2
   * rejected as ErrInvalid before the payload slice is taken.
   */
  function CheckedWalk(data: seq<byte>, pos: nat): (r: Decoded)
    requires pos <= |data|
    ensures pos <= r.consumed <= |data|
    ensures r.err != None ==> r.cfg == Blank
    ensures r.err == None ==>
      && pos + SegmentHeaderSize + FrameFieldsSize <= r.consumed
      && 0 <= r.cfg.width < U16_LIMIT && 0 <= r.cfg.height < U16_LIMIT
    decreases |data| - pos
  {
    if |data| - pos < SegmentHeaderSize then Decoded(Blank, Some(ReadError), |data|)
    else
      var h := ParseSegmentHeader(data[pos..pos + SegmentHeaderSize]);
      var body := pos + SegmentHeaderSize;
      if h.sentinel != Sentinel then Decoded(Blank, Some(Invalid), body)
      else if IsStartOfFrame(h.marker) then
        if |data| - body < FrameFieldsSize then Decoded(Blank, Some(ReadError), |data|)
        else Decoded(Config(RGBAModel, BE16(data[body + 3..body + 5]), BE16(data[body + 1..body + 3])),
                     None, body + FrameFieldsSize)
      else if h.length < 2 then Decoded(Blank, Some(Invalid), body)
      else if |data| - body < h.length - 2 then Decoded(Blank, Some(ReadError), |data|)
      else CheckedWalk(data, body + h.length - 2)
  }

  /**
   * The checked loop never panics, agrees with the original wherever that
   * does not panic, and reports ErrInvalid at the point where it panics.
   */
  lemma {:induction false} CheckedAgrees(data: seq<byte>, pos: nat)
    requires pos <= |data|
    ensures CheckedWalk(data, pos).err != Some(SliceBoundsPanic)
    ensures Walk(data, pos).err != Some(SliceBoundsPanic) ==> CheckedWalk(data, pos) == Walk(data, pos)
    ensures Walk(data, pos).err == Some(SliceBoundsPanic) ==>
      CheckedWalk(data, pos) == Decoded(Blank, Some(Invalid), Walk(data, pos).consumed)
    decreases |data| - pos
  {
    WalkTurn(data, pos);
    if TurnAt(data, pos).Continue? {
      CheckedAgrees(data, TurnAt(data, pos).next);
    }
  }

  /** The evidently intended parser: the SOI check, then the checked marker loop. */
  function CheckedConfigOf(data: seq<byte>): (r: Decoded)
    ensures r.err != Some(SliceBoundsPanic)
    ensures ConfigOf(data).err != Some(SliceBoundsPanic) ==> r == ConfigOf(data)
    ensures ConfigOf(data).err == Some(SliceBoundsPanic) ==>
      r == Decoded(Blank, Some(Invalid), ConfigOf(data).consumed)
  {
    if |data| < 2 then Decoded(Blank, Some(ReadError), |data|)
    else if data[..2] != Header then Decoded(Blank, Some(Invalid), 2)
    else
      CheckedAgrees(data, 2);
      CheckedWalk(data, 2)
  }

  /** The corrected parser rejects a too-short length as invalid. */
  lemma CheckedShortLength(length: byte)
    requires length < 2
    ensures CheckedConfigOf(Header + [0xFF, 0xE0, 0x00, length]) == Decoded(Blank, Some(Invalid), 6)
  {
    var data := Header + [0xFF, 0xE0, 0x00, length];
    assert data[..2] == Header;
    assert data[2..6] == [0xFF, 0xE0, 0x00, length];
    assert data[2..6][2..4] == [0x00, length];
  }
}
