/**
 * What the `valid` flag of a packet guarantees, and where the checksum byte of the
 * LD19 layout sits relative to the byte that flag is compared with.
 *
 * The LD19 data sheet, not this repository, gives that layout: a 47-byte frame with
 * the checksum of bytes 0..45 at offset 46. LD19Packet._val instead
 * runs the CRC over bytes 0..46, which includes that checksum byte, and compares the
 * result with byte 47. `ChecksumMatches` is the check at offset 46.
 */
module FrameChecks {
  import opened Bytes
  import opened Crc
  import opened Packet
  import opened Wire

  /** Changing byte k of a buffer changes byte k of every prefix that covers it. */
  lemma PrefixOfUpdate(raw: seq<byte>, n: nat, k: nat, b: byte)
    requires k < n <= |raw|
    ensures raw[k := b][..n] == raw[..n][k := b]
  {
  }

  /** `valid` holds for every buffer whose byte 47 is the CRC of bytes 0..46, whatever byte 48 is. */
  lemma ValidWhenSealedAt47(s: seq<byte>, last: byte)
    requires |s| == 47
    ensures FrameOf(s + [Crc8(s), last]).valid
  {
    var raw := s + [Crc8(s), last];
    assert raw[..47] == s;
  }

  /** A valid packet turns invalid when any one of bytes 0..46 is changed. */
  lemma ValidDetectsByteChange(raw: seq<byte>, k: nat, b: byte)
    requires |raw| == FrameSize && FrameOf(raw).valid
    requires k < 47 && b != raw[k]
    ensures !FrameOf(raw[k := b]).valid
  {
    PrefixOfUpdate(raw, 47, k, b);
    Crc8DetectsByteChange(raw[..47], k, b);
  }

  /**
   * A buffer whose byte 46 is the CRC of bytes 0..45 (the LD19 layout) is reported valid
   * exactly when byte 47 is zero: the CRC over bytes 0..46 is then always 0.
   */
  lemma ValidForSealedFrameIffZero(p: seq<byte>, rest: seq<byte>)
    requires |p| == 46 && |rest| == 2
    ensures FrameOf(p + [Crc8(p)] + rest).valid <==> rest[0] == 0
  {
    var raw := p + [Crc8(p)] + rest;
    assert raw[..47] == p + [Crc8(p)];
    Crc8Residue(p);
  }

  /**
   * Back to back on the wire, byte 47 of the buffer is the next frame's header 0x54, so
   * a frame with a correct checksum at offset 46 is reported invalid.
   */
  lemma SealedFrameReportedInvalid(p: seq<byte>, verLen: byte)
    requires |p| == 46
    ensures !FrameOf(p + [Crc8(p)] + [Header, verLen]).valid
  {
    ValidForSealedFrameIffZero(p, [Header, verLen]);
  }

  /**
   * The checksum test at offset 46: the CRC of bytes 0..45 equals byte 46. It passes
   * exactly when the CRC over bytes 0..46, the range LD19Packet._val covers, is 0.
   */
  function ChecksumMatches(raw: seq<byte>): (ok: bool)
    requires |raw| == FrameSize
    ensures ok <==> Crc8(raw[..47]) == 0
  {
    assert raw[..47] == raw[..46] + [raw[46]];
    Crc8ZeroIff(raw[..46], raw[46]);
    Crc8(raw[..46]) == raw[46]
  }

  /** A buffer with the checksum of bytes 0..45 at offset 46 passes, whatever follows it. */
  lemma ChecksumAcceptsSealed(p: seq<byte>, rest: seq<byte>)
    requires |p| == 46 && |rest| == 2
    ensures ChecksumMatches(p + [Crc8(p)] + rest)
  {
    var raw := p + [Crc8(p)] + rest;
    assert raw[..46] == p;
  }

  /**
   * A reading whose checksum byte is the CRC of the bytes before it passes the check at
   * offset 46, whatever its trailer; LD19Packet reports it valid only when the first
   * trailer byte is zero.
   */
  lemma SealedReadingPasses(r: Reading)
    requires WellFormed(r) && r.checksum == Crc8(Encode(r)[..46])
    ensures ChecksumMatches(Encode(r))
    ensures FrameOf(Encode(r)).valid <==> r.trailer[0] == 0
  {
    var raw := Encode(r);
    EncodeTail(r);
    var p := raw[..46];
    assert raw == p + [Crc8(p)] + r.trailer;
    ChecksumAcceptsSealed(p, r.trailer);
    ValidForSealedFrameIffZero(p, r.trailer);
  }

  /** A buffer that passes fails once any one of the covered bytes 0..45 is changed. */
  lemma ChecksumDetectsDataChange(raw: seq<byte>, k: nat, b: byte)
    requires |raw| == FrameSize && ChecksumMatches(raw)
    requires k < 46 && b != raw[k]
    ensures !ChecksumMatches(raw[k := b])
  {
    PrefixOfUpdate(raw, 46, k, b);
    Crc8DetectsByteChange(raw[..46], k, b);
  }

  /** A buffer that passes fails once its checksum byte 46 is changed. */
  lemma ChecksumDetectsChecksumChange(raw: seq<byte>, b: byte)
    requires |raw| == FrameSize && ChecksumMatches(raw)
    requires b != raw[46]
    ensures !ChecksumMatches(raw[46 := b])
  {
    assert raw[46 := b][..46] == raw[..46];
  }

  /**
   * The crc field of a packet is the timestamp word read again: it does not depend on
   * byte 46, the checksum byte of the layout.
   */
  lemma CrcFieldIgnoresChecksumByte(raw: seq<byte>, c: byte)
    requires |raw| == FrameSize
    ensures FrameOf(raw[46 := c]).crc == FrameOf(raw).crc == FrameOf(raw).timestamp
  {
    assert raw[46 := c][44] == raw[44] && raw[46 := c][45] == raw[45];
  }

  /**
   * The checksum byte of the layout, as the crc field would hold it if read from offset
   * 46: the checksum test passes exactly when it equals the CRC of bytes 0..45.
   */
  function ChecksumField(raw: seq<byte>): (c: nat)
    requires |raw| == FrameSize
    ensures c < 0x100
    ensures ChecksumMatches(raw) <==> c == Crc8(raw[..46]) as nat
  {
    raw[46] as nat
  }

  /** Read from offset 46, the field follows the checksum byte and leaves the timestamp alone. */
  lemma ChecksumFieldFollowsByte(raw: seq<byte>, c: byte)
    requires |raw| == FrameSize
    ensures ChecksumField(raw[46 := c]) == c as nat
    ensures FrameOf(raw[46 := c]).timestamp == FrameOf(raw).timestamp
  {
    var changed := raw[46 := c];
    assert changed[44] == raw[44] && changed[45] == raw[45];
    assert LE16(changed, 44) == LE16(raw, 44);
  }
}
