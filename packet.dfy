/**
 * LD19Packet: one fixed-size frame cut from the sensor's byte stream, its CRC check
 * (_val) and its field decoding (_parse).
 *
 * Byte layout read by the decoder (offsets into the 49-byte buffer):
 *   0 header, 1 ver_len, 2-3 speed, 4-5 start angle,
 *   6-41 twelve samples of (distance: 2 bytes, intensity: 1 byte),
 *   42-43 end angle, 44-45 timestamp, 46-48 not decoded.
 * The CRC check compares the checksum of bytes 0..46 with byte 47.
 */
module Packet {
  import opened Bytes
  import opened Crc
  import opened Angles

  /** FRAME_SIZE: bytes per frame buffer. */
  const FrameSize: nat := 49

  /** HEADER: the byte that starts every frame. */
  const Header: byte := 0x54

  /** Offset of the first sample: after header, ver_len, speed and start angle. */
  const SamplesOffset: nat := 6

  /** LDPoint: one range sample with the angle interpolation gave it. */
  datatype Point = Point(distance: nat, intensity: byte, angle: real)

  /** The fields an LD19Packet holds once its constructor has returned. */
  datatype Frame = Frame(
    raw: seq<byte>,
    valid: bool,
    header: byte,
    verLen: byte,
    speed: word,
    startAngle: real,
    points: seq<Point>,
    endAngle: real,
    timestamp: word,
    crc: word)

  /** Outcome of LD19Packet(raw): a packet, or the ValueError raised for a wrong length. */
  datatype Decoded = Packet(frame: Frame) | InvalidLength

  /**
   * The outcome of _val on a buffer of at least two bytes: the CRC of every byte but the
   * last two, compared with the second-to-last byte. Equivalently, the CRC of every byte
   * but the last is 0.
   */
  function CrcMatches(raw: seq<byte>): (ok: bool)
    requires |raw| >= 2
    ensures ok <==> Crc8(raw[..|raw| - 1]) == 0
  {
    assert raw[..|raw| - 1][..|raw| - 2] == raw[..|raw| - 2];
    Crc8(raw[..|raw| - 2]) == raw[|raw| - 2]
  }

  /** The sample at index k as the first _parse loop creates it, before its angle is set. */
  function Sample(raw: seq<byte>, k: nat): (p: Point)
    requires |raw| == FrameSize && k < PointsPerPack
    ensures p.distance < 0x1_0000 && p.angle == 0.0
  {
    var offset := SamplesOffset + 3 * k;
    Point(LE16(raw, offset) as nat, raw[offset + 2], 0.0)
  }

  /** The start angle word at offset 4, in degrees. */
  function StartAngle(raw: seq<byte>): (a: real)
    requires |raw| == FrameSize
    ensures 0.0 <= a && a * 100.0 == LE16(raw, 4) as int as real
  {
    Degrees(LE16(raw, 4))
  }

  /** The end angle word at offset 42, in degrees. */
  function EndAngle(raw: seq<byte>): (a: real)
    requires |raw| == FrameSize
    ensures 0.0 <= a && a * 100.0 == LE16(raw, 42) as int as real
  {
    Degrees(LE16(raw, 42))
  }

  /** The twelve points of a frame, each with its interpolated angle. */
  function Points(raw: seq<byte>): (ps: seq<Point>)
    requires |raw| == FrameSize
    ensures |ps| == PointsPerPack
    ensures forall k :: 0 <= k < PointsPerPack ==>
      ps[k].distance == Sample(raw, k).distance && ps[k].intensity == Sample(raw, k).intensity
  {
    var start := StartAngle(raw);
    var span := Span(start, EndAngle(raw));
    seq(PointsPerPack, k requires 0 <= k < PointsPerPack => Sample(raw, k).(angle := PointAngle(start, span, k)))
  }

  /** A sequence holding every sample with its interpolated angle is the frame's point list. */
  lemma PointsWithAngles(raw: seq<byte>, points: seq<Point>, start: real, span: real)
    requires |raw| == FrameSize && |points| == PointsPerPack
    requires start == StartAngle(raw) && span == Span(start, EndAngle(raw))
    requires forall j :: 0 <= j < PointsPerPack ==> points[j] == Sample(raw, j).(angle := PointAngle(start, span, j))
    ensures points == Points(raw)
  {
  }

  /** The packet LD19Packet(raw) builds from a buffer of the right length. */
  function FrameOf(raw: seq<byte>): (f: Frame)
    requires |raw| == FrameSize
    ensures f.raw == raw && f.header == raw[0] && |f.points| == PointsPerPack
    ensures f.crc == f.timestamp
  {
    Frame(raw, CrcMatches(raw), raw[0], raw[1], LE16(raw, 2), StartAngle(raw), Points(raw),
          EndAngle(raw), LE16(raw, 44), LE16(raw, 44))
  }

  /** Point 0 sits at the start angle, point 11 at the end angle (plus 360 when the frame crosses 0 degrees). */
  lemma FrameEndpoints(raw: seq<byte>)
    requires |raw| == FrameSize
    ensures var f := FrameOf(raw);
      && f.points[0].angle == f.startAngle
      && (f.endAngle >= f.startAngle ==> f.points[PointsPerPack - 1].angle == f.endAngle)
      && (f.endAngle < f.startAngle ==> f.points[PointsPerPack - 1].angle == f.endAngle + 360.0)
  {
    var f := FrameOf(raw);
    var start, end, ps := StartAngle(raw), EndAngle(raw), Points(raw);
    assert f.points == ps && f.startAngle == start && f.endAngle == end;
    assert ps[0].angle == PointAngle(start, Span(start, end), 0);
    assert ps[PointsPerPack - 1].angle == PointAngle(start, Span(start, end), PointsPerPack - 1);
    FirstPointAtStart(start, Span(start, end));
    LastPointAtEnd(start, end);
  }

  /**
   * When both angle words are below 36000 (360 degrees), the span lies in [0, 360)
   * and the point angles never decrease along the frame.
   */
  lemma FrameAnglesOrdered(raw: seq<byte>)
    requires |raw| == FrameSize && LE16(raw, 4) < 36000 && LE16(raw, 42) < 36000
    ensures var f := FrameOf(raw);
      && 0.0 <= Span(f.startAngle, f.endAngle) < 360.0
      && forall i, j :: 0 <= i <= j < PointsPerPack ==> f.points[i].angle <= f.points[j].angle
  {
    var f := FrameOf(raw);
    var start, end, ps := StartAngle(raw), EndAngle(raw), Points(raw);
    assert f.points == ps && f.startAngle == start && f.endAngle == end;
    DegreesBelowCircle(LE16(raw, 4));
    DegreesBelowCircle(LE16(raw, 42));
    SpanInCircle(start, end);
    forall i, j | 0 <= i <= j < PointsPerPack
      ensures ps[i].angle <= ps[j].angle
    {
      AnglesNonDecreasing(start, Span(start, end), i, j);
    }
  }

  /** LD19Packet(raw): a packet exactly when the buffer holds FRAME_SIZE bytes. */
  function Decode(raw: seq<byte>): (r: Decoded)
    ensures r.InvalidLength? <==> |raw| != FrameSize
    ensures r.Packet? ==> r.frame.raw == raw && |r.frame.points| == PointsPerPack
  {
    if |raw| != FrameSize then InvalidLength else Packet(FrameOf(raw))
  }

  /** _val: the running CRC loop over raw[0:-2], compared with raw[-2]. */
  method CheckCrc(raw: seq<byte>) returns (valid: bool)
    requires |raw| >= 2
    ensures valid <==> Crc8(raw[..|raw| - 2]) == raw[|raw| - 2]
  {
    var crc: byte := 0;
    var i := 0;
    while i < |raw| - 2
      invariant 0 <= i <= |raw| - 2
      invariant crc == Crc8(raw[..i])
    {
      assert raw[..i + 1] == raw[..i] + [raw[i]];
      Crc8Append(raw[..i], raw[i]);
      StepLooksUpTable(crc, raw[i]);
      crc := Table()[(crc ^ raw[i]) as int];
      i := i + 1;
    }
    var frameCrc := raw[|raw| - 2];
    valid := crc == frameCrc;
  }

  /**
   * The first loop of _parse: twelve samples read from offset 6 on, three bytes each,
   * appended in order; returns them with the offset the loop stops at.
   */
  method ReadSamples(raw: seq<byte>) returns (points: seq<Point>, offset: nat)
    requires |raw| == FrameSize
    ensures |points| == PointsPerPack
    ensures forall j :: 0 <= j < PointsPerPack ==> points[j] == Sample(raw, j)
    ensures offset == SamplesOffset + 3 * PointsPerPack == 42
  {
    points := [];
    offset := SamplesOffset;
    var k := 0;
    while k < PointsPerPack
      invariant 0 <= k <= PointsPerPack
      invariant offset == SamplesOffset + 3 * k
      invariant |points| == k
      invariant forall j :: 0 <= j < k ==> points[j] == Sample(raw, j)
    {
      var dist := LE16(raw, offset) as nat;
      var intensity := raw[offset + 2];
      points := points + [Point(dist, intensity, 0.0)];
      offset := offset + 3;
      k := k + 1;
    }
  }

  /**
   * The second loop of _parse: gives point i the angle `start + (span * i) / 11`,
   * leaving distance and intensity as they were.
   */
  method SetAngles(points: seq<Point>, start: real, span: real) returns (out: seq<Point>)
    ensures |out| == |points|
    ensures forall j :: 0 <= j < |points| ==> out[j] == points[j].(angle := PointAngle(start, span, j))
  {
    out := points;
    var i := 0;
    while i < |out|
      invariant 0 <= i <= |out| == |points|
      invariant forall j :: 0 <= j < i ==> out[j] == points[j].(angle := PointAngle(start, span, j))
      invariant forall j :: i <= j < |points| ==> out[j] == points[j]
    {
      out := out[i := out[i].(angle := start + (span * i as real) / (PointsPerPack - 1) as real)];
      i := i + 1;
    }
  }

  /**
   * _parse: reads the scalar fields and the samples, interpolates the angles, and
   * reads the timestamp and the crc field, both from offset 44.
   */
  method Parse(raw: seq<byte>, valid: bool) returns (f: Frame)
    requires |raw| == FrameSize
    ensures f == FrameOf(raw).(valid := valid)
  {
    var header := raw[0];
    var verLen := raw[1];
    var speed := LE16(raw, 2);
    var startAngle := Degrees(LE16(raw, 4));

    var points, offset := ReadSamples(raw);

    var endAngle := Degrees(LE16(raw, offset));
    var angleDiff := endAngle - startAngle;
    if angleDiff < 0.0 {
      angleDiff := angleDiff + 360.0;
    }
    assert startAngle == StartAngle(raw) && endAngle == EndAngle(raw);
    assert angleDiff == Span(startAngle, endAngle);
    var samples := points;
    points := SetAngles(samples, startAngle, angleDiff);
    PointsWithAngles(raw, points, startAngle, angleDiff);

    var timestamp := LE16(raw, offset + 2);
    offset := offset + 2;
    var crc := LE16(raw, offset);
    f := Frame(raw, valid, header, verLen, speed, startAngle, points, endAngle, timestamp, crc);
  }

  /** LD19Packet.__init__: rejects a buffer of the wrong length, else checks the CRC and parses. */
  method NewPacket(raw: seq<byte>) returns (r: Decoded)
    ensures r == Decode(raw)
  {
    if |raw| != FrameSize || raw == [] {
      return InvalidLength;
    }
    var valid := CheckCrc(raw);
    var f := Parse(raw, valid);
    return Packet(f);
  }
}
