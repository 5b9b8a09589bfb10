/**
 * The frame as the sensor writes it: the raw words and bytes at their offsets, before
 * any scaling or interpolation. Encoding a reading and cutting the words back out of
 * the bytes are inverse to each other, and the decoded packet is a function of them.
 */
module Wire {
  import opened Bytes
  import opened Crc
  import opened Angles
  import opened Packet

  /** One sample as transmitted: a distance word and an intensity byte. */
  datatype RawSample = RawSample(distance: word, intensity: byte)

  /** Every field of a 49-byte frame buffer, in wire order. */
  datatype Reading = Reading(
    header: byte,
    verLen: byte,
    speed: word,
    startAngle: word,
    samples: seq<RawSample>,
    endAngle: word,
    timestamp: word,
    checksum: byte,
    trailer: seq<byte>)

  /** A reading that fills exactly one frame buffer. */
  predicate WellFormed(r: Reading)
  {
    |r.samples| == PointsPerPack && |r.trailer| == 2
  }

  /** The samples laid out three bytes each: distance low, distance high, intensity. */
  function SampleBytes(ss: seq<RawSample>): (b: seq<byte>)
    ensures |b| == 3 * |ss|
  {
    if ss == [] then [] else WordBytes(ss[0].distance) + [ss[0].intensity] + SampleBytes(ss[1..])
  }

  /** Sample k occupies bytes 3k, 3k+1 and 3k+2 of the sample block. */
  lemma {:induction false} SampleBytesAt(ss: seq<RawSample>, k: nat)
    requires k < |ss|
    ensures var b := SampleBytes(ss);
      b[3 * k] == Low(ss[k].distance) && b[3 * k + 1] == High(ss[k].distance) && b[3 * k + 2] == ss[k].intensity
    decreases k
  {
    var b := SampleBytes(ss);
    var first := WordBytes(ss[0].distance) + [ss[0].intensity];
    assert b == first + SampleBytes(ss[1..]);
    if k > 0 {
      SampleBytesAt(ss[1..], k - 1);
      assert ss[1..][k - 1] == ss[k];
      assert 3 * k == 3 + 3 * (k - 1);
    }
  }

  /** The bytes of a frame, field after field. */
  function Encode(r: Reading): (raw: seq<byte>)
    requires WellFormed(r)
    ensures |raw| == FrameSize
  {
    [r.header, r.verLen] + WordBytes(r.speed) + WordBytes(r.startAngle)
      + SampleBytes(r.samples)
      + WordBytes(r.endAngle) + WordBytes(r.timestamp) + [r.checksum] + r.trailer
  }

  /** The raw sample at index k of a frame buffer. */
  function RawSampleAt(raw: seq<byte>, k: nat): RawSample
    requires |raw| == FrameSize && k < PointsPerPack
  {
    RawSample(LE16(raw, SamplesOffset + 3 * k), raw[SamplesOffset + 3 * k + 2])
  }

  /** Every field of a frame buffer, cut out at its offset. */
  function ReadingOf(raw: seq<byte>): (r: Reading)
    requires |raw| == FrameSize
    ensures WellFormed(r)
  {
    Reading(raw[0], raw[1], LE16(raw, 2), LE16(raw, 4),
            seq(PointsPerPack, k requires 0 <= k < PointsPerPack => RawSampleAt(raw, k)),
            LE16(raw, 42), LE16(raw, 44), raw[46], raw[47..])
  }

  /** The three parts of an encoding: the fixed head, the sample block and the tail. */
  lemma EncodeParts(r: Reading)
    requires WellFormed(r)
    ensures Encode(r)[..6] == [r.header, r.verLen] + WordBytes(r.speed) + WordBytes(r.startAngle)
    ensures Encode(r)[6..42] == SampleBytes(r.samples)
    ensures Encode(r)[42..] == WordBytes(r.endAngle) + WordBytes(r.timestamp) + [r.checksum] + r.trailer
  {
    var head := [r.header, r.verLen] + WordBytes(r.speed) + WordBytes(r.startAngle);
    var body := SampleBytes(r.samples);
    var tail := WordBytes(r.endAngle) + WordBytes(r.timestamp) + [r.checksum] + r.trailer;
    assert Encode(r) == head + body + tail;
  }

  /** Where the head fields of a reading land in its encoding. */
  lemma EncodeHead(r: Reading)
    requires WellFormed(r)
    ensures var raw := Encode(r);
      && raw[0] == r.header && raw[1] == r.verLen
      && raw[2] == Low(r.speed) && raw[3] == High(r.speed)
      && raw[4] == Low(r.startAngle) && raw[5] == High(r.startAngle)
  {
    EncodeParts(r);
    var raw := Encode(r);
    assert raw[..6][0] == raw[0] && raw[..6][1] == raw[1] && raw[..6][2] == raw[2];
    assert raw[..6][3] == raw[3] && raw[..6][4] == raw[4] && raw[..6][5] == raw[5];
  }

  /** Where the samples of a reading land in its encoding. */
  lemma EncodeSamples(r: Reading, k: nat)
    requires WellFormed(r) && k < PointsPerPack
    ensures var raw := Encode(r);
      && raw[6 + 3 * k] == Low(r.samples[k].distance) && raw[7 + 3 * k] == High(r.samples[k].distance)
      && raw[8 + 3 * k] == r.samples[k].intensity
  {
    EncodeParts(r);
    SampleBytesAt(r.samples, k);
    var raw := Encode(r);
    assert raw[6..42][3 * k] == raw[6 + 3 * k];
    assert raw[6..42][3 * k + 1] == raw[7 + 3 * k];
    assert raw[6..42][3 * k + 2] == raw[8 + 3 * k];
  }

  /** Where the tail fields of a reading land in its encoding. */
  lemma EncodeTail(r: Reading)
    requires WellFormed(r)
    ensures var raw := Encode(r);
      && raw[42] == Low(r.endAngle) && raw[43] == High(r.endAngle)
      && raw[44] == Low(r.timestamp) && raw[45] == High(r.timestamp)
      && raw[46] == r.checksum && raw[47..] == r.trailer
  {
    EncodeParts(r);
    var raw := Encode(r);
    assert raw[42..][0] == raw[42] && raw[42..][1] == raw[43] && raw[42..][2] == raw[44];
    assert raw[42..][3] == raw[45] && raw[42..][4] == raw[46];
    assert raw[47..] == raw[42..][5..];
  }

  /** A word stored at `offset` as its low and high byte is read back as that word. */
  lemma WordAt(raw: seq<byte>, offset: nat, w: word)
    requires offset + 2 <= |raw| && raw[offset] == Low(w) && raw[offset + 1] == High(w)
    ensures LE16(raw, offset) == w
  {
    WordOfBytes(w);
  }

  /** A buffer holding the fields of a reading at their offsets is cut back into that reading. */
  lemma ReadingFromFields(raw: seq<byte>, r: Reading)
    requires |raw| == FrameSize && WellFormed(r)
    requires raw[0] == r.header && raw[1] == r.verLen && LE16(raw, 2) == r.speed && LE16(raw, 4) == r.startAngle
    requires LE16(raw, 42) == r.endAngle && LE16(raw, 44) == r.timestamp && raw[46] == r.checksum && raw[47..] == r.trailer
    requires forall k :: 0 <= k < PointsPerPack ==> RawSampleAt(raw, k) == r.samples[k]
    ensures ReadingOf(raw) == r
  {
    assert ReadingOf(raw).samples == r.samples;
  }

  /** Every raw sample of an encoded reading is read back where it was written. */
  lemma EncodedSamplesRead(r: Reading)
    requires WellFormed(r)
    ensures forall k :: 0 <= k < PointsPerPack ==> RawSampleAt(Encode(r), k) == r.samples[k]
  {
    var raw := Encode(r);
    forall k | 0 <= k < PointsPerPack
      ensures RawSampleAt(raw, k) == r.samples[k]
    {
      EncodeSamples(r, k);
      WordAt(raw, 6 + 3 * k, r.samples[k].distance);
    }
  }

  /** Cutting the fields out of an encoded reading gives the reading back. */
  lemma ReadingOfEncode(r: Reading)
    requires WellFormed(r)
    ensures ReadingOf(Encode(r)) == r
  {
    var raw := Encode(r);
    EncodeHead(r);
    EncodeTail(r);
    WordAt(raw, 2, r.speed);
    WordAt(raw, 4, r.startAngle);
    WordAt(raw, 42, r.endAngle);
    WordAt(raw, 44, r.timestamp);
    EncodedSamplesRead(r);
    ReadingFromFields(raw, r);
  }

  /** A block holding each sample's distance bytes and intensity at 3k, 3k+1 and 3k+2 is the samples' encoding. */
  lemma {:induction false} SampleBytesFrom(ss: seq<RawSample>, b: seq<byte>)
    requires |b| == 3 * |ss|
    requires forall k :: 0 <= k < |ss| ==>
      b[3 * k] == Low(ss[k].distance) && b[3 * k + 1] == High(ss[k].distance) && b[3 * k + 2] == ss[k].intensity
    ensures SampleBytes(ss) == b
    decreases |ss|
  {
    if ss != [] {
      var rest, tail := ss[1..], b[3..];
      forall k | 0 <= k < |rest|
        ensures tail[3 * k] == Low(rest[k].distance) && tail[3 * k + 1] == High(rest[k].distance)
        ensures tail[3 * k + 2] == rest[k].intensity
      {
        assert rest[k] == ss[k + 1];
        assert 3 * (k + 1) == 3 * k + 3;
      }
      SampleBytesFrom(rest, tail);
      assert b[..3] == WordBytes(ss[0].distance) + [ss[0].intensity];
      assert b == b[..3] + tail;
    }
  }

  /** The sample block of a buffer is the encoding of the raw samples cut out of it. */
  lemma SampleBlockOf(raw: seq<byte>)
    requires |raw| == FrameSize
    ensures raw[6..42] == SampleBytes(ReadingOf(raw).samples)
  {
    var ss := ReadingOf(raw).samples;
    var b := raw[6..42];
    forall k | 0 <= k < |ss|
      ensures b[3 * k] == Low(ss[k].distance) && b[3 * k + 1] == High(ss[k].distance) && b[3 * k + 2] == ss[k].intensity
    {
      assert ss[k] == RawSampleAt(raw, k);
    }
    SampleBytesFrom(ss, b);
  }

  /** The head and the tail of a buffer are the encodings of the fields cut out of them. */
  lemma HeadAndTailOf(raw: seq<byte>)
    requires |raw| == FrameSize
    ensures raw[..6] == [raw[0], raw[1]] + WordBytes(LE16(raw, 2)) + WordBytes(LE16(raw, 4))
    ensures raw[42..] == WordBytes(LE16(raw, 42)) + WordBytes(LE16(raw, 44)) + [raw[46]] + raw[47..]
  {
    WordBytesOfRead(raw, 2);
    WordBytesOfRead(raw, 4);
    WordBytesOfRead(raw, 42);
    WordBytesOfRead(raw, 44);
    assert raw[..6] == [raw[0], raw[1]] + raw[2..4] + raw[4..6];
    assert raw[42..] == raw[42..44] + raw[44..46] + [raw[46]] + raw[47..];
  }

  /** A buffer made of a reading's head, sample block and tail is that reading's encoding. */
  lemma EncodeFromParts(r: Reading, raw: seq<byte>)
    requires WellFormed(r) && |raw| == FrameSize
    requires raw[..6] == [r.header, r.verLen] + WordBytes(r.speed) + WordBytes(r.startAngle)
    requires raw[6..42] == SampleBytes(r.samples)
    requires raw[42..] == WordBytes(r.endAngle) + WordBytes(r.timestamp) + [r.checksum] + r.trailer
    ensures Encode(r) == raw
  {
    EncodeParts(r);
    var e := Encode(r);
    assert raw == raw[..6] + raw[6..42] + raw[42..];
    assert e == e[..6] + e[6..42] + e[42..];
  }

  /** Every frame buffer is the encoding of the fields cut out of it. */
  lemma EncodeReadingOf(raw: seq<byte>)
    requires |raw| == FrameSize
    ensures Encode(ReadingOf(raw)) == raw
  {
    HeadAndTailOf(raw);
    SampleBlockOf(raw);
    EncodeFromParts(ReadingOf(raw), raw);
  }

  /**
   * What LD19Packet reports for an encoded reading: the header and ver_len bytes, the
   * speed and timestamp words, the angles in degrees, every sample's distance and
   * intensity in order with its interpolated angle, the timestamp again as the crc
   * field, and validity decided by byte 47.
   */
  lemma DecodeEncode(r: Reading)
    requires WellFormed(r)
    ensures var f := FrameOf(Encode(r));
      && f.header == r.header && f.verLen == r.verLen
      && f.speed == r.speed
      && f.startAngle == Degrees(r.startAngle) && f.endAngle == Degrees(r.endAngle)
      && f.timestamp == r.timestamp && f.crc == r.timestamp
      && (f.valid <==> Crc8(Encode(r)[..47]) == r.trailer[0])
      && |f.points| == PointsPerPack
      && (forall k :: 0 <= k < PointsPerPack ==>
            f.points[k] == Point(r.samples[k].distance as nat, r.samples[k].intensity,
                                 PointAngle(Degrees(r.startAngle), Span(Degrees(r.startAngle), Degrees(r.endAngle)), k)))
  {
    var raw := Encode(r);
    ReadingOfEncode(r);
    var back := ReadingOf(raw);
    assert back.speed == r.speed && back.startAngle == r.startAngle && back.endAngle == r.endAngle;
    assert back.timestamp == r.timestamp && back.trailer == r.trailer;
    forall k | 0 <= k < PointsPerPack
      ensures RawSampleAt(raw, k) == r.samples[k]
    {
      assert back.samples[k] == RawSampleAt(raw, k);
    }
  }
}
