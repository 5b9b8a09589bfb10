# LD19 LIDAR frame protocol in Dafny

This project models the protocol layer of the LD19 LIDAR reader in `main.py`. It covers five parts:

- **CRC-8** (`crc.dfy`, `checks.dfy`). This is `CRC_TABLE` with the running checksum `crc = CRC_TABLE[crc ^ b]` that `LD19Packet._val` folds over a frame buffer. The table is proved to be the MSB-first CRC-8 table for the generator 0x4D and to be a permutation. The checksum is proved to catch any single changed byte.
- **Frame decoding** (`bytes.dfy`, `packet.dfy`, `wire.dfy`). `LD19Packet(raw)` rejects any buffer that is not 49 bytes long. Otherwise it checks the CRC and parses the buffer:
  - header and ver_len bytes;
  - little-endian 16-bit speed, start angle, end angle and timestamp;
  - twelve (distance, intensity) samples from offset 6 on.
  
  `Packet.FrameOf` is the value the constructor builds. `Packet.NewPacket`, `Packet.CheckCrc` and `Packet.Parse` are the imperative code of `__init__`, `_val` and `_parse`, with their loops. Each is proved equal to that value. `wire.dfy` adds the inverse direction: a frame written field by field (`Wire.Encode`) and cut back into fields (`Wire.ReadingOf`). The two are proved inverse, and the decoded packet is stated field by field in terms of the encoded reading.
- **Angle interpolation** (`angles.dfy`). Angles are words divided by 100. The span gets 360 added when it is negative. Point i lies at `start + span * i / 11`.
- **Header synchronisation** (`stream.dfy`). `Stream.Buffers` gives the frame buffers the main loop cuts out of a finite byte stream, and `Stream.Frames` the packets built from them:
  - a byte other than 0x54 is dropped;
  - a 0x54 byte together with the 48 bytes after it becomes one buffer;
  - a 0x54 byte with fewer bytes behind it ends the stream.
- **Rotation assembler** (`rotation.dfy`). The state is `rotation_points`, `last_angle` and `scan_count`, plus a ghost record of the batches handed to the plotters. A batch is handed on when a frame's start angle drops below the last one and more than 3000 points have been gathered. `Rotation.Assembler` is a class over these fields, and its `Listen` method is the main loop. It is proved equal to feeding `Stream.Frames(stream)` through the pure step function `Rotation.Next`.

Angles are exact reals. The source uses floating point.

The frame buffer is 49 bytes (`FRAME_SIZE`). The LD19 data sheet, which is not part of this repository, describes a 47-byte frame: the checksum of bytes 0..45 sits at offset 46, and the sensor sends the next frame's header right after it. Nothing in `main.py` states that length. If the data sheet holds, the decoder reads the two bytes after the checksum into the same buffer. Three consequences are listed under Findings, and each rests on that 47-byte layout.

## Model

| member | source | states |
|---|---|---|
| Bytes.LE16 | main.py:81 | the word `struct.unpack_from("<H", raw, offset)` returns has `raw[offset]` as its low byte and `raw[offset + 1]` as its high byte |
| Bytes.LE16Value | main.py:81-82 | the word read at an offset has the value `raw[offset] + 256 * raw[offset + 1]` |
| Bytes.ReadWordBytes | main.py:81 | a word written low byte first is read back unchanged, whatever surrounds it |
| Bytes.WordBytesOfRead | main.py:81 | the two bytes at an offset are exactly the little-endian encoding of the word read there |
| Crc.Table | main.py:7-30 | CRC_TABLE has 256 entries |
| Crc.TableIsPolynomial | main.py:7-30 | every entry of CRC_TABLE is the MSB-first CRC-8 remainder of its index for the generator 0x4D |
| Crc.ShiftInjective | main.py:7-30 | one step of the bitwise CRC-8 register loses nothing: different registers give different results |
| Crc.ShiftsInjective | main.py:7-30 | any number of register steps loses nothing |
| Crc.PolyRemainderUnrolled | main.py:7-30 | the remainder of a byte is its eight register steps written out |
| Crc.PolyRemainderOfZero | main.py:7 | the zero byte has remainder 0, the first entry of CRC_TABLE |
| Crc.PolyRemainderInjective | main.py:7-30 | different bytes have different remainders for the generator 0x4D |
| Crc.TableInjective | main.py:7-30 | different indices of CRC_TABLE hold different entries, so the table is a permutation of 0..255 |
| Crc.Step | main.py:70 | one step lands on 0 exactly when the byte fed in equals the running CRC |
| Crc.Crc8 | main.py:68-70 | a non-empty message has CRC 0 exactly when its last byte is the CRC of the bytes before it |
| Crc.StepLooksUpTable | main.py:70 | one checksum step is the lookup `CRC_TABLE[crc ^ b]` |
| Crc.StepInjective | main.py:70 | for a fixed input byte, a step maps different running CRCs to different CRCs |
| Crc.StepSeparatesBytes | main.py:70 | from the same running CRC, different input bytes lead to different CRCs |
| Crc.Crc8Append | main.py:69-70 | feeding one more byte applies one table step to the CRC so far |
| Crc.Crc8Residue | main.py:67-74 | a message followed by its own CRC has CRC 0 |
| Crc.Crc8ZeroIff | main.py:67-74 | a message followed by a byte c has CRC 0 exactly when c is the message's CRC |
| Crc.Crc8KeepsDifference | main.py:69-70 | two messages with different CRCs keep different CRCs when the same bytes are appended to both |
| Crc.Crc8DetectsByteChange | main.py:67-74 | changing any one byte of a message changes its CRC |
| Angles.Degrees | main.py:82 | an angle word in degrees is non-negative, and 100 times it is the word |
| Angles.Span | main.py:98-100 | angle_diff is `end - start`, or `end - start + 360`; 360 is added exactly when `end - start` is negative, so it is never less than `end - start` |
| Angles.PointAngle | main.py:102-103 | with a non-negative span, each of the 12 points gets an angle between the start angle and the start angle plus the span |
| Angles.FirstPointAtStart | main.py:102-103 | point 0 gets the start angle |
| Angles.LastPointAtEnd | main.py:98-103 | point 11 gets the end angle, or the end angle plus 360 when the frame crosses 0 degrees |
| Angles.EvenlySpaced | main.py:102-103 | consecutive points are one eleventh of the span apart |
| Angles.AnglesNonDecreasing | main.py:102-103 | with a non-negative span, point angles never decrease with the index |
| Angles.SpanInCircle | main.py:98-100 | for start and end angles in [0, 360), the corrected span lies in [0, 360) |
| Angles.DegreesBelowCircle | main.py:82 | words below 36000 are angles below 360 degrees |
| Angles.WrapAroundExample | main.py:98-103 | a frame from 350 to 10 degrees spans 20 degrees and puts its last point at 370 |
| Packet.Sample | main.py:85-94 | a sample's distance is a 16-bit value, and its angle is 0 until the second loop sets it |
| Packet.Points | main.py:85-103 | a frame has exactly 12 points, and point k carries the distance and intensity read at offset 6 + 3k |
| Packet.PointsWithAngles | main.py:101-103 | a list holding every sample with its interpolated angle is the frame's point list |
| Packet.CrcMatches | main.py:67-74 | `_val` holds exactly when the CRC over every byte but the last is 0, that is when the second-to-last byte is the CRC of the bytes before it |
| Packet.StartAngle | main.py:82 | the start angle is non-negative and 100 times it is the little-endian word at offset 4 |
| Packet.EndAngle | main.py:96 | the end angle is non-negative and 100 times it is the little-endian word at offset 42, just after the 12 points |
| Packet.FrameOf | main.py:76-108 | the packet keeps its buffer, its header is byte 0, it has 12 points, and its crc field equals its timestamp |
| Packet.FrameEndpoints | main.py:98-103 | in a decoded packet, point 0 lies at start_angle and point 11 at end_angle, or at end_angle + 360 when end < start |
| Packet.FrameAnglesOrdered | main.py:98-103 | when both angle words are below 36000, the span lies in [0, 360) and the 12 point angles are non-decreasing |
| Packet.Decode | main.py:50-52 | a buffer is refused with the length error exactly when its length is not 49; a built packet keeps its buffer and has 12 points |
| Packet.CheckCrc | main.py:67-74 | the loop returns true exactly when the CRC of all bytes but the last two equals the second-to-last byte |
| Packet.ReadSamples | main.py:84-94 | the first loop yields 12 points, point k read at offset 6 + 3k with angle 0, and stops at offset 42 |
| Packet.SetAngles | main.py:101-103 | the second loop gives point i the interpolated angle and keeps its distance and intensity |
| Packet.Parse | main.py:76-108 | the parsed fields are those of the decoded packet: header, ver_len, speed, angles, points, and timestamp and crc from offset 44 |
| Packet.NewPacket | main.py:50-64 | the constructor refuses a buffer of the wrong length and otherwise yields the decoded packet with its CRC verdict |
| Wire.SampleBytes | main.py:85-94 | twelve samples take three bytes each |
| Wire.SampleBytesAt | main.py:85-94 | sample k sits at bytes 3k, 3k + 1 and 3k + 2 of the sample block: distance low byte, high byte, then intensity |
| Wire.Encode | main.py:46 | an encoded reading fills exactly FRAME_SIZE bytes |
| Wire.ReadingOf | main.py:76-108 | the fields cut out of a buffer form a complete reading of 12 samples |
| Wire.EncodeParts | main.py:76-108 | an encoding is the head (bytes 0-5), the sample block (6-41) and the tail (42-48) |
| Wire.EncodeHead | main.py:78-82 | header, ver_len, speed and start angle land at offsets 0, 1, 2-3 and 4-5 |
| Wire.EncodeSamples | main.py:84-94 | the distance and intensity of sample k land at offsets 6 + 3k, 7 + 3k and 8 + 3k |
| Wire.EncodeTail | main.py:96-108 | end angle, timestamp, checksum and trailer land at offsets 42-43, 44-45, 46 and 47-48 |
| Wire.WordAt | main.py:81 | a word stored low byte first at an offset is read back as that word |
| Wire.ReadingFromFields | main.py:76-108 | a buffer holding a reading's fields at their offsets is cut back into that reading |
| Wire.EncodedSamplesRead | main.py:84-94 | every raw sample of an encoded reading is read back where it was written |
| Wire.ReadingOfEncode | main.py:76-108 | cutting the fields out of an encoded reading gives the reading back |
| Wire.SampleBytesFrom | main.py:84-94 | a block holding each sample's bytes at 3k, 3k + 1 and 3k + 2 is exactly those samples' encoding |
| Wire.SampleBlockOf | main.py:84-94 | the sample block of any buffer is the encoding of the samples read from it |
| Wire.HeadAndTailOf | main.py:78-108 | the head and tail of any buffer are the encodings of the fields read from them |
| Wire.EncodeFromParts | main.py:76-108 | a buffer made of a reading's head, sample block and tail is that reading's encoding |
| Wire.EncodeReadingOf | main.py:76-108 | every 49-byte buffer is the encoding of the fields cut out of it |
| Wire.DecodeEncode | main.py:50-108 | the packet decoded from an encoded reading has every field given by the reading: header, ver_len, speed, angles, each point's distance, intensity and interpolated angle, timestamp, crc equal to the timestamp, and validity decided by byte 47 |
| FrameChecks.PrefixOfUpdate | main.py:69 | changing a byte inside the checked prefix changes that byte of the prefix |
| FrameChecks.ValidWhenSealedAt47 | main.py:67-74 | a buffer whose byte 47 is the CRC of bytes 0..46 is valid, whatever byte 48 is |
| FrameChecks.ValidDetectsByteChange | main.py:67-74 | a valid packet becomes invalid when any one of bytes 0..46 changes |
| FrameChecks.ValidForSealedFrameIffZero | main.py:67-74 | a buffer with the CRC of bytes 0..45 at offset 46 is valid exactly when byte 47 is 0 |
| FrameChecks.SealedFrameReportedInvalid | main.py:67-74 | a correctly sealed frame followed by the next frame's header is reported invalid |
| FrameChecks.ChecksumMatches | main.py:67-74 | the check at offset 46 passes exactly when the CRC over bytes 0..46 is 0 |
| FrameChecks.ChecksumAcceptsSealed | main.py:67-74 | a buffer with the CRC of bytes 0..45 at offset 46 passes the check at offset 46, whatever follows |
| FrameChecks.SealedReadingPasses | main.py:67-74 | an encoded reading whose checksum byte is the CRC of the bytes before it passes the check at offset 46, and is reported valid only when its first trailer byte is 0 |
| FrameChecks.ChecksumDetectsDataChange | main.py:67-74 | a passing buffer fails once any one of bytes 0..45 changes |
| FrameChecks.ChecksumDetectsChecksumChange | main.py:67-74 | a passing buffer fails once its checksum byte changes |
| FrameChecks.CrcFieldIgnoresChecksumByte | main.py:105-108 | the crc field equals the timestamp and does not depend on byte 46 |
| FrameChecks.ChecksumField | main.py:105-108 | the checksum field read at offset 46 is a single byte, and the checksum test at offset 46 passes exactly when it equals the CRC of bytes 0..45 |
| FrameChecks.ChecksumFieldFollowsByte | main.py:105-108 | read from offset 46, the field follows the checksum byte and leaves the timestamp unchanged |
| Stream.IsHeader | main.py:173-175 | a read holds a header exactly when its first byte is 0x54 |
| Stream.Cut | main.py:124-167 | cutting at any buffer size yields at most one buffer per that many bytes, each of that size and starting with 0x54 |
| Stream.Buffers | main.py:124-167 | the main loop cuts at most one buffer per 49 bytes of stream, and every buffer is 49 bytes long and starts with 0x54 |
| Stream.Frames | main.py:124-167 | the main loop builds one packet per buffer, so at most one per 49 bytes; each packet keeps its buffer, starts with 0x54 and has 12 points |
| Stream.FramesOfFirstBuffer | main.py:129-135 | when the buffers of a stream start with one buffer, the packets start with that buffer's packet and go on with the packets of the rest |
| Stream.DropsByte | main.py:128-129 | a first byte other than 0x54 is dropped and yields no buffer |
| Stream.DropsLeadingNoise | main.py:126-167 | bytes other than 0x54 before the first header yield no buffer |
| Stream.CutTakes | main.py:129-135 | at any buffer size, a 0x54 byte with enough bytes behind it becomes the next buffer, made of exactly those bytes |
| Stream.HeaderStartsFrame | main.py:129-135 | a 0x54 byte with 48 bytes behind it becomes the next buffer, made of exactly those 49 bytes |
| Stream.Resynchronises | main.py:126-175 | non-header bytes followed by a header and 48 more bytes yield exactly the frame at that header, then whatever the rest yields |
| Stream.ShortFrameEndsStream | main.py:134-135 | a header with fewer than 48 bytes behind it ends the stream without a buffer |
| Stream.HeaderThenRest | main.py:134 | the header byte joined with the bytes read after it is the slice of the stream starting at the header |
| Stream.SkipsNonHeader | main.py:166-167 | at a byte other than 0x54, the frames still to come are those after that byte |
| Stream.TakesFrame | main.py:129-135 | at a 0x54 byte with 48 bytes behind it, the next frame is built from those 49 bytes |
| Stream.StopsAtShortFrame | main.py:134-135 | at a 0x54 byte with fewer than 48 bytes behind it, no frame follows |
| Stream.BackToBackSwallowsHeader | main.py:133-135 | with two 47-byte LD19 frames back to back, the first buffer is the first frame plus the second frame's header and ver_len, and cutting resumes at the second frame's third byte |
| Stream.BackToBackFramesRecovered | main.py:133-135 | cutting at the 47-byte frame length, two frames back to back come out as one buffer each |
| Stream.Concat | main.py:133-135 | frames of 47 bytes laid end to end fill 47 bytes per frame |
| Stream.WireFramesRecovered | main.py:133-135 | cutting at the 47-byte frame length, any run of frames laid back to back, each starting with 0x54, comes out as one buffer per frame, in order, followed by whatever the rest yields |
| Rotation.Initial | main.py:117-119 | the starting state satisfies the assembler invariant and holds no points, handed on or gathered |
| Rotation.Boundary | main.py:155 | a batch is handed on only when the start angle drops below the last angle and points have been gathered |
| Rotation.Next | main.py:155-164 | one step only appends batches, counts one scan per batch handed on, and adds exactly the frame's points, in order, to the handed-on points followed by the rotation |
| Rotation.Feed | main.py:124-164 | feeding frames only appends batches and counts one scan per batch handed on |
| Rotation.NextSteps | main.py:155-164 | a batch is handed on and scan_count rises by one exactly at a boundary, after which the rotation holds only the frame's points; otherwise the points are appended in order; last_angle always becomes the frame's start angle |
| Rotation.NextKeepsInv | main.py:155-164 | one step keeps: one batch per scan counted, every batch above 3000 points and made of whole frames |
| Rotation.FeedFirst | main.py:124-164 | feeding a first frame and then the rest is one step followed by the rest |
| Rotation.FeedTakesFrame | main.py:129-164 | at a 0x54 byte with 48 bytes behind it, feeding the stream's packets is one step on the packet of those 49 bytes, then the packets after them |
| Rotation.FeedKeepsInv | main.py:124-164 | any run of 12-point frames keeps the assembler invariant |
| Rotation.FlattenAppend | main.py:156-161 | handing on one more batch appends its points to the handed-on points |
| Rotation.FeedConservesPoints | main.py:155-164 | no point is lost, duplicated or reordered: handed-on batches followed by the rotation hold exactly the fed points |
| Rotation.NoBatchBelowThreshold | main.py:155 | while at most 3000 points are gathered, no batch is handed on, whatever the angles do |
| Rotation.NoBatchWhileAngleRises | main.py:155 | while start angles never drop, no batch is handed on, however many points gather |
| Rotation.Assembler.constructor | main.py:117-119 | the assembler starts with no points, last angle 0 and scan count 0 |
| Rotation.Assembler.AddFrame | main.py:155-164 | the fields after one frame are one step of the assembler, and the invariant is kept |
| Rotation.Assembler.ReadFrame | main.py:129-164 | on a 0x54 byte: the loop stops exactly when fewer than 48 bytes follow, and then nothing changes; otherwise the new state is one step on the packet of the next 49 bytes, reading resumes right after them, and the invariant is kept |
| Rotation.Assembler.Listen | main.py:124-167 | after the loop, the fields are those that feeding the stream's frames in order gives, and the invariant is kept |

## Left out

- Serial I/O (`serial.Serial`, `ser.read`, the port and baud constants) is replaced by a finite byte sequence standing for everything the port delivers.
- Rotation.Assembler.Listen: reads block in the source, with a one-second timeout. The model has no timeouts. A short read happens only at the end of the stream, and there it ends the loop, as the `IndexError` from `is_header` or the `ValueError` from `LD19Packet` ends the program.
- Console output (`print`) is not modelled.
- The plotters (`PolarPlotter`, `CartesianPlotter`, their `update`, `save` and `close` calls) are not modelled. The batches they would receive are recorded in the ghost field `emitted`.
- `KeyboardInterrupt` handling is not modelled.
- Floating-point rounding in `/ 100.0` and in the interpolation division is replaced by exact real arithmetic.
- `LDPoint` objects are modelled as values. The second loop of `_parse` updates them in place, and nothing else holds a reference to them at that time, so no aliasing is lost.
- `Packet.Frame` holds `speed`, `timestamp` and `crc` as 16-bit words, as `struct` returns them. The main loop divides `speed` by 64.0 only to print it, which is not modelled.
- Rotation.Assembler.ReadFrame is the header branch of the main loop's body, split out of `Rotation.Assembler.Listen` as a method of its own.
- The two loops of `_parse` are separate methods (`Packet.ReadSamples`, `Packet.SetAngles`) that `Packet.Parse` calls in the source's order.
- The CRC of the empty prefix is 0 by the definition of `Crc.Crc8`. Every table index `crc ^ b` is below 256 because both operands are bytes. Neither needs a lemma of its own.
- `Crc.Shifts` counts the eight register steps with a mask of the bits still to shift out (0xFF), not with a number.
- `Crc.Step` is defined by the remainder the table holds. `Crc.StepLooksUpTable` proves it equal to the table lookup, and `Packet.CheckCrc` performs the lookup itself.
- `Packet.Frame` keeps the values the source computes: `valid` from byte 47, and `crc` from offset 44. The main loop reads neither field (its validity test is commented out), so the corrected checks under Findings stand beside the decoder rather than replacing its fields.
- `Stream.Buffers` keeps the 49-byte read of the source, because every offset the decoder uses is defined on that buffer. The 47-byte cut of the finding on frame length, `Stream.Cut` at 47, stands beside it rather than feeding the decoder.

## Findings

| source | as written | input that shows it | evidently intended | confidence | as-written member | corrected member |
|---|---|---|---|---|---|---|
| main.py:67-74 | the CRC runs over bytes 0..46, which include the checksum byte at offset 46, and is compared with byte 47 | a frame whose byte 46 is the CRC of bytes 0..45, followed on the wire by the next frame's header 0x54 at byte 47 | the CRC of bytes 0..45 compared with byte 46 | medium, not executed | FrameChecks.SealedFrameReportedInvalid | FrameChecks.ChecksumMatches |
| main.py:105-108 | after `offset += 2` the crc field is read as a 16-bit word at offset 44, the timestamp's bytes | any 49-byte buffer: changing byte 46 leaves the crc field unchanged, and it always equals the timestamp | the checksum byte read at offset 46 | high, not executed | FrameChecks.CrcFieldIgnoresChecksumByte | FrameChecks.ChecksumField |
| main.py:133-135 | every frame buffer is FRAME_SIZE = 49 bytes, two more than one 47-byte LD19 frame | two LD19 frames back to back, the first starting with 0x54: the first buffer takes the second frame's header, and the second frame is never decoded | one buffer per 47-byte frame (the length the LD19 data sheet gives), so every frame on the wire is decoded | medium, not executed | Stream.BackToBackSwallowsHeader | Stream.WireFramesRecovered |
