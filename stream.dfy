/**
 * Header synchronisation: how the main loop cuts frames out of the serial byte stream.
 * It reads one byte at a time; a byte other than HEADER is dropped, and a HEADER byte
 * is joined with the next FRAME_SIZE - 1 bytes into a frame buffer, from which an
 * LD19Packet is built.
 *
 * The stream is a finite byte sequence standing for everything the port delivers.
 * Reading past its end ends the loop, as the source does when a read returns no byte
 * (is_header raises IndexError) or fewer than FRAME_SIZE - 1 bytes (LD19Packet raises
 * ValueError).
 */
module Stream {
  import opened Bytes
  import opened Angles
  import opened Packet

  /** is_header: the first byte of a read is HEADER. */
  predicate IsHeader(b: seq<byte>): (h: bool)
    requires |b| >= 1
    ensures h <==> b[0] == 0x54
  {
    b[0] == Header
  }

  /**
   * The buffers cut from `stream` when each header byte is joined with the next
   * size - 1 bytes: a byte other than HEADER is dropped, and a header with fewer than
   * size - 1 bytes behind it ends the stream.
   */
  function Cut(stream: seq<byte>, size: nat): (bs: seq<seq<byte>>)
    requires size > 0
    ensures |bs| * size <= |stream|
    ensures forall i :: 0 <= i < |bs| ==> |bs[i]| == size && bs[i][0] == Header
    decreases |stream|
  {
    if stream == [] then []
    else if !IsHeader(stream[..1]) then Cut(stream[1..], size)
    else if |stream| < size then []
    else
      var raw, rest := stream[..size], Cut(stream[size..], size);
      assert raw[0] == Header;
      assert (|rest| + 1) * size == |rest| * size + size;
      [raw] + rest
  }

  /** The frame buffers (frame_data) the main loop cuts from `stream`, in order. */
  function Buffers(stream: seq<byte>): (bs: seq<seq<byte>>)
    ensures |bs| * FrameSize <= |stream|
    ensures forall i :: 0 <= i < |bs| ==> |bs[i]| == FrameSize && bs[i][0] == Header
  {
    Cut(stream, FrameSize)
  }

  /** f applied to each element of xs, in order. */
  function Map<A, B>(f: A --> B, xs: seq<A>): (ys: seq<B>)
    requires forall i :: 0 <= i < |xs| ==> f.requires(xs[i])
    ensures |ys| == |xs| && forall i :: 0 <= i < |xs| ==> ys[i] == f(xs[i])
  {
    seq(|xs|, i requires 0 <= i < |xs| => f(xs[i]))
  }

  /** Mapping a first element and then more: the first image, then the images of the rest. */
  lemma MapFirst<A, B>(f: A --> B, x: A, xs: seq<A>)
    requires f.requires(x) && forall i :: 0 <= i < |xs| ==> f.requires(xs[i])
    ensures Map(f, [x] + xs) == [f(x)] + Map(f, xs)
  {
    assert forall i :: 0 < i < |xs| + 1 ==> ([x] + xs)[i] == xs[i - 1];
  }

  /** The packets the main loop builds from `stream`: one per frame buffer, in order. */
  function Frames(stream: seq<byte>): (fs: seq<Frame>)
    ensures |fs| == |Buffers(stream)| && |fs| * FrameSize <= |stream|
    ensures forall i :: 0 <= i < |fs| ==>
      fs[i].raw == Buffers(stream)[i] && fs[i].header == Header && |fs[i].points| == PointsPerPack
  {
    Map(FrameOf, Buffers(stream))
  }

  /** A stream whose buffers start with `raw` yields the packet of `raw`, then the packets of the rest. */
  lemma FramesOfFirstBuffer(stream: seq<byte>, raw: seq<byte>, rest: seq<byte>)
    requires |raw| == FrameSize && Buffers(stream) == [raw] + Buffers(rest)
    ensures Frames(stream) == [FrameOf(raw)] + Frames(rest)
  {
    MapFirst(FrameOf, raw, Buffers(rest));
  }

  /** A first byte other than HEADER is dropped and yields no buffer. */
  lemma DropsByte(s: seq<byte>)
    requires |s| > 0 && s[0] != Header
    ensures Buffers(s) == Buffers(s[1..])
  {
    assert s[..1][0] == s[0];
  }

  /** Bytes before the first header are dropped one by one and yield no buffer. */
  lemma {:induction false} DropsLeadingNoise(noise: seq<byte>, rest: seq<byte>)
    requires forall i :: 0 <= i < |noise| ==> noise[i] != Header
    ensures Buffers(noise + rest) == Buffers(rest)
    decreases |noise|
  {
    if noise == [] {
      assert noise + rest == rest;
    } else {
      var s := noise + rest;
      DropsByte(s);
      assert s[1..] == noise[1..] + rest;
      DropsLeadingNoise(noise[1..], rest);
    }
  }

  /** A header with size - 1 more bytes behind it becomes the next buffer cut, made of exactly those bytes. */
  lemma CutTakes(frame: seq<byte>, rest: seq<byte>, size: nat)
    requires size > 0 && |frame| == size && frame[0] == Header
    ensures Cut(frame + rest, size) == [frame] + Cut(rest, size)
  {
    var s := frame + rest;
    assert s[..1][0] == Header;
    assert s[..size] == frame;
    assert s[size..] == rest;
  }

  /** A header with FRAME_SIZE - 1 more bytes behind it becomes the next buffer, made of exactly those bytes. */
  lemma HeaderStartsFrame(frame: seq<byte>, rest: seq<byte>)
    requires |frame| == FrameSize && frame[0] == Header
    ensures Buffers(frame + rest) == [frame] + Buffers(rest)
  {
    CutTakes(frame, rest, FrameSize);
  }

  /**
   * The length of one LD19 frame on the wire according to the sensor's data sheet:
   * header, ver_len, 44 bytes of data and the checksum. The decoder never uses it.
   */
  const WireFrameSize: nat := 47

  /**
   * Two LD19 frames back to back: the 49-byte read takes the first frame and the next
   * frame's header and ver_len, so the second frame is never cut; scanning goes on at
   * its third byte.
   */
  lemma BackToBackSwallowsHeader(a: seq<byte>, b: seq<byte>, rest: seq<byte>)
    requires |a| == WireFrameSize && |b| == WireFrameSize && a[0] == Header
    ensures Buffers(a + b + rest) == [a + b[..2]] + Buffers(b[2..] + rest)
  {
    assert a + b + rest == (a + b[..2]) + (b[2..] + rest);
    HeaderStartsFrame(a + b[..2], b[2..] + rest);
  }

  /** Frames laid end to end on the wire. */
  function Concat(fs: seq<seq<byte>>): (s: seq<byte>)
    ensures (forall i :: 0 <= i < |fs| ==> |fs[i]| == WireFrameSize) ==> |s| == |fs| * WireFrameSize
  {
    if fs == [] then [] else fs[0] + Concat(fs[1..])
  }

  /** Cutting at the LD19 frame length: any run of frames laid back to back comes out one buffer per frame. */
  lemma {:induction false} WireFramesRecovered(fs: seq<seq<byte>>, rest: seq<byte>)
    requires forall i :: 0 <= i < |fs| ==> |fs[i]| == WireFrameSize && fs[i][0] == Header
    ensures Cut(Concat(fs) + rest, WireFrameSize) == fs + Cut(rest, WireFrameSize)
    decreases |fs|
  {
    if fs == [] {
      assert Concat(fs) + rest == rest;
    } else {
      var tail := Concat(fs[1..]) + rest;
      assert Concat(fs) + rest == fs[0] + tail;
      CutTakes(fs[0], tail, WireFrameSize);
      WireFramesRecovered(fs[1..], rest);
      assert fs == [fs[0]] + fs[1..];
    }
  }

  /** Cutting at the LD19 frame length instead: back-to-back frames come out one buffer each. */
  lemma BackToBackFramesRecovered(a: seq<byte>, b: seq<byte>, rest: seq<byte>)
    requires |a| == WireFrameSize && |b| == WireFrameSize && a[0] == Header && b[0] == Header
    ensures Cut(a + b + rest, WireFrameSize) == [a, b] + Cut(rest, WireFrameSize)
  {
    assert a + b + rest == a + (b + rest);
    CutTakes(a, b + rest, WireFrameSize);
    CutTakes(b, rest, WireFrameSize);
  }

  /**
   * Resynchronisation: a stream of non-header bytes followed by a header and 48 more
   * bytes yields the packet built from that header and those bytes, then whatever the
   * rest yields.
   */
  lemma Resynchronises(noise: seq<byte>, frame: seq<byte>, rest: seq<byte>)
    requires forall i :: 0 <= i < |noise| ==> noise[i] != Header
    requires |frame| == FrameSize && frame[0] == Header
    ensures Frames(noise + frame + rest) == [FrameOf(frame)] + Frames(rest)
  {
    assert noise + frame + rest == noise + (frame + rest);
    DropsLeadingNoise(noise, frame + rest);
    HeaderStartsFrame(frame, rest);
    FramesOfFirstBuffer(noise + frame + rest, frame, rest);
  }

  /** A header with fewer than FRAME_SIZE - 1 bytes behind it ends the stream without a buffer. */
  lemma ShortFrameEndsStream(tail: seq<byte>)
    requires 0 < |tail| < FrameSize && tail[0] == Header
    ensures Buffers(tail) == []
  {
    assert tail[..1][0] == Header;
  }

  /** The header byte read at `pos` followed by the bytes read after it is the slice of the stream from `pos`. */
  lemma HeaderThenRest(stream: seq<byte>, pos: nat, end: nat)
    requires pos < end <= |stream|
    ensures [stream[pos]] + stream[pos + 1..end] == stream[pos..end]
  {
  }

  /** Reading at `pos`: a byte other than HEADER is dropped. */
  lemma SkipsNonHeader(stream: seq<byte>, pos: nat)
    requires pos < |stream| && stream[pos] != Header
    ensures Frames(stream[pos..]) == Frames(stream[pos + 1..])
  {
    var rest := stream[pos..];
    DropsByte(rest);
    assert rest[1..] == stream[pos + 1..];
  }

  /** Reading at `pos`: a HEADER byte with FRAME_SIZE - 1 bytes behind it yields the packet of those bytes. */
  lemma TakesFrame(stream: seq<byte>, pos: nat)
    requires pos + FrameSize <= |stream| && stream[pos] == Header
    ensures Frames(stream[pos..]) == [FrameOf(stream[pos..pos + FrameSize])] + Frames(stream[pos + FrameSize..])
  {
    var rest, raw := stream[pos..], stream[pos..pos + FrameSize];
    assert rest == raw + stream[pos + FrameSize..];
    HeaderStartsFrame(raw, stream[pos + FrameSize..]);
    FramesOfFirstBuffer(rest, raw, stream[pos + FrameSize..]);
  }

  /** Reading at `pos`: a HEADER byte with fewer than FRAME_SIZE - 1 bytes behind it yields nothing more. */
  lemma StopsAtShortFrame(stream: seq<byte>, pos: nat)
    requires pos < |stream| < pos + FrameSize && stream[pos] == Header
    ensures Frames(stream[pos..]) == []
  {
    ShortFrameEndsStream(stream[pos..]);
  }
}
