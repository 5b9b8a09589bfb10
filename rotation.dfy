/**
 * The rotation assembler of the main loop: it gathers the points of consecutive frames
 * and hands a batch to the plotters when a new revolution starts (the start angle drops
 * below the previous frame's) and more than 3000 points have been gathered.
 *
 * The plotters are not modelled: the batches they receive are recorded in `emitted`.
 */
module Rotation {
  import opened Bytes
  import opened Angles
  import opened Packet
  import opened Stream

  /** A batch is handed on only when it holds more than this many points. */
  const MinRotationPoints: nat := 3000

  /** rotation_points, last_angle and scan_count, with the batches handed on so far. */
  datatype Scan = Scan(rotation: seq<Point>, lastAngle: real, scanCount: nat, emitted: seq<seq<Point>>)

  /** The state before the first frame: no points gathered or handed on, and the invariant holds. */
  function Initial(): (s: Scan)
    ensures Inv(s) && Flatten(s.emitted) + s.rotation == []
  {
    Scan([], 0.0, 0, [])
  }

  /**
   * A frame ends the current revolution: its start angle is below the last one and the
   * batch is big enough. A batch handed on is therefore never empty.
   */
  predicate Boundary(s: Scan, f: Frame): (b: bool)
    ensures b ==> f.startAngle < s.lastAngle && s.rotation != []
  {
    f.startAngle < s.lastAngle && |s.rotation| > MinRotationPoints
  }

  /**
   * One frame through the assembler. Batches already handed on stay as they are, the
   * scan count rises with each new batch, and the frame's points follow the points
   * gathered so far.
   */
  function Next(s: Scan, f: Frame): (t: Scan)
    ensures s.emitted <= t.emitted && t.scanCount - s.scanCount == |t.emitted| - |s.emitted|
    ensures Flatten(t.emitted) + t.rotation == Flatten(s.emitted) + s.rotation + f.points
  {
    if Boundary(s, f) then
      FlattenAppend(s.emitted, s.rotation);
      Scan(f.points, f.startAngle, s.scanCount + 1, s.emitted + [s.rotation])
    else Scan(s.rotation + f.points, f.startAngle, s.scanCount, s.emitted)
  }

  /**
   * The frames in order through the assembler. Batches already handed on are never
   * withdrawn, and the scan count rises by exactly the number of new batches.
   */
  function Feed(s: Scan, fs: seq<Frame>): (t: Scan)
    ensures s.emitted <= t.emitted && t.scanCount - s.scanCount == |t.emitted| - |s.emitted|
    decreases |fs|
  {
    if fs == [] then s else Feed(Next(s, fs[0]), fs[1..])
  }

  /** Feeding a first frame and then the rest is one step followed by the rest. */
  lemma FeedFirst(s: Scan, f: Frame, fs: seq<Frame>)
    ensures Feed(s, [f] + fs) == Feed(Next(s, f), fs)
  {
    assert ([f] + fs)[1..] == fs;
  }

  /** Taking the frame at `pos` of a stream is one assembler step on its packet, then the rest of the stream. */
  lemma FeedTakesFrame(s: Scan, stream: seq<byte>, pos: nat)
    requires pos + FrameSize <= |stream| && stream[pos] == Header
    ensures Feed(s, Frames(stream[pos..])) == Feed(Next(s, FrameOf(stream[pos..pos + FrameSize])), Frames(stream[pos + FrameSize..]))
  {
    TakesFrame(stream, pos);
    FeedFirst(s, FrameOf(stream[pos..pos + FrameSize]), Frames(stream[pos + FrameSize..]));
  }

  /** All points of the frames, in order. */
  function AllPoints(fs: seq<Frame>): (ps: seq<Point>)
    decreases |fs|
  {
    if fs == [] then [] else fs[0].points + AllPoints(fs[1..])
  }

  /** The batches laid end to end. */
  function Flatten(bs: seq<seq<Point>>): seq<Point>
    decreases |bs|
  {
    if bs == [] then [] else Flatten(bs[..|bs| - 1]) + bs[|bs| - 1]
  }

  /** What the assembler keeps true: one batch per scan counted, each batch large and made of whole frames. */
  predicate Inv(s: Scan)
  {
    && |s.emitted| == s.scanCount
    && |s.rotation| % PointsPerPack == 0
    && forall i :: 0 <= i < |s.emitted| ==> |s.emitted[i]| > MinRotationPoints && |s.emitted[i]| % PointsPerPack == 0
  }

  /**
   * One step: a batch is handed on and scan_count rises by one exactly at a boundary,
   * after which the rotation holds exactly the frame's points; otherwise the frame's
   * points are appended in order. last_angle always becomes the frame's start angle.
   */
  lemma NextSteps(s: Scan, f: Frame)
    ensures var t := Next(s, f);
      && t.lastAngle == f.startAngle
      && (t.scanCount == s.scanCount + 1 <==> Boundary(s, f))
      && (t.scanCount == s.scanCount <==> !Boundary(s, f))
      && (Boundary(s, f) ==> t.emitted == s.emitted + [s.rotation] && t.rotation == f.points)
      && (!Boundary(s, f) ==> t.emitted == s.emitted && t.rotation == s.rotation + f.points)
  {
  }

  /** A step on a frame of twelve points keeps the invariant. */
  lemma NextKeepsInv(s: Scan, f: Frame)
    requires Inv(s) && |f.points| == PointsPerPack
    ensures Inv(Next(s, f))
  {
    var t := Next(s, f);
    if Boundary(s, f) {
      assert |s.rotation| > MinRotationPoints;
      assert t.emitted[|t.emitted| - 1] == s.rotation;
    } else {
      assert |t.rotation| == |s.rotation| + PointsPerPack;
    }
  }

  /** Feeding frames of twelve points each keeps the invariant. */
  lemma {:induction false} FeedKeepsInv(s: Scan, fs: seq<Frame>)
    requires Inv(s)
    requires forall i :: 0 <= i < |fs| ==> |fs[i].points| == PointsPerPack
    ensures Inv(Feed(s, fs))
    decreases |fs|
  {
    if fs != [] {
      NextKeepsInv(s, fs[0]);
      FeedKeepsInv(Next(s, fs[0]), fs[1..]);
    }
  }

  /** Appending one batch to the list appends its points to the flattened list. */
  lemma FlattenAppend(bs: seq<seq<Point>>, b: seq<Point>)
    ensures Flatten(bs + [b]) == Flatten(bs) + b
  {
    assert (bs + [b])[..|bs|] == bs;
  }

  /** No point is lost, duplicated or reordered: handed-on batches, then the rotation, hold exactly the fed points. */
  lemma {:induction false} FeedConservesPoints(s: Scan, fs: seq<Frame>)
    ensures var t := Feed(s, fs);
      Flatten(t.emitted) + t.rotation == Flatten(s.emitted) + s.rotation + AllPoints(fs)
    decreases |fs|
  {
    if fs != [] {
      var f := fs[0];
      var n := Next(s, f);
      FeedConservesPoints(n, fs[1..]);
      if Boundary(s, f) {
        FlattenAppend(s.emitted, s.rotation);
      }
      assert Flatten(n.emitted) + n.rotation == Flatten(s.emitted) + s.rotation + f.points;
      assert AllPoints(fs) == f.points + AllPoints(fs[1..]);
    }
  }

  /** While the gathered points stay at most 3000, no batch is handed on, whatever the angles do. */
  lemma {:induction false} NoBatchBelowThreshold(s: Scan, fs: seq<Frame>)
    requires forall i :: 0 <= i < |fs| ==> |fs[i].points| == PointsPerPack
    requires |fs| > 0 ==> |s.rotation| + PointsPerPack * (|fs| - 1) <= MinRotationPoints
    ensures Feed(s, fs).scanCount == s.scanCount && Feed(s, fs).emitted == s.emitted
    decreases |fs|
  {
    if fs != [] {
      var n := Next(s, fs[0]);
      assert !Boundary(s, fs[0]);
      assert |n.rotation| == |s.rotation| + PointsPerPack;
      NoBatchBelowThreshold(n, fs[1..]);
    }
  }

  /** While start angles never drop, no batch is handed on, however many points gather. */
  lemma {:induction false} NoBatchWhileAngleRises(s: Scan, fs: seq<Frame>)
    requires forall i :: 0 <= i < |fs| ==> s.lastAngle <= fs[i].startAngle
    requires forall i, j :: 0 <= i < j < |fs| ==> fs[i].startAngle <= fs[j].startAngle
    ensures Feed(s, fs).scanCount == s.scanCount && Feed(s, fs).emitted == s.emitted
    decreases |fs|
  {
    if fs != [] {
      var n := Next(s, fs[0]);
      assert !Boundary(s, fs[0]);
      NoBatchWhileAngleRises(n, fs[1..]);
    }
  }

  /**
   * The assembler state of the main loop. The plotter calls that consume a finished
   * batch are recorded in the ghost field `emitted`.
   */
  class Assembler {
    var rotation: seq<Point>
    var lastAngle: real
    var scanCount: nat
    ghost var emitted: seq<seq<Point>>

    /** The fields as a value. */
    ghost function State(): Scan
      reads this
    {
      Scan(rotation, lastAngle, scanCount, emitted)
    }

    /** The assembler invariant on the current fields. */
    ghost predicate Valid()
      reads this
    {
      Inv(State())
    }

    /** rotation_points = [], last_angle = 0, scan_count = 0. */
    constructor()
      ensures State() == Initial() && Valid()
    {
      rotation := [];
      lastAngle := 0.0;
      scanCount := 0;
      emitted := [];
    }

    /** The frame-handling tail of the main loop: maybe hand on the batch, then take in the frame. */
    method AddFrame(f: Frame)
      modifies this
      requires Valid() && |f.points| == PointsPerPack
      ensures Valid() && State() == Next(old(State()), f)
    {
      NextKeepsInv(State(), f);
      if f.startAngle < lastAngle && |rotation| > MinRotationPoints {
        emitted := emitted + [rotation];
        scanCount := scanCount + 1;
        rotation := [];
      }
      rotation := rotation + f.points;
      lastAngle := f.startAngle;
    }

    /**
     * One pass of the main loop on a HEADER byte at `pos`: read up to FRAME_SIZE - 1 more
     * bytes, build the packet and add its frame. `stop` reports the ValueError of a short
     * read, which ends the loop; otherwise `next` is where reading resumes.
     */
    method ReadFrame(stream: seq<byte>, pos: nat) returns (next: nat, stop: bool)
      modifies this
      requires Valid() && pos < |stream| && stream[pos] == Header
      ensures Valid()
      ensures stop ==> Frames(stream[pos..]) == [] && State() == old(State())
      ensures stop <==> |stream| < pos + FrameSize
      ensures !stop ==> next == pos + FrameSize && State() == Next(old(State()), FrameOf(stream[pos..pos + FrameSize]))
      ensures !stop ==> pos < next <= |stream| && Feed(State(), Frames(stream[next..])) == Feed(old(State()), Frames(stream[pos..]))
    {
      var end := if |stream| - pos < FrameSize then |stream| else pos + FrameSize;
      var frameData := [stream[pos]] + stream[pos + 1..end];
      HeaderThenRest(stream, pos, end);
      var packet := NewPacket(frameData);
      if packet.InvalidLength? {
        StopsAtShortFrame(stream, pos);
        return pos, true;
      }
      FeedTakesFrame(State(), stream, pos);
      AddFrame(packet.frame);
      return end, false;
    }

    /**
     * The main loop over a finite stream: read one byte; drop it unless it is a header;
     * otherwise read up to FRAME_SIZE - 1 more bytes, build the packet and add its frame.
     * The loop ends when the stream is exhausted or a packet cannot be built.
     */
    method Listen(stream: seq<byte>)
      modifies this
      requires Valid()
      ensures Valid() && State() == Feed(old(State()), Frames(stream))
    {
      var pos := 0;
      while pos < |stream|
        invariant 0 <= pos <= |stream|
        invariant Valid()
        invariant Feed(State(), Frames(stream[pos..])) == Feed(old(State()), Frames(stream))
        decreases |stream| - pos
      {
        var b := stream[pos..pos + 1];
        if IsHeader(b) {
          var next, stop := ReadFrame(stream, pos);
          if stop {
            break;
          }
          pos := next;
        } else {
          SkipsNonHeader(stream, pos);
          pos := pos + 1;
        }
      }
    }
  }
}
