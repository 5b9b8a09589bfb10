/**
 * Angles of an LD19 frame: the raw centi-degree words turned into degrees, and the
 * linear interpolation that LD19Packet._parse uses to give each of the 12 points its angle.
 * Angles are exact reals here; the source computes them in floating point.
 */
module Angles {
  import opened Bytes

  /** POINT_PER_PACK: samples carried by one frame. */
  const PointsPerPack: nat := 12

  /** A raw angle word (hundredths of a degree) in degrees: `word / 100.0`. */
  function Degrees(w: word): (d: real)
    ensures 0.0 <= d && d * 100.0 == w as int as real
  {
    w as int as real / 100.0
  }

  /**
   * angle_diff: the sweep from `start` to `end`, with 360 added when the sweep
   * is negative (the frame crossed 0 degrees).
   */
  function Span(start: real, end: real): (d: real)
    ensures d == end - start || d == end - start + 360.0
    ensures d >= end - start
    ensures d != end - start <==> end - start < 0.0
  {
    if end - start < 0.0 then end - start + 360.0 else end - start
  }

  /** The angle given to point i: `start + (span * i) / (POINT_PER_PACK - 1)`. */
  function PointAngle(start: real, span: real, i: nat): (a: real)
    ensures 0.0 <= span && i < PointsPerPack ==> start <= a <= start + span
  {
    var offset := (span * i as real) / (PointsPerPack - 1) as real;
    assert 0.0 <= span && i < PointsPerPack ==> 0.0 <= offset <= span by {
      if 0.0 <= span && i < PointsPerPack {
        assert 0.0 <= span * i as real <= span * 11.0;
      }
    }
    start + offset
  }

  /** Point 0 lies at the start angle. */
  lemma FirstPointAtStart(start: real, span: real)
    ensures PointAngle(start, span, 0) == start
  {
  }

  /**
   * The last point lies at the end angle, or at the end angle plus 360 when the
   * frame crossed 0 degrees: the result is not reduced modulo 360.
   */
  lemma LastPointAtEnd(start: real, end: real)
    ensures end >= start ==> PointAngle(start, Span(start, end), PointsPerPack - 1) == end
    ensures end < start ==> PointAngle(start, Span(start, end), PointsPerPack - 1) == end + 360.0
  {
  }

  /** Consecutive points are one eleventh of the span apart. */
  lemma EvenlySpaced(start: real, span: real, i: nat)
    ensures PointAngle(start, span, i + 1) - PointAngle(start, span, i) == span / (PointsPerPack - 1) as real
  {
  }

  /** With a non-negative span, angles never decrease along the frame. */
  lemma {:induction false} AnglesNonDecreasing(start: real, span: real, i: nat, j: nat)
    requires 0.0 <= span && i <= j
    ensures PointAngle(start, span, i) <= PointAngle(start, span, j)
    decreases j - i
  {
    if i < j {
      AnglesNonDecreasing(start, span, i, j - 1);
      EvenlySpaced(start, span, j - 1);
    }
  }

  /** For start and end angles below 360 degrees, the corrected span lies in [0, 360). */
  lemma SpanInCircle(start: real, end: real)
    requires 0.0 <= start < 360.0 && 0.0 <= end < 360.0
    ensures 0.0 <= Span(start, end) < 360.0
  {
  }

  /** Raw words below 36000 are angles below 360 degrees. */
  lemma DegreesBelowCircle(w: word)
    requires w < 36000
    ensures Degrees(w) < 360.0
  {
    assert w as int < 36000;
  }

  /**
   * A frame that starts at 350 degrees and ends at 10 degrees sweeps 20 degrees and
   * puts its last point at 370 degrees.
   */
  lemma WrapAroundExample()
    ensures Span(350.0, 10.0) == 20.0
    ensures PointAngle(350.0, Span(350.0, 10.0), PointsPerPack - 1) == 370.0
  {
  }
}
