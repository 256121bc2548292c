/**
  The playback page's live waveform: `drawWave` turns one window of
  time-domain bytes from the analyser into a canvas path, schedules the next
  frame, and does nothing at all while there is no analyser; `stopDraw`
  cancels the pending frame. Canvas coordinates are exact rationals.
 */
module Waveform {
  import opened JsMath
  import opened Optional

  datatype PathCmd = MoveTo(x: real, y: real) | LineTo(x: real, y: real)

  /** What one frame strokes: the signal path and the faint centre line. */
  datatype Frame = Frame(wave: seq<PathCmd>, centre: seq<PathCmd>)

  /** Whether the analyser exists yet, and the pending animation-frame id (`null` as `None`). */
  datatype Monitor = Monitor(hasAnalyser: bool, rafId: Option<nat>)

  /** The horizontal position of sample `i` of `n` across width `w`. */
  function SampleX(i: nat, n: nat, w: real): (x: real)
    requires n > 0
    ensures i < n && w > 0.0 ==> 0.0 <= x < w
    ensures i == 0 ==> x == 0.0
  {
    var f := (i as real) / (n as real);
    assert (i as real) * (w / (n as real)) == w * f;
    ScaleUnit(w, f);
    (i as real) * (w / (n as real))
  }

  /** The vertical position of a byte: `(b / 128) * h / 2`, so 128 is the centre line. */
  function SampleY(b: Uint8, h: real): (y: real)
    ensures h > 0.0 ==> 0.0 <= y < h
  {
    ByteScale(b, h);
    ((b as real) / 128.0) * h / 2.0
  }

  lemma ByteScale(b: Uint8, h: real)
    ensures h > 0.0 ==> 0.0 <= ((b as real) / 128.0) * h / 2.0 < h
  {
    if h > 0.0 {
      ByteBelowHeight(b, h);
    }
  }

  lemma ByteBelowHeight(b: Uint8, h: real)
    requires h > 0.0
    ensures 0.0 <= ((b as real) / 128.0) * h / 2.0 < h
  {
    var f := (b as real) / 256.0;
    assert 0.0 <= f < 1.0;
    ScaleUnit(h, f);
    assert 0.0 <= h * f < h;
    assert ((b as real) / 128.0) * h / 2.0 == h * f;
  }

  function PointCmd(data: seq<Uint8>, i: nat, w: real, h: real): PathCmd
    requires i < |data|
  {
    var x := SampleX(i, |data|, w);
    var y := SampleY(data[i], h);
    if i == 0 then MoveTo(x, y) else LineTo(x, y)
  }

  /** The reference path: one point per sample, then a final segment to the right end of the centre line. */
  function WavePath(data: seq<Uint8>, w: real, h: real): seq<PathCmd> {
    seq(|data|, i requires 0 <= i < |data| => PointCmd(data, i, w, h)) + [LineTo(w, h / 2.0)]
  }

  /**
    The loop of `drawWave`: `x` starts at 0 and grows by `w / n` per sample; the
    first point opens the path and every later one extends it.
   */
  method TracePath(data: seq<Uint8>, w: real, h: real) returns (path: seq<PathCmd>)
    ensures path == WavePath(data, w, h)
  {
    var n := |data|;
    // with no samples JavaScript's `w / 0` is never used; any slice width will do
    var slice := if n > 0 then w / (n as real) else 0.0;
    var x := 0.0;
    path := [];
    var i := 0;
    while i < n
      invariant 0 <= i <= n
      invariant x == (i as real) * slice
      invariant |path| == i
      invariant forall k :: 0 <= k < i ==> path[k] == PointCmd(data, k, w, h)
    {
      var y := SampleY(data[i], h);
      if i == 0 {
        path := path + [MoveTo(x, y)];
      } else {
        path := path + [LineTo(x, y)];
      }
      x := x + slice;
      i := i + 1;
    }
    path := path + [LineTo(w, h / 2.0)];
  }

  /**
    One animation frame. Without an analyser nothing is drawn and nothing is
    scheduled; otherwise the frame is drawn from `data` and `frameId` becomes
    the pending request.
   */
  method DrawWave(m: Monitor, data: seq<Uint8>, w: real, h: real, frameId: nat)
    returns (m': Monitor, frame: Option<Frame>)
    ensures !m.hasAnalyser ==> m' == m && frame == None
    ensures m.hasAnalyser ==>
      && m' == m.(rafId := Some(frameId))
      && frame == Some(Frame(WavePath(data, w, h), [MoveTo(0.0, h / 2.0), LineTo(w, h / 2.0)]))
  {
    if !m.hasAnalyser {
      return m, None;
    }
    var wave := TracePath(data, w, h);
    frame := Some(Frame(wave, [MoveTo(0.0, h / 2.0), LineTo(w, h / 2.0)]));
    m' := m.(rafId := Some(frameId));
  }

  /** `stopDraw`: cancel the pending request if its id is truthy, then forget it. */
  function StopDraw(m: Monitor): (r: (Monitor, Option<nat>))
    ensures r.0 == m.(rafId := None)
    ensures r.1.Some? <==> m.rafId.Some? && m.rafId.value != 0
    ensures r.1.Some? ==> r.1 == m.rafId
  {
    var cancelled := if m.rafId.Some? && m.rafId.value != 0 then m.rafId else None;
    (m.(rafId := None), cancelled)
  }

  /** Stopping twice is stopping once: the second call cancels nothing and changes nothing. */
  lemma StopDrawIdempotent(m: Monitor)
    ensures StopDraw(StopDraw(m).0) == (StopDraw(m).0, None)
  {
  }

  // ---------------------------------------------------------------------------
  // Geometry of the path

  /** A byte of 128 (silence) lands on the centre line. */
  lemma SilenceOnCentre(h: real)
    ensures SampleY(128, h) == h / 2.0
  {
  }

  /** Consecutive samples are `w / n` apart. */
  lemma SampleAcrossWidth(i: nat, n: nat, w: real)
    requires n > 0
    ensures SampleX(i + 1, n, w) == SampleX(i, n, w) + w / (n as real)
  {
  }

  /** The path opens with a move, every later command is a line, and it ends at `(w, h / 2)`. */
  lemma PathShape(data: seq<Uint8>, w: real, h: real)
    ensures var p := WavePath(data, w, h);
      && |p| == |data| + 1
      && p[|p| - 1] == LineTo(w, h / 2.0)
      && (|data| > 0 ==> p[0].MoveTo? && p[0].x == 0.0)
      && forall k :: 0 < k < |p| ==> p[k].LineTo?
  {
  }

  /** A window of silence draws the centre line: every point of the path lies at height `h / 2`. */
  lemma FlatWindowDrawsCentreLine(data: seq<Uint8>, w: real, h: real)
    requires forall i :: 0 <= i < |data| ==> data[i] == 128
    ensures forall k :: 0 <= k < |WavePath(data, w, h)| ==> WavePath(data, w, h)[k].y == h / 2.0
  {
  }

  /** Every point of the path stays within the canvas height. */
  lemma PathInsideCanvas(data: seq<Uint8>, w: real, h: real)
    requires h > 0.0
    ensures forall k :: 0 <= k < |WavePath(data, w, h)| ==> 0.0 <= WavePath(data, w, h)[k].y < h
  {
    var p := WavePath(data, w, h);
    forall k | 0 <= k < |p|
      ensures 0.0 <= p[k].y < h
    {
      if k < |data| {
        assert p[k].y == SampleY(data[k], h);
      }
    }
  }
}
