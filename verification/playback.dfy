/**
  The playback page's pure rules: the `mm:ss` clock on seconds, the five-second
  skip buttons, the playback-rate cycle, the volume icon and the download name.
  Times and rates are exact rationals; the media element's possibly non-finite
  `duration` is a JavaScript number.
 */
module Playback {
  import opened JsMath
  import opened Decimal
  import opened Optional
  import FileNames
  import Library
  import Recorder

  // ---------------------------------------------------------------------------
  // The `mm:ss` clock

  /** `formatTime(t)` on seconds: `00:00` for a non-finite value, otherwise floored minutes and seconds. */
  function FormatTime(t: Number): (r: string)
    ensures !t.IsFinite() ==> r == "00:00"
  {
    if !t.IsFinite() then "00:00"
    else
      var m := (t.value / 60.0).Floor;
      var s := RemReal(t.value, 60.0).Floor;
      PadStart(IntToString(m), 2, '0') + ":" + PadStart(IntToString(s), 2, '0')
  }

  datatype Position = Position(minutes: nat, seconds: nat)

  /** The fixed-width end of a clock: `:` and two second digits. */
  predicate ClockTail(t: string) {
    |t| == 3 && t[0] == ':' && IsDigit(t[1]) && IsDigit(t[2])
  }

  /** Read a clock back: at least two minute digits followed by a clock tail. */
  function ParseClock(s: string): Option<Position> {
    if |s| >= 5 && AllDigits(s[..|s| - 3]) && ClockTail(s[|s| - 3..]) then
      var t := s[|s| - 3..];
      Some(Position(ParseDigits(s[..|s| - 3]), 10 * DigitValue(t[1]) + DigitValue(t[2])))
    else None
  }

  /** The minutes and seconds a finite non-negative time shows. */
  function ClockFields(t: real): (p: Position)
    requires t >= 0.0
    ensures p.minutes == (t / 60.0).Floor
    ensures p.seconds < 60
    ensures (p.minutes * 60 + p.seconds) as real <= t < (p.minutes * 60 + p.seconds + 1) as real
  {
    var m := (t / 60.0).Floor;
    var s := RemReal(t, 60.0).Floor;
    Position(m, s)
  }

  /**
    For a finite non-negative time the clock is well formed, each field has at
    least two digits, the minutes are `floor(t / 60)`, the seconds are below 60,
    and together they are `t` truncated to a whole second.
   */
  lemma FormatTimeRoundTrip(t: real)
    requires t >= 0.0
    ensures ParseClock(FormatTime(Finite(t))) == Some(ClockFields(t))
  {
    var p := ClockFields(t);
    FormatTimeShape(t);
    TwoDigitsRoundTrip(p.minutes);
    TwoDigitsRoundTrip(p.seconds);
    ParseClockFields(TwoDigits(p.minutes), TwoDigits(p.seconds));
  }

  lemma FormatTimeShape(t: real)
    requires t >= 0.0
    ensures FormatTime(Finite(t)) == TwoDigits(ClockFields(t).minutes) + ":" + TwoDigits(ClockFields(t).seconds)
  {
  }

  lemma ParseClockFields(a: string, b: string)
    requires AllDigits(a) && |a| >= 2 && AllDigits(b) && |b| == 2
    ensures ParseClock(a + ":" + b).Some?
    ensures ParseClock(a + ":" + b).value == Position(ParseDigits(a), ParseDigits(b))
  {
    var s := a + ":" + b;
    var tail := [':', b[0], b[1]];
    assert s == a + tail;
    assert s[..|s| - 3] == a;
    assert s[|s| - 3..] == tail;
    ParseTwoDigits(b);
  }

  // ---------------------------------------------------------------------------
  // Skip buttons

  /** The back button: `Math.max(0, currentTime - 5)`. */
  function SkipBack(cur: real): (r: real)
    ensures r >= 0.0 && r >= cur - 5.0
    ensures r == 0.0 || r == cur - 5.0
    ensures cur >= 0.0 ==> r <= cur
  {
    if cur - 5.0 >= 0.0 then cur - 5.0 else 0.0
  }

  /**
    The value the forward button computes: `Math.min(duration, currentTime + 5)`.
    A stream of unknown length has an infinite duration, so the skip is
    unbounded; before the metadata is known the duration is NaN and so is this
    value. What the assignment to `currentTime` makes of it is `ForwardPosition`.
   */
  function SkipForward(cur: real, duration: Number): (r: Number)
    ensures duration.Finite? ==>
      && r.Finite? && r.value <= duration.value && r.value <= cur + 5.0
      && (r.value == duration.value || r.value == cur + 5.0)
    ensures duration.PosInfinity? ==> r == Finite(cur + 5.0)
    ensures duration.NaN? <==> r.NaN?
  {
    Min(duration, cur + 5.0)
  }

  /**
    The position after the forward button. `currentTime` is a WebIDL restricted
    `double`, so assigning a non-finite value throws a `TypeError` and the
    position stays where it was; a finite value becomes the new position.
   */
  function ForwardPosition(cur: real, duration: Number): (pos: real)
    ensures duration.Finite? ==> Finite(pos) == SkipForward(cur, duration)
    ensures duration.PosInfinity? ==> pos == cur + 5.0
    ensures duration.NaN? || duration.NegInfinity? ==> pos == cur
  {
    var v := SkipForward(cur, duration);
    if v.Finite? then v.value else cur
  }

  /** Both skips are monotone in the current position. */
  lemma SkipMonotone(cur: real, cur': real, d: real)
    requires cur <= cur'
    ensures SkipBack(cur) <= SkipBack(cur')
    ensures SkipForward(cur, Finite(d)).value <= SkipForward(cur', Finite(d)).value
  {
  }

  /** Away from both ends of the track, a skip forward and a skip back cancel out. */
  lemma SkipRoundTrip(cur: real, d: real)
    ensures 0.0 <= cur && cur + 5.0 <= d ==> SkipBack(SkipForward(cur, Finite(d)).value) == cur
    ensures 5.0 <= cur <= d ==> SkipForward(SkipBack(cur), Finite(d)) == Finite(cur)
  {
  }

  // ---------------------------------------------------------------------------
  // Playback-rate cycle

  const Speeds: seq<real> := [1.0, 1.25, 1.5, 2.0]

  /** `Array.prototype.indexOf`: the first position holding `x`, or -1. */
  function IndexOf(xs: seq<real>, x: real): (i: int)
    ensures -1 <= i < |xs|
    ensures i >= 0 ==> xs[i] == x && forall j :: 0 <= j < i ==> xs[j] != x
    ensures i == -1 <==> x !in xs
  {
    IndexFrom(xs, x, 0)
  }

  /** The scan of `indexOf` from position `k` on. */
  function IndexFrom(xs: seq<real>, x: real, k: nat): (i: int)
    requires k <= |xs|
    ensures i == -1 || k <= i < |xs|
    ensures i >= 0 ==> xs[i] == x && forall j :: k <= j < i ==> xs[j] != x
    ensures i == -1 <==> forall j :: k <= j < |xs| ==> xs[j] != x
    decreases |xs| - k
  {
    if k == |xs| then -1
    else if xs[k] == x then k
    else IndexFrom(xs, x, k + 1)
  }

  /** The speed button: the rate after the current one in the list, wrapping; an unlisted rate goes to 1. */
  function NextSpeed(rate: real): (r: real)
    ensures r in Speeds
    ensures rate !in Speeds ==> r == 1.0
  {
    Speeds[(IndexOf(Speeds, rate) + 1) % |Speeds|]
  }

  function Presses(rate: real, n: nat): real
    decreases n
  {
    if n == 0 then rate else Presses(NextSpeed(rate), n - 1)
  }

  /** The positions `indexOf` finds for the four listed rates. */
  lemma ListedPositions()
    ensures IndexOf(Speeds, 1.0) == 0 && IndexOf(Speeds, 1.25) == 1
    ensures IndexOf(Speeds, 1.5) == 2 && IndexOf(Speeds, 2.0) == 3
  {
    assert Speeds[0] == 1.0 && Speeds[1] == 1.25 && Speeds[2] == 1.5 && Speeds[3] == 2.0;
  }

  /** The cycle is 1 → 1.25 → 1.5 → 2 → 1. */
  lemma SpeedCycle()
    ensures NextSpeed(1.0) == 1.25 && NextSpeed(1.25) == 1.5
    ensures NextSpeed(1.5) == 2.0 && NextSpeed(2.0) == 1.0
  {
    ListedPositions();
  }

  /** Four presses from a listed rate come back to it. */
  lemma FourPressesReturn(rate: real)
    requires rate in Speeds
    ensures Presses(rate, 4) == rate
  {
    SpeedCycle();
    var r1 := NextSpeed(rate);
    var r2 := NextSpeed(r1);
    var r3 := NextSpeed(r2);
    assert Presses(rate, 4) == Presses(r3, 1);
    if rate == 1.0 {
      assert r3 == 2.0;
    } else if rate == 1.25 {
      assert r3 == 1.0;
    } else if rate == 1.5 {
      assert r3 == 1.25;
    } else {
      assert r3 == 1.5;
    }
  }

  /** Whatever the starting rate, after one press the rate stays in the list forever. */
  lemma {:induction false} PressesStayListed(rate: real, n: nat)
    requires n >= 1
    ensures Presses(rate, n) in Speeds
    decreases n
  {
    var next := NextSpeed(rate);
    assert Presses(rate, n) == Presses(next, n - 1);
    if n > 1 {
      PressesStayListed(next, n - 1);
    } else {
      assert Presses(next, 0) == next;
    }
  }

  // ---------------------------------------------------------------------------
  // Volume icon

  datatype VolumeIcon = VolumeOff | VolumeDown | VolumeUp

  /** `updateVolIcon(v)`. */
  function IconFor(v: real): (i: VolumeIcon)
    ensures i == VolumeOff <==> v == 0.0
    ensures i == VolumeDown <==> v != 0.0 && v < 0.5
    ensures i == VolumeUp <==> v >= 0.5
  {
    if v == 0.0 then VolumeOff else if v < 0.5 then VolumeDown else VolumeUp
  }

  /** The Material Symbols ligature the icon element shows. */
  function IconName(i: VolumeIcon): (name: string)
    ensures |name| > 7 && name[..7] == "volume_"
  {
    match i
    case VolumeOff => "volume_off"
    case VolumeDown => "volume_down"
    case VolumeUp => "volume_up"
  }

  function Loudness(i: VolumeIcon): nat {
    match i
    case VolumeOff => 0
    case VolumeDown => 1
    case VolumeUp => 2
  }

  /** Over the slider's range a louder setting never shows a quieter icon. */
  lemma IconMonotone(v: real, w: real)
    requires 0.0 <= v <= w
    ensures Loudness(IconFor(v)) <= Loudness(IconFor(w))
  {
  }

  /** Different icons show different names. */
  lemma IconNamesDistinct(i: VolumeIcon, j: VolumeIcon)
    ensures IconName(i) == IconName(j) <==> i == j
  {
    assert IconName(VolumeOff)[7] == 'o';
    assert IconName(VolumeDown)[7] == 'd';
    assert IconName(VolumeUp)[7] == 'u';
  }

  // ---------------------------------------------------------------------------
  // Download name

  /** `downloadBlob`'s file name. */
  function DownloadName(name: string): (r: string)
    ensures FileNames.NoSpace(r)
    ensures |r| >= 5 && r[|r| - 5..] == ".webm"
    ensures r[..|r| - 5] == FileNames.Collapse(name)
  {
    FileNames.WebmName(name)
  }

  /** The playback page and the list page name an exported file the same way. */
  lemma DownloadMatchesListExport(rec: Library.Recording)
    ensures DownloadName(rec.name) == Recorder.ExportName(rec)
  {
  }
}
