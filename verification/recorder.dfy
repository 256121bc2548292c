/**
  The recording page's controller: the `isRecording` / `isPaused` flags, the
  timer fields `startTimestamp` and `elapsedBeforePause`, the interval that
  refreshes the `mm:ss.d` readout, and the `MediaRecorder` it drives. Each
  button handler is a pure transition on an immutable state; the clock
  (`performance.now()`) is an explicit natural number of milliseconds.
 */
module Recorder {
  import opened JsMath
  import opened Decimal
  import opened Optional
  import Library
  import FileNames

  /** The `MediaRecorder`'s own state, or no recorder before the first start. */
  datatype Device = NoRecorder | Inactive | Capturing | Suspended

  datatype RecorderState = RecorderState(
    isRecording: bool,
    isPaused: bool,
    startTimestamp: nat,
    elapsedBeforePause: int,
    timerRunning: bool,        // a `setInterval` refresh is scheduled
    display: string,           // the text of the time readout
    device: Device,
    chunks: seq<seq<Uint8>>)   // data delivered by `ondataavailable` since the last start

  const ZeroReadout := "00:00.0"

  /** The page as loaded: nothing recording, readout at zero. */
  function Initial(): (s: RecorderState)
    ensures Valid(s) && !s.isRecording
  {
    RecorderState(false, false, 0, 0, false, ZeroReadout, NoRecorder, [])
  }

  /**
    How the flags, the timer and the device stay in step: the refresh runs and the
    device captures exactly while recording and not paused, the device is suspended
    exactly while paused, and between recordings nothing is accumulated and the
    readout shows zero.
   */
  predicate Valid(s: RecorderState) {
    && (s.timerRunning <==> s.isRecording && !s.isPaused)
    && (s.device == Capturing <==> s.isRecording && !s.isPaused)
    && (s.device == Suspended <==> s.isRecording && s.isPaused)
    && (!s.isRecording ==> s.elapsedBeforePause == 0 && s.display == ZeroReadout)
  }

  /** The time the refresh computes: the banked time plus the open interval. */
  function Elapsed(s: RecorderState, now: nat): (e: int)
    ensures now >= s.startTimestamp ==> e >= s.elapsedBeforePause
    ensures now == s.startTimestamp ==> e == s.elapsedBeforePause
  {
    s.elapsedBeforePause + (now - s.startTimestamp)
  }

  /** While an interval is open the elapsed time advances exactly as the clock does. */
  lemma ElapsedAdvances(s: RecorderState, t: nat, t': nat)
    ensures Elapsed(s, t') - Elapsed(s, t) == t' - t
  {
  }

  /**
    The record button. Ignored while recording; when the microphone request is
    refused the handler stops at the rejected `await` and nothing changes.
    Otherwise a fresh recorder starts capturing, the chunk list is emptied and the
    timer opens an interval at `now`.
   */
  function PressRecord(s: RecorderState, now: nat, micGranted: bool): (r: RecorderState)
    ensures s.isRecording || !micGranted ==> r == s
    ensures !s.isRecording && micGranted ==>
      && r.isRecording && !r.isPaused && r.timerRunning && r.device == Capturing
      && r.startTimestamp == now && r.elapsedBeforePause == s.elapsedBeforePause
      && r.chunks == [] && r.display == s.display
    ensures Valid(s) ==> Valid(r)
  {
    if s.isRecording || !micGranted then s else StartCapture(s, now)
  }

  /** The record handler's work after the microphone is granted: new recorder, empty chunks, timer opened at `now`. */
  function StartCapture(s: RecorderState, now: nat): (r: RecorderState)
    ensures r.isRecording && !r.isPaused && r.timerRunning && r.device == Capturing
    ensures r.startTimestamp == now && r.chunks == []
    ensures r.elapsedBeforePause == s.elapsedBeforePause && r.display == s.display
    ensures Valid(s) && !s.isRecording ==> Valid(r)
  {
    s.(isRecording := true, isPaused := false, startTimestamp := now,
       timerRunning := true, device := Capturing, chunks := [])
  }

  /**
    The pause/resume button. Ignored unless recording. Pausing banks the open
    interval and stops the refresh; resuming opens a new interval at `now`.
   */
  function PressPause(s: RecorderState, now: nat): (r: RecorderState)
    ensures !s.isRecording ==> r == s
    ensures s.isRecording ==> r.isRecording && r.isPaused == !s.isPaused
    ensures s.isRecording && !s.isPaused ==>
      r.elapsedBeforePause == Elapsed(s, now) && r.startTimestamp == s.startTimestamp
      && !r.timerRunning && r.device == Suspended
    ensures s.isRecording && s.isPaused ==>
      r.elapsedBeforePause == s.elapsedBeforePause && r.startTimestamp == now
      && r.timerRunning && r.device == Capturing
    ensures r.display == s.display && r.chunks == s.chunks
    ensures Valid(s) ==> Valid(r)
  {
    if !s.isRecording then s
    else if !s.isPaused then
      s.(device := Suspended, timerRunning := false,
         elapsedBeforePause := s.elapsedBeforePause + (now - s.startTimestamp),
         isPaused := true)
    else
      s.(device := Capturing, startTimestamp := now, timerRunning := true, isPaused := false)
  }

  /**
    The stop button. Ignored unless recording. Stops the device and the refresh,
    discards the banked time without adding the open interval, and resets the
    readout. `isPaused` keeps its value until the next start.
   */
  function PressStop(s: RecorderState): (r: RecorderState)
    ensures !s.isRecording ==> r == s
    ensures s.isRecording ==>
      && !r.isRecording && !r.timerRunning && r.device == Inactive
      && r.elapsedBeforePause == 0 && r.display == ZeroReadout
      && r.isPaused == s.isPaused && r.chunks == s.chunks && r.startTimestamp == s.startTimestamp
    ensures Valid(s) ==> Valid(r)
  {
    if !s.isRecording then s
    else s.(device := Inactive, isRecording := false, timerRunning := false,
            elapsedBeforePause := 0, display := ZeroReadout)
  }

  /** One firing of the 100 ms refresh, if one is scheduled. */
  function Tick(s: RecorderState, now: nat): (r: RecorderState)
    ensures s.timerRunning ==> r.display == FormatTime(Elapsed(s, now))
    ensures !s.timerRunning ==> r == s
    ensures r.(display := s.display) == s
    ensures Valid(s) ==> Valid(r)
  {
    if s.timerRunning then s.(display := FormatTime(Elapsed(s, now))) else s
  }

  /** `ondataavailable`: the handler has no guard, so it also collects the final chunk after stop. */
  function DataAvailable(s: RecorderState, chunk: seq<Uint8>): (r: RecorderState)
    ensures r.chunks == s.chunks + [chunk]
    ensures r.(chunks := s.chunks) == s
    ensures Valid(s) ==> Valid(r)
  {
    s.(chunks := s.chunks + [chunk])
  }

  /** The bytes of `new Blob(chunks)`: the chunks joined in delivery order. */
  function Join(chunks: seq<seq<Uint8>>): (bytes: seq<Uint8>)
    ensures chunks != [] ==> |chunks[0]| <= |bytes| && bytes[..|chunks[0]|] == chunks[0]
    decreases |chunks|
  {
    if chunks == [] then [] else Join(chunks[..|chunks| - 1]) + chunks[|chunks| - 1]
  }

  /**
    The record `onstop` saves. The id and the name come from the wall clock,
    `Math.random` and the locale, so they are parameters here.
   */
  function SavedRecord(s: RecorderState, id: string, name: string, created: int): (rec: Library.Recording)
    ensures rec.blob.mime == "audio/webm"
    ensures rec.id == id && rec.name == name && rec.created == created
  {
    Library.Recording(id, name, Library.Blob(Join(s.chunks), "audio/webm"), created)
  }

  /** A chunk delivered before `onstop` is appended to the end of the saved audio. */
  lemma DataExtendsSavedAudio(s: RecorderState, chunk: seq<Uint8>, id: string, name: string, created: int)
    ensures SavedRecord(DataAvailable(s, chunk), id, name, created).blob.bytes
         == SavedRecord(s, id, name, created).blob.bytes + chunk
  {
    assert (s.chunks + [chunk])[..|s.chunks|] == s.chunks;
  }

  /**
    A recording stopped straight after it started. `stop()` delivers one final
    chunk `c` before `onstop`, and the saved record holds exactly that chunk;
    had no chunk been delivered, the record would be empty.
   */
  lemma StopRightAfterStart(s: RecorderState, now: nat, c: seq<Uint8>, id: string, name: string, created: int)
    requires Valid(s) && !s.isRecording
    ensures var r := PressStop(PressRecord(s, now, true));
      && Valid(r) && !r.isRecording
      && SavedRecord(r, id, name, created).blob == Library.Blob([], "audio/webm")
      && Valid(DataAvailable(r, c))
      && SavedRecord(DataAvailable(r, c), id, name, created).blob == Library.Blob(c, "audio/webm")
  {
    assert [] + c == c;
  }

  /** The list's export action names the file after the record. */
  function ExportName(rec: Library.Recording): (r: string)
    ensures FileNames.NoSpace(r)
    ensures |r| >= 5 && r[|r| - 5..] == ".webm"
    ensures r[..|r| - 5] == FileNames.Collapse(rec.name)
  {
    FileNames.WebmName(rec.name)
  }

  // ---------------------------------------------------------------------------
  // The readout `mm:ss.d`

  /**
    `formatTime(ms)`. For `ms >= 0` the fields are read back by `ParseReadout`
    (`FormatTimeRoundTrip`); a negative time is written with JavaScript's
    floored minutes and truncating `%`: the minutes are negative, the other
    fields are zero or negative, and the readout starts with a minus sign
    (`NegativeReadout`).
   */
  function FormatTime(ms: int): (r: string)
    ensures |r| >= 7
    ensures r[0] == '-' <==> ms < 0
  {
    FormatTimeSign(ms);
    var totalSec := ms / 1000;             // Math.floor: Dafny's / floors for a positive divisor
    var min := totalSec / 60;
    var sec := RemInt(totalSec, 60);
    var dec := RemInt(ms, 1000) / 100;
    PadStart(IntToString(min), 2, '0') + ":" + PadStart(IntToString(sec), 2, '0') + "." + IntToString(dec)
  }

  lemma FormatTimeSign(ms: int)
    ensures var min := PadStart(IntToString(ms / 1000 / 60), 2, '0');
      |min| >= 2 && (min[0] == '-' <==> ms < 0)
  {
    var m := ms / 1000 / 60;
    if ms < 0 {
      assert m < 0;
    } else {
      assert m >= 0;
    }
  }

  /** A readout one millisecond short of a second before the start: JavaScript writes `-1:-1.-10`. */
  lemma NegativeReadout()
    ensures FormatTime(-999) == "-1:-1.-10"
  {
    assert -999 / 1000 == -1 && -1 / 60 == -1;
    assert RemInt(-1, 60) == -1 && RemInt(-999, 1000) == -999 && -999 / 100 == -10;
    assert NatToString(1) == "1" && NatToString(10) == "10";
    assert IntToString(-1) == "-1" && IntToString(-10) == "-10";
    assert PadStart("-1", 2, '0') == "-1";
  }

  /** The three fields of a readout. */
  datatype Reading = Reading(minutes: nat, seconds: nat, tenths: nat)

  function ReadingMs(r: Reading): nat {
    r.minutes * 60000 + r.seconds * 1000 + r.tenths * 100
  }

  /** The fixed-width end of a readout: `:`, two second digits, `.`, one tenths digit. */
  predicate ReadoutTail(t: string) {
    |t| == 5 && t[0] == ':' && IsDigit(t[1]) && IsDigit(t[2]) && t[3] == '.' && IsDigit(t[4])
  }

  /** Read a readout back: at least two minute digits followed by a readout tail. */
  function ParseReadout(s: string): Option<Reading> {
    if |s| >= 7 && AllDigits(s[..|s| - 5]) && ReadoutTail(s[|s| - 5..]) then
      var t := s[|s| - 5..];
      Some(Reading(ParseDigits(s[..|s| - 5]), 10 * DigitValue(t[1]) + DigitValue(t[2]), DigitValue(t[4])))
    else None
  }

  /**
    For a non-negative time the readout is well formed, its seconds are below 60
    and its tenths below 10, and it is the time truncated to a tenth of a second.
   */
  lemma FormatTimeRoundTrip(ms: nat)
    ensures ParseReadout(FormatTime(ms)).Some?
    ensures var r := ParseReadout(FormatTime(ms)).value;
      && r.minutes == ms / 1000 / 60
      && r.seconds == ms / 1000 % 60 && r.seconds < 60
      && r.tenths == ms % 1000 / 100 && r.tenths < 10
      && ReadingMs(r) <= ms < ReadingMs(r) + 100
  {
    var min, sec, dec := ms / 1000 / 60, ms / 1000 % 60, ms % 1000 / 100;
    FormatTimeShape(ms);
    TwoDigitsRoundTrip(min);
    TwoDigitsRoundTrip(sec);
    ParseReadoutFields(TwoDigits(min), TwoDigits(sec), DigitChar(dec));
    TruncatedToTenths(ms);
  }

  /** For a non-negative time every field is a plain `padStart` of `String(n)`. */
  lemma FormatTimeShape(ms: nat)
    ensures FormatTime(ms) == TwoDigits(ms / 1000 / 60) + ":" + TwoDigits(ms / 1000 % 60) + "." + [DigitChar(ms % 1000 / 100)]
  {
    var dec := ms % 1000 / 100;
    assert RemInt(ms, 1000) / 100 == dec;
    assert IntToString(dec) == [DigitChar(dec)];
  }

  lemma ParseReadoutFields(a: string, b: string, c: char)
    requires AllDigits(a) && |a| >= 2 && AllDigits(b) && |b| == 2 && IsDigit(c)
    ensures ParseReadout(a + ":" + b + "." + [c]).Some?
    ensures ParseReadout(a + ":" + b + "." + [c]).value == Reading(ParseDigits(a), ParseDigits(b), DigitValue(c))
  {
    var s := a + ":" + b + "." + [c];
    var tail := [':', b[0], b[1], '.', c];
    assert s == a + tail;
    assert s[..|s| - 5] == a;
    assert s[|s| - 5..] == tail;
    ParseTwoDigits(b);
  }

  lemma TruncatedToTenths(ms: nat)
    ensures var m := ms / 1000 / 60 * 60000 + ms / 1000 % 60 * 1000 + ms % 1000 / 100 * 100;
      m <= ms < m + 100
  {
    var t := ms / 1000;
    assert ms == t * 1000 + ms % 1000;
    assert t == t / 60 * 60 + t % 60;
    assert ms % 1000 == ms % 1000 / 100 * 100 + ms % 1000 % 100;
  }

  // ---------------------------------------------------------------------------
  // Interval accounting over a session

  /** Press pause/resume at each of the times in `ts`, in order. */
  function Toggles(s: RecorderState, ts: seq<nat>): RecorderState
    decreases |ts|
  {
    if ts == [] then s else Toggles(PressPause(s, ts[0]), ts[1..])
  }

  /**
    The active time of a session opened at `start` and toggled at `ts`: the
    intervals from each opening (the start or a resume) to the next pause.
   */
  function ActiveSum(start: int, ts: seq<nat>): int
    decreases |ts|
  {
    if |ts| == 0 then 0
    else if |ts| == 1 then ts[0] - start
    else (ts[0] - start) + ActiveSum(ts[1], ts[2..])
  }

  /** The last event time of a session. */
  function LastTime(start: nat, ts: seq<nat>): nat {
    if ts == [] then start else ts[|ts| - 1]
  }

  /** A clock that never runs backwards over the session. */
  predicate Monotone(start: nat, ts: seq<nat>)
    decreases |ts|
  {
    ts == [] || (start <= ts[0] && Monotone(ts[0], ts[1..]))
  }

  lemma {:induction false} TogglesAccumulate(s: RecorderState, ts: seq<nat>)
    requires s.isRecording && !s.isPaused
    ensures var r := Toggles(s, ts);
      && r.isRecording
      && r.isPaused == (|ts| % 2 == 1)
      && r.elapsedBeforePause == s.elapsedBeforePause + ActiveSum(s.startTimestamp, ts)
      && (|ts| % 2 == 0 ==> r.startTimestamp == LastTime(s.startTimestamp, ts))
      && r.display == s.display
    decreases |ts|
  {
    if |ts| >= 2 {
      var p := PressPause(PressPause(s, ts[0]), ts[1]);
      assert Toggles(s, ts) == Toggles(p, ts[2..]) by {
        assert ts[1..][0] == ts[1] && ts[1..][1..] == ts[2..];
      }
      TogglesAccumulate(p, ts[2..]);
      if |ts[2..]| > 0 {
        assert LastTime(p.startTimestamp, ts[2..]) == LastTime(s.startTimestamp, ts);
      }
    }
  }

  /**
    Starting from a stopped page and pressing pause/resume at `ts`, the banked time
    is the sum of the completed active intervals, and while running the refresh
    shows that sum plus the interval opened at the last resume.
   */
  lemma SessionBanksActiveTime(s: RecorderState, start: nat, ts: seq<nat>, now: nat)
    requires Valid(s) && !s.isRecording
    ensures var r := Toggles(PressRecord(s, start, true), ts);
      && Valid(r)
      && r.elapsedBeforePause == ActiveSum(start, ts)
      && (|ts| % 2 == 0 ==> Elapsed(r, now) == ActiveSum(start, ts) + (now - LastTime(start, ts)))
  {
    var s0 := PressRecord(s, start, true);
    TogglesAccumulate(s0, ts);
    TogglesValid(s0, ts);
  }

  lemma {:induction false} TogglesValid(s: RecorderState, ts: seq<nat>)
    requires Valid(s)
    ensures Valid(Toggles(s, ts))
    decreases |ts|
  {
    if ts != [] {
      TogglesValid(PressPause(s, ts[0]), ts[1..]);
    }
  }

  /** With a monotone clock the active time is never negative and never more than the wall time. */
  lemma {:induction false} ActiveSumBounds(start: nat, ts: seq<nat>)
    requires Monotone(start, ts)
    ensures 0 <= ActiveSum(start, ts) <= LastTime(start, ts) - start
    decreases |ts|
  {
    if |ts| >= 2 {
      assert Monotone(ts[1], ts[2..]);
      ActiveSumBounds(ts[1], ts[2..]);
      assert LastTime(ts[1], ts[2..]) == LastTime(start, ts);
    }
  }

  function Shift(ts: seq<nat>, d: nat): (r: seq<nat>)
    ensures |r| == |ts|
    ensures forall i :: 0 <= i < |ts| ==> r[i] == ts[i] + d
  {
    seq(|ts|, i requires 0 <= i < |ts| => ts[i] + d)
  }

  /** Moving the whole session later by `d` does not change its active time. */
  lemma {:induction false} ActiveSumShift(start: nat, ts: seq<nat>, d: nat)
    ensures ActiveSum(start + d, Shift(ts, d)) == ActiveSum(start, ts)
    decreases |ts|
  {
    if |ts| >= 2 {
      assert Shift(ts, d)[2..] == Shift(ts[2..], d);
      ActiveSumShift(ts[1], ts[2..], d);
    }
  }

  /** The toggle times with the `k`-th one and all later ones delayed by `d`. */
  function Delay(ts: seq<nat>, k: nat, d: nat): seq<nat>
    requires k <= |ts|
  {
    ts[..k] + Shift(ts[k..], d)
  }

  /**
    Paused time never counts: lengthening any pause by `d` (delaying the resume
    at odd index `k` and everything after it) leaves the active time unchanged.
   */
  lemma {:induction false} PauseLengthIgnored(start: nat, ts: seq<nat>, k: nat, d: nat)
    requires k < |ts| && k % 2 == 1
    ensures ActiveSum(start, Delay(ts, k, d)) == ActiveSum(start, ts)
    decreases k
  {
    var ds := Delay(ts, k, d);
    assert |ds| == |ts|;
    if k == 1 {
      assert ds[0] == ts[0] && ds[1] == ts[1] + d;
      assert ds[2..] == Shift(ts[2..], d);
      ActiveSumShift(ts[1], ts[2..], d);
    } else {
      assert ds[0] == ts[0] && ds[1] == ts[1];
      assert ds[2..] == Delay(ts[2..], k - 2, d);
      PauseLengthIgnored(ts[1], ts[2..], k - 2, d);
    }
  }

  // ---------------------------------------------------------------------------
  // Single-step facts

  /** At the instant of pausing, the banked time equals what the refresh was showing. */
  lemma PauseFreezesReadout(s: RecorderState, now: nat, later: nat)
    requires Valid(s) && s.isRecording && !s.isPaused
    ensures var r := PressPause(s, now);
      && r.elapsedBeforePause == Elapsed(s, now)
      && Tick(r, later) == r
  {
  }

  /** After resuming, the refresh continues from the frozen value. */
  lemma ResumeContinues(s: RecorderState, now: nat, later: nat)
    requires Valid(s) && s.isRecording && s.isPaused
    ensures var r := PressPause(s, now);
      && Elapsed(r, now) == s.elapsedBeforePause
      && Elapsed(r, later) == s.elapsedBeforePause + (later - now)
  {
  }

  /** A second stop changes nothing. */
  lemma StopIdempotent(s: RecorderState)
    ensures PressStop(PressStop(s)) == PressStop(s)
  {
  }

  /**
    Start, pause after 2 s, resume 5 s later, and 1 s after that the readout shows
    three seconds; the following stop resets it to zero.
   */
  lemma PauseResumeScenario()
    ensures var s := Tick(PressPause(PressPause(PressRecord(Initial(), 0, true), 2000), 7000), 8000);
      && s.display == "00:03.0"
      && PressStop(s).display == ZeroReadout
      && PressStop(s).elapsedBeforePause == 0
  {
    var s0 := PressRecord(Initial(), 0, true);
    assert s0.startTimestamp == 0 && s0.elapsedBeforePause == 0 && s0.isRecording && !s0.isPaused;
    var s1 := PressPause(s0, 2000);
    assert s1.elapsedBeforePause == 2000 && s1.isPaused;
    var s2 := PressPause(s1, 7000);
    assert s2.startTimestamp == 7000 && s2.elapsedBeforePause == 2000 && s2.timerRunning;
    assert Elapsed(s2, 8000) == 3000;
    ReadoutAtThreeSeconds();
    var s3 := Tick(s2, 8000);
    assert s3.display == "00:03.0";
  }

  lemma ReadoutAtThreeSeconds()
    ensures FormatTime(3000) == "00:03.0"
  {
    assert RemInt(3, 60) == 3 && RemInt(3000, 1000) == 0;
    assert IntToString(0) == "0" && IntToString(3) == "3";
    assert PadStart("0", 2, '0') == "00";
    assert PadStart("3", 2, '0') == "03";
  }

  lemma ReadoutAt2499()
    ensures FormatTime(2499) == "00:02.4"
  {
    assert 2499 / 1000 == 2 && 2 / 60 == 0;
    assert RemInt(2, 60) == 2 && RemInt(2499, 1000) == 499 && 499 / 100 == 4;
    assert IntToString(0) == "0" && IntToString(2) == "2" && IntToString(4) == "4";
    assert PadStart("0", 2, '0') == "00";
    assert PadStart("2", 2, '0') == "02";
  }
}
