/**
  The record button's handler as the browser runs it: it checks `isRecording`,
  then suspends at `await getUserMedia(...)`, and only after the permission
  resolves does it create and start a `MediaRecorder`. Clicks can arrive
  while a handler is suspended. The page tracks the suspended handlers and
  the recorders that were started and not yet stopped.
 */
module RecordButton {
  import opened Recorder

  /**
    The page: the controller state, the handlers suspended at the `await`, the
    recorders started and not yet stopped, and the refresh intervals whose id
    was overwritten in `timerInterval` and that no `clearInterval` can reach.
   */
  datatype Page = Page(state: RecorderState, waiting: nat, live: nat, leaked: nat)

  /** Each started recorder is the current one, and there is one exactly while recording. */
  predicate OneRecorder(p: Page) {
    p.live == (if p.state.isRecording then 1 else 0)
  }

  /** The page as the corrected handler keeps it: one recorder per recording, no unreachable refresh, a valid controller. */
  predicate Settled(p: Page) {
    OneRecorder(p) && p.leaked == 0 && Valid(p.state)
  }

  /** A click runs the handler up to the `await`; while recording it returns at the guard. */
  function Click(p: Page): (r: Page)
    ensures r.state == p.state && r.live == p.live && r.leaked == p.leaked
    ensures r.waiting == if p.state.isRecording then p.waiting else p.waiting + 1
  {
    if p.state.isRecording then p else p.(waiting := p.waiting + 1)
  }

  /** The microphone is refused: the suspended handler ends with the rejection. */
  function Deny(p: Page): (r: Page)
    requires p.waiting > 0
    ensures r == p.(waiting := p.waiting - 1)
  {
    p.(waiting := p.waiting - 1)
  }

  /**
    As written: the handler resumes after the `await` without looking at
    `isRecording` again. It starts a second recorder over a running one, and
    `startTimer` overwrites `timerInterval`, so neither the running recorder nor
    its refresh is ever stopped.
   */
  function GrantAsWritten(p: Page, now: nat): (r: Page)
    requires p.waiting > 0
    ensures r.state == StartCapture(p.state, now)
    ensures r.live == p.live + 1 && r.waiting == p.waiting - 1
    ensures r.leaked == if p.state.timerRunning then p.leaked + 1 else p.leaked
  {
    Page(StartCapture(p.state, now), p.waiting - 1, p.live + 1, if p.state.timerRunning then p.leaked + 1 else p.leaked)
  }

  /** Corrected: the resumed handler checks `isRecording` again and gives up if a recording started meanwhile. */
  function Grant(p: Page, now: nat): (r: Page)
    requires p.waiting > 0
    ensures r.waiting == p.waiting - 1
    ensures p.state.isRecording ==> r.state == p.state && r.live == p.live && r.leaked == p.leaked
    ensures !p.state.isRecording ==> r.state == StartCapture(p.state, now) && r.live == p.live + 1
    ensures !p.state.isRecording ==> r.leaked == if p.state.timerRunning then p.leaked + 1 else p.leaked
    ensures Settled(p) ==> Settled(r)
  {
    if p.state.isRecording then p.(waiting := p.waiting - 1)
    else Page(StartCapture(p.state, now), p.waiting - 1, p.live + 1, if p.state.timerRunning then p.leaked + 1 else p.leaked)
  }

  /** The stop button stops the current recorder and clears the current refresh, if recording. */
  function Stop(p: Page): (r: Page)
    ensures p.state.isRecording && p.live > 0 ==> r.live == p.live - 1 && !r.state.isRecording
    ensures !p.state.isRecording ==> r == p
    ensures r.state == PressStop(p.state) && r.leaked == p.leaked && r.waiting == p.waiting
    ensures Settled(p) ==> Settled(r)
  {
    if p.state.isRecording && p.live > 0 then p.(state := PressStop(p.state), live := p.live - 1)
    else p.(state := PressStop(p.state))
  }

  /** Pause/resume acts on the current recorder and the current refresh only. */
  function Pause(p: Page, now: nat): (r: Page)
    ensures r.live == p.live && r.waiting == p.waiting && r.leaked == p.leaked
    ensures r.state == PressPause(p.state, now)
    ensures Settled(p) ==> Settled(r)
  {
    p.(state := PressPause(p.state, now))
  }

  /** The current refresh fires. */
  function Refresh(p: Page, now: nat): (r: Page)
    ensures r.state == Tick(p.state, now)
    ensures r.live == p.live && r.waiting == p.waiting && r.leaked == p.leaked
    ensures Settled(p) ==> Settled(r)
  {
    p.(state := Tick(p.state, now))
  }

  /**
    An unreachable refresh fires: it still writes the elapsed time computed from
    the shared `elapsedBeforePause` and `startTimestamp`, whatever the page is doing.
   */
  function LeakedRefresh(p: Page, now: nat): (r: Page)
    requires p.leaked > 0
    ensures r.state == p.state.(display := FormatTime(Elapsed(p.state, now)))
    ensures r.live == p.live && r.waiting == p.waiting && r.leaked == p.leaked
  {
    p.(state := p.state.(display := FormatTime(Elapsed(p.state, now))))
  }

  function Start(): (p: Page)
    ensures Settled(p) && p.waiting == 0
  {
    Page(Initial(), 0, 0, 0)
  }

  /** Two clicks before the permission prompt resolves, both granted (at 0 ms and 1 ms), then stop. */
  function AfterDoubleClick(): Page {
    Stop(GrantAsWritten(GrantAsWritten(Click(Click(Start())), 0), 1))
  }

  /**
    As written, after a double click and a stop the page says it is not
    recording, yet one recorder is still capturing and one refresh is still
    scheduled; when it fires, at 2.5 s, it overwrites the reset readout with
    `00:02.4`.
   */
  lemma DoubleClickOrphansRecorder()
    ensures !AfterDoubleClick().state.isRecording && AfterDoubleClick().state.display == ZeroReadout
    ensures AfterDoubleClick().live == 1 && !OneRecorder(AfterDoubleClick())
    ensures AfterDoubleClick().leaked == 1
    ensures LeakedRefresh(AfterDoubleClick(), 2500).state.display == "00:02.4"
  {
    assert Elapsed(AfterDoubleClick().state, 2500) == 2499;
    ReadoutAt2499();
  }

  /**
    With the re-check, every sequence of clicks, answers, refreshes and button
    presses keeps exactly one recorder per recording and no unreachable refresh.
   */
  lemma {:induction false} ButtonKeepsOneRecorder(p: Page, events: seq<Event>)
    requires Settled(p)
    ensures Settled(Run(p, events))
    decreases |events|
  {
    if events != [] {
      ButtonKeepsOneRecorder(Step(p, events[0]), events[1..]);
    }
  }

  /** The user and browser events the page reacts to. */
  datatype Event = ClickRecord | Granted(now: nat) | Denied | ClickPause(now: nat) | ClickStop | Interval(now: nat)

  /** One event, with the corrected continuation; an answer with no suspended handler is ignored. */
  function Step(p: Page, e: Event): (r: Page)
    ensures Settled(p) ==> Settled(r)
  {
    match e
    case ClickRecord => Click(p)
    case Granted(now) => if p.waiting > 0 then Grant(p, now) else p
    case Denied => if p.waiting > 0 then Deny(p) else p
    case ClickPause(now) => Pause(p, now)
    case ClickStop => Stop(p)
    case Interval(now) => Refresh(p, now)
  }

  function Run(p: Page, events: seq<Event>): Page
    decreases |events|
  {
    if events == [] then p else Run(Step(p, events[0]), events[1..])
  }

  /** With no click pending, a click answered at once is the controller's record transition. */
  lemma ImmediateGrantIsPressRecord(s: RecorderState, live: nat, now: nat)
    requires !s.isRecording
    ensures Grant(Click(Page(s, 0, live, 0)), now).state == PressRecord(s, now, true)
    ensures Deny(Click(Page(s, 0, live, 0))).state == PressRecord(s, now, false)
  {
  }
}
