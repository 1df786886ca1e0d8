/**
 * polly.js's record/replay engine as a state machine: the module state
 * (`steps`, `time`, `recording`, `running`, the timer behind `intervalId`)
 * plus the log of dispatched events, and one function per operation giving
 * the state the operation leaves.  The `Polly` class implements these
 * operations imperatively; the lemmas here state what the source promises.
 */
module PollySpec {

  import opened Wrappers
  import opened Dom
  import opened Js
  import opened XPath
  import opened Steps
  import opened PollySchema
  import Playback

  /** The attribute that marks the control widget's own links. */
  const Marker := "data-polly-action"

  // ---------------------------------------------------------------------
  // Recording
  // ---------------------------------------------------------------------

  /** `record`: a new, empty step list.  `time` is kept, and a running snapshot is not touched. */
  function Record(s: Session): (r: Session)
    ensures r.recording && r.steps == []
    ensures r.time == s.time && r.running == s.running && r.pending == s.pending && r.log == s.log
  {
    s.(recording := true, steps := [])
  }

  /** `stopRecording`. */
  function StopRecording(s: Session): (r: Session)
    ensures !r.recording && r == s.(recording := false)
  {
    s.(recording := false)
  }

  /** `toggleRecord`. */
  function ToggleRecord(s: Session): (r: Session)
    ensures r.recording == !s.recording
    ensures r.recording ==> r.steps == []
    ensures !r.recording ==> r.steps == s.steps
    ensures r.time == s.time && r.running == s.running && r.pending == s.pending && r.log == s.log
  {
    var s1 := s.(recording := !s.recording);
    if s1.recording then Record(s1) else StopRecording(s1)
  }

  /**
   * The step `capture` builds from event `ev`, `since` being the previous
   * capture's time.  The write `e.view = ''` is taken to replace the event's
   * `view` (or to be harmless); on a host where `view` is a read-only
   * accessor the strict-mode write would throw instead.
   */
  function CapturedStep(ev: RawEvent, page: Page, since: int, now: int): (r: Step)
    requires ValidLoc(page.doc, ev.target) && ev.className in EventMap
    ensures r.name == ev.className && r.time == now - since
    ensures r.path == ElementXPath(page.doc, ev.target)
  {
    var e := ev.props["view" := Str("")];
    var fields := Copied(map[], e, EventMap[ev.className].args);
    Step(CaptureFilter(fields, page, ev.target), ev.className, now - since, ElementXPath(page.doc, ev.target))
  }

  /**
   * `capture(e)`, the capturing-phase listener.  The clock is read twice, at
   * line 148 (`first`, used only when `time` is still falsy) and at line 150
   * (`now`).  An event class missing from `eventMap` makes line 154 throw
   * after `time` was set.
   */
  function Capture(s: Session, ev: RawEvent, page: Page, first: int, now: int): (r: Session)
    requires ValidLoc(page.doc, ev.target)
    ensures r.recording == s.recording && r.running == s.running && r.pending == s.pending && r.log == s.log
    ensures Marked(page.doc, ev.target, Marker) ==> r == s
    ensures !Marked(page.doc, ev.target, Marker) && ev.className !in EventMap ==>
      r.steps == s.steps && r.time == (if s.time == 0 then first else s.time)
    ensures !Marked(page.doc, ev.target, Marker) && ev.className in EventMap ==>
      |r.steps| == |s.steps| + 1 && r.steps[..|s.steps|] == s.steps && r.time == now &&
      r.steps[|s.steps|] == CapturedStep(ev, page, if s.time == 0 then first else s.time, now)
  {
    if Marked(page.doc, ev.target, Marker) then s
    else
      var since := if s.time == 0 then first else s.time;
      if ev.className !in EventMap then s.(time := since)
      else s.(steps := s.steps + [CapturedStep(ev, page, since, now)], time := now)
  }


  // ---------------------------------------------------------------------
  // Playback
  // ---------------------------------------------------------------------

  /**
   * `toggleRun`.  Line 104 calls `stop()`, which this file does not define;
   * in a browser the name reaches `window.stop`, so recording goes on.
   * Playback works on a copy of `steps`.  Switching off is `stopRunning`
   * alone: the pending timer is left in place.
   */
  function ToggleRun(s: Session, now: int): (r: Session)
    ensures r.steps == s.steps && r.recording == s.recording && r.time == s.time && r.log == s.log
    ensures s.running ==> r == Playback.StopRunning(s) && r.pending == s.pending
    ensures !s.running && |s.steps| > 0 ==> r.running && r.pending == Some(Schedule(s.steps, now))
    ensures !s.running && |s.steps| == 0 ==> !r.running && r.pending == s.pending
  {
    var s1 := s.(running := !s.running);
    if s1.running then Playback.Run(s1, s1.steps, now) else Playback.StopRunning(s1)
  }


  // ---------------------------------------------------------------------
  // Invariant
  // ---------------------------------------------------------------------

  /** A step `capture` can have produced: its class has an `eventMap` entry and its delay is not negative. */
  predicate Recordable(step: Step) {
    step.name in EventMap && step.time >= 0
  }

  predicate Inv(s: Session) {
    (forall i :: 0 <= i < |s.steps| ==> Recordable(s.steps[i])) &&
    (s.pending.Some? ==>
      Recordable(s.pending.value.step) &&
      forall i :: 0 <= i < |s.pending.value.rest| ==> Recordable(s.pending.value.rest[i]))
  }

  /** The invariant holds initially, and the recording and playback switches keep it. */
  lemma InvPreservedBySwitches(s: Session, now: int)
    requires Inv(s)
    ensures Inv(Initial)
    ensures Inv(Record(s)) && Inv(StopRecording(s)) && Inv(ToggleRecord(s))
    ensures Inv(Playback.StopRunning(s)) && Inv(ToggleRun(s, now))
  {
    if !s.running && |s.steps| > 0 {
      assert forall i :: 0 <= i < |s.steps| - 1 ==> s.steps[1..][i] == s.steps[i + 1];
    }
  }

  /** Firing the timer keeps the invariant. */
  lemma InvPreservedByFire(s: Session, page: Page, now: int)
    requires Inv(s) && s.pending.Some?
    ensures Inv(Playback.Fire(Playback.Polly, s, page, now).session)
  {
    var t := s.pending.value;
    if |t.rest| > 0 {
      assert forall i :: 0 <= i < |t.rest| - 1 ==> t.rest[1..][i] == t.rest[i + 1];
    }
  }

  /** A capture keeps the invariant when the clock does not go back. */
  lemma InvPreservedByCapture(s: Session, ev: RawEvent, page: Page, first: int, now: int)
    requires Inv(s) && ValidLoc(page.doc, ev.target) && s.time <= first <= now
    ensures Inv(Capture(s, ev, page, first, now))
  {
    var r := Capture(s, ev, page, first, now);
    if !Marked(page.doc, ev.target, Marker) && ev.className in EventMap {
      assert r.steps[|s.steps|].time == now - (if s.time == 0 then first else s.time);
      assert forall i :: 0 <= i < |s.steps| ==> r.steps[i] == s.steps[i];
    }
  }

  // ---------------------------------------------------------------------
  // Capture
  // ---------------------------------------------------------------------

  /**
   * The step `capture` appends: the event's listed attributes with object
   * values (and the overwritten `view`) as `''`, nothing else but the change
   * filter's `value` and `index`, then class name, elapsed time and address.
   */
  lemma CapturedStepContents(ev: RawEvent, page: Page, since: int, now: int)
    requires ValidLoc(page.doc, ev.target) && ev.className in EventMap
    ensures var step := CapturedStep(ev, page, since, now);
      var args := EventMap[ev.className].args;
      step.name == ev.className && step.time == now - since &&
      step.path == ElementXPath(page.doc, ev.target) &&
      (forall k :: k in args && k != "view" && k in ev.props ==> Get(step.fields, k) == Flatten(ev.props[k])) &&
      ("view" in args ==> Get(step.fields, "view") == Str("")) &&
      (forall k :: k in args && k != "view" && k !in ev.props ==> Get(step.fields, k) == Undefined) &&
      (forall k :: k in step.fields ==> k in args || k == "value" || k == "index")
  {
    var e := ev.props["view" := Str("")];
    var args := EventMap[ev.className].args;
    var fields := Copied(map[], e, args);
    SchemaShape(ev.className);
    CopiedFromEmpty(e, args);
  }

  /**
   * The change filter: a captured change event stores the target's value
   * and selection index as they are when the event is observed.
   */
  lemma ChangeCaptureStoresValue(ev: RawEvent, page: Page, since: int, now: int)
    requires ValidLoc(page.doc, ev.target) && ev.className in EventMap
    requires Get(ev.props, "type") == Str("change")
    ensures var step := CapturedStep(ev, page, since, now);
      Get(step.fields, "type") == Str("change") &&
      Get(step.fields, "value") == PropOf(page.values, ev.target) &&
      Get(step.fields, "index") == PropOf(page.selected, ev.target)
  {
    var e := ev.props["view" := Str("")];
    var args := EventMap[ev.className].args;
    var fields := Copied(map[], e, args);
    SchemaShape(ev.className);
    CopiedFromEmpty(e, args);
    assert Get(fields, "type") == Str("change");
  }

  /**
   * Elapsed time: never negative when the clock does not go back; the very
   * first capture is measured from the clock read just before it.
   */
  lemma CaptureElapsed(s: Session, ev: RawEvent, page: Page, first: int, now: int)
    requires ValidLoc(page.doc, ev.target) && ev.className in EventMap && !Marked(page.doc, ev.target, Marker)
    ensures var r := Capture(s, ev, page, first, now);
      r.steps[|s.steps|].time == now - (if s.time == 0 then first else s.time)
    ensures s.time <= first <= now ==> Capture(s, ev, page, first, now).steps[|s.steps|].time >= 0
    ensures s.time == 0 && first == now ==> Capture(s, ev, page, first, now).steps[|s.steps|].time == 0
  {
  }

  /**
   * `time` is not reset by `record`: the first step of a later session is
   * measured from the previous session's last capture.
   */
  lemma NewSessionKeepsClock(s: Session, ev: RawEvent, page: Page, first: int, now: int)
    requires s.time != 0
    requires ValidLoc(page.doc, ev.target) && ev.className in EventMap && !Marked(page.doc, ev.target, Marker)
    ensures var r := Capture(Record(s), ev, page, first, now);
      |r.steps| == 1 && r.steps[0].time == now - s.time
  {
    CaptureElapsed(Record(s), ev, page, first, now);
  }

  /** On the document it was captured from, a step's address finds the event's target again. */
  lemma CapturedPathFindsTarget(ev: RawEvent, page: Page, since: int, now: int)
    requires Document(page.doc) && ValidLoc(page.doc, ev.target) && IsElement(NodeAt(page.doc, ev.target))
    requires ev.className in EventMap
    requires NodeAt(page.doc, ev.target).id != "" ==> IdOnlyAt(page.doc, NodeAt(page.doc, ev.target).id, ev.target)
    ensures Resolve(page.doc, CapturedStep(ev, page, since, now).path) == Some(ev.target)
  {
    AddressRoundTrip(page.doc, ev.target);
  }

  // ---------------------------------------------------------------------
  // Replay
  // ---------------------------------------------------------------------

  /**
   * Capture followed by replay on the same document: one event of the
   * schema's interface is dispatched on the original target, its arguments
   * being the captured attributes in the order the init function takes them.
   */
  lemma CaptureReplayRoundTrip(ev: RawEvent, page: Page, later: Page, since: int, now: int, at: int)
    requires Document(page.doc) && ValidLoc(page.doc, ev.target) && IsElement(NodeAt(page.doc, ev.target))
    requires ev.className in EventMap && later.doc == page.doc
    requires NodeAt(page.doc, ev.target).id != "" ==> IdOnlyAt(page.doc, NodeAt(page.doc, ev.target).id, ev.target)
    ensures var step := CapturedStep(ev, page, since, now);
      var args := EventMap[ev.className].args;
      var r := Simulate(step, later, at);
      r.Some? && Playback.Replays(Playback.Polly, r.value.dispatch, step, page.doc) &&
      r.value.dispatch.target == ev.target &&
      |r.value.dispatch.args| == |args| &&
      forall i :: 0 <= i < |args| ==>
        r.value.dispatch.args[i] ==
          (if args[i] == "view" then Str("")
           else if args[i] in ev.props then Flatten(ev.props[args[i]])
           else Undefined)
  {
    CapturedPathFindsTarget(ev, page, since, now);
    CapturedStepContents(ev, page, since, now);
    var args := EventMap[ev.className].args;
    forall i | 0 <= i < |args|
      ensures args[i] in args
    {
    }
  }

  /**
   * The change replay filter runs before dispatch: a change captured while
   * the target held a truthy value sets that value again, so listeners see
   * the value the user produced.
   */
  lemma ChangeReplayRestoresValue(ev: RawEvent, page: Page, later: Page, since: int, now: int, at: int)
    requires Document(page.doc) && ValidLoc(page.doc, ev.target) && IsElement(NodeAt(page.doc, ev.target))
    requires ev.className in EventMap && later.doc == page.doc
    requires NodeAt(page.doc, ev.target).id != "" ==> IdOnlyAt(page.doc, NodeAt(page.doc, ev.target).id, ev.target)
    requires Get(ev.props, "type") == Str("change") && Truthy(PropOf(page.values, ev.target))
    ensures var r := Simulate(CapturedStep(ev, page, since, now), later, at);
      r.Some? && r.value.dispatch.targetValue == PropOf(page.values, ev.target) &&
      PropOf(r.value.page.values, ev.target) == PropOf(page.values, ev.target)
  {
    CapturedPathFindsTarget(ev, page, since, now);
    ChangeCaptureStoresValue(ev, page, since, now);
    ChangeReplaySetsValue(CapturedStep(ev, page, since, now), later, at);
  }

  /** The change replay filter: a truthy recorded value becomes the target's value before dispatch. */
  lemma ChangeReplaySetsValue(step: Step, page: Page, at: int)
    requires Simulate(step, page, at).Some?
    requires Get(step.fields, "type") == Str("change") && Truthy(Get(step.fields, "value"))
    ensures var target := Resolve(page.doc, step.path).value;
      var r := Simulate(step, page, at).value;
      PropOf(r.page.values, target) == Get(step.fields, "value") &&
      r.dispatch.targetValue == Get(step.fields, "value")
  {
  }

  /** The keypress replay filter appends the character of the recorded key code to the target's value. */
  lemma KeypressReplayAppends(step: Step, page: Page, at: int)
    requires Simulate(step, page, at).Some? && Get(step.fields, "type") == Str("keypress")
    ensures var target := Resolve(page.doc, step.path).value;
      var r := Simulate(step, page, at).value;
      PropOf(r.page.values, target) ==
        Append(PropOf(page.values, target), FromCharCode(CharCode(Get(step.fields, "keyCode")))) &&
      r.dispatch.targetValue == PropOf(r.page.values, target)
  {
  }

  /** Playback fails only on a target it cannot find: recorded steps always name a schema entry. */
  lemma ReplayFailsOnlyOnMissingTarget(step: Step, page: Page, at: int)
    requires Recordable(step)
    ensures Simulate(step, page, at).None? <==> Resolve(page.doc, step.path).None?
  {
  }


  // ---------------------------------------------------------------------
  // Playback runs
  // ---------------------------------------------------------------------

  /**
   * Starting playback on a non-empty session replays every step in order,
   * each after its recorded delay, and returns to idle with the session's
   * steps intact, so the next start replays the same steps again from the
   * first one.  The session must not be recording: `toggleRun` does not
   * switch recording off, and in a browser the replayed events would then
   * be captured as further steps.
   */
  lemma PlaybackIsRepeatable(s: Session, page: Page, now: int, again: int)
    requires !s.running && !s.recording && |s.steps| > 0
    requires forall i :: 0 <= i < |s.steps| ==> Playback.Replayable(Playback.Polly, s.steps[i], page.doc)
    ensures var f := Playback.FireAtDue(Playback.Polly, ToggleRun(s, now), page, |s.steps|);
      f.session.steps == s.steps && !f.session.running && !f.session.recording &&
      |f.session.log| >= |s.log| && f.session.log[..|s.log|] == s.log &&
      Playback.InOrder(f.session.log[|s.log|..], Playback.ExpectedAll(Playback.Polly, s.steps, page.doc),
        s.steps, ToggleRun(s, now).pending.value.due) &&
      ToggleRun(s, now).pending.value.due == now + Delay(s.steps[0].time) &&
      ToggleRun(f.session, again).running &&
      ToggleRun(f.session, again).pending == Some(Schedule(s.steps, again))
  {
    Playback.RunFromStart(Playback.Polly, ToggleRun(s, now), page, now, s.steps, s.log);
  }

  /**
   * Clicking "stop" during playback leaves the scheduled step to fire: it is
   * still replayed, and nothing after it.
   */
  lemma ToggleOffReplaysOneMore(s: Session, page: Page, now: int, n: nat)
    requires s.running && s.pending.Some? && n > 0
    requires Playback.Replayable(Playback.Polly, s.pending.value.step, page.doc)
    ensures var f := Playback.FireAtDue(Playback.Polly, ToggleRun(s, now), page, n);
      !f.session.running && f.session.pending.None? &&
      |f.session.log| == |s.log| + 1 &&
      Playback.Replays(Playback.Polly, f.session.log[|s.log|], s.pending.value.step, page.doc)
  {
    Playback.StopLetsScheduledStepFire(Playback.Polly, s, page, n);
  }

  /**
   * After a step whose target cannot be found, `running` is still true with
   * no timer: the next click on "run" only switches playback off, and the
   * one after starts it again.
   */
  lemma MissingTargetNeedsTwoClicks(s: Session, page: Page, now: int, later: int, again: int)
    requires s.running && s.pending.Some? && Resolve(page.doc, s.pending.value.step.path).None?
    requires |s.steps| > 0
    ensures var f := Playback.Fire(Playback.Polly, s, page, now);
      var off := ToggleRun(f.session, later);
      f.session.running && f.session.log == s.log &&
      !off.running && off.pending.None? &&
      ToggleRun(off, again).running && ToggleRun(off, again).pending == Some(Schedule(s.steps, again))
  {
    Playback.MissingTargetLeavesRunning(Playback.Polly, s, page, now);
  }
}
