/**
 * polly.js's module state as an object: each closure variable the functions
 * assign is a field, each function a method, and every method is proved to
 * leave the state the matching `PollySpec` function describes.
 */
module Polly {

  import opened Wrappers
  import opened Dom
  import opened Js
  import opened XPath
  import opened Steps
  import opened PollySchema
  import Playback
  import PollySpec

  class Engine {
    var steps: seq<Step>
    var time: int
    var recording: bool
    var running: bool
    var pending: Option<Timer>
    var log: seq<Dispatch>

    /** The fields as a `Session`. */
    function State(): Session
      reads this
    {
      Session(steps, time, recording, running, pending, log)
    }

    /** The module's initial bindings: no steps, no time, neither recording nor playing. */
    constructor ()
      ensures State() == Initial
    {
      steps := [];
      time := 0;
      recording := false;
      running := false;
      pending := None;
      log := [];
    }

    method Record()
      modifies this
      ensures State() == PollySpec.Record(old(State()))
    {
      recording := true;
      steps := [];
    }

    method StopRecording()
      modifies this
      ensures State() == PollySpec.StopRecording(old(State()))
    {
      recording := false;
    }

    method ToggleRecord()
      modifies this
      ensures State() == PollySpec.ToggleRecord(old(State()))
    {
      recording := !recording;
      if recording {
        Record();
      } else {
        StopRecording();
      }
    }

    method StopRunning()
      modifies this
      ensures State() == Playback.StopRunning(old(State()))
    {
      running := false;
    }

    /** `run(queue)` at clock reading `now`. */
    method Run(queue: seq<Step>, now: int)
      modifies this
      ensures State() == Playback.Run(old(State()), queue, now)
    {
      if |queue| == 0 || !running {
        StopRunning();
        return;
      }
      var step := queue[0];
      var rest := queue[1..];
      pending := Some(Timer(step, rest, now + Delay(step.time)));
    }

    method ToggleRun(now: int)
      modifies this
      ensures State() == PollySpec.ToggleRun(old(State()), now)
    {
      running := !running;
      if running {
        Run(steps, now);
      } else {
        StopRunning();
      }
    }

    /**
     * `capture(e)`.  The listener is attached only while recording, and the
     * target of a click, keypress or change is an element.  `first` and `now`
     * are the two clock readings.
     */
    method Capture(ev: RawEvent, page: Page, first: int, now: int)
      requires recording
      requires ValidLoc(page.doc, ev.target) && IsElement(NodeAt(page.doc, ev.target))
      modifies this
      ensures State() == PollySpec.Capture(old(State()), ev, page, first, now)
    {
      var attrs := NodeAt(page.doc, ev.target).attributes;
      if PollySpec.Marker in attrs && attrs[PollySpec.Marker] != "" {
        return;
      }
      if time == 0 {
        time := first;
      }
      if ev.className !in EventMap {
        return;
      }
      var e := ev.props["view" := Str("")];
      var fields := Copy(map[], e, EventMap[ev.className].args);
      var path := GetElementXPath(page.doc, ev.target);
      var step := Step(fields, ev.className, now - time, path);
      step := step.(fields := CaptureFilter(step.fields, page, ev.target));
      time := now;
      steps := steps + [step];
    }

    /**
     * `simulate(step)`: `ok` is false where the source throws, and then
     * nothing was dispatched; otherwise `after` is the page once the replay
     * filter has run and the dispatch is logged.
     */
    method Simulate(step: Step, page: Page, now: int) returns (ok: bool, after: Page)
      modifies this`log
      ensures var r := PollySchema.Simulate(step, page, now);
        ok == r.Some? &&
        (ok ==> after == r.value.page && log == old(log) + [r.value.dispatch]) &&
        (!ok ==> after == page && log == old(log))
    {
      after := page;
      if step.name !in EventMap {
        return false, page;
      }
      var entry := EventMap[step.name];
      var el := Resolve(page.doc, step.path);
      var args := ObjToArray(step.fields, entry.args);
      if el.None? {
        return false, page;
      }
      var target := el.value;
      after := SimulateFilter(step.fields, page, target);
      log := log + [Dispatch(target, entry.eventInterface, entry.init, args, PropOf(after.values, target), now)];
      ok := true;
    }

    /** The pending timer's callback, run at `now`; the scheduler runs it no earlier than it is due. */
    method Fire(page: Page, now: int) returns (after: Page)
      requires pending.Some? && now >= pending.value.due
      modifies this
      ensures State() == Playback.Fire(Playback.Polly, old(State()), page, now).session
      ensures after == Playback.Fire(Playback.Polly, old(State()), page, now).page
    {
      var t := pending.value;
      pending := None;
      var ok;
      ok, after := Simulate(t.step, page, now);
      if ok {
        Run(t.rest, now);
      }
    }
  }
}
