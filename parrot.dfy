/**
 * parrot.js's module state as an object, as `Polly.Engine` is for polly.js:
 * the closure variables are fields (`playing` is `running`), the functions
 * methods, each proved to leave the state the matching `ParrotSpec`
 * function describes.
 */
module Parrot {

  import opened Wrappers
  import opened Dom
  import opened Js
  import opened XPath
  import opened Steps
  import opened ParrotSchema
  import Playback
  import ParrotSpec

  class Recorder {
    var steps: seq<Step>
    var time: int
    var recording: bool
    var running: bool
    var pending: Option<Timer>
    var log: seq<Dispatch>

    /** The fields as a `Session`. */
    function State(): Session
      reads this
    {
      Session(steps, time, recording, running, pending, log)
    }

    /** The module's initial bindings. */
    constructor ()
      ensures State() == Initial
    {
      steps := [];
      time := 0;
      recording := false;
      running := false;
      pending := None;
      log := [];
    }

    method Start()
      modifies this
      ensures State() == ParrotSpec.Start(old(State()))
    {
      recording := true;
      steps := [];
    }

    method Stop()
      modifies this
      ensures State() == ParrotSpec.Stop(old(State()))
    {
      recording := false;
    }

    method StartStop()
      modifies this
      ensures State() == ParrotSpec.StartStop(old(State()))
    {
      recording := !recording;
      if recording {
        Start();
      } else {
        Stop();
      }
    }

    method StopPlaying()
      modifies this
      ensures State() == Playback.StopRunning(old(State()))
    {
      running := false;
    }

    /** `run(steps)` at clock reading `now`. */
    method Run(queue: seq<Step>, now: int)
      modifies this
      ensures State() == Playback.Run(old(State()), queue, now)
    {
      if |queue| == 0 || !running {
        StopPlaying();
        return;
      }
      var step := queue[0];
      var rest := queue[1..];
      pending := Some(Timer(step, rest, now + Delay(step.time)));
    }

    method Play(now: int)
      modifies this
      ensures State() == ParrotSpec.Play(old(State()), now)
    {
      running := !running;
      if running {
        Stop();
        Run(steps, now);
      } else {
        StopPlaying();
      }
    }

    /**
     * `record(e)`, attached while recording.  The object literal of
     * `recordKeyboardEvent` or `recordMouseEvent` is the class's attributes
     * read off the event; the four common attributes are then assigned one by
     * one.  `first` and `now` are the two clock readings.
     */
    method Record(ev: RawEvent, page: Page, first: int, now: int)
      requires recording
      requires ValidLoc(page.doc, ev.target) && IsElement(NodeAt(page.doc, ev.target))
      modifies this
      ensures State() == ParrotSpec.Record(old(State()), ev, page, first, now)
    {
      var attr := NodeAt(page.doc, ev.target).attributes;
      if ParrotSpec.Marker in attr && attr[ParrotSpec.Marker] != "" {
        return;
      }
      if time == 0 {
        time := first;
      }
      var e := ev.props;
      var own := if ev.className == "KeyboardEvent" then KeyboardFields else MouseFields;
      var fields := Taken(e, own);
      fields := fields["cancelBubble" := Get(e, "cancelBubble")];
      fields := fields["cancelable" := Get(e, "cancelable")];
      fields := fields["detail" := Get(e, "detail")];
      fields := fields["type" := Get(e, "type")];
      CommonAssigned(e, own);
      assert fields == Taken(e, FieldsFor(ev.className));
      var path := GetElementXPath(page.doc, ev.target);
      var step := Step(fields, ev.className, now - time, path);
      assert step == ParrotSpec.RecordedStep(ev, page, time, now);
      ghost var s0 := old(State());
      assert time == if s0.time == 0 then first else s0.time;
      assert ParrotSpec.Record(s0, ev, page, first, now) == s0.(steps := s0.steps + [step], time := now);
      time := now;
      steps := steps + [step];
    }

    /**
     * `simulate(step)`: `ok` is false where the source throws (no element
     * at the path), and then nothing was dispatched.
     */
    method Simulate(step: Step, page: Page, now: int) returns (ok: bool, after: Page)
      modifies this`log
      ensures var r := ParrotSchema.Simulate(step, page, now);
        ok == r.Some? &&
        (ok ==> after == r.value.page && log == old(log) + [r.value.dispatch]) &&
        (!ok ==> after == page && log == old(log))
    {
      var args := if step.name == "KeyboardEvent" then KeyboardArgs(step.fields) else MouseArgs(step.fields);
      var el := Resolve(page.doc, step.path);
      if el.None? {
        return false, page;
      }
      var target := el.value;
      var typed := Append(PropOf(page.values, target), FromCharCode(CharCode(Get(step.fields, "keyCode"))));
      after := page.(values := page.values[target := typed]);
      log := log + [Dispatch(target, Interface(step.name), Init(step.name), args, typed, now)];
      ok := true;
    }

    /** The pending timer's callback, run at `now`. */
    method Fire(page: Page, now: int) returns (after: Page)
      requires pending.Some? && now >= pending.value.due
      modifies this
      ensures State() == Playback.Fire(Playback.Parrot, old(State()), page, now).session
      ensures after == Playback.Fire(Playback.Parrot, old(State()), page, now).page
    {
      var t := pending.value;
      pending := None;
      var ok;
      ok, after := Simulate(t.step, page, now);
      if ok {
        Run(t.rest, now);
      }
    }
  }
}
