/**
 * parrot.js, the earlier version of the recorder, as a state machine over
 * the same session shape: a fixed step layout instead of a schema table, no
 * filters except an unconditional append on replay, and a play switch that
 * stops recording first.
 */
module ParrotSpec {

  import opened Wrappers
  import opened Dom
  import opened Js
  import opened XPath
  import opened Steps
  import opened ParrotSchema
  import Playback

  /** The attribute that marks the control widget's own links. */
  const Marker := "data-parrot-action"

  /** `start`: a new, empty step list; `time` is kept. */
  function Start(s: Session): (r: Session)
    ensures r.recording && r.steps == []
    ensures r.time == s.time && r.running == s.running && r.pending == s.pending && r.log == s.log
  {
    s.(recording := true, steps := [])
  }

  /** `stop`. */
  function Stop(s: Session): (r: Session)
    ensures !r.recording && r == s.(recording := false)
  {
    s.(recording := false)
  }

  /** `startStop`. */
  function StartStop(s: Session): (r: Session)
    ensures r.recording == !s.recording
    ensures r.recording ==> r.steps == []
    ensures !r.recording ==> r.steps == s.steps
    ensures r.time == s.time && r.running == s.running && r.pending == s.pending && r.log == s.log
  {
    var s1 := s.(recording := !s.recording);
    if s1.recording then Start(s1) else Stop(s1)
  }

  /**
   * `play`: switching playback on stops recording, so the replayed events
   * are not recorded, and runs a copy of the steps; switching it off is
   * `stopPlaying` alone, the pending timer being left in place.
   */
  function Play(s: Session, now: int): (r: Session)
    ensures r.steps == s.steps && r.time == s.time && r.log == s.log
    ensures s.running ==> r == Playback.StopRunning(s)
    ensures !s.running ==> !r.recording
    ensures !s.running && |s.steps| > 0 ==> r.running && r.pending == Some(Schedule(s.steps, now))
    ensures !s.running && |s.steps| == 0 ==> !r.running && r.pending == s.pending
  {
    var s1 := s.(running := !s.running);
    if s1.running then Playback.Run(Stop(s1), s1.steps, now) else Playback.StopRunning(s1)
  }

  /** The step `record` builds from event `ev`, `since` being the previous capture's time. */
  function RecordedStep(ev: RawEvent, page: Page, since: int, now: int): (r: Step)
    requires ValidLoc(page.doc, ev.target)
    ensures forall k :: k in r.fields <==> k in FieldsFor(ev.className)
    ensures forall k :: k in r.fields ==> r.fields[k] == Get(ev.props, k)
    ensures r.name == ev.className && r.time == now - since
    ensures r.path == ElementXPath(page.doc, ev.target)
  {
    Step(Taken(ev.props, FieldsFor(ev.className)), ev.className, now - since, ElementXPath(page.doc, ev.target))
  }

  /**
   * `record(e)`, the capturing-phase listener.  Any event class is
   * recorded; one that is not a keyboard event is read as a mouse event.
   * The clock is read twice, `first` used only while `time` is falsy.
   */
  function Record(s: Session, ev: RawEvent, page: Page, first: int, now: int): (r: Session)
    requires ValidLoc(page.doc, ev.target)
    ensures r.recording == s.recording && r.running == s.running && r.pending == s.pending && r.log == s.log
    ensures Marked(page.doc, ev.target, Marker) ==> r == s
    ensures !Marked(page.doc, ev.target, Marker) ==>
      |r.steps| == |s.steps| + 1 && r.steps[..|s.steps|] == s.steps && r.time == now &&
      r.steps[|s.steps|] == RecordedStep(ev, page, if s.time == 0 then first else s.time, now)
  {
    if Marked(page.doc, ev.target, Marker) then s
    else
      var since := if s.time == 0 then first else s.time;
      s.(steps := s.steps + [RecordedStep(ev, page, since, now)], time := now)
  }

  /**
   * An unmarked event always appends exactly one step, whatever its class,
   * timed from the previous capture (or, the first time ever, from the
   * first clock reading) and never negative when the clock does not go back.
   */
  lemma RecordAppendsOneStep(s: Session, ev: RawEvent, page: Page, first: int, now: int)
    requires ValidLoc(page.doc, ev.target) && !Marked(page.doc, ev.target, Marker)
    ensures var r := Record(s, ev, page, first, now);
      |r.steps| == |s.steps| + 1 && r.steps[..|s.steps|] == s.steps && r.time == now &&
      r.steps[|s.steps|] == RecordedStep(ev, page, if s.time == 0 then first else s.time, now) &&
      r.steps[|s.steps|].name == ev.className &&
      r.steps[|s.steps|].time == now - (if s.time == 0 then first else s.time) &&
      r.steps[|s.steps|].path == ElementXPath(page.doc, ev.target)
    ensures s.time <= first <= now ==> Record(s, ev, page, first, now).steps[|s.steps|].time >= 0
  {
    var r := Record(s, ev, page, first, now);
    assert r.steps[..|s.steps|] == s.steps;
  }

  /** `time` is not reset by `start`: a later session's first step is measured from the previous capture. */
  lemma NewSessionKeepsClock(s: Session, ev: RawEvent, page: Page, first: int, now: int)
    requires s.time != 0 && ValidLoc(page.doc, ev.target) && !Marked(page.doc, ev.target, Marker)
    ensures var r := Record(Start(s), ev, page, first, now);
      |r.steps| == 1 && r.steps[0].time == now - s.time
  {
    RecordAppendsOneStep(Start(s), ev, page, first, now);
  }

  /**
   * The attributes of a recorded step: exactly the class's list plus
   * `cancelBubble`, `cancelable`, `detail` and `type`, each read raw off the
   * event (objects are not flattened).  `canBubble`, which replay reads, is
   * never among them.
   */
  lemma RecordedFields(ev: RawEvent, page: Page, since: int, now: int)
    requires ValidLoc(page.doc, ev.target)
    ensures var f := RecordedStep(ev, page, since, now).fields;
      var own := if ev.className == "KeyboardEvent" then KeyboardFields else MouseFields;
      (forall k :: k in f <==> k in own || k in CommonFields) &&
      (forall k :: k in f ==> f[k] == Get(ev.props, k)) &&
      "canBubble" !in f &&
      (ev.className != "KeyboardEvent" ==> "keyCode" !in f)
  {
    var own := if ev.className == "KeyboardEvent" then KeyboardFields else MouseFields;
    assert forall k :: k in own + CommonFields <==> k in own || k in CommonFields;
  }

  /**
   * Record then replay of a keyboard event on the same document: a
   * `KeyboardEvent` on the original target whose init arguments carry the
   * recorded type and cancelable flag, an undefined `canBubble`, the window,
   * and the key code twice (the recorded char code is not used).
   */
  lemma KeyboardRoundTrip(ev: RawEvent, page: Page, later: Page, since: int, now: int, at: int)
    requires Document(page.doc) && ValidLoc(page.doc, ev.target) && IsElement(NodeAt(page.doc, ev.target))
    requires NodeAt(page.doc, ev.target).id != "" ==> IdOnlyAt(page.doc, NodeAt(page.doc, ev.target).id, ev.target)
    requires ev.className == "KeyboardEvent" && later.doc == page.doc
    ensures var r := Simulate(RecordedStep(ev, page, since, now), later, at);
      r.Some? && r.value.dispatch.target == ev.target &&
      r.value.dispatch.eventInterface == "KeyboardEvent" && r.value.dispatch.init == "initKeyboardEvent" &&
      r.value.dispatch.args ==
        [Get(ev.props, "type"), Undefined, Get(ev.props, "cancelable"), DefaultView,
         Get(ev.props, "keyCode"), Get(ev.props, "keyCode"), Get(ev.props, "keyLocation"),
         Str(""), Bool(false), Str("")]
  {
    AddressRoundTrip(page.doc, ev.target);
    RecordedFields(ev, page, since, now);
  }

  /**
   * Record then replay of any other event on the same document: a
   * `MouseEvent` on the original target carrying the recorded type,
   * cancelable flag, detail, coordinates, modifier keys and button, an
   * undefined `canBubble`, the window, and a null related target.
   */
  lemma MouseRoundTrip(ev: RawEvent, page: Page, later: Page, since: int, now: int, at: int)
    requires Document(page.doc) && ValidLoc(page.doc, ev.target) && IsElement(NodeAt(page.doc, ev.target))
    requires NodeAt(page.doc, ev.target).id != "" ==> IdOnlyAt(page.doc, NodeAt(page.doc, ev.target).id, ev.target)
    requires ev.className != "KeyboardEvent" && later.doc == page.doc
    ensures var r := Simulate(RecordedStep(ev, page, since, now), later, at);
      var p := ev.props;
      r.Some? && r.value.dispatch.target == ev.target &&
      r.value.dispatch.eventInterface == "MouseEvent" && r.value.dispatch.init == "initMouseEvent" &&
      r.value.dispatch.args ==
        [Get(p, "type"), Undefined, Get(p, "cancelable"), DefaultView,
         Get(p, "detail"), Get(p, "screenX"), Get(p, "screenY"), Get(p, "clientX"), Get(p, "clientY"),
         Get(p, "ctrlKey"), Get(p, "altKey"), Get(p, "shiftKey"), Get(p, "metaKey"), Get(p, "button"), Null]
  {
    AddressRoundTrip(page.doc, ev.target);
    RecordedMouseArgs(ev.props, ev.className);
  }

  /** The mouse init arguments of a step recorded from `props`: `canBubble` is never recorded. */
  lemma RecordedMouseArgs(props: map<string, Value>, name: string)
    requires name != "KeyboardEvent"
    ensures var p := props;
      MouseArgs(Taken(props, FieldsFor(name))) ==
        [Get(p, "type"), Undefined, Get(p, "cancelable"), DefaultView,
         Get(p, "detail"), Get(p, "screenX"), Get(p, "screenY"), Get(p, "clientX"), Get(p, "clientY"),
         Get(p, "ctrlKey"), Get(p, "altKey"), Get(p, "shiftKey"), Get(p, "metaKey"), Get(p, "button"), Null]
  {
    var attrs := FieldsFor(name);
    assert attrs == MouseFields + CommonFields;
    assert attrs[0] == "detail" && attrs[1] == "screenX" && attrs[2] == "screenY";
    assert attrs[3] == "clientX" && attrs[4] == "clientY" && attrs[5] == "ctrlKey";
    assert attrs[6] == "altKey" && attrs[7] == "shiftKey" && attrs[8] == "metaKey";
    assert attrs[9] == "button" && attrs[11] == "cancelable" && attrs[13] == "type";
    assert "canBubble" !in attrs;
  }

  /**
   * Every replayed step appends one character to its target's value, the
   * code unit of the step's key code; a replayed click, which recorded no
   * key code, appends U+0000.
   */
  lemma ReplayAppendsKeyCode(step: Step, page: Page, at: int)
    requires Resolve(page.doc, step.path).Some?
    ensures var target := Resolve(page.doc, step.path).value;
      var r := Simulate(step, page, at).value;
      PropOf(r.page.values, target) ==
        Append(PropOf(page.values, target), FromCharCode(CharCode(Get(step.fields, "keyCode")))) &&
      r.dispatch.targetValue == PropOf(r.page.values, target)
    ensures "keyCode" !in step.fields ==>
      var target := Resolve(page.doc, step.path).value;
      Simulate(step, page, at).value.page.values[target] == Str(ToJsString(PropOf(page.values, target)) + [0 as char])
  {
  }

  /** A recorded click replays with U+0000 appended to the target's value. */
  lemma ReplayedClickAppendsNul(ev: RawEvent, page: Page, later: Page, since: int, now: int, at: int)
    requires Document(page.doc) && ValidLoc(page.doc, ev.target) && IsElement(NodeAt(page.doc, ev.target))
    requires NodeAt(page.doc, ev.target).id != "" ==> IdOnlyAt(page.doc, NodeAt(page.doc, ev.target).id, ev.target)
    requires ev.className != "KeyboardEvent" && later.doc == page.doc
    ensures var r := Simulate(RecordedStep(ev, page, since, now), later, at);
      r.Some? && PropOf(r.value.page.values, ev.target) == Str(ToJsString(PropOf(later.values, ev.target)) + [0 as char])
  {
    AddressRoundTrip(page.doc, ev.target);
    RecordedFields(ev, page, since, now);
    ReplayAppendsKeyCode(RecordedStep(ev, page, since, now), later, at);
  }

  /**
   * Pressing "play" on a non-empty session stops recording and replays
   * every step (in order and on time, by `Playback.RunFromStart`), then
   * returns to idle with the steps intact; pressing "play" again starts over
   * from the first step.
   */
  lemma PlayIsRepeatable(s: Session, page: Page, now: int, again: int)
    requires !s.running && |s.steps| > 0
    requires forall i :: 0 <= i < |s.steps| ==> Resolve(page.doc, s.steps[i].path).Some?
    ensures var f := Playback.FireAtDue(Playback.Parrot, Play(s, now), page, |s.steps|);
      f.session.steps == s.steps && !f.session.running && !f.session.recording &&
      |f.session.log| == |s.log| + |s.steps| && f.session.log[..|s.log|] == s.log &&
      Play(f.session, again).running &&
      Play(f.session, again).pending == Some(Schedule(s.steps, again))
  {
    var on := Play(s, now);
    assert forall i :: 0 <= i < |s.steps| ==> Playback.Replayable(Playback.Parrot, s.steps[i], page.doc);
    Playback.RunFromStart(Playback.Parrot, on, page, now, s.steps, s.log);
  }
}
