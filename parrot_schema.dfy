/**
 * parrot.js's fixed step layout: which event attributes `record` copies into
 * a step for keyboard and for mouse events, the argument lists its two init
 * calls are given, and the replay of one step.
 */
module ParrotSchema {

  import opened Wrappers
  import opened Dom
  import opened Js
  import opened XPath
  import opened Steps

  /** `recordKeyboardEvent`'s object literal. */
  const KeyboardFields: seq<string> := ["keyCode", "charCode", "keyLocation"]

  /** `recordMouseEvent`'s object literal. */
  const MouseFields: seq<string> :=
    ["detail", "screenX", "screenY", "clientX", "clientY",
     "ctrlKey", "altKey", "shiftKey", "metaKey", "button"]

  /** The attributes `record` then assigns for every event. */
  const CommonFields: seq<string> := ["cancelBubble", "cancelable", "detail", "type"]

  /** The attributes a step of class `name` stores. */
  function FieldsFor(name: string): seq<string> {
    (if name == "KeyboardEvent" then KeyboardFields else MouseFields) + CommonFields
  }

  /**
   * Every step stores the four common attributes, never `canBubble` (which
   * replay passes on), and `keyCode` exactly when it is a keyboard event.
   */
  lemma FieldsForShape(name: string)
    ensures var r := FieldsFor(name);
      "cancelBubble" in r && "cancelable" in r && "detail" in r && "type" in r &&
      "canBubble" !in r && ("keyCode" in r <==> name == "KeyboardEvent")
  {
  }

  /**
   * The attributes `record` stores: each listed one read off the event, an
   * undefined one included (object literals and assignments create the key).
   */
  function Taken(props: map<string, Value>, attrs: seq<string>): (r: map<string, Value>)
    ensures forall k :: k in r <==> k in attrs
    ensures forall k :: k in attrs ==> r[k] == Get(props, k)
  {
    map k | k in attrs :: Get(props, k)
  }

  /** One more attribute read off the event and assigned to the step. */
  lemma TakenSnoc(props: map<string, Value>, attrs: seq<string>, k: string)
    ensures Taken(props, attrs)[k := Get(props, k)] == Taken(props, attrs + [k])
  {
    var l := Taken(props, attrs)[k := Get(props, k)];
    var r := Taken(props, attrs + [k]);
    assert forall j :: j in attrs + [k] <==> j in attrs || j == k;
    assert forall j :: j in l <==> j in r;
  }

  /** `record`'s four assignments after the object literal: the common attributes, read off the event. */
  lemma CommonAssigned(props: map<string, Value>, own: seq<string>)
    ensures Taken(props, own)["cancelBubble" := Get(props, "cancelBubble")]["cancelable" := Get(props, "cancelable")]
                             ["detail" := Get(props, "detail")]["type" := Get(props, "type")]
            == Taken(props, own + CommonFields)
  {
    var a1 := own + ["cancelBubble"];
    var a2 := a1 + ["cancelable"];
    var a3 := a2 + ["detail"];
    TakenSnoc(props, own, "cancelBubble");
    TakenSnoc(props, a1, "cancelable");
    TakenSnoc(props, a2, "detail");
    TakenSnoc(props, a3, "type");
    var all := own + CommonFields;
    assert forall k :: k in a3 + ["type"] <==> k in all;
    TakenSame(props, a3 + ["type"], all);
  }

  /** Only which attributes are listed matters, not their order or repetition. */
  lemma TakenSame(props: map<string, Value>, a: seq<string>, b: seq<string>)
    requires forall k :: k in a <==> k in b
    ensures Taken(props, a) == Taken(props, b)
  {
  }

  /** `document.defaultView`, the window passed as the event's view. */
  const DefaultView := Obj("Window")

  /** The arguments of `simulateKeyboardEvent`'s `initKeyboardEvent` call. */
  function KeyboardArgs(fields: map<string, Value>): (r: seq<Value>)
    ensures |r| == 10 && r[0] == Get(fields, "type") && r[1] == Get(fields, "canBubble") && r[3] == DefaultView
    ensures r[4] == Get(fields, "keyCode") && r[5] == Get(fields, "keyCode")
  {
    [Get(fields, "type"), Get(fields, "canBubble"), Get(fields, "cancelable"), DefaultView,
     Get(fields, "keyCode"), Get(fields, "keyCode"), Get(fields, "keyLocation"),
     Str(""), Bool(false), Str("")]
  }

  /** The arguments of `simulateMouseEvent`'s `initMouseEvent` call. */
  function MouseArgs(fields: map<string, Value>): (r: seq<Value>)
    ensures |r| == 15 && r[0] == Get(fields, "type") && r[1] == Get(fields, "canBubble") && r[3] == DefaultView
    ensures r[14] == Null
  {
    [Get(fields, "type"), Get(fields, "canBubble"), Get(fields, "cancelable"), DefaultView,
     Get(fields, "detail"), Get(fields, "screenX"), Get(fields, "screenY"),
     Get(fields, "clientX"), Get(fields, "clientY"), Get(fields, "ctrlKey"),
     Get(fields, "altKey"), Get(fields, "shiftKey"), Get(fields, "metaKey"),
     Get(fields, "button"), Null]
  }

  function Interface(name: string): (r: string)
    ensures r == "KeyboardEvent" <==> name == "KeyboardEvent"
    ensures r == "KeyboardEvent" || r == "MouseEvent"
  {
    if name == "KeyboardEvent" then "KeyboardEvent" else "MouseEvent"
  }

  function Init(name: string): (r: string)
    ensures r == "initKeyboardEvent" <==> name == "KeyboardEvent"
    ensures r == "initKeyboardEvent" || r == "initMouseEvent"
  {
    if name == "KeyboardEvent" then "initKeyboardEvent" else "initMouseEvent"
  }

  function InitArgs(step: Step): (r: seq<Value>)
    ensures |r| == (if step.name == "KeyboardEvent" then 10 else 15)
    ensures r[0] == Get(step.fields, "type") && r[1] == Get(step.fields, "canBubble") && r[3] == DefaultView
  {
    if step.name == "KeyboardEvent" then KeyboardArgs(step.fields) else MouseArgs(step.fields)
  }

  /**
   * `simulate(step)`: build the event, resolve the target (null throws at
   * `el.focus()`: None), append the character of the step's key code to the
   * target's value whatever the event, dispatch.
   */
  function Simulate(step: Step, page: Page, now: int): (r: Option<Replay>)
    ensures r.Some? <==> Resolve(page.doc, step.path).Some?
    ensures r.Some? ==> r.value.page.doc == page.doc && Some(r.value.dispatch.target) == Resolve(page.doc, step.path)
    ensures r.Some? ==> forall l :: l != r.value.dispatch.target ==>
      PropOf(r.value.page.values, l) == PropOf(page.values, l) && PropOf(r.value.page.selected, l) == PropOf(page.selected, l)
  {
    match Resolve(page.doc, step.path)
    case None => None
    case Some(target) =>
      var typed := Append(PropOf(page.values, target), FromCharCode(CharCode(Get(step.fields, "keyCode"))));
      var after := page.(values := page.values[target := typed]);
      Some(Replay(after, Dispatch(target, Interface(step.name), Init(step.name), InitArgs(step), typed, now)))
  }
}
