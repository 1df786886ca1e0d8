/**
 * polly.js's event schema table (`eventMap`), its capture and replay filter
 * tables, and the two helpers that move attributes between an event and a
 * step: `copy` (event -> step) and `objToArray` (step -> init arguments).
 */
module PollySchema {

  import opened Wrappers
  import opened Dom
  import opened Js
  import opened XPath
  import opened Steps

  /** One `eventMap` entry: the `createEvent` interface, the init function and its ordered argument names. */
  datatype Entry = Entry(eventInterface: string, init: string, args: seq<string>)

  const EventMap: map<string, Entry> := map[
    "Event" := Entry("HTMLEvents", "initEvent", ["type", "canBubble", "cancelable"]),
    "KeyboardEvent" := Entry("KeyboardEvent", "initKeyboardEvent",
      ["type", "canBubble", "cancelable", "view", "keyCode", "charCode", "keyLocation"]),
    "MouseEvent" := Entry("MouseEvent", "initMouseEvent",
      ["type", "canBubble", "cancelable", "view", "detail", "screenX",
       "screenY", "clientX", "clientY", "ctrlKey",
       "altKey", "shiftKey", "metaKey", "button"])
  ]

  /**
   * Every class's argument list starts with the event type and never names
   * the `value` and `index` attributes the change filter adds.
   */
  lemma SchemaShape(c: string)
    requires c in EventMap
    ensures |EventMap[c].args| >= 3 && EventMap[c].args[0] == "type"
    ensures "type" in EventMap[c].args
    ensures "value" !in EventMap[c].args && "index" !in EventMap[c].args
  {
    var args := EventMap[c].args;
    if c == "Event" {
      assert args == ["type", "canBubble", "cancelable"];
    } else if c == "KeyboardEvent" {
      assert args == ["type", "canBubble", "cancelable", "view", "keyCode", "charCode", "keyLocation"];
    } else {
      assert c == "MouseEvent";
    }
  }

  /** The value `copy` stores: `''` in place of anything whose `typeof` is "object" (null included). */
  function Flatten(v: Value): (r: Value)
    ensures !IsObjectTyped(r)
    ensures IsObjectTyped(v) ==> r == Str("")
    ensures !IsObjectTyped(v) ==> r == v
  {
    if IsObjectTyped(v) then Str("") else v
  }

  /** What `copy(dest, src, attrs)` returns: `dest` with every listed key of `src` written over it, flattened. */
  function Copied(dest: map<string, Value>, src: map<string, Value>, attrs: seq<string>): (r: map<string, Value>)
    ensures forall k :: k in r <==> k in dest || (k in src && k in attrs)
    ensures forall k :: k in src && k in attrs ==> r[k] == Flatten(src[k])
    ensures forall k :: k in dest && !(k in src && k in attrs) ==> r[k] == dest[k]
  {
    dest + map k | k in src && k in attrs :: Flatten(src[k])
  }

  /** Copying into an empty object keeps exactly the listed keys the source has, flattened. */
  lemma CopiedFromEmpty(src: map<string, Value>, attrs: seq<string>)
    ensures forall k :: k in Copied(map[], src, attrs) ==> k in attrs && k in src
    ensures forall k :: k in attrs ==> Get(Copied(map[], src, attrs), k) == if k in src then Flatten(src[k]) else Undefined
  {
  }

  /** `copy`: the `for...in` loop over the source's keys. */
  method Copy(dest: map<string, Value>, src: map<string, Value>, attrs: seq<string>) returns (r: map<string, Value>)
    ensures r == Copied(dest, src, attrs)
    ensures forall k :: k in r <==> k in dest || (k in src && k in attrs)
    ensures forall k :: k in src && k in attrs ==> r[k] == Flatten(src[k])
    ensures forall k :: k in dest && !(k in src && k in attrs) ==> r[k] == dest[k]
  {
    r := dest;
    var keys := src.Keys;
    ghost var done: set<string> := {};
    while keys != {}
      invariant keys + done == src.Keys && keys !! done
      invariant forall k :: k in r <==> k in dest || (k in done && k in attrs)
      invariant forall k :: k in r ==> r[k] == if k in done && k in attrs then Flatten(src[k]) else dest[k]
      decreases keys
    {
      var key :| key in keys;
      if key in attrs {
        if IsObjectTyped(src[key]) {
          r := r[key := Str("")];
        } else {
          r := r[key := src[key]];
        }
      }
      keys := keys - {key};
      done := done + {key};
    }
  }

  /** What `objToArray(src, attrs)` returns: `src[attrs[i]]` at position `i`. */
  function Projected(src: map<string, Value>, attrs: seq<string>): (r: seq<Value>)
    ensures |r| == |attrs|
    ensures forall i :: 0 <= i < |attrs| ==> r[i] == Get(src, attrs[i])
  {
    seq(|attrs|, i requires 0 <= i < |attrs| => Get(src, attrs[i]))
  }

  /** `objToArray`: the push loop. */
  method ObjToArray(src: map<string, Value>, attrs: seq<string>) returns (arr: seq<Value>)
    ensures arr == Projected(src, attrs)
    ensures |arr| == |attrs|
    ensures forall i :: 0 <= i < |attrs| ==> arr[i] == Get(src, attrs[i])
  {
    arr := [];
    var i := 0;
    while i < |attrs|
      invariant 0 <= i <= |attrs|
      invariant |arr| == i
      invariant forall j :: 0 <= j < i ==> arr[j] == Get(src, attrs[j])
    {
      arr := arr + [Get(src, attrs[i])];
      i := i + 1;
    }
  }

  /**
   * `captureFilters.change`: read the target's resulting value and selection
   * index onto the step.  The filter adds at most `value` and `index` and
   * leaves every other attribute as it was.
   */
  function CaptureFilter(fields: map<string, Value>, page: Page, target: Loc): (r: map<string, Value>)
    ensures forall k :: k in r ==> k in fields || k == "value" || k == "index"
    ensures forall k :: k != "value" && k != "index" ==> Get(r, k) == Get(fields, k)
    ensures Get(fields, "type") == Str("change") ==>
      Get(r, "value") == PropOf(page.values, target) && Get(r, "index") == PropOf(page.selected, target)
    ensures Get(fields, "type") != Str("change") ==> r == fields
  {
    if Get(fields, "type") == Str("change") then
      fields["value" := PropOf(page.values, target)]["index" := PropOf(page.selected, target)]
    else fields
  }

  /**
   * `simulateFilters`, run on the resolved target before dispatch: a keypress
   * appends the character of its key code to the target's value; a change
   * sets the value when the recorded one is truthy.
   */
  function SimulateFilter(fields: map<string, Value>, page: Page, target: Loc): (r: Page)
    ensures r.doc == page.doc
    ensures Get(fields, "type") != Str("keypress") && !(Get(fields, "type") == Str("change") && Truthy(Get(fields, "value"))) ==>
      r == page
    ensures forall l :: l != target ==>
      PropOf(r.values, l) == PropOf(page.values, l) && PropOf(r.selected, l) == PropOf(page.selected, l)
  {
    var kind := Get(fields, "type");
    if kind == Str("keypress") then
      var typed := FromCharCode(CharCode(Get(fields, "keyCode")));
      page.(values := page.values[target := Append(PropOf(page.values, target), typed)])
    else if kind == Str("change") && Truthy(Get(fields, "value")) then
      page.(values := page.values[target := Get(fields, "value")])
    else page
  }

  /**
   * `simulate(step)`: look the class up, resolve the target, build the init
   * arguments, run the replay filter, dispatch.  An unknown class or a target
   * that no longer resolves throws (None); the page is then left as it was.
   */
  function Simulate(step: Step, page: Page, now: int): (r: Option<Replay>)
    ensures r.Some? <==> step.name in EventMap && Resolve(page.doc, step.path).Some?
    ensures r.Some? ==> r.value.page.doc == page.doc && Some(r.value.dispatch.target) == Resolve(page.doc, step.path)
    ensures r.Some? ==> forall l :: l != r.value.dispatch.target ==>
      PropOf(r.value.page.values, l) == PropOf(page.values, l) && PropOf(r.value.page.selected, l) == PropOf(page.selected, l)
  {
    if step.name !in EventMap then None
    else match Resolve(page.doc, step.path)
      case None => None
      case Some(target) =>
        var entry := EventMap[step.name];
        var after := SimulateFilter(step.fields, page, target);
        Some(Replay(after, Dispatch(target, entry.eventInterface, entry.init,
          Projected(step.fields, entry.args), PropOf(after.values, target), now)))
  }
}
