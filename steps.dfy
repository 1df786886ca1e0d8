/**
 * What the recorder and the player of both versions share: the page they
 * act on, the raw events they observe, the steps they store, the pending
 * playback timer and the log of synthetic events dispatched on the page.
 */
module Steps {

  import opened Wrappers
  import opened Dom
  import opened Js
  import opened XPath

  /**
   * The live page: its document tree, and the `value` and `selectedIndex`
   * properties of its elements, keyed by location (a missing key reads as
   * undefined).  In this model replay writes `values` only and never the
   * tree: `values` holds the value last written, and the browser's own
   * reaction to the write (a `<select>`'s selection, the `value` content
   * attribute some elements reflect, an `<output>`'s children, the
   * sanitising of text inputs) is not part of the model.
   */
  datatype Page = Page(doc: Node, values: map<Loc, Value>, selected: map<Loc, Value>)

  function PropOf(m: map<Loc, Value>, l: Loc): Value {
    if l in m then m[l] else Undefined
  }

  /** `obj[key]` on an object given as its enumerable properties. */
  function Get(obj: map<string, Value>, key: string): (v: Value)
    ensures key !in obj ==> v == Undefined
  {
    if key in obj then obj[key] else Undefined
  }

  /**
   * An event as the capture handler receives it: the name of its runtime
   * class (what `getName` extracts), its enumerable properties and its target.
   */
  datatype RawEvent = RawEvent(className: string, props: map<string, Value>, target: Loc)

  /**
   * A recorded step: the attributes stored on the step object, the event
   * class name, the elapsed time and the target's address (None for null).
   */
  datatype Step = Step(fields: map<string, Value>, name: string, time: int, path: Option<Address>)

  /**
   * The one outstanding `setTimeout`: the step its callback will replay, the
   * rest of the queue it will then continue with, and when it is due.
   */
  datatype Timer = Timer(step: Step, rest: seq<Step>, due: int)

  /** One `dispatchEvent`: target, event interface, init function, its arguments, the target's value as listeners see it, and when it happened. */
  datatype Dispatch = Dispatch(target: Loc, eventInterface: string, init: string, args: seq<Value>, targetValue: Value, at: int)

  /** What replaying one step produces: the page after the replay filter, and the event dispatched on it. */
  datatype Replay = Replay(page: Page, dispatch: Dispatch)

  /**
   * The recorder's module state: the recorded steps, the clock reading of
   * the last capture (`time`, 0 standing for the falsy initial value), the
   * recording and playing flags, the pending timer, and the events
   * dispatched so far.
   */
  datatype Session = Session(
    steps: seq<Step>,
    time: int,
    recording: bool,
    running: bool,
    pending: Option<Timer>,
    log: seq<Dispatch>)

  const Initial := Session([], 0, false, false, None, [])

  /**
   * The delay `setTimeout` waits for a step.  The timeout is a WebIDL `long`,
   * so the number is first wrapped to a signed 32-bit integer; a negative
   * result counts as zero.  A time of 2^31 ms or more thus fires at once.
   */
  function Delay(time: int): (d: nat)
    ensures d < 0x8000_0000
    ensures 0 <= time < 0x8000_0000 ==> d == time
    ensures -0x8000_0000 <= time < 0 ==> d == 0
    ensures 0x8000_0000 <= time < 0x1_0000_0000 ==> d == 0
    ensures d > 0 ==> (time - d) % 0x1_0000_0000 == 0
  {
    var wrapped := time % 0x1_0000_0000;
    if wrapped < 0x8000_0000 then wrapped else 0
  }

  /** `var step = steps.shift(); intervalId = setTimeout(..., step.time)`. */
  function Schedule(queue: seq<Step>, now: int): (t: Timer)
    requires |queue| > 0
    ensures [t.step] + t.rest == queue
    ensures t.due >= now && (0 <= queue[0].time < 0x8000_0000 ==> t.due == now + queue[0].time)
  {
    Timer(queue[0], queue[1..], now + Delay(queue[0].time))
  }

  /** `el.getAttribute(name)`: the attribute's string, or null when it is absent. */
  function GetAttribute(n: Node, name: string): (v: Value)
    ensures v == Null <==> name !in n.attributes
    ensures name in n.attributes ==> v == Str(n.attributes[name])
  {
    if name in n.attributes then Str(n.attributes[name]) else Null
  }

  /** `el.getAttribute(attribute)` is truthy: the control widget carries this marker. */
  predicate Marked(doc: Node, target: Loc, attribute: string)
    requires ValidLoc(doc, target)
  {
    var a := NodeAt(doc, target).attributes;
    attribute in a && a[attribute] != ""
  }

  /** The listener's guard `if (attr) return;`: a node is marked exactly when its attribute reads as truthy. */
  lemma MarkedIsTruthyAttribute(doc: Node, target: Loc, attribute: string)
    requires ValidLoc(doc, target)
    ensures Marked(doc, target, attribute) <==> Truthy(GetAttribute(NodeAt(doc, target), attribute))
  {
  }

  /** The sum of the delays of a run of steps. */
  function DelaySum(q: seq<Step>): nat
    decreases q
  {
    if q == [] then 0 else Delay(q[0].time) + DelaySum(q[1..])
  }
}
