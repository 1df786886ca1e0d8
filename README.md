# polly.js and parrot.js: a verified model of the record/replay engine

polly.js and parrot.js are two versions of one small browser macro recorder.
While recording, a capturing-phase listener turns every `click`, `keypress`
(and, in polly.js, `change`) event into a *step*. A step holds some of the
event's attributes, the event class name, the time since the previous
capture and an address of the target element. Playback replays the steps
from a snapshot queue, one `setTimeout` at a time. Each timer callback
builds a synthetic event of the class, finds the target again from its
address, runs the replay filter on the target's `value` and dispatches the
event.

The model has these parts. The module that holds each part is given in
brackets.

- **The DOM** (`Dom`). A document is a tree of nodes with `nodeType`,
  `nodeName`, `id`, attributes and ordered children. A node is identified
  by its location, the child indices leading to it.
- **JavaScript values** (`Js`). The little of their semantics the engine
  relies on: `typeof == "object"`, truthiness, string conversion for `+=`,
  and `String.fromCharCode`.
- **Element addressing** (`XPath`).
  - `getElementXPath` gives an id lookup `//*[@id="…"]` for an element with
    a non-empty id.
  - Otherwise `getElementTreeXPath` gives an absolute location path of
    `tag` / `tag[n]` steps, as in section 2.5 of the XPath 1.0
    recommendation.
  - `getElementByXPath` is modelled as a resolver for exactly these two
    shapes. For a location path it searches depth-first, trying every child
    that passes a step and backing up when nothing below it passes the rest;
    for an id it searches in document order.
  - The two loops of `getElementTreeXPath` are imperative methods, proved
    against the recursive definition.
  - The headline theorem, `XPath.AddressRoundTrip`, is that resolving an
    element's own address on the same document yields that element.
  - The resolver is also related to the XPath reading of a path: it finds a
    node whenever the path selects one, and its answer is the first selected
    node in document order. This is what `document.evaluate` returns when
    asked for the first ordered node.
- **The shared state** (`Steps`). The page properties a replay changes
  (`value`, `selectedIndex`), the step, the one pending timer, the log of
  dispatched events and the session. The session is the module's closure
  variables `steps`, `time`, `recording`, `running`/`playing` and the timer
  behind `intervalId`.
- **polly.js's schema** (`PollySchema`). The `eventMap` table, the capture
  and replay filters, the loops of `copy` and `objToArray`, and `simulate`.
- **parrot.js's fixed layout** (`ParrotSchema`). The attribute lists of
  `recordKeyboardEvent`, `recordMouseEvent` and `record`, the argument lists
  of `initKeyboardEvent` and `initMouseEvent`, and `simulate`.
- **The playback loop** (`Playback`). Both files share it: `run`, the timer
  callback and `stopRunning` / `stopPlaying`. It is parameterised by the
  version whose `simulate` the callback calls.
  - `DrainDispatchesInOrder` proves that a run that is left alone
    dispatches every step in recorded order. Each step is dispatched after
    its full recorded delay, counted from the step before it.
- **Each version's operations** (`PollySpec`, `ParrotSpec`). One function
  per operation, giving the session it leaves, plus lemmas for what the code
  promises.
- **The classes** (`Polly.Engine`, `Parrot.Recorder`). Both files are
  written as closures over mutable module variables. Each class has those
  variables as fields and the functions as methods. Every method is proved
  to leave exactly the state the matching spec function describes.

Things the model takes as parameters:

- The clock. The two `Date.now()` calls of a capture are the parameters
  `first` and `now`.
- The scheduler. The timer's due time is stored, and `FireAtDue` lets it
  fire.
- The event class name that `getName` extracts.
- The live page.

`time` is 0 until the first capture: JavaScript's initial `undefined` is
falsy, and so is 0.

### Where the code behaves differently than one would expect

- **The first step's delay.**
  - One would expect it to be measured from the start of recording.
  - The code uses `time = time || Date.now()`, so the very first capture is
    measured from a clock reading taken just before it.
  - `time` is never reset, so the first step of a later session is measured
    from the previous session's last capture (`NewSessionKeepsClock` in
    both versions).
- **Cancellation.**
  - One would expect switching playback off to clear the pending timer.
  - `stopRunning` / `stopPlaying` only clear the flag, so the scheduled step
    still fires (`Playback.StopLetsScheduledStepFire`).
- **Mutual exclusion.**
  - One would expect starting playback to stop recording.
  - polly.js:104 calls `stop()`, which polly.js does not define; in a
    browser that name reaches `window.stop`. So recording continues
    (`PollySpec.ToggleRun`).
  - parrot.js does call its own `stop` (`ParrotSpec.Play`).
- **A target that no longer resolves.**
  - `getElementByXPath` then yields null.
  - The code throws at `el.focus()` before the loop continues, so
    `running` stays true with no timer left
    (`Playback.MissingTargetLeavesRunning`,
    `PollySpec.MissingTargetNeedsTwoClicks`).
  - In polly.js an unknown event class throws too, at polly.js:154 during
    capture (after `time` was set) and in `simulate`.
- **Negative and very long delays.** A delay is non-negative only while the
  clock does not go back. A negative `step.time` is waited out as 0
  (`Steps.Delay`).
  - `setTimeout` takes its delay as a signed 32-bit integer, so a
    `step.time` of 2^31 ms (about 24.8 days) or more wraps. Up to 2^32 ms it
    fires at once.
  - Because `time` is never reset, the first step of a later session can
    carry such a gap.

## Model

| member | source | states |
|---|---|---|
| Js.Append | polly.js:48 | `v += s` is a string: `String(v)` followed by `s` |
| Js.CharCode | parrot.js:154 | the code unit `fromCharCode` reads from its argument is below 65536 |
| Js.FromCharCode | polly.js:48 | `String.fromCharCode` gives one character, with that code when it is not a surrogate |
| Dom.Lower | polly.js:205 | lower-casing keeps the length and maps each character on its own |
| Dom.AncestorsAreElements | polly.js:197 | in a document, the parent of an element is the document node or an element, so the upward walk stops only at the document node |
| XPath.PrecedingSameName | polly.js:200-203 | the inner loop counts the preceding siblings with the element's node name, skipping doctypes |
| XPath.GetElementTreeXPath | polly.js:194-212 | the two loops build the tree path root first, one segment per element level; the result is null exactly when the start node is not an element |
| XPath.GetElementXPath | polly.js:180-187 | an element with a non-empty id gets the id lookup, any other element its tree path; null exactly for a non-element |
| XPath.TreeSegments | polly.js:194-212 | a node's tree path has steps exactly when the node is an element, the last one naming the node lower-cased |
| XPath.TreeSegmentsIndices | polly.js:206-207 | an index the encoder writes is never below 2: the first element with its name gets a bare step |
| XPath.TreePath | polly.js:194-212 | the tree path is null exactly when the node is not an element |
| XPath.ElementXPath | polly.js:180-187 | an element with a non-empty id gets its id lookup, any other element its tree path, a non-element null |
| XPath.Walk | polly.js:189-192 | a location found by the depth-first search lies in the subtree, one level per step |
| XPath.ResolveSegments | polly.js:189-192 | a found location is valid and one level deep per segment |
| XPath.FindId | polly.js:182 | an id lookup finds an element below the root that carries that id |
| XPath.Resolve | polly.js:189-192 | a resolved address names a node of the document; null resolves to nothing |
| XPath.MatchPositionUnique | polly.js:189-192 | a `tag[n]` step selects at most one child |
| XPath.SameNameCountIsMatchCount | polly.js:200-206 | in a document, the encoder's same-name count is the number of preceding siblings passing the name test |
| XPath.SelectsValid | polly.js:189-192 | a node a path selects lies in the subtree, one level per step |
| XPath.SelectsExtend | polly.js:189-192 | a child passing one more step below a selected node is selected by the longer path |
| XPath.SelectsParent | polly.js:189-192 | a node selected by a longer path is a passing child of a node the shorter path selects |
| XPath.WalkSelects | polly.js:189-192 | the search answers only with a node the path selects, at or after the child it started from |
| XPath.WalkFindsFirst | polly.js:189-192 | whenever the path selects a node at or after the start child, the search finds one, that node or an earlier one in document order |
| XPath.ResolveSelects | polly.js:189-192 | the node the resolver finds is selected by the path in the XPath reading |
| XPath.ResolveIsFirstSelected | polly.js:190 | whenever the path selects some node, the resolver finds one, and it comes first in document order among all selected nodes |
| XPath.BeforeAsymmetric | polly.js:190 | document order is asymmetric |
| XPath.BeforeBelow | polly.js:190 | order between two nodes at one depth carries over to their children |
| XPath.BeforeSibling | polly.js:190 | an earlier sibling comes first in document order |
| XPath.SegmentSelects | polly.js:198-208 | the step written for an element passes that element and no earlier sibling |
| XPath.TreePathSelects | polly.js:194-212 | in a document the tree path of an element has one step per level and selects the element |
| XPath.TreePathFirstInDocumentOrder | polly.js:194-212 | every other node an element's tree path selects comes later in document order |
| XPath.TreePathRoundTrip | polly.js:194-212 | in a document the tree path of an element resolves back to the element |
| XPath.FindIdFirst | polly.js:182 | the id lookup finds an element whenever one carries the id, and the one it finds comes first in document order |
| XPath.AddressRoundTrip | polly.js:180-192 | on the same document, resolving an element's address yields that element, given its id (if any) is unique |
| Steps.Get | polly.js:241 | reading a missing attribute gives undefined |
| Steps.GetAttribute | polly.js:145 | `getAttribute` gives null exactly for an absent attribute, and its string otherwise |
| Steps.MarkedIsTruthyAttribute | polly.js:145-146 | the listener ignores an event exactly when the target's marker attribute reads as truthy: present and non-empty |
| Steps.Delay | polly.js:126-129 | `setTimeout` waits the step's time when it is below 2^31 ms and 0 for a negative one; a time from 2^31 to 2^32 ms wraps to a negative 32-bit value and waits 0; the wait is below 2^31 ms and agrees with the time modulo 2^32 |
| Steps.Schedule | polly.js:123-129 | the timer holds the queue's head, then the rest of the queue, due no earlier than now, and exactly the step's time after now when that time is below 2^31 ms |
| PollySchema.SchemaShape | polly.js:24-44 | every class's argument list has `type` first and never names `value` or `index` |
| PollySchema.Flatten | polly.js:225-230 | an object-typed value, null included, is stored as `''`; any other value is kept unchanged |
| PollySchema.Copied | polly.js:220-235 | `dest` gains exactly the listed keys the source has, each flattened; every other key of `dest` keeps its value |
| PollySchema.CopiedFromEmpty | polly.js:154 | copying into `{}` keeps only listed keys the event has, each flattened, and a listed key that is missing reads as undefined |
| PollySchema.Copy | polly.js:220-235 | `dest` gains exactly the listed keys the source has, flattened; every other key of `dest` is unchanged |
| PollySchema.Projected | polly.js:237-245 | one argument per name, position i being `src[attrs[i]]`, undefined when missing |
| PollySchema.ObjToArray | polly.js:237-245 | as many arguments as names, position i being `src[attrs[i]]` |
| PollySchema.CaptureFilter | polly.js:58-64 | the capture filter adds at most `value` and `index`, which a change event gets from the target; every other attribute is unchanged; any other event type is left alone |
| PollySchema.SimulateFilter | polly.js:46-56 | on the modelled page the replay filter writes only the target's value, never the tree; it writes nothing at all unless the step is a keypress or a change with a truthy recorded value |
| PollySchema.Simulate | polly.js:166-176 | the replay succeeds exactly when the class is in `eventMap` and the target resolves; it dispatches on the resolved target and, on the modelled page, keeps the tree and writes no other element's value or selection |
| ParrotSchema.FieldsForShape | parrot.js:108-145 | a step's attributes always include `cancelBubble`, `cancelable`, `detail` and `type`, never `canBubble`, and `keyCode` exactly for keyboard events |
| ParrotSchema.Taken | parrot.js:124-145 | the literal holds exactly the listed attributes, each read off the event |
| ParrotSchema.TakenSnoc | parrot.js:112-115 | assigning one more attribute is taking one more name |
| ParrotSchema.CommonAssigned | parrot.js:112-115 | the four assignments after the literal give the class's attributes plus the common four |
| ParrotSchema.TakenSame | parrot.js:114 | only which names are listed matters, so the repeated `detail` changes nothing |
| ParrotSchema.KeyboardArgs | parrot.js:158-174 | ten arguments: the type, the recorded (undefined) `canBubble`, the window as view, and the key code as both key code and char code |
| ParrotSchema.MouseArgs | parrot.js:176-197 | fifteen arguments: the type, the recorded `canBubble`, the window as view, and a null related target last |
| ParrotSchema.Interface | parrot.js:148-177 | a keyboard step is rebuilt as a `KeyboardEvent`, any other as a `MouseEvent` |
| ParrotSchema.Init | parrot.js:148-179 | a keyboard step is initialised by `initKeyboardEvent`, any other by `initMouseEvent` |
| ParrotSchema.InitArgs | parrot.js:148-197 | a keyboard step gets ten init arguments, any other fifteen, each list starting with the type, the recorded `canBubble` and the window |
| ParrotSchema.Simulate | parrot.js:147-156 | the replay succeeds exactly when the target resolves; it dispatches on the resolved target and, on the modelled page, keeps the tree and writes no other element's value or selection |
| Playback.SimulateStep | polly.js:166-176 | the version's `simulate` does not throw exactly when the step is replayable; it dispatches at the current time and keeps the modelled tree |
| Playback.StopRunning | polly.js:112-115 | playback off; the pending timer, the steps, the clock, the recording flag and the log are kept |
| Playback.ExpectedAll | polly.js:117-130 | one expected event per queued step |
| Playback.SimulateReplays | polly.js:166-176 | in both versions a replay succeeds exactly on a replayable step; it dispatches that step's event at the current time and keeps the modelled tree |
| Playback.Run | polly.js:117-130 | on an empty queue or with playback off, `stopRunning` and the old timer is kept; otherwise the one timer is replaced by one for the queue's head |
| Playback.Fire | polly.js:126-128 | the callback keeps the steps, the recording flag, the clock and the tree |
| Playback.FireAtDue | parrot.js:83-86 | firing the timer repeatedly keeps the steps, the recording flag and the tree |
| Playback.FireHead | polly.js:126-129 | one firing logs exactly one replay of the head step at its due time, then schedules the next step or stops |
| Playback.FireAtDueUnfold | parrot.js:83-86 | firing once and then n-1 times is firing n times |
| Playback.InOrderAt | polly.js:123-129 | an in-order log holds event i at the first due time plus the delays of steps 1 to i |
| Playback.InOrderReplays | polly.js:126-128 | every dispatch of an in-order log replays its step |
| Playback.ExpectedAllAt | polly.js:117-130 | the expected event at position i is step i's |
| Playback.InOrderCons | polly.js:126-128 | a replay of the head followed by an in-order tail is in order |
| Playback.DrainDispatchesInOrder | polly.js:117-130 | left alone, the run dispatches every queued step in order, each after its full delay, and ends with playback off, no timer and the steps untouched |
| Playback.RunFromStart | parrot.js:74-87 | playback started on the whole step list replays all of it in order, the first step after its own delay |
| Playback.LogAfterLast | polly.js:118-121 | after the last step the log is in order and the run stops |
| Playback.LogAfterHead | polly.js:126-128 | a replayed head followed by an in-order rest gives an in-order log |
| Playback.StopLetsScheduledStepFire | polly.js:112-115 | switching playback off leaves the scheduled step to fire once, and nothing after it |
| Playback.MissingTargetLeavesRunning | polly.js:169-172 | a target that does not resolve leaves `running` true, no timer and nothing dispatched |
| PollySpec.Record | polly.js:86-91 | recording on, an empty step list, the clock and playback untouched |
| PollySpec.StopRecording | polly.js:93-97 | only the recording flag is cleared |
| PollySpec.ToggleRecord | polly.js:80-84 | the flag flips; switching on empties the steps, switching off keeps them |
| PollySpec.CapturedStep | polly.js:152-158 | the step carries the class name, the time since the previous capture and the target's address |
| PollySpec.Capture | polly.js:144-164 | a marked target changes nothing; an unknown class only sets the clock to the previous capture (or the first reading); otherwise exactly the captured step is appended, timed from that clock, and `time` becomes now |
| PollySpec.ToggleRun | polly.js:99-110 | switching on schedules the first step of a copy, recording unchanged; switching off only clears the flag and keeps the timer; no steps: stop |
| PollySpec.InvPreservedBySwitches | polly.js:80-115 | every stored or queued step has a schema class and a non-negative time, initially and after every switch |
| PollySpec.InvPreservedByFire | polly.js:126-128 | the timer callback keeps the invariant |
| PollySpec.InvPreservedByCapture | polly.js:144-164 | a capture keeps the invariant when the clock does not go back |
| PollySpec.CapturedStepContents | polly.js:152-160 | the step holds the listed attributes, flattened, `view` as `''`, missing ones undefined, nothing else but `value` and `index`, plus name, elapsed time and address |
| PollySpec.ChangeCaptureStoresValue | polly.js:59-63 | a change event's step stores the target's value and selection index |
| PollySpec.CaptureElapsed | polly.js:148-157 | elapsed time is now minus the previous capture (or the first clock reading); never negative on a monotone clock; 0 for the first capture when both reads agree |
| PollySpec.NewSessionKeepsClock | polly.js:86-91 | after `record`, the first step is measured from the previous session's last capture |
| PollySpec.CapturedPathFindsTarget | polly.js:158 | the captured address resolves to the event's target on the same document |
| PollySpec.CaptureReplayRoundTrip | polly.js:154-171 | replaying a captured step on the same document dispatches the schema's event on the original target, the arguments being the captured attributes in the init function's order |
| PollySpec.ChangeReplayRestoresValue | polly.js:51-55 | replaying a change captured with a truthy value sets that value before dispatch |
| PollySpec.ChangeReplaySetsValue | polly.js:51-55 | the change filter writes a truthy recorded value to the target before dispatch |
| PollySpec.KeypressReplayAppends | polly.js:47-49 | a keypress replay appends the character of the key code before dispatch |
| PollySpec.ReplayFailsOnlyOnMissingTarget | polly.js:167-172 | a recorded step fails to replay exactly when its target does not resolve |
| PollySpec.PlaybackIsRepeatable | polly.js:99-130 | a run of a session that is not recording replays all steps in order and ends idle with the steps intact and recording still off; the next run starts again from the first step |
| PollySpec.ToggleOffReplaysOneMore | polly.js:108-115 | switching off mid-run still replays the scheduled step, exactly one more |
| PollySpec.MissingTargetNeedsTwoClicks | polly.js:99-110 | after a missing target, one click on "run" only switches off, the next starts again |
| Polly.Engine.constructor | polly.js:13-19 | no steps, no time, neither recording nor running |
| Polly.Engine.Record | polly.js:86-91 | the state `PollySpec.Record` gives |
| Polly.Engine.StopRecording | polly.js:93-97 | the state `PollySpec.StopRecording` gives |
| Polly.Engine.ToggleRecord | polly.js:80-84 | the state `PollySpec.ToggleRecord` gives |
| Polly.Engine.StopRunning | polly.js:112-115 | the state `Playback.StopRunning` gives |
| Polly.Engine.Run | polly.js:117-130 | the state `Playback.Run` gives |
| Polly.Engine.ToggleRun | polly.js:99-110 | the state `PollySpec.ToggleRun` gives |
| Polly.Engine.Capture | polly.js:144-164 | the state `PollySpec.Capture` gives, built with the `copy` loop and the tree-path loops |
| Polly.Engine.Simulate | polly.js:166-176 | fails exactly as `PollySchema.Simulate` does, else returns its page and logs its dispatch |
| Polly.Engine.Fire | polly.js:126-129 | the state and page `Playback.Fire` gives for polly.js |
| ParrotSpec.Start | parrot.js:44-49 | recording on, an empty step list, the clock and playback untouched |
| ParrotSpec.Stop | parrot.js:51-55 | only the recording flag is cleared |
| ParrotSpec.StartStop | parrot.js:38-42 | the flag flips; switching on empties the steps, switching off keeps them |
| ParrotSpec.Play | parrot.js:57-67 | switching on stops recording and schedules the first step of a copy, or with no steps stops at once keeping the timer; switching off only clears the flag; steps, clock and log unchanged |
| ParrotSpec.RecordedStep | parrot.js:105-119 | the step holds exactly its class's attributes plus the common four, each read off the event, then the class name, the time since the previous capture and the target's address |
| ParrotSpec.Record | parrot.js:101-122 | a marked target changes nothing; otherwise exactly the recorded step is appended, timed from the previous capture (or the first reading), and `time` becomes now; recording, playback and the log are unchanged |
| ParrotSpec.RecordAppendsOneStep | parrot.js:105-121 | exactly one step is appended, the recorded step with the class name, the time since the previous capture and the address; `time` becomes now; never negative on a monotone clock |
| ParrotSpec.NewSessionKeepsClock | parrot.js:44-49 | after `start`, the first step is measured from the previous session's last capture |
| ParrotSpec.RecordedFields | parrot.js:108-115 | a step holds exactly its class's attributes plus `cancelBubble`, `cancelable`, `detail`, `type`, read off the event; never `canBubble`; `keyCode` only for keyboard events |
| ParrotSpec.KeyboardRoundTrip | parrot.js:158-174 | a replayed keyboard step dispatches on the original target with an undefined `canBubble` and the key code as both key and char code |
| ParrotSpec.MouseRoundTrip | parrot.js:176-197 | a replayed mouse step dispatches on the original target with the recorded attributes, an undefined `canBubble` and a null related target |
| ParrotSpec.RecordedMouseArgs | parrot.js:179-194 | the mouse init arguments of a recorded step |
| ParrotSpec.ReplayAppendsKeyCode | parrot.js:154 | every replay appends the character of the step's key code, U+0000 when none was recorded |
| ParrotSpec.ReplayedClickAppendsNul | parrot.js:132-154 | a recorded click replays with U+0000 appended to the target's value |
| ParrotSpec.PlayIsRepeatable | parrot.js:57-87 | a run replays every step and ends idle, recording off, the steps intact; playing again starts from the first step |
| Parrot.Recorder.constructor | parrot.js:13-19 | no steps, no time, neither recording nor playing |
| Parrot.Recorder.Start | parrot.js:44-49 | the state `ParrotSpec.Start` gives |
| Parrot.Recorder.Stop | parrot.js:51-55 | the state `ParrotSpec.Stop` gives |
| Parrot.Recorder.StartStop | parrot.js:38-42 | the state `ParrotSpec.StartStop` gives |
| Parrot.Recorder.StopPlaying | parrot.js:69-72 | the state `Playback.StopRunning` gives |
| Parrot.Recorder.Run | parrot.js:74-87 | the state `Playback.Run` gives |
| Parrot.Recorder.Play | parrot.js:57-67 | the state `ParrotSpec.Play` gives |
| Parrot.Recorder.Record | parrot.js:101-122 | the state `ParrotSpec.Record` gives, built with the literal and the four assignments |
| Parrot.Recorder.Simulate | parrot.js:147-156 | fails exactly as `ParrotSchema.Simulate` does, else returns its page and logs its dispatch |
| Parrot.Recorder.Fire | parrot.js:83-86 | the state and page `Playback.Fire` gives for parrot.js |

## Left out

- `init`, the template and the `innerHTML` labels of the control links: these are user-interface injection.
- The UMD wrapper: module-loader glue.
- `on` / `off` and the listener registration: they appear only as the `recording` flag. `Polly.Engine.Capture` and `Parrot.Recorder.Record` require it, because the listener is attached only while recording.
- `getName`'s regular expression over `constructor.toString()`: runtime reflection. The class name is part of the event given to the model.
- `document.createEvent`, the `init*Event` calls, `focus` and `dispatchEvent`: browser calls. A dispatch is logged as its target, interface, init function, arguments, the target's value and the time.
- Re-capture of replayed events: polly.js keeps recording during playback, so in a browser the replayed events reach `capture` again. The model keeps capture and replay as separate operations.
- Real timers and the clock: the timer is one pending `Timer` value fired by `Playback.FireAtDue`, and clock readings are parameters.
- The string form of addresses: an address is kept as its structure, an id or a list of segments, and nothing parses it back. The quoting of an id containing `"` is therefore not modelled.
- `XPath.Resolve`: models `document.evaluate` only for the two address shapes the encoder produces, not the general XPath engine.
- `Dom.Lower`: lower-cases ASCII letters only, not the whole of Unicode.
- `Js.CharCode`: does not parse strings as numbers; a string, or a non-number other than a boolean, gives code 0.
- `Js.FromCharCode`: a lone surrogate code unit cannot be a Dafny `char`, so it becomes U+FFFD.
- Numbers are integers; floating point is not modelled.
- The browser's reaction to a replayed value write: `Steps.Page` keeps `value` and `selectedIndex` as two maps apart from the tree, and `values` records the value written. So every claim that a replay keeps the tree or writes only the target is about this modelled page. In a browser the write has further effects that are not modelled:
  - Writing the value of a `<select>` changes its selected option, or leaves none selected (`selectedIndex` -1, value `""`) when no option matches, as after parrot.js's appended U+0000.
  - Writing the value of an `<option>` changes the value of its `<select>`, another element.
  - On `<button>`, `<option>`, `<li>`, `<data>`, `<param>`, `<meter>`, `<progress>`, and `<input>` of type hidden, submit, reset, button, image, checkbox or radio, the write sets the `value` content attribute, so the node's attributes change. parrot.js writes on every replay, so a replayed click on a `<button>` gives it `value="\u0000"`.
  - On an `<output>` the write replaces its children, so addresses below it may no longer resolve.
  - Text inputs strip line breaks from what is written.
- `Steps.Delay`: does not model the HTML clamp that raises the timeout of deeply nested timers (nesting level above 5) below 4 ms to 4 ms. Playback schedules each step from the previous step's callback, so in a browser the later steps of a long run wait at least 4 ms.
- Namespaces: every element is taken to be an HTML element, whose XPath name test compares the lower-cased node name. For SVG or MathML elements the name test is case-sensitive and namespace-qualified, and `Lower` would make the round trip fail; such elements are not modelled.
- The write `e.view = ''` in polly.js's `capture`: the model takes it to succeed or to be ignored, and then stores `''` for a listed `view`. Where `view` is a getter-only accessor, as `UIEvent.prototype.view` is in a conforming browser, the strict-mode write throws after `time` was set and no step is stored; that outcome is not modelled.
- `Polly.Engine.Capture`: requires an element target, because `e.target.getAttribute` exists only on elements; the function `PollySpec.Capture` accepts any node.
- `Parrot.Recorder.Record`: requires an element target, for the same reason; the function `ParrotSpec.Record` accepts any node.
- `PollySpec.PlaybackIsRepeatable`: requires that the session is not recording. While recording, `toggleRun` leaves recording on and the replayed events would reach `capture` again, so the steps would not stay intact.
- `ParrotSpec.PlayIsRepeatable`: states the number of dispatched events, not their order. The order is stated by `Playback.RunFromStart`, which holds for both versions.
