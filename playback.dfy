/**
 * The playback loop both versions share (`run`, the timer callback, and
 * `stopRunning` / `stopPlaying`), parameterised by the version whose
 * `simulate` the callback calls.
 */
module Playback {

  import opened Wrappers
  import opened Dom
  import opened Js
  import opened XPath
  import opened Steps
  import PollySchema
  import ParrotSchema

  datatype Version = Polly | Parrot

  /** The version's `simulate`. */
  function SimulateStep(v: Version, step: Step, page: Page, now: int): (r: Option<Replay>)
    ensures r.Some? <==> Replayable(v, step, page.doc)
    ensures r.Some? ==> r.value.page.doc == page.doc && r.value.dispatch.at == now
  {
    match v
    case Polly => PollySchema.Simulate(step, page, now)
    case Parrot => ParrotSchema.Simulate(step, page, now)
  }

  /** `simulate` does not throw: the target resolves (and, in polly.js, the class has a schema entry). */
  predicate Replayable(v: Version, step: Step, doc: Node) {
    Resolve(doc, step.path).Some? &&
    (v.Polly? ==> step.name in PollySchema.EventMap)
  }

  /** What identifies a dispatched event: its target, interface, init function and init arguments. */
  datatype Sig = Sig(target: Loc, eventInterface: string, init: string, args: seq<Value>)

  function SigOf(d: Dispatch): Sig {
    Sig(d.target, d.eventInterface, d.init, d.args)
  }

  /** The event replaying `step` on `doc` should dispatch, if it can be replayed. */
  function Expected(v: Version, step: Step, doc: Node): Option<Sig> {
    match Resolve(doc, step.path)
    case None => None
    case Some(target) =>
      match v
      case Polly =>
        if step.name !in PollySchema.EventMap then None
        else
          var entry := PollySchema.EventMap[step.name];
          Some(Sig(target, entry.eventInterface, entry.init, PollySchema.Projected(step.fields, entry.args)))
      case Parrot =>
        Some(Sig(target, ParrotSchema.Interface(step.name), ParrotSchema.Init(step.name), ParrotSchema.InitArgs(step)))
  }

  /** A dispatch replays `step` on `doc`: same target, the version's interface, init function and argument list. */
  predicate Replays(v: Version, d: Dispatch, step: Step, doc: Node) {
    Expected(v, step, doc) == Some(SigOf(d))
  }

  /** The expected events of a whole queue. */
  function ExpectedAll(v: Version, q: seq<Step>, doc: Node): (r: seq<Option<Sig>>)
    ensures |r| == |q|
    decreases q
  {
    if q == [] then [] else [Expected(v, q[0], doc)] + ExpectedAll(v, q[1..], doc)
  }

  /** `simulate` succeeds exactly on replayable steps, dispatches a replay of the step, and never changes the tree. */
  lemma SimulateReplays(v: Version, step: Step, page: Page, now: int)
    ensures SimulateStep(v, step, page, now).Some? <==> Replayable(v, step, page.doc)
    ensures SimulateStep(v, step, page, now).Some? ==>
      var r := SimulateStep(v, step, page, now).value;
      Replays(v, r.dispatch, step, page.doc) && r.dispatch.at == now && r.page.doc == page.doc
  {
  }

  /** `stopRunning` (`stopPlaying`). */
  function StopRunning(s: Session): (r: Session)
    ensures !r.running && r.pending == s.pending
    ensures r.steps == s.steps && r.time == s.time && r.recording == s.recording && r.log == s.log
  {
    s.(running := false)
  }

  /**
   * `run(queue)`: stop when the queue is empty or playback is off; otherwise
   * shift the head step and make it the one pending timer (`clearInterval`
   * then `setTimeout`).
   */
  function Run(s: Session, queue: seq<Step>, now: int): (r: Session)
    ensures r.steps == s.steps && r.time == s.time && r.recording == s.recording && r.log == s.log
    ensures |queue| == 0 || !s.running ==> !r.running && r.pending == s.pending
    ensures |queue| > 0 && s.running ==> r.running && r.pending == Some(Schedule(queue, now))
  {
    if |queue| == 0 || !s.running then StopRunning(s)
    else s.(pending := Some(Schedule(queue, now)))
  }

  datatype Fired = Fired(session: Session, page: Page)

  /**
   * The pending timer's callback: `simulate(step); run(steps)`.  When
   * `simulate` throws, `run` is never reached.
   */
  function Fire(v: Version, s: Session, page: Page, now: int): (r: Fired)
    requires s.pending.Some?
    ensures r.session.steps == s.steps && r.session.recording == s.recording && r.session.time == s.time
    ensures r.page.doc == page.doc
  {
    var t := s.pending.value;
    var s1 := s.(pending := None);
    match SimulateStep(v, t.step, page, now)
    case None => Fired(s1, page)
    case Some(replay) => Fired(Run(s1.(log := s1.log + [replay.dispatch]), t.rest, now), replay.page)
  }

  /** Let the pending timer fire, at its due time, up to `n` times. */
  function FireAtDue(v: Version, s: Session, page: Page, n: nat): (r: Fired)
    ensures r.session.steps == s.steps && r.session.recording == s.recording && r.page.doc == page.doc
    decreases n
  {
    if n == 0 || s.pending.None? then Fired(s, page)
    else
      var f := Fire(v, s, page, s.pending.value.due);
      FireAtDue(v, f.session, f.page, n - 1)
  }

  /** One firing of the pending timer at its due time, while the queue's targets can be found. */
  lemma FireHead(v: Version, s: Session, page: Page, q: seq<Step>)
    requires s.running && |q| > 0 && s.pending.Some?
    requires s.pending.value.step == q[0] && s.pending.value.rest == q[1..]
    requires Replayable(v, q[0], page.doc)
    ensures var due := s.pending.value.due;
      var g := Fire(v, s, page, due);
      g.session.steps == s.steps && g.page.doc == page.doc &&
      |g.session.log| == |s.log| + 1 && g.session.log[..|s.log|] == s.log &&
      Replays(v, g.session.log[|s.log|], q[0], page.doc) && g.session.log[|s.log|].at == due &&
      (|q| == 1 ==> !g.session.running && g.session.pending.None?) &&
      (|q| > 1 ==> g.session.running && g.session.pending == Some(Schedule(q[1..], due)))
  {
    var due := s.pending.value.due;
    SimulateReplays(v, q[0], page, due);
    var replay := SimulateStep(v, q[0], page, due).value;
    assert (s.log + [replay.dispatch])[..|s.log|] == s.log;
  }

  /** Firing once more and then `n - 1` times is firing `n` times. */
  lemma FireAtDueUnfold(v: Version, s: Session, page: Page, n: nat)
    requires n > 0 && s.pending.Some?
    ensures var g := Fire(v, s, page, s.pending.value.due);
      FireAtDue(v, s, page, n) == FireAtDue(v, g.session, g.page, n - 1)
  {
  }

  /**
   * `log` holds the events `sigs`, one dispatch per step of `q`, in order,
   * the first at `due` and each later one the recorded delay after the one
   * before.
   */
  predicate InOrder(log: seq<Dispatch>, sigs: seq<Option<Sig>>, q: seq<Step>, due: int)
    decreases q
  {
    |log| == |q| && |sigs| == |q| &&
    (|q| > 0 ==>
      sigs[0] == Some(SigOf(log[0])) && log[0].at == due &&
      InOrder(log[1..], sigs[1..], q[1..], if |q| > 1 then due + Delay(q[1].time) else due))
  }

  /** The same, by position: dispatch `i` is event `i`, all delays up to it after the first. */
  lemma {:induction false} InOrderAt(log: seq<Dispatch>, sigs: seq<Option<Sig>>, q: seq<Step>, due: int)
    requires InOrder(log, sigs, q, due)
    ensures |log| == |q| == |sigs|
    ensures forall i :: 0 <= i < |q| ==> sigs[i] == Some(SigOf(log[i])) && log[i].at == due + DelaySum(q[1..i + 1])
    decreases q
  {
    if |q| > 1 {
      var due' := due + Delay(q[1].time);
      InOrderAt(log[1..], sigs[1..], q[1..], due');
      forall i | 0 < i < |q|
        ensures sigs[i] == Some(SigOf(log[i])) && log[i].at == due + DelaySum(q[1..i + 1])
      {
        assert log[1..][i - 1] == log[i] && sigs[1..][i - 1] == sigs[i];
        var upto := q[1..i + 1];
        assert upto[0] == q[1];
        assert upto[1..] == q[1..][1..i];
        assert DelaySum(upto) == Delay(q[1].time) + DelaySum(q[1..][1..i]);
      }
      assert q[1..1] == [];
    } else if |q| == 1 {
      assert q[1..1] == [];
    }
  }

  /** Every dispatch of an in-order log for a queue's expected events replays its step. */
  lemma InOrderReplays(v: Version, log: seq<Dispatch>, q: seq<Step>, doc: Node, due: int)
    requires InOrder(log, ExpectedAll(v, q, doc), q, due)
    ensures |log| == |q|
    ensures forall i :: 0 <= i < |q| ==> Replays(v, log[i], q[i], doc) && log[i].at == due + DelaySum(q[1..i + 1])
  {
    InOrderAt(log, ExpectedAll(v, q, doc), q, due);
    ExpectedAllAt(v, q, doc);
  }

  lemma {:induction false} ExpectedAllAt(v: Version, q: seq<Step>, doc: Node)
    ensures forall i :: 0 <= i < |q| ==> ExpectedAll(v, q, doc)[i] == Expected(v, q[i], doc)
    decreases q
  {
    if q != [] {
      ExpectedAllAt(v, q[1..], doc);
      assert forall i :: 0 < i < |q| ==> q[1..][i - 1] == q[i];
    }
  }

  /** A log that holds `q`'s head at position `n` and then continues in order with its tail is in order for `q`. */
  lemma InOrderCons(v: Version, log: seq<Dispatch>, n: nat, q: seq<Step>, doc: Node, due: int)
    requires |q| > 0 && |log| > n
    requires Replays(v, log[n], q[0], doc) && log[n].at == due
    requires InOrder(log[n + 1..], ExpectedAll(v, q[1..], doc), q[1..], if |q| > 1 then due + Delay(q[1].time) else due)
    ensures InOrder(log[n..], ExpectedAll(v, q, doc), q, due)
  {
    assert log[n..][0] == log[n];
    assert log[n..][1..] == log[n + 1..];
    assert ExpectedAll(v, q, doc)[1..] == ExpectedAll(v, q[1..], doc);
  }

  /**
   * A run left to itself dispatches the queue in recorded order, each step
   * after the full delay recorded for it, and then ends with playback off
   * and no timer pending; the session's own steps are never touched.
   */
  lemma {:induction false} DrainDispatchesInOrder(v: Version, s: Session, page: Page, q: seq<Step>)
    requires s.running && |q| > 0 && s.pending.Some?
    requires s.pending.value.step == q[0] && s.pending.value.rest == q[1..]
    requires forall i :: 0 <= i < |q| ==> Replayable(v, q[i], page.doc)
    ensures var f := FireAtDue(v, s, page, |q|);
      !f.session.running && f.session.pending.None? && f.session.steps == s.steps &&
      |f.session.log| >= |s.log| && f.session.log[..|s.log|] == s.log &&
      InOrder(f.session.log[|s.log|..], ExpectedAll(v, q, page.doc), q, s.pending.value.due)
    decreases |q|
  {
    var due := s.pending.value.due;
    var g := Fire(v, s, page, due);
    FireHead(v, s, page, q);
    FireAtDueUnfold(v, s, page, |q|);
    var f := FireAtDue(v, g.session, g.page, |q| - 1);
    if |q| == 1 {
      LogAfterLast(v, s.log, g.session.log, f.session.log, q, page.doc, due);
    } else {
      var q' := q[1..];
      assert forall i :: 0 <= i < |q'| ==> q'[i] == q[i + 1];
      DrainDispatchesInOrder(v, g.session, g.page, q');
      LogAfterHead(v, s.log, g.session.log, f.session.log, q, page.doc, g.page.doc, due, g.session.pending.value.due);
    }
  }

  /**
   * Playback started on a session's whole step list replays all of it in
   * order, the first step after its own delay, and ends idle.
   */
  lemma RunFromStart(v: Version, s: Session, page: Page, now: int, q: seq<Step>, before: seq<Dispatch>)
    requires s.steps == q && s.log == before
    requires s.running && |q| > 0 && s.pending == Some(Schedule(q, now))
    requires forall i :: 0 <= i < |q| ==> Replayable(v, q[i], page.doc)
    ensures var f := FireAtDue(v, s, page, |q|);
      f.session.steps == q && f.session.recording == s.recording &&
      !f.session.running && f.session.pending.None? &&
      |f.session.log| >= |before| && f.session.log[..|before|] == before &&
      InOrder(f.session.log[|before|..], ExpectedAll(v, q, page.doc), q, s.pending.value.due)
    ensures s.pending.value.due == now + Delay(q[0].time)
  {
    DrainDispatchesInOrder(v, s, page, q);
  }

  /** The log of a run whose last step was replayed. */
  lemma LogAfterLast(v: Version, before: seq<Dispatch>, g: seq<Dispatch>, f: seq<Dispatch>, q: seq<Step>, doc: Node, due: int)
    requires |q| == 1 && f == g && |g| == |before| + 1 && g[..|before|] == before
    requires Replays(v, g[|before|], q[0], doc) && g[|before|].at == due
    ensures |f| >= |before| && f[..|before|] == before
    ensures InOrder(f[|before|..], ExpectedAll(v, q, doc), q, due)
  {
    var n := |before|;
    assert f[n + 1..] == [];
    assert q[1..] == [];
    InOrderCons(v, f, n, q, doc, due);
  }

  /** The log of a run that replayed the head step and then, in order, the rest. */
  lemma LogAfterHead(v: Version, before: seq<Dispatch>, g: seq<Dispatch>, f: seq<Dispatch>, q: seq<Step>,
                     doc: Node, doc': Node, due: int, due': int)
    requires |q| > 1 && |g| == |before| + 1 && g[..|before|] == before
    requires Replays(v, g[|before|], q[0], doc) && g[|before|].at == due
    requires |f| >= |g| && f[..|g|] == g
    requires doc' == doc && due' == due + Delay(q[1].time)
    requires InOrder(f[|g|..], ExpectedAll(v, q[1..], doc'), q[1..], due')
    ensures |f| >= |before| && f[..|before|] == before
    ensures InOrder(f[|before|..], ExpectedAll(v, q, doc), q, due)
  {
    var n := |before|;
    assert f[n] == g[n];
    InOrderCons(v, f, n, q, doc, due);
    assert f[..n] == g[..n];
  }

  /**
   * Switching playback off does not clear the pending timer: the step
   * already scheduled is still replayed, and nothing after it, however often
   * the timer is then given the chance to fire.
   */
  lemma StopLetsScheduledStepFire(v: Version, s: Session, page: Page, n: nat)
    requires s.pending.Some? && n > 0
    ensures var off := StopRunning(s);
      var f := FireAtDue(v, off, page, n);
      f == FireAtDue(v, off, page, 1) &&
      !f.session.running && f.session.pending.None? &&
      |f.session.log| <= |s.log| + 1 &&
      (Replayable(v, s.pending.value.step, page.doc) ==>
        |f.session.log| == |s.log| + 1 && Replays(v, f.session.log[|s.log|], s.pending.value.step, page.doc))
  {
    var off := StopRunning(s);
    var g := Fire(v, off, page, off.pending.value.due);
    SimulateReplays(v, s.pending.value.step, page, off.pending.value.due);
    FireAtDueUnfold(v, off, page, 1);
    FireAtDueUnfold(v, off, page, n);
  }

  /**
   * A target that cannot be found aborts playback without passing through
   * `stopRunning`: `running` stays true with no timer left, and nothing is
   * dispatched.
   */
  lemma MissingTargetLeavesRunning(v: Version, s: Session, page: Page, now: int)
    requires s.running && s.pending.Some? && Resolve(page.doc, s.pending.value.step.path).None?
    ensures var f := Fire(v, s, page, now);
      f.session.running && f.session.pending.None? && f.session.log == s.log && f.page == page
  {
    SimulateReplays(v, s.pending.value.step, page, now);
  }
}
