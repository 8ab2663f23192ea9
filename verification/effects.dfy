/** Effects: the actions a handler runs for an event. An effect is invoked
    with the handler and the event's object and talks to the coordinator
    (`handler.plugin`), whose members are not part of this model: each call
    is recorded in a trace, and an environment `env` says which calls raise.
    Log lines go to the add-on's log, which never raises. */
module Effects {
  import opened Wrappers
  import opened Filters

  /** Handler identity, as Python's object identity. */
  type HandlerId = nat

  /** A call on the coordinator, or a log line. `LogObject` is a log line
      that formats the event's object. */
  datatype Call =
    | SendVibration(amplitude: real, frequency: real, duration: int)
    | SendElevation(elevation: real)
    | AddElevationOffset(offset: real)
    | AddCaptureRegion(handler: HandlerId, bounds: Location)
    | RemoveCaptureRegion(handler: HandlerId)
    | GetMousePosition
    | GetScreenSize
    | LogLine(message: string)
    | LogObject(message: string, subject: UIObject)

  predicate IsLog(c: Call) {
    c.LogLine? || c.LogObject?
  }

  /** Whether the call raises in environment `env`. */
  predicate RaisesIn(env: Call -> bool, c: Call) {
    !IsLog(c) && env(c)
  }

  datatype Failure =
    | NotImplemented
    | AttributeError
    | CoordinatorError(call: Call)
    | ZeroDivision

  /** The calls made, and the exception that ended the run, if any. */
  datatype Outcome = Outcome(trace: seq<Call>, failure: Option<Failure>) {
    predicate Ok() { failure.None? }
  }

  /** `Effect` (abstract), `ComboEffect`, `VibrationEffect`,
      `GlobalElevationEffect`, `RelativeElevationEffect`, and the logging
      lambdas the configuration tables put inside combos: `LogText` logs a
      fixed line, `LogSubject` formats `obj.name` and `obj.location`. */
  datatype Effect =
    | BaseEffect
    | ComboEffect(effects: seq<Effect>)
    | VibrationEffect(amplitude: real, frequency: real, duration: int)
    | GlobalElevationEffect(elevation: real)
    | RelativeElevationEffect(offset: real)
    | LogText(message: string)
    | LogSubject(message: string)

  /** The constructors' default arguments. */
  const DefaultVibration: Effect := VibrationEffect(0.5, 150.0, 500)
  const DefaultGlobalElevation: Effect := GlobalElevationEffect(0.0)
  const DefaultRelativeElevation: Effect := RelativeElevationEffect(0.0)

  /** Making one call: it is recorded, then it may raise. */
  function Perform(env: Call -> bool, c: Call): (r: Outcome)
    ensures r.trace == [c]
    ensures r.Ok() <==> !RaisesIn(env, c)
  {
    Outcome([c], if RaisesIn(env, c) then Some(CoordinatorError(c)) else None)
  }

  /** `effect(handler, obj)`. */
  function Invoke(e: Effect, subject: Option<UIObject>, env: Call -> bool): Outcome
    decreases e
  {
    match e
    case BaseEffect => Outcome([], Some(NotImplemented))
    case ComboEffect(es) => InvokeAll(es, subject, env)
    case VibrationEffect(a, f, d) => Perform(env, SendVibration(a, f, d))
    case GlobalElevationEffect(v) => Perform(env, SendElevation(v))
    case RelativeElevationEffect(o) => Perform(env, AddElevationOffset(o))
    case LogText(m) => Outcome([LogLine(m)], None)
    case LogSubject(m) =>
      match subject
      case Some(o) => Outcome([LogObject(m, o)], None)
      case None => Outcome([], Some(AttributeError))
  }

  /** The loop of `ComboEffect.__call__`: sub-effects in list order with the
      same object; an exception propagates and ends the loop. */
  function InvokeAll(es: seq<Effect>, subject: Option<UIObject>, env: Call -> bool): Outcome
    decreases es
  {
    if |es| == 0 then Outcome([], None)
    else
      var first := Invoke(es[0], subject, env);
      if !first.Ok() then first
      else
        var rest := InvokeAll(es[1..], subject, env);
        Outcome(first.trace + rest.trace, rest.failure)
  }

  /** Running `a + b` is running `a`, then `b` only if `a` raised nothing. */
  lemma {:induction false} InvokeAllAppend(a: seq<Effect>, b: seq<Effect>, subject: Option<UIObject>, env: Call -> bool)
    ensures InvokeAll(a + b, subject, env) ==
              var ra := InvokeAll(a, subject, env);
              if !ra.Ok() then ra
              else Outcome(ra.trace + InvokeAll(b, subject, env).trace, InvokeAll(b, subject, env).failure)
    decreases |a|
  {
    if |a| == 0 {
      assert a + b == b;
    } else {
      assert (a + b)[0] == a[0];
      assert (a + b)[1..] == a[1..] + b;
      InvokeAllAppend(a[1..], b, subject, env);
    }
  }

  /** The traces of `es[..n]`, concatenated left to right. */
  function Traces(es: seq<Effect>, n: nat, subject: Option<UIObject>, env: Call -> bool): seq<Call>
    requires n <= |es|
  {
    if n == 0 then [] else Traces(es, n - 1, subject, env) + Invoke(es[n - 1], subject, env).trace
  }

  /** While every sub-effect succeeds, a combo's calls are its sub-effects'
      calls in list order. */
  lemma {:induction false} ComboRunsInOrder(es: seq<Effect>, n: nat, subject: Option<UIObject>, env: Call -> bool)
    requires n <= |es|
    requires forall j :: 0 <= j < n ==> Invoke(es[j], subject, env).Ok()
    ensures InvokeAll(es[..n], subject, env) == Outcome(Traces(es, n, subject, env), None)
  {
    if n > 0 {
      ComboRunsInOrder(es, n - 1, subject, env);
      assert es[..n] == es[..n - 1] + [es[n - 1]];
      InvokeAllAppend(es[..n - 1], [es[n - 1]], subject, env);
      InvokeSingle(es[n - 1], subject, env);
    }
  }

  /** A one-element combo loop is the element itself. */
  lemma InvokeSingle(e: Effect, subject: Option<UIObject>, env: Call -> bool)
    ensures InvokeAll([e], subject, env) == Invoke(e, subject, env)
  {
    assert [e][1..] == [];
    assert Invoke(e, subject, env).trace + [] == Invoke(e, subject, env).trace;
  }

  /** The first raising sub-effect ends the combo: its exception propagates,
      the calls are those of the sub-effects up to and including it, and no
      later sub-effect runs: replacing the tail after it changes nothing. */
  lemma ComboStopsAtFirstFailure(es: seq<Effect>, k: nat, tail: seq<Effect>, subject: Option<UIObject>, env: Call -> bool)
    requires k < |es|
    requires forall j :: 0 <= j < k ==> Invoke(es[j], subject, env).Ok()
    requires !Invoke(es[k], subject, env).Ok()
    ensures Invoke(ComboEffect(es), subject, env) ==
              Outcome(Traces(es, k + 1, subject, env), Invoke(es[k], subject, env).failure)
    ensures Invoke(ComboEffect(es[..k + 1] + tail), subject, env) == Invoke(ComboEffect(es), subject, env)
  {
    var pre := es[..k];
    var upto := es[..k + 1];
    var fail := Invoke(es[k], subject, env);
    ComboRunsInOrder(es, k, subject, env);
    assert upto == pre + [es[k]];
    InvokeAllAppend(pre, [es[k]], subject, env);
    InvokeSingle(es[k], subject, env);
    assert InvokeAll(upto, subject, env) == Outcome(Traces(es, k + 1, subject, env), fail.failure);
    assert es == upto + es[k + 1..];
    InvokeAllAppend(upto, es[k + 1..], subject, env);
    InvokeAllAppend(upto, tail, subject, env);
  }

  /** An empty combo does nothing, and the abstract base class always raises
      `NotImplementedError` before making any call. */
  lemma EmptyAndBase(subject: Option<UIObject>, env: Call -> bool)
    ensures Invoke(ComboEffect([]), subject, env) == Outcome([], None)
    ensures Invoke(BaseEffect, subject, env) == Outcome([], Some(NotImplemented))
  {
  }

  /** Each hardware effect makes exactly one call, carrying its parameters;
      the defaults are (0.5, 150.0, 500) and 0.0. */
  lemma SingleCallEffects(a: real, f: real, d: int, v: real, o: real, subject: Option<UIObject>, env: Call -> bool)
    ensures Invoke(VibrationEffect(a, f, d), subject, env).trace == [SendVibration(a, f, d)]
    ensures Invoke(GlobalElevationEffect(v), subject, env).trace == [SendElevation(v)]
    ensures Invoke(RelativeElevationEffect(o), subject, env).trace == [AddElevationOffset(o)]
    ensures Invoke(DefaultVibration, subject, env).trace == [SendVibration(0.5, 150.0, 500)]
    ensures Invoke(DefaultGlobalElevation, subject, env).trace == [SendElevation(0.0)]
    ensures Invoke(DefaultRelativeElevation, subject, env).trace == [AddElevationOffset(0.0)]
  {
  }

  /** Every sub-effect sees the object the combo was called with: any object
      an effect logs is that object. */
  lemma {:induction false} SubjectPassedThrough(e: Effect, subject: Option<UIObject>, env: Call -> bool)
    ensures forall c :: c in Invoke(e, subject, env).trace && c.LogObject? ==> subject == Some(c.subject)
    decreases e, 1
  {
    if e.ComboEffect? {
      SubjectPassedThroughAll(e.effects, subject, env);
    }
  }

  lemma {:induction false} SubjectPassedThroughAll(es: seq<Effect>, subject: Option<UIObject>, env: Call -> bool)
    ensures forall c :: c in InvokeAll(es, subject, env).trace && c.LogObject? ==> subject == Some(c.subject)
    decreases es, 0
  {
    if |es| > 0 {
      SubjectPassedThrough(es[0], subject, env);
      SubjectPassedThroughAll(es[1..], subject, env);
    }
  }

  /** The environment in which no coordinator call raises. */
  function NeverRaises(): Call -> bool {
    (c: Call) => false
  }

  /** Coordinator exceptions only cut a run short: in any environment the
      calls made are a prefix of those made when nothing raises, and a run
      that completes makes exactly those calls. */
  lemma {:induction false} RaisingTruncates(e: Effect, subject: Option<UIObject>, env: Call -> bool)
    ensures Invoke(e, subject, env).trace <= Invoke(e, subject, NeverRaises()).trace
    ensures Invoke(e, subject, env).Ok() ==> Invoke(e, subject, env) == Invoke(e, subject, NeverRaises())
    decreases e, 1
  {
    if e.ComboEffect? {
      RaisingTruncatesAll(e.effects, subject, env);
    }
  }

  lemma {:induction false} RaisingTruncatesAll(es: seq<Effect>, subject: Option<UIObject>, env: Call -> bool)
    ensures InvokeAll(es, subject, env).trace <= InvokeAll(es, subject, NeverRaises()).trace
    ensures InvokeAll(es, subject, env).Ok() ==> InvokeAll(es, subject, env) == InvokeAll(es, subject, NeverRaises())
    decreases es, 0
  {
    if |es| > 0 {
      RaisingTruncates(es[0], subject, env);
      RaisingTruncatesAll(es[1..], subject, env);
      var first := Invoke(es[0], subject, env);
      var firstN := Invoke(es[0], subject, NeverRaises());
      if !firstN.Ok() {
        assert !first.Ok();
      }
    }
  }
}
