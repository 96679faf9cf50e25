/**
 * `SyncScope`: runs a sync operation in a fresh child `BlazeContext` and maps the way the
 * operation ends onto the context (cancelled, has-error), a rethrow decision and a log entry,
 * always ending the scope. `runWithTiming` wraps the operation so that it first pushes a
 * timing scope.
 */
module SyncScope {
  import opened Wrappers
  import opened BlazeScope

  /** How `ScopedSyncOperation.execute` ends. */
  datatype Outcome =
    | Returned                       // normal completion
    | SyncCanceled                   // SyncCanceledException
    | SyncFailed                     // SyncFailedException
    | ProcessCanceled                // ProcessCanceledException
    | OtherThrowable(name: string)   // any other Throwable

  /** One call an operation makes on the context it is given. */
  datatype Step = PushScope(scope: Scope) | MarkCancelled | MarkError | SubmitIssue(issue: Issue)

  /**
   * A `ScopedSyncOperation`, given by the context calls it makes, in order, before it ends
   * with `outcome`. Its own code is not part of this model.
   */
  datatype Operation = Operation(steps: seq<Step>, outcome: Outcome)

  // ---------------------------------------------------------------------------
  // The context calls, on values

  /** The context after one step. */
  function Apply(st: ContextState, s: Step): ContextState
  {
    match s
    case PushScope(scope) => st.(scopes := st.scopes + [scope], events := st.events + [Pushed(scope)])
    case MarkCancelled => st.(cancelled := true, events := st.events + [MarkedCancelled])
    case MarkError => st.(hasError := true, events := st.events + [MarkedError])
    case SubmitIssue(issue) => st.(issues := st.issues + [issue], events := st.events + [Submitted(issue)])
  }

  /** The context after a run of steps, in order. */
  function Run(st: ContextState, steps: seq<Step>): ContextState
  {
    if steps == [] then st else Apply(Run(st, steps[..|steps| - 1]), steps[|steps| - 1])
  }

  /**
   * The calls the catch blocks of `push` make: the two sync exceptions and
   * `ProcessCanceledException` cancel or fail the context, any other throwable fails it.
   */
  function Handler(o: Outcome): (r: seq<Step>)
    ensures MarkCancelled in r <==> o == SyncCanceled || o == ProcessCanceled
    ensures MarkError in r <==> o == SyncFailed || o.OtherThrowable?
    ensures |r| == if o == Returned then 0 else 1
  {
    match o
    case Returned => []
    case SyncCanceled => [MarkCancelled]
    case SyncFailed => [MarkError]
    case ProcessCanceled => [MarkCancelled]
    case OtherThrowable(_) => [MarkError]
  }

  /** Only `ProcessCanceledException` and the catch-all throwable leave `push` again. */
  predicate Rethrown(o: Outcome)
  {
    o == ProcessCanceled || o.OtherThrowable?
  }

  /** The context `push` leaves: the operation ran, then its catch block, then `endScope`. */
  function PushResult(op: Operation): ContextState
  {
    var st := Run(Run(FRESH, op.steps), Handler(op.outcome));
    st.(events := st.events + [Ended])
  }

  /** The operation `runWithTiming` builds: push the timing scope, then run the operation. */
  function WithTiming(op: Operation, timing: Scope): Operation
  {
    Operation([PushScope(timing)] + op.steps, op.outcome)
  }

  // ---------------------------------------------------------------------------
  // What a run of steps does to each field

  /** The event a step records. */
  function StepEvent(s: Step): Event
  {
    match s
    case PushScope(scope) => Pushed(scope)
    case MarkCancelled => MarkedCancelled
    case MarkError => MarkedError
    case SubmitIssue(issue) => Submitted(issue)
  }

  /** One step, field by field. */
  lemma ApplyEffect(st: ContextState, s: Step)
    ensures Apply(st, s).events == st.events + [StepEvent(s)]
    ensures Apply(st, s).scopes == st.scopes + if s.PushScope? then [s.scope] else []
    ensures Apply(st, s).issues == st.issues + if s.SubmitIssue? then [s.issue] else []
    ensures Apply(st, s).cancelled <==> st.cancelled || s == MarkCancelled
    ensures Apply(st, s).hasError <==> st.hasError || s == MarkError
  {
  }

  /** The events of a run of steps: one per step, in order. */
  function StepEvents(steps: seq<Step>): (r: seq<Event>)
    ensures |r| == |steps|
    ensures Ended !in r
  {
    if steps == [] then []
    else
      var s := steps[|steps| - 1];
      StepEvents(steps[..|steps| - 1]) + [StepEvent(s)]
  }

  /** The scopes a run of steps pushes, in order. */
  function ScopesOf(steps: seq<Step>): (r: seq<Scope>)
    ensures |r| <= |steps|
  {
    if steps == [] then []
    else
      var s := steps[|steps| - 1];
      ScopesOf(steps[..|steps| - 1]) + if s.PushScope? then [s.scope] else []
  }

  /** The issues a run of steps submits, in order. */
  function IssuesOf(steps: seq<Step>): (r: seq<Issue>)
    ensures |r| <= |steps|
  {
    if steps == [] then []
    else
      var s := steps[|steps| - 1];
      IssuesOf(steps[..|steps| - 1]) + if s.SubmitIssue? then [s.issue] else []
  }

  /**
   * A run of steps appends its events, scopes and issues to the context's, and sets a flag
   * exactly when the flag was set before or some step sets it.
   */
  lemma {:induction false} RunEffect(st: ContextState, steps: seq<Step>)
    ensures Run(st, steps).events == st.events + StepEvents(steps)
    ensures Run(st, steps).scopes == st.scopes + ScopesOf(steps)
    ensures Run(st, steps).issues == st.issues + IssuesOf(steps)
    ensures Run(st, steps).cancelled <==> st.cancelled || MarkCancelled in steps
    ensures Run(st, steps).hasError <==> st.hasError || MarkError in steps
  {
    if steps != [] {
      var init, s := steps[..|steps| - 1], steps[|steps| - 1];
      RunEffect(st, init);
      ApplyEffect(Run(st, init), s);
      assert steps == init + [s];
      assert st.events + StepEvents(steps) == st.events + StepEvents(init) + [StepEvent(s)];
      assert st.scopes + ScopesOf(steps) == st.scopes + ScopesOf(init) + if s.PushScope? then [s.scope] else [];
      assert st.issues + IssuesOf(steps) == st.issues + IssuesOf(init) + if s.SubmitIssue? then [s.issue] else [];
    }
  }

  /** Running a step in front is running the rest from the state that step leaves. */
  lemma {:induction false} RunCons(st: ContextState, s: Step, steps: seq<Step>)
    ensures Run(st, [s] + steps) == Run(Apply(st, s), steps)
  {
    if steps == [] {
      assert [s] + steps == [s];
      assert [s][..0] == [];
    } else {
      var init := steps[..|steps| - 1];
      assert ([s] + steps)[..|[s] + steps| - 1] == [s] + init;
      RunCons(st, s, init);
    }
  }

  /** A single step run on its own. */
  lemma RunOne(st: ContextState, s: Step)
    ensures Run(st, [s]) == Apply(st, s)
  {
    assert [s][..0] == [];
  }

  /** The number of times `e` occurs in `s`. */
  function Count(s: seq<Event>, e: Event): (n: nat)
    ensures n <= |s|
    ensures n == 0 <==> e !in s
  {
    if s == [] then 0 else Count(s[..|s| - 1], e) + if s[|s| - 1] == e then 1 else 0
  }

  lemma {:induction false} CountAppend(a: seq<Event>, b: seq<Event>, e: Event)
    ensures Count(a + b, e) == Count(a, e) + Count(b, e)
  {
    if b != [] {
      assert (a + b)[..|a + b| - 1] == a + b[..|b| - 1];
      CountAppend(a, b[..|b| - 1], e);
    } else {
      assert a + b == a;
    }
  }

  // ---------------------------------------------------------------------------
  // What push promises

  /** The catch block for `o`: it marks the context and records that call, and nothing else. */
  lemma CatchEffect(st: ContextState, o: Outcome)
    ensures Run(st, Handler(o)) == st.(
      cancelled := st.cancelled || o == SyncCanceled || o == ProcessCanceled,
      hasError := st.hasError || o == SyncFailed || o.OtherThrowable?,
      events := st.events + StepEvents(Handler(o)))
  {
    if o != Returned {
      var h := Handler(o)[0];
      assert Handler(o) == [h];
      RunOne(st, h);
      assert [h][..0] == [];
    }
  }

  /**
   * The new context holds the operation's scopes and issues and, after the operation's events,
   * the catch block's call and then `endScope`. It is cancelled exactly when the operation
   * cancelled it or ended with `SyncCanceledException` or `ProcessCanceledException`, and has
   * an error exactly when the operation set one or ended with `SyncFailedException` or another
   * throwable.
   */
  lemma PushEffect(op: Operation)
    ensures PushResult(op).events == StepEvents(op.steps) + StepEvents(Handler(op.outcome)) + [Ended]
    ensures PushResult(op).scopes == ScopesOf(op.steps)
    ensures PushResult(op).issues == IssuesOf(op.steps)
    ensures PushResult(op).cancelled <==>
      MarkCancelled in op.steps || op.outcome == SyncCanceled || op.outcome == ProcessCanceled
    ensures PushResult(op).hasError <==>
      MarkError in op.steps || op.outcome == SyncFailed || op.outcome.OtherThrowable?
  {
    RunEffect(FRESH, op.steps);
    CatchEffect(Run(FRESH, op.steps), op.outcome);
  }

  /** `endScope` runs exactly once, and it is the last call on the context, on every path. */
  lemma EndScopeOnce(op: Operation)
    ensures Count(PushResult(op).events, Ended) == 1
    ensures PushResult(op).events[|PushResult(op).events| - 1] == Ended
  {
    PushEffect(op);
    var pre := StepEvents(op.steps) + StepEvents(Handler(op.outcome));
    assert Ended !in pre;
    CountAppend(pre, [Ended], Ended);
    assert [Ended][..0] == [];
  }

  /** Scopes and events already on the context stay underneath whatever a run of steps adds. */
  lemma RunPrefix(st: ContextState, a: seq<Scope>, b: seq<Event>, steps: seq<Step>)
    ensures Run(st.(scopes := a + st.scopes, events := b + st.events), steps) ==
      Run(st, steps).(scopes := a + Run(st, steps).scopes, events := b + Run(st, steps).events)
  {
    var pre := st.(scopes := a + st.scopes, events := b + st.events);
    RunEffect(st, steps);
    RunEffect(pre, steps);
    assert Run(pre, steps).scopes == a + Run(st, steps).scopes;
    assert Run(pre, steps).events == b + Run(st, steps).events;
  }

  /**
   * With a timing scope the new context is what `push` alone leaves, except that the timing
   * scope was pushed first: it is at the bottom of the scopes and its event comes first.
   */
  lemma TimingScopeFirst(op: Operation, timing: Scope)
    ensures PushResult(WithTiming(op, timing)) ==
      PushResult(op).(scopes := [timing] + PushResult(op).scopes, events := [Pushed(timing)] + PushResult(op).events)
  {
    var a, b := [timing], [Pushed(timing)];
    RunCons(FRESH, PushScope(timing), op.steps);
    assert Apply(FRESH, PushScope(timing)) == FRESH.(scopes := a + FRESH.scopes, events := b + FRESH.events);
    RunPrefix(FRESH, a, b, op.steps);
    var ran := Run(FRESH, op.steps);
    RunPrefix(ran, a, b, Handler(op.outcome));
    var after := Run(ran, Handler(op.outcome));
    assert (b + after.events) + [Ended] == b + (after.events + [Ended]);
  }

  // ---------------------------------------------------------------------------
  // The methods

  /** The context call one step makes. */
  method ApplyStep(context: Context, s: Step)
    modifies context
    ensures context.State() == Apply(old(context.State()), s)
  {
    match s
    case PushScope(scope) => context.Push(scope);
    case MarkCancelled => context.SetCancelled();
    case MarkError => context.SetHasError();
    case SubmitIssue(issue) => context.Submit(issue);
  }

  /** Makes the given calls on `context`, in order. */
  method Execute(context: Context, steps: seq<Step>)
    modifies context
    ensures context.State() == Run(old(context.State()), steps)
  {
    for i := 0 to |steps|
      invariant context.State() == Run(old(context.State()), steps[..i])
    {
      assert steps[..i + 1][..i] == steps[..i];
      ApplyStep(context, steps[i]);
    }
    assert steps[..|steps|] == steps;
  }

  /**
   * `push(parentContext, operation)`: a new context whose parent is `parent` runs the
   * operation; the catch block for its outcome runs; `endScope` runs last. `thrown` is the
   * exception that leaves `push`, and `logged` says whether `logger.error` was called.
   */
  method Push(parent: Context?, op: Operation) returns (context: Context, thrown: Option<Outcome>, logged: bool)
    ensures fresh(context) && context.parent == parent
    ensures context.State() == PushResult(op)
    ensures thrown == if Rethrown(op.outcome) then Some(op.outcome) else None
    ensures logged <==> op.outcome.OtherThrowable?
  {
    context := new Context(parent);
    Execute(context, op.steps);
    ghost var ran := context.State();
    assert ran == Run(FRESH, op.steps);
    thrown, logged := None, false;
    match op.outcome {
      case Returned =>
        assert Handler(op.outcome) == [];
      case SyncCanceled =>
        context.SetCancelled();
      case SyncFailed =>
        context.SetHasError();
      case ProcessCanceled =>
        context.SetCancelled();
        thrown := Some(op.outcome);
      case OtherThrowable(_) =>
        context.SetHasError();
        logged := true;
        thrown := Some(op.outcome);
    }
    if op.outcome != Returned {
      RunOne(ran, Handler(op.outcome)[0]);
      assert Handler(op.outcome) == [Handler(op.outcome)[0]];
    }
    ghost var caught := Run(ran, Handler(op.outcome));
    assert context.State() == caught;
    context.EndScope();
    assert context.State() == caught.(events := caught.events + [Ended]);
  }

  /**
   * `runWithTiming(parentContext, operation, timingScope)`: `push` of the operation that
   * first pushes `timing` on its context; by `TimingScopeFirst` that is `push` of the
   * operation with the timing scope underneath.
   */
  method RunWithTiming(parent: Context?, op: Operation, timing: Scope)
    returns (context: Context, thrown: Option<Outcome>, logged: bool)
    ensures fresh(context) && context.parent == parent
    ensures context.State() == PushResult(WithTiming(op, timing))
    ensures thrown == if Rethrown(op.outcome) then Some(op.outcome) else None
    ensures logged <==> op.outcome.OtherThrowable?
  {
    var withTiming := WithTiming(op, timing);
    context, thrown, logged := Push(parent, withTiming);
  }
}
