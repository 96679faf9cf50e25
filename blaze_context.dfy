/**
 * The slice of `BlazeContext` that the two cores touch: the parent link, pushed scopes, the
 * cancelled and has-error flags, submitted issues and the end of the scope. `events` records
 * every one of these calls in order, so that contracts can say what happened before what.
 */
module BlazeScope {

  /** A scope pushed onto a context (a `TimingScope`, for instance). */
  datatype Scope = Scope(name: string)

  /** An `IssueOutput` submitted to a context. */
  datatype Issue = IssueError(message: string) | IssueWarning(message: string)

  datatype Event = Pushed(scope: Scope) | MarkedCancelled | MarkedError | Submitted(issue: Issue) | Ended

  /** The fields of a context, as a value. */
  datatype ContextState = ContextState(
    scopes: seq<Scope>, cancelled: bool, hasError: bool, issues: seq<Issue>, events: seq<Event>)

  /** The state of a context that nothing has touched yet. */
  const FRESH: ContextState := ContextState([], false, false, [], [])

  class Context {
    const parent: Context?
    var scopes: seq<Scope>
    var cancelled: bool
    var hasError: bool
    var issues: seq<Issue>
    var events: seq<Event>

    function State(): ContextState
      reads this
    {
      ContextState(scopes, cancelled, hasError, issues, events)
    }

    /** `new BlazeContext(parent)`. */
    constructor (parent: Context?)
      ensures this.parent == parent
      ensures State() == FRESH
    {
      this.parent := parent;
      scopes, cancelled, hasError, issues, events := [], false, false, [], [];
    }

    /** `context.push(scope)`. */
    method Push(scope: Scope)
      modifies this`scopes, this`events
      ensures scopes == old(scopes) + [scope]
      ensures events == old(events) + [Pushed(scope)]
    {
      scopes := scopes + [scope];
      events := events + [Pushed(scope)];
    }

    /** `context.setCancelled()`. */
    method SetCancelled()
      modifies this`cancelled, this`events
      ensures cancelled
      ensures events == old(events) + [MarkedCancelled]
    {
      cancelled := true;
      events := events + [MarkedCancelled];
    }

    /** `context.setHasError()`. */
    method SetHasError()
      modifies this`hasError, this`events
      ensures hasError
      ensures events == old(events) + [MarkedError]
    {
      hasError := true;
      events := events + [MarkedError];
    }

    /** `issue.submit(context)`. */
    method Submit(issue: Issue)
      modifies this`issues, this`events
      ensures issues == old(issues) + [issue]
      ensures events == old(events) + [Submitted(issue)]
    {
      issues := issues + [issue];
      events := events + [Submitted(issue)];
    }

    /** `context.endScope()`. */
    method EndScope()
      modifies this`events
      ensures events == old(events) + [Ended]
    {
      events := events + [Ended];
    }
  }
}
