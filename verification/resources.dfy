/**
  The `Query` and `Updates` resources behind the `query` and `updates` async
  generators: creation under the open guard, `next`, the close protocol, and
  the generator loops.

  The native fetches (`iterator_nextv`, `updates_next`) are seen only through
  the answers the generator's successive `next` calls resolve to.
 */
module Resources {
  import opened Wrappers
  import opened RocksLevel
  import opened Js

  datatype Kind = QueryKind | UpdatesKind

  /** A `Query` or `Updates` instance. */
  datatype Resource = Resource(
    id: nat,
    kind: Kind,
    closed: bool,       // `this.closed`
    pending: bool,      // `this.promise` is set: a native fetch is outstanding
    sequence: int)      // the sequence number captured at construction (queries)

  /**
    `query(options)` / `updates(options)` up to the resource's constructor:
    refused unless the database is open; otherwise the new resource is
    attached to the database.
   */
  function Start(db: Level, id: nat, kind: Kind, sequence: int): (r: Result<(Level, Resource), LevelError>)
    ensures r.Err? <==> db.status != Open
    ensures r.Err? ==> r.error == NotOpen
    ensures r.Ok? ==> && r.value.0 == db.(resources := db.resources + {id})
                      && r.value.1 == Resource(id, kind, false, false, sequence)
  {
    match RequireOpen(db)
    case Fail(e) => Err(e)
    case Pass => Ok((db.(resources := db.resources + {id}), Resource(id, kind, false, false, sequence)))
  }

  /** `next`: a closed resource answers `{}` at once; otherwise a native fetch is started. */
  function Next(r: Resource): (n: (Resource, bool))
    ensures n.1 <==> !r.closed
    ensures r.closed ==> n.0 == r
    ensures !r.closed ==> n.0 == r.(pending := true)
  {
    if r.closed then (r, false) else (r.(pending := true), true)
  }

  /** How `close(callback)` ends: through the callback, by throwing, or quietly. */
  datatype Report<E> = Called(failure: Option<E>) | Threw(thrown: E) | Quiet

  /** The resource and registry after `close`, whether the native close ran, and how it ended. */
  datatype CloseStep<E> = CloseStep(resource: Resource, resources: set<nat>, native: bool, report: Report<E>)

  /**
    `close(callback)`: wait for an outstanding fetch and ignore its outcome;
    run the native close only if not closed yet (marking the resource closed
    first, so a throwing native close is not retried); report to the
    callback, or throw when there is none; and detach in every case.
   */
  function Close<E>(r: Resource, resources: set<nat>, hasCallback: bool, native: Outcome<E>): (s: CloseStep<E>)
    ensures s.resources == resources - {r.id}
    ensures s.resource == r.(closed := true, pending := false)
    ensures s.native <==> !r.closed
    ensures s.report.Threw? <==> !r.closed && native.Fail? && !hasCallback
    ensures s.report.Called? <==> hasCallback
    ensures s.report.Called? ==> (s.report.failure.Some? <==> !r.closed && native.Fail?)
  {
    var settled := r.(pending := false);
    if r.closed then
      CloseStep(settled, resources - {r.id}, false, if hasCallback then Called(None) else Quiet)
    else
      var report := match native
        case Pass => if hasCallback then Called(None) else Quiet
        case Fail(e) => if hasCallback then Called(Some(e)) else Threw(e);
      CloseStep(settled.(closed := true), resources - {r.id}, true, report)
  }

  /**
    However often `close` is called, the native close runs once: a second
    call neither runs it nor reports an error, whatever the native side would
    have done, and the resource stays detached.
   */
  lemma CloseOnce<E>(r: Resource, resources: set<nat>, cb1: bool, cb2: bool, n1: Outcome<E>, n2: Outcome<E>)
    ensures var first := Close(r, resources, cb1, n1);
            var second := Close(first.resource, first.resources, cb2, n2);
            && !second.native
            && !second.report.Threw?
            && (second.report.Called? ==> second.report.failure.None?)
            && second.resource == first.resource
            && r.id !in second.resources
  {
  }

  /** After any `close`, `next` answers `{}` without a native call, however often it is called. */
  lemma NextAfterClose<E>(r: Resource, resources: set<nat>, hasCallback: bool, native: Outcome<E>)
    ensures var closed := Close(r, resources, hasCallback, native).resource;
            && Next(closed) == (closed, false)
            && Next(Next(closed).0) == (closed, false)
  {
  }

  /**
    A resource started on an open database under a fresh id and then closed
    leaves the database's resource registry as it was.
   */
  lemma StartClose<E>(db: Level, id: nat, kind: Kind, sequence: int, hasCallback: bool, native: Outcome<E>)
    requires db.status == Open && id !in db.resources
    ensures Start(db, id, kind, sequence).Ok?
    ensures var started := Start(db, id, kind, sequence).value;
            var closed := Close(started.1, started.0.resources, hasCallback, native);
            && closed.resources == db.resources
            && closed.native
  {
    var started := Start(db, id, kind, sequence).value;
    assert started.0.resources - {id} == db.resources;
  }

  /**
    A database fresh from the constructor is still opening: it refuses
    `getProperty` of any string, `createColumn`, `query` and `updates` alike.
   */
  lemma FreshRefuses(location: JsValue, options: JsValue, third: JsValue,
                     property: string, handle: nat, id: nat, kind: Kind, sequence: int)
    requires Construct(location, options, third).Ok?
    ensures var db := Construct(location, options, third).value;
            && GetProperty(db, Str(property)) == Err(NotOpen)
            && CreateColumn(db, handle) == Err(NotOpen)
            && RequireOpen(db) == Fail(NotOpen)
            && Start(db, id, kind, sequence) == Err(NotOpen)
  {
  }

  // ---------------------------------------------------------------- the generator loops

  /** What an awaited `next` of a `Query` resolves to. */
  datatype QueryAnswer<R, E> =
    | Batch(rows: R, finished: bool)    // `{ finished, rows, sequence }`
    | Failure(error: E)                 // the fetch failed: the await throws
    | Nothing                           // `{}` from a closed query

  /** One value the generator yields: `{ rows, sequence }`, either possibly undefined. */
  datatype Yield<R> = Yield(rows: Option<R>, sequence: Option<int>)

  /**
    How far a run of the loop gets on the answers it was given. A consumer
    that leaves `for await` early (`break`, or `return()` at a `yield`) also
    reaches `finally`; that run is `Returned` on the prefix yielded so far,
    which `Finally` covers because it is stated for every run.
   */
  datatype Ending<E> =
    | Returned          // the loop returned; `finally` closes the resource
    | Raised(error: E)  // an await threw; `finally` closes the resource
    | Waiting           // the answers ran out with the loop still going

  datatype Run<R, E> = Run(emitted: seq<Yield<R>>, ending: Ending<E>)

  function Prepend<R, E>(y: Yield<R>, run: Run<R, E>): Run<R, E> {
    Run([y] + run.emitted, run.ending)
  }

  /**
    The `query` loop as written: yield `{ rows, sequence }` for every answer
    and return after one marked finished. A closed query answers `{}`, whose
    `finished` is undefined, so the loop yields undefined rows and goes on.
   */
  function QueryLoopAsWritten<R, E>(answers: seq<QueryAnswer<R, E>>, sequence: int): (run: Run<R, E>)
    ensures |run.emitted| <= |answers|
  {
    if answers == [] then Run([], Waiting)
    else
      match answers[0]
      case Failure(e) => Run([], Raised(e))
      case Batch(rows, finished) =>
        if finished then Run([Yield(Some(rows), Some(sequence))], Returned)
        else Prepend(Yield(Some(rows), Some(sequence)), QueryLoopAsWritten(answers[1..], sequence))
      case Nothing => Prepend(Yield(None, None), QueryLoopAsWritten(answers[1..], sequence))
  }

  /** The `query` loop returning on an answer without rows, as the `updates` loop does. */
  function QueryLoop<R, E>(answers: seq<QueryAnswer<R, E>>, sequence: int): (run: Run<R, E>)
    ensures |run.emitted| <= |answers|
    ensures forall i :: 0 <= i < |run.emitted| ==> run.emitted[i].rows.Some? && run.emitted[i].sequence == Some(sequence)
  {
    if answers == [] then Run([], Waiting)
    else
      match answers[0]
      case Failure(e) => Run([], Raised(e))
      case Batch(rows, finished) =>
        if finished then Run([Yield(Some(rows), Some(sequence))], Returned)
        else Prepend(Yield(Some(rows), Some(sequence)), QueryLoop(answers[1..], sequence))
      case Nothing => Run([], Returned)
  }

  /** A closed query answers `{}` to every `next`. */
  function Closed<R, E>(n: nat): (r: seq<QueryAnswer<R, E>>)
    ensures |r| == n && forall i :: 0 <= i < n ==> r[i] == Nothing
  {
    seq(n, _ => Nothing)
  }

  /**
    Once its query is closed from outside (the database closing does that),
    the loop as written never finishes: however many answers it gets, it
    yields one undefined batch per answer and is still waiting for more.
   */
  lemma {:induction false} QueryAsWrittenSpins<R, E>(n: nat, sequence: int)
    ensures var run := QueryLoopAsWritten(Closed<R, E>(n), sequence);
            && run.ending == Waiting
            && |run.emitted| == n
            && forall i :: 0 <= i < n ==> run.emitted[i] == Yield(None, None)
    decreases n
  {
    if n > 0 {
      assert Closed<R, E>(n)[1..] == Closed<R, E>(n - 1);
      QueryAsWrittenSpins<R, E>(n - 1, sequence);
    }
  }

  /** The corrected loop returns at the first `{}`, having yielded nothing for it. */
  lemma QueryReturnsWhenClosed<R, E>(answers: seq<QueryAnswer<R, E>>, sequence: int)
    requires answers != [] && answers[0] == Nothing
    ensures QueryLoop(answers, sequence) == Run([], Returned)
  {
  }

  /** Without closed answers, the loop as written and the corrected loop are the same. */
  lemma {:induction false} QueryLoopsAgree<R, E>(answers: seq<QueryAnswer<R, E>>, sequence: int)
    requires forall i :: 0 <= i < |answers| ==> !answers[i].Nothing?
    ensures QueryLoopAsWritten(answers, sequence) == QueryLoop(answers, sequence)
    decreases |answers|
  {
    if answers != [] {
      QueryLoopsAgree(answers[1..], sequence);
    }
  }

  /** The index of the first finished batch, failure or closed answer, or the length when there is none. */
  function FirstStop<R, E>(answers: seq<QueryAnswer<R, E>>): (k: nat)
    ensures k <= |answers|
    ensures forall i :: 0 <= i < k ==> answers[i].Batch? && !answers[i].finished
    ensures k < |answers| ==> !(answers[k].Batch? && !answers[k].finished)
  {
    if answers == [] || !(answers[0].Batch? && !answers[0].finished) then 0
    else 1 + FirstStop(answers[1..])
  }

  /**
    The `query` loop yields the rows of every batch up to and including the
    first finished one, each with the sequence captured at construction, and
    returns there; it raises the first failure; it returns on `{}`.
   */
  lemma {:induction false} QueryLoopYields<R, E>(answers: seq<QueryAnswer<R, E>>, sequence: int)
    ensures var run := QueryLoop(answers, sequence);
            var k := FirstStop(answers);
            && (k == |answers| ==> run.ending == Waiting && |run.emitted| == k)
            && (k < |answers| && answers[k].Batch? ==> run.ending == Returned && |run.emitted| == k + 1)
            && (k < |answers| && answers[k].Failure? ==> run.ending == Raised(answers[k].error) && |run.emitted| == k)
            && (k < |answers| && answers[k].Nothing? ==> run.ending == Returned && |run.emitted| == k)
            && forall i :: 0 <= i < |run.emitted| ==> run.emitted[i] == Yield(Some(answers[i].rows), Some(sequence))
    decreases |answers|
  {
    if answers != [] && answers[0].Batch? && !answers[0].finished {
      QueryLoopYields(answers[1..], sequence);
    }
  }

  /** What an awaited `next` of an `Updates` resolves to. */
  datatype UpdatesAnswer<R, E> =
    | Update(rows: Option<R>, sequence: int)   // `{ rows, sequence }`; `rows` may be missing
    | UpdateFailure(error: E)
    | NoUpdate                                 // `{}` from a closed resource

  /** The `updates` loop: return on the first answer without rows, otherwise yield it. */
  function UpdatesLoop<R, E>(answers: seq<UpdatesAnswer<R, E>>): (run: Run<R, E>)
    ensures |run.emitted| <= |answers|
  {
    if answers == [] then Run([], Waiting)
    else
      match answers[0]
      case UpdateFailure(e) => Run([], Raised(e))
      case NoUpdate => Run([], Returned)
      case Update(rows, sequence) =>
        if rows.None? then Run([], Returned)
        else Prepend(Yield(rows, Some(sequence)), UpdatesLoop(answers[1..]))
  }

  /**
    The `updates` loop yields every answer with rows, in order, with its own
    sequence, and ends at the first answer that has none: closed, rowless or
    failed. A closed resource therefore ends the loop at once.
   */
  lemma {:induction false} UpdatesLoopYields<R, E>(answers: seq<UpdatesAnswer<R, E>>)
    ensures var run := UpdatesLoop(answers);
            && (forall i :: 0 <= i < |run.emitted| ==>
                  answers[i].Update? && answers[i].rows.Some?
                  && run.emitted[i] == Yield(answers[i].rows, Some(answers[i].sequence)))
            && (run.ending == Waiting <==> |run.emitted| == |answers|)
            && (|run.emitted| < |answers| ==>
                  run.ending == (if answers[|run.emitted|].UpdateFailure? then Raised(answers[|run.emitted|].error) else Returned))
    decreases |answers|
  {
    if answers != [] && answers[0].Update? && answers[0].rows.Some? {
      UpdatesLoopYields(answers[1..]);
    }
  }

  // ---------------------------------------------------------------- `finally`

  /** A generator's run and, once it has ended, the `close` its `finally` made. */
  datatype Generated<R, E> = Generated(run: Run<R, E>, close: Option<CloseStep<E>>)

  /**
    `finally { await resource.close() }`: once the loop has returned or
    raised, the resource is closed without a callback; a loop still waiting
    for answers has not reached `finally`.
   */
  function Finally<R, E>(run: Run<R, E>, r: Resource, resources: set<nat>, native: Outcome<E>): (g: Generated<R, E>)
    ensures g.run == run
    ensures g.close.Some? <==> !run.ending.Waiting?
    ensures g.close.Some? ==>
              && g.close.value.resource.closed
              && r.id !in g.close.value.resources
              && g.close.value.resources == resources - {r.id}
              && !g.close.value.report.Called?
              && (g.close.value.report.Threw? <==> !r.closed && native.Fail?)
  {
    Generated(run, if run.ending.Waiting? then None else Some(Close(r, resources, false, native)))
  }

  /** The `query` generator (with the corrected loop) followed by its `finally`. */
  function QueryGenerator<R, E>(answers: seq<QueryAnswer<R, E>>, r: Resource, resources: set<nat>, native: Outcome<E>): Generated<R, E> {
    Finally(QueryLoop(answers, r.sequence), r, resources, native)
  }

  /** The `updates` generator followed by its `finally`. */
  function UpdatesGenerator<R, E>(answers: seq<UpdatesAnswer<R, E>>, r: Resource, resources: set<nat>, native: Outcome<E>): Generated<R, E> {
    Finally(UpdatesLoop(answers), r, resources, native)
  }

  /**
    Both generators always close their resource: for every sequence of
    answers on which the loop returns or raises, the resource ends closed
    and detached, the native close ran exactly when the resource was still
    open, and a failing native close reaches the consumer only as a throw.
   */
  lemma {:induction false} GeneratorsClose<R, E>(qs: seq<QueryAnswer<R, E>>, us: seq<UpdatesAnswer<R, E>>,
                                                 r: Resource, resources: set<nat>, native: Outcome<E>)
    ensures var g := QueryGenerator(qs, r, resources, native);
            !g.run.ending.Waiting? ==>
              && g.close.Some? && g.close.value.resource.closed && r.id !in g.close.value.resources
              && (g.close.value.native <==> !r.closed)
              && (g.close.value.report.Threw? <==> !r.closed && native.Fail?)
              && !g.close.value.report.Called?
    ensures var g := UpdatesGenerator(us, r, resources, native);
            !g.run.ending.Waiting? ==>
              && g.close.Some? && g.close.value.resource.closed && r.id !in g.close.value.resources
              && (g.close.value.native <==> !r.closed)
              && (g.close.value.report.Threw? <==> !r.closed && native.Fail?)
              && !g.close.value.report.Called?
  {
  }

  /**
    Closing the query from outside ends the corrected generator at its next
    answer, and its `finally` then makes no second native close.
   */
  lemma ClosedQueryEnds<R, E>(rest: seq<QueryAnswer<R, E>>, r: Resource, resources: set<nat>, native: Outcome<E>)
    requires r.closed
    ensures var g := QueryGenerator([Nothing] + rest, r, resources, native);
            && g.run == Run([], Returned)
            && g.close.Some? && !g.close.value.native && !g.close.value.report.Threw?
  {
  }
}
