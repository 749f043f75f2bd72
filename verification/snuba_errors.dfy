/**
 The error translator of the data export: `handle_snuba_errors(logger)` wraps
 an export operation; a query-engine failure it recognises is reported
 (a `dataexport.error` metric, a warning log, an error capture) and replaced
 by an `ExportError` carrying one of six fixed user-facing messages, while any
 other failure propagates untouched.

 The wrapped call is modelled by its already-computed outcome, and the three
 observability collaborators by the events of a returned trace.
 */
module SnubaErrors {
  import opened Wrappers

  /** A failure raised by the wrapped operation. The exception class
      hierarchy is not part of this model, so the failure records, for each
      class an `except` clause or an `isinstance` test names, whether the
      failure is an instance of it; no flag implies another. `text` is the
      failure's text form (`six.text_type(error)`), or None when computing it
      raises (under Python 2, `unicode(error)` of a failure whose message is a
      non-ASCII byte string raises UnicodeDecodeError). */
  datatype Failure = Failure(
    text: Option<string>,
    invalidSearchQuery: bool,          // discover.InvalidSearchQuery
    queryOutsideRetention: bool,       // snuba.QueryOutsideRetentionError
    queryIllegalTypeOfArgument: bool,  // snuba.QueryIllegalTypeOfArgument
    snubaError: bool,                  // snuba.SnubaError
    rateLimitExceeded: bool,           // snuba.RateLimitExceeded
    queryMemoryLimitExceeded: bool,    // snuba.QueryMemoryLimitExceeded
    queryTooManySimultaneous: bool,    // snuba.QueryTooManySimultaneous
    unqualifiedQueryError: bool,       // snuba.UnqualifiedQueryError
    queryExecutionError: bool,         // snuba.QueryExecutionError
    schemaValidationError: bool        // snuba.SchemaValidationError
  )

  /** What the wrapped operation did: returned a value or raised a failure. */
  datatype Outcome<R> = Ok(value: R) | Raised(failure: Failure)

  /** An observable side effect: `metrics.incr`, `logger.warn`,
      `capture_exception`. */
  datatype Event =
    | Metric(key: string, tags: map<string, string>, sampleRate: real)
    | Warn(logger: string, message: string)
    | Capture(failure: Failure)

  /** What the caller of the wrapped operation observes. */
  datatype Handled<R> =
    | Returned(value: R)
    | Export(message: string, trace: seq<Event>)  // ExportError(message), after the trace
    | Propagated(failure: Failure)                 // the original failure, re-raised untouched
    | TextError(failure: Failure)                  // rendering the text of `failure` raised; that error escapes

  const MetricKey := "dataexport.error"
  const InvalidQueryMessage := "Invalid query. Please fix the query and try again."
  const InvalidDateRangeMessage := "Invalid date range. Please try a more recent date range."
  const WrongArgumentTypeMessage := "Invalid query. Argument to function is wrong type."
  const TimeoutMessage := "Query timeout. Please try again. If the problem persists try a smaller date range or fewer projects."
  const QueryFailedMessage := "Internal error. Your query failed to run."
  const GenericMessage := "Internal error. Please try again."

  /** The six messages an ExportError raised here can carry. */
  const ExportMessages: set<string> := {
    InvalidQueryMessage, InvalidDateRangeMessage, WrongArgumentTypeMessage,
    TimeoutMessage, QueryFailedMessage, GenericMessage
  }

  /** The events of one caught failure: the tagged metric at sample rate 1.0,
      the warning log of the failure's text, the capture of the failure. */
  function ReportTrace(logger: string, f: Failure): seq<Event>
    requires f.text.Some?
  {
    [ Metric(MetricKey, map["error" := f.text.value], 1.0),
      Warn(logger, "dataexport.error: " + f.text.value),
      Capture(f) ]
  }

  /** The events the caller's run emitted. */
  function Trace<R>(h: Handled<R>): seq<Event> {
    if h.Export? then h.trace else []
  }

  /** True iff one of the four `except` clauses catches `f`. */
  predicate Caught(f: Failure) {
    f.invalidSearchQuery || f.queryOutsideRetention || f.queryIllegalTypeOfArgument || f.snubaError
  }

  /** The message chosen inside the `except snuba.SnubaError` clause: the
      timeout group is tested before the query-failed group, and a SnubaError
      in neither group keeps the default message. */
  function SnubaMessage(f: Failure): (m: string)
    ensures m in {TimeoutMessage, QueryFailedMessage, GenericMessage}
    ensures m == TimeoutMessage <==>
              f.rateLimitExceeded || f.queryMemoryLimitExceeded || f.queryTooManySimultaneous
    ensures m == QueryFailedMessage <==>
              && !(f.rateLimitExceeded || f.queryMemoryLimitExceeded || f.queryTooManySimultaneous)
              && (f.unqualifiedQueryError || f.queryExecutionError || f.schemaValidationError)
  {
    if f.rateLimitExceeded || f.queryMemoryLimitExceeded || f.queryTooManySimultaneous then
      TimeoutMessage
    else if f.unqualifiedQueryError || f.queryExecutionError || f.schemaValidationError then
      QueryFailedMessage
    else
      GenericMessage
  }

  /** The body of a clause: renders the text of `f` (the first thing the
      clause evaluates, so nothing is emitted when that raises), emits the
      report and raises ExportError(message). */
  function Report<R>(logger: string, f: Failure, message: string): Handled<R> {
    if f.text.None? then TextError(f) else Export(message, ReportTrace(logger, f))
  }

  /** `wrapped`: the try block and its four `except` clauses, tried in order. */
  function Wrapped<R>(logger: string, o: Outcome<R>): (h: Handled<R>)
    // success: the value comes back unchanged and nothing is emitted
    ensures o.Ok? ==> h == Returned(o.value) && Trace(h) == []
    // a failure no clause catches propagates as it is, with nothing emitted
    ensures o.Raised? && !Caught(o.failure) ==> h == Propagated(o.failure) && Trace(h) == []
    // a caught failure whose text renders is reported exactly once, in
    // order, then replaced by an ExportError whose message is one of the six
    // fixed messages
    ensures o.Raised? && Caught(o.failure) && o.failure.text.Some? ==>
              && h.Export?
              && h.trace == ReportTrace(logger, o.failure)
              && h.message in ExportMessages
    // a caught failure whose text cannot be rendered: the rendering error
    // escapes before anything is emitted and no ExportError is raised
    ensures o.Raised? && Caught(o.failure) && o.failure.text.None? ==>
              h == TextError(o.failure) && Trace(h) == []
    // the caller never sees a query-engine failure that a clause names
    ensures h.Propagated? ==> !Caught(h.failure)
    // first match wins
    ensures h.Export? ==> o.Raised? && o.failure.text.Some?
    ensures h.Export? && o.failure.invalidSearchQuery ==> h.message == InvalidQueryMessage
    ensures h.Export? && !o.failure.invalidSearchQuery && o.failure.queryOutsideRetention ==>
              h.message == InvalidDateRangeMessage
    ensures h.Export? && !o.failure.invalidSearchQuery && !o.failure.queryOutsideRetention
            && o.failure.queryIllegalTypeOfArgument ==>
              h.message == WrongArgumentTypeMessage
    ensures h.Export? && !o.failure.invalidSearchQuery && !o.failure.queryOutsideRetention
            && !o.failure.queryIllegalTypeOfArgument ==>
              o.failure.snubaError && h.message == SnubaMessage(o.failure)
  {
    match o
    case Ok(v) => Returned(v)
    case Raised(f) =>
      if f.invalidSearchQuery then
        Report(logger, f, InvalidQueryMessage)
      else if f.queryOutsideRetention then
        Report(logger, f, InvalidDateRangeMessage)
      else if f.queryIllegalTypeOfArgument then
        Report(logger, f, WrongArgumentTypeMessage)
      else if f.snubaError then
        Report(logger, f, SnubaMessage(f))
      else
        Propagated(f)
  }

  // ---------------------------------------------------------------------
  // The ordered classification table: an independent, table-driven
  // statement of which message a failure gets.

  /** The rows of the table, most specific first. */
  datatype Category =
    | InvalidQuery        // invalid search query syntax
    | OutsideRetention    // date range outside the retention window
    | IllegalArgumentType // illegal argument type passed to a query function
    | Timeout             // rate limit, memory limit, too many simultaneous queries
    | QueryFailed         // unqualified query, execution failure, schema validation failure
    | Generic             // any other query-engine failure

  const Table: seq<Category> :=
    [InvalidQuery, OutsideRetention, IllegalArgumentType, Timeout, QueryFailed, Generic]

  function Message(c: Category): string {
    match c
    case InvalidQuery => InvalidQueryMessage
    case OutsideRetention => InvalidDateRangeMessage
    case IllegalArgumentType => WrongArgumentTypeMessage
    case Timeout => TimeoutMessage
    case QueryFailed => QueryFailedMessage
    case Generic => GenericMessage
  }

  /** Whether the failure belongs to the category of a row. The last three
      rows are the query-engine failure family (SnubaError). */
  predicate Matches(c: Category, f: Failure) {
    match c
    case InvalidQuery => f.invalidSearchQuery
    case OutsideRetention => f.queryOutsideRetention
    case IllegalArgumentType => f.queryIllegalTypeOfArgument
    case Timeout =>
      f.snubaError && (f.rateLimitExceeded || f.queryMemoryLimitExceeded || f.queryTooManySimultaneous)
    case QueryFailed =>
      f.snubaError && (f.unqualifiedQueryError || f.queryExecutionError || f.schemaValidationError)
    case Generic => f.snubaError
  }

  /** The first row of `rows` that `f` matches, if any. */
  function FirstMatch(f: Failure, rows: seq<Category>): (r: Option<Category>)
    ensures r.None? <==> forall i :: 0 <= i < |rows| ==> !Matches(rows[i], f)
    ensures r.Some? ==>
              exists k :: 0 <= k < |rows| && rows[k] == r.value && Matches(rows[k], f)
                && forall i :: 0 <= i < k ==> !Matches(rows[i], f)
  {
    if |rows| == 0 then None
    else if Matches(rows[0], f) then Some(rows[0])
    else
      FirstMatch(f, rows[1..])
  }

  /** The table's verdict for a failure. */
  function Classify(f: Failure): Option<Category> {
    FirstMatch(f, Table)
  }

  /** The try/except chain agrees with the table: a failure the table
      classifies raises that row's message after the report (or, when its
      text cannot be rendered, the rendering error), and a failure the table
      does not classify propagates with nothing emitted. */
  lemma WrappedFollowsTable<R>(logger: string, f: Failure)
    ensures Classify(f).Some? && f.text.Some? ==>
              Wrapped<R>(logger, Raised(f)) == Export(Message(Classify(f).value), ReportTrace(logger, f))
    ensures Classify(f).Some? && f.text.None? ==> Wrapped<R>(logger, Raised(f)) == TextError(f)
    ensures Classify(f).None? ==> Wrapped<R>(logger, Raised(f)) == Propagated(f)
  {
    var r := Classify(f);
    if r.Some? {
      var k :| 0 <= k < |Table| && Table[k] == r.value && Matches(Table[k], f)
               && forall i :: 0 <= i < k ==> !Matches(Table[i], f);
      if k > 0 { assert !Matches(Table[0], f); }
      if k > 1 { assert !Matches(Table[1], f); }
      if k > 2 { assert !Matches(Table[2], f); }
      if k > 3 { assert !Matches(Table[3], f); }
      if k > 4 { assert !Matches(Table[4], f); }
    } else {
      assert !Matches(Table[0], f) && !Matches(Table[1], f) && !Matches(Table[2], f);
      assert !Matches(Table[5], f);
    }
  }
}
