/** `UnhandledExceptionsFilterAttribute`: after the action has run, an
    escaped exception is dispatched through the handler table, logged and
    turned into the action's result. The framework objects become plain
    records and logging becomes the list of entries written. */
module ExceptionsFilter {
  import opened Wrappers
  import opened ExceptionTypes
  import opened Dispatch
  import opened Diagnostics

  /** Bad Request, section 15.5.1 of RFC 9110. */
  const BadRequest: int := 400
  /** Internal Server Error, section 15.6.1 of RFC 9110. */
  const InternalServerError: int := 500

  const CancelledMessage: string := "Request was cancelled"

  /** The hosting environment's name, as `IsDevelopment` and `IsStaging`
      classify it; `Other` is any custom name. */
  datatype EnvironmentName = Development | Staging | Production | Other

  /** `IsDevelopment() || IsStaging()`: the environments where exception
      detail may reach the client. */
  predicate ShowsExceptionDetail(environment: EnvironmentName) {
    environment == Development || environment == Staging
  }

  /** The injected `ILogger<UnhandledExceptionsFilterAttribute>`. */
  datatype Logger = Logger(category: string)

  /** A thrown exception: its runtime type and what a client could learn
      from it. */
  datatype ExceptionInfo = ExceptionInfo(runtimeType: ExceptionType, message: string, stackTrace: string)

  datatype LogLevel = Warning | Error

  /** One call of the logger: level, text, and the exception passed beside
      the text. */
  datatype LogEntry = LogEntry(level: LogLevel, text: string, exception: Option<ExceptionInfo>)

  /** The value of an `ObjectResult`: an `ApiErrorResponse` (kept opaque
      beyond its two constructor arguments) or a plain string. */
  datatype ResponseBody =
    | ApiErrorResponse(message: string, exception: ExceptionInfo)
    | PlainText(text: string)

  /** The two results the filter sets: a bare status code, or a status code
      with a body. */
  datatype ActionResult =
    | StatusCodeResult(statusCode: int)
    | ObjectResult(statusCode: int, body: ResponseBody)
  {
    function Status(): int {
      match this
      case StatusCodeResult(s) => s
      case ObjectResult(s, _) => s
    }
  }

  /** What the filter reads from `ActionExecutingContext`: the request when
      the HTTP context has one, and the action arguments. A null argument
      dictionary is the empty sequence; both skip the parameters section. */
  datatype ExecutingContext<V> = ExecutingContext(request: Option<Request>, arguments: seq<Argument<V>>)

  /** `ActionExecutedContext.Exception`: null when the action completed. */
  datatype ActionOutcome = Completed | Faulted(exception: ExceptionInfo)

  /** What one run of the filter did: the log entries written, the
      `ExceptionHandled` flag and the `Result` it set (`None` when it left
      the result alone). */
  datatype FilterEffect = FilterEffect(log: seq<LogEntry>, exceptionHandled: bool, result: Option<ActionResult>)

  /** Invoking the null handler of `FirstOrDefault`'s default value. */
  datatype Fault = NullReferenceException

  /** The constructor's guard failure, naming the null parameter. */
  datatype ArgumentNullException = ArgumentNullException(paramName: string)

  /** A constructed filter: its collaborators and its handler table. */
  datatype Filter = Filter(environment: EnvironmentName, logger: Logger, handlers: seq<HandlerEntry>)

  /** The table is the one the constructor registers. */
  predicate Configured(f: Filter) {
    f.handlers == HandlerTable()
  }

  /** The constructor: null collaborators are refused, the environment
      before the logger; otherwise the handler table is registered. */
  function NewFilter(environment: Option<EnvironmentName>, logger: Option<Logger>)
    : (r: Result<Filter, ArgumentNullException>)
    ensures r.Success? <==> environment.Some? && logger.Some?
    ensures environment.None? ==> r == Failure(ArgumentNullException("hostingEnvironment"))
    ensures environment.Some? && logger.None? ==> r == Failure(ArgumentNullException("logger"))
    ensures r.Success? ==>
              && r.value.environment == environment.value
              && r.value.logger == logger.value
              && Configured(r.value)
              && CatchAllLast(r.value.handlers)
  {
    if environment.None? then Failure(ArgumentNullException("hostingEnvironment"))
    else if logger.None? then Failure(ArgumentNullException("logger"))
    else Success(Filter(environment.value, logger.value, HandlerTable()))
  }

  /** The result the fallback handler sets, gated by the environment. */
  function ErrorResult(environment: EnvironmentName, exception: ExceptionInfo): ActionResult {
    if ShowsExceptionDetail(environment)
    then ObjectResult(InternalServerError, ApiErrorResponse(UnhandledMessage, exception))
    else ObjectResult(InternalServerError, PlainText(UnhandledMessage))
  }

  /** Outside Development and Staging the response carries nothing of the
      exception: two different exceptions give the same result. Inside them
      the exception is handed to the body whole. */
  lemma ErrorResultGate(environment: EnvironmentName, e1: ExceptionInfo, e2: ExceptionInfo)
    ensures ErrorResult(environment, e1).Status() == InternalServerError
    ensures !ShowsExceptionDetail(environment) ==>
              ErrorResult(environment, e1) == ErrorResult(environment, e2)
              && ErrorResult(environment, e1).body == PlainText(UnhandledMessage)
    ensures ShowsExceptionDetail(environment) ==>
              ErrorResult(environment, e1).body == ApiErrorResponse(UnhandledMessage, e1)
    ensures ShowsExceptionDetail(environment) && e1 != e2 ==>
              ErrorResult(environment, e1) != ErrorResult(environment, e2)
  {
  }

  /** `HandleOperationCanceledException`. */
  function HandleOperationCanceled(): FilterEffect {
    FilterEffect([LogEntry(Warning, CancelledMessage, None)], true, Some(StatusCodeResult(BadRequest)))
  }

  /** `HandleException`: the diagnostic text at error level with the
      exception beside it, then the environment-gated result. */
  function HandleException<V>(f: Filter, context: ExecutingContext<V>, exception: ExceptionInfo, serialize: V -> string)
    : FilterEffect
  {
    FilterEffect([LogEntry(Error, Message(context.request, context.arguments, serialize), Some(exception))],
                 true,
                 Some(ErrorResult(f.environment, exception)))
  }

  function RunHandler<V>(handler: Handler, f: Filter, context: ExecutingContext<V>, exception: ExceptionInfo,
                         serialize: V -> string): FilterEffect
  {
    match handler
    case HandleOperationCanceled => HandleOperationCanceled()
    case HandleException => HandleException(f, context, exception, serialize)
  }

  /** `OnActionExecutionAsync` after `next()` has completed with `outcome`. */
  function OnActionExecution<V>(f: Filter, context: ExecutingContext<V>, outcome: ActionOutcome,
                                serialize: V -> string): (r: Result<FilterEffect, Fault>)
    ensures outcome.Completed? ==> r == Success(FilterEffect([], false, None))
    ensures r.Failure? <==> outcome.Faulted? && SelectHandler(f.handlers, outcome.exception.runtimeType).None?
    ensures outcome.Faulted? && r.Success? ==>
              && |r.value.log| == 1
              && r.value.exceptionHandled
              && r.value.result.Some?
  {
    match outcome
    case Completed => Success(FilterEffect([], false, None))
    case Faulted(e) =>
      match SelectHandler(f.handlers, e.runtimeType)
      case None => Failure(NullReferenceException)
      case Some(h) => Success(RunHandler(h, f, context, e, serialize))
  }

  /** A constructed filter handles every exception: the null default handler
      is never invoked. The serializer is total here; a serializer that
      throws is not part of this model. */
  lemma ConfiguredFilterNeverFaults<V>(f: Filter, context: ExecutingContext<V>, outcome: ActionOutcome,
                                       serialize: V -> string)
    requires Configured(f)
    requires outcome.Faulted? ==> IsExceptionType(outcome.exception.runtimeType)
    ensures OnActionExecution(f, context, outcome, serialize).Success?
  {
    if outcome.Faulted? {
      HandlerTableIsTotal(outcome.exception.runtimeType);
    }
  }

  /** A cancellation, or anything derived from it, is answered with a bare
      400 and a single warning without the exception, whatever the
      environment, request or arguments. */
  lemma CancellationOutcome<V>(f: Filter, context: ExecutingContext<V>, e: ExceptionInfo, serialize: V -> string)
    requires Configured(f)
    requires IsAssignableFrom(OperationCanceledException, e.runtimeType)
    ensures OnActionExecution(f, context, Faulted(e), serialize)
            == Success(FilterEffect([LogEntry(Warning, "Request was cancelled", None)],
                                    true, Some(StatusCodeResult(400))))
  {
    WellKnownTypes();
    DerivedFromExceptionIsException(OperationCanceledException, e.runtimeType);
    HandlerTableRouting(e.runtimeType);
  }

  /** Any other exception is answered with a 500 and a single error entry
      whose text is the diagnostic message and which carries the exception
      beside the text; the body shows the exception only in Development and
      Staging. */
  lemma FallbackOutcome<V>(f: Filter, context: ExecutingContext<V>, e: ExceptionInfo, serialize: V -> string)
    requires Configured(f)
    requires IsExceptionType(e.runtimeType)
    requires !IsAssignableFrom(OperationCanceledException, e.runtimeType)
    ensures var r := OnActionExecution(f, context, Faulted(e), serialize);
      && r.Success?
      && r.value.log == [LogEntry(Error, Message(context.request, context.arguments, serialize), Some(e))]
      && r.value.exceptionHandled
      && r.value.result.Some?
      && r.value.result.value.Status() == 500
      && (ShowsExceptionDetail(f.environment) ==>
            r.value.result.value.body == ApiErrorResponse("Unhandled exception has occurred", e))
      && (!ShowsExceptionDetail(f.environment) ==>
            r.value.result.value.body == PlainText("Unhandled exception has occurred"))
  {
    HandlerTableRouting(e.runtimeType);
  }

  /** The level of the one entry tells the two paths apart: a warning
      exactly for cancellations, an error exactly for the rest. */
  lemma LogLevelClassifies<V>(f: Filter, context: ExecutingContext<V>, e: ExceptionInfo, serialize: V -> string)
    requires Configured(f)
    requires IsExceptionType(e.runtimeType)
    ensures var r := OnActionExecution(f, context, Faulted(e), serialize);
      && r.Success? && |r.value.log| == 1
      && (r.value.log[0].level == Warning <==> IsAssignableFrom(OperationCanceledException, e.runtimeType))
      && (r.value.log[0].exception.Some? <==> !IsAssignableFrom(OperationCanceledException, e.runtimeType))
  {
    if IsAssignableFrom(OperationCanceledException, e.runtimeType) {
      CancellationOutcome(f, context, e, serialize);
    } else {
      FallbackOutcome(f, context, e, serialize);
    }
  }

  /** Outside Development and Staging, what the client receives and what the
      log text says do not depend on which fallback exception was thrown: the
      exception reaches only the log entry's separate exception slot. */
  lemma FallbackHidesException<V>(f: Filter, context: ExecutingContext<V>, e1: ExceptionInfo, e2: ExceptionInfo,
                                  serialize: V -> string)
    requires Configured(f)
    requires IsExceptionType(e1.runtimeType) && !IsAssignableFrom(OperationCanceledException, e1.runtimeType)
    requires IsExceptionType(e2.runtimeType) && !IsAssignableFrom(OperationCanceledException, e2.runtimeType)
    ensures var r1 := OnActionExecution(f, context, Faulted(e1), serialize);
      var r2 := OnActionExecution(f, context, Faulted(e2), serialize);
      && r1.Success? && r2.Success?
      && r1.value.log[0].text == r2.value.log[0].text
      && (!ShowsExceptionDetail(f.environment) ==> r1.value.result == r2.value.result)
  {
    FallbackOutcome(f, context, e1, serialize);
    FallbackOutcome(f, context, e2, serialize);
  }

  /** A missing key in Production, as the service's tests raise it: a 500
      with the fixed text and one error entry. */
  lemma KeyNotFoundInProduction<V>(logger: Logger, context: ExecutingContext<V>, message: string, stackTrace: string,
                                   serialize: V -> string)
    ensures var f := Filter(Production, logger, HandlerTable());
      var e := ExceptionInfo(KeyNotFoundException, message, stackTrace);
      var r := OnActionExecution(f, context, Faulted(e), serialize);
      && r.Success?
      && r.value.result == Some(ObjectResult(500, PlainText("Unhandled exception has occurred")))
      && |r.value.log| == 1 && r.value.log[0].level == Error && r.value.log[0].exception == Some(e)
  {
    WellKnownTypes();
    var e := ExceptionInfo(KeyNotFoundException, message, stackTrace);
    FallbackOutcome(Filter(Production, logger, HandlerTable()), context, e, serialize);
  }

  /** A client timeout cancels the action's task: a 400 and one warning. */
  lemma TaskCancelledAnywhere<V>(environment: EnvironmentName, logger: Logger, context: ExecutingContext<V>,
                                 message: string, stackTrace: string, serialize: V -> string)
    ensures var f := Filter(environment, logger, HandlerTable());
      var e := ExceptionInfo(TaskCanceledException, message, stackTrace);
      var r := OnActionExecution(f, context, Faulted(e), serialize);
      && r.Success?
      && r.value.result == Some(StatusCodeResult(400))
      && r.value.log == [LogEntry(Warning, "Request was cancelled", None)]
  {
    WellKnownTypes();
    var e := ExceptionInfo(TaskCanceledException, message, stackTrace);
    CancellationOutcome(Filter(environment, logger, HandlerTable()), context, e, serialize);
  }
}
