# Unhandled-exceptions filter, modelled in Dafny

This project models `UnhandledExceptionsFilterAttribute`, an ASP.NET Core action filter. It runs after every controller action. If the action threw, the filter looks the exception's runtime type up in an ordered handler table and takes the first entry whose type `IsAssignableFrom` it. The chosen handler writes one log entry, marks the exception handled and sets the action's result:

- **Cancellation.** An `OperationCanceledException`, or any type derived from it, produces a warning "Request was cancelled" and a bare 400 (Bad Request, section 15.5.1 of RFC 9110).
- **Anything else.** The fallback handler logs a multi-line diagnostic text at error level, with the exception passed beside the text. It answers 500 (Internal Server Error, section 15.6.1 of RFC 9110). The body is an `ApiErrorResponse` carrying the exception in Development and Staging, and the bare text "Unhandled exception has occurred" in every other environment.

If the action completed normally, the filter does nothing.

Files, one module each:

- `wrappers.dfy` (`Wrappers`): `Option` for values that may be null, `Result` for operations that may throw.
- `exception_types.dfy` (`ExceptionTypes`): exception types, each with its chain of base classes; `IsAssignableFrom` as reflexive-transitive ancestry; the well-known .NET exception types.
- `dispatch.dfy` (`Dispatch`): the handler table, the `FirstOrDefault` search, and totality of the search.
- `diagnostics.dfy` (`Diagnostics`): the diagnostic log text, in three forms:
  - as lines with their exact positions;
  - as the `StringBuilder` loops (methods);
  - split back into lines.
- `filter.dfy` (`ExceptionsFilter`): the constructor, the two handlers, the environment gate and `OnActionExecutionAsync`.

The filter is a pure function. It takes the filter, the executing context (an optional request snapshot plus the action arguments), the action's outcome and a serializer. It returns the log entries written, the `ExceptionHandled` flag and the result set. A `NullReferenceException` stands for invoking the null handler of `FirstOrDefault`'s default value; a lemma shows a constructed filter never reaches it.

Details of the code that the model keeps:

- **Headers need a request.** The headers section is printed only when a request is present, because the code nests it inside the request check.
- **Header values are strings.** Each header value is the text of its `StringValues`.
- **Environment check.** The environment is classified by `IsDevelopment()` / `IsStaging()`. Every name other than those two gets the plain body.
- **Fault at request time.** The search for a handler happens per request. A table with no matching entry would fault with a `NullReferenceException` there, and the model keeps that fault. The table the constructor registers provably never triggers it.

## Model

| member | source | states |
|---|---|---|
| ExceptionTypes.IsAssignableFrom | src/Infrastructure/Web/ExceptionsHandling/UnhandledExceptionsFilterAttribute.cs:109 | the type is the category or derives from it; its meaning is stated by AssignableIffAncestor, AssignableTransitive and AssignableAntisymmetric |
| Dispatch.HandlerTable | src/Infrastructure/Web/ExceptionsHandling/UnhandledExceptionsFilterAttribute.cs:92-97 | cancellation first, catch-all last; stated by HandlerTableIsTotal and HandlerTableRouting |
| Dispatch.SelectHandler | src/Infrastructure/Web/ExceptionsHandling/UnhandledExceptionsFilterAttribute.cs:108-110 | the handler of the first accepting entry, or none; stated by CatchAllLastIsTotal and HandlerTableRouting |
| Diagnostics.Message | src/Infrastructure/Web/ExceptionsHandling/UnhandledExceptionsFilterAttribute.cs:48-70 | the logged text; stated by MessageRequestLayout, MessageParameterLayout, MessageStartsWithHeader and MessageSplitsIntoSections |
| ExceptionsFilter.ErrorResult | src/Infrastructure/Web/ExceptionsHandling/UnhandledExceptionsFilterAttribute.cs:73-79 | the environment-gated fallback result; stated by ErrorResultGate |
| ExceptionsFilter.HandleOperationCanceled | src/Infrastructure/Web/ExceptionsHandling/UnhandledExceptionsFilterAttribute.cs:36-42 | the cancellation handler; stated by CancellationOutcome |
| ExceptionsFilter.HandleException | src/Infrastructure/Web/ExceptionsHandling/UnhandledExceptionsFilterAttribute.cs:44-80 | the fallback handler; stated by FallbackOutcome and FallbackHidesException |
| ExceptionTypes.AssignableIffAncestor | src/Infrastructure/Web/ExceptionsHandling/UnhandledExceptionsFilterAttribute.cs:107-109 | a registered type accepts the runtime type exactly when it is that type or one of its base classes |
| ExceptionTypes.AssignableTransitive | src/Infrastructure/Web/ExceptionsHandling/UnhandledExceptionsFilterAttribute.cs:109 | if A accepts B and B accepts C, then A accepts C, so a handler for a category also catches subtypes of its subtypes |
| ExceptionTypes.AssignableAntisymmetric | src/Infrastructure/Web/ExceptionsHandling/UnhandledExceptionsFilterAttribute.cs:109 | two distinct types never accept each other, so overlapping categories are strictly ordered |
| ExceptionTypes.WellKnownTypes | src/Infrastructure/Web/ExceptionsHandling/UnhandledExceptionsFilterAttribute.cs:95-96 | cancellation and the tests' exception types derive from System.Exception; TaskCanceledException derives from OperationCanceledException; KeyNotFoundException and System.Exception do not |
| Dispatch.FirstMatch | src/Infrastructure/Web/ExceptionsHandling/UnhandledExceptionsFilterAttribute.cs:108-109 | the search returns an entry that accepts the type and no earlier entry accepts it; it returns the default exactly when no entry accepts the type |
| Dispatch.CatchAllLastIsTotal | src/Infrastructure/Web/ExceptionsHandling/UnhandledExceptionsFilterAttribute.cs:92-97 | any table whose last entry is System.Exception finds a handler for every exception type |
| Dispatch.HandlerTableIsTotal | src/Infrastructure/Web/ExceptionsHandling/UnhandledExceptionsFilterAttribute.cs:92-97 | the registered table ends in the catch-all, so its null default handler is unreachable |
| Dispatch.HandlerTableRouting | src/Infrastructure/Web/ExceptionsHandling/UnhandledExceptionsFilterAttribute.cs:95-96 | with the registered table, the cancellation handler is chosen exactly for cancellation and its subtypes, and the fallback exactly for every other exception |
| Dispatch.EarlierEntryWins | src/Infrastructure/Web/ExceptionsHandling/UnhandledExceptionsFilterAttribute.cs:108-109 | in any table, an accepting entry is chosen over every later entry, however specific the later one is |
| Dispatch.FirstMatchIsNotMostSpecific | src/Infrastructure/Web/ExceptionsHandling/UnhandledExceptionsFilterAttribute.cs:107-110 | example: with the catch-all registered ahead of cancellation, a cancellation goes to the catch-all |
| Diagnostics.HeaderLines | src/Infrastructure/Web/ExceptionsHandling/UnhandledExceptionsFilterAttribute.cs:57-58 | one "tab key:value" line per header, in order |
| Diagnostics.ArgumentLines | src/Infrastructure/Web/ExceptionsHandling/UnhandledExceptionsFilterAttribute.cs:64-68 | for each argument, in order, a "tab key:" line followed by the serialised value |
| Diagnostics.RequestLines | src/Infrastructure/Web/ExceptionsHandling/UnhandledExceptionsFilterAttribute.cs:49-60 | method and Uri lines only with a request; a "Headers:" line and the header lines only when that request has headers |
| Diagnostics.ParameterLines | src/Infrastructure/Web/ExceptionsHandling/UnhandledExceptionsFilterAttribute.cs:61-69 | a "Parameters:" line and the argument lines only when there are arguments |
| Diagnostics.MessageRequestLayout | src/Infrastructure/Web/ExceptionsHandling/UnhandledExceptionsFilterAttribute.cs:46-60 | line count of the whole text; the fixed message first; method, Uri and header lines at their positions only when present |
| Diagnostics.MessageParameterLayout | src/Infrastructure/Web/ExceptionsHandling/UnhandledExceptionsFilterAttribute.cs:61-69 | the parameters section follows the request section, with key and value lines at their positions |
| Diagnostics.MessageStartsWithHeader | src/Infrastructure/Web/ExceptionsHandling/UnhandledExceptionsFilterAttribute.cs:46-48 | the text always opens with "Unhandled exception has occurred" on its own line |
| Diagnostics.AppendHeaders | src/Infrastructure/Web/ExceptionsHandling/UnhandledExceptionsFilterAttribute.cs:57-58 | the header loop appends exactly the rendered header lines |
| Diagnostics.AppendArguments | src/Infrastructure/Web/ExceptionsHandling/UnhandledExceptionsFilterAttribute.cs:64-68 | the argument loop appends exactly the rendered argument lines |
| Diagnostics.BuildMessage | src/Infrastructure/Web/ExceptionsHandling/UnhandledExceptionsFilterAttribute.cs:46-69 | the builder sequence produces the text defined section by section |
| Diagnostics.MessageSplitsIntoSections | src/Infrastructure/Web/ExceptionsHandling/UnhandledExceptionsFilterAttribute.cs:48-70 | when no field holds a line feed, splitting the logged text into lines gives back the fixed message, the request section and the parameters section, in that order |
| ExceptionsFilter.NewFilter | src/Infrastructure/Web/ExceptionsHandling/UnhandledExceptionsFilterAttribute.cs:82-99 | a null environment is refused first and a null logger second, each naming its parameter; otherwise the filter keeps both and registers a table ending in the catch-all |
| ExceptionsFilter.ErrorResultGate | src/Infrastructure/Web/ExceptionsHandling/UnhandledExceptionsFilterAttribute.cs:73-79 | the status is always 500; outside Development and Staging the result is the plain text and the same for every exception; inside them the body carries the exception itself |
| ExceptionsFilter.OnActionExecution | src/Infrastructure/Web/ExceptionsHandling/UnhandledExceptionsFilterAttribute.cs:101-111 | a completed action leaves no log, no handled flag and no result; a failure either faults for lack of a handler or writes exactly one entry, marks the exception handled and sets a result |
| ExceptionsFilter.ConfiguredFilterNeverFaults | src/Infrastructure/Web/ExceptionsHandling/UnhandledExceptionsFilterAttribute.cs:107-110 | a constructed filter never invokes the null default handler |
| ExceptionsFilter.CancellationOutcome | src/Infrastructure/Web/ExceptionsHandling/UnhandledExceptionsFilterAttribute.cs:36-42 | a cancellation produces exactly one warning "Request was cancelled" with no exception, handled = true and a bare 400, in every environment |
| ExceptionsFilter.FallbackOutcome | src/Infrastructure/Web/ExceptionsHandling/UnhandledExceptionsFilterAttribute.cs:44-80 | any other exception produces exactly one error entry: its text is the diagnostic message and it carries the exception; handled = true and status 500; the body is the ApiErrorResponse in Development and Staging and the plain text elsewhere |
| ExceptionsFilter.LogLevelClassifies | src/Infrastructure/Web/ExceptionsHandling/UnhandledExceptionsFilterAttribute.cs:36-80 | the single entry is a warning exactly for cancellations and carries an exception exactly for the others |
| ExceptionsFilter.FallbackHidesException | src/Infrastructure/Web/ExceptionsHandling/UnhandledExceptionsFilterAttribute.cs:70-79 | the log text never depends on the exception; outside Development and Staging neither does the result |
| ExceptionsFilter.KeyNotFoundInProduction | test/Web.Tests/ValuesControllerTests.cs:155-166 | a missing key in Production gives a 500 with the fixed text and one error entry carrying the exception |
| ExceptionsFilter.TaskCancelledAnywhere | test/Web.Tests/ValuesControllerTests.cs:31-46 | a cancelled task gives a 400 and one warning in every environment |

## Left out

- ASP.NET plumbing. The async `next()` delegate, the filter contexts and the result classes are not modelled. The outcome of `next()` is an input, and the result is a plain record. `ObjectResult.DeclaredType` follows from the body variant and is not recorded.
- Serialization. `JsonConvert.SerializeObject` with the default settings becomes the `serialize` parameter. Its output is not modelled.
- Request details. `GetDisplayUrl` is given as a string, and `StringValues` formatting as the header's value string.
- Null collections. A null header collection or a null argument dictionary prints exactly what an empty one does, so both are empty sequences.
- Line ends. `Environment.NewLine` is a line feed. On Windows it is a carriage return plus a line feed.
- Environment names. `IsDevelopment` / `IsStaging` compare names case-insensitively. The model uses an enumeration, with `Other` for custom names.
- `ApiErrorResponse`. Its internals are not part of this model. It is kept as its two constructor arguments.
- ExceptionsFilter.ConfiguredFilterNeverFaults: the serializer is a total function, so the model does not cover a `JsonConvert.SerializeObject` call that throws (a throwing property getter, say). In the code such a throw escapes `HandleException` before `LogError` runs: nothing is logged, `ExceptionHandled` stays false and no result is set.
- ExceptionsFilter.FallbackOutcome: "exactly one error entry" likewise assumes the serializer returns for every argument value; a throwing serializer is not modelled.
- Environment snapshot. The environment is copied into the filter when it is constructed. The code asks the injected `IHostingEnvironment` on every failure, so a change to its name after construction is not modelled.
- Logging. The logger sink and its output are not modelled, nor is a failure inside the logger, which would propagate uncaught. The log is the list of entries the filter writes.
- Type system. Exception types are compared through class inheritance only; interfaces and generic types are not modelled.
- Determinism. No separate lemma states it: every member is a function of its inputs, so composing twice from the same inputs gives the same result.
- Concurrency and timeouts. The filter only observes a cancellation; it never starts one.
- `src/Web.Client/ServicesClients/AccountControllerClient.cs` is not part of this model. It is an HTTP client over the network.
