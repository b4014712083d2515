/** The filter's handler table and its first-match dispatch
    (`UnhandledExceptionsFilterAttribute`, constructor and
    `OnActionExecutionAsync`). */
module Dispatch {
  import opened Wrappers
  import opened ExceptionTypes

  /** The two private handler methods of the filter. */
  datatype Handler = HandleOperationCanceled | HandleException

  /** One `(Type, Action<ExceptionHandlingContext>)` pair of the table. */
  datatype HandlerEntry = HandlerEntry(category: ExceptionType, handler: Handler)

  /** The table as the constructor registers it: cancellation first, the
      catch-all `System.Exception` last. */
  function HandlerTable(): seq<HandlerEntry> {
    [ HandlerEntry(OperationCanceledException, HandleOperationCanceled),
      HandlerEntry(ExceptionRoot, HandleException) ]
  }

  /** The last entry accepts every exception type. */
  predicate CatchAllLast(table: seq<HandlerEntry>) {
    |table| > 0 && table[|table| - 1].category == ExceptionRoot
  }

  /** `FirstOrDefault(x => x.Item1.IsAssignableFrom(t))` as an index into the
      table; `None` is the default value, whose handler is null. */
  function FirstMatch(table: seq<HandlerEntry>, t: ExceptionType): (r: Option<nat>)
    ensures r.Some? ==> r.value < |table| && IsAssignableFrom(table[r.value].category, t)
    ensures r.Some? ==> forall j :: 0 <= j < r.value ==> !IsAssignableFrom(table[j].category, t)
    ensures r.None? <==> forall j :: 0 <= j < |table| ==> !IsAssignableFrom(table[j].category, t)
  {
    if |table| == 0 then None
    else if IsAssignableFrom(table[0].category, t) then Some(0)
    else
      match FirstMatch(table[1..], t)
      case None => None
      case Some(i) => Some(i + 1)
  }

  /** The handler chosen for a runtime type, `None` when the search falls
      through to the default. */
  function SelectHandler(table: seq<HandlerEntry>, t: ExceptionType): Option<Handler> {
    match FirstMatch(table, t)
    case None => None
    case Some(i) => Some(table[i].handler)
  }

  /** A table ending in the catch-all never falls through to the default for
      a type that may be thrown. */
  lemma CatchAllLastIsTotal(table: seq<HandlerEntry>, t: ExceptionType)
    requires CatchAllLast(table) && IsExceptionType(t)
    ensures FirstMatch(table, t).Some?
    ensures SelectHandler(table, t).Some?
  {
    assert IsAssignableFrom(table[|table| - 1].category, t);
  }

  /** The registered table ends in the catch-all, so its default (null)
      handler is unreachable for every exception. */
  lemma HandlerTableIsTotal(t: ExceptionType)
    requires IsExceptionType(t)
    ensures CatchAllLast(HandlerTable())
    ensures SelectHandler(HandlerTable(), t).Some?
  {
    CatchAllLastIsTotal(HandlerTable(), t);
  }

  /** With the registered table, cancellation and every type derived from it
      go to the cancellation handler, every other exception to the
      fallback. */
  lemma HandlerTableRouting(t: ExceptionType)
    requires IsExceptionType(t)
    ensures SelectHandler(HandlerTable(), t) == Some(HandleOperationCanceled)
            <==> IsAssignableFrom(OperationCanceledException, t)
    ensures SelectHandler(HandlerTable(), t) == Some(HandleException)
            <==> !IsAssignableFrom(OperationCanceledException, t)
  {
    HandlerTableIsTotal(t);
  }

  /** Dispatch takes the first accepting entry, not the most specific one:
      an accepting entry shadows every later entry, however much deeper in the
      hierarchy the later entry's category lies. */
  lemma EarlierEntryWins(table: seq<HandlerEntry>, t: ExceptionType, i: nat, j: nat)
    requires i < j < |table|
    requires IsAssignableFrom(table[i].category, t)
    ensures FirstMatch(table, t).Some?
    ensures FirstMatch(table, t).value <= i < j
  {
  }

  /** An instance of the rule above: a catch-all registered ahead of
      cancellation would swallow cancellations. */
  lemma FirstMatchIsNotMostSpecific()
    ensures SelectHandler([ HandlerEntry(ExceptionRoot, HandleException),
                       HandlerEntry(OperationCanceledException, HandleOperationCanceled) ],
                     OperationCanceledException)
            == Some(HandleException)
  {
    WellKnownTypes();
  }
}
