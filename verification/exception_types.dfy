/** The runtime types of .NET exceptions and the `Type.IsAssignableFrom`
    relation the filter uses to compare them.

    A type is identified by its full name together with its chain of base
    classes, so a hierarchy is finite and acyclic by construction. Only class
    inheritance matters for exception types; interfaces and generic types are
    not modelled. */
module ExceptionTypes {
  import opened Wrappers

  datatype ExceptionType = ExceptionType(name: string, base: Option<ExceptionType>)

  /** `System.Exception`, the base of every type that can be thrown. */
  const ExceptionRoot := ExceptionType("System.Exception", None)
  const SystemException := ExceptionType("System.SystemException", Some(ExceptionRoot))
  const OperationCanceledException :=
    ExceptionType("System.OperationCanceledException", Some(SystemException))
  const TaskCanceledException :=
    ExceptionType("System.Threading.Tasks.TaskCanceledException", Some(OperationCanceledException))
  const KeyNotFoundException :=
    ExceptionType("System.Collections.Generic.KeyNotFoundException", Some(SystemException))

  /** `category.IsAssignableFrom(t)` for class types: `t` is `category` or
      derives from it through its base classes. */
  predicate IsAssignableFrom(category: ExceptionType, t: ExceptionType)
    decreases t
  {
    category == t || (t.base.Some? && IsAssignableFrom(category, t.base.value))
  }

  /** A type that may be thrown: it derives from `System.Exception`. */
  predicate IsExceptionType(t: ExceptionType) {
    IsAssignableFrom(ExceptionRoot, t)
  }

  /** The type itself followed by its base classes, most derived first. */
  function Ancestors(t: ExceptionType): (r: seq<ExceptionType>)
    decreases t
    ensures |r| > 0 && r[0] == t
  {
    [t] + (match t.base
           case None => []
           case Some(b) => Ancestors(b))
  }

  /** Length of the base-class chain above `t`. */
  function Depth(t: ExceptionType): nat
    decreases t
  {
    match t.base
    case None => 0
    case Some(b) => 1 + Depth(b)
  }

  /** Assignability is exactly membership in the ancestor chain. */
  lemma {:induction false} AssignableIffAncestor(category: ExceptionType, t: ExceptionType)
    ensures IsAssignableFrom(category, t) <==> category in Ancestors(t)
    decreases t
  {
    match t.base
    case None =>
    case Some(b) =>
      AssignableIffAncestor(category, b);
  }

  lemma {:induction false} AssignableTransitive(a: ExceptionType, b: ExceptionType, c: ExceptionType)
    requires IsAssignableFrom(a, b) && IsAssignableFrom(b, c)
    ensures IsAssignableFrom(a, c)
    decreases c
  {
    if b != c {
      AssignableTransitive(a, b, c.base.value);
    }
  }

  /** A category is never deeper in the hierarchy than a type it accepts,
      and is equally deep only when it is that type. */
  lemma {:induction false} AssignableDepth(category: ExceptionType, t: ExceptionType)
    requires IsAssignableFrom(category, t)
    ensures Depth(category) <= Depth(t)
    ensures Depth(category) == Depth(t) ==> category == t
    decreases t
  {
    if category != t {
      AssignableDepth(category, t.base.value);
    }
  }

  /** Two distinct types never accept each other. */
  lemma AssignableAntisymmetric(a: ExceptionType, b: ExceptionType)
    requires IsAssignableFrom(a, b) && IsAssignableFrom(b, a)
    ensures a == b
  {
    AssignableDepth(a, b);
    AssignableDepth(b, a);
  }

  /** A type deriving from `System.Exception` through an exception category
      is itself an exception type. */
  lemma DerivedFromExceptionIsException(category: ExceptionType, t: ExceptionType)
    requires IsExceptionType(category) && IsAssignableFrom(category, t)
    ensures IsExceptionType(t)
  {
    AssignableTransitive(ExceptionRoot, category, t);
  }

  /** The well-known types used by the filter and by the service's tests are
      exception types; cancellation by a task derives from
      `OperationCanceledException`, a missing key does not. */
  lemma WellKnownTypes()
    ensures IsExceptionType(OperationCanceledException)
    ensures IsExceptionType(TaskCanceledException)
    ensures IsExceptionType(KeyNotFoundException)
    ensures IsAssignableFrom(OperationCanceledException, TaskCanceledException)
    ensures !IsAssignableFrom(OperationCanceledException, KeyNotFoundException)
    ensures !IsAssignableFrom(OperationCanceledException, ExceptionRoot)
  {
    assert IsAssignableFrom(ExceptionRoot, SystemException);
    assert IsAssignableFrom(ExceptionRoot, OperationCanceledException);
    assert IsAssignableFrom(ExceptionRoot, TaskCanceledException);
    assert IsAssignableFrom(ExceptionRoot, KeyNotFoundException);
    assert !IsAssignableFrom(OperationCanceledException, SystemException);
  }
}
