/** `io.github.eliahburns.partition.PartitionMap`: the per-element outcome of
    applying a user action, and the worker that maps the action over the
    elements one partition receives. An action is modelled by what it does
    with each element: it returns a value or throws. */
module PartitionMap {
  import opened Lang

  /** `MapActionException(element, cause)`: the failure wrapper that keeps
      the element whose action threw. */
  datatype MapActionException<E> = MapActionException(element: E, cause: Throwable)

  /** `MapEither`: exactly one of a failure (`Left`) or a result (`Right`). */
  datatype MapEither<E, R> = Left(failure: MapActionException<E>) | Right(value: R)

  /** `tryAction(element, action)`: a returned value becomes `Right`, an
      `Exception` becomes `Left` carrying the element and the cause, and a
      throwable that is not an `Exception` escapes. */
  function TryAction<E, R>(element: E, action: E -> Completion<R>): (r: Completion<MapEither<E, R>>)
    ensures action(element).Normal? ==> r == Normal(Right(action(element).value))
    ensures action(element).Thrown? && action(element).thrown.IsException() ==>
              r == Normal(Left(MapActionException(element, action(element).thrown)))
    ensures action(element).Thrown? && !action(element).thrown.IsException() ==>
              r == Thrown(action(element).thrown)
    ensures r.Normal? <==> (action(element).Normal? || action(element).thrown.IsException())
  {
    match action(element)
    case Normal(v) => Normal(Right(v))
    case Thrown(t) =>
      if t.IsException() then Normal(Left(MapActionException(element, t))) else Thrown(t)
  }

  /** `tryAction` as written, on a nullable element: the `catch` block
      casts the element with `element as Any`, so when the element is
      null and its action threw an `Exception`, the cast throws
      `TypeCastException` and nothing catches it. In every other case it
      is `TryAction`, which keeps a null element in its failure as
      `mapAndMergePartitions` does. */
  function TryActionAsWritten<T, R>(element: Option<T>, action: Option<T> -> Completion<R>)
    : (r: Completion<MapEither<Option<T>, R>>)
    ensures element.Some? ==> r == TryAction(element, action)
    ensures element.None? && action(element).Thrown? && action(element).thrown.IsException() ==>
              r == Thrown(TypeCastException)
    ensures !(action(element).Thrown? && action(element).thrown.IsException()) ==> r == TryAction(element, action)
  {
    match action(element)
    case Normal(v) => Normal(Right(v))
    case Thrown(t) =>
      if !t.IsException() then Thrown(t)
      else if element.None? then Thrown(TypeCastException)
      else Normal(Left(MapActionException(element, t)))
  }

  /** A null element whose action throws an `Exception`: `TryAction` gives
      a `Left` holding the null element and the cause, while as written
      the cast throws `TypeCastException`, which escapes and ends the
      partition's worker. */
  lemma NullElementCastEscapes()
    ensures var action := (e: Option<int>) => if e.None? then Thrown(UserException("no value")) else Normal(e.value);
            && TryAction(None, action) == Normal(Left(MapActionException(None, UserException("no value"))))
            && TryActionAsWritten(None, action) == Thrown(TypeCastException)
            && !Escapes(None, action)
  {
  }

  /** Whether the action on `element` throws something `tryAction` does not catch. */
  predicate Escapes<E, R>(element: E, action: E -> Completion<R>) {
    action(element).Thrown? && !action(element).thrown.IsException()
  }

  /** What a partition's worker has done after reading the given elements:
      the outcomes it emitted, in order, and the throwable that ended it, if
      one escaped `tryAction`. */
  datatype WorkerRun<E, R> = WorkerRun(emitted: seq<MapEither<E, R>>, escaped: Option<Throwable>)

  /** The worker, stated element by element: each element yields its
      `tryAction` outcome, until an element's action throws something that
      is not an `Exception`, which ends the worker. */
  function Work<E, R>(elements: seq<E>, action: E -> Completion<R>): (run: WorkerRun<E, R>)
    ensures |run.emitted| <= |elements|
  {
    if elements == [] then WorkerRun([], None)
    else
      match TryAction(elements[0], action)
      case Thrown(t) => WorkerRun([], Some(t))
      case Normal(outcome) =>
        var rest := Work(elements[1..], action);
        WorkerRun([outcome] + rest.emitted, rest.escaped)
  }

  /** The worker loop of `mapAndFlattenToChannel`: for each element of the
      partition, in the order received, emit `tryAction(element, action)`.
      A throwable `tryAction` does not catch ends the loop. */
  method RunWorker<E, R>(elements: seq<E>, action: E -> Completion<R>)
    returns (emitted: seq<MapEither<E, R>>, escaped: Option<Throwable>)
    ensures WorkerRun(emitted, escaped) == Work(elements, action)
  {
    emitted, escaped := [], None;
    var i := 0;
    while i < |elements|
      invariant 0 <= i <= |elements|
      invariant Work(elements, action)
             == var rest := Work(elements[i..], action); WorkerRun(emitted + rest.emitted, rest.escaped)
    {
      assert elements[i..][0] == elements[i] && elements[i..][1..] == elements[i + 1..];
      var result := TryAction(elements[i], action);
      if result.Thrown? {
        escaped := Some(result.thrown);
        return;
      }
      emitted := emitted + [result.value];
      i := i + 1;
    }
    assert elements[i..] == [];
  }

  /** Failure isolation: when no action throws past `tryAction`, the worker
      emits exactly one outcome per element, in the elements' order; a
      failing element becomes a `Left` holding that element and does not
      stop the elements after it. */
  lemma {:induction false} WorkIsOneOutcomePerElement<E, R>(elements: seq<E>, action: E -> Completion<R>)
    requires forall j :: 0 <= j < |elements| ==> !Escapes(elements[j], action)
    ensures Work(elements, action).escaped == None
    ensures |Work(elements, action).emitted| == |elements|
    ensures forall j :: 0 <= j < |elements| ==>
              Normal(Work(elements, action).emitted[j]) == TryAction(elements[j], action)
    ensures forall j :: 0 <= j < |elements| ==>
              (Work(elements, action).emitted[j].Left? <==> action(elements[j]).Thrown?)
  {
    if elements != [] {
      var rest := elements[1..];
      assert forall j :: 0 <= j < |rest| ==> rest[j] == elements[j + 1];
      WorkIsOneOutcomePerElement(rest, action);
    }
  }

  /** When some action throws past `tryAction`, the worker has emitted the
      outcomes of exactly the elements before the first such one, and the
      throwable it ends with is that element's. */
  lemma {:induction false} WorkStopsAtFirstEscape<E, R>(elements: seq<E>, action: E -> Completion<R>, k: nat)
    requires k < |elements| && Escapes(elements[k], action)
    requires forall j :: 0 <= j < k ==> !Escapes(elements[j], action)
    ensures Work(elements, action).escaped == Some(action(elements[k]).thrown)
    ensures Work(elements, action).emitted == Work(elements[..k], action).emitted
    ensures |Work(elements, action).emitted| == k
  {
    if k > 0 {
      var rest := elements[1..];
      assert rest[..k - 1] == elements[..k][1..];
      assert forall j :: 0 <= j < k - 1 ==> rest[j] == elements[j + 1];
      WorkStopsAtFirstEscape(rest, action, k - 1);
      WorkIsOneOutcomePerElement(elements[..k], action);
    }
  }

  /** An identity action that throws an `Exception` on 2, over the
      partition `1, 2, 3`: the worker emits `Right(1)`, the failure of 2
      with its cause, then `Right(3)`, and ends normally. */
  lemma FailureIsolationExample()
    ensures var action := (x: int) => if x == 2 then Thrown(UserException("failed")) else Normal(x);
            Work([1, 2, 3], action)
            == WorkerRun([Right(1), Left(MapActionException(2, UserException("failed"))), Right(3)], None)
  {
  }
}
