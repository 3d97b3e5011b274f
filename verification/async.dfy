/**
 The vocabulary shared by the awaitable implementations: exceptions, PHP values,
 awaitables as the coroutine driver sees them, callbacks, and the event loop's
 queue of deferred tasks (`Loop::defer` is the only loop operation modelled).
 */
module Async {
  import opened Wrappers

  /** Exceptions. `\Throwable` and `\Exception` are one type here. */
  datatype Exn =
    | UserError(id: nat)    // any exception raised by application code
    | InvalidYield          // Amp\InvalidYieldException
    | InvalidArgument       // \InvalidArgumentException
    | NoReturnValue         // what Generator::getReturn() throws when the generator did not return

  /** A PHP value, as far as the core inspects it. */
  datatype Value =
    | Null
    | Int(i: int)
    | Str(s: string)
    | Thrown(exn: Exn)            // an exception object used as a value
    | Await(awaitable: Awaitable) // an object implementing Interop\Async\Awaitable

  /**
   An awaitable, classified by what its `when` does with a callback: a settled
   one calls it at once with its outcome, a pending one stores it until it settles.
   */
  datatype Awaitable =
    | Succeeded(value: Value)
    | Rejected(reason: Exn)
    | Pending(id: nat)

  /** The `($exception, $value)` pair an awaitable's `when` passes to a callback. */
  datatype Notification = Notification(exception: Option<Exn>, value: Value)

  /**
   The call a settled awaitable makes synchronously from `when`, or None when the
   awaitable is still pending. A failed awaitable passes `(reason, null)`.
   */
  function Delivery(a: Awaitable): (n: Option<Notification>)
    ensures n.None? <==> a.Pending?
    ensures a.Rejected? ==> n == Some(Notification(Some(a.reason), Null))
    ensures a.Succeeded? ==> n == Some(Notification(None, a.value))
  {
    match a
    case Succeeded(v) => Some(Notification(None, v))
    case Rejected(e) => Some(Notification(Some(e), Null))
    case Pending(_) => None
  }

  /**
   A callback `function ($exception, $value)`. Its behaviour is abstract: `run`
   says which exception, if any, it throws for a given argument pair.
   */
  datatype Callback = Callback(name: nat, run: (Option<Exn>, Value) -> Option<Exn>)

  /** One invocation of a callback, with the arguments it received. */
  datatype Call = Call(callee: Callback, exception: Option<Exn>, value: Value)

  /** The exception the invocation `c` threw, if any. */
  function Threw(c: Call): (e: Option<Exn>)
  {
    c.callee.run(c.exception, c.value)
  }

  /** A task handed to `Loop::defer`. */
  datatype Task =
    | Rethrow(error: Exn)                              // rethrows `error` when the loop runs it
    | Reinvoke(exception: Option<Exn>, value: Value)   // a coroutine continuation re-invoked later

  /** The rethrow tasks a sequence of calls leaves on the loop: one per throwing call, in call order. */
  function Rethrows(calls: seq<Call>): (ts: seq<Task>)
    ensures |ts| <= |calls|
    ensures forall t :: t in ts ==> t.Rethrow?
  {
    if calls == [] then []
    else
      var head := match Threw(calls[0]) case Some(e) => [Rethrow(e)] case None => [];
      head + Rethrows(calls[1..])
  }

  lemma {:induction false} RethrowsAppend(a: seq<Call>, b: seq<Call>)
    ensures Rethrows(a + b) == Rethrows(a) + Rethrows(b)
  {
    if a == [] {
      assert a + b == b;
    } else {
      assert (a + b)[1..] == a[1..] + b;
      RethrowsAppend(a[1..], b);
    }
  }

  /**
   What invoking a set of callbacks did: the calls made, in order, and the tasks
   deferred to the loop, in order.
   */
  datatype Invocation = Invocation(calls: seq<Call>, deferred: seq<Task>)

  /** `Loop::defer`: the task runs on a later turn, after every task already queued. */
  function Defer(loop: seq<Task>, t: Task): (q: seq<Task>)
    ensures |q| == |loop| + 1 && q[..|loop|] == loop && q[|loop|] == t
  {
    loop + [t]
  }
}
