/**
 Amp\Failure: an awaitable that has already failed with a given exception. Its
 `when` calls the callback at once with `(exception, null)` and never lets an
 exception from the callback escape: the exception is rethrown from the loop.
 */
module Failures {
  import opened Wrappers
  import opened Async
  import WhenQueues

  datatype Failure = Failure(exception: Exn)

  /** The constructor: anything that is not an exception is rejected with an InvalidArgumentException. */
  function New(reason: Value): (r: Result<Failure, Exn>)
    ensures r.Ok? <==> reason.Thrown?
    ensures r.Ok? ==> r.value.exception == reason.exn
    ensures r.Err? ==> r.error == InvalidArgument
  {
    match reason
    case Thrown(e) => Ok(Failure(e))
    case _ => Err(InvalidArgument)
  }

  /** The failure as the coroutine driver sees it: an awaitable already rejected with the stored exception. */
  function AsAwaitable(f: Failure): (a: Awaitable)
    ensures a.Rejected? && a.reason == f.exception
    ensures Delivery(a) == Some(Notification(Some(f.exception), Null))
  {
    Rejected(f.exception)
  }

  /**
   `when($onResolved)`: the callback is called exactly once, synchronously, with
   the stored exception and `null`; if it throws, exactly one rethrow of that
   exception is deferred to the loop, and otherwise nothing is.
   */
  function When(f: Failure, onResolved: Callback): (r: Invocation)
    ensures r.calls == [Call(onResolved, Some(f.exception), Null)]
    ensures onResolved.run(Some(f.exception), Null).None? ==> r.deferred == []
    ensures onResolved.run(Some(f.exception), Null).Some? ==>
      r.deferred == [Rethrow(onResolved.run(Some(f.exception), Null).value)]
  {
    var n := Delivery(AsAwaitable(f)).value;
    var call := Call(onResolved, n.exception, n.value);
    Invocation([call], match Threw(call) case Some(t) => [Rethrow(t)] case None => [])
  }

  /** Calling `when` once per callback, in order, on the same failure. */
  function WhenEach(f: Failure, callbacks: seq<Callback>): (r: Invocation)
    ensures |r.calls| == |callbacks|
    ensures forall i :: 0 <= i < |callbacks| ==>
      r.calls[i] == Call(callbacks[i], Some(f.exception), Null)
    ensures r.deferred == Rethrows(r.calls)
  {
    if callbacks == [] then Invocation([], [])
    else
      var first := When(f, callbacks[0]);
      var rest := WhenEach(f, callbacks[1..]);
      assert Rethrows(first.calls) == first.deferred by {
        assert first.calls[1..] == [];
      }
      RethrowsAppend(first.calls, rest.calls);
      Invocation(first.calls + rest.calls, first.deferred + rest.deferred)
  }

  /** Building a failure from an exception and reading it back gives that exception. */
  lemma NewRoundTrip(e: Exn)
    ensures New(Thrown(e)).Ok? && New(Thrown(e)).value.exception == e
    ensures AsAwaitable(New(Thrown(e)).value) == Rejected(e)
  {
  }

  /** A failure notifies one callback exactly as a WhenQueue holding just that callback would, given the reason. */
  lemma WhenAsQueue(f: Failure, onResolved: Callback)
    ensures When(f, onResolved)
         == WhenQueues.InvokeEntries(WhenQueues.New(Some(WhenQueues.Fn(onResolved))).queue, Some(f.exception), Null)
  {
    var es := [WhenQueues.Fn(onResolved)];
    assert es[1..] == [];
  }

  /** The flat queue entries holding `callbacks` in order. */
  function Entries(callbacks: seq<Callback>): (es: seq<WhenQueues.Callable>)
    ensures |es| == |callbacks| && WhenQueues.Flat(es)
    ensures forall i :: 0 <= i < |es| ==> es[i] == WhenQueues.Fn(callbacks[i])
  {
    seq(|callbacks|, i requires 0 <= i < |callbacks| => WhenQueues.Fn(callbacks[i]))
  }

  /**
   Repeated `when` calls on one failure behave like the corrected queue
   invocation: every callback sees the stored exception, even after an earlier
   callback threw.
   */
  lemma {:induction false} WhenEachAsIsolatedQueue(f: Failure, callbacks: seq<Callback>)
    ensures WhenEach(f, callbacks)
         == WhenQueues.InvokeIsolated(Entries(callbacks), Some(f.exception), Null)
  {
    var es := Entries(callbacks);
    WhenQueues.FlatLeaves(es);
    var a := WhenEach(f, callbacks);
    var b := WhenQueues.InvokeIsolated(es, Some(f.exception), Null);
    assert a.calls == b.calls;
  }
}
