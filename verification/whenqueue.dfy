/**
 Amp\Internal\WhenQueue: the ordered list of callbacks an awaitable notifies when
 it settles. Pushing another WhenQueue copies that queue's entries instead of
 nesting it, so invoking the queue never recurses through chains of queues.
 */
module WhenQueues {
  import opened Wrappers
  import opened Async

  /** A `callable` as `push` sees it: a plain callback, or another WhenQueue (its entries when pushed). */
  datatype Callable = Fn(cb: Callback) | Queue(entries: seq<Callable>)

  /** The queue object; `queue` is the private `$queue` array. */
  datatype WhenQueue = WhenQueue(queue: seq<Callable>)

  /** The plain callbacks reached, in order, when the entries `es` are invoked. */
  function Leaves(es: seq<Callable>): (cbs: seq<Callback>)
    decreases es
  {
    if es == [] then []
    else
      (match es[0] case Fn(cb) => [cb] case Queue(inner) => Leaves(inner)) + Leaves(es[1..])
  }

  lemma {:induction false} LeavesAppend(a: seq<Callable>, b: seq<Callable>)
    ensures Leaves(a + b) == Leaves(a) + Leaves(b)
  {
    if a == [] {
      assert a + b == b;
    } else {
      assert (a + b)[0] == a[0];
      assert (a + b)[1..] == a[1..] + b;
      LeavesAppend(a[1..], b);
    }
  }

  /** No entry is itself a queue. */
  predicate Flat(es: seq<Callable>)
  {
    forall i :: 0 <= i < |es| ==> es[i].Fn?
  }

  lemma {:induction false} FlatLeaves(es: seq<Callable>)
    requires Flat(es)
    ensures |Leaves(es)| == |es|
    ensures forall i :: 0 <= i < |es| ==> Leaves(es)[i] == es[i].cb
  {
    if es != [] {
      FlatLeaves(es[1..]);
    }
  }

  /** `push`: a WhenQueue argument is unrolled into this queue, anything else is appended. */
  function Push(q: WhenQueue, c: Callable): (r: WhenQueue)
    ensures |r.queue| >= |q.queue| && r.queue[..|q.queue|] == q.queue
    ensures c.Fn? ==> r.queue == q.queue + [c]
    ensures c.Queue? ==> r.queue[|q.queue|..] == c.entries
    ensures Leaves(r.queue) == Leaves(q.queue) + Leaves([c])
    ensures Flat(q.queue) && (c.Queue? ==> Flat(c.entries)) ==> Flat(r.queue)
  {
    match c
    case Queue(entries) =>
      LeavesAppend(q.queue, entries);
      assert Leaves([c]) == Leaves(entries) + Leaves([]);
      assert (q.queue + entries)[|q.queue|..] == entries;
      WhenQueue(q.queue + entries)
    case Fn(_) =>
      LeavesAppend(q.queue, [c]);
      WhenQueue(q.queue + [c])
  }

  /** The constructor: an empty queue, or the result of pushing the initial callback. */
  function New(callback: Option<Callable>): (q: WhenQueue)
    ensures callback.None? ==> q.queue == []
    ensures callback.Some? && callback.value.Fn? ==> q.queue == [callback.value]
    ensures callback.Some? && callback.value.Queue? ==> q.queue == callback.value.entries
    ensures Leaves(q.queue) == if callback.None? then [] else Leaves([callback.value])
  {
    match callback
    case None => WhenQueue([])
    case Some(c) => Push(WhenQueue([]), c)
  }

  /**
   How a queue came to be: the sequence of `push` calls made on it since the
   constructor, where pushing a queue names the history of that queue in turn.
   */
  datatype Insertion = PushCallback(cb: Callback) | PushQueue(history: seq<Insertion>)

  /** The queue obtained by replaying `h` on an empty queue. */
  function Replay(h: seq<Insertion>): (q: WhenQueue)
    decreases h, 1
  {
    if h == [] then New(None)
    else Push(Replay(h[..|h| - 1]), Argument(h[|h| - 1]))
  }

  /** The callable a recorded insertion passed to `push`. */
  function Argument(i: Insertion): (c: Callable)
    decreases i, 0
  {
    match i
    case PushCallback(cb) => Fn(cb)
    case PushQueue(h) => Queue(Replay(h).queue)
  }

  /** Every queue built only through `push` is flat: no stored entry is a WhenQueue. */
  lemma {:induction false} ReplayIsFlat(h: seq<Insertion>)
    ensures Flat(Replay(h).queue)
    decreases h
  {
    if h != [] {
      ReplayIsFlat(h[..|h| - 1]);
      var last := h[|h| - 1];
      match last
      case PushCallback(_) =>
      case PushQueue(inner) =>
        ReplayIsFlat(inner);
    }
  }

  /**
   `__invoke($exception, $value)` as written: every callback is called in order with
   `$value`; a callback that throws `t` has a rethrow of `t` deferred to the loop,
   and because the `catch` clause reuses the name `$exception`, every later
   callback is passed `t` as its exception argument. A nested queue entry is
   invoked as a whole and never throws.
   */
  function InvokeEntries(es: seq<Callable>, exception: Option<Exn>, value: Value): (r: Invocation)
    ensures |r.calls| == |Leaves(es)|
    ensures forall i :: 0 <= i < |r.calls| ==> r.calls[i].callee == Leaves(es)[i] && r.calls[i].value == value
    ensures r.deferred == Rethrows(r.calls)
    decreases es
  {
    if es == [] then Invocation([], [])
    else
      match es[0]
      case Fn(cb) =>
        var call := Call(cb, exception, value);
        var thrown := cb.run(exception, value);
        var rest := InvokeEntries(es[1..], if thrown.Some? then thrown else exception, value);
        var here := if thrown.Some? then [Rethrow(thrown.value)] else [];
        assert Rethrows([call] + rest.calls) == here + Rethrows(rest.calls) by {
          assert ([call] + rest.calls)[1..] == rest.calls;
        }
        Invocation([call] + rest.calls, here + rest.deferred)
      case Queue(inner) =>
        var sub := InvokeEntries(inner, exception, value);
        var rest := InvokeEntries(es[1..], exception, value);
        RethrowsAppend(sub.calls, rest.calls);
        Invocation(sub.calls + rest.calls, sub.deferred + rest.deferred)
  }

  /** The exception thrown by the last throwing call in `calls`, if any. */
  function LastThrown(calls: seq<Call>): (e: Option<Exn>)
  {
    if calls == [] then None
    else if Threw(calls[|calls| - 1]).Some? then Threw(calls[|calls| - 1])
    else LastThrown(calls[..|calls| - 1])
  }

  /** The exception argument a callback sees after `earlier` calls under the as-written rebinding. */
  function Rebound(original: Option<Exn>, earlier: seq<Call>): (e: Option<Exn>)
  {
    if LastThrown(earlier).Some? then LastThrown(earlier) else original
  }

  lemma {:induction false} ReboundCons(original: Option<Exn>, c: Call, cs: seq<Call>)
    ensures Rebound(original, [c] + cs) == Rebound(Rebound(original, [c]), cs)
    decreases |cs|
  {
    if cs != [] {
      var all := [c] + cs;
      assert all[..|all| - 1] == [c] + cs[..|cs| - 1];
      assert all[|all| - 1] == cs[|cs| - 1];
      ReboundCons(original, c, cs[..|cs| - 1]);
    } else {
      assert [c] + cs == [c];
    }
  }

  /** Every call in `calls` received the exception argument the as-written rebinding prescribes. */
  predicate RebindingHolds(original: Option<Exn>, calls: seq<Call>)
  {
    forall i :: 0 <= i < |calls| ==> calls[i].exception == Rebound(original, calls[..i])
  }

  /** Prepending one call to a log that follows the rebinding rule keeps it following the rule. */
  lemma ReboundPrepend(exception: Option<Exn>, call: Call, rest: seq<Call>)
    requires call.exception == exception
    requires RebindingHolds(Rebound(exception, [call]), rest)
    ensures RebindingHolds(exception, [call] + rest)
  {
    var calls := [call] + rest;
    forall i | 0 <= i < |calls|
      ensures calls[i].exception == Rebound(exception, calls[..i])
    {
      if i == 0 {
        assert calls[..0] == [];
      } else {
        assert calls[i] == rest[i - 1];
        assert calls[..i] == [call] + rest[..i - 1];
        ReboundCons(exception, call, rest[..i - 1]);
      }
    }
  }

  /**
   On a flat queue (every queue built by `push` is one, see ReplayIsFlat), a
   callback receives the original exception argument until some callback throws,
   and from then on the exception thrown most recently before it.
   */
  lemma {:induction false} InvokeRebindsException(es: seq<Callable>, exception: Option<Exn>, value: Value)
    requires Flat(es)
    ensures RebindingHolds(exception, InvokeEntries(es, exception, value).calls)
    decreases es
  {
    if es != [] {
      var cb := es[0].cb;
      var call := Call(cb, exception, value);
      var thrown := cb.run(exception, value);
      var next := if thrown.Some? then thrown else exception;
      assert Flat(es[1..]);
      InvokeRebindsException(es[1..], next, value);
      var rest := InvokeEntries(es[1..], next, value);
      assert InvokeEntries(es, exception, value).calls == [call] + rest.calls;
      assert next == Rebound(exception, [call]) by {
        assert [call][..0] == [];
        assert Threw(call) == thrown;
        assert LastThrown([call]) == if thrown.Some? then thrown else LastThrown([]);
      }
      ReboundPrepend(exception, call, rest.calls);
    }
  }

  /**
   The evidently intended `__invoke`: each callback's exception is isolated, so
   every callback receives the original `($exception, $value)` pair.
   */
  function InvokeIsolated(es: seq<Callable>, exception: Option<Exn>, value: Value): (r: Invocation)
    ensures |r.calls| == |Leaves(es)|
    ensures forall i :: 0 <= i < |r.calls| ==>
      r.calls[i] == Call(Leaves(es)[i], exception, value)
    ensures r.deferred == Rethrows(r.calls)
    decreases es
  {
    if es == [] then Invocation([], [])
    else
      var first := match es[0]
        case Fn(cb) =>
          var call := Call(cb, exception, value);
          assert Rethrows([call]) == Rethrows([call][1..]) + (if Threw(call).Some? then [Rethrow(Threw(call).value)] else []) by {
            assert [call][1..] == [];
          }
          Invocation([call], Rethrows([call]))
        case Queue(inner) => InvokeIsolated(inner, exception, value);
      var rest := InvokeIsolated(es[1..], exception, value);
      RethrowsAppend(first.calls, rest.calls);
      assert Leaves(es) == Leaves([es[0]]) + Leaves(es[1..]) by {
        LeavesAppend([es[0]], es[1..]);
        assert [es[0]] + es[1..] == es;
      }
      Invocation(first.calls + rest.calls, first.deferred + rest.deferred)
  }

  /** When no callback throws, the as-written and the corrected invocation agree. */
  lemma {:induction false} InvokeAgreesWithoutThrows(es: seq<Callable>, exception: Option<Exn>, value: Value)
    requires forall c :: c in Leaves(es) ==> c.run(exception, value).None?
    ensures InvokeEntries(es, exception, value) == InvokeIsolated(es, exception, value)
    decreases es
  {
    if es != [] {
      LeavesAppend([es[0]], es[1..]);
      assert [es[0]] + es[1..] == es;
      match es[0]
      case Fn(cb) =>
        assert Leaves(es)[0] == cb;
        InvokeAgreesWithoutThrows(es[1..], exception, value);
      case Queue(inner) =>
        InvokeAgreesWithoutThrows(inner, exception, value);
        InvokeAgreesWithoutThrows(es[1..], exception, value);
    }
  }

  /** A callback that always throws `UserError(1)`, and one that never throws. */
  const Thrower := Callback(1, (e: Option<Exn>, v: Value) => Some(UserError(1)))
  const Quiet := Callback(2, (e: Option<Exn>, v: Value) => None)

  /**
   The rebinding as written: the queue `[Thrower, Quiet]` invoked for a successful
   resolution with value 42 tells `Quiet` that the awaitable failed with
   `UserError(1)`; the corrected invocation passes it `(null, 42)`.
   */
  lemma SuccessReportedAsFailure()
    ensures InvokeEntries([Fn(Thrower), Fn(Quiet)], None, Int(42)).calls[1]
         == Call(Quiet, Some(UserError(1)), Int(42))
    ensures InvokeIsolated([Fn(Thrower), Fn(Quiet)], None, Int(42)).calls[1]
         == Call(Quiet, None, Int(42))
  {
    var es := [Fn(Thrower), Fn(Quiet)];
    assert es[1..] == [Fn(Quiet)];
    assert es[1..][1..] == [];
  }
}
