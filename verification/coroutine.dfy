/**
 Amp\Coroutine: drives a generator that yields awaitables. Each yielded
 awaitable is subscribed to with the coroutine's continuation; when it settles,
 its value is sent into the generator or its failure reason is thrown into it.
 The coroutine resolves with the generator's return value, or fails.

 The state below gathers the coroutine's private fields with the parts of its
 surroundings the driver touches: its own settlement (`result`, standing for the
 Placeholder trait), the awaitables it has subscribed to, the pending awaitable
 currently holding its continuation, and the event loop's deferred-task queue.
 */
module Coroutines {
  import opened Wrappers
  import opened Async
  import opened Generators
  import Failures

  /** Immediate continuations allowed on the call stack before the next one is deferred to the loop. */
  const MaxContinuationDepth: nat := 3

  /** How the coroutine settled. */
  datatype Outcome = Resolved(value: Value) | Failed(reason: Exn)

  datatype Coroutine = Coroutine(
    gen: Generator,
    depth: nat,                 // `$depth`: continuations currently nested on the call stack
    result: Option<Outcome>,    // the coroutine's own settlement, once it happens
    awaiting: Option<nat>,      // the pending awaitable whose `when` holds the continuation
    subscribed: seq<Awaitable>, // every awaitable passed the continuation, in order
    loop: seq<Task>)            // the event loop's queue of deferred tasks

  /** The most subscriptions one continuation entered at `depth` can make before it returns. */
  function Budget(depth: nat): (n: nat)
  {
    if depth > MaxContinuationDepth then 0 else MaxContinuationDepth + 1 - depth
  }

  predicate ExactlyOne(a: bool, b: bool, c: bool)
  {
    (a || b || c) && !(a && b) && !(a && c) && !(b && c)
  }

  /**
   What a step of the driver may change: it only feeds the generator more input,
   subscribes to at most `subscriptions` more awaitables, and defers at most one
   continuation to the loop.
   */
  ghost predicate Extends(c: Coroutine, r: Coroutine, subscriptions: nat)
  {
    && r.gen.script == c.gen.script && r.gen.bound == c.gen.bound
    && c.gen.trace <= r.gen.trace
    && c.subscribed <= r.subscribed && |r.subscribed| <= |c.subscribed| + subscriptions
    && c.loop <= r.loop && |r.loop| <= |c.loop| + 1
    && (|r.loop| > |c.loop| ==> r.loop[|c.loop|].Reinvoke?)
  }

  /**
   A coroutine with no continuation outstanding ends a step in exactly one way:
   settled (and then its generator has finished), waiting on a pending awaitable,
   or with one continuation deferred to the loop.
   */
  ghost predicate Handled(c: Coroutine, r: Coroutine)
  {
    c.result.None? && c.awaiting.None? ==>
      && (r.result.Some? <==> !Valid(r.gen))
      && ExactlyOne(r.result.Some?, r.awaiting.Some?, |r.loop| > |c.loop|)
  }

  /**
   The generator after `dispose` threw `e` into `g`: `e` was thrown one or more
   times, and exactly as long as the generator was still suspended.
   */
  ghost predicate ThrownUntilDone(g: Generator, r: Generator, e: Exn)
  {
    && r.script == g.script && r.bound == g.bound
    && |r.trace| > |g.trace| && r.trace[..|g.trace|] == g.trace
    && (forall i :: |g.trace| <= i < |r.trace| ==> r.trace[i] == Throw(e))
    && (forall k :: |g.trace| < k < |r.trace| ==> g.script(r.trace[..k]).Yield?)
    && !Valid(r)
  }

  /** The `do { throw } while (valid())` loop of `dispose`. */
  function ThrowUntilDone(g: Generator, e: Exn): (r: Generator)
    requires Valid(g) && Terminating(g)
    ensures ThrownUntilDone(g, r, e)
    decreases Remaining(g)
  {
    var next := Resume(g, Throw(e));
    if Valid(next) then
      var r := ThrowUntilDone(next, e);
      assert r.trace[..|g.trace|] == g.trace by {
        assert r.trace[..|next.trace|][..|g.trace|] == g.trace;
      }
      assert forall k :: |next.trace| < k < |r.trace| ==> g.script(r.trace[..k]).Yield?;
      assert r.trace[..|next.trace|] == next.trace;
      r
    else
      next
  }

  /**
   `dispose($exception)`: runs a suspended generator to completion by throwing the
   exception into it, then fails the coroutine with that same exception. An
   exception the generator raises while cleaning up ends the loop but is only
   chained as the previous exception; it is never the one reported.
   */
  function Dispose(c: Coroutine, e: Exn): (r: Coroutine)
    requires Started(c.gen) && Terminating(c.gen)
    ensures r.result == Some(Failed(e))
    ensures !Valid(r.gen)
    ensures Valid(c.gen) ==> ThrownUntilDone(c.gen, r.gen, e)
    ensures !Valid(c.gen) ==> r.gen == c.gen
    ensures r.depth == c.depth && r.awaiting == c.awaiting
    ensures r.subscribed == c.subscribed && r.loop == c.loop
  {
    if Valid(c.gen) then
      c.(gen := ThrowUntilDone(c.gen, e), result := Some(Failed(e)))
    else
      c.(result := Some(Failed(e)))
  }

  /** The input a continuation resumes the generator with: `throw` on an exception, `send` otherwise. */
  function ResumeInput(exception: Option<Exn>, value: Value): (i: Input)
    ensures exception.Some? <==> i.Throw?
    ensures exception.Some? ==> i.error == exception.value
    ensures exception.None? ==> i == Send(value)
  {
    match exception
    case Some(e) => Throw(e)
    case None => Send(value)
  }

  /**
   The classification shared by the constructor and the continuation, applied to
   what the generator just did. `stepped` says whether that was a fresh step (an
   exception escaping it is then thrown at the driver) or an already-started
   generator inspected by `current()`. A yielded awaitable is subscribed to with
   `$depth` incremented around the call; any other yielded value is an invalid
   yield; a finished generator resolves the coroutine with `getReturn()`. Every
   exception goes to `dispose`.
   */
  function Advance(c: Coroutine, stepped: bool): (r: Coroutine)
    requires Started(c.gen) && Terminating(c.gen)
    ensures Terminating(r.gen) && Started(r.gen)
    ensures r.depth == c.depth
    ensures Extends(c, r, 1 + Budget(c.depth + 1))
    ensures Handled(c, r)
    ensures stepped && Out(c.gen).Raise? ==>
      r == c.(result := Some(Failed(Out(c.gen).error)))
    ensures !stepped && Out(c.gen).Raise? ==>
      r == c.(result := Some(Failed(NoReturnValue)))
    ensures Valid(c.gen) && !Out(c.gen).item.Await? ==>
      && r.result == Some(Failed(InvalidYield))
      && ThrownUntilDone(c.gen, r.gen, InvalidYield)
      && r.subscribed == c.subscribed && r.loop == c.loop && r.awaiting == c.awaiting
    ensures Out(c.gen).Return? ==> r == c.(result := Some(Resolved(Out(c.gen).value)))
    ensures Valid(c.gen) && Out(c.gen).item.Await? ==>
      |r.subscribed| > |c.subscribed| && r.subscribed[|c.subscribed|] == Out(c.gen).item.awaitable
    decreases Remaining(c.gen), 3
  {
    var out := Out(c.gen);
    if stepped && out.Raise? then
      Dispose(c, out.error)
    else if Valid(c.gen) then
      if out.item.Await? then
        var r := Subscribe(c.(depth := c.depth + 1), out.item.awaitable);
        r.(depth := r.depth - 1)
      else
        Dispose(c, InvalidYield)
    else
      match GetReturn(c.gen)
      case Ok(v) => c.(result := Some(Resolved(v)))
      case Err(e) => Dispose(c, e)
  }

  /**
   `$yielded->when($this->when)`: a settled awaitable calls the continuation at
   once with its outcome; a pending one keeps it until it settles.
   */
  function Subscribe(c: Coroutine, a: Awaitable): (r: Coroutine)
    requires Valid(c.gen) && Terminating(c.gen)
    ensures Terminating(r.gen) && Started(r.gen)
    ensures r.depth == c.depth
    ensures Extends(c, r, 1 + Budget(c.depth))
    ensures |r.subscribed| > |c.subscribed| && r.subscribed[|c.subscribed|] == a
    ensures Handled(c, r)
    ensures a.Pending? ==> r == c.(subscribed := c.subscribed + [a], awaiting := Some(a.id))
    ensures !a.Pending? && c.depth <= MaxContinuationDepth ==>
      && |r.gen.trace| > |c.gen.trace|
      && r.gen.trace[|c.gen.trace|] == ResumeInput(Delivery(a).value.exception, Delivery(a).value.value)
    ensures !a.Pending? && MaxContinuationDepth < c.depth ==>
      r == c.(subscribed := c.subscribed + [a],
              loop := c.loop + [Reinvoke(Delivery(a).value.exception, Delivery(a).value.value)])
    decreases Remaining(c.gen), 2
  {
    var c' := c.(subscribed := c.subscribed + [a]);
    match Delivery(a)
    case None => c'.(awaiting := Some(a.id))
    case Some(n) => Continue(c', n.exception, n.value)
  }

  /**
   The continuation `$this->when($exception, $value)`. Past the depth bound it
   touches nothing but the loop, deferring one task that re-invokes it with the
   same arguments; otherwise it resumes the generator (`throw` when given an
   exception, `send` otherwise) and classifies the result.
   */
  function Continue(c: Coroutine, exception: Option<Exn>, value: Value): (r: Coroutine)
    requires Valid(c.gen) && Terminating(c.gen)
    ensures Terminating(r.gen) && Started(r.gen)
    ensures r.depth == c.depth
    ensures Extends(c, r, Budget(c.depth))
    ensures Handled(c, r)
    ensures MaxContinuationDepth < c.depth ==>
      r == c.(loop := c.loop + [Reinvoke(exception, value)])
    ensures c.depth <= MaxContinuationDepth ==>
      |r.gen.trace| > |c.gen.trace| && r.gen.trace[|c.gen.trace|] == ResumeInput(exception, value)
    ensures c.depth <= MaxContinuationDepth ==>
      var g := Resume(c.gen, ResumeInput(exception, value));
      && (Out(g).Return? ==> r == c.(gen := g, result := Some(Resolved(Out(g).value))))
      && (Out(g).Raise? ==> r == c.(gen := g, result := Some(Failed(Out(g).error))))
      && (Valid(g) && !Out(g).item.Await? ==>
            r.result == Some(Failed(InvalidYield)) && ThrownUntilDone(g, r.gen, InvalidYield))
      && (Valid(g) && Out(g).item.Await? ==>
            |r.subscribed| > |c.subscribed| && r.subscribed[|c.subscribed|] == Out(g).item.awaitable)
    decreases Remaining(c.gen), 1
  {
    if MaxContinuationDepth < c.depth then
      c.(loop := Defer(c.loop, Reinvoke(exception, value)))
    else
      var g := Resume(c.gen, ResumeInput(exception, value));
      Advance(c.(gen := g), true)
  }

  /** The constructor: advance the generator with `current()` and classify what it did. */
  function New(g: Generator, loop: seq<Task>): (c: Coroutine)
    requires Terminating(g)
    ensures c.depth == 0
    ensures !Started(g) ==> |c.gen.trace| >= 1 && c.gen.trace[0] == Start
    ensures Started(g) ==> g.trace <= c.gen.trace
    ensures |c.subscribed| <= MaxContinuationDepth + 1
    ensures Out(Current(g)).Return? ==> c.result == Some(Resolved(Out(Current(g)).value)) && c.gen == Current(g)
    ensures Valid(Current(g)) && Out(Current(g)).item.Await? ==>
      |c.subscribed| >= 1 && c.subscribed[0] == Out(Current(g)).item.awaitable
    ensures Valid(Current(g)) && !Out(Current(g)).item.Await? ==>
      c.result == Some(Failed(InvalidYield)) && ThrownUntilDone(Current(g), c.gen, InvalidYield)
    ensures !Started(g) && Out(Current(g)).Raise? ==>
      c.result == Some(Failed(Out(Current(g)).error)) && c.gen == Current(g)
    ensures Started(g) && Out(g).Raise? ==> c.result == Some(Failed(NoReturnValue)) && c.gen == g
  {
    Advance(Coroutine(Current(g), 0, None, None, [], loop), !Started(g))
  }

  /** How many deferred continuations of this coroutine the loop holds. */
  function ReinvokeCount(loop: seq<Task>): (n: nat)
  {
    if loop == [] then 0
    else (if loop[0].Reinvoke? then 1 else 0) + ReinvokeCount(loop[1..])
  }

  lemma {:induction false} ReinvokeCountAppend(a: seq<Task>, b: seq<Task>)
    ensures ReinvokeCount(a + b) == ReinvokeCount(a) + ReinvokeCount(b)
  {
    if a == [] {
      assert a + b == b;
    } else {
      assert (a + b)[1..] == a[1..] + b;
      ReinvokeCountAppend(a[1..], b);
    }
  }

  /**
   The state between two turns: nothing on the call stack, and the coroutine has
   settled exactly when its generator has finished. While it has not, exactly one
   continuation is outstanding, held either by a pending awaitable or by the loop;
   once it has, none is.
   */
  ghost predicate Consistent(c: Coroutine)
  {
    && Started(c.gen) && Terminating(c.gen) && c.depth == 0
    && (c.result.Some? <==> !Valid(c.gen))
    && ReinvokeCount(c.loop) + (if c.awaiting.Some? then 1 else 0) == (if c.result.None? then 1 else 0)
  }

  /** The pending awaitable holding the continuation settles and calls it with `n`. */
  function Notify(c: Coroutine, n: Notification): (r: Coroutine)
    requires Consistent(c) && c.awaiting.Some?
    ensures c.gen.trace <= r.gen.trace
    ensures |r.gen.trace| > |c.gen.trace| && r.gen.trace[|c.gen.trace|] == ResumeInput(n.exception, n.value)
    ensures |r.subscribed| <= |c.subscribed| + MaxContinuationDepth + 1
  {
    Continue(c.(awaiting := None), n.exception, n.value)
  }

  /** The loop runs its next deferred task; a continuation task resumes this coroutine. */
  function RunNext(c: Coroutine): (r: Coroutine)
    requires Consistent(c) && |c.loop| > 0
    ensures c.loop[0].Rethrow? ==> r == c.(loop := c.loop[1..])
    ensures c.loop[0].Reinvoke? ==>
      && c.gen.trace <= r.gen.trace
      && |r.gen.trace| > |c.gen.trace|
      && r.gen.trace[|c.gen.trace|] == ResumeInput(c.loop[0].exception, c.loop[0].value)
  {
    var rest := c.(loop := c.loop[1..]);
    match c.loop[0]
    case Rethrow(_) => rest
    case Reinvoke(exception, value) =>
      assert c.loop == [c.loop[0]] + c.loop[1..];
      ReinvokeCountAppend([c.loop[0]], c.loop[1..]);
      Continue(rest, exception, value)
  }

  /** A step from a state with no continuation outstanding leaves a consistent state. */
  lemma StepConsistent(c: Coroutine, r: Coroutine, subscriptions: nat)
    requires Started(c.gen) && Terminating(c.gen) && c.depth == 0
    requires c.result.None? && c.awaiting.None? && ReinvokeCount(c.loop) == 0
    requires Started(r.gen) && Terminating(r.gen) && r.depth == 0
    requires Extends(c, r, subscriptions) && Handled(c, r)
    ensures Consistent(r)
  {
    if |r.loop| > |c.loop| {
      assert r.loop == c.loop + [r.loop[|c.loop|]];
      ReinvokeCountAppend(c.loop, [r.loop[|c.loop|]]);
      assert ReinvokeCount([r.loop[|c.loop|]]) == 1 by {
        assert [r.loop[|c.loop|]][1..] == [];
      }
    } else {
      assert r.loop == c.loop;
    }
  }

  /** A new coroutine is consistent as soon as its constructor returns. */
  lemma NewConsistent(g: Generator, loop: seq<Task>)
    requires Terminating(g) && ReinvokeCount(loop) == 0
    ensures Consistent(New(g, loop))
  {
    var c := Coroutine(Current(g), 0, None, None, [], loop);
    StepConsistent(c, New(g, loop), 1 + Budget(1));
  }

  /** Settling the awaited awaitable keeps the coroutine consistent. */
  lemma NotifyConsistent(c: Coroutine, n: Notification)
    requires Consistent(c) && c.awaiting.Some?
    ensures Consistent(Notify(c, n))
  {
    var c' := c.(awaiting := None);
    StepConsistent(c', Notify(c, n), Budget(0));
  }

  /** Running the loop's next task keeps the coroutine consistent. */
  lemma RunNextConsistent(c: Coroutine)
    requires Consistent(c) && |c.loop| > 0
    ensures Consistent(RunNext(c))
  {
    assert c.loop == [c.loop[0]] + c.loop[1..];
    ReinvokeCountAppend([c.loop[0]], c.loop[1..]);
    if c.loop[0].Reinvoke? {
      StepConsistent(c.(loop := c.loop[1..]), RunNext(c), Budget(0));
    }
  }

  /**
   Subscribing to a Failure within the depth bound throws its exception into the
   generator at the suspension point.
   */
  lemma SubscribeToFailureThrows(c: Coroutine, f: Failures.Failure)
    requires Valid(c.gen) && Terminating(c.gen) && c.depth <= MaxContinuationDepth
    ensures var r := Subscribe(c, Failures.AsAwaitable(f));
      |r.gen.trace| > |c.gen.trace| && r.gen.trace[|c.gen.trace|] == Throw(f.exception)
  {
  }
}
