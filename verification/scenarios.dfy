/**
 Concrete runs of the coroutine driver: the value/error round trip through two
 already-settled awaitables, and the hand-off to the loop once four
 continuations are nested on the call stack.
 */
module Scenarios {
  import opened Wrappers
  import opened Async
  import opened Generators
  import opened Coroutines

  const X := Str("x")
  const ErrorY := UserError(7)

  /**
   A generator that yields an awaitable resolved with "x", then one failed with
   ErrorY, and does not catch ErrorY.
   */
  function TwoStepScript(h: seq<Input>): (o: Output)
  {
    if h == [Start] then Yield(Await(Succeeded(X)))
    else if h == [Start, Send(X)] then Yield(Await(Rejected(ErrorY)))
    else if h == [Start, Send(X), Throw(ErrorY)] then Raise(ErrorY)
    else Return(Null)
  }

  /** The first resume sends "x" in, the second throws ErrorY in, and the coroutine fails with ErrorY. */
  lemma UncaughtErrorFailsCoroutine()
    ensures Terminating(Generator(TwoStepScript, [], 3))
    ensures var c := New(Generator(TwoStepScript, [], 3), []);
      && c.result == Some(Failed(ErrorY))
      && c.gen.trace == [Start, Send(X), Throw(ErrorY)]
      && c.subscribed == [Succeeded(X), Rejected(ErrorY)]
      && c.loop == []
  {
    var g := Generator(TwoStepScript, [], 3);
    var c0 := Coroutine(Current(g), 0, None, None, [], []);
    assert c0.gen.trace == [Start];
    var c1 := c0.(depth := 1, subscribed := [Succeeded(X)]);
    var g2 := Resume(c1.gen, Send(X));
    assert Out(g2) == Yield(Await(Rejected(ErrorY)));
    var c2 := c1.(gen := g2, depth := 2, subscribed := [Succeeded(X), Rejected(ErrorY)]);
    var g3 := Resume(c2.gen, Throw(ErrorY));
    assert Out(g3) == Raise(ErrorY);
    var c3 := c2.(gen := g3);
    assert Advance(c3, true) == c3.(result := Some(Failed(ErrorY)));
    assert Continue(c2, Some(ErrorY), Null) == c3.(result := Some(Failed(ErrorY)));
    assert c1.subscribed + [Rejected(ErrorY)] == c2.subscribed;
    assert Subscribe(c1.(gen := g2, depth := 2), Rejected(ErrorY)) == c3.(result := Some(Failed(ErrorY)));
    assert Advance(c1.(gen := g2), true) == c3.(result := Some(Failed(ErrorY)), depth := 1);
    assert Continue(c1, None, X) == c3.(result := Some(Failed(ErrorY)), depth := 1);
    assert c0.subscribed + [Succeeded(X)] == c1.subscribed;
    assert Subscribe(c0.(depth := 1), Succeeded(X)) == c3.(result := Some(Failed(ErrorY)), depth := 1);
    assert Advance(c0, true) == c3.(result := Some(Failed(ErrorY)), depth := 0);
  }

  /** A generator that keeps yielding already-resolved awaitables, then returns. */
  function EagerScript(h: seq<Input>): (o: Output)
  {
    if |h| < 10 then Yield(Await(Succeeded(Int(|h|)))) else Return(Null)
  }

  /**
   Four continuations run on the constructor's call stack (one per depth
   1 to 4); the fourth finds the depth past the bound and defers itself to the
   loop instead of resuming the generator.
   */
  lemma DeepChainIsDeferred()
    ensures Terminating(Generator(EagerScript, [], 10))
    ensures var c := New(Generator(EagerScript, [], 10), []);
      && c.result.None? && c.depth == 0
      && c.gen.trace == [Start, Send(Int(1)), Send(Int(2)), Send(Int(3))]
      && |c.subscribed| == MaxContinuationDepth + 1
      && c.loop == [Reinvoke(None, Int(4))]
  {
    var g := Generator(EagerScript, [], 10);
    var t1 := [Start];
    var t2 := t1 + [Send(Int(1))];
    var t3 := t2 + [Send(Int(2))];
    var t4 := t3 + [Send(Int(3))];
    var a1, a2, a3, a4 := Succeeded(Int(1)), Succeeded(Int(2)), Succeeded(Int(3)), Succeeded(Int(4));
    var final := Coroutine(g.(trace := t4), 4, None, None, [a1, a2, a3, a4], [Reinvoke(None, Int(4))]);
    var c3 := Coroutine(g.(trace := t3), 3, None, None, [a1, a2, a3], []);
    assert c3.subscribed + [a4] == final.subscribed;
    assert Subscribe(c3.(gen := g.(trace := t4), depth := 4), a4) == final;
    assert Advance(c3.(gen := g.(trace := t4)), true) == final.(depth := 3);
    assert Continue(c3, None, Int(3)) == final.(depth := 3);
    var c2 := Coroutine(g.(trace := t2), 2, None, None, [a1, a2], []);
    assert c2.subscribed + [a3] == c3.subscribed;
    assert Subscribe(c2.(gen := g.(trace := t3), depth := 3), a3) == final.(depth := 3);
    assert Advance(c2.(gen := g.(trace := t3)), true) == final.(depth := 2);
    assert Continue(c2, None, Int(2)) == final.(depth := 2);
    var c1 := Coroutine(g.(trace := t1), 1, None, None, [a1], []);
    assert c1.subscribed + [a2] == c2.subscribed;
    assert Subscribe(c1.(gen := g.(trace := t2), depth := 2), a2) == final.(depth := 2);
    assert Advance(c1.(gen := g.(trace := t2)), true) == final.(depth := 1);
    assert Continue(c1, None, Int(1)) == final.(depth := 1);
    var c0 := c1.(depth := 0, subscribed := []);
    assert c0.subscribed + [a1] == c1.subscribed;
    assert Subscribe(c0.(depth := 1), a1) == final.(depth := 1);
    assert Advance(c0, true) == final.(depth := 0);
  }

  const Recovered := Str("recovered")

  /** A generator that awaits a failed awaitable, catches ErrorY and returns "recovered". */
  function CatchingScript(h: seq<Input>): (o: Output)
  {
    if h == [Start] then Yield(Await(Rejected(ErrorY)))
    else if h == [Start, Throw(ErrorY)] then Return(Recovered)
    else Return(Null)
  }

  /** An error caught inside the generator does not fail the coroutine: it resolves with the returned value. */
  lemma CaughtErrorResolvesCoroutine()
    ensures Terminating(Generator(CatchingScript, [], 2))
    ensures var c := New(Generator(CatchingScript, [], 2), []);
      c.result == Some(Resolved(Recovered)) && c.gen.trace == [Start, Throw(ErrorY)]
  {
    var g := Generator(CatchingScript, [], 2);
    var c0 := Coroutine(Current(g), 0, None, None, [], []);
    var c1 := c0.(depth := 1, subscribed := [Rejected(ErrorY)]);
    assert c0.subscribed + [Rejected(ErrorY)] == c1.subscribed;
    var g2 := Resume(c1.gen, Throw(ErrorY));
    assert Out(g2) == Return(Recovered);
    var done := c1.(gen := g2, result := Some(Resolved(Recovered)));
    assert Continue(c1, Some(ErrorY), Null) == done;
    assert Subscribe(c0.(depth := 1), Rejected(ErrorY)) == done;
    assert Advance(c0, true) == done.(depth := 0);
  }

  const CleanupError := UserError(9)

  /**
   A generator that yields a plain integer, and whose `finally` block raises
   CleanupError when the InvalidYieldException is thrown into it.
   */
  function BadYieldScript(h: seq<Input>): (o: Output)
  {
    if h == [Start] then Yield(Int(5))
    else if h == [Start, Throw(InvalidYield)] then Raise(CleanupError)
    else Return(Null)
  }

  /**
   The invalid yield fails the coroutine with InvalidYield, not with the
   exception the generator raised while cleaning up.
   */
  lemma CleanupErrorIsNotReported()
    ensures Terminating(Generator(BadYieldScript, [], 2))
    ensures var c := New(Generator(BadYieldScript, [], 2), []);
      && c.result == Some(Failed(InvalidYield))
      && c.gen.trace == [Start, Throw(InvalidYield)]
      && Out(c.gen) == Raise(CleanupError)
  {
    var g := Generator(BadYieldScript, [], 2);
    var c0 := Coroutine(Current(g), 0, None, None, [], []);
    assert Out(c0.gen) == Yield(Int(5));
    var g2 := Resume(c0.gen, Throw(InvalidYield));
    assert Out(g2) == Raise(CleanupError);
    assert ThrowUntilDone(c0.gen, InvalidYield) == g2;
  }

  /**
   A generator that yields a plain integer from inside a `try` whose `catch`
   swallows everything, for as long as its bound lets it.
   */
  function CatchAllScript(n: nat): (script: seq<Input> -> Output)
    ensures forall h :: script(h).Yield? <==> |h| < n
  {
    h => if |h| < n then Yield(Int(1)) else Return(Null)
  }

  /**
   `dispose` throws InvalidYield into a generator that catches it and yields
   again until the generator stops: with `n` inputs allowed (two or more), that
   is `n - 1` throws. Without a bound the do-while loop never ends.
   */
  lemma DisposeThrowsUntilBound(n: nat)
    requires n >= 2
    ensures Terminating(Generator(CatchAllScript(n), [], n))
    ensures var c := New(Generator(CatchAllScript(n), [], n), []);
      && c.result == Some(Failed(InvalidYield))
      && |c.gen.trace| == n
      && (forall i :: 1 <= i < n ==> c.gen.trace[i] == Throw(InvalidYield))
  {
    var g := Generator(CatchAllScript(n), [], n);
    var c := New(g, []);
    assert Out(Current(g)) == Yield(Int(1));
    assert ThrownUntilDone(Current(g), c.gen, InvalidYield);
    var last := |c.gen.trace| - 1;
    if last > 1 {
      assert CatchAllScript(n)(c.gen.trace[..last]).Yield?;
    }
  }
}
