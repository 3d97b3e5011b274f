/**
 PHP's \Generator, reduced to what the coroutine driver uses: `current()`,
 `send()`, `throw()`, `valid()` and `getReturn()`.

 The generator's body is abstract: `script` maps the history of inputs it has
 received so far to what it does next (yield an item, return a value, or raise
 an exception). `bound` caps how many inputs it can receive before it stops
 yielding, which gives the driver and the dispose loop a decreasing measure.
 */
module Generators {
  import opened Wrappers
  import opened Async

  /** What the generator is resumed with. `Start` is the first, implicit advance done by `current()`. */
  datatype Input = Start | Send(value: Value) | Throw(error: Exn)

  /** What the generator does after an input: suspend at a `yield`, `return`, or let an exception escape. */
  datatype Output = Yield(item: Value) | Return(value: Value) | Raise(error: Exn)

  datatype Generator = Generator(script: seq<Input> -> Output, trace: seq<Input>, bound: nat)

  /** The generator has run up to its first `yield` (or further). */
  predicate Started(g: Generator)
  {
    |g.trace| > 0
  }

  /** What the generator did in response to its last input. */
  function Out(g: Generator): (o: Output)
    requires Started(g)
  {
    g.script(g.trace)
  }

  /** `valid()`: the generator is suspended at a `yield`. */
  predicate Valid(g: Generator)
  {
    Started(g) && g.script(g.trace).Yield?
  }

  /** No history of `bound` or more inputs leaves the generator suspended. */
  ghost predicate Terminating(g: Generator)
  {
    forall h: seq<Input> {:trigger g.script(h)} :: |h| >= g.bound ==> !g.script(h).Yield?
  }

  /** How many more inputs the generator can take before it must have finished. */
  function Remaining(g: Generator): (n: nat)
  {
    if |g.trace| < g.bound then g.bound - |g.trace| else 0
  }

  /** `current()`: runs a fresh generator to its first `yield`; a started one is left as it is. */
  function Current(g: Generator): (r: Generator)
    ensures Started(r) && r.script == g.script && r.bound == g.bound
    ensures Started(g) ==> r == g
    ensures !Started(g) ==> r.trace == [Start]
    ensures Terminating(g) ==> Terminating(r)
  {
    if Started(g) then g else g.(trace := [Start])
  }

  /**
   `send($v)` / `throw($e)`: resumes a suspended generator, which then runs to its
   next `yield`, its `return`, or an escaping exception.
   */
  function Resume(g: Generator, input: Input): (r: Generator)
    requires Valid(g)
    ensures Started(r) && r.script == g.script && r.bound == g.bound
    ensures r.trace == g.trace + [input]
    ensures Terminating(g) ==> Terminating(r) && Remaining(r) < Remaining(g)
  {
    g.(trace := g.trace + [input])
  }

  /** `getReturn()`: the returned value, or the exception PHP throws when the generator did not return. */
  function GetReturn(g: Generator): (r: Result<Value, Exn>)
    requires Started(g) && !Valid(g)
    ensures r.Ok? <==> Out(g).Return?
    ensures r.Ok? ==> r.value == Out(g).value
    ensures r.Err? ==> r.error == NoReturnValue
  {
    match Out(g)
    case Return(v) => Ok(v)
    case _ => Err(NoReturnValue)
  }
}
