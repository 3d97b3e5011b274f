# amp coroutine core, in Dafny

A model of three pieces of the amp asynchronous library for PHP (the
`Interop\Async` era). Each is written as immutable datatypes and pure functions:

- `Amp\Coroutine` (`coroutine.dfy`, module `Coroutines`). It drives a generator
  that yields awaitables. It subscribes its continuation to each yielded
  awaitable. The continuation sends the awaitable's value into the generator or
  throws its failure reason in. Past `MAX_CONTINUATION_DEPTH` (3) nested
  continuations, it defers itself to the event loop instead. A generator that
  yields something other than an awaitable, or that raises, goes to `dispose`.
  `dispose` throws the exception into the generator until it finishes, then
  fails the coroutine with that same exception.
- `Amp\Internal\WhenQueue` (`whenqueue.dfy`, module `WhenQueues`). This is the
  ordered callback list. `push` unrolls another queue into this one instead of
  nesting it. `__invoke` calls every callback in order. A throwing callback has
  its exception rethrown from the loop.
- `Amp\Failure` (`failure.dfy`, module `Failures`). This is an awaitable that
  has already failed. Its `when` calls the callback at once with
  `(exception, null)`. An exception from the callback is deferred to the loop.

Supporting modules:

- `Async` (`async.dfy`) holds the shared vocabulary: exceptions, values,
  awaitables, callbacks, and deferred tasks. `Loop::defer` is modelled as
  appending to a FIFO `seq<Task>`.
- `Generators` (`generator.dfy`) is an abstract `\Generator`. Its body is a
  deterministic `script` from the history of inputs it has received
  (`Start | Send(v) | Throw(e)`) to what it does next
  (`Yield(item) | Return(v) | Raise(e)`). A `bound` on that history gives the
  driver and the dispose loop a decreasing measure.
- `Scenarios` (`scenarios.dfy`) holds concrete runs of the driver.

Awaitables are classified by what their `when` does with a callback. A settled
awaitable (`Succeeded`, `Rejected`) calls it at once. A `Pending` one keeps it
until it settles, which `Coroutines.Notify` models. The coroutine's own
settlement (the `Internal\Placeholder` trait) is an `Option<Outcome>`. The driver
sets it once.

`dispose` always fails the coroutine with the exception it was given. The
`finally` block at lib/Coroutine.php:131-139 rethrows that exception, and the
catch after it uses it to fail the coroutine. An exception raised by the
generator's own cleanup only ends the throw loop and is chained as the
"previous" exception. `Coroutines.Dispose` states this, and
`Scenarios.CleanupErrorIsNotReported` shows it on a concrete generator.

## Model

| member | source | states |
|---|---|---|
| Async.Delivery | lib/Failure.php:33-35 | A settled awaitable calls a callback synchronously: a failed one with `(reason, null)`, a resolved one with `(null, value)`. A pending one does not call it at once. |
| Generators.Current | lib/Coroutine.php:89 | `current()` runs a fresh generator to its first suspension with nothing sent in. An already-started generator is left exactly as it is. |
| Generators.Resume | lib/Coroutine.php:55-61 | `send`/`throw` feed exactly one more input to a suspended generator. On a terminating generator, this strictly lowers the number of inputs it can still take. |
| Generators.GetReturn | lib/Coroutine.php:104-108 | `getReturn()` gives the returned value exactly when the generator returned. Otherwise it throws the "no return value" exception. |
| Coroutines.ThrowUntilDone | lib/Coroutine.php:128-130 | The do-while loop throws the same exception at least once. It keeps throwing exactly as long as the generator stays suspended, and leaves it finished. |
| Coroutines.Dispose | lib/Coroutine.php:123-143 | A suspended generator is run to completion by repeated throws of the exception. A finished one is left untouched. Either way the coroutine fails with the exception it was given, never with one raised during cleanup. |
| Coroutines.ResumeInput | lib/Coroutine.php:55-61 | The continuation resumes with `throw(e)` exactly when it was given an exception `e`. Otherwise it uses `send(value)`. |
| Coroutines.Advance | lib/Coroutine.php:63-85 | Classifies a step. An exception from the step fails the coroutine with that exception and changes nothing else. An already-started generator that raised earlier fails it with the "no return value" exception from `getReturn()`. A yielded awaitable is subscribed next. A yielded non-awaitable fails it with InvalidYield, after InvalidYield has been thrown into the generator until it finished; subscriptions and the loop are untouched. A return resolves it with the returned value and changes nothing else. `depth` is the same after as before. Starting with no continuation outstanding, the step ends in exactly one of three states: settled with a finished generator, waiting on a pending awaitable, or with one deferred continuation. |
| Coroutines.Subscribe | lib/Coroutine.php:63-67 | The awaitable is recorded as the next subscription. A pending one holds the continuation and nothing else happens. A settled one runs the continuation at once: within the depth bound its outcome is the generator's next input (`send` of its value, `throw` of its reason); past the bound exactly one `Reinvoke` carrying that outcome is deferred and nothing else changes. `depth` is restored. |
| Coroutines.Continue | lib/Coroutine.php:45-86 | Past depth 3, the continuation leaves everything but the loop alone and defers exactly one task carrying the same `(exception, value)`. Otherwise it feeds the generator `throw`/`send` as next input and classifies what the generator did. A return resolves the coroutine with the returned value. An escaping exception fails it with that exception. A yielded non-awaitable fails it with InvalidYield after throwing InvalidYield in until the generator finished. A yielded awaitable becomes the next subscription. It makes at most 4 − depth nested subscriptions, defers at most one task, and leaves `depth` unchanged. It ends settled, waiting, or deferred, exactly one of these. |
| Coroutines.New | lib/Coroutine.php:88-113 | The constructor advances a fresh generator with `Start`. A finished generator resolves the coroutine with its return value. A fresh generator whose first run raises `e` fails the coroutine with `e`. An already-started generator that had raised fails it with the "no return value" exception. A yielded awaitable becomes the first subscription. A yielded non-awaitable fails the coroutine with InvalidYield, after InvalidYield has been thrown into the generator until it finished. At most 4 subscriptions happen before the constructor returns. |
| Coroutines.Notify | lib/Coroutine.php:65 | When the pending awaitable holding the continuation settles, the generator's next input is `throw`/`send` of what it delivered. At most 4 further subscriptions happen synchronously. |
| Coroutines.RunNext | lib/Coroutine.php:47-50 | Running a deferred continuation resumes the generator with the `(exception, value)` captured at deferral. Running any other task leaves the coroutine alone. |
| Coroutines.StepConsistent | lib/Coroutine.php:45-113 | A driver step taken with no continuation outstanding leaves the coroutine consistent. |
| Coroutines.NewConsistent | lib/Coroutine.php:38-114 | After the constructor returns, `depth` is 0 and the coroutine is settled exactly when its generator has finished. Until then exactly one continuation is outstanding, held by a pending awaitable or by the loop. |
| Coroutines.NotifyConsistent | lib/Coroutine.php:45-86 | Settling the awaited awaitable preserves that invariant. |
| Coroutines.RunNextConsistent | lib/Coroutine.php:46-51 | Running the loop's next task preserves that invariant. |
| Coroutines.SubscribeToFailureThrows | lib/Coroutine.php:55-57 | Within the depth bound, subscribing to a `Failure` throws its exception into the generator at the suspension point. |
| WhenQueues.Push | lib/Internal/WhenQueue.php:54-61 | Existing entries are unchanged. A plain callback is appended. A queue has its entries appended in order, with no nested queue entry added. The callbacks reached on invocation are the old ones followed by the pushed ones. |
| WhenQueues.New | lib/Internal/WhenQueue.php:21-25 | With no callback the queue is empty. With a plain callback `c` it is `[c]`. A queue argument is unrolled. |
| WhenQueues.ReplayIsFlat | lib/Internal/WhenQueue.php:54-61 | A queue built only through `push` (including queues pushed into it) never stores a WhenQueue entry. |
| WhenQueues.InvokeEntries | lib/Internal/WhenQueue.php:33-47 | `__invoke` as written. Every reachable callback is called exactly once, in stored order, with the same value. The deferred tasks are one rethrow per throwing call, in call order. |
| WhenQueues.InvokeRebindsException | lib/Internal/WhenQueue.php:36-41 | On a flat queue, a callback receives the original exception argument until a callback throws. After that it receives the most recently thrown exception. |
| WhenQueues.InvokeIsolated | lib/Internal/WhenQueue.php:33-47 | The corrected `__invoke`. Every callback is called in order with exactly the original `(exception, value)`, and throws are deferred as above. |
| WhenQueues.InvokeAgreesWithoutThrows | lib/Internal/WhenQueue.php:33-47 | When no callback throws, the as-written and the corrected invocation are identical. |
| WhenQueues.SuccessReportedAsFailure | lib/Internal/WhenQueue.php:37-41 | Counterexample: after a throwing callback, the next callback of a successful resolution is told the awaitable failed. The corrected invocation passes it `(null, value)`. |
| Failures.New | lib/Failure.php:22-28 | The constructor succeeds exactly for an exception, and stores exactly that exception. Anything else is rejected with InvalidArgumentException. |
| Failures.AsAwaitable | lib/Failure.php:27-35 | As an awaitable, a failure is rejected with the stored exception, and delivers `(exception, null)`. |
| Failures.When | lib/Failure.php:33-45 | The callback is called exactly once, synchronously, with `(stored exception, null)`. A throw becomes exactly one deferred rethrow of that exception. A normal return defers nothing. |
| Failures.WhenEach | lib/Failure.php:27-35 | Repeated `when` calls each deliver the same stored exception with `null`, in call order. |
| Failures.NewRoundTrip | lib/Failure.php:23-27 | Constructing from an exception and reading it back gives that exception. |
| Failures.WhenAsQueue | lib/Failure.php:33-45 | `when` notifies its callback exactly as a one-entry WhenQueue invoked with `(stored exception, null)` would. |
| Failures.WhenEachAsIsolatedQueue | lib/Failure.php:33-45 | Repeated `when` calls equal the corrected queue invocation over the same callbacks. |
| Scenarios.UncaughtErrorFailsCoroutine | lib/Coroutine.php:54-85 | Two settled awaitables in turn. `"x"` is sent in, then ErrorY is thrown in. Since the generator does not catch it, the coroutine fails with ErrorY. |
| Scenarios.CaughtErrorResolvesCoroutine | lib/Coroutine.php:55-80 | An error thrown into the generator and caught there lets the coroutine resolve with the generator's return value. |
| Scenarios.DeepChainIsDeferred | lib/Coroutine.php:46-51 | With always-settled awaitables, the constructor makes exactly 4 subscriptions and 3 sends. It then defers one continuation carrying the fourth value, and the coroutine is left unsettled. |
| Scenarios.CleanupErrorIsNotReported | lib/Coroutine.php:131-142 | An invalid yield whose cleanup raises another exception still fails the coroutine with InvalidYield. |
| Scenarios.DisposeThrowsUntilBound | lib/Coroutine.php:104-130 | A generator that yields a non-awaitable and catches every exception thrown into it is thrown InvalidYield once per input it can still take (`n - 1` times for `n` inputs) before the coroutine fails with InvalidYield. |

## Findings

| source | as written | input that shows it | evidently intended | confidence | as-written member | corrected member |
|---|---|---|---|---|---|---|
| lib/Internal/WhenQueue.php:36-41 | `catch (\Throwable $exception)` reuses the name of the `$exception` parameter. Every callback after a throwing one receives the thrown exception as the awaitable's failure reason. | Queue `[Thrower, Quiet]` invoked with `(null, 42)`: `Quiet` is called with `(UserError(1), 42)`, so it sees a successful resolution as a failure. | Every callback receives the `(exception, value)` the queue was invoked with. The throw is only rethrown from the loop. | high (not executed) | WhenQueues.SuccessReportedAsFailure | WhenQueues.InvokeIsolated |

Invocation takes the queue by value and returns only the calls made and the
tasks deferred, so invoking a queue leaves its stored entries unchanged.
`WhenQueues.InvokeEntries` models the code as written, and
`WhenQueues.InvokeRebindsException` states the rebinding rule it follows.
`WhenQueues.InvokeIsolated` is the corrected behaviour. `Failures.WhenEachAsIsolatedQueue`
relates repeated `Failure::when` calls to the corrected behaviour.

## Left out

- `Internal\Placeholder` is not part of this model. It holds the coroutine's own `resolve`, `fail`, `when` and double-settlement check. The coroutine's settlement is an `Option<Outcome>` that the driver sets once.
- The PHP 5 path is left out: `Internal\CoroutineResult`, `settle` and `result` (lib/Coroutine.php:70-74, 98-102, 145-175). These are marked for removal. `getReturn()` is always used.
- A yielded awaitable's `when` is assumed not to throw, as the awaitable contract promises. If it did throw, the code would skip `--$depth` and go to `dispose`.
- Coroutines.Continue: requires the generator to be suspended. It is invoked only by the awaitable the generator is suspended on, or by the loop task it deferred at lib/Coroutine.php:47-50. In both cases the generator is still suspended, and each awaitable calls its callbacks once. Resuming an already-finished generator is not modelled.
- Generators are bounded: every driver function and `Coroutines.New` require `Terminating`, so no history of `bound` or more inputs leaves the generator suspended. This gives the mutual recursion of the continuation and the `dispose` loop a decreasing measure. A generator that can yield forever, such as a `while (true)` server loop, is not modelled. The source itself handles such a generator, except in one case. A generator that yields a non-awaitable and catches every exception thrown into it makes the `do … while (valid())` loop of `dispose` (lib/Coroutine.php:128-130) run forever. `Scenarios.DisposeThrowsUntilBound` shows that the loop lasts exactly as long as the bound lets the generator keep catching.
- Generators are abstract scripts over their input history. Resumes in the model never fail for reasons outside the script.
- Exception "previous" chaining is not modelled. `\Throwable` and `\Exception` are one type.
- Callbacks are pure, and their only effect is the exception they throw. A callback that re-enters the queue or defers tasks of its own is not modelled.
- A WhenQueue pushed into another is copied by value at push time. This matches `array_merge`, which copies the array.
- The event loop is only `Loop::defer` (append to a FIFO queue) plus "run the next task" (`Coroutines.RunNext`). A rethrow task's exception leaves the model when it runs. Timers and I/O are not modelled.
- `lib/Producer.php` (the streaming variant, over a trait that is not part of this model) and `test/PauseTest.php` (wall-clock timers) are out of scope.
- The resolved awaitable's `when` (the `Success` class) is not part of this model. A `Succeeded` awaitable is assumed to deliver `(null, value)` synchronously, as `Failure` does for its reason.
