# Moving average with a zero-triggered cooldown

This project models the averaging coroutine of `Lab6-2/Lab6-2.cpp`
(`calculate_average_coro` and its `AverageGenerator` handle) and proves its
behaviour in Dafny.

The generator keeps three things between resumes:

- a FIFO window of at most three non-zero samples;
- a cooldown flag with the time it was armed;
- a published average, which starts at 0.0.

Each `resume()` runs the coroutine body from the top of its `while (true)`
loop to the next `co_yield`, `co_return` or `break`. In order, it:

1. checks the cooldown;
2. reads one number;
3. either finishes (the read failed), publishes the mean of the window and
   arms the cooldown (the number is zero), or pushes the number into the
   window and publishes the new mean.

Resuming less than 1000 ms after a zero ends the generator as a violation.

The model is split into four modules:

- `Wrappers` (`wrappers.dfy`) holds `Option`. `None` stands for a failed
  `std::cin >> input`.
- `Window` (`window.dfy`) holds the window operations (`Push` is
  `push_back` followed by `pop_front` at capacity), their `Mean`, and lemmas
  about both.
- `Unit` (`unit.dfy`) is the coroutine as a pure state machine. `State`
  holds the frame's locals, the promise's `current_average` and a lifecycle
  `Status` (`NotStarted`, `Suspended`, `Violated`, `Finished`) that replaces
  `done()`. `Next` is one resume, `Consume` is the part after the cooldown
  check, and `Run` replays a sequence of resumes from a fresh generator. The
  lemmas about runs live here too.
- `Generator` (`generator.dfy`) is the class `AverageGenerator`. Its fields
  are updated in place by `Resume`, whose contract ties the new fields to
  `Unit.Next` applied to the old ones. `GetResult` reads the published value.

The clock and the input stream are parameters. `now` is the steady clock in
whole milliseconds, and `input` is the result of the read.

Every reachable state satisfies `Unit.Invariant`:

- the window holds at most three samples, and none of them is zero;
- the published value always equals the mean of the current window. This
  holds on every yield and is untouched by terminal steps.

A first resume whose read fails goes straight from `NotStarted` to
`Finished`: the `break` at Lab6-2.cpp:67 falls off the end of the
coroutine. `Next` models that.

## Model

| member | source | states |
|---|---|---|
| `Window.Mean` | Lab6-2/Lab6-2.cpp:74 | The published average of an empty window is 0.0; a one-sample window averages to that sample. |
| `Window.Push` | Lab6-2/Lab6-2.cpp:80-81 | The new sample is always last. A window below capacity just grows by it. A full window drops its oldest sample. The capacity of 3 is never exceeded. |
| `Window.PushKeepsLastThree` | Lab6-2/Lab6-2.cpp:80-81 | FIFO eviction: pushing onto the last three samples of a stream gives the last three samples of the extended stream. |
| `Window.LastNForgetsPrefix` | Lab6-2/Lab6-2.cpp:80-81 | Samples older than the last three do not affect the window. |
| `Window.SumBounds` | Lab6-2/Lab6-2.cpp:83 | The `std::accumulate` sum of the window lies between its length times a lower bound and its length times an upper bound of the samples. |
| `Window.MeanBounds` | Lab6-2/Lab6-2.cpp:83-84 | The published mean of a non-empty window lies between any lower and upper bound of its samples. |
| `Unit.Init` | Lab6-2/Lab6-2.cpp:17 | A new generator has an empty window, no cooldown, published value 0.0, and is not started. This state satisfies the invariant. |
| `Unit.Consume` | Lab6-2/Lab6-2.cpp:66-84 | A failed read finishes the generator without publishing, and returns false. A zero leaves the window alone, arms the cooldown at `now` and publishes the mean of the window so far. A non-zero sample is pushed and the mean of the new window is published. The invariant is kept. |
| `Unit.Next` | Lab6-2/Lab6-2.cpp:33-64 | Lines 33-37 give the protocol and lines 52-63 the cooldown test. A done generator absorbs every resume and returns false. A resume returns true exactly when the generator is suspended again. A step that returns false changes neither the published value nor the window. Fewer than 1000 ms after an armed zero the generator becomes Violated with nothing read. Otherwise the flag is cleared and one input is consumed. The invariant is kept. |
| `Unit.Run` | Lab6-2/Lab6-2.cpp:51-85 | Every state reachable by resumes from a fresh generator satisfies the invariant: a window of at most three non-zero samples whose mean is the published value. After any resume the generator is no longer NotStarted. |
| `Unit.DoneIsFinal` | Lab6-2/Lab6-2.cpp:34 | Once Violated or Finished, any further resumes leave the whole state unchanged. |
| `Unit.NonZeroRunKeepsLastThree` | Lab6-2/Lab6-2.cpp:80-84 | With only non-zero reads, the cooldown is never armed. The window is the last three samples read, and the published value is their mean. |
| `Unit.ShortRunAveragesAll` | Lab6-2/Lab6-2.cpp:80-84 | After at most three non-zero reads, the published value is the mean of all of them. |
| `Unit.OlderInputsForgotten` | Lab6-2/Lab6-2.cpp:80-84 | Two non-zero streams that end in the same three or more samples publish the same average. |
| `Unit.WindowFromInputs` | Lab6-2/Lab6-2.cpp:69-81 | Every sample in the window is a number some resume actually read; zeros and failed reads never enter it. |
| `Unit.PublishedWithinInputRange` | Lab6-2/Lab6-2.cpp:74-84 | After any run the published average is 0.0 while the window is empty, and otherwise lies between any lower and upper bound of the numbers read. |
| `Unit.WindowIsLastThreeReads` | Lab6-2/Lab6-2.cpp:66-84 | For any stream, zeros included, a generator that is still live holds the last three non-zero numbers read, in order, and publishes their mean. |
| `Unit.ZeroThenResume` | Lab6-2/Lab6-2.cpp:52-77 | A zero read at time t arms the cooldown at t and publishes the mean of the window before it. The next resume is a violation when it comes fewer than 1000 ms after t. Otherwise it clears the flag and processes its input normally. |
| `Unit.ScenarioOneToFour` | Lab6-2/Lab6-2.cpp:80-84 | Inputs 1, 2, 3, 4 publish 1.0, 1.5, 2.0 and 3.0, leaving the window [2, 3, 4]. |
| `Unit.ScenarioLateResume` | Lab6-2/Lab6-2.cpp:60-77 | After inputs 5 and 0, the zero step publishes 5.0. A resume 1500 ms later stays active. |
| `Unit.ScenarioEarlyResume` | Lab6-2/Lab6-2.cpp:52-58 | After inputs 5 and 0, a resume 200 ms later ends in Violated with 5.0 still published. Every later resume returns false and changes nothing. |
| `Generator.AverageGenerator.constructor` | Lab6-2/Lab6-2.cpp:45-49 | A new generator is in the initial state of the state machine. |
| `Generator.AverageGenerator.Resume` | Lab6-2/Lab6-2.cpp:33-37 | Updates the fields in place to exactly the state `Unit.Next` gives, returns its active flag, and keeps the invariant. |
| `Generator.AverageGenerator.GetResult` | Lab6-2/Lab6-2.cpp:39-41 | Returns the published average and modifies nothing. |

## Left out

- Console output (the prompts and the violation and cooldown messages) and the `main` driver with its ENTER loop: they are display only.
- The C++20 coroutine machinery is replaced by the `Status` field and the `Resume` step. This covers the handle, the initial and final suspension, the destructor's `destroy` and `unhandled_exception`. The null-handle test in `resume()` cannot arise, because every generator is built with its frame.
- `std::chrono::steady_clock` is not read. Each resume receives one clock reading `now` in whole milliseconds. The source reads the clock twice: once for the cooldown test, and again after the read when it arms the cooldown. The model uses the same `now` for both, so time spent blocked in the read is not represented. Because `now` is already whole milliseconds, the elapsed time is a difference of two truncated readings rather than the truncated difference of line 54, and it can be 1 ms larger than the source's count: 999.7 ms elapsed is a violation in the source (count 999), but readings of 0 and 1000 pass the model's test.
- The `time_point::min()` sentinel for the cooldown start is modelled as 0. It is never used, because the flag starts cleared.
- Floating point: samples and means are exact reals. The rounding of `std::accumulate` and of the division is not modelled. The zero test is exact equality, as in the source.
- Input parsing: any failed read of `std::cin` is `None`, that is, the input is exhausted.
