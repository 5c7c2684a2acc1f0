# Profiling recorder and application state, modelled in Dafny

This project models the instrumentation core of an SDL/ImGui/CEF
application template (namespace `App::Debug`) and the small pieces of pure
state logic in `App::Application`.

- **The recorder (`Instrumentor`).** It is a singleton that owns at most one
  session and one output file stream. `BeginSession` opens the trace file
  and writes the header. `WriteProfile` appends one comma-prefixed JSON
  fragment per completed span. `EndSession` writes the footer and closes
  the stream. The model is an immutable `Recorder` value: the nullable
  session pointer, the stream (closed, or open on a path and possibly
  failed), and the file system as a map from path to contents. Each public
  call is one pure transition. A run of the program is a sequence of
  `Call`s, folded by `Replay`.
- **The wire format.** `TraceFormat` holds the header
  `{"otherData": {},"traceEvents":[{}`, the footer `]}`, the name
  sanitiser (every `"` becomes `'`), and the fragment builder
  `,{"cat":"function","dur":D,"name":"N","ph":"X","pid":0,"tid":"T","ts":S}`.
  A decoder reads a fragment back into its fields. `Decimal` renders and
  parses the integral duration.
- **The scoped timer (`InstrumentationTimer`).** It captures a start time
  point. `Stop` submits a record whose duration is the difference of the
  two time points, each truncated to microseconds. The destructor calls
  `Stop` only if the timer was not stopped. Clock readings (integer
  nanoseconds) and the thread id are inputs.
- **`Application`.** The model covers:
  - command-line argument storage;
  - the `OnEvent` dispatch over `running` and `minimized`, and `Stop`;
  - the early return of `Run` after a failed construction.

The main results:

- **Framing.** `Instrumentor.Framing`: a session that opens, receives any
  records and ends leaves exactly `header + fragments-in-call-order +
  footer` in its file.
- **Well-formed output.** `Instrumentor.ClosedFilesComplete`: from the
  initial state, whatever the sequence of calls, once the stream is
  closed every file written is a complete document.
- **Fragment round trip.** `TraceFormat.FragmentRoundTrip`: the fragment
  layout is unambiguous, and the name read back is the sanitised name.
- **Timer records.** `Timer.LifeWritesSubmitted` and `Timer.Submitted`
  state which records a timer submits over its life.

## Behaviour worth knowing

The model follows the code in each of these points, which a reader might
expect to be otherwise.

- **`EndSession` does not clear the session.** The code closes the stream
  but never resets `m_currentSession` (src/core/Core/Instrumentor.hpp:128-135).
  Records sent after `EndSession` are dropped only because the stream is
  closed. A second `EndSession` writes its footer into the closed stream,
  which drops it.
- **A failed open keeps the old session.** `m_currentSession` stays as it
  was, which may be a stale pointer (lines 54-64). No header is written and
  no file is created or truncated.
- **`dur` is an integer.** The code inserts the integral
  `elapsedTime.count()`, which `setprecision` does not affect (line 83);
  only `ts` has three fixed decimals.
- **Two `Stop` calls submit two records.** `Stop` does not check
  `m_stopped`; only the destructor does (lines 155-176).

## Model

| member | source | states |
|---|---|---|
| Decimal.IntRoundTrip | src/core/Core/Instrumentor.hpp:83 | The decimal text inserted for the integral duration parses back to the same integer, negative values included. |
| Decimal.NatRoundTrip | src/core/Core/Instrumentor.hpp:83 | The unsigned decimal rendering parses back to the number rendered. |
| TraceFormat.SanitiseName | src/core/Core/Instrumentor.hpp:77-78 | The serialised name has the input's length; position by position `"` becomes `'` and every other character is kept, so the result has no `"`. |
| TraceFormat.SanitiseIdempotent | src/core/Core/Instrumentor.hpp:77-78 | Sanitising an already sanitised name changes nothing. |
| TraceFormat.SanitiseKeepsQuoteFree | src/core/Core/Instrumentor.hpp:77-78 | A name without `"` is serialised unchanged; backslashes and control characters are not escaped. |
| TraceFormat.FragmentRoundTrip | src/core/Core/Instrumentor.hpp:80-89 | A fragment has the keys cat, dur, name, ph, pid, tid, ts in this order, and decodes back to the record's integer duration, its sanitised name, its thread id and its start text. |
| Instrumentor.WriteHeader | src/core/Core/Instrumentor.hpp:114-118 | A good open stream's file grows by exactly the header; otherwise nothing changes. |
| Instrumentor.WriteFooter | src/core/Core/Instrumentor.hpp:120-124 | A good open stream's file grows by exactly the footer; otherwise nothing changes. |
| Instrumentor.InternalEndSession | src/core/Core/Instrumentor.hpp:128-135 | With a session pointer set, the footer is written and the stream closed. The session pointer is never reset. With no session pointer, nothing changes. The invariant is kept. |
| Instrumentor.BeginSession | src/core/Core/Instrumentor.hpp:39-65 | A previously open file gets its footer first, and keeps it unless the new session truncates that same path. On a successful open, the new session is set and the file holds exactly the header. On a failed open, the old session pointer stays, the stream is closed and the file map changes only by that footer: no header, no truncation, no new file. No other file is touched. |
| Instrumentor.BeginDefaultSession | src/core/Core/Instrumentor.hpp:39 | Without a path, a session records into `results.json`; a failed open creates no such file. |
| Instrumentor.EndSession | src/core/Core/Instrumentor.hpp:67-71 | The session pointer is unchanged. The stream is closed whenever a session pointer is set. An open file gains exactly the footer. Without recording, no file changes. |
| Instrumentor.WriteProfile | src/core/Core/Instrumentor.hpp:73-97 | The state changes exactly when a session pointer is set and the stream accepts insertions. In that case the file grows by exactly the record's fragment. |
| Instrumentor.Teardown | src/core/Core/Instrumentor.hpp:109-112 | The singleton's destructor ends the session: the stream is closed, an open file is terminated with the footer, and the session pointer and every other file are unchanged. With the stream already closed it changes nothing. |
| Instrumentor.RunKeepsValid | src/core/Core/Instrumentor.hpp:39-135 | Every sequence of calls keeps the invariant: an open stream is good, writes into an existing file and has a session pointer. |
| Instrumentor.NoSessionNoEffect | src/core/Core/Instrumentor.hpp:91-96 | With no session pointer, any sequence of `EndSession` and `WriteProfile` calls changes nothing. |
| Instrumentor.NeverBegunNoFiles | src/core/Core/Instrumentor.hpp:106-107 | If `BeginSession` is never called, no file is created. |
| Instrumentor.WritesAppend | src/core/Core/Instrumentor.hpp:91-96 | While recording, successive `WriteProfile` calls append their fragments in call order, and nothing else changes. |
| Instrumentor.Framing | src/core/Core/Instrumentor.hpp:54-135 | After a successful `BeginSession`, any `WriteProfile` calls and an `EndSession`, the file is exactly header + fragments in call order + `]}`. The stream is closed and the session pointer is still set. |
| Instrumentor.FramingAsRun | src/core/Core/Instrumentor.hpp:39-97 | The session of the framing result, read as one sequence of public calls (begin, writes, end), has the same effect as the composed transitions. |
| Instrumentor.EndSessionIdempotent | src/core/Core/Instrumentor.hpp:128-135 | A second `EndSession` leaves the whole state, every file included, as the first left it. |
| Instrumentor.FailedOpenDropsWrites | src/core/Core/Instrumentor.hpp:54-64 | After a failed open the old session pointer is kept, and every later record is dropped. |
| Instrumentor.NoEffectWhileClosed | src/core/Core/Instrumentor.hpp:92-96 | While the stream is closed, `EndSession` and `WriteProfile` change nothing, whether or not a session pointer is set. |
| Instrumentor.ClosedFilesComplete | src/core/Core/Instrumentor.hpp:39-135 | From the initial state, after any calls, once the stream is closed every file written is header + fragments + footer. |
| Timer.TruncMicros | src/core/Core/Instrumentor.hpp:167-170 | The cast to microseconds truncates toward zero: the result is within one microsecond of the time point, on the epoch's side. |
| Timer.ElapsedNonNegative | src/core/Core/Instrumentor.hpp:167-170 | The duration is never negative when the end point is not before the start point, as a steady clock guarantees. |
| Timer.ElapsedApproximates | src/core/Core/Instrumentor.hpp:167-170 | The duration differs from the true elapsed time by less than one microsecond when both points are on the same side of the epoch, and by less than two otherwise. |
| Timer.Record | src/core/Core/Instrumentor.hpp:163-173 | The submitted record carries the timer's name, the rendered start point and the stopping thread's id. Its duration is the difference of the truncated end and start points, and is non-negative for a steady clock. |
| Timer.Stop | src/core/Core/Instrumentor.hpp:163-176 | `Stop` submits one record whatever the flag says, then marks the timer stopped. |
| Timer.Destroy | src/core/Core/Instrumentor.hpp:155-161 | The destructor submits a record only when the timer was not stopped. |
| Timer.Submitted | src/core/Core/Instrumentor.hpp:155-176 | A timer submits one record per explicit `Stop`, or exactly one from its destructor if it was never stopped. |
| Timer.LifeWritesSubmitted | src/core/Core/Instrumentor.hpp:155-176 | A timer's life of stops and destruction acts on the recorder exactly as `WriteProfile` calls for its submitted records, in order. |
| Timer.LifeAppends | src/core/Core/Instrumentor.hpp:155-176 | While recording, a timer's life appends exactly the fragments of its submitted records. |
| Timer.RecordsPerScope | src/core/Core/Instrumentor.hpp:155-176 | "Destroy only" and "stop then destroy" each submit one record; two explicit stops submit two. |
| Application.SetCommandLineArgs | src/core/Core/Application.cpp:250-258 | The count becomes `argc`. The vector becomes `argc` empty strings followed by `argv[0..argc)` in order. A negative `argc` throws `length_error` after the count is assigned. |
| Application.StoredArgsLayout | src/core/Core/Application.cpp:250-274 | After storing, the count getter returns `argc` and the vector getter returns exactly the blanks followed by the arguments. |
| Application.SetArgsKeepsValid | src/core/Core/Application.cpp:250-269 | Storing keeps the vector at least as long as the count, so every index the assert admits is in range. |
| Application.ArgLookupIsBlank | src/core/Core/Application.cpp:265-269 | As written, every index the assert admits reads an empty string. |
| Application.ArgLookupCounterexample | src/core/Core/Application.cpp:253 | With argv = ["app"], index 0 reads "" as written and "app" with the corrected storage. |
| Application.SetCommandLineArgsIntended | src/core/Core/Application.cpp:253-257 | The corrected storage holds exactly `argv[0..argc)`. |
| Application.IntendedArgLookup | src/core/Core/Application.cpp:265-269 | With the corrected storage, index `i` reads `argv[i]`. |
| Application.Stop | src/core/Core/Application.cpp:173-176 | `running` becomes false and no other field changes. |
| Application.StopIdempotent | src/core/Core/Application.cpp:173-176 | Stopping twice equals stopping once. |
| Application.OnEvent | src/core/Core/Application.cpp:178-211 | CLOSE clears `running`, MINIMIZED sets `minimized` and SHOWN clears it. No other flag, the exit status or the arguments change. |
| Application.OnEventIdempotent | src/core/Core/Application.cpp:178-211 | Delivering the same event twice has the effect of delivering it once. |
| Application.IgnoredEvents | src/core/Core/Application.cpp:182-196 | RESIZED (which only logs) and every other event leave the application unchanged. |
| Application.ShownUndoesMinimized | src/core/Core/Application.cpp:198-206 | Minimising and then showing a window that was not minimised restores the state. |
| Application.Run | src/core/Core/Application.cpp:64-71 | `Run` returns at once exactly when the exit status is FAILURE, and then returns FAILURE with the state untouched. Otherwise it sets `running` and enters the main loop. |
| Application.RunAfterFailedConstruction | src/core/Core/Application.cpp:64-67 | A freshly constructed application whose construction failed returns FAILURE from `Run` and is not running. |

## Left out

- Mutex and threads: each public recorder call holds the mutex for its state-changing part, so each call is modelled as one atomic step. Building the fragment before taking the lock does not matter in a sequential model.
- The floating-point start time and its fixed three-decimal rendering: this text is the input function `renderStart` of the timer. `ProfileResult.start` holds the rendered text.
- Thread ids and `steady_clock::now()`: these are inputs (`Reading`). The model does not check that readings are increasing; `Timer.ElapsedNonNegative` assumes it.
- Paths are compared as strings: two spellings of one file (relative and absolute, `./`, symlinks, a case-insensitive file system, a changed working directory) are separate entries of the file map. So `BeginSession`'s frame and same-path clauses speak of path strings, not files.
- Whether a path can be opened for writing is decided by the file system. It is the input `opens` of `BeginSession`.
- Stream error states are not tracked while the stream is closed. A failed `open` sets failbit, and inserting into or closing a closed stream sets badbit or failbit; the model drops every insertion into a closed stream instead. `OpenStream` yielding a good stream relies on a successful `open` clearing the error state, as it does since C++11. Failures of an open stream (disk full, I/O errors) are not modelled.
- Logging (`APP_ERROR`, `APP_DEBUG`) has no state and is left out; this includes the error message on re-entrant `BeginSession` and the error on a failed open.
- `Instrumentor::Get()` and the singleton's lifetime: the destructor is the final `Teardown` step.
- The profiling macros and the `APP_FUNC_SIG` selection are preprocessor plumbing.
- Timer.ElapsedMicros: 64-bit microsecond counts and nanosecond time points are unbounded integers here. Overflow needs clock values about 292 years from the epoch.
- Application.GetCommandLineArg: the source's `assert` on the index is a precondition, so the model keeps the asserted range [0, argc). In a build without asserts, indices argc..2·argc−1 return `argv[index − argc]` (the layout `Application.StoredArgsLayout` states); only indices outside [0, 2·argc) are undefined behaviour.
- Null entries in `argv` are not modelled; arguments are strings.
- The rest of `Application` is not modelled: the constructor's SDL, CEF, ImGui and OpenGL setup (its outcome arrives as the exit status of `Fresh`), the render loop after `running` is set, `SetTheme`, `InitDatabase`, the JSON, XML and HTTP smoke tests, and `Login`. The same goes for `Window` and `Main`.
- The main loop's handling of `SDL_QUIT` and its window-id filter are not modelled. `OnEvent` is modelled for the events it receives.

## Findings

| source | as written | input that shows it | evidently intended | confidence | as-written member | corrected member |
|---|---|---|---|---|---|---|
| src/core/Core/Application.cpp:253 | `m_args` is constructed holding `argc` empty strings; the arguments are then appended after them | argc = 1, argv = ["app"]: `GetCommandLineArg(0)` returns "" and the vector has length 2 | reserve room for `argc` strings, so that `GetCommandLineArg(i)` returns `argv[i]` | high; not executed | Application.ArgLookupCounterexample | Application.IntendedArgLookup |
