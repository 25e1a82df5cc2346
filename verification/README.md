# Input validation hook and debounce, modelled in Dafny

This project models the client-side validation behaviour in `assets/js/app.js` of a
Phoenix LiveView application. It has two parts:

- **`debounce(func, wait)`**. The wrapper it returns keeps one timeout. Each call clears
  that timeout and schedules a new one `wait` later. When a timeout runs, `func` is invoked
  with the arguments of the call that scheduled it.
- **The `InputValidation` hook**. It is attached to one input element and sends
  `validate_input` events to the element's server component. Each event carries the
  element's name and value. The first blur that finds a non-blank value sends an
  immediate report and sets `isValidatedOnce`. After that, every input event goes through
  a 300-unit debounce. The debounced report reads the element's value when it fires.
  `destroyed()` removes both listeners.

Files:

- `optional.dfy` defines `Option`.
- `whitespace.dfy` models `String.prototype.trim`, using ECMAScript's WhiteSpace and
  LineTerminator code points.
- `debounce.dfy` holds three things:
  - the wrapper's state as a value: `Timer`, `AfterCall` and `AfterElapse`, with `Run`
    over event sequences;
  - the `Debouncer` class, whose fields are the captured `timeout` state;
  - the lemmas about bursts and about calls spaced at least `wait` apart.
- `input_validation.dfy` holds two things:
  - the hook's state and events as values: `Hook`, `Step` and `Run`;
  - the `InputValidationHook` class. The fields the source keeps on `this` keep their
    names (`isValidatedOnce`, `debounceTimer`, `debouncedPushValidation`), next to the
    element's `name` and `value`. `attached` stands for the two listeners and `reports` for
    the events sent. Each of its methods is proved to follow `Step`.
- `input_validation_properties.dfy` holds the lemmas about event sequences.

Time is an abstract integer clock, and only a `Tick`/`Elapse` of `dt` units moves it.
Blur and input events happen at the current time. A pending timeout runs at the first tick
that reaches its deadline. When a call comes exactly `wait` after the previous one, the
model runs the timeout first, so such a call starts a new invocation.

The comment in `destroyed()` (assets/js/app.js:79) says teardown cleans up the timer. The
code does not do that, and the model follows the code. The guard in `destroyed()` tests
`this.debounceTimer`. That field is `null` from mount on: `Valid()` states this, and the
branch holds only `assert false`. So a report that is pending at teardown is still sent
(see Findings).

## Model

| member | source | states |
|---|---|---|
| `Whitespace.TrimStart` | assets/js/app.js:60 | the result is a suffix of the input; it is empty or starts with a non-white-space character; everything removed is white space |
| `Whitespace.TrimEnd` | assets/js/app.js:60 | the result is a prefix of the input; it is empty or ends with a non-white-space character; everything removed is white space |
| `Whitespace.Trim` | assets/js/app.js:60 | `value.trim()`: everything before the result (the characters `TrimStart` drops) and everything after it is white space, the result is what lies between, and it neither starts nor ends with white space |
| `Whitespace.TrimEmptyIffBlank` | assets/js/app.js:60 | `value.trim() === ""` exactly when every character of the value is white space |
| `Debounce.Debouncer.constructor` | assets/js/app.js:26-27 | a new wrapper has nothing scheduled |
| `Debounce.Debouncer.Call` | assets/js/app.js:28-35 | a call replaces whatever was pending with a single timeout due `wait` from now, carrying this call's arguments |
| `Debounce.Debouncer.Elapse` | assets/js/app.js:29-32 | after `dt` units the clock has moved by `dt`; `func` runs (at most once) exactly when the pending deadline was reached, with that timeout's arguments, and the timeout is then gone |
| `Debounce.BurstLeavesOnePending` | assets/js/app.js:26-35 | calls less than `wait` apart, starting before an earlier timeout is due, invoke nothing; one timeout is left pending, due `wait` after the last call, with the last call's arguments |
| `Debounce.BurstCollapses` | assets/js/app.js:26-35 | a burst followed by a quiet period invokes `func` exactly once, with the last call's arguments, if the quiet period is at least `wait`, and not at all otherwise |
| `Debounce.SpacedCallsRun` | assets/js/app.js:26-35 | with calls at least `wait` apart, every call but the last has invoked `func` in order (after any earlier pending one), and the last is pending |
| `Debounce.SpacedCallsEachFire` | assets/js/app.js:26-35 | calls at least `wait` apart, followed by a wait, each produce their own invocation, in call order |
| `Debounce.AtMostOneInvocationPerCall` | assets/js/app.js:33-34 | over any events, invocations plus the pending timeout never exceed the calls made plus the timeout pending at the start |
| `InputValidation.InputValidationHook.Mounted` | assets/js/app.js:42-76 | after `mounted()` the flag is false, both listeners are attached, the debouncer has a 300 wait and nothing pending, `debounceTimer` is null and nothing has been sent |
| `InputValidation.InputValidationHook.PushValidation` | assets/js/app.js:46-52 | appends one report carrying the element's name and its current value |
| `InputValidation.InputValidationHook.HandleBlur` | assets/js/app.js:57-64 | the blur listener updates the hook as `BlurHandled` says: first non-blank blur sets the flag and reports once |
| `InputValidation.InputValidationHook.HandleInput` | assets/js/app.js:66-71 | the input listener calls the debounced reporter only once validated, as `InputHandled` says |
| `InputValidation.InputValidationHook.BlurEvent` | assets/js/app.js:74 | a blur event runs the blur listener only while it is attached |
| `InputValidation.InputValidationHook.InputEvent` | assets/js/app.js:75 | an input event sets the element's value and runs the input listener only while it is attached |
| `InputValidation.InputValidationHook.Elapse` | assets/js/app.js:46-55 | when the debounced timeout comes due, `pushValidation` sends the element's value at that moment |
| `InputValidation.InputValidationHook.Destroyed` | assets/js/app.js:78-85 | teardown detaches both listeners; the guarded `clearTimeout` is unreachable, so the pending timeout is kept |
| `InputValidationProperties.ValidatedNeverReverts` | assets/js/app.js:43-61 | `isValidatedOnce` never goes from true back to false, and becomes true only through a blur; name and wait never change |
| `InputValidationProperties.BlurReportsOnlyFirstNonBlank` | assets/js/app.js:57-64 | a blur changes the hook iff it is attached, not yet validated, and the value is not blank; it then sets the flag and appends one report of the current value, with no timer involved |
| `InputValidationProperties.SilentUntilValidated` | assets/js/app.js:66-71 | while the flag stays false, no report is sent and no timeout is scheduled, whatever the events |
| `InputValidationProperties.UntimedStep` | assets/js/app.js:57-71 | a blur, input or teardown either sends nothing or is the first non-blank blur, which sends one report |
| `InputValidationProperties.AtMostOneImmediateReport` | assets/js/app.js:57-71 | without time passing, only reports are appended; at most one, only if not yet validated, named after the element and never blank |
| `InputValidationProperties.TypingLeavesOnePending` | assets/js/app.js:66-71 | inputs less than the wait apart on a validated hook send nothing; the value is the last typed and one report is due a wait after it |
| `InputValidationProperties.TypingBurstReportsLastValue` | assets/js/app.js:46-71 | such a burst yields exactly one report, of the last value, once 300 units of quiet pass, and none before |
| `InputValidationProperties.DebouncedReportReadsValueWhenFired` | assets/js/app.js:46-51 | a tick sends a report iff the pending deadline is reached, and the report carries the element's value at that moment |
| `InputValidationProperties.DetachedHookOnlyRunsPendingTimeout` | assets/js/app.js:80-84 | after teardown the flag and the detached state stay, nothing new is scheduled, reports are only appended, and at most the one already-pending report is sent |
| `InputValidationProperties.PendingReportOutlivesDestroy` | assets/js/app.js:82-84 | a report pending at teardown is still sent when its deadline passes |
| `InputValidationProperties.ReportAfterDestroyExample` | assets/js/app.js:41-86 | mount, type, blur, type, destroy, wait 300: two reports, the second sent after teardown |
| `InputValidationProperties.CancellingDestroyIsSilent` | assets/js/app.js:79 | with a teardown that cancels the timeout, no report is sent after it, whatever follows |
| `InputValidationProperties.DetachedAndIdleStaysSilent` | assets/js/app.js:80-81 | a detached hook with nothing pending never sends a report |

## Findings

| source | as written | input that shows it | evidently intended | confidence | as-written member | corrected member |
|---|---|---|---|---|---|---|
| assets/js/app.js:82-84 | `destroyed()` clears `this.debounceTimer`. That field is `null` from line 44 on, and the live handle is the debounce closure's `timeout` | mount with value "", input "a@b.c", blur, input "a@b.co", destroy, 300 units pass: a report of "a@b.co" is sent after teardown | teardown cancels the pending debounced timeout (line 79 comment) | high; not executed | `InputValidationProperties.PendingReportOutlivesDestroy` | `InputValidationProperties.CancellingDestroyIsSilent` |

The corrected teardown is `InputValidation.DetachedCancelling`. The hook class and `Step`
keep the behaviour as written.

## Left out

- Connection bootstrap (lines 88-95, 103): the CSRF meta-tag lookup and the `LiveSocket`
  set-up and `connect`. This is network and DOM wiring over a framework that is not part
  of this model.
- Progress bar (lines 98-100): the topbar configuration and the page-loading listeners.
  This is UI styling over a vendor library.
- `window.liveSocket` (line 109): a global debug handle.
- `pushEventTo` is an append to the `reports` log. Delivery and the server's reply are
  not modelled.
- `addEventListener`/`removeEventListener` are the `attached` flag.
- `setTimeout`/`clearTimeout` are one optional deadline on an abstract integer clock.
  Timer drift and event-loop scheduling are not modelled.
- The order of a timeout and an event that fall at the same instant is not modelled. The
  model runs the timeout first.
- `Debounce.Debouncer.Elapse`: it does not invoke `func`. It returns the arguments `func`
  would run with, and the caller acts on them (the hook calls `PushValidation`). The
  `this` binding and the return value of `func` are not modelled; the source discards the
  return value.
- The element's `name` is fixed for the life of the hook.
- Changes to `value` that come from somewhere other than an input event, such as a server
  re-render, are not modelled.
