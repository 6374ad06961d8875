# ai_demos_tools core, modelled in Dafny

This project models the logic of the ai_demos_tools teaching pages that can be
stated precisely, and proves properties of that model. The pages are JavaScript
demos; the project also covers one Python script. Four groups are modelled.

- **ES6 page** (`frontend/02_javascript_es6_plus/script.js`):
  - the snippet playground: trimming, the per-run capture console, the fixed
    sequence of output lines, and the colour each line is painted in;
  - the demo console: an append-only panel capped at 100 lines, with clear
    and show/hide;
  - the `BankAccount` class.
- **JSX playgrounds** on the React page and the state-management page. These
  share one pipeline: Babel transform, then `new Function`, then call, then
  render or show the error. Modelled are the React page's component
  playground (its `(output, error)` state and display rule) and the two
  page-level Run handlers.
- **Reducers and updaters**:
  - `todoReducer` and `addTodo`;
  - the `useCounter` hook and both Redux `counterReducer` copies;
  - the add/remove user pattern;
  - the record updaters of `StateUpdatesDemo` and `FormsDemo.handleChange`.
- **Small step functions**:
  - the fundamentals page: form-submit validation, the transition button's
    four-message cycle, and `showNotification`'s single-notification rule
    and colour fallback;
  - the RabbitMQ producer's input loop: the quit test, blank input becoming
    a numbered greeting, and the counter update.

Foreign code is never given meaning. That covers `Babel.transform`,
`new Function` with the call that follows it, `JSON.stringify`,
`ReactDOM.render` and `Date.now()`. Each one becomes a function-typed
parameter: an oracle, meaning a stand-in whose behaviour is supplied from
outside. "The code is never run" is stated as "the result is the same whatever
the oracle does". JavaScript values are the `Js.JsValue` datatype, with
integer numbers only. A call into foreign code ends in `Js.Completion`:
either `Return(value)` or `Throw(message)`, where `message` is the thrown
value's `.message`.

Modules, one per file:

| Module | Contents |
|---|---|
| `Wrappers` | the optional value used for page elements and states that may be missing |
| `Text` | substring search, trimming by a whitespace table, decimal rendering, join, ASCII lower-casing |
| `Js` | JavaScript values, truthiness, `join`, `trim` |
| `Lists` | order-preserving `filter` |
| `ConsoleSink` | the ES6 page's demo console |
| `CaptureConsole` | the mock console given to snippets |
| `SnippetPlayground` | the ES6 page's run controller and line colouring |
| `BankAccount` | the classes demo's bank account |
| `JsxPlayground` | the React/Redux playgrounds |
| `Todos`, `Counters`, `UserList`, `Records` | reducers and updaters |
| `Fundamentals` | the HTML/CSS page |
| `Producer` | the RabbitMQ producer loop |

Behaviour worth knowing, as the pages implement it:

- **No transform/execute distinction.** Failures carry no phase; every page
  shows the bare message. A compile error and a run-time throw produce
  identical output (`SnippetPlayground.CompileAndRunFailuresAlike`).
- **Output buffered before a throw is not kept.** The ES6 playground replays
  its buffer only after the snippet returns, so a throwing snippet's console
  output is never shown (`SnippetPlayground.ThrowHidesBufferedOutput`).
- **No sequence numbers.** Log lines carry none.
- **Blank source is not executed.** On the ES6 page it produces a prompt line
  and nothing else. The JSX handlers do not trim; they pass blank source to the
  transform like any other text.

## Model

| member | source | states |
|---|---|---|
| Js.JoinArgs | frontend/02_javascript_es6_plus/script.js:1136 | no arguments join to the empty string; one argument joins to its own string conversion (empty for `null`/`undefined`) |
| Js.JoinArgsSnoc | frontend/02_javascript_es6_plus/script.js:1136 | each further argument adds one space and its own rendering at the end, so any number of arguments join in order |
| Text.JoinSnoc | frontend/02_javascript_es6_plus/script.js:1136 | joining one more part appends the separator and that part |
| Js.JoinArgsPair | frontend/02_javascript_es6_plus/script.js:1136 | two arguments join around exactly one space |
| Js.Trim | frontend/02_javascript_es6_plus/script.js:1121 | trimming never lengthens, and yields the empty string exactly when every character is JavaScript whitespace |
| Text.TrimBy | frontend/02_javascript_es6_plus/script.js:1121 | stripping by a whitespace table never lengthens the text, and leaves nothing iff every character is in the table |
| Text.TrimmedEndsNotBlank | frontend/02_javascript_es6_plus/script.js:1121 | when something is left after stripping, it neither starts nor ends on a whitespace character |
| Text.ContainsAcrossSpace | frontend/02_javascript_es6_plus/script.js:1170-1172 | a space-free pattern occurs in `p + " " + q` iff it occurs in `p` or in `q` (the basis of every colour proof) |
| Text.DecimalRoundTrip | demos/rabbitmq_demo/producer.py:105 | reading back the decimal spelling of a counter gives the counter |
| Text.DecimalInjective | demos/rabbitmq_demo/producer.py:105 | distinct counters have distinct spellings |
| Lists.Keep | frontend/03_react_basics/script.js:732 | `filter` keeps only passing elements, drawn from the input, and every passing element survives |
| Lists.KeepAppend | frontend/04_state_management/script.js:112 | filtering a concatenation filters each part in place (order is preserved) |
| Lists.KeepAll | frontend/04_state_management/script.js:112 | a filter that every element passes returns its input |
| Lists.KeepIdempotent | frontend/03_react_basics/script.js:732 | filtering twice equals filtering once |
| ConsoleSink.LogLine | frontend/02_javascript_es6_plus/script.js:41-46 | the new line reads `"> " + message`; its kind is the one the caller passes, `info` when none is given |
| ConsoleSink.LogToConsole | frontend/02_javascript_es6_plus/script.js:41-55 | a missing panel stays missing; the new line is last; below 100 lines it is a plain append; from 100 lines on exactly the oldest line is dropped; a panel within 100 lines keeps its newest 100 after the append |
| ConsoleSink.LogAllKeepsNewest | frontend/02_javascript_es6_plus/script.js:48-54 | from at most 100 lines, any run of appends, each with or without a kind, leaves exactly the newest 100 lines of everything logged, in order |
| ConsoleSink.OverflowDropsOldest | frontend/02_javascript_es6_plus/script.js:51-53 | logging more than 100 messages, with any kinds, into an empty panel keeps the lines of the last 100 of them |
| ConsoleSink.NewestOfNewest | frontend/02_javascript_es6_plus/script.js:51-53 | evicting to the newest `n` before more appends does not change the newest `n` afterwards |
| ConsoleSink.ClearConsole | frontend/02_javascript_es6_plus/script.js:57-64 | clearing leaves exactly the two header lines, and does nothing without a panel |
| ConsoleSink.ClearIdempotent | frontend/02_javascript_es6_plus/script.js:57-64 | clearing twice equals clearing once, and nothing logged before a clear survives it |
| ConsoleSink.LogAllKeepsPresence | frontend/02_javascript_es6_plus/script.js:42 | logging never creates or removes the panel |
| ConsoleSink.ToggleConsole | frontend/02_javascript_es6_plus/script.js:66-72 | with the section present the flag flips and the display style matches the flag; without it nothing changes |
| ConsoleSink.ToggleTwice | frontend/02_javascript_es6_plus/script.js:66-72 | two toggles restore the flag, with the style agreeing with it |
| CaptureConsole.Format | frontend/02_javascript_es6_plus/script.js:1135-1140 | a buffered line is the method's label followed by the space-joined arguments |
| CaptureConsole.Buffered | frontend/02_javascript_es6_plus/script.js:1132-1140 | a run's buffer starts empty and holds one formatted line per call, in call order |
| CaptureConsole.BufferedAppend | frontend/02_javascript_es6_plus/script.js:1132-1140 | the buffer of a run is the buffer of its earlier calls followed by that of its later ones |
| CaptureConsole.LabelledFormatDetermines | frontend/02_javascript_es6_plus/script.js:1137-1139 | the text of an `error`/`warn`/`info` line determines the method and the joined arguments |
| CaptureConsole.LogCanImitateError | frontend/02_javascript_es6_plus/script.js:1136-1137 | `log('ERROR:', x)` buffers exactly what `error(x)` buffers, for every value `x` including `null` and `undefined` |
| SnippetPlayground.Outputs | frontend/02_javascript_es6_plus/script.js:1149-1151 | the buffer is replayed as one output line per call, in call order |
| SnippetPlayground.BlankSourceNeverRuns | frontend/02_javascript_es6_plus/script.js:1121-1125 | all-whitespace source yields the prompt line alone, whatever the executor would do |
| SnippetPlayground.ReturnedOutcome | frontend/02_javascript_es6_plus/script.js:1149-1158 | after a normal return: one output line per buffered call in order, a return-value line carrying the stringified result iff the result is not `undefined`, and the success line last |
| SnippetPlayground.SuccessfulRunLines | frontend/02_javascript_es6_plus/script.js:1127-1158 | a successful run shows the running line, every buffered output in order, a return-value line iff the result is not `undefined`, and the success line last |
| SnippetPlayground.ThrowHidesBufferedOutput | frontend/02_javascript_es6_plus/script.js:1143-1162 | a throwing snippet shows only the running line and one error line; its buffered output is lost |
| SnippetPlayground.CompileAndRunFailuresAlike | frontend/02_javascript_es6_plus/script.js:1143-1162 | a compile error and a run-time throw with the same message produce identical lines |
| SnippetPlayground.StringifyFailureAfterOutputs | frontend/02_javascript_es6_plus/script.js:1149-1161 | when stringifying the result throws, the outputs have already been shown and one error line follows |
| SnippetPlayground.OutcomeEndsOnce | frontend/02_javascript_es6_plus/script.js:1129-1162 | after the running line come only outputs and a return line, then one final success or error line; it is the success line iff the code compiled, returned, and its result stringified |
| SnippetPlayground.RunEndsOnce | frontend/02_javascript_es6_plus/script.js:1121-1162 | every run ends in the prompt (iff the source is blank), the success line or an error line, and no earlier line is either |
| SnippetPlayground.GreyWhenUnlabelled | frontend/02_javascript_es6_plus/script.js:1170-1172 | a line with `//` and no upper-case `E` or `W` is painted grey |
| SnippetPlayground.PromptGrey | frontend/02_javascript_es6_plus/script.js:1123 | the prompt line is grey |
| SnippetPlayground.RunningGrey | frontend/02_javascript_es6_plus/script.js:1127 | the running line is grey |
| SnippetPlayground.SuccessGrey | frontend/02_javascript_es6_plus/script.js:1158 | the success line is grey |
| SnippetPlayground.FailureColour | frontend/02_javascript_es6_plus/script.js:1161-1172 | the error line is red iff its message contains `ERROR`, amber iff it contains `WARNING` but not `ERROR`, grey otherwise; the page's own `Error:` never makes it red |
| SnippetPlayground.ReturnValueMentions | frontend/02_javascript_es6_plus/script.js:1155-1171 | the return-value line contains `ERROR` (or `WARNING`) iff the stringified value does; the fixed head mentions neither |
| SnippetPlayground.ReturnValueColour | frontend/02_javascript_es6_plus/script.js:1155-1172 | the return-value line is red iff the JSON contains `ERROR`, amber iff `WARNING` without `ERROR`, grey otherwise |
| SnippetPlayground.ErrorOutputRed | frontend/02_javascript_es6_plus/script.js:1137-1170 | `console.error` output is always red, whatever its arguments |
| SnippetPlayground.WarnOutputColour | frontend/02_javascript_es6_plus/script.js:1138-1171 | `console.warn` output is amber iff its arguments do not mention `ERROR` |
| SnippetPlayground.LogToPlayground | frontend/02_javascript_es6_plus/script.js:1165-1176 | one line is appended, painted by the colour rule, and earlier lines are kept; nothing happens without the panel |
| SnippetPlayground.LogAllToPlayground | frontend/02_javascript_es6_plus/script.js:1149-1151 | each emitted line is appended in order with its colour, after the panel's earlier lines |
| SnippetPlayground.RunPlaygroundCode | frontend/02_javascript_es6_plus/script.js:1115-1163 | without the editor or output element nothing changes; otherwise exactly the run's lines are appended, in order |
| BankAccount.Deposit | frontend/02_javascript_es6_plus/script.js:1060-1063 | a deposit always raises the balance by exactly the amount and returns the new balance |
| BankAccount.Withdraw | frontend/02_javascript_es6_plus/script.js:1065-1071 | a withdrawal succeeds iff the amount is at most the balance, lowering it by exactly the amount; otherwise it throws `Insufficient funds` and the account is unchanged |
| BankAccount.DepositThenWithdraw | frontend/02_javascript_es6_plus/script.js:1060-1071 | withdrawing what was just deposited is allowed iff the balance was non-negative, and then restores the account |
| BankAccount.WithdrawKeepsSolvent | frontend/02_javascript_es6_plus/script.js:1065-1071 | no withdrawal takes a non-negative balance below zero |
| BankAccount.ReplayKeepsSolvent | frontend/02_javascript_es6_plus/script.js:1055-1076 | a session of non-negative deposits and arbitrary withdrawals keeps a non-negative balance non-negative |
| BankAccount.DemoSession | frontend/02_javascript_es6_plus/script.js:1078-1081 | the page's own session reports 150 after the deposit and 120 after the withdrawal |
| JsxPlayground.Pipeline | frontend/03_react_basics/script.js:828-835 | a transform error becomes a throw with its message; otherwise the transformed code is executed once with the page's parameters |
| JsxPlayground.TransformErrorNeverExecutes | frontend/03_react_basics/script.js:828-835 | when the transform fails, the outcome is a throw that is the same whatever the executor would do |
| JsxPlayground.RunCode | frontend/03_react_basics/script.js:825-842 | after a run, error and output are never both set; success stores the result and clears the error; a throw stores the message and clears the output |
| JsxPlayground.EditCode | frontend/03_react_basics/script.js:852 | editing changes the code only; the panels keep the last run |
| JsxPlayground.RunCodeForgetsHistory | frontend/03_react_basics/script.js:825-842 | a run's resulting state depends only on the code, not on what earlier runs left |
| JsxPlayground.DisplayAfterRun | frontend/03_react_basics/script.js:871-877 | after a run the two panel guards never both hold; the error guard holds iff the run threw with a truthy message, the output guard iff it returned a truthy value |
| JsxPlayground.ConsistentShowsAtMostOne | frontend/03_react_basics/script.js:871-877 | in any state without both error and output, at most one panel shows |
| JsxPlayground.RunHandler | frontend/03_react_basics/script.js:956-984 | the handler renders something iff both the editor and the output element exist |
| JsxPlayground.RunReactCode | frontend/03_react_basics/script.js:956-984 | the React page's handler renders something iff both elements exist |
| JsxPlayground.RunStateCode | frontend/04_state_management/script.js:204-225 | the state page's handler renders something iff both elements exist |
| JsxPlayground.HandlerRendersOne | frontend/04_state_management/script.js:210-223 | a click renders exactly one view: the error panel with the thrown message when transform, execution or rendering throws, the returned value otherwise |
| JsxPlayground.HandlerAgreesWithRunCode | frontend/03_react_basics/script.js:825-842 | for a renderer that never throws, the React page's handler shows the error panel exactly when the component playground records an error, with the same message, and otherwise renders its output |
| Todos.ToggleAll | frontend/03_react_basics/script.js:725-730 | toggling keeps length, order, ids and texts, and flips `completed` exactly on matching ids |
| Todos.DeleteAll | frontend/03_react_basics/script.js:731-732 | deleting keeps only todos with other ids, and every one of them |
| Todos.TodoReducer | frontend/03_react_basics/script.js:717-736 | `ADD_TODO` appends one uncompleted todo and keeps the earlier ones; toggle and delete act as above; any other type returns the state unchanged |
| Todos.ToggleTwiceIdentity | frontend/03_react_basics/script.js:725-730 | toggling the same id twice restores the list |
| Todos.DeleteAbsentUnchanged | frontend/03_react_basics/script.js:731-732 | deleting an id that no todo carries leaves the list unchanged |
| Todos.DeleteIdempotent | frontend/03_react_basics/script.js:731-732 | deleting twice equals deleting once |
| Todos.AddThenDelete | frontend/03_react_basics/script.js:719-732 | deleting a freshly added todo by its id undoes the add |
| Todos.DeleteRemovesEveryMatch | frontend/03_react_basics/script.js:731-732 | every todo carrying the id is removed, including duplicates: remaining plus removed equals the original count |
| Todos.AddTodo | frontend/03_react_basics/script.js:741-746 | non-blank input appends a todo with the untrimmed text and clears the box; blank input changes nothing |
| Todos.BlankInputAddsNothing | frontend/03_react_basics/script.js:742 | all-whitespace input adds nothing |
| Todos.AddTodoTwice | frontend/03_react_basics/script.js:741-746 | a second press adds nothing |
| Counters.CounterReducer | frontend/04_state_management/script.js:28-35 | `INCREMENT`/`DECREMENT` move the count by one, `RESET` gives `{count: 0}`, others return the state; an undefined state counts as `{count: 0}` |
| Counters.PlaygroundCounterReducer | frontend/04_state_management/script.js:170-176 | the playground copy returns the state unchanged on `RESET` |
| Counters.InitialState | frontend/04_state_management/script.js:28 | Redux's initialising action yields `{count: 0}` in both copies |
| Counters.PlaygroundAgrees | frontend/04_state_management/script.js:170-176 | the two copies agree on every action but `RESET`, where they differ whenever the count is non-zero |
| Counters.IncrementDecrementInverse | frontend/04_state_management/script.js:30-31 | increment then decrement, or the reverse, restores the state |
| Counters.DispatchNet | frontend/04_state_management/script.js:28-35 | without `RESET`, the count moves by increments minus decrements, in any order |
| Counters.ResetForgets | frontend/04_state_management/script.js:32 | the state after a `RESET` does not depend on anything dispatched before it |
| Counters.HookStep | frontend/03_react_basics/script.js:673-680 | `increment`/`decrement` move the count by one; `reset` returns to the initial value |
| Counters.HookRunNet | frontend/03_react_basics/script.js:676-677 | without a reset, the count is the start plus ups minus downs |
| Counters.HookResetForgets | frontend/03_react_basics/script.js:678 | `reset` returns to the initial value whatever the history |
| UserList.AddUser | frontend/04_state_management/script.js:104-109 | with both fields non-empty, one user with the form's data and a fresh id is appended and the form cleared; otherwise nothing changes |
| UserList.RemoveUser | frontend/04_state_management/script.js:111-113 | exactly the users with the id are removed; the others stay; the form is untouched |
| UserList.AddThenRemove | frontend/04_state_management/script.js:104-113 | removing a freshly added user restores the list |
| UserList.RemoveAbsent | frontend/04_state_management/script.js:111-113 | removing an id nobody carries changes nothing |
| UserList.AddUserTwice | frontend/04_state_management/script.js:104-109 | a second add right after one adds nothing |
| Records.UpdateName | frontend/03_react_basics/script.js:386-391 | only the name changes |
| Records.UpdateMultiple | frontend/03_react_basics/script.js:393-400 | all three fields are overwritten with the fixed values |
| Records.ResetUser | frontend/03_react_basics/script.js:402-404 | the record returns to its initial value |
| Records.UpdatersIdempotent | frontend/03_react_basics/script.js:380-404 | each button pressed twice acts as once; `updateMultiple` and `resetUser` ignore the previous record; name after multiple gives Alice with Bob's email and age |
| Records.HandleChange | frontend/03_react_basics/script.js:440-445 | the named field takes the value; every other field is untouched; the key set gains at most that field |
| Records.HandleChangeLastWins | frontend/03_react_basics/script.js:440-445 | two edits of one field keep the second; edits of different fields commute |
| Records.HandleChangeKeepsShape | frontend/03_react_basics/script.js:432-445 | edits of existing fields keep the form's keys |
| Fundamentals.Background | frontend/01_html_css_fundamentals/script.js:124-130 | each known type gets its own mapped colour; every other type gets the info colour, and only they and `info` do |
| Fundamentals.BackgroundDistinguishes | frontend/01_html_css_fundamentals/script.js:124-129 | the four known types have four different colours |
| Fundamentals.ShowNotification | frontend/01_html_css_fundamentals/script.js:96-132 | the first existing notification is removed and the new one appended last, with type `info` by default |
| Fundamentals.SingleNotification | frontend/01_html_css_fundamentals/script.js:97-101 | starting from at most one, any number of calls leave exactly the last notification |
| Fundamentals.Submit | frontend/01_html_css_fundamentals/script.js:10-24 | with all three fields filled, the success notification shows and the form resets; otherwise a warning shows and the form is kept |
| Fundamentals.SubmitColour | frontend/01_html_css_fundamentals/script.js:18-22 | the submit notification is green iff the form was complete |
| Fundamentals.Click | frontend/01_html_css_fundamentals/script.js:64-67 | a click shows one of the four messages and advances the counter by one |
| Fundamentals.Shown | frontend/01_html_css_fundamentals/script.js:64-67 | from counter `c`, `n` clicks show `n` messages, the `k`-th being message `(c + k) mod 4` |
| Fundamentals.ClickCycle | frontend/01_html_css_fundamentals/script.js:55-67 | the `k`-th click from the start shows `messages[k mod 4]`, so the messages repeat with period 4 |
| Producer.QuitSpellings | demos/rabbitmq_demo/producer.py:99 | the quit test accepts exactly the four letters `quit` in any mix of cases, with nothing around them |
| Producer.DefaultMessageInjective | demos/rabbitmq_demo/producer.py:105 | different counter values give different greetings |
| Producer.ProducerStep | demos/rabbitmq_demo/producer.py:99-108 | a quit line stops the loop; a blank line sends the greeting for the counter and advances it; any other line is sent verbatim with the counter unchanged |
| Producer.SessionSteps | demos/rabbitmq_demo/producer.py:95-111 | the session runs the loop body line by line |
| Producer.QuitIsExact | demos/rabbitmq_demo/producer.py:99-108 | ` quit` is sent as a message, while `QUIT` ends the loop |
| Producer.QuitEndsSession | demos/rabbitmq_demo/producer.py:99-101 | nothing typed after the first quit line is sent |
| Producer.SessionLength | demos/rabbitmq_demo/producer.py:95-111 | before a quit, every line sends exactly one message |
| Producer.SessionNumbering | demos/rabbitmq_demo/producer.py:94-108 | a blank line's greeting is numbered by the counter plus the blank lines before it; other lines are sent verbatim |
| Producer.GreetingsConsecutive | demos/rabbitmq_demo/producer.py:94-106 | from a fresh start the greetings are numbered 1, 2, 3, ... whatever custom messages come between, and no two are equal |

## Left out

- Foreign engines: Babel's JSX transform, `new Function`, the call that follows it, `JSON.stringify` and `ReactDOM.render` are oracles with no semantics of their own. React hook batching, `Redux.createStore` and rendering are not modelled.
- A thrown `null` or `undefined`: reading `.message` on it throws again inside the `catch` blocks. The model assumes every throw has a `.message` to read.
- The real `console` stays reachable from snippets through `globalThis`. Calls on it are not captured and are not modelled.
- Asynchronous output: console calls a snippet makes after it returns (from timers or promises) go into that run's buffer, which has already been replayed and is never read again, so they are never shown; on the JSX pages `console` is the browser's own console, which writes to no panel. Timers, animations, scrolling, fetch and async demos are all omitted, including the 3-second self-removal of a notification and the transition button's 2-second revert.
- DOM detail: CSS classes, styles, modals and scroll positions are omitted. The 100-line cap is modelled on lines. In the page it counts element children but removes `firstChild`, which right after a clear can be a whitespace text node, so after a clear the bound can differ by up to three: the clear leaves three whitespace text nodes around the two header lines, and each over-limit append that removes one of them leaves the element count unchanged, so the panel settles at 103 lines.
- ConsoleSink.LogToConsole: the per-line `kind` class is carried as text; the styling it selects is not modelled.
- Numbers are integers: floating point (the `Temperature` demo, percentages, `Math.random`), number spellings from 1e21 upward and 2^53 precision are omitted. JavaScript values are reduced to what the pages test: truthiness and string conversion.
- JsxPlayground.RunCode: a result that is a function is stored like any other value. In the page `setOutput` is React's state setter, which calls a function argument as an updater on the previous output (frontend/03_react_basics/script.js:837) and stores what that call returns, so for a snippet returning a component function the stored output, and what `DisplayAfterRun` and `HandlerAgreesWithRunCode` say is shown, differ from the page. Function values have no case of their own in `Js.JsValue`.
- JsxPlayground.DisplayAfterRun: the two panel predicates describe the JSX guards `{error && ...}` and `{output && !error && ...}` (frontend/03_react_basics/script.js:871-877), not what React manages to render. A plain-object result such as `{a: 1}` passes the output guard, but React throws while rendering `{output}` inside the panel, and with no error boundary the whole playground unmounts, so neither panel shows. A result of `0` fails the output guard, but `0 && ...` leaves a stray "0" text node on the page.
- JsxPlayground.HandlerAgreesWithRunCode: the agreement is proved only for a renderer that never throws. For a result `ReactDOM.render` rejects, such as a plain object, the page handler catches the throw and shows the error panel (frontend/03_react_basics/script.js:975-982), while the component playground records the object as output with no error, so the two disagree.
- BankAccount.Deposit: amounts are unbounded integers rather than doubles, so rounding is not modelled.
- Fundamentals.Background: keys that objects inherit (such as `constructor`) are treated like unknown types. In the page, `colors[type]` finds an inherited value for them, so no fallback happens and the browser rejects the resulting style.
- Fundamentals.Submit: `this.reset()` restores the values the markup declares; these are a parameter. `FormData` and reading the inputs are omitted.
- Producer.IsQuit: only ASCII letters are lower-cased. No other character lower-cases to one of the letters of `quit`, so the quit test is exact, but `Text.Lower` is not Python's full `str.lower`.
- The producer's connection, queue declaration, publishing, timestamps and `KeyboardInterrupt` handling are network or terminal I/O. The model records the messages handed to `send_message`.
- Celery demos, the Flask, FastAPI and Express servers, and pages that only inject fixed HTML hold no logic beyond I/O.
