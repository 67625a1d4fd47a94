# Work session timer: a verified model of its session controller

The application is a single React component, `App` in `src/App.js`. It
takes a user through one timed work session at a time. Each session runs
through five phases: setup, task entry (five minutes), work (whatever is
left), wind-down (five minutes) and complete. The user can skip ahead in
any timed phase. The component also keeps a task list and counts the
sessions completed since the page was loaded.

This project models the logic under the rendering, in four modules:

- `Tasks` (`tasks.dfy`) covers the task list. It has ECMAScript `trim`,
  adding a task (`handleAddTask`) and toggling tasks (`handleToggleTask`).
  These are pure functions on sequences, because the component builds new
  arrays with spread and `map`.
- `Clock` (`clock.dfy`) covers `formatTime`. It has JavaScript's decimal
  printing of a whole number and a parser that reads an `M:SS` display
  back.
- `Session` (`session.dfy`) is the state machine over a `State` value.
  There is one function for each handler (minutes input, start, task
  input, add, toggle, skip, "Start Another"), one for each run of the
  timer effect (`Step`) and one for each firing of its interval (`Tick`).
  `Apply` dispatches an `Event`. It ignores the event when the control
  that raises it is not rendered in the current phase. `Run` folds a
  sequence of events. `TimerColor` models `getTimerStyle`. The lemmas
  cover the invariant of all reachable states, the linear phase order,
  the session counter, skip against timeout, and a whole session.
- `Controller` (`controller.dfy`) is the component as a class. Its fields
  are the hook state. Its methods update the fields in place. Each method
  is proved to produce the state that the matching `Session` function
  gives, and to keep `Session.Valid`. Each handler method requires the
  phase in which `renderContent` shows its control.

Some behaviour of the code that a reader may not expect, all kept in the
model:

- Task ids are clock readings (`Date.now()`), so nothing makes them
  unique. `ToggleTask` flips every task that carries the id.
- The stored task text is the untrimmed entry. Only the blank check uses
  the trimmed text.
- The text in the task entry field is not cleared when a new session
  starts.
- The colour fraction divides by the work length without the floor at 0.
  In every reachable work state that length is at least 60, so this
  makes no difference there (`TimerColorInWork`).

## Model

| member | source | states |
|---|---|---|
| Tasks.Trim | src/App.js:82 | The trimmed text is an infix of the input with only whitespace outside it and no whitespace at either end; it is empty exactly when every character is ECMAScript whitespace |
| Tasks.AddTask | src/App.js:80-89 | All-whitespace text leaves the list as it is; otherwise the old list is kept in order and exactly one task (given id, the untrimmed text, not completed) is appended at the end |
| Tasks.ToggleTask | src/App.js:91-97 | Same length, ids and texts; a task's completed flag is flipped exactly when its id equals the argument |
| Tasks.ToggleAbsent | src/App.js:92-96 | Toggling an id that no task carries leaves the list unchanged |
| Tasks.ToggleTwice | src/App.js:92-96 | Toggling the same id twice restores the original list |
| Tasks.ToggleCommutes | src/App.js:92-96 | Toggles of two ids give the same list in either order |
| Clock.Decimal | src/App.js:102 | The printed form of a whole number is a non-empty string of digits, one digit exactly below 10, with no leading zero |
| Clock.DecimalRoundTrip | src/App.js:102 | Reading the printed digits back gives the number |
| Clock.FormatTime | src/App.js:99-103 | The display is the unpadded minute count, a colon, then the seconds within the minute as exactly two digits (zero-padded) |
| Clock.FormatTimeRoundTrip | src/App.js:99-103 | Parsing the display as `M:SS` gives back the number of seconds |
| Clock.FormatTimeExamples | src/App.js:99-103 | 65 s shows as "1:05", 5 s as "0:05", 660 s as "11:00" |
| Session.WorkSeconds | src/App.js:36-39 | Work length is the session minus task entry and wind-down, floored at 0 (also for NaN); for a startable session the three phases add up to exactly the minutes entered, and work lasts at least 60 s |
| Session.InitialValid | src/App.js:10-21 | The first-render state satisfies the invariant |
| Session.EnterMinutes | src/App.js:159-161 | Only the session length changes; in setup the invariant is kept whatever was typed |
| Session.Start | src/App.js:68-78 | With at least 11 minutes: task entry, 300 s, empty task list, nothing else changed; otherwise (including NaN) nothing changes; the invariant is kept |
| Session.Step | src/App.js:26-53 | Outside ticking phases or with time left, no change; at 0 the next phase in the fixed order is entered with its full length (work: the computed work length), the counter goes up by one exactly when leaving wind-down, tasks/minutes/entry text unchanged; the invariant is kept |
| Session.Tick | src/App.js:55-61 | In a ticking phase with time left, exactly one second is taken off and nothing else changes; otherwise nothing happens; the countdown never goes below 0 |
| Session.Skip | src/App.js:125-129 | The countdown becomes 0 and nothing else changes; the invariant is kept |
| Session.StartAnother | src/App.js:244 | Phase becomes setup and nothing else changes, the counter in particular; from complete the invariant is kept |
| Session.EnterTaskText | src/App.js:180 | Only the entry text changes |
| Session.SubmitTask | src/App.js:80-89 | The list becomes AddTask of the entry text with the given id; the entry is cleared exactly when the task was added; nothing else changes |
| Session.ClickTask | src/App.js:91-97 | The list becomes ToggleTask of the id; nothing else changes |
| Session.Apply | src/App.js:133-251 | An event whose control is not on screen in the current phase changes nothing; any event on a valid state keeps it valid; the phase stays or moves one step in setup→taskEntry→work→windDown→complete→setup; the counter rises by one exactly on windDown→complete and never otherwise; the session length changes only in setup; the task list is emptied only by a start |
| Session.RunKeepsValid | src/App.js:26-78 | Every state reached from a valid state by any sequence of events is valid, and the counter never decreases |
| Session.ReachableStates | src/App.js:10-64 | From the first render, the countdown is never negative and a session in progress is at least 11 minutes long |
| Session.Ticks | src/App.js:56-58 | Repeated firings keep a non-negative countdown non-negative and keep the invariant |
| Session.TicksCountDown | src/App.js:56-58 | In a ticking phase, n firings (n at most the time left) take off exactly n seconds and change nothing else |
| Session.Timeout | src/App.js:33-53 | The natural end of a phase leaves a non-negative countdown |
| Session.SkipIsTimeout | src/App.js:125-129 | Skipping yields exactly the state the countdown reaches by itself, so the following effect run makes the same transition as a natural timeout |
| Session.StepSettles | src/App.js:26-64 | On a valid state a second effect run right after the first changes nothing: no double transition |
| Session.WholeSession | src/App.js:5-53 | A session started with enough minutes and run out passes task entry, work and wind-down, whose lengths sum to exactly the minutes entered times 60, and ends complete with the counter one higher |
| Session.TimerColor | src/App.js:106-122 | No colour outside work; in work with non-zero work length, red exactly when the fraction left is below 0.2, yellow exactly when it is in [0.2, 0.5), green exactly when it is at least 0.5 |
| Session.TimerColorInWork | src/App.js:106-122 | In every reachable work state the work length is positive and the colour is red iff 5·left < work, yellow iff 2·left < work ≤ 5·left, green iff work ≤ 2·left |
| Controller.SessionController.constructor | src/App.js:10-21 | The fields start as the first-render state, which is valid |
| Controller.SessionController.SetMinutes | src/App.js:159-161 | Updates the fields as Session.EnterMinutes does and keeps them valid |
| Controller.SessionController.Start | src/App.js:68-78 | Reports whether the session started (false exactly when the alert shows) and updates the fields as Session.Start does |
| Controller.SessionController.Step | src/App.js:26-53 | Updates the fields as Session.Step does and keeps them valid |
| Controller.SessionController.Tick | src/App.js:55-61 | Updates the fields as Session.Tick does; the countdown stays non-negative |
| Controller.SessionController.Skip | src/App.js:125-129 | Updates the fields as Session.Skip does and keeps them valid |
| Controller.SessionController.StartAnother | src/App.js:244 | Updates the fields as Session.StartAnother does; the counter is unchanged |
| Controller.SessionController.SetCurrentTask | src/App.js:180 | Updates the fields as Session.EnterTaskText does |
| Controller.SessionController.AddTask | src/App.js:80-89 | Updates the fields as Session.SubmitTask does |
| Controller.SessionController.ToggleTask | src/App.js:91-97 | Updates the fields as Session.ClickTask does |

## Left out

- Rendering: the JSX of `renderContent`, the CSS and the texts. The only
  part kept is which controls each phase shows (`Session.OnScreen`).
- The `alert` on a rejected start. A rejection is modelled as "state
  unchanged", and `Controller.SessionController.Start` returns `false`.
- `setInterval`/`clearInterval` timing and React's scheduling and batching
  of state updates. Each effect run and each interval firing is one
  discrete step (`Step`, `Tick`), and any interleaving of them with user
  events is allowed.
- `Date.now()`: the task id is a parameter (`now`). No uniqueness is
  claimed.
- JavaScript number arithmetic. The model computes with exact
  integers, and the component computes with doubles. The two differ
  above 2^53. There `totalSessionMinutes * 60 - 600` is no longer
  exact. From 2^54 seconds up, `prevSeconds - 1` returns the same value,
  so the countdown stops. This happens for a length of about
  300000000000000 minutes. At such sizes the exact countdown of
  `Session.TicksCountDown` and the exact total of
  `Session.WholeSession` do not hold in the component. `${minutes}` also
  switches to exponent notation from 10^21 up, and `Clock.Decimal` does
  not model that.
- `parseInt` of the minutes field. Its result is taken as given, either a
  whole number of any size or NaN. The Infinity that parseInt returns for
  digit strings too long for a double is not modelled.
- `e.preventDefault()` in the form handlers, which has no effect on state.
- Session.TimerColor: the fraction is compared as an exact quotient of
  integers. Floating-point rounding of `secondsLeft / workTime` is not
  modelled.
- Clock.FormatTime: defined for non-negative counts only. The component
  only formats `secondsLeft`, which `Session.ReachableStates` shows is
  never negative. What the component would print for a negative count
  is not modelled.
