# Habit and streak tracker: the client-side logic, in Dafny

This project models the four pieces of a React habit and streak tracker that
hold real logic, and proves what they promise:

- **Habit check-in grid** (`src/components/HabitList.jsx`, module `HabitGrid`).
  Each habit shows a seven-day window that ends today. A cell is checked when
  the `habit_check_ins` table has a row for that habit and day. The habit's
  streak is the run of checked cells at the end of the window. A cell can be
  toggled for today or a past day, which deletes or inserts the row and then
  reloads. A new habit needs a name that is not blank after trimming. The
  table is a set of `(habitId, day)` pairs, and dates are integer day numbers.
- **Coach client** (`src/lib/gemini.js`, module `Coach`). The chat history is
  rewritten into a request. Any role other than `user` becomes `model`, a
  leading model turn is dropped, and a `[SYSTEM]` turn holding the streak is
  put in front, followed by a model turn saying "Entendido.". The two
  endpoints are tried in order, and the first OK answer wins. With no API key,
  a thrown error, or no OK answer, the reply is one of seven canned lines
  followed by " (Coach Offline 🤖)".
- **Daily check-in button** (`src/components/StreakCounter.jsx`, module
  `StreakCounter`). The first press adds one to the streak and latches
  `completedToday`. Every later press does nothing.
- **Chat panel** (`src/components/AICoach.jsx`, module `ChatLog`). The log
  starts with a greeting that names the streak. A send is accepted only with
  non-blank input and no reply outstanding. It appends the user's message,
  clears the input and sets `loading`. The reply is then appended as a model
  message and `loading` is cleared.

Two helper modules support them. `Text` models JavaScript's `trim` and the
decimal rendering of an integer in a template literal. `Wrappers` models a
value that may be `undefined` as an `Option`.

State that the source updates in place is a class with fields: `HabitList`
and the `Store` it writes, `StreakCounter` and `AICoach`. The window and the
fallback are functions. The request rewrite is the method `BuildContents`,
specified by the predicate `IsRequestFor`. The loops in `calculateStreak`,
`getLast7Days` and the endpoint `for` loop of `sendMessageToCoach` are methods
with loop invariants.

Things outside these files are parameters:

- the signed-in user, as `Option<UserId>`;
- the outcome of every query and write, as a `bool`;
- the clock, as day numbers: `windowEnd` for the window a toggle computes and
  `today` for its later reading, and one `today` for a whole reload;
- the network, as a function from URL and request body to an outcome;
- the random index into the canned lines.

Behaviour worth noting:

- An OK response whose body lacks the reply text makes `sendMessageToCoach`
  return `undefined`. It does not fall back to the canned reply, so the reply
  is not always non-empty (`Coach.SendMessageToCoach`, `Coach.Attempt`).
- A future-date toggle only shows an alert and returns. It raises no error.
  `getLast7Days` reads the clock once per iteration, and `toggleCheckIn` then
  reads it once more for `today`: eight readings in all. Modelling the window's
  seven as one, the guard can only fire if the clock went back before the
  `today` reading (`HabitGrid.FutureGuardNeedsClockSkew`).
- The chat greeting is built from the `currentStreak` prop once, when the
  panel mounts. Each send tells the coach the prop's value at that moment, so
  the two can differ.
- Habits are read in creation order, so a newly added habit is listed last.
- Failed check-in writes are not inspected. The toggle still reloads as if
  the write had succeeded.

## Model

| member | source | states |
|---|---|---|
| `HabitGrid.CalculateStreak` | src/components/HabitList.jsx:148-158 | the backward scan with `break` returns the length of the trailing run of checked cells (`TrailingTrue`), which is at most the window length |
| `HabitGrid.TrailingTrueIsLongestTrueSuffix` | src/components/HabitList.jsx:148-158 | the streak is the longest all-true suffix: it fits in the window, every cell it covers is checked, and the cell just before it is unchecked |
| `HabitGrid.LastUncheckedGivesZero` | src/components/HabitList.jsx:149-154 | an empty window, or one whose newest cell is unchecked, has streak 0 |
| `HabitGrid.StreakExample` | src/components/HabitList.jsx:148-158 | `[T,T,F,T,T,T,T]` has streak 4: only the unbroken run at the end counts |
| `HabitGrid.Last7` | src/components/HabitList.jsx:59-67 | the window has seven days, consecutive days differ by one, and the last one is today |
| `HabitGrid.GetLast7Days` | src/components/HabitList.jsx:59-67 | the push loop over `i = 6 … 0` produces exactly `Last7(today)`, oldest first |
| `HabitGrid.FetchedDates` | src/components/HabitList.jsx:39-46 | the check-in query returns the days of exactly those rows of the habit whose date lies within the window's bounds |
| `HabitGrid.LoadedWindow` | src/components/HabitList.jsx:38-50 | the built window has seven cells, and cell `i` is checked iff the table has a row for `(habit, today - 6 + i)` |
| `HabitGrid.WindowStreakMeaning` | src/components/HabitList.jsx:46-50 | the streak shown for a habit is the number of consecutive days ending today that have a row, capped at 7; the day before the run has none |
| `HabitGrid.EmptyWindow` | src/components/HabitList.jsx:46 | a failed check-in query (the `checkIns` fallback to an empty list) shows seven unchecked cells |
| `HabitGrid.OwnRows` | src/components/HabitList.jsx:24-28 | the habits query keeps exactly the rows of the signed-in user |
| `HabitGrid.OwnRowsConcat` | src/components/HabitList.jsx:24-28 | the query keeps table order: the user's rows of two consecutive parts of the table are those of the first part followed by those of the second |
| `HabitGrid.OwnRowsAppend` | src/components/HabitList.jsx:24-28 | a row added at the end of the table comes after all the user's earlier rows, and only if it is the user's |
| `HabitGrid.LastRowListedLast` | src/components/HabitList.jsx:24-28 | when the table's newest row belongs to the user, it is the last habit a reload lists |
| `HabitGrid.FindHabit` | src/components/HabitList.jsx:89 | `habits.find` yields the first loaded habit with the id |
| `HabitGrid.ToggleFlipsOnlyItsKey` | src/components/HabitList.jsx:92-107 | a toggle makes the `(habit, day)` row present iff the cell showed unchecked, and leaves every other habit and day as it was |
| `HabitGrid.ToggleTwiceRestores` | src/components/HabitList.jsx:92-119 | when the shown cell matches the table, toggling it twice gives back the original table |
| `HabitGrid.FutureGuardNeedsClockSkew` | src/components/HabitList.jsx:79-87 | the target date can be after `today` only if the second clock reading is earlier than the first |
| `HabitGrid.HabitList.constructor` | src/components/HabitList.jsx:8-12 | the initial state: no habits, loading, modal closed, empty name, default icon |
| `HabitGrid.HabitList.LoadHabits` | src/components/HabitList.jsx:20-57 | with no user or a failed query nothing changes; otherwise `habits` are the user's rows, each cell checked iff its row exists (unchecked when that habit's query failed), and `loading` is cleared |
| `HabitGrid.HabitList.ToggleCheckIn` | src/components/HabitList.jsx:75-120 | the form fields never change; no user: no change at all; target after today: no change at all; otherwise the row is deleted if the cell showed checked and inserted if not, confetti only for an insert on today; a successful reload shows the user's rows with the table's windows (empty for habits whose check-in query failed) and clears `loading`, a failed one leaves `habits` and `loading` as they were |
| `HabitGrid.HabitList.AddHabit` | src/components/HabitList.jsx:122-146 | a blank name, no user or a failed insert changes neither table, form, `habits` nor `loading`; otherwise one row with the untrimmed name and the selected icon is appended and the form is reset; a successful reload shows the user's rows with the new habit last, a failed one leaves `habits` and `loading` as they were |
| `HabitGrid.HabitList.ToggleTwice` | src/components/HabitList.jsx:92-119 | two toggles of one cell, with the reload in between, leave the check-in table as it was |
| `HabitGrid.HabitList.WindowShowsTable` | src/components/HabitList.jsx:46-50 | after a reload, the cell the toggle reads is the presence of the row in the table |
| `Text.TrimStart` | src/components/HabitList.jsx:123 | leading whitespace is removed: the result is a suffix that does not start with whitespace, and all that was cut is whitespace |
| `Text.TrimEnd` | src/components/HabitList.jsx:123 | trailing whitespace is removed: the result is a prefix that does not end with whitespace, and all that was cut is whitespace |
| `Text.TrimmedSlice` | src/components/HabitList.jsx:123 | cutting leading and then trailing whitespace leaves a contiguous slice of the input with only whitespace on either side of it |
| `Text.Trim` | src/components/HabitList.jsx:123 | `trim()` gives a contiguous slice of the input with only whitespace cut from either end, neither starting nor ending with whitespace, and empty exactly when the input is all whitespace |
| `Text.NatToDecimal` | src/lib/gemini.js:19 | `${n}` of a non-negative integer is a non-empty run of digits with no leading zero |
| `Text.IntToDecimal` | src/lib/gemini.js:19 | `${n}` starts with a minus sign exactly when `n` is negative, is otherwise a non-empty run of digits with no leading zero, and reads back as `n` with the sign applied |
| `Text.DecimalRoundTrip` | src/lib/gemini.js:19 | reading the rendered digits back gives the number |
| `Text.NatToDecimalInjective` | src/lib/gemini.js:19 | different non-negative integers render as different digit strings |
| `Text.IntToDecimalInjective` | src/components/AICoach.jsx:8 | different integers render as different strings |
| `Coach.SystemPromptCarriesStreak` | src/lib/gemini.js:18-20 | an absent `streakData` or an absent `currentStreak` renders as "0", and two prompts are equal iff their effective streaks are |
| `Coach.BuildContents` | src/lib/gemini.js:22-33 | the request is the system turn, then "Entendido." as a model turn, then each history entry in order with its content and role `user` iff its role was `'user'`; the first entry is dropped iff it was not a user turn |
| `Coach.RequestShape` | src/lib/gemini.js:27-33 | the request has exactly two more turns than the history, one fewer when a leading model turn was dropped, and the newest history entry is the last turn sent |
| `Coach.Fallback` | src/lib/gemini.js:58-63 | the offline reply is one of the seven canned lines followed by the offline tag, so it is non-empty |
| `Coach.SendMessageToCoach` | src/lib/gemini.js:14-64 | no key: no request and the fallback reply; otherwise the endpoints are requested in list order, each only after every earlier one answered non-OK, the first OK answer's text (possibly undefined) is returned, and a thrown error or a final non-OK answer gives the fallback |
| `Coach.OfflineReplyIsTaggedCannedLine` | src/lib/gemini.js:14-63 | with no API key, or when the first request throws, the reply `sendMessageToCoach` gives is non-empty: some canned line with the offline tag appended |
| `StreakCounter.PressesRaiseStreakAtMostOnce` | src/components/StreakCounter.jsx:9-21 | over any number of presses, the streak rises by at most one: by one if the day was not done and by none if it was; after a press the day is done, and a done state never changes |
| `StreakCounter.StreakCounter.constructor` | src/components/StreakCounter.jsx:6-7 | the counter starts with the parent's streak and `completedToday` false |
| `StreakCounter.StreakCounter.HandleCheckIn` | src/components/StreakCounter.jsx:9-21 | when the day is done nothing changes; otherwise the streak rises by one, the day is marked done and confetti fires |
| `ChatLog.GreetingNamesStreak` | src/components/AICoach.jsx:7-9 | the greeting names the streak: different streaks give different greetings |
| `ChatLog.AICoach.constructor` | src/components/AICoach.jsx:5-10 | the log starts with the single model greeting for the streak, the input is empty and `loading` is false |
| `ChatLog.AICoach.SetInput` | src/components/AICoach.jsx:67 | typing changes the input and nothing else |
| `ChatLog.AICoach.Send` | src/components/AICoach.jsx:21-30 | a send is accepted iff the input is not blank and no reply is awaited; a refused send changes nothing; an accepted one appends `{user, input}`, clears the input, sets `loading`, and hands the coach the previous messages plus the new one |
| `ChatLog.AICoach.Receive` | src/components/AICoach.jsx:32-33 | the reply is appended as one model message and `loading` is cleared |
| `ChatLog.AICoach.HandleSend` | src/components/AICoach.jsx:21-34 | a send is accepted iff the input is not blank and no reply is awaited, and a refused one changes nothing; an accepted one appends the user's message and then the model's reply, where the reply is the coach's answer to the previous messages plus the user's, asked with the `currentStreak` prop current at the send; with no API key it is the tagged canned line |

## Left out

- Longest-streak bookkeeping, streak decay on load, a stored last-activity date and computed achievement thresholds: none of these exists in the modelled files.
- Sign-in and sign-up, session handling, layout and the hard-coded achievement list (`Auth.jsx`, `App.jsx`, `Achievements.jsx`): no logic beyond calls into the hosted auth client and markup.
- Calendar handling: `Date`, UTC `toISOString` and the weekday labels of `getDayLabel` are not modelled, and dates are integer day numbers. ISO `YYYY-MM-DD` strings compare in the same order as day numbers for four-digit years.
- The hosted store: queries, the parallel `Promise.all` fan-out and network errors beyond a success flag per query or write.
- `HabitGrid.GetLast7Days`: the source reads the clock on each of its seven iterations; the model takes one reading for all seven. If midnight passes inside the loop, the source's days are not consecutive, which the model does not capture.
- `HabitGrid.HabitList.LoadHabits`: it calls `getLast7Days` once per habit, seven clock readings each; the model uses one `today` for the whole reload, so habits loaded across midnight are not modelled.
- `HabitGrid.HabitList.ToggleCheckIn`: it reads the clock eight times (seven for the window, one for `today`); the model has two readings, `windowEnd` and `today`.
- `HabitGrid.HabitList.ToggleCheckIn`: the reload it starts without awaiting is modelled as finishing before the next event.
- `HabitGrid.HabitList.AddHabit`: the reload it starts without awaiting is likewise modelled as finishing before the method returns; in the source the reloaded habits, with the new one last, arrive only later.
- Check-in rows: the `user_id` column of a check-in row is not modelled, because neither the delete nor the window query is keyed on it.
- Duplicate check-in rows: the table is a set, so inserting an existing `(habit, day)` pair adds nothing. Without a uniqueness constraint, the source's table could hold a second row.
- `fetch`, JSON parsing and the request headers: each request's outcome is an input, and the body is the built `contents`.
- `Math.random`: the canned line is chosen by an index below 7.
- The 600 ms `setTimeout` before the offline reply, confetti, alerts, console output, scrolling and all rendering.
- JavaScript numbers: streaks are unbounded integers. `Text.IntToDecimal` does not model the exponent notation JavaScript uses from 10^21 up, nor `NaN`.
- `StreakCounter.StreakCounter.HandleCheckIn`: the streak belongs to the parent component and is updated through `setStreak`; here it is a field of the counter.
- `ChatLog.AICoach.HandleSend`: it assumes no other event happens while the reply is awaited. `Send` and `Receive` model the two halves separately for interleavings.
