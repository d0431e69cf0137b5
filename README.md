# Reflect session engine, in Dafny

Reflect is a client-only self-help companion: mood check-ins, a private
journal and a timed breathing exercise, with everything kept in the browser's
key-value store. All of its logic lives in the `App` component of
`src/App.js`. This project models the two stateful parts of that component
and proves properties of them.

- **Breathing scheduler** (module `Breathing`). The fixed plan is inhale 4 s,
  hold 4 s and exhale 6 s, a 14-second cycle. The four state variables are
  running, phase, count and total seconds. Start, pause and reset are modelled,
  and so is the once-a-second timer callback. That callback ends the session
  at 60 s; otherwise it searches the plan's `[start, end)` windows for the
  current step. The class `BreathingTimer` holds the four fields. Its methods
  are proved against pure transitions on a `Session` value (`Start`, `Pause`,
  `Reset`, `Tick`, `Second`). The step search is a `for` loop (`FindStep`)
  proved equal to the recursive `StepAt`. The lemmas connect `StepAt` to the
  explicit windows, and whole runs (n seconds after Start) to a closed form.
- **Bounded newest-first logs** (modules `Logs`, `JsText`, `Mood`, `Storage`,
  `Engine`). These cover mood check-ins (prepend, keep 7, with the same entry
  written as "latest"), journal entries (trim, ignore if empty, prepend, keep
  50, clear the draft), deletion by id, the draft autosave and the start-up
  loads. The class `Engine.Records` holds the in-memory state and an abstract
  `store: map<string, Stored>` that stands for the browser's store. Its
  invariant `Valid()` says the persisted fields (latest check-in, history,
  journal, draft) are what the store would load; the selected prompt is held
  in memory only and never stored.
  The list operations are the pure functions `PrependBounded`
  (`[entry, ...list].slice(0, cap)`) and `WithoutId` (`filter`).

Outside inputs become parameters. The time stamp (`new Date().toISOString()`)
and the new entry's id (`crypto.randomUUID()` or `String(Date.now())`) are
passed into `SaveMood` and `SaveJournalEntry`. The page that calls the engine
is not modelled. Each user intent is one method run to completion. One second
of wall-clock time is `ElapseSecond`, which fires the timer callback only
while the session is running. That is the only time the interval is armed.

Behaviours of the code worth knowing:
- **Delete removes every match.** `deleteJournalEntry` removes every entry
  carrying the id (src/App.js:132). `WithoutUniqueId` shows that exactly one
  entry goes when ids are distinct. The code does not guarantee distinct ids,
  so that is a hypothesis, never a proved invariant.
- **Bad stored data throws.** Stored text that is not valid JSON makes the
  start-up loads throw (src/App.js:61, 66, 99).
- **The draft key ends up holding "".** After a successful save the draft
  key is removed (src/App.js:128). Then the autosave effect runs again,
  because the text changed, and writes `""` under the key (src/App.js:105-107).
  Both states read back as the empty draft (`Storage.WriteThenLoad`,
  `Engine.Records.AutosaveDraft`).
- **Check-ins extend the stored history.** `saveMood` builds on the history
  read from the store, not on the one in memory (src/App.js:72-74). The model
  does the same. `Valid()` makes the two equal.

## Model

| member | source | states |
|---|---|---|
| `Logs.PrependBounded` | src/App.js:74 | the new list has min(cap, n+1) entries, never more than cap; the new entry is first and the rest is a prefix of the old list |
| `Logs.PrependAllIsOneTruncation` | src/App.js:70-80 | repeated check-ins, each truncating, equal prepending all of them newest-first and truncating once |
| `Logs.RepeatedPrependLength` | src/App.js:70-80 | after n check-ins from an empty history the history holds min(n, 7) entries, the latest first |
| `Logs.WithoutId` | src/App.js:132 | no entry with the id remains, nothing is added, the list never grows |
| `Logs.WithoutIdAppend` | src/App.js:132 | deleting distributes over concatenation, so kept entries keep their relative order |
| `Logs.WithoutIdCounts` | src/App.js:132 | every entry with another id is kept as often as it occurred; all entries with the id are gone |
| `Logs.WithoutAbsentId` | src/App.js:131-135 | deleting an id no entry carries leaves the journal unchanged |
| `Logs.WithoutIdIdempotent` | src/App.js:131-135 | deleting the same id twice is the same as deleting it once |
| `Logs.WithoutUniqueId` | src/App.js:131-135 | with distinct ids, deleting a present id removes exactly that entry |
| `Logs.PrependFreshIdDistinct` | src/App.js:113-123 | saving with an id not yet in use keeps journal ids distinct |
| `Logs.WithoutIdKeepsDistinct` | src/App.js:131-135 | deleting keeps journal ids distinct |
| `JsText.TrimShape` | src/App.js:110 | trim returns the input minus a maximal white-space prefix and suffix |
| `JsText.TrimEmptyIff` | src/App.js:110-111 | the trimmed draft is empty exactly when the draft is all white space |
| `JsText.TrimIdempotent` | src/App.js:110 | trimming twice is trimming once |
| `Mood.MoodKeyFromLevel` | src/App.js:212-219 | every level maps to one of the five face keys |
| `Mood.HistoryFaceMatchesButton` | src/App.js:490-495 | a check-in saved from a button is drawn in the history with that button's face |
| `Mood.UnknownLevelIsSteady` | src/App.js:218 | any string that is not one of the five labels maps to the steady face |
| `Mood.MoodKeyInjectiveOnLabels` | src/App.js:212-217 | the five labels map to five different faces |
| `Storage.LoadMoodLatest` | src/App.js:59-62 | an absent latest check-in loads as none |
| `Storage.LoadMoodHistory` | src/App.js:65-68 | an absent history loads as empty |
| `Storage.LoadDraft` | src/App.js:94-96 | an absent draft loads as the empty text |
| `Storage.LoadEntries` | src/App.js:98-100 | an absent journal loads as empty |
| `Storage.WriteThenLoad` | src/App.js:76-77 | each value written reads back unchanged, a removed draft reads as "", and writes to one key leave the others' loads alone |
| `Engine.Records.constructor` | src/App.js:59-100 | start-up loads every field from the store and autosaves the loaded draft once; the persisted fields agree with the store and the prompt starts at the first prompt |
| `Engine.Records.SaveMood` | src/App.js:70-81 | history becomes the new entry prepended to the stored history, keeping 7; latest equals history[0]; both keys written; journal untouched |
| `Engine.Records.SelectPrompt` | src/App.js:553 | only the prompt changes |
| `Engine.Records.AutosaveDraft` | src/App.js:105-107 | the raw draft text is written under the draft key and nothing else changes |
| `Engine.Records.EditDraft` | src/App.js:568 | the draft is taken verbatim and reads back from the store unchanged |
| `Engine.Records.SaveJournalEntry` | src/App.js:109-129 | a draft that trims to empty changes nothing; otherwise the trimmed text with the current prompt is prepended keeping 50, the draft is cleared and its key removed; a fresh id keeps ids distinct |
| `Engine.Records.DeleteJournalEntry` | src/App.js:131-135 | the journal becomes the filtered list, none with the id remains, an absent id changes nothing, distinct ids stay distinct, the key is rewritten |
| `Breathing.PlanCycleIs14` | src/App.js:174 | the plan's cycle is 14 seconds |
| `Breathing.FindStep` | src/App.js:177-193 | the window search returns `StepAt` of the plan and second |
| `Breathing.StepAtWindow` | src/App.js:180-193 | a second inside step i's window gives step i with `seconds - (w - start)` remaining |
| `Breathing.StepAtInRange` | src/App.js:177-193 | inside the cycle the result is a step of the plan with 1 to `seconds` remaining; beyond it the Inhale-4 fallback |
| `Breathing.PlanSteps` | src/App.js:4-8 | [0,4) inhale with 4-w remaining, [4,8) hold with 8-w, [8,14) exhale with 14-w |
| `Breathing.PhaseOf` | src/App.js:195-200 | "Inhale" gives inhale, "Hold" gives hold, anything else exhale, never idle or done |
| `Breathing.TickEndsSession` | src/App.js:165-172 | a tick reaching 60 s stops the session: done, count 0, total exactly 60 |
| `Breathing.TickAdvances` | src/App.js:174-205 | any other tick adds one second and shows the window formula's phase and count, the count within 1 and the step's seconds |
| `Breathing.ConsistentPreserved` | src/App.js:143-206 | start, pause, reset and tick keep total at most 60 and phase/count equal to the formula for the total whenever a step is shown |
| `Breathing.ConsistentCountBounds` | src/App.js:174-205 | a shown count lies in 1..6 while exhaling and 1..4 otherwise |
| `Breathing.PausedIsFrozen` | src/App.js:160-161 | while paused, any number of seconds changes nothing |
| `Breathing.RunFromStart` | src/App.js:143-206 | n seconds after Start show the formula's step for n below 60, and the finished session from 60 on |
| `Breathing.FirstCycle` | src/App.js:174-205 | the first 14 seconds show inhale 4..1, hold 4..1, exhale 6..1 |
| `Breathing.CycleBoundary` | src/App.js:175 | at 14, 28, 42 and 56 seconds the session shows inhale with 4 remaining |
| `Breathing.RunsToDone` | src/App.js:164-172 | from any running state the session is finished once the minute is up |
| `Breathing.RunningUntilMinute` | src/App.js:164-205 | before the minute is up a running session keeps running and gains one second per tick |
| `Breathing.BreathingTimer.constructor` | src/App.js:138-141 | the session starts idle, stopped, count 0, total 0 |
| `Breathing.BreathingTimer.StartBreathing` | src/App.js:143-148 | from any state: running, inhale, count 4, total 0, so a start after a pause restarts |
| `Breathing.BreathingTimer.PauseBreathing` | src/App.js:150 | only `running` changes |
| `Breathing.BreathingTimer.ResetBreathing` | src/App.js:152-157 | from any state, done included: stopped, idle, count 0, total 0 |
| `Breathing.BreathingTimer.TickBreathing` | src/App.js:164-206 | the fields become `Tick` of the old state and stay consistent |
| `Breathing.BreathingTimer.ElapseSecond` | src/App.js:160-163 | a second passing runs the tick only while running |

## Left out

- React rendering, page navigation, the topic and delete-confirmation modal state, and the home-page summary of the latest entry. These are presentation only.
- `FaceIcon`: SVG geometry computed with floating point.
- The tools topics table and the text of the journal prompts, apart from the first prompt (the initial selection). These are static content.
- Timer plumbing: `setInterval`, `clearInterval` and the effect that re-arms the timer. Each tick is one atomic transition, fired by `ElapseSecond` exactly when the session is running.
- The browser store as real I/O, and JSON encoding. The store is an abstract map holding the structured values; the draft is held as plain text.
- Engine.Records.constructor: requires a well-formed store. In the code, stored text that is not valid JSON makes the start-up loads throw; that path is not modelled. The loads treat a value of the wrong kind as absent, and `Valid()` rules that case out.
- Id and clock sources: `crypto.randomUUID`, `Date.now` and `Date.toISOString`. They are parameters. The code does not guarantee unique ids, so distinctness appears only as a hypothesis.
- Display formatting: date rendering, snippet truncation and the `Math.min(total, 60)` in the seconds label.
- The support page's `tel:` and `sms:` links.
- JavaScript numbers are doubles; the totals here never leave 0..61, so they are plain naturals.
