# TimeTracker core in Dafny

A model of the core of TimeTracker, a browser app that times tasks one day at a time. The app lives in `timetracker.js`, class `TaskTimeTracker`. The model covers:

- **The day ledger** (`ledger.dfy`). A day is a map from task name to its accumulated milliseconds and notes. Two stored shapes exist: an old-format bare number and the current `{time, notes}` object, both read through `Normalize`. The ledger is a sequence of `(name, value)` pairs in JavaScript's insertion order for string keys, so that a new key goes last and an overwritten key keeps its place. The operations are the ones the app applies between loading a day and saving it back:
  - `saveTaskTime`;
  - `saveEdit`;
  - `saveEditWithNotes`;
  - `saveAdjustedTime`;
  - the `updateTotalTime` sum.
- **Duration text** (`time_format.dfy`): `formatTime` and `parseTimeToMs`, with JavaScript's truncating `%` written out.
- **The day key** (`date_key.dfy`): `formatYMD`, and the field reading `parseYMD` starts with.
- **List order** (`display.dfy`): the stable sort by descending time that the task list and the export share.
- **Export** (`export.dfy`): `buildExportMarkdown`, a method with the source's nested loops. It is proved equal to a line-by-line definition of the export text.
- **The note editor** (`note_edit.dfy`): the private copy of a task's notes that `enterEditMode` edits, its delete and add buttons, and the gathering of the boxes on save.
- **The tracker** (`tracker.dfy`): class `TaskTimeTracker`. Its fields are the selected day, the stored day ledgers, the running session (`currentTask`, `startTime`, `currentNotes`) and the running state saved for resuming. Its methods are `startTask`, `stopTask`, the rename entry points, time adjustment, day selection, the resume step of `startWithStorage` and the export.
- **Text helpers** (`text.dfy`): what the tracker needs of JavaScript strings. That is `toString` on integers, `padStart(2, '0')`, `split`, `join`, `trim` and `Number(s)`.

Storage is the map `store` from day key to ledger. The clock (`Date.now()`) and the time-of-day text (`toLocaleTimeString()`) are parameters `now` and `timestamp`. The user's answer to the resume question is the parameter `accept`.

## Model

| member | source | states |
|---|---|---|
| TimeFormat.FormatTime | timetracker.js:887-894 | `formatTime`: whole seconds by floor division, then hours, minutes and seconds each padded to two digits with JavaScript's truncating `%`; its meaning is stated by the lemmas below |
| TimeFormat.ParseTimeToMs | timetracker.js:469-475 | accepted exactly when the text is three `:`-separated numbers with hours ≥ 0 and minutes and seconds in 0..59; then the result is `((h*3600)+(m*60)+s)*1000`, never negative |
| TimeFormat.ParseClock | timetracker.js:469-475 | the `HH:MM:SS` text of in-range fields parses back to exactly those fields |
| TimeFormat.ParseClockRejects | timetracker.js:469-475 | clock text with minutes or seconds above 59 is refused |
| TimeFormat.FieldsInRange | timetracker.js:472-473 | whatever the parser accepts has hours ≥ 0 and minutes and seconds in 0..59 |
| TimeFormat.FormatTimeNonNegative | timetracker.js:887-894 | for a non-negative duration, `formatTime` shows whole hours, minutes mod 60 and seconds mod 60 |
| TimeFormat.ClockFields | timetracker.js:888-891 | the hours, minutes and seconds of a number of seconds add back up to it, with minutes and seconds in 0..59 |
| TimeFormat.ParseFormatRoundTrip | timetracker.js:469-475 | `parseTimeToMs(formatTime(ms))` is `ms` rounded down to whole seconds, for every `ms ≥ 0` (as unbounded integers; the double bound is under Left out) |
| TimeFormat.FormatParseRoundTrip | timetracker.js:469-475 | text that parses is shown again as the clock of its fields, and that clock parses back to the same duration |
| TimeFormat.ClockRoundTrip | timetracker.js:887-894 | the duration of in-range fields is formatted as the clock of those fields and parses back unchanged |
| TimeFormat.ClockOfSeconds | timetracker.js:887-894 | the duration built from in-range fields is a whole number of seconds and is formatted as those fields |
| TimeFormat.Example | timetracker.js:887-894 | 3723000 ms is shown as `01:02:03` |
| TimeFormat.ParseExample | timetracker.js:469-475 | `01:02:03` parses to 3723000 ms |
| DateKey.FormatYMD | timetracker.js:192-197 | `formatYMD`: the year's `toString`, then month and day padded to two digits, joined by `-`; its meaning is stated by the lemmas below |
| DateKey.ParseYMD | timetracker.js:200-202 | a date is read only when the text has at least three `-`-separated pieces that are numbers; year, month and day are the numbers of the first three |
| DateKey.ParseFormatYMD | timetracker.js:192-202 | reading the key `formatYMD` writes gives back year, month and day (non-negative fields) |
| DateKey.FormatParseYMD | timetracker.js:192-202 | for every key of the written shape (a year with no leading zero, two-digit month and day), the three fields `parseYMD` reads format back to that text; what `new Date` makes of out-of-range fields is not covered |
| DateKey.FormatYMDInjective | timetracker.js:192-197 | two dates with non-negative fields share a key only when they are equal |
| DateKey.FormatExample | tests/run_tests.js:35-37 | 19 November 2025 is keyed `2025-11-19` |
| Text.Trim | timetracker.js:216 | `trim` gives the empty string exactly for all-white-space text, and never leaves white space at either end |
| Text.TrimShape | timetracker.js:216 | the trim is a slice of the text with only white space before and after it |
| Text.TrimIdempotent | timetracker.js:588 | trimming trimmed text changes nothing, so a note the add box stores trimmed passes the save filter's second trim (552) unchanged |
| Text.Split | timetracker.js:470 | `split` gives at least one piece, and no piece holds the separator |
| Text.SplitJoin | timetracker.js:470 | splitting joined separator-free pieces gives those pieces back |
| Text.JoinSplit | timetracker.js:470 | joining the pieces of a split gives the text back |
| Text.NatToStringDigits | timetracker.js:893 | `toString` of a natural number is a non-empty digit string denoting that number |
| Text.CanonicalDigits | timetracker.js:193 | a digit string without a leading zero is the `toString` of the number it denotes |
| Text.TwoDigits | timetracker.js:194-195 | two digits are the padded `toString` of the number they denote |
| Text.PadDigits | timetracker.js:194-195 | zero-padding to two characters keeps a digit string's value |
| Text.JsNumber | timetracker.js:470 | `Number(s)`: blank text is 0; text that reads as a number and is not blank ends, once trimmed, in a digit |
| Text.JsNumberSigned | timetracker.js:470 | a sign followed by decimal digits reads as that integer, negative for `-` |
| Text.JsNumberPadded | timetracker.js:470 | `Number` reads back the padded text of any natural number |
| Text.PaddedField | timetracker.js:893 | a zero-padded field holds no separator that is not a digit, and `Number` reads it back as its number |
| Ledger.Normalize | timetracker.js:296-303 | an old-format bare number is read as that time with no notes; an object is read as it is |
| Ledger.TotalTime | timetracker.js:733-737 | `updateTotalTime`: the sum of the normalized times of the entries; its changes under each operation are stated by the lemmas below |
| Ledger.Find | timetracker.js:616 | the position found holds the key and is its first occurrence; no position at all means the key is absent |
| Ledger.Put | timetracker.js:676-686 | `tasks[k] = v`: `k` then maps to `v` and every other key is unchanged; an existing key keeps the key order, a new key is appended at the end; keys stay distinct |
| Ledger.Remove | timetracker.js:690 | `delete tasks[k]`: `k` is gone, other keys keep their values and their order, distinct keys stay distinct, and an absent key changes nothing |
| Ledger.TotalPut | timetracker.js:733-737 | storing a value changes the day total by the new time minus the old one |
| Ledger.TotalRemove | timetracker.js:733-737 | deleting a key removes exactly its time from the day total |
| Ledger.TotalAppend | timetracker.js:733-737 | appending an entry adds its normalized time to the total |
| Ledger.TotalUpdate | timetracker.js:733-737 | replacing one entry changes the total by the new time minus the old one |
| Ledger.SaveTaskTime | timetracker.js:286-318 | the entry is stored in the current format and its time becomes the old time (0 if absent, the bare number if old-format) plus the duration; one note (trimmed draft, time of day, formatted duration) is appended exactly when the draft is not blank, otherwise the notes stay; other tasks are untouched; a new task goes last |
| Ledger.SaveTaskTimeTotal | timetracker.js:286-318 | committing a stop raises the day total by exactly the duration |
| Ledger.StopsAccumulate | timetracker.js:286-318 | two stops on one task add both durations and append both notes in order |
| Ledger.SaveEdit | timetracker.js:661-692 | nothing changes for an empty or absent old name or an unchanged name; otherwise the old key is removed and the normalized old entry moves to a new key at the end, or merges into an existing one in place with times summed and the target's notes first; other keys are unchanged |
| Ledger.SaveEditTotal | timetracker.js:661-692 | a rename or merge never changes the day total |
| Ledger.MergeExample | tests/run_tests.js:53-69 | merging `A` (one note) into `B` (one note) leaves only `B`, holding the summed time and `B`'s note before `A`'s |
| Ledger.SaveEditWithNotes | timetracker.js:612-645 | as `saveEdit`, but carrying `updatedNotes` in place of the old notes; for an unchanged name only that entry's notes are replaced, with its time and position kept |
| Ledger.SaveEditWithNotesTotal | timetracker.js:612-645 | neither branch changes the day total |
| Ledger.SaveEditIsSaveEditWithOwnNotes | timetracker.js:612-692 | a plain rename to another name is the notes rename handed the entry's own notes |
| Ledger.SaveAdjustedTime | timetracker.js:457-463 | a present task's time becomes `ms` and its notes stay; every other entry and the key order are unchanged |
| Ledger.SaveAdjustedTimeTotal | timetracker.js:457-463 | the day total changes by exactly `ms` minus the old time |
| Display.Insert | timetracker.js:338-343 | inserting into a list sorted by descending time keeps it sorted and adds exactly the one entry |
| Display.SortByTime | timetracker.js:338-343 | the list order is sorted by descending normalized time and is a permutation of the ledger |
| Display.SortedDescPairwise | timetracker.js:787-791 | the order descends from each entry to the next exactly when it descends between any two entries |
| Display.SortStable | timetracker.js:787-791 | entries of equal time keep their ledger order |
| Display.InsertWithTime | timetracker.js:338-343 | an insertion keeps the order among entries of any one time, with the new entry first among its own |
| Display.SortSorted | timetracker.js:787-791 | a ledger already in descending order is listed as it is |
| Display.SortKeepsTasks | timetracker.js:338-343 | an entry is listed exactly when it is in the ledger |
| Display.SortExample | timetracker.js:787-791 | of three tasks, the two with equal time keep their order, ahead of the shorter one |
| Export.BuildExportMarkdown | timetracker.js:774-816 | the nested loops produce the line-feed join of the title line, a blank line, then the no-tasks line for an empty day or, per task in list order, its line, one line per note and a blank line |
| Export.ExportLines | timetracker.js:774-816 | the export's lines: the title and a blank line, then the no-tasks line for an empty day or every task's block in list order; `BuildExportMarkdown` is proved to join exactly these |
| Export.TaskLine | timetracker.js:793-796 | a task's line: `- **name** — ` and its normalized time formatted as `HH:MM:SS` |
| Export.NoteLine | timetracker.js:803-808 | a note's line: `  - `, the time of day and duration that are present in parentheses, then the text; see `NoteLineBare` and `NoteLineFull` |
| Export.Meta | timetracker.js:804-807 | the time of day and the duration of a note, whichever are present, separated by one space |
| Export.NonEmpty | timetracker.js:807 | `filter(Boolean)` keeps exactly the non-empty pieces, leaves no empty piece and is no longer than its input |
| Export.NonEmptyAppend | timetracker.js:807 | the filter keeps order: filtering two runs of pieces gives the kept pieces of the first, then of the second |
| Export.NoteLines | timetracker.js:798-810 | one line per note, the i-th line being the line of the i-th note |
| Export.BlocksLength | timetracker.js:793-813 | the blocks hold two lines per task plus one per note |
| Export.BlocksTaskLine | timetracker.js:793-796 | the line of the k-th task in list order starts its block |
| Export.ExportEmpty | timetracker.js:776-784 | an empty day exports the title, a blank line and `- No tasks tracked for this date.` |
| Export.ExportListsEveryTask | timetracker.js:786-796 | every task of the day has its `- **name** — HH:MM:SS` line in the export |
| Export.ExportLength | timetracker.js:774-816 | a day with tasks exports two title lines plus two per task plus one per note |
| Export.NoteLineBare | timetracker.js:803-808 | a note with no time of day and no duration is exported as `  - text` |
| Export.NoteLineFull | timetracker.js:803-808 | a note with both is exported as `  - (time duration) text` |
| NoteEdit.Edited | timetracker.js:545-551 | one gathered note per box, holding the box's text; the note behind the box keeps its time of day and duration, and a box with no note behind it has neither |
| NoteEdit.KeepWritten | timetracker.js:552 | the filter keeps exactly the notes whose text is not blank, and is no longer than its input |
| NoteEdit.KeepWrittenAppend | timetracker.js:552 | the filter keeps order: filtering two runs of notes gives the kept notes of the first, then of the second |
| NoteEdit.KeepWrittenOne | timetracker.js:552 | a single note is kept exactly when its text is not blank |
| NoteEdit.Deleted | timetracker.js:575-581 | `splice(idx, 1)` removes exactly the note at `idx` and shifts the later ones down; an index past the end changes nothing |
| NoteEdit.Added | timetracker.js:584-599 | a blank add box adds nothing; otherwise the trimmed note with the time of day and no duration goes at the end |
| NoteEdit.EditedUnchanged | timetracker.js:545-551 | boxes showing the notes' own texts gather the notes themselves |
| NoteEdit.KeepWrittenAll | timetracker.js:552 | with no blank note, the filter keeps every note |
| NoteEdit.KeepWrittenNone | timetracker.js:552 | with only blank notes, the filter keeps none |
| NoteEdit.GatherUntouched | timetracker.js:538-553 | saving without touching the boxes passes the notes on unchanged, when none is blank |
| NoteEdit.GatherCleared | timetracker.js:538-553 | clearing every box deletes every note |
| NoteEdit.AddedSurvives | timetracker.js:584-599 | an added note survives the next save |
| NoteEdit.NoteEditor.constructor | timetracker.js:480-486 | the editor opens on a private copy of the task's notes, one box per note |
| NoteEdit.NoteEditor.Type | timetracker.js:498 | typing changes only that box |
| NoteEdit.NoteEditor.Delete | timetracker.js:575-581 | a delete removes the note and rebuilds the boxes from the notes, so text typed so far is lost |
| NoteEdit.NoteEditor.Add | timetracker.js:584-599 | a blank add is refused; otherwise the note is appended and the boxes are rebuilt from the notes, one per note |
| NoteEdit.NoteEditor.Submission | timetracker.js:538-553 | refused exactly for a blank name; otherwise the trimmed name and exactly the notes gathered from the boxes and filtered, each non-blank with its text from a box |
| Tracker.CommitStop | timetracker.js:250-256 | a stop rewrites only the ledger of the day it commits to, with `saveTaskTime` of the session |
| Tracker.CommitStopTotal | timetracker.js:250-256 | the day total and the task's time both grow by `now - startTime` |
| Tracker.CommitStopValid | timetracker.js:250-256 | the stored days keep distinct task names |
| Tracker.ResumeOffered | timetracker.js:865 | the resume offer: a saved state with a non-empty task, a non-zero start time and the selected day as its day |
| Tracker.StartedIsOffered | timetracker.js:240-245 | the state a start saves is offered for resume exactly on the day it was started |
| Tracker.TaskTimeTracker.constructor | timetracker.js:2-9 | today is selected, no session runs, storage and the saved running state are as found |
| Tracker.TaskTimeTracker.StopTask | timetracker.js:250-276 | nothing happens when no task is running; otherwise `now - startTime` and the draft are committed to the selected day, the session and its saved state are cleared, and nothing else changes |
| Tracker.TaskTimeTracker.StartTask | timetracker.js:215-248 | a blank name changes nothing; otherwise a running task is stopped first, then the trimmed name starts at `now` with an empty draft and is saved for resuming with the selected day |
| Tracker.TaskTimeTracker.StartTaskAsWritten | timetracker.js:215-264 | as the code runs: a blank name changes nothing; from a running task, the old session is committed to the selected day and then the session and the saved state are cleared, the new one included; with no task running, the new session starts and is saved |
| Tracker.SwitchEndsIdle | timetracker.js:215-264 | starting `a` at 1000 and `b` at 2000 records 1000 ms for `a` and leaves no task running |
| Tracker.TaskTimeTracker.RecordDraftNote | timetracker.js:99-101 | the notes box replaces the draft, and nothing else changes |
| Tracker.TaskTimeTracker.SelectDate | timetracker.js:87-91 | the picker selects the day, and nothing else changes |
| Tracker.TaskTimeTracker.GoToToday | timetracker.js:72-80 | a click on the title selects today, and nothing else changes |
| Tracker.TaskTimeTracker.SaveEdit | timetracker.js:661-712 | when the rename applies, the selected day gets `saveEdit` and `currentTask` becomes `newName` exactly when it was `oldName`; start time, draft and saved state keep their values; otherwise nothing changes |
| Tracker.TaskTimeTracker.SaveEditWithNotes | timetracker.js:612-658 | when the old task exists, the selected day gets `saveEditWithNotes` and the session follows a rename; otherwise nothing changes |
| Tracker.TaskTimeTracker.SaveAdjustedTime | timetracker.js:457-463 | the selected day gets `saveAdjustedTime`; the session and the other days are unchanged |
| Tracker.TaskTimeTracker.AdjustTime | timetracker.js:427-436 | trimmed text that is not valid `HH:MM:SS` is refused and changes nothing, whether or not the task is still on the day; otherwise its duration is saved as the task's time |
| Tracker.TaskTimeTracker.FinishEdit | timetracker.js:538-553 | a blank name is refused; otherwise `saveEditWithNotes` runs with the trimmed name and the gathered notes |
| Tracker.TaskTimeTracker.Resume | timetracker.js:855-885 | without a saved state that has a task, a non-zero start and the selected day, nothing happens; accepting restores the session from it, declining deletes it |
| Tracker.TaskTimeTracker.ExportDay | timetracker.js:818-820 | the export text copied or downloaded is that of the selected day's ledger |

## Left out

- Storage (`storage.js`, `storage.esm.js`: localforage, with the migration from localStorage) is the in-memory map `store`, and the saved running state is the field `saved`. The service worker `sw.js` is not part of this model.
- All DOM work is left out: rendering, buttons, toasts, the clipboard and the Blob download, themes, keyboard shortcuts, `escapeHtml`, and the string-note branch of the export at timetracker.js:801-802. So are timers, `updateTimer`, `updatePageTitle`, the `beforeunload` handler and the `confirm` in `selectTask`.
- The task box updates after a rename (timetracker.js:650-656, 697-708) are DOM state, so they are not modelled. The test at tests/run_tests.js:86 checks one of them.
- Calendar arithmetic is left out: `navigateDate`, `updateDateNavButtons` and `parseYMD`'s `new Date(y, m - 1, d)`. `ParseYMD` stops at the three numbers. `toLocaleTimeString` and `Date.now()` are parameters.
- Text.JsNumber: `Number(s)` is modelled on trimmed text: an empty string is 0, and an optional sign with decimal digits is that integer. Decimals, exponents, the `0x`, `0b` and `0o` prefixes, `Infinity` and non-integer durations are not modelled, and `NaN` is `None`. So `parseTimeToMs` accepts fewer texts in the model than in the app, for example `0x1:00:00`.
- Ledger.SaveTaskTime: the day's tasks are a plain object (`storage.js` returns `data || {}`), so `tasks[name]` also finds names inherited from `Object.prototype`. The model treats every name as an ordinary key and records the time for it. In the app, a task named `toString`, `constructor`, `hasOwnProperty` or any other inherited name gets no entry at timetracker.js:290. `time += duration` at 305 then writes onto the built-in function, and the save at 317 stores no key, so with a blank draft the time is lost. With a non-blank draft, `notes.push` at 310 throws, so `stopTask` never reaches 258-264 and the task stays running. The name `__proto__` takes the same path: `tasks['__proto__']` reads the inherited accessor, which gives `Object.prototype`, so 291 never runs; the write at 305 then lands on `Object.prototype` itself, giving every object an inherited `time` of NaN, and the save stores no key or throws as above. The same lookups in `saveEdit`, `saveEditWithNotes` and `saveAdjustedTime` are modelled as ordinary keys too.
- TimeFormat.ParseFormatRoundTrip: JavaScript numbers are IEEE-754 doubles and the model uses unbounded integers. `Math.floor`, `%` and `parseTimeToMs`'s arithmetic are exact in the app only up to 2^53 ms, and `toString` switches to exponent form from 1e21. So this lemma, `FormatTimeNonNegative` and the other round trips describe the app only below 2^53 ms.
- Ledger.TotalTime: for the same reason, the sums of `time += duration` and `updateTotalTime` are exact in the app only up to 2^53 ms. `Ledger.TotalPut`, `Ledger.SaveTaskTimeTotal`, `Ledger.SaveEditTotal` and the other total lemmas describe the app only below that bound.
- Ledger: the day's dictionary is a value that each operation returns changed. The model does not capture in-place mutation or object aliasing between a loaded ledger and its entries. Integer-like task names, which JavaScript enumerates before other keys, are not modelled: keys are in plain insertion order.
- `NoteEdit.Edited`: a box with no note behind it is not reachable in the source, where every render builds one box per note. The model still gives such a box an empty note for its `notes[idx] || {}` fallback.
- Tracker.TaskTimeTracker.StartTask: models the intended order, with the stop finished before the new session starts. The code does not await `stopTask()` (timetracker.js:223). The stop's later steps always run after the new session is set: clearing `currentTask` and `startTime` (258-260) and removing the saved state (264). So a switch from a running task ends with no task running. `StartTaskAsWritten` models that order; see Findings.
- `Tracker.TaskTimeTracker.Resume`: the source decides whether to offer the resume at startup but asks 200 ms later. The model evaluates the condition when `Resume` is called.
- Tracker.TaskTimeTracker.SaveAdjustedTime: the source throws on an absent task (timetracker.js:461), so presence is required instead; the same holds for `Ledger.SaveAdjustedTime`. `AdjustTime` requires presence only for text that parses, since invalid text shows the refusal (430-433) before the task is looked up.
- NoteEdit.NoteEditor.constructor: each box is filled as `value="…"` with `escapeHtml` (timetracker.js:498, 714-718), which does not escape `"`. In the app a note text holding a double quote is cut at the quote when the editor opens. A text that starts with `"` shows an empty box, and the filter at 552 drops it on save. The model fills each box with the note's text verbatim, so `EditedUnchanged`, `GatherUntouched` and `AddedSurvives` hold only for texts without `"`.
- Tracker.TaskTimeTracker.AdjustTime: the task name also reaches the handlers through `data-task-name="…"` (timetracker.js:358), written with the same `escapeHtml`. It is read back at 378, 386 and 395, so for a name holding `"` the app gets the name cut at the quote. `selectTask` then fills the box with the cut name. `enterEditMode` and `enterAdjustMode` look the cut name up, and when it is absent they throw on `data.time` (483, 407); otherwise they open another task. The model passes names verbatim, and the `Has` requirement of the editor's constructor and of `AdjustTime` leaves out the throwing case.

## Behaviour worth knowing

- A rename of the running task updates `currentTask`, but the saved running state keeps the old name (timetracker.js:647-649, 694-696). A reload then offers to resume the task under its old name.
- The draft typed while a task runs is not saved with the running state: `startTask` saves `notes: ''` (timetracker.js:240-245) and nothing updates the state afterwards. Resuming after a reload therefore starts with an empty draft.

## Findings

| source | as written | input that shows it | evidently intended | confidence | as-written member | corrected member |
|---|---|---|---|---|---|---|
| timetracker.js:222-264 | `startTask` calls `this.stopTask()` without `await`. The new session is set (226-228) and saved (239), and then the stop resumes: it commits the old session, clears `currentTask` and `startTime` (258-260) and removes the saved state (264) | start `a` at 1000, then `b` at 2000: `a` records 1000 ms and no task is running (`Tracker.SwitchEndsIdle`) | the stop finishes first, and `b` is running afterwards | high for the cleared session; the removal of the saved state assumes storage calls finish in the order issued; not executed | Tracker.TaskTimeTracker.StartTaskAsWritten | Tracker.TaskTimeTracker.StartTask |
