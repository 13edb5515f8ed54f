/**
 * `TaskTimeTracker`: the selected day, the stored ledgers of every day, the
 * one running session (`currentTask`, `startTime`, `currentNotes`) and the
 * running state saved beside it for resuming after a reload. Storage is the
 * map `store` from day key to ledger; `now` and `timestamp` stand for
 * `Date.now()` and `new Date().toLocaleTimeString()`.
 */
module Tracker {
  import opened Wrappers
  import opened Text
  import opened TimeFormat
  import opened DateKey
  import opened Ledger
  import L = Ledger
  import opened Export
  import opened NoteEdit

  /** The saved running state: `{task, startTime, notes, date}`. */
  datatype RunningState = RunningState(task: string, startTime: int, notes: string, date: string)

  /** `Storage.loadTasksForDate(date) || {}`. */
  function DayLedger(store: map<string, Ledger>, date: string): Ledger
  {
    if date in store then store[date] else []
  }

  /** Every stored day has distinct task names, as the keys of an object do. */
  predicate StoreValid(store: map<string, Ledger>)
  {
    forall d :: d in store ==> UniqueNames(store[d])
  }

  /**
   * What a stop writes: `saveTaskTime(task, now - start, draft)` on the ledger
   * of `date`, the only day that changes.
   */
  function CommitStop(store: map<string, Ledger>, date: string, task: string, start: int, draft: string, now: int, timestamp: string): (r: map<string, Ledger>)
    ensures date in r && r[date] == SaveTaskTime(DayLedger(store, date), task, now - start, draft, timestamp)
    ensures forall d :: d != date ==> (d in r <==> d in store) && (d in r ==> r[d] == store[d])
  {
    store[date := SaveTaskTime(DayLedger(store, date), task, now - start, draft, timestamp)]
  }

  /** A stop raises the total of its day by the session's length, and the task's time by the same. */
  lemma CommitStopTotal(store: map<string, Ledger>, date: string, task: string, start: int, draft: string, now: int, timestamp: string)
    ensures TotalTime(DayLedger(CommitStop(store, date, task, start, draft, now, timestamp), date)) == TotalTime(DayLedger(store, date)) + (now - start)
    ensures TimeOf(DayLedger(CommitStop(store, date, task, start, draft, now, timestamp), date), task) == TimeOf(DayLedger(store, date), task) + (now - start)
  {
    var l := DayLedger(store, date);
    var r := SaveTaskTime(l, task, now - start, draft, timestamp);
    DayOfUpdate(store, date, r);
    SaveTaskTimeTotal(l, task, now - start, draft, timestamp);
  }

  /** The day just written holds what was written. */
  lemma DayOfUpdate(store: map<string, Ledger>, date: string, l: Ledger)
    ensures DayLedger(store[date := l], date) == l
  {
  }

  /** A stop keeps the stored days valid. */
  lemma CommitStopValid(store: map<string, Ledger>, date: string, task: string, start: int, draft: string, now: int, timestamp: string)
    requires StoreValid(store)
    ensures StoreValid(CommitStop(store, date, task, start, draft, now, timestamp))
  {
    var l := DayLedger(store, date);
    assert UniqueNames(l);
    StoreUpdate(store, date, SaveTaskTime(l, task, now - start, draft, timestamp));
  }

  /** Writing one day's ledger, valid itself, keeps the stored days valid. */
  lemma StoreUpdate(store: map<string, Ledger>, date: string, l: Ledger)
    requires StoreValid(store) && UniqueNames(l)
    ensures StoreValid(store[date := l])
  {
  }

  /** The resume offer: a saved state with a task, a non-zero start time, and the selected day as its day. */
  predicate ResumeOffered(saved: Option<RunningState>, selectedDate: string)
  {
    && saved.Some?
    && saved.value.task != ""
    && saved.value.startTime != 0
    && saved.value.date == selectedDate
  }

  /** The state a start saves is offered again on exactly the day it was started on. */
  lemma StartedIsOffered(task: string, now: int, date: string, selected: string)
    requires task != "" && now != 0
    ensures ResumeOffered(Some(RunningState(task, now, "", date)), selected) <==> selected == date
  {
  }

  class TaskTimeTracker {
    var selectedDate: string
    var store: map<string, Ledger>
    var currentTask: Option<string>
    var startTime: Option<int>
    var currentNotes: string
    var saved: Option<RunningState>

    /** The stored days keep distinct names; a session has both a task and a start time, or neither. */
    predicate Valid()
      reads this
    {
      StoreValid(store) && (currentTask.Some? <==> startTime.Some?)
    }

    /** The selected day's ledger. */
    function Tasks(): Ledger
      reads this
    {
      DayLedger(store, selectedDate)
    }

    /** `this.currentTask && this.startTime`: a task is running (JavaScript truthiness: a start time of 0 does not count). */
    predicate Running()
      reads this
    {
      currentTask.Some? && currentTask.value != "" && startTime.Some? && startTime.value != 0
    }

    /** The new tracker: today selected, no session, storage and the saved running state as found. */
    constructor(today: Ymd, stored: map<string, Ledger>, running: Option<RunningState>)
      requires StoreValid(stored)
      ensures selectedDate == FormatYMD(today) && store == stored && saved == running
      ensures currentTask == None && startTime == None && currentNotes == ""
      ensures Valid()
    {
      selectedDate := FormatYMD(today);
      store := stored;
      currentTask := None;
      startTime := None;
      currentNotes := "";
      saved := running;
    }

    /**
     * `stopTask()`: nothing unless a task is running; otherwise the session's
     * time and draft are committed to the selected day (whichever day that is
     * now) and the session and its saved state are cleared.
     */
    method StopTask(now: int, timestamp: string)
      requires Valid()
      modifies this
      ensures Valid()
      ensures !old(Running()) ==> unchanged(this)
      ensures old(Running()) ==>
        && store == CommitStop(old(store), old(selectedDate), old(currentTask.value), old(startTime.value), old(currentNotes), now, timestamp)
        && currentTask == None && startTime == None && currentNotes == "" && saved == None
        && selectedDate == old(selectedDate)
    {
      if !Running() {
        return;
      }
      CommitStopValid(store, selectedDate, currentTask.value, startTime.value, currentNotes, now, timestamp);
      store := CommitStop(store, selectedDate, currentTask.value, startTime.value, currentNotes, now, timestamp);
      currentTask := None;
      startTime := None;
      currentNotes := "";
      saved := None;
    }

    /**
     * `startTask()` with the task box holding `input`: a blank name changes
     * nothing; otherwise a running task is stopped first and a new session
     * starts, with an empty draft, and is saved for resuming.
     */
    method StartTask(input: string, now: int, timestamp: string)
      requires Valid()
      modifies this
      ensures Valid()
      ensures IsBlank(input) ==> unchanged(this)
      ensures !IsBlank(input) ==>
        && store == (if old(Running()) then CommitStop(old(store), old(selectedDate), old(currentTask.value), old(startTime.value), old(currentNotes), now, timestamp) else old(store))
        && currentTask == Some(Trim(input)) && startTime == Some(now) && currentNotes == ""
        && saved == Some(RunningState(Trim(input), now, "", old(selectedDate)))
        && selectedDate == old(selectedDate)
    {
      var taskName := Trim(input);
      if taskName == "" {
        return;
      }
      if currentTask.Some? && currentTask.value != "" {
        StopTask(now, timestamp);
      }
      currentTask := Some(taskName);
      startTime := Some(now);
      currentNotes := "";
      saved := Some(RunningState(taskName, now, "", selectedDate));
    }

    /**
     * `startTask()` as the code runs it: the stop of the running task is not
     * awaited, so the new session is set and its state saved first; when the
     * stop resumes after its storage calls it commits the old session (whose
     * task, length and draft it read before its first wait) and then clears
     * the session and removes the saved state, the new one included. A switch
     * from a running task therefore ends with no task running.
     */
    method StartTaskAsWritten(input: string, now: int, timestamp: string)
      requires Valid()
      modifies this
      ensures Valid()
      ensures IsBlank(input) ==> unchanged(this)
      ensures !IsBlank(input) && old(Running()) ==>
        && store == CommitStop(old(store), old(selectedDate), old(currentTask.value), old(startTime.value), old(currentNotes), now, timestamp)
        && currentTask == None && startTime == None && currentNotes == "" && saved == None
        && selectedDate == old(selectedDate)
      ensures !IsBlank(input) && !old(Running()) ==>
        && store == old(store)
        && currentTask == Some(Trim(input)) && startTime == Some(now) && currentNotes == ""
        && saved == Some(RunningState(Trim(input), now, "", old(selectedDate)))
        && selectedDate == old(selectedDate)
    {
      var taskName := Trim(input);
      if taskName == "" {
        return;
      }
      var stopping := Running();
      var task, start, draft := currentTask.GetOr(""), startTime.GetOr(0), currentNotes;
      currentTask := Some(taskName);
      startTime := Some(now);
      currentNotes := "";
      saved := Some(RunningState(taskName, now, "", selectedDate));
      if stopping {
        CommitStopValid(store, selectedDate, task, start, draft, now, timestamp);
        store := CommitStop(store, selectedDate, task, start, draft, now, timestamp);
        currentTask := None;
        startTime := None;
        currentNotes := "";
        saved := None;
      }
    }

    /** The notes box: every keystroke replaces the draft; the saved running state is not updated. */
    method RecordDraftNote(text: string)
      modifies this
      ensures currentNotes == text
      ensures selectedDate == old(selectedDate) && store == old(store) && saved == old(saved)
      ensures currentTask == old(currentTask) && startTime == old(startTime)
    {
      currentNotes := text;
    }

    /** The day picker's change handler. */
    method SelectDate(date: string)
      modifies this
      ensures selectedDate == date
      ensures store == old(store) && saved == old(saved) && currentNotes == old(currentNotes)
      ensures currentTask == old(currentTask) && startTime == old(startTime)
    {
      selectedDate := date;
    }

    /** A click on the title: back to today. */
    method GoToToday(today: Ymd)
      modifies this
      ensures selectedDate == FormatYMD(today)
      ensures store == old(store) && saved == old(saved) && currentNotes == old(currentNotes)
      ensures currentTask == old(currentTask) && startTime == old(startTime)
    {
      var key := FormatYMD(today);
      if selectedDate != key {
        selectedDate := key;
      }
    }

    /**
     * `saveEdit(oldName, newName)` on the selected day: when the rename
     * applies, the day's ledger is rewritten and a running session on
     * `oldName` continues under `newName` with its start time and draft.
     */
    method SaveEdit(oldName: string, newName: string)
      requires Valid()
      modifies this
      ensures Valid()
      ensures !Renames(old(Tasks()), oldName, newName) ==> unchanged(this)
      ensures Renames(old(Tasks()), oldName, newName) ==>
        && store == old(store)[old(selectedDate) := L.SaveEdit(old(Tasks()), oldName, newName)]
        && currentTask == (if old(currentTask) == Some(oldName) then Some(newName) else old(currentTask))
      ensures selectedDate == old(selectedDate) && startTime == old(startTime) && currentNotes == old(currentNotes) && saved == old(saved)
    {
      var tasks := DayLedger(store, selectedDate);
      // an empty old name, a missing old task and an unchanged name each return before saving
      if !Renames(tasks, oldName, newName) {
        return;
      }
      var r := L.SaveEdit(tasks, oldName, newName);
      StoreUpdate(store, selectedDate, r);
      store := store[selectedDate := r];
      if currentTask == Some(oldName) {
        currentTask := Some(newName);
      }
    }

    /**
     * `saveEditWithNotes(oldName, newName, updatedNotes)` on the selected day:
     * written whenever the old task exists; the session follows a rename.
     */
    method SaveEditWithNotes(oldName: string, newName: string, updatedNotes: seq<Note>)
      requires Valid()
      modifies this
      ensures Valid()
      ensures oldName == "" || !Has(old(Tasks()), oldName) ==> unchanged(this)
      ensures oldName != "" && Has(old(Tasks()), oldName) ==>
        && store == old(store)[old(selectedDate) := L.SaveEditWithNotes(old(Tasks()), oldName, newName, updatedNotes)]
        && currentTask == (if old(currentTask) == Some(oldName) then Some(newName) else old(currentTask))
      ensures selectedDate == old(selectedDate) && startTime == old(startTime) && currentNotes == old(currentNotes) && saved == old(saved)
    {
      if oldName == "" {
        return;
      }
      var tasks := DayLedger(store, selectedDate);
      if !Has(tasks, oldName) {
        return;
      }
      var r := L.SaveEditWithNotes(tasks, oldName, newName, updatedNotes);
      StoreUpdate(store, selectedDate, r);
      store := store[selectedDate := r];
      if newName == oldName {
        return;
      }
      if currentTask == Some(oldName) {
        currentTask := Some(newName);
      }
    }

    /** `saveAdjustedTime(taskName, ms)` on the selected day. */
    method SaveAdjustedTime(name: string, ms: int)
      requires Valid() && Has(Tasks(), name)
      modifies this
      ensures Valid()
      ensures store == old(store)[old(selectedDate) := L.SaveAdjustedTime(old(Tasks()), name, ms)]
      ensures selectedDate == old(selectedDate) && saved == old(saved) && currentNotes == old(currentNotes)
      ensures currentTask == old(currentTask) && startTime == old(startTime)
    {
      var r := L.SaveAdjustedTime(DayLedger(store, selectedDate), name, ms);
      StoreUpdate(store, selectedDate, r);
      store := store[selectedDate := r];
    }

    /**
     * The save handler of the adjust box: the trimmed text is parsed; text
     * that is not a valid `HH:MM:SS` is refused and nothing changes, whether
     * or not the task is still on the day.
     */
    method AdjustTime(name: string, input: string) returns (ok: bool)
      requires Valid()
      requires ParseTimeToMs(Trim(input)).Some? ==> Has(Tasks(), name)
      modifies this
      ensures Valid()
      ensures ok <==> ParseTimeToMs(Trim(input)).Some?
      ensures !ok ==> unchanged(this)
      ensures ok ==>
        && store == old(store)[old(selectedDate) := L.SaveAdjustedTime(old(Tasks()), name, ParseTimeToMs(Trim(input)).value)]
        && selectedDate == old(selectedDate) && saved == old(saved) && currentNotes == old(currentNotes)
        && currentTask == old(currentTask) && startTime == old(startTime)
    {
      var newStr := Trim(input);
      var ms := ParseTimeToMs(newStr);
      if ms.None? {
        return false;
      }
      SaveAdjustedTime(name, ms.value);
      return true;
    }

    /**
     * The save handler of the note editor `ed`: refused for a blank name,
     * otherwise `saveEditWithNotes` with the trimmed name and the gathered notes.
     */
    method FinishEdit(ed: NoteEditor, nameInput: string) returns (ok: bool)
      requires Valid()
      modifies this
      ensures Valid()
      ensures ok <==> !IsBlank(nameInput)
      ensures !ok || ed.oldName == "" || !Has(old(Tasks()), ed.oldName) ==> unchanged(this)
      ensures ok && ed.oldName != "" && Has(old(Tasks()), ed.oldName) ==>
        && store == old(store)[old(selectedDate) := L.SaveEditWithNotes(old(Tasks()), ed.oldName, Trim(nameInput), Gathered(ed.notes, ed.inputs))]
        && currentTask == (if old(currentTask) == Some(ed.oldName) then Some(Trim(nameInput)) else old(currentTask))
      ensures selectedDate == old(selectedDate) && startTime == old(startTime) && currentNotes == old(currentNotes) && saved == old(saved)
    {
      var submission := ed.Submission(nameInput);
      if submission.None? {
        return false;
      }
      SaveEditWithNotes(ed.oldName, submission.value.0, submission.value.1);
      return true;
    }

    /**
     * The resume step of `startWithStorage`: when the saved state is offered,
     * accepting restores the session from it (a missing draft read as empty)
     * and declining deletes it; otherwise nothing happens.
     */
    method Resume(accept: bool)
      requires Valid()
      modifies this
      ensures Valid()
      ensures !old(ResumeOffered(saved, selectedDate)) ==> unchanged(this)
      ensures old(ResumeOffered(saved, selectedDate)) && accept ==>
        && currentTask == Some(old(saved.value.task)) && startTime == Some(old(saved.value.startTime))
        && currentNotes == old(saved.value.notes) && saved == old(saved)
      ensures old(ResumeOffered(saved, selectedDate)) && !accept ==>
        && saved == None && currentTask == old(currentTask) && startTime == old(startTime) && currentNotes == old(currentNotes)
      ensures store == old(store) && selectedDate == old(selectedDate)
    {
      if !ResumeOffered(saved, selectedDate) {
        return;
      }
      if accept {
        currentTask := Some(saved.value.task);
        startTime := Some(saved.value.startTime);
        currentNotes := saved.value.notes;
      } else {
        saved := None;
      }
    }

    /** `copyExportMarkdown` and `downloadMarkdownFile`: the export text of the selected day. */
    method ExportDay() returns (md: string)
      ensures md == Join(ExportLines(selectedDate, Tasks()), "\n")
    {
      md := BuildExportMarkdown(selectedDate, DayLedger(store, selectedDate));
    }
  }

  /**
   * Switching tasks as the code runs it: after starting `a` at 1000 and `b`
   * at 2000, `a` has its second recorded and nothing is running.
   */
  method SwitchEndsIdle(today: Ymd) returns (running: bool, recorded: int)
    ensures !running && recorded == 1000
  {
    TrimNoSpace("a");
    TrimNoSpace("b");
    var t := new TaskTimeTracker(today, map[], None);
    t.StartTaskAsWritten("a", 1000, "10:00:00");
    t.StartTaskAsWritten("b", 2000, "10:00:01");
    running := t.Running();
    CommitStopTotal(map[], t.selectedDate, "a", 1000, "", 2000, "10:00:01");
    recorded := L.TimeOf(t.Tasks(), "a");
  }
}
