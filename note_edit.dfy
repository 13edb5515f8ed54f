/**
 * The inline editor `enterEditMode(oldName)` opens on one task: a private copy
 * of the task's notes, one text box per note, a delete button per note and
 * an add box. Saving hands the trimmed name and the gathered notes to
 * `saveEditWithNotes`.
 */
module NoteEdit {
  import opened Wrappers
  import opened Text
  import opened Ledger

  /** The text of every note, in order: what the note boxes show after a render. */
  function Texts(ns: seq<Note>): (r: seq<string>)
    ensures |r| == |ns| && forall i :: 0 <= i < |ns| ==> r[i] == ns[i].text
  {
    seq(|ns|, i requires 0 <= i < |ns| => ns[i].text)
  }

  /**
   * `noteInputs.map((input, idx) => ({...notes[idx] || {}, text: input.value}))`:
   * box `i` keeps the time of day and duration of note `i` and takes the box's
   * text as it stands, untrimmed; a box without a note behind it has neither.
   */
  function Edited(notes: seq<Note>, inputs: seq<string>): (r: seq<Note>)
    ensures |r| == |inputs|
    ensures Texts(r) == inputs
    ensures forall i :: 0 <= i < |inputs| && i < |notes| ==>
      r[i].timestamp == notes[i].timestamp && r[i].duration == notes[i].duration
    ensures forall i :: |notes| <= i < |inputs| ==> r[i].timestamp == "" && r[i].duration == None
  {
    seq(|inputs|, i requires 0 <= i < |inputs| =>
      (if i < |notes| then notes[i] else Note("", "", None)).(text := inputs[i]))
  }

  /** `.filter(n => n.text && n.text.trim())`: the notes whose text is not blank, in order. */
  function KeepWritten(ns: seq<Note>): (r: seq<Note>)
    ensures |r| <= |ns|
    ensures forall n :: n in r ==> n in ns && !IsBlank(n.text)
    ensures forall n :: n in ns && !IsBlank(n.text) ==> n in r
  {
    if ns == [] then []
    else (if !IsBlank(ns[0].text) then [ns[0]] else []) + KeepWritten(ns[1..])
  }

  /**
   * The filter keeps order and multiplicity: it works note by note, so the
   * notes kept from two runs of boxes are those of the first run, then those
   * of the second.
   */
  lemma {:induction false} KeepWrittenAppend(a: seq<Note>, b: seq<Note>)
    ensures KeepWritten(a + b) == KeepWritten(a) + KeepWritten(b)
  {
    if a != [] {
      assert (a + b)[0] == a[0] && (a + b)[1..] == a[1..] + b;
      KeepWrittenAppend(a[1..], b);
    } else {
      assert a + b == b;
    }
  }

  /** A single note is kept exactly when its text is not blank. */
  lemma KeepWrittenOne(n: Note)
    ensures KeepWritten([n]) == if IsBlank(n.text) then [] else [n]
  {
    assert [n][1..] == [];
  }

  /** The notes a save passes on. */
  function Gathered(notes: seq<Note>, inputs: seq<string>): seq<Note>
  {
    KeepWritten(Edited(notes, inputs))
  }

  /** `notes.splice(idx, 1)`: the note at `idx` taken out, nothing when there is none there. */
  function Deleted(notes: seq<Note>, idx: nat): (r: seq<Note>)
    ensures idx < |notes| ==>
      && |r| == |notes| - 1
      && multiset(r) + multiset{notes[idx]} == multiset(notes)
      && (forall i :: 0 <= i < idx ==> r[i] == notes[i])
      && (forall i :: idx <= i < |r| ==> r[i] == notes[i + 1])
    ensures idx >= |notes| ==> r == notes
  {
    if idx < |notes| then
      var r := notes[..idx] + notes[idx + 1..];
      assert notes == notes[..idx] + [notes[idx]] + notes[idx + 1..];
      r
    else notes
  }

  /** The note the add box makes: its trimmed text, the time of day, no duration. */
  function AddedNote(input: string, timestamp: string): Note
  {
    Note(Trim(input), timestamp, None)
  }

  /** The add button: a blank box adds nothing, otherwise the note goes at the end. */
  function Added(notes: seq<Note>, input: string, timestamp: string): (r: seq<Note>)
    ensures IsBlank(input) ==> r == notes
    ensures !IsBlank(input) ==> |r| == |notes| + 1 && r[..|notes|] == notes && r[|notes|] == AddedNote(input, timestamp)
  {
    if Trim(input) == "" then notes else notes + [AddedNote(input, timestamp)]
  }

  // -------------------------------------------------------------- properties

  /** Boxes showing the notes' own texts give back the notes themselves. */
  lemma EditedUnchanged(notes: seq<Note>)
    ensures Edited(notes, Texts(notes)) == notes
  {
  }

  /** Filtering keeps every note when none is blank ... */
  lemma {:induction false} KeepWrittenAll(ns: seq<Note>)
    requires forall i :: 0 <= i < |ns| ==> !IsBlank(ns[i].text)
    ensures KeepWritten(ns) == ns
  {
    if ns != [] {
      KeepWrittenAll(ns[1..]);
    }
  }

  /** ... and none when all are. */
  lemma {:induction false} KeepWrittenNone(ns: seq<Note>)
    requires forall i :: 0 <= i < |ns| ==> IsBlank(ns[i].text)
    ensures KeepWritten(ns) == []
  {
    if ns != [] {
      KeepWrittenNone(ns[1..]);
    }
  }

  /** Saving without touching any box passes on the notes as they were, provided none is blank. */
  lemma GatherUntouched(notes: seq<Note>)
    requires forall i :: 0 <= i < |notes| ==> !IsBlank(notes[i].text)
    ensures Gathered(notes, Texts(notes)) == notes
  {
    EditedUnchanged(notes);
    KeepWrittenAll(notes);
  }

  /** Clearing every box deletes every note. */
  lemma GatherCleared(notes: seq<Note>, inputs: seq<string>)
    requires forall i :: 0 <= i < |inputs| ==> IsBlank(inputs[i])
    ensures Gathered(notes, inputs) == []
  {
    var e := Edited(notes, inputs);
    assert forall i :: 0 <= i < |e| ==> e[i].text == Texts(e)[i];
    KeepWrittenNone(e);
  }

  /** An added note is not blank, so it survives a save that leaves the boxes as rendered. */
  lemma AddedSurvives(notes: seq<Note>, input: string, timestamp: string)
    requires !IsBlank(input)
    ensures AddedNote(input, timestamp) in Gathered(Added(notes, input, timestamp), Texts(Added(notes, input, timestamp)))
  {
    var a := Added(notes, input, timestamp);
    var n := AddedNote(input, timestamp);
    EditedUnchanged(a);
    assert a[|notes|] == n && n in a;
    assert !IsBlank(n.text) by {
      assert n.text != [] && !IsSpace(n.text[0]);
    }
  }

  /**
   * The editor's state: the task it was opened on, its copy of the notes, and
   * what each note box holds. Every render rebuilds the boxes from the notes.
   */
  class NoteEditor {
    var oldName: string
    var notes: seq<Note>
    var inputs: seq<string>

    /** One box per note, as every render leaves it. */
    predicate Valid()
      reads this
    {
      |inputs| == |notes|
    }

    /**
     * Opening the editor on a task: the copy of its notes (none for an
     * old-format count). A missing task makes the source throw.
     */
    constructor(l: Ledger, name: string)
      requires Has(l, name)
      ensures oldName == name && notes == Current(l, name).notes && inputs == Texts(notes)
      ensures Valid()
    {
      oldName := name;
      notes := Current(l, name).notes;
      inputs := Texts(Current(l, name).notes);
    }

    /** Typing into note box `idx`. */
    method Type(idx: nat, text: string)
      requires idx < |inputs|
      requires Valid()
      modifies this
      ensures oldName == old(oldName) && notes == old(notes) && inputs == old(inputs)[idx := text]
      ensures Valid()
    {
      inputs := inputs[idx := text];
    }

    /** A delete button: the note goes and the boxes are rendered again, so text typed so far is lost. */
    method Delete(idx: nat)
      modifies this
      ensures oldName == old(oldName) && notes == Deleted(old(notes), idx) && inputs == Texts(notes)
      ensures Valid()
    {
      notes := Deleted(notes, idx);
      inputs := Texts(notes);
    }

    /** The add button: a blank box changes nothing, otherwise as for a delete the boxes are rendered again. */
    method Add(input: string, timestamp: string)
      modifies this
      ensures oldName == old(oldName)
      ensures IsBlank(input) ==> notes == old(notes) && inputs == old(inputs)
      ensures !IsBlank(input) ==> notes == Added(old(notes), input, timestamp) && inputs == Texts(notes)
      ensures Valid() <== old(Valid()) || !IsBlank(input)
    {
      var text := Trim(input);
      if text == "" {
        return;
      }
      notes := notes + [Note(text, timestamp, None)];
      inputs := Texts(notes);
    }

    /**
     * The save handler: nothing for a blank name, otherwise the trimmed name
     * and the notes whose boxes are not blank, in box order, with the boxes' text.
     */
    function Submission(nameInput: string): (r: Option<(string, seq<Note>)>)
      reads this
      ensures r.None? <==> IsBlank(nameInput)
      ensures r.Some? ==> r.value.0 == Trim(nameInput) && r.value.0 != ""
      ensures r.Some? ==> r.value.1 == Gathered(notes, inputs)
    ensures r.Some? ==> forall n :: n in r.value.1 ==> !IsBlank(n.text) && n.text in inputs
    {
      var newName := Trim(nameInput);
      if newName == "" then None
      else
        var e := Edited(notes, inputs);
        var g := KeepWritten(e);
        assert forall n :: n in e ==> n.text in inputs by {
          forall n | n in e ensures n.text in inputs {
            var i :| 0 <= i < |e| && e[i] == n;
            assert Texts(e)[i] == n.text;
          }
        }
        Some((newName, g))
    }
  }
}
