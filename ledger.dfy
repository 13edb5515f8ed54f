/**
 * One day's task ledger: task name to accumulated time and notes, kept in
 * the insertion order JavaScript gives an object's string keys, and the
 * operations `saveTaskTime`, `saveEdit`, `saveEditWithNotes` and
 * `saveAdjustedTime` apply to it between loading and saving it.
 */
module Ledger {
  import opened Wrappers
  import opened Text
  import opened TimeFormat

  /**
   * A note: its text, the wall-clock time it was written (display text, empty
   * when there is none) and, for a note committed when a task stopped, the
   * formatted length of that session; `None` for notes added while editing.
   */
  datatype Note = Note(text: string, timestamp: string, duration: Option<string>)

  /** A task's accumulated milliseconds and its notes, oldest first. */
  datatype Entry = Entry(time: int, notes: seq<Note>)

  /** A stored value: an old-format bare millisecond count, or a current-format entry. */
  datatype Raw = Legacy(ms: int) | Obj(entry: Entry)

  /** The one-time upgrade of the old format: a bare count becomes an entry without notes. */
  function Normalize(r: Raw): Entry
  {
    match r
    case Legacy(ms) => Entry(ms, [])
    case Obj(e) => e
  }

  /** A day's ledger, in key order. */
  type Ledger = seq<(string, Raw)>

  function Names(l: Ledger): (ns: seq<string>)
    ensures |ns| == |l| && forall i {:trigger ns[i]} :: 0 <= i < |l| ==> ns[i] == l[i].0
  {
    seq(|l|, i requires 0 <= i < |l| => l[i].0)
  }

  /** An object's keys are distinct: no key comes back after its first entry. */
  predicate UniqueNames(l: Ledger)
  {
    l == [] || (!Has(l[1..], l[0].0) && UniqueNames(l[1..]))
  }

  /** The position of key `k`, if present. */
  function Find(l: Ledger, k: string): (r: Option<nat>)
    ensures r.Some? ==> r.value < |l| && l[r.value].0 == k
    ensures r.Some? ==> forall i :: 0 <= i < r.value ==> l[i].0 != k
    ensures r.None? ==> forall i :: 0 <= i < |l| ==> l[i].0 != k
  {
    if l == [] then None
    else if l[0].0 == k then Some(0)
    else match Find(l[1..], k)
      case None => None
      case Some(i) => Some(i + 1)
  }

  predicate Has(l: Ledger, k: string) { Find(l, k).Some? }

  /** `tasks[k]`, `None` standing for `undefined`. */
  function Get(l: Ledger, k: string): Option<Raw>
  {
    match Find(l, k)
    case Some(i) => Some(l[i].1)
    case None => None
  }

  /** `Find` is the first position holding the key. */
  lemma FindAt(l: Ledger, k: string, p: nat)
    requires p < |l| && l[p].0 == k && forall i :: 0 <= i < p ==> l[i].0 != k
    ensures Find(l, k) == Some(p)
  {
  }

  /** Lookup depends only on the key sequence. */
  lemma FindByNames(a: Ledger, b: Ledger, k: string)
    requires Names(a) == Names(b)
    ensures Find(a, k) == Find(b, k)
  {
    assert forall i :: 0 <= i < |a| ==> a[i].0 == Names(a)[i] == Names(b)[i] == b[i].0;
    if Find(a, k).Some? {
      FindAt(b, k, Find(a, k).value);
    }
  }

  /**
   * `tasks[k] = v`: an existing key keeps its position and gets the new
   * value; a new key goes at the end.
   */
  function Put(l: Ledger, k: string, v: Raw): (r: Ledger)
    ensures Get(r, k) == Some(v)
    ensures forall j {:trigger Get(r, j)} :: j != k ==> Get(r, j) == Get(l, j)
    ensures Has(l, k) ==> Names(r) == Names(l)
    ensures !Has(l, k) ==> r == l + [(k, v)]
    ensures UniqueNames(l) ==> UniqueNames(r)
  {
    match Find(l, k)
    case Some(i) => PutExisting(l, i, k, v); l[i := (k, v)]
    case None => PutNew(l, k, v); l + [(k, v)]
  }

  lemma PutExisting(l: Ledger, i: nat, k: string, v: Raw)
    requires Find(l, k) == Some(i)
    ensures var r := l[i := (k, v)];
      && Get(r, k) == Some(v)
      && (forall j {:trigger Get(r, j)} :: j != k ==> Get(r, j) == Get(l, j))
      && Names(r) == Names(l)
      && (UniqueNames(l) ==> UniqueNames(r))
  {
    var r := l[i := (k, v)];
    assert Names(r) == Names(l);
    UniqueByNames(r, l);
    FindByNames(r, l, k);
    forall j | j != k ensures Get(r, j) == Get(l, j) {
      FindByNames(r, l, j);
    }
  }

  lemma PutNew(l: Ledger, k: string, v: Raw)
    requires Find(l, k).None?
    ensures var r := l + [(k, v)];
      && Get(r, k) == Some(v)
      && (forall j {:trigger Get(r, j)} :: j != k ==> Get(r, j) == Get(l, j))
      && (UniqueNames(l) ==> UniqueNames(r))
  {
    var r := l + [(k, v)];
    assert forall i :: 0 <= i < |l| ==> r[i] == l[i];
    if UniqueNames(l) {
      UniqueAppend(l, (k, v));
    }
    FindAt(r, k, |l|);
    forall j | j != k ensures Get(r, j) == Get(l, j) {
      if Find(l, j).Some? {
        FindAt(r, j, Find(l, j).value);
      } else {
        assert forall i :: 0 <= i < |r| ==> r[i].0 != j;
      }
    }
  }

  /** Distinctness depends only on the key sequence. */
  lemma {:induction false} UniqueByNames(a: Ledger, b: Ledger)
    requires Names(a) == Names(b)
    ensures UniqueNames(a) == UniqueNames(b)
  {
    if a != [] {
      NamesTail(a);
      NamesTail(b);
      assert Names(a[1..]) == Names(a)[1..] == Names(b)[1..] == Names(b[1..]);
      FindByNames(a[1..], b[1..], a[0].0);
      UniqueByNames(a[1..], b[1..]);
    }
  }

  /** Past a first entry with another key, the key is present exactly when it is in the rest. */
  lemma HasTail(l: Ledger, k: string)
    requires l != [] && l[0].0 != k
    ensures Has(l, k) == Has(l[1..], k)
  {
  }

  /** After an append, a key is present when it was before or is the appended one. */
  lemma HasAppend(l: Ledger, x: (string, Raw), k: string)
    ensures Has(l + [x], k) <==> Has(l, k) || x.0 == k
  {
    var r := l + [x];
    assert forall i :: 0 <= i < |l| ==> r[i] == l[i];
    if Has(l, k) {
      FindAt(r, k, Find(l, k).value);
    } else if x.0 == k {
      FindAt(r, k, |l|);
    }
  }

  /** Appending a key not yet present keeps the keys distinct. */
  lemma {:induction false} UniqueAppend(l: Ledger, x: (string, Raw))
    requires UniqueNames(l) && !Has(l, x.0)
    ensures UniqueNames(l + [x])
  {
    var r := l + [x];
    if l == [] {
      assert r[1..] == [];
    } else {
      assert r[0] == l[0] && r[1..] == l[1..] + [x];
      assert l[0].0 != x.0;
      HasTail(l, x.0);
      UniqueAppend(l[1..], x);
      HasAppend(l[1..], x, l[0].0);
    }
  }

  /** The keys other than `k`, in order. */
  function Without(ns: seq<string>, k: string): seq<string>
  {
    if ns == [] then [] else (if ns[0] == k then [] else [ns[0]]) + Without(ns[1..], k)
  }

  /** Past a first entry with another key, lookup continues in the rest. */
  lemma GetTail(l: Ledger, j: string)
    requires l != [] && l[0].0 != j
    ensures Get(l, j) == Get(l[1..], j)
  {
  }

  /** `delete tasks[k]`: the other keys keep their values and their order. */
  function Remove(l: Ledger, k: string): (r: Ledger)
    ensures !Has(r, k)
    ensures forall j {:trigger Get(r, j)} :: j != k ==> Get(r, j) == Get(l, j)
    ensures Names(r) == Without(Names(l), k)
    ensures UniqueNames(l) ==> UniqueNames(r)
    ensures !Has(l, k) ==> r == l
  {
    if l == [] then []
    else
      var rest := Remove(l[1..], k);
      if l[0].0 == k then
        RemoveDrop(l, k, rest);
        rest
      else
        RemoveKeep(l, k, rest);
        RemoveKeepUnique(l, k, rest);
        [l[0]] + rest
  }

  lemma NamesTail(l: Ledger)
    requires l != []
    ensures Names(l) == [l[0].0] + Names(l[1..])
  {
  }

  /** `Remove` past an entry with the deleted key. */
  lemma RemoveDrop(l: Ledger, k: string, rest: Ledger)
    requires l != [] && l[0].0 == k
    requires forall j :: j != k ==> Get(rest, j) == Get(l[1..], j)
    requires Names(rest) == Without(Names(l[1..]), k)
    requires UniqueNames(l[1..]) ==> UniqueNames(rest)
    ensures forall j {:trigger Get(rest, j)} :: j != k ==> Get(rest, j) == Get(l, j)
    ensures Names(rest) == Without(Names(l), k)
    ensures UniqueNames(l) ==> UniqueNames(rest)
    ensures Has(l, k)
  {
    forall j | j != k ensures Get(rest, j) == Get(l, j) {
      GetTail(l, j);
    }
    NamesTail(l);
    assert UniqueNames(l) ==> UniqueNames(l[1..]);
  }

  /** `Remove` past an entry with another key keeps it. */
  lemma RemoveKeep(l: Ledger, k: string, rest: Ledger)
    requires l != [] && l[0].0 != k
    requires !Has(rest, k)
    requires forall j :: j != k ==> Get(rest, j) == Get(l[1..], j)
    requires Names(rest) == Without(Names(l[1..]), k)
    requires !Has(l[1..], k) ==> rest == l[1..]
    ensures var r := [l[0]] + rest;
      && !Has(r, k)
      && (forall j {:trigger Get(r, j)} :: j != k ==> Get(r, j) == Get(l, j))
      && Names(r) == Without(Names(l), k)
      && (!Has(l, k) ==> r == l)
  {
    var r := [l[0]] + rest;
    assert r[1..] == rest;
    NamesTail(l);
    NamesTail(r);
    forall j | j != k ensures Get(r, j) == Get(l, j) {
      if j != l[0].0 {
        GetTail(l, j);
        GetTail(r, j);
      }
    }
    GetTail(r, k);
    GetTail(l, k);
  }

  lemma RemoveKeepUnique(l: Ledger, k: string, rest: Ledger)
    requires l != [] && l[0].0 != k
    requires forall j :: j != k ==> Get(rest, j) == Get(l[1..], j)
    requires UniqueNames(l[1..]) ==> UniqueNames(rest)
    ensures UniqueNames(l) ==> UniqueNames([l[0]] + rest)
  {
    if UniqueNames(l) {
      var r := [l[0]] + rest;
      assert r[1..] == rest;
      assert Get(rest, l[0].0) == Get(l[1..], l[0].0);
    }
  }

  // ------------------------------------------------------------- day total

  /** The entry a task stands for: the stored one normalized, or an empty one when absent. */
  function Current(l: Ledger, k: string): Entry
  {
    match Get(l, k)
    case Some(raw) => Normalize(raw)
    case None => Entry(0, [])
  }

  function TimeOf(l: Ledger, k: string): int { Current(l, k).time }

  /** `updateTotalTime`: the sum of every entry's normalized time. */
  function TotalTime(l: Ledger): int
  {
    if l == [] then 0 else Normalize(l[0].1).time + TotalTime(l[1..])
  }

  lemma {:induction false} TotalAppend(l: Ledger, x: (string, Raw))
    ensures TotalTime(l + [x]) == TotalTime(l) + Normalize(x.1).time
  {
    if l != [] {
      assert (l + [x])[1..] == l[1..] + [x];
      TotalAppend(l[1..], x);
    }
  }

  lemma {:induction false} TotalUpdate(l: Ledger, i: nat, x: (string, Raw))
    requires i < |l|
    ensures TotalTime(l[i := x]) == TotalTime(l) - Normalize(l[i].1).time + Normalize(x.1).time
  {
    if i > 0 {
      assert l[i := x][1..] == l[1..][i - 1 := x];
      TotalUpdate(l[1..], i - 1, x);
    }
  }

  /** Storing a value under a key changes the total by the difference of the two times. */
  lemma TotalPut(l: Ledger, k: string, v: Raw)
    ensures TotalTime(Put(l, k, v)) == TotalTime(l) - TimeOf(l, k) + Normalize(v).time
  {
    match Find(l, k)
    case Some(i) => TotalUpdate(l, i, (k, v));
    case None => TotalAppend(l, (k, v));
  }

  /** Deleting a key takes exactly its time out of the total. */
  lemma {:induction false} TotalRemove(l: Ledger, k: string)
    requires UniqueNames(l)
    ensures TotalTime(Remove(l, k)) == TotalTime(l) - TimeOf(l, k)
  {
    if l != [] {
      assert UniqueNames(l[1..]);
      TotalRemove(l[1..], k);
      if l[0].0 == k {
        assert !Has(l[1..], k);
      } else {
        assert Get(l, k) == Get(l[1..], k);
      }
    }
  }

  // ------------------------------------------------------------ stopping

  /** The note a stop commits: the trimmed draft, its time of day and the formatted session length. */
  function StopNote(draft: string, duration: int, timestamp: string): Note
  {
    Note(Trim(draft), timestamp, Some(FormatTime(duration)))
  }

  /**
   * `saveTaskTime(taskName, duration, notes)`: adds `duration` to the task's
   * time (creating the task, or upgrading an old-format count, first) and
   * appends one note when the draft is not blank. `timestamp` is the
   * `toLocaleTimeString()` text of the moment of saving.
   */
  function SaveTaskTime(l: Ledger, name: string, duration: int, draft: string, timestamp: string): (r: Ledger)
    ensures Get(r, name).Some? && Get(r, name).value.Obj?
    ensures TimeOf(r, name) == TimeOf(l, name) + duration
    ensures IsBlank(draft) ==> Current(r, name).notes == Current(l, name).notes
    ensures !IsBlank(draft) ==>
      Current(r, name).notes == Current(l, name).notes + [StopNote(draft, duration, timestamp)]
    ensures forall k {:trigger Get(r, k)} :: k != name ==> Get(r, k) == Get(l, k)
    ensures Names(r) == if Has(l, name) then Names(l) else Names(l) + [name]
    ensures UniqueNames(l) ==> UniqueNames(r)
  {
    var e := Current(l, name);
    var notes := if Trim(draft) != "" then e.notes + [StopNote(draft, duration, timestamp)] else e.notes;
    var r := Put(l, name, Obj(Entry(e.time + duration, notes)));
    assert !Has(l, name) ==> Names(r) == Names(l) + [name];
    r
  }

  /** Committing a stop raises the day total by exactly the session's length. */
  lemma SaveTaskTimeTotal(l: Ledger, name: string, duration: int, draft: string, timestamp: string)
    ensures TotalTime(SaveTaskTime(l, name, duration, draft, timestamp)) == TotalTime(l) + duration
  {
    var e := Current(l, name);
    var notes := if Trim(draft) != "" then e.notes + [StopNote(draft, duration, timestamp)] else e.notes;
    SaveTaskTimeIsPut(l, name, duration, draft, timestamp);
    TotalPut(l, name, Obj(Entry(e.time + duration, notes)));
  }

  lemma SaveTaskTimeIsPut(l: Ledger, name: string, duration: int, draft: string, timestamp: string)
    ensures
      var e := Current(l, name);
      var notes := if Trim(draft) != "" then e.notes + [StopNote(draft, duration, timestamp)] else e.notes;
      SaveTaskTime(l, name, duration, draft, timestamp) == Put(l, name, Obj(Entry(e.time + duration, notes)))
  {
  }

  /** Stops accumulate: two commits to one task add both lengths and keep both notes in order. */
  lemma StopsAccumulate(l: Ledger, name: string, d1: int, n1: string, t1: string, d2: int, n2: string, t2: string)
    requires !IsBlank(n1) && !IsBlank(n2)
    ensures
      var r := SaveTaskTime(SaveTaskTime(l, name, d1, n1, t1), name, d2, n2, t2);
      && TimeOf(r, name) == TimeOf(l, name) + d1 + d2
      && Current(r, name).notes == Current(l, name).notes + [StopNote(n1, d1, t1), StopNote(n2, d2, t2)]
  {
    var l1 := SaveTaskTime(l, name, d1, n1, t1);
    assert TimeOf(l1, name) == TimeOf(l, name) + d1;
    StopNotesChain(l, l1, SaveTaskTime(l1, name, d2, n2, t2), name, d1, n1, t1, d2, n2, t2);
  }

  lemma StopNotesChain(l: Ledger, l1: Ledger, l2: Ledger, name: string, d1: int, n1: string, t1: string, d2: int, n2: string, t2: string)
    requires !IsBlank(n1) && !IsBlank(n2)
    requires l1 == SaveTaskTime(l, name, d1, n1, t1) && l2 == SaveTaskTime(l1, name, d2, n2, t2)
    ensures Current(l2, name).notes == Current(l, name).notes + [StopNote(n1, d1, t1), StopNote(n2, d2, t2)]
  {
  }

  // ------------------------------------------------------ rename and merge

  /** The condition under which a rename writes anything: a non-empty old name, present, and a different new name. */
  predicate Renames(l: Ledger, oldName: string, newName: string)
  {
    oldName != "" && Has(l, oldName) && newName != oldName
  }

  /**
   * The shared step of both renames: `src` goes under `newName`, summed with
   * and appended to an existing entry there, and `oldName` is deleted.
   */
  function Move(l: Ledger, oldName: string, newName: string, src: Entry): (r: Ledger)
    requires oldName != newName
    ensures !Has(r, oldName) && Has(r, newName)
    ensures !Has(l, newName) ==> r == Remove(l, oldName) + [(newName, Obj(src))]
    ensures Has(l, newName) ==>
      && Get(r, newName) == Some(Obj(Entry(Current(l, newName).time + src.time, Current(l, newName).notes + src.notes)))
      && Names(r) == Without(Names(l), oldName)
    ensures forall k {:trigger Get(r, k)} :: k != oldName && k != newName ==> Get(r, k) == Get(l, k)
    ensures UniqueNames(l) ==> UniqueNames(r)
  {
    var merged := Merged(l, newName, src);
    MoveFacts(l, oldName, newName, src);
    Remove(Put(l, newName, Obj(merged)), oldName)
  }

  lemma MoveFacts(l: Ledger, oldName: string, newName: string, src: Entry)
    requires oldName != newName
    ensures var r := Remove(Put(l, newName, Obj(Merged(l, newName, src))), oldName);
      && !Has(r, oldName) && Has(r, newName)
      && (!Has(l, newName) ==> r == Remove(l, oldName) + [(newName, Obj(src))])
      && (Has(l, newName) ==>
           && Get(r, newName) == Some(Obj(Entry(Current(l, newName).time + src.time, Current(l, newName).notes + src.notes)))
           && Names(r) == Without(Names(l), oldName))
      && (forall k {:trigger Get(r, k)} :: k != oldName && k != newName ==> Get(r, k) == Get(l, k))
      && (UniqueNames(l) ==> UniqueNames(r))
  {
    var merged := Merged(l, newName, src);
    var p := Put(l, newName, Obj(merged));
    var r := Remove(p, oldName);
    assert Get(r, newName) == Get(p, newName) == Some(Obj(merged));
    assert Has(l, newName) ==> merged == Entry(Current(l, newName).time + src.time, Current(l, newName).notes + src.notes);
    MoveShape(l, oldName, newName, Obj(merged));
    forall k | k != oldName && k != newName ensures Get(r, k) == Get(l, k) {
      assert Get(r, k) == Get(p, k);
    }
  }

  /** What a rename stores under the new name: `src` itself, or `src` merged into the entry already there. */
  function Merged(l: Ledger, newName: string, src: Entry): Entry
  {
    match Get(l, newName)
    case None => src
    case Some(t) => Entry(Normalize(t).time + src.time, Normalize(t).notes + src.notes)
  }

  lemma MoveShape(l: Ledger, oldName: string, newName: string, v: Raw)
    requires oldName != newName
    ensures !Has(l, newName) ==> Remove(Put(l, newName, v), oldName) == Remove(l, oldName) + [(newName, v)]
    ensures Has(l, newName) ==> Names(Remove(Put(l, newName, v), oldName)) == Without(Names(l), oldName)
  {
    if !Has(l, newName) {
      RemoveAppend(l, (newName, v), oldName);
    }
  }

  /** Deleting a key other than the last one's commutes with appending the last one. */
  lemma {:induction false} RemoveAppend(l: Ledger, x: (string, Raw), k: string)
    requires x.0 != k
    ensures Remove(l + [x], k) == Remove(l, k) + [x]
  {
    if l == [] {
      assert Remove([x], k) == [x] + Remove([], k);
    } else {
      assert (l + [x])[1..] == l[1..] + [x];
      RemoveAppend(l[1..], x, k);
    }
  }

  /**
   * `saveEdit(oldName, newName)`: nothing changes unless the rename applies;
   * then the old entry (normalized) moves to `newName`, or is merged into an
   * existing `newName` with the times summed and the target's notes first.
   */
  function SaveEdit(l: Ledger, oldName: string, newName: string): (r: Ledger)
    ensures !Renames(l, oldName, newName) ==> r == l
    ensures Renames(l, oldName, newName) ==>
      var src := Current(l, oldName);
      && !Has(r, oldName) && Has(r, newName)
      && (!Has(l, newName) ==> r == Remove(l, oldName) + [(newName, Obj(src))])
      && (Has(l, newName) ==>
           && Get(r, newName) == Some(Obj(Entry(Current(l, newName).time + src.time, Current(l, newName).notes + src.notes)))
           && Names(r) == Without(Names(l), oldName))
      && (forall k {:trigger Get(r, k)} :: k != oldName && k != newName ==> Get(r, k) == Get(l, k))
    ensures UniqueNames(l) ==> UniqueNames(r)
  {
    // an empty old name, a missing old entry and an unchanged name all return before saving
    if !Renames(l, oldName, newName) then l
    else Move(l, oldName, newName, Current(l, oldName))
  }

  /**
   * `saveEditWithNotes(oldName, newName, updatedNotes)`: the same rename and
   * merge, carrying `updatedNotes` instead of the old entry's notes; with an
   * unchanged name only that entry's notes are replaced.
   */
  function SaveEditWithNotes(l: Ledger, oldName: string, newName: string, updatedNotes: seq<Note>): (r: Ledger)
    ensures oldName == "" || !Has(l, oldName) ==> r == l
    ensures oldName != "" && Has(l, oldName) && newName == oldName ==>
      && Get(r, oldName) == Some(Obj(Entry(TimeOf(l, oldName), updatedNotes)))
      && Names(r) == Names(l)
      && (forall k {:trigger Get(r, k)} :: k != oldName ==> Get(r, k) == Get(l, k))
    ensures Renames(l, oldName, newName) ==>
      var src := Entry(TimeOf(l, oldName), updatedNotes);
      && !Has(r, oldName) && Has(r, newName)
      && (!Has(l, newName) ==> r == Remove(l, oldName) + [(newName, Obj(src))])
      && (Has(l, newName) ==>
           && Get(r, newName) == Some(Obj(Entry(Current(l, newName).time + src.time, Current(l, newName).notes + updatedNotes)))
           && Names(r) == Without(Names(l), oldName))
      && (forall k {:trigger Get(r, k)} :: k != oldName && k != newName ==> Get(r, k) == Get(l, k))
    ensures UniqueNames(l) ==> UniqueNames(r)
  {
    if oldName == "" || !Has(l, oldName) then l
    else if newName == oldName then Put(l, oldName, Obj(Entry(TimeOf(l, oldName), updatedNotes)))
    else Move(l, oldName, newName, Entry(TimeOf(l, oldName), updatedNotes))
  }

  /** A plain rename is the notes-editing rename handed the entry's own notes. */
  lemma SaveEditIsSaveEditWithOwnNotes(l: Ledger, oldName: string, newName: string)
    requires newName != oldName
    ensures SaveEdit(l, oldName, newName) == SaveEditWithNotes(l, oldName, newName, Current(l, oldName).notes)
  {
  }

  /** A rename or merge never changes the day total. */
  lemma SaveEditTotal(l: Ledger, oldName: string, newName: string)
    requires UniqueNames(l)
    ensures TotalTime(SaveEdit(l, oldName, newName)) == TotalTime(l)
  {
    if Renames(l, oldName, newName) {
      MoveTotal(l, oldName, newName, Current(l, oldName));
    }
  }

  /** Nor does the notes-editing rename. */
  lemma SaveEditWithNotesTotal(l: Ledger, oldName: string, newName: string, updatedNotes: seq<Note>)
    requires UniqueNames(l)
    ensures TotalTime(SaveEditWithNotes(l, oldName, newName, updatedNotes)) == TotalTime(l)
  {
    if oldName != "" && Has(l, oldName) {
      if newName == oldName {
        TotalPut(l, oldName, Obj(Entry(TimeOf(l, oldName), updatedNotes)));
      } else {
        MoveTotal(l, oldName, newName, Entry(TimeOf(l, oldName), updatedNotes));
      }
    }
  }

  /** Moving an entry that carries the old entry's time keeps the total. */
  lemma MoveTotal(l: Ledger, oldName: string, newName: string, src: Entry)
    requires UniqueNames(l) && oldName != newName && Has(l, oldName) && src.time == TimeOf(l, oldName)
    ensures TotalTime(Move(l, oldName, newName, src)) == TotalTime(l)
  {
    var merged := Merged(l, newName, src);
    var p := Put(l, newName, Obj(merged));
    TotalPut(l, newName, Obj(merged));
    TotalRemove(p, oldName);
    assert TimeOf(p, oldName) == TimeOf(l, oldName);
  }

  /**
   * The merge the repository's own test performs: `a` with one note merged
   * into `b` with one note leaves only `b`, holding both times and `b`'s note
   * first.
   */
  lemma MergeExample(a: string, b: string, ta: int, tb: int, nA: Note, nB: Note)
    requires a != "" && a != b
    ensures
      var l := [(a, Obj(Entry(ta, [nA]))), (b, Obj(Entry(tb, [nB])))];
      SaveEdit(l, a, b) == [(b, Obj(Entry(tb + ta, [nB, nA])))]
  {
    var l := [(a, Obj(Entry(ta, [nA]))), (b, Obj(Entry(tb, [nB])))];
    FindAt(l, a, 0);
    FindAt(l, b, 1);
    assert Renames(l, a, b);
    var r := SaveEdit(l, a, b);
    assert Names(l) == [a, b];
    assert Without(Names(l), a) == [b] by {
      assert Names(l)[1..] == [b];
      assert Without([b], a) == [b] + Without([], a);
    }
    assert |r| == 1 && r[0].0 == b;
    FindAt(r, b, 0);
    assert Get(r, b) == Some(r[0].1);
    assert Current(l, a) == Entry(ta, [nA]) && Current(l, b) == Entry(tb, [nB]);
    assert r[0].1 == Obj(Entry(tb + ta, [nB, nA]));
    assert r == [r[0]];
  }

  // ------------------------------------------------------------ adjusting

  /**
   * `saveAdjustedTime(taskName, ms)`: the task's time becomes `ms` and its
   * notes stay. The source dereferences a missing task, hence the requires.
   */
  function SaveAdjustedTime(l: Ledger, name: string, ms: int): (r: Ledger)
    requires Has(l, name)
    ensures Get(r, name) == Some(Obj(Entry(ms, Current(l, name).notes)))
    ensures forall k {:trigger Get(r, k)} :: k != name ==> Get(r, k) == Get(l, k)
    ensures Names(r) == Names(l)
    ensures UniqueNames(l) ==> UniqueNames(r)
  {
    var data := Current(l, name);
    Put(l, name, Obj(Entry(ms, data.notes)))
  }

  /** Adjusting one task moves the day total by exactly the difference. */
  lemma SaveAdjustedTimeTotal(l: Ledger, name: string, ms: int)
    requires Has(l, name)
    ensures TotalTime(SaveAdjustedTime(l, name, ms)) == TotalTime(l) + ms - TimeOf(l, name)
  {
    TotalPut(l, name, Obj(Entry(ms, Current(l, name).notes)));
  }
}
