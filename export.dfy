/**
 * `buildExportMarkdown(tasks)`: the Markdown text of one day, a title line,
 * then one block per task in list order, each block the task's line, one
 * line per note and a blank line.
 */
module Export {
  import opened Wrappers
  import opened Text
  import opened TimeFormat
  import opened Ledger
  import opened Display

  const NoTasksLine := "- No tasks tracked for this date."

  /** The title line and the blank line after it. */
  function Header(date: string): seq<string>
  {
    ["# Tasks for " + date, ""]
  }

  /** `- **name** — HH:MM:SS`. */
  function TaskLine(x: (string, Raw)): string
  {
    "- **" + x.0 + "** \U{2014} " + FormatTime(Time(x))
  }

  /** `[ts, dur].filter(Boolean)`: the pieces that are not empty. */
  function NonEmpty(pieces: seq<string>): (r: seq<string>)
    ensures forall i :: 0 <= i < |r| ==> r[i] != ""
    ensures forall p :: p in r <==> p in pieces && p != ""
    ensures |r| <= |pieces|
  {
    if pieces == [] then []
    else (if pieces[0] != "" then [pieces[0]] else []) + NonEmpty(pieces[1..])
  }

  /** The filter keeps order: the pieces kept from two runs are those of the first, then those of the second. */
  lemma {:induction false} NonEmptyAppend(a: seq<string>, b: seq<string>)
    ensures NonEmpty(a + b) == NonEmpty(a) + NonEmpty(b)
  {
    if a != [] {
      assert (a + b)[0] == a[0] && (a + b)[1..] == a[1..] + b;
      NonEmptyAppend(a[1..], b);
    } else {
      assert a + b == b;
    }
  }

  /** The time of day and the duration of a note, whichever are present, separated by one space. */
  function Meta(n: Note): string
  {
    Join(NonEmpty([n.timestamp, n.duration.GetOr("")]), " ")
  }

  /** `  - (meta) text`, the parenthesis left out when there is no meta text. */
  function NoteLine(n: Note): string
  {
    var meta := Meta(n);
    "  - " + (if meta != "" then "(" + Trim(meta) + ") " else "") + n.text
  }

  /** The note lines of `ns`, in order. */
  function NoteLines(ns: seq<Note>): (r: seq<string>)
    ensures |r| == |ns|
    ensures forall i :: 0 <= i < |ns| ==> r[i] == NoteLine(ns[i])
  {
    if ns == [] then [] else NoteLines(ns[..|ns| - 1]) + [NoteLine(ns[|ns| - 1])]
  }

  /** One task's block: its line, its notes' lines, and a blank line. */
  function Block(x: (string, Raw)): seq<string>
  {
    [TaskLine(x)] + NoteLines(Normalize(x.1).notes) + [""]
  }

  /** The blocks of `es`, in order. */
  function Blocks(es: Ledger): seq<string>
  {
    if es == [] then [] else Blocks(es[..|es| - 1]) + Block(es[|es| - 1])
  }

  /** The lines of the export of `tasks` on day `date`. */
  function ExportLines(date: string, tasks: Ledger): seq<string>
  {
    Header(date) + (if tasks == [] then [NoTasksLine] else Blocks(SortByTime(tasks)))
  }

  /**
   * `buildExportMarkdown(tasks)` with `this.selectedDate` as `date`: the lines
   * are collected in nested loops over the sorted entries and their notes,
   * then joined with line feeds.
   */
  method BuildExportMarkdown(date: string, tasks: Ledger) returns (md: string)
    ensures md == Join(ExportLines(date, tasks), "\n")
  {
    var lines := ["# Tasks for " + date, ""];
    if |tasks| == 0 {
      lines := lines + [NoTasksLine];
      return Join(lines, "\n");
    }
    var entries := SortByTime(tasks);
    var i := 0;
    while i < |entries|
      invariant 0 <= i <= |entries|
      invariant lines == Header(date) + Blocks(entries[..i])
    {
      var (name, data) := entries[i];
      var t := Normalize(data).time;
      var timeStr := FormatTime(t);
      ghost var before := lines;
      lines := lines + ["- **" + name + "** \U{2014} " + timeStr];
      var notes := Normalize(data).notes;
      var j := 0;
      assert notes[..0] == [];
      while j < |notes|
        invariant 0 <= j <= |notes|
        invariant lines == before + [TaskLine(entries[i])] + NoteLines(notes[..j])
      {
        NoteLinesPrefix(notes, j);
        Snoc(before + [TaskLine(entries[i])], NoteLines(notes[..j]), NoteLine(notes[j]));
        lines := lines + [NoteLine(notes[j])];
        j := j + 1;
      }
      assert notes[..j] == notes;
      lines := lines + [""];
      BlocksPrefix(entries, i);
      assert Block(entries[i]) == [TaskLine(entries[i])] + NoteLines(notes) + [""];
      Regroup(Header(date), Blocks(entries[..i]), TaskLine(entries[i]), NoteLines(notes));
      i := i + 1;
    }
    assert entries[..i] == entries;
    md := Join(lines, "\n");
  }

  lemma Regroup(h: seq<string>, b: seq<string>, first: string, mid: seq<string>)
    ensures h + b + [first] + mid + [""] == h + (b + ([first] + mid + [""]))
  {
  }

  lemma Snoc(h: seq<string>, mid: seq<string>, last: string)
    ensures h + mid + [last] == h + (mid + [last])
  {
  }

  lemma NoteLinesPrefix(ns: seq<Note>, j: nat)
    requires j < |ns|
    ensures NoteLines(ns[..j + 1]) == NoteLines(ns[..j]) + [NoteLine(ns[j])]
  {
    assert ns[..j + 1][..j] == ns[..j];
  }

  lemma BlocksPrefix(es: Ledger, i: nat)
    requires i < |es|
    ensures Blocks(es[..i + 1]) == Blocks(es[..i]) + Block(es[i])
  {
    var p := es[..i + 1];
    assert p[..|p| - 1] == es[..i];
    assert p[|p| - 1] == es[i];
  }

  // ------------------------------------------------------------ properties

  /** Block by block, the export has two lines per task and one per note. */
  function LineCount(es: Ledger): nat
  {
    if es == [] then 0 else LineCount(es[..|es| - 1]) + 2 + |Normalize(es[|es| - 1].1).notes|
  }

  lemma {:induction false} BlocksLength(es: Ledger)
    ensures |Blocks(es)| == LineCount(es)
  {
    if es != [] {
      BlocksLength(es[..|es| - 1]);
    }
  }

  /** The `k`-th task in list order has its line at the start of its block. */
  lemma {:induction false} BlocksTaskLine(es: Ledger, k: nat)
    requires k < |es|
    ensures var at := LineCount(es[..k]);
      at < |Blocks(es)| && Blocks(es)[at] == TaskLine(es[k])
  {
    var init := es[..|es| - 1];
    if k < |es| - 1 {
      BlocksTaskLine(init, k);
      assert init[..k] == es[..k];
      BlocksKeepInit(es, LineCount(es[..k]));
    } else {
      assert es[..k] == init;
      BlocksLastLine(es);
    }
  }

  /** Appending a block leaves the lines before it as they were. */
  lemma BlocksKeepInit(es: Ledger, i: nat)
    requires es != [] && i < |Blocks(es[..|es| - 1])|
    ensures i < |Blocks(es)| && Blocks(es)[i] == Blocks(es[..|es| - 1])[i]
  {
    IndexLeft(Blocks(es[..|es| - 1]), Block(es[|es| - 1]), i);
  }

  /** The last block starts with the last task's line. */
  lemma BlocksLastLine(es: Ledger)
    requires es != []
    ensures var init := es[..|es| - 1];
      LineCount(init) < |Blocks(es)| && Blocks(es)[LineCount(init)] == TaskLine(es[|es| - 1])
  {
    var init := es[..|es| - 1];
    BlocksLength(init);
    IndexRight(Blocks(init), Block(es[|es| - 1]));
  }

  lemma IndexLeft(a: seq<string>, b: seq<string>, i: nat)
    requires i < |a|
    ensures (a + b)[i] == a[i]
  {
  }

  lemma IndexRight(a: seq<string>, b: seq<string>)
    requires b != []
    ensures (a + b)[|a|] == b[0]
  {
  }

  /** An empty day exports the title, a blank line and the no-tasks line. */
  lemma ExportEmpty(date: string)
    ensures ExportLines(date, []) == ["# Tasks for " + date, "", NoTasksLine]
  {
  }

  /** Every task of the day has its line in the export. */
  lemma ExportListsEveryTask(date: string, tasks: Ledger, x: (string, Raw))
    requires x in tasks
    ensures TaskLine(x) in ExportLines(date, tasks)
  {
    SortKeepsTasks(tasks, x);
    var es := SortByTime(tasks);
    var k :| 0 <= k < |es| && es[k] == x;
    BlocksTaskLine(es, k);
    ExportBody(date, tasks);
    IndexShift(Header(date), Blocks(es), LineCount(es[..k]));
  }

  /** A day with tasks exports the title lines, then the blocks of its tasks in list order. */
  lemma ExportBody(date: string, tasks: Ledger)
    requires tasks != []
    ensures ExportLines(date, tasks) == Header(date) + Blocks(SortByTime(tasks))
  {
  }

  lemma IndexShift(a: seq<string>, b: seq<string>, i: nat)
    requires i < |b|
    ensures (a + b)[|a| + i] == b[i] && b[i] in a + b
  {
  }

  /** A non-empty day exports the title, a blank line and two lines per task plus one per note. */
  lemma ExportLength(date: string, tasks: Ledger)
    requires tasks != []
    ensures |ExportLines(date, tasks)| == 2 + LineCount(SortByTime(tasks))
  {
    BlocksLength(SortByTime(tasks));
  }

  /** A note with neither a time of day nor a duration is exported as its text alone. */
  lemma NoteLineBare(n: Note)
    requires n.timestamp == "" && n.duration.GetOr("") == ""
    ensures NoteLine(n) == "  - " + n.text
  {
    assert NonEmpty([n.timestamp, n.duration.GetOr("")]) == [] by {
      assert [n.timestamp, n.duration.GetOr("")][1..] == [n.duration.GetOr("")];
    }
  }

  /**
   * A note with a time of day and a duration, neither with white space at its
   * edges, is exported as `  - (time duration) text`.
   */
  lemma NoteLineFull(n: Note, ts: string, dur: string)
    requires n.timestamp == ts && n.duration == Some(dur)
    requires ts != "" && !IsSpace(ts[0]) && !IsSpace(ts[|ts| - 1]) && dur != "" && !IsSpace(dur[|dur| - 1])
    ensures NoteLine(n) == "  - (" + ts + " " + dur + ") " + n.text
  {
    var pieces := [ts, dur];
    assert pieces[1..] == [dur] && pieces[1..][1..] == [];
    assert NonEmpty(pieces) == [ts, dur];
    var meta := ts + " " + dur;
    assert Join([ts, dur], " ") == meta by {
      assert [ts, dur][1..] == [dur];
    }
    assert meta[0] == ts[0] && meta[|meta| - 1] == dur[|dur| - 1];
    TrimNoSpace(meta);
  }
}
