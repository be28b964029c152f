/**
 * The tasks home-screen widget's side of the stored data: the row it
 * renders and the parser of the pipe-delimited task lines.
 */
module TasksWidget {
  import opened Wrappers
  import opened Seqs
  import opened Text

  /** `TaskWidgetRow`: the due date is epoch milliseconds, or None for no due date. */
  datatype TaskWidgetRow = TaskWidgetRow(id: int, title: string, dueDate: Option<int>)

  /** One line, `id|title|dueDate`; None where the widget drops it. */
  function ParseTaskLine(line: string): (r: Option<TaskWidgetRow>)
    ensures var parts := Split(line, '|');
      && (|parts| < 3 ==> r.None?)
      && (|parts| >= 3 && ParseLong(parts[0]).None? ==> r.None?)
      && (|parts| >= 3 && ParseLong(parts[0]).Some? ==>
            r == Some(TaskWidgetRow(ParseLong(parts[0]).value, parts[1], ParseLong(parts[2]))))
  {
    var parts := Split(line, '|');
    if |parts| < 3 then None
    else
      var id := ParseLong(parts[0]);
      if id.None? then None
      else Some(TaskWidgetRow(id.value, parts[1], ParseLong(parts[2])))
  }

  /** `parseTaskRows`: nothing stored or a blank text gives no rows; otherwise each line that parses, in order. */
  function ParseTaskRows(raw: Option<string>): (r: seq<TaskWidgetRow>)
    ensures raw.None? ==> r == []
    ensures raw.Some? && IsBlank(raw.value) ==> r == []
    ensures raw.Some? ==> |r| <= |Lines(raw.value)|
  {
    if raw.None? || IsBlank(raw.value) then [] else MapNotNull(Lines(raw.value), ParseTaskLine)
  }

  /** An empty or non-numeric due date keeps the row, with no due date. */
  lemma UnparsableDueDateKept(id: string, title: string, due: string)
    requires ParseLong(id).Some?
    requires '|' !in id && '|' !in title && '|' !in due
    requires ParseLong(due).None?
    ensures ParseTaskLine(Join([id, title, due], '|')) == Some(TaskWidgetRow(ParseLong(id).value, title, None))
  {
    SplitJoin([id, title, due], '|');
  }

  /** The empty due-date field is the unparsable one the writer emits for a task without a due date. */
  lemma EmptyDueDateIsNone()
    ensures ParseLong("") == None
  {
  }

  /** The first line's row, if it parses, comes before the rows of the lines after it. */
  lemma ParseKeepsLineOrder(first: string, rest: string)
    requires NoLineBreak(first)
    requires !IsBlank(first + "\n" + rest)
    ensures ParseTaskRows(Some(first + "\n" + rest)) ==
      (if ParseTaskLine(first).Some? then [ParseTaskLine(first).value] else []) + MapNotNull(Lines(rest), ParseTaskLine)
  {
    LinesConcat(first, rest);
    MapNotNullAppend([first], Lines(rest), ParseTaskLine);
  }

  /** Non-blank text made of lines without line breaks parses line by line. */
  lemma ParseJoinedLines(lines: seq<string>)
    requires |lines| >= 1 && forall i :: 0 <= i < |lines| ==> NoLineBreak(lines[i])
    requires !IsBlank(Join(lines, '\n'))
    ensures ParseTaskRows(Some(Join(lines, '\n'))) == MapNotNull(lines, ParseTaskLine)
  {
    LinesJoin(lines);
  }
}
