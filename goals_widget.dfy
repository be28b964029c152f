/**
 * The goals home-screen widget's side of the stored data: the row it
 * renders, the parser of the pipe-delimited lines the app writes, and the
 * completed-count header.
 */
module GoalsWidget {
  import opened Wrappers
  import opened Seqs
  import opened Text

  /** `GoalWidgetRow`: what one rendered goal row needs. */
  datatype GoalWidgetRow = GoalWidgetRow(
    id: int,
    name: string,
    isBinary: bool,
    targetValue: int,
    currentValue: int,
    isCompleted: bool)

  /** One line, `id|name|isBinary|targetValue|currentValue|isCompleted`; None where the widget drops it. */
  function ParseGoalLine(line: string): (r: Option<GoalWidgetRow>)
    ensures var parts := Split(line, '|');
      && (|parts| < 6 ==> r.None?)
      && (|parts| >= 6 && ParseLong(parts[0]).None? ==> r.None?)
      && (|parts| >= 6 && (ParseBool(parts[2]).None? || ParseBool(parts[5]).None?) ==> r.None?)
      && (|parts| >= 6 && (ParseNumber(parts[3]).None? || ParseNumber(parts[4]).None?) ==> r.None?)
      && (r.Some? ==> |parts| >= 6 && IsLong(r.value.id) && r.value.name == parts[1])
    ensures var parts := Split(line, '|');
      |parts| >= 6 && ParseLong(parts[0]).Some? && ParseBool(parts[2]).Some? && ParseNumber(parts[3]).Some?
        && ParseNumber(parts[4]).Some? && ParseBool(parts[5]).Some? ==>
      r == Some(GoalWidgetRow(ParseLong(parts[0]).value, parts[1], ParseBool(parts[2]).value,
        ParseNumber(parts[3]).value, ParseNumber(parts[4]).value, ParseBool(parts[5]).value))
  {
    var parts := Split(line, '|');
    if |parts| < 6 then None
    else
      var id := ParseLong(parts[0]);
      var isBinary := ParseBool(parts[2]);
      var targetValue := ParseNumber(parts[3]);
      var currentValue := ParseNumber(parts[4]);
      var isCompleted := ParseBool(parts[5]);
      if id.None? || isBinary.None? || targetValue.None? || currentValue.None? || isCompleted.None? then None
      else Some(GoalWidgetRow(id.value, parts[1], isBinary.value, targetValue.value, currentValue.value, isCompleted.value))
  }

  /** `parseGoalRows`: nothing stored or a blank text gives no rows; otherwise each line that parses, in order. */
  function ParseGoalRows(raw: Option<string>): (r: seq<GoalWidgetRow>)
    ensures raw.None? ==> r == []
    ensures raw.Some? && IsBlank(raw.value) ==> r == []
    ensures raw.Some? ==> |r| <= |Lines(raw.value)|
  {
    if raw.None? || IsBlank(raw.value) then [] else MapNotNull(Lines(raw.value), ParseGoalLine)
  }

  /** Fields after the sixth do not change how a line parses. */
  lemma ExtraFieldsIgnored(line: string, extra: string)
    requires |Split(line, '|')| >= 6
    ensures ParseGoalLine(line + "|" + extra) == ParseGoalLine(line)
  {
    SplitConcat(line, extra, '|');
    assert line + "|" + extra == line + ['|'] + extra;
    var parts := Split(line + "|" + extra, '|');
    assert forall i :: 0 <= i < 6 ==> parts[i] == Split(line, '|')[i];
  }

  /** The first line's row, if it parses, comes before the rows of the lines after it. */
  lemma ParseKeepsLineOrder(first: string, rest: string)
    requires NoLineBreak(first)
    requires !IsBlank(first + "\n" + rest)
    ensures ParseGoalRows(Some(first + "\n" + rest)) ==
      (if ParseGoalLine(first).Some? then [ParseGoalLine(first).value] else []) + MapNotNull(Lines(rest), ParseGoalLine)
  {
    LinesConcat(first, rest);
    MapNotNullAppend([first], Lines(rest), ParseGoalLine);
  }

  predicate IsCompletedRow(row: GoalWidgetRow) {
    row.isCompleted
  }

  /** `goals.count { it.isCompleted }` in the header. */
  function CompletedCount(rows: seq<GoalWidgetRow>): (n: nat)
    ensures n <= |rows|
  {
    Count(rows, IsCompletedRow)
  }

  /** The header reads all goals done exactly when every row is completed. */
  lemma AllDoneHeader(rows: seq<GoalWidgetRow>)
    ensures CompletedCount(rows) == |rows| <==> forall i :: 0 <= i < |rows| ==> rows[i].isCompleted
  {
    FilterKeepsAll(rows, IsCompletedRow);
  }

  /** The counts are exact: each completed row adds one and each open row none. */
  lemma {:induction false} CompletedCountSnoc(rows: seq<GoalWidgetRow>, row: GoalWidgetRow)
    ensures CompletedCount(rows + [row]) == CompletedCount(rows) + (if row.isCompleted then 1 else 0)
  {
    FilterAppend(rows, [row], IsCompletedRow);
    FilterSingleton(row, IsCompletedRow);
  }

  /** `"$completedCount/${goals.size}"`: read back at the `/`, it gives the completed count and the row count. */
  function HeaderText(rows: seq<GoalWidgetRow>): (s: string)
    ensures var parts := Split(s, '/');
      && |parts| == 2 && AllDigits(parts[0]) && AllDigits(parts[1])
      && DigitsValue(parts[0]) == CompletedCount(rows) && DigitsValue(parts[1]) == |rows|
  {
    var done := NatText(CompletedCount(rows));
    var size := NatText(|rows|);
    SplitConcat(done, size, '/');
    SplitNoSep(done, '/');
    SplitNoSep(size, '/');
    done + "/" + size
  }

  /** Non-blank text made of lines without line breaks parses line by line. */
  lemma ParseJoinedLines(lines: seq<string>)
    requires |lines| >= 1 && forall i :: 0 <= i < |lines| ==> NoLineBreak(lines[i])
    requires !IsBlank(Join(lines, '\n'))
    ensures ParseGoalRows(Some(Join(lines, '\n'))) == MapNotNull(lines, ParseGoalLine)
  {
    LinesJoin(lines);
  }
}
