/** The timetable rows of `retrieve_talks_in_timetable` in `pyconjp_domains/__main__.py`:
    nineteen attributes of each talk in timetable order, then five cells of each row rewritten
    in place for the CSV file. */
module Timetable {
  import opened Wrappers
  import opened Strings
  import opened Sequences
  import opened Timestamps
  import opened Talks
  import opened TalkCollections

  /** The attributes read from every talk, in column order. The list is written in three
      parts so that a position in it is quick to reach in a proof; it is the same list. */
  const Fields: seq<string> := IdentityAndSlotFields + CategoryAndAnswerFields + DetailAndSpeakerFields

  const IdentityAndSlotFields: seq<string> := ["id", "title", "room", "day", "start_time", "slot_number"]
  const CategoryAndAnswerFields: seq<string> :=
    ["elevator_pitch", "prior_knowledge", "take_away", "level", "track", "speaking_language", "slide_language"]
  const DetailAndSpeakerFields: seq<string> :=
    ["description", "duration_min", "slide_url", "recording_url", "speaker_names", "speaker_profiles"]

  /** The header line of the CSV file, in the same three parts. */
  const Headers: seq<string> := IdentityAndSlotHeaders + CategoryAndAnswerHeaders + DetailAndSpeakerHeaders

  const IdentityAndSlotHeaders: seq<string> := ["id", "title", "room", "day", "start_time", "no"]
  const CategoryAndAnswerHeaders: seq<string> := [
    "elevator_pitch", "prerequisite_knowledge", "audience_takeaway", "audience_python_level", "track",
    "lang_of_talk", "lang_of_slide"]
  const DetailAndSpeakerHeaders: seq<string> :=
    ["description", "duration_min", "slide_url", "recording_url", "name", "profile"]

  /** The column name the CSV file uses for an attribute. */
  function HeaderFor(field: string): string {
    if field == "slot_number" then "no"
    else if field == "prior_knowledge" then "prerequisite_knowledge"
    else if field == "take_away" then "audience_takeaway"
    else if field == "level" then "audience_python_level"
    else if field == "speaking_language" then "lang_of_talk"
    else if field == "slide_language" then "lang_of_slide"
    else if field == "speaker_names" then "name"
    else if field == "speaker_profiles" then "profile"
    else field
  }

  /** There are as many headers as fields, nineteen, and each header names the field in its
      position. */
  lemma HeadersFollowFields()
    ensures |Headers| == |Fields| == 19
    ensures forall i :: 0 <= i < |Fields| ==> Headers[i] == HeaderFor(Fields[i])
  {
    PartHeaders(IdentityAndSlotFields, IdentityAndSlotHeaders);
    PartHeaders(CategoryAndAnswerFields, CategoryAndAnswerHeaders);
    PartHeaders(DetailAndSpeakerFields, DetailAndSpeakerHeaders);
    assert Fields == IdentityAndSlotFields + CategoryAndAnswerFields + DetailAndSpeakerFields;
  }

  /** The header of each field in one part of the lists. */
  lemma PartHeaders(fields: seq<string>, headers: seq<string>)
    requires
      || (fields == IdentityAndSlotFields && headers == IdentityAndSlotHeaders)
      || (fields == CategoryAndAnswerFields && headers == CategoryAndAnswerHeaders)
      || (fields == DetailAndSpeakerFields && headers == DetailAndSpeakerHeaders)
    ensures |headers| == |fields|
    ensures forall i :: 0 <= i < |fields| ==> headers[i] == HeaderFor(fields[i])
  {
  }

  /** Every field is an attribute of a scheduled talk. */
  lemma FieldsAreAttributes()
    ensures forall i :: 0 <= i < |Fields| ==> Fields[i] in ScheduledAttributeNames
  {
  }

  // ---------------------------------------------------------------------------------------
  // `rows = [talk.as_list(fields) for talk in talks.sorted()]`.

  function AttributeOf(t: ScheduledTalk): string -> Result<Value> {
    name => ScheduledAttribute(t, name)
  }

  /** `talk.as_list(fields)`. */
  function RowOf(t: ScheduledTalk): Result<seq<Value>> {
    AsList(AttributeOf(t), Fields)
  }

  /** A talk's row has one cell per field, the attribute that field names. */
  lemma RowOfTalk(t: ScheduledTalk)
    ensures RowOf(t).Ok? && |RowOf(t).value| == |Fields|
    ensures forall i :: 0 <= i < |Fields| ==> RowOf(t).value[i] == ScheduledAttribute(t, Fields[i]).value
  {
    FieldsAreAttributes();
    forall i | 0 <= i < |Fields| ensures AttributeOf(t)(Fields[i]).Ok? {
      ScheduledAttributeNamesKnown(t, Fields[i]);
    }
  }

  /** The cell in position `i` of a talk's row. */
  lemma CellOfTalk(t: ScheduledTalk, i: int)
    requires 0 <= i < |Fields|
    ensures RowOf(t).Ok? && |RowOf(t).value| == |Fields|
    ensures RowOf(t).value[i] == ScheduledAttribute(t, Fields[i]).value
  {
    RowOfTalk(t);
  }

  /** The third to fifth cells hold the talk's date, start time and number. */
  lemma RewrittenCellsOfTalk(t: ScheduledTalk)
    ensures RowOf(t).Ok? && |RowOf(t).value| == |Fields|
    ensures RowOf(t).value[3] == DateValue(t.slot.day) && RowOf(t).value[4] == TimeValue(t.slot.start)
    ensures RowOf(t).value[5] == IntValue(t.slot.number)
  {
    DayCellOfTalk(t);
    StartCellOfTalk(t);
    NumberCellOfTalk(t);
  }

  lemma DayCellOfTalk(t: ScheduledTalk)
    ensures RowOf(t).Ok? && |RowOf(t).value| == |Fields| && RowOf(t).value[3] == DateValue(t.slot.day)
  {
    CellOfTalk(t, 3);
    assert Fields[3] == "day";
  }

  lemma StartCellOfTalk(t: ScheduledTalk)
    ensures RowOf(t).Ok? && |RowOf(t).value| == |Fields| && RowOf(t).value[4] == TimeValue(t.slot.start)
  {
    CellOfTalk(t, 4);
    assert Fields[4] == "start_time";
  }

  lemma NumberCellOfTalk(t: ScheduledTalk)
    ensures RowOf(t).Ok? && |RowOf(t).value| == |Fields| && RowOf(t).value[5] == IntValue(t.slot.number)
  {
    CellOfTalk(t, 5);
    assert Fields[5] == "slot_number";
  }

  /** The last two cells hold the speakers' names and profiles. */
  lemma SpeakerCellsOfTalk(t: ScheduledTalk)
    ensures RowOf(t).Ok? && |RowOf(t).value| == |Fields|
    ensures RowOf(t).value[17] == TextList(t.talk.SpeakerNames())
    ensures RowOf(t).value[18] == OptionalTextList(t.talk.SpeakerProfiles())
  {
    CellOfTalk(t, 17);
    CellOfTalk(t, 18);
    assert Fields[17] == "speaker_names" && Fields[18] == "speaker_profiles";
  }

  /** The row of a talk whose slot is real is formattable. */
  lemma RowOfTalkFormattable(t: ScheduledTalk)
    requires RealSlot(t)
    ensures RowOf(t).Ok? && Formattable(RowOf(t).value)
  {
    RewrittenCellsOfTalk(t);
  }

  /** One row per talk, in the order of `talks.sorted()`. */
  function TimetableRows(talks: seq<ScheduledTalk>): Result<seq<seq<Value>>> {
    MapResult(SortedScheduledTalks(talks), RowOf)
  }

  lemma TimetableRowsOrder(talks: seq<ScheduledTalk>)
    ensures TimetableRows(talks).Ok?
    ensures |TimetableRows(talks).value| == |talks|
    ensures forall i :: 0 <= i < |talks| ==>
      TimetableRows(talks).value[i] == RowOf(SortedScheduledTalks(talks)[i]).value
  {
    var sorted := SortedScheduledTalks(talks);
    SortedScheduledTalksProperties(talks);
    forall i | 0 <= i < |sorted| ensures RowOf(sorted[i]).Ok? {
      RowOfTalk(sorted[i]);
    }
  }

  // ---------------------------------------------------------------------------------------
  // The rewriting of one row.

  /** A row of nineteen cells, one per field, whose date and time, when present, are real ones, as every
      `date` and `time` object is. */
  predicate Formattable(cells: seq<Value>) {
    && |cells| == 19
    && (cells[3].DateValue? ==> ValidDate(cells[3].d))
    && (cells[4].TimeValue? ==> ValidTime(cells[4].t))
  }

  /** The slot of a talk holds a real date and time. */
  predicate RealSlot(t: ScheduledTalk) {
    ValidDate(t.slot.day) && ValidTime(t.slot.start)
  }

  /** `row[3].strftime("%m/%d")`. */
  function FormatDayCell(v: Value): Result<Value>
    requires v.DateValue? ==> ValidDate(v.d)
  {
    if v.DateValue? then Ok(TextValue(FormatMonthDay(v.d))) else Err(AttributeError)
  }

  /** `row[4].strftime("%H:%M")`. */
  function FormatStartCell(v: Value): Result<Value>
    requires v.TimeValue? ==> ValidTime(v.t)
  {
    if v.TimeValue? then Ok(TextValue(FormatHourMinute(v.t))) else Err(AttributeError)
  }

  /** `None if row[5] == 0 else row[5]`. */
  function NumberCell(v: Value): Value {
    if v == IntValue(0) then NoneValue else v
  }

  /** `", ".join(row[-2])`. */
  function JoinNamesCell(v: Value): Result<Value> {
    if v.TextList? then Ok(TextValue(Join(v.texts, ", "))) else Err(TypeError)
  }

  predicate AllPresent(ps: seq<Option<string>>) {
    forall i :: 0 <= i < |ps| ==> ps[i].Some?
  }

  function Present(ps: seq<Option<string>>): (texts: seq<string>)
    requires AllPresent(ps)
    ensures |texts| == |ps| && forall i :: 0 <= i < |ps| ==> texts[i] == ps[i].value
  {
    seq(|ps|, i requires 0 <= i < |ps| && AllPresent(ps) => ps[i].value)
  }

  /** `"\n\n".join(row[-1])`: a `None` among the profiles is a `TypeError`. */
  function JoinProfilesCell(v: Value): Result<Value> {
    if v.OptionalTextList? && AllPresent(v.optionalTexts) then Ok(TextValue(Join(Present(v.optionalTexts), "\n\n")))
    else if v.TextList? then Ok(TextValue(Join(v.texts, "\n\n")))
    else Err(TypeError)
  }

  /** The five assignments of the loop body, in order; the first that raises stops the row
      with the earlier cells already rewritten. */
  function FormatRowSpec(cells: seq<Value>): (r: (Outcome, seq<Value>))
    requires Formattable(cells)
    ensures |r.1| == |cells|
  {
    var day := FormatDayCell(cells[3]);
    if day.Err? then (Fail(day.error), cells)
    else
      var c1 := cells[3 := day.value];
      var start := FormatStartCell(c1[4]);
      if start.Err? then (Fail(start.error), c1)
      else
        var c2 := c1[4 := start.value];
        var c3 := c2[5 := NumberCell(c2[5])];
        var names := JoinNamesCell(c3[17]);
        if names.Err? then (Fail(names.error), c3)
        else
          var c4 := c3[17 := names.value];
          var profiles := JoinProfilesCell(c4[18]);
          if profiles.Err? then (Fail(profiles.error), c4)
          else (Pass, c4[18 := profiles.value])
  }

  /** The loop body on one row, in place. */
  method FormatRow(row: array<Value>) returns (outcome: Outcome)
    requires Formattable(row[..])
    modifies row
    ensures (outcome, row[..]) == FormatRowSpec(old(row[..]))
  {
    var day := FormatDayCell(row[3]);
    if day.Err? {
      return Fail(day.error);
    }
    row[3] := day.value;
    var start := FormatStartCell(row[4]);
    if start.Err? {
      return Fail(start.error);
    }
    row[4] := start.value;
    row[5] := NumberCell(row[5]);
    var names := JoinNamesCell(row[row.Length - 2]);
    if names.Err? {
      return Fail(names.error);
    }
    row[row.Length - 2] := names.value;
    var profiles := JoinProfilesCell(row[row.Length - 1]);
    if profiles.Err? {
      return Fail(profiles.error);
    }
    row[row.Length - 1] := profiles.value;
    return Pass;
  }

  /** Only the cells 3, 4, 5, -2 and -1 change. */
  lemma FormatRowKeepsOtherCells(cells: seq<Value>)
    requires Formattable(cells)
    ensures forall j :: 0 <= j < |cells| && j !in {3, 4, 5, 17, 18} ==> FormatRowSpec(cells).1[j] == cells[j]
  {
  }

  /** A row holding a date, a time, a list of names and a list of optional profiles: the
      rewriting raises exactly when a profile is missing; otherwise the day becomes "MM/DD",
      the start "HH:MM", a number 0 becomes `None`, the names are joined by ", " and the
      profiles by blank lines, in order. */
  lemma FormatRowCells(cells: seq<Value>)
    requires Formattable(cells)
    requires cells[3].DateValue? && cells[4].TimeValue? && cells[17].TextList? && cells[18].OptionalTextList?
    ensures FormatRowSpec(cells).0 == Pass <==> AllPresent(cells[18].optionalTexts)
    ensures FormatRowSpec(cells).0 != Pass ==> FormatRowSpec(cells).0 == Fail(TypeError)
    ensures AllPresent(cells[18].optionalTexts) ==>
      var r := FormatRowSpec(cells).1;
      && r[3] == TextValue(FormatMonthDay(cells[3].d))
      && r[4] == TextValue(FormatHourMinute(cells[4].t))
      && r[5] == (if cells[5] == IntValue(0) then NoneValue else cells[5])
      && r[17] == TextValue(Join(cells[17].texts, ", "))
      && r[18] == TextValue(Join(Present(cells[18].optionalTexts), "\n\n"))
  {
  }

  /** The rewriting of a talk's row raises, with a `TypeError`, exactly when a speaker has no
      profile. */
  lemma FormatRowOfTalk(t: ScheduledTalk)
    requires RealSlot(t)
    ensures RowOf(t).Ok? && Formattable(RowOf(t).value)
    ensures FormatRowSpec(RowOf(t).value).0 == Pass <==> AllPresent(t.talk.SpeakerProfiles())
    ensures FormatRowSpec(RowOf(t).value).0 != Pass ==> FormatRowSpec(RowOf(t).value).0 == Fail(TypeError)
  {
    RewrittenCellsOfTalk(t);
    SpeakerCellsOfTalk(t);
    RowOfTalkFormattable(t);
    FormatRowCells(RowOf(t).value);
  }

  /** Once rewritten, a talk's row holds its day as "MM/DD", its start as "HH:MM", its number
      or `None` for 0, the speakers' names and profiles joined, and every other attribute as
      it was. */
  lemma FormattedRowOfTalk(t: ScheduledTalk)
    requires RealSlot(t) && AllPresent(t.talk.SpeakerProfiles())
    ensures RowOf(t).Ok? && Formattable(RowOf(t).value)
    ensures var r := FormatRowSpec(RowOf(t).value).1;
      && r[3] == TextValue(FormatMonthDay(t.slot.day))
      && r[4] == TextValue(FormatHourMinute(t.slot.start))
      && r[5] == (if t.slot.number == 0 then NoneValue else IntValue(t.slot.number))
      && r[17] == TextValue(Join(t.talk.SpeakerNames(), ", "))
      && r[18] == TextValue(Join(Present(t.talk.SpeakerProfiles()), "\n\n"))
    ensures forall j :: 0 <= j < |Fields| && j !in {3, 4, 5, 17, 18} ==>
      FormatRowSpec(RowOf(t).value).1[j] == ScheduledAttribute(t, Fields[j]).value
  {
    RewrittenCellsOfTalk(t);
    SpeakerCellsOfTalk(t);
    RowOfTalkFormattable(t);
    RowOfTalk(t);
    var cells := RowOf(t).value;
    FormatRowCells(cells);
    FormatRowKeepsOtherCells(cells);
  }

  // ---------------------------------------------------------------------------------------
  // The loop over all rows.

  /** What the loop body does to each row taken on its own. */
  function RowResults(table: seq<seq<Value>>): (r: seq<(Outcome, seq<Value>)>)
    requires forall i :: 0 <= i < |table| ==> Formattable(table[i])
    ensures |r| == |table| && forall i :: 0 <= i < |table| ==> r[i] == FormatRowSpec(table[i])
  {
    seq(|table|, i requires 0 <= i < |table| && forall i :: 0 <= i < |table| ==> Formattable(table[i]) =>
      FormatRowSpec(table[i]))
  }

  /** Some row before `k` raises. */
  predicate FailsBefore(results: seq<(Outcome, seq<Value>)>, k: int) {
    exists i :: 0 <= i < k && i < |results| && results[i].0.Fail?
  }

  /** The outcome of the loop: that of the first row that raises, if any. */
  function TableOutcome(results: seq<(Outcome, seq<Value>)>): (o: Outcome)
    ensures o.Fail? <==> FailsBefore(results, |results|)
    ensures o.Fail? ==> exists i :: 0 <= i < |results| && results[i].0 == o && !FailsBefore(results, i)
    decreases |results|
  {
    if |results| == 0 then Pass
    else if results[0].0.Fail? then results[0].0
    else
      var rest := TableOutcome(results[1..]);
      assert forall i :: 0 < i <= |results| ==> (FailsBefore(results[1..], i - 1) <==> FailsBefore(results, i));
      rest
  }

  /** The rows after the loop: rewritten up to and including the first that raises, and
      untouched after it. */
  function FormattedTable(table: seq<seq<Value>>, results: seq<(Outcome, seq<Value>)>): (r: seq<seq<Value>>)
    requires |results| == |table|
    ensures |r| == |table|
  {
    seq(|table|, i requires 0 <= i < |table| == |results| =>
      if FailsBefore(results, i) then table[i] else results[i].1)
  }

  /** The loop raises exactly when some row raises, with that row's exception; otherwise
      every row is rewritten. */
  lemma TableSpecOutcome(table: seq<seq<Value>>)
    requires forall i :: 0 <= i < |table| ==> Formattable(table[i])
    ensures TableSpec(table).Ok? <==> forall i :: 0 <= i < |table| ==> FormatRowSpec(table[i]).0 == Pass
    ensures TableSpec(table).Err? ==>
      exists i :: 0 <= i < |table| && FormatRowSpec(table[i]).0 == Fail(TableSpec(table).error)
    ensures TableSpec(table).Ok? ==>
      && |TableSpec(table).value| == |table|
      && forall i :: 0 <= i < |table| ==> TableSpec(table).value[i] == FormatRowSpec(table[i]).1
  {
    var results := RowResults(table);
    if TableOutcome(results).Pass? {
      assert forall i :: 0 <= i < |table| ==> !FailsBefore(results, i);
      assert forall i :: 0 <= i < |table| ==> FormattedTable(table, results)[i] == results[i].1;
    } else {
      var i :| 0 <= i < |results| && results[i].0 == TableOutcome(results) && !FailsBefore(results, i);
      assert FormatRowSpec(table[i]).0.Fail?;
    }
  }

  /** `for row in rows: ...` over rows that are distinct lists; `table` is what they hold. */
  method FormatRows(rows: seq<array<Value>>, ghost table: seq<seq<Value>>) returns (outcome: Outcome)
    requires |rows| == |table|
    requires forall i :: 0 <= i < |rows| ==> rows[i][..] == table[i] && Formattable(table[i])
    requires forall i, j :: 0 <= i < j < |rows| ==> rows[i] != rows[j]
    modifies set i | 0 <= i < |rows| :: rows[i]
    ensures outcome == TableOutcome(RowResults(table))
    ensures forall i :: 0 <= i < |rows| ==> rows[i][..] == FormattedTable(table, RowResults(table))[i]
  {
    ghost var results := RowResults(table);
    for k := 0 to |rows|
      invariant !FailsBefore(results, k)
      invariant forall i :: 0 <= i < k ==> rows[i][..] == results[i].1
      invariant forall i :: k <= i < |rows| ==> rows[i][..] == table[i]
    {
      outcome := FormatRowAt(rows, k);
      if outcome.Fail? {
        FirstFailure(results, k);
        FormattedTableSplit(table, results, k);
        return;
      }
    }
    FormattedTableSplit(table, results, |rows|);
    return Pass;
  }

  /** The loop body on the `k`-th of distinct rows: the other rows are left as they are. */
  method FormatRowAt(rows: seq<array<Value>>, k: int) returns (outcome: Outcome)
    requires 0 <= k < |rows| && Formattable(rows[k][..])
    requires forall i, j :: 0 <= i < j < |rows| ==> rows[i] != rows[j]
    modifies rows[k]
    ensures (outcome, rows[k][..]) == FormatRowSpec(old(rows[k][..]))
    ensures forall i :: 0 <= i < |rows| && i != k ==> rows[i][..] == old(rows[i][..])
  {
    outcome := FormatRow(rows[k]);
  }

  /** The outcome of the loop is that of the first row that raises. */
  lemma {:induction false} FirstFailure(results: seq<(Outcome, seq<Value>)>, k: int)
    requires 0 <= k < |results| && !FailsBefore(results, k) && results[k].0.Fail?
    ensures TableOutcome(results) == results[k].0
    decreases k
  {
    if k > 0 {
      assert !results[0].0.Fail?;
      forall j | 0 <= j < k - 1 ensures !results[1..][j].0.Fail? {
        assert results[1..][j] == results[j + 1];
      }
      FirstFailure(results[1..], k - 1);
    }
  }

  /** Up to the first row that raises, the rows after the loop are rewritten; after it they
      are as they were. */
  lemma FormattedTableSplit(table: seq<seq<Value>>, results: seq<(Outcome, seq<Value>)>, k: int)
    requires |results| == |table| && 0 <= k <= |table| && !FailsBefore(results, k)
    requires k < |table| ==> results[k].0.Fail?
    ensures forall i :: 0 <= i <= k && i < |table| ==> FormattedTable(table, results)[i] == results[i].1
    ensures forall i :: k < i < |table| ==> FormattedTable(table, results)[i] == table[i]
  {
    forall i | 0 <= i <= k && i < |table| ensures !FailsBefore(results, i) {
      forall j | 0 <= j < i && j < |results| ensures !results[j].0.Fail? {
        assert j < k;
      }
    }
    forall i | k < i < |table| ensures FailsBefore(results, i) {
      assert results[k].0.Fail?;
    }
  }

  // ---------------------------------------------------------------------------------------
  // Lines 13 to 63 of `retrieve_talks_in_timetable`.

  /** Every talk's slot holds a real date and time. */
  predicate RealSlots(talks: seq<ScheduledTalk>) {
    forall i :: 0 <= i < |talks| ==> RealSlot(talks[i])
  }

  /** Sorting keeps every talk, so every slot stays real. */
  lemma SortedRealSlots(talks: seq<ScheduledTalk>)
    requires RealSlots(talks)
    ensures |SortedScheduledTalks(talks)| == |talks| && RealSlots(SortedScheduledTalks(talks))
  {
    var sorted := SortedScheduledTalks(talks);
    SortedScheduledTalksProperties(talks);
    assert |sorted| == |multiset(sorted)|;
    forall i | 0 <= i < |sorted| ensures RealSlot(sorted[i]) {
      assert sorted[i] in multiset(talks);
    }
  }

  /** `as_list` succeeds on every talk, giving one formattable row per talk in timetable order. */
  lemma TimetableRowsFormattable(talks: seq<ScheduledTalk>)
    requires RealSlots(talks)
    ensures TimetableRows(talks).Ok? && |TimetableRows(talks).value| == |talks|
    ensures forall i :: 0 <= i < |talks| ==> Formattable(TimetableRows(talks).value[i])
  {
    var sorted := SortedScheduledTalks(talks);
    TimetableRowsOrder(talks);
    SortedRealSlots(talks);
    forall i | 0 <= i < |sorted| ensures Formattable(TimetableRows(talks).value[i]) {
      RowOfTalkFormattable(sorted[i]);
    }
  }

  /** The rows after the loop, or the exception it raised. */
  function TableSpec(table: seq<seq<Value>>): Result<seq<seq<Value>>>
    requires forall i :: 0 <= i < |table| ==> Formattable(table[i])
  {
    var results := RowResults(table);
    if TableOutcome(results).Fail? then Err(TableOutcome(results).error) else Ok(FormattedTable(table, results))
  }

  /** The rows handed to the CSV writer, or the exception the rewriting raised. */
  function TimetableSpec(talks: seq<ScheduledTalk>): Result<seq<seq<Value>>>
    requires RealSlots(talks)
  {
    TimetableRowsFormattable(talks);
    TableSpec(TimetableRows(talks).value)
  }

  /** Each row as a list of its own. */
  method NewRows(cells: seq<seq<Value>>) returns (rows: seq<array<Value>>)
    requires forall i :: 0 <= i < |cells| ==> |cells[i]| == |Fields|
    ensures |rows| == |cells|
    ensures forall i :: 0 <= i < |rows| ==> fresh(rows[i]) && rows[i][..] == cells[i]
    ensures forall i, j :: 0 <= i < j < |rows| ==> rows[i] != rows[j]
  {
    rows := [];
    for k := 0 to |cells|
      invariant |rows| == k
      invariant forall i :: 0 <= i < k ==> fresh(rows[i]) && rows[i][..] == cells[i]
      invariant forall i, j :: 0 <= i < j < k ==> rows[i] != rows[j]
    {
      var row := new Value[|Fields|](j requires 0 <= j < |Fields| => cells[k][j]);
      assert row[..] == cells[k];
      rows := rows + [row];
    }
  }

  /** What the lists hold. */
  method Contents(rows: seq<array<Value>>) returns (table: seq<seq<Value>>)
    ensures |table| == |rows| && forall i :: 0 <= i < |rows| ==> table[i] == rows[i][..]
  {
    table := [];
    for k := 0 to |rows|
      invariant |table| == k && forall i :: 0 <= i < k ==> table[i] == rows[i][..]
    {
      table := table + [rows[k][..]];
    }
  }

  /** Copy each row into its own list and rewrite the lists. */
  method FormatTable(cells: seq<seq<Value>>) returns (r: Result<seq<seq<Value>>>)
    requires forall i :: 0 <= i < |cells| ==> Formattable(cells[i])
    ensures r == TableSpec(cells)
  {
    var rows := NewRows(cells);
    var outcome := FormatRows(rows, cells);
    if outcome.Fail? {
      return Err(outcome.error);
    }
    var formatted := Contents(rows);
    assert formatted == FormattedTable(cells, RowResults(cells));
    return Ok(formatted);
  }

  /** Lines 13 to 63: the rows of the sorted talks, rewritten. */
  method RetrieveTimetableRows(talks: seq<ScheduledTalk>) returns (r: Result<seq<seq<Value>>>)
    requires RealSlots(talks)
    ensures r == TimetableSpec(talks)
  {
    TimetableRowsFormattable(talks);
    r := FormatTable(TimetableRows(talks).value);
  }

  /** The timetable raises exactly when some speaker has no profile, and then with a
      `TypeError`. */
  lemma TimetableOfTalks(talks: seq<ScheduledTalk>)
    requires RealSlots(talks)
    ensures var sorted := SortedScheduledTalks(talks);
      TimetableSpec(talks).Ok? <==> forall i :: 0 <= i < |sorted| ==> AllPresent(sorted[i].talk.SpeakerProfiles())
    ensures TimetableSpec(talks).Err? ==> TimetableSpec(talks).error == TypeError
  {
    RowOutcomesOfTalks(talks);
    TableSpecTypeErrors(TimetableRows(talks).value);
  }

  /** When every row that raises raises a `TypeError`, so does the loop, and it raises
      exactly when some row does. */
  lemma TableSpecTypeErrors(table: seq<seq<Value>>)
    requires forall i :: 0 <= i < |table| ==> Formattable(table[i])
    requires forall i :: 0 <= i < |table| ==> FormatRowSpec(table[i]).0 != Pass ==> FormatRowSpec(table[i]).0 == Fail(TypeError)
    ensures TableSpec(table).Ok? <==> forall i :: 0 <= i < |table| ==> FormatRowSpec(table[i]).0 == Pass
    ensures TableSpec(table).Err? ==> TableSpec(table).error == TypeError
  {
    TableSpecOutcome(table);
  }

  /** The row of the `i`-th talk in timetable order raises exactly when one of its speakers
      has no profile, and then with a `TypeError`. */
  lemma RowOutcomesOfTalks(talks: seq<ScheduledTalk>)
    requires RealSlots(talks)
    ensures TimetableRows(talks).Ok? && |TimetableRows(talks).value| == |SortedScheduledTalks(talks)|
    ensures forall i :: 0 <= i < |talks| ==> Formattable(TimetableRows(talks).value[i])
    ensures var rows, sorted := TimetableRows(talks).value, SortedScheduledTalks(talks);
      forall i :: 0 <= i < |rows| ==>
        && (FormatRowSpec(rows[i]).0 == Pass <==> AllPresent(sorted[i].talk.SpeakerProfiles()))
        && (FormatRowSpec(rows[i]).0 != Pass ==> FormatRowSpec(rows[i]).0 == Fail(TypeError))
  {
    var sorted := SortedScheduledTalks(talks);
    TimetableRowsOrder(talks);
    TimetableRowsFormattable(talks);
    SortedRealSlots(talks);
    var rows := TimetableRows(talks).value;
    forall i | 0 <= i < |rows|
      ensures FormatRowSpec(rows[i]).0 == Pass <==> AllPresent(sorted[i].talk.SpeakerProfiles())
      ensures FormatRowSpec(rows[i]).0 != Pass ==> FormatRowSpec(rows[i]).0 == Fail(TypeError)
    {
      FormatRowOfTalk(sorted[i]);
      assert rows[i] == RowOf(sorted[i]).value;
    }
  }

  /** A timetable that does not raise has one rewritten row per talk, in timetable order. */
  lemma TimetableRowsOfTalks(talks: seq<ScheduledTalk>)
    requires RealSlots(talks)
    ensures TimetableRows(talks).Ok? && |TimetableRows(talks).value| == |talks|
    ensures forall i :: 0 <= i < |talks| ==> Formattable(TimetableRows(talks).value[i])
    ensures TimetableSpec(talks).Ok? ==>
      && |TimetableSpec(talks).value| == |talks|
      && forall i :: 0 <= i < |talks| ==>
        TimetableSpec(talks).value[i] == FormatRowSpec(TimetableRows(talks).value[i]).1
  {
    TimetableRowsFormattable(talks);
    TableSpecOutcome(TimetableRows(talks).value);
  }
}
