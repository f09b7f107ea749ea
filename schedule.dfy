/** The schedule tab of app_main: the rows the data editor hands back are turned into entries
    (main.py:389-414), the sorted (date, time, event) tuples decide whether to save
    (main.py:416-427), and the AI helper gets one line per entry in (date, time) order
    (main.py:434-443). */
module Schedule {
  import opened Wrappers
  import opened Text
  import opened Clock
  import opened Records
  import opened Sorting
  import TimeParsing

  // ----- the editor's rows -----

  /** The date column of an edited row: a datetime.date, a string, or any other value (None for a
      row added in the editor and left empty). */
  datatype DateCell = CalendarDay(d: Date) | DateText(s: string) | NoDate

  /** The time column: a datetime.time, a string, or any other value. */
  datatype TimeCell = ClockTime(t: Time) | TimeText(s: string) | NoTime

  /** The event column: a string, or no value at all. */
  datatype EventCell = EventText(s: string) | NoEvent

  datatype EditorRow = EditorRow(date: DateCell, time: TimeCell, event: EventCell)

  /** date_str: "YYYY-MM-DD" for a date, the string itself for a string, "" for anything else. */
  function DateField(c: DateCell): string {
    match c
    case CalendarDay(d) => FormatDate(d)
    case DateText(s) => s
    case NoDate => ""
  }

  /** time_str: "HH:MM" for a time, the string itself for a string, "" for anything else. */
  function TimeField(c: TimeCell): string {
    match c
    case ClockTime(t) => FormatHourMinute(t)
    case TimeText(s) => s
    case NoTime => ""
  }

  /** `not event_val or str(event_val).strip() == ""`: the row is dropped. */
  predicate Skipped(e: EventCell) {
    e.NoEvent? || Blank(e.s)
  }

  /** The entry one row contributes, if any. */
  function ExtractRow(row: EditorRow): Option<ScheduleEntry> {
    if Skipped(row.event) then None
    else Some(ScheduleEntry(DateField(row.date), TimeField(row.time), row.event.s))
  }

  function Kept(row: EditorRow): seq<ScheduleEntry> {
    match ExtractRow(row)
    case None => []
    case Some(e) => [e]
  }

  /** new_schedules_from_editor for the rows in editor order. */
  function Extracted(rows: seq<EditorRow>): seq<ScheduleEntry> {
    if rows == [] then [] else Extracted(rows[..|rows| - 1]) + Kept(rows[|rows| - 1])
  }

  /** The extraction loop of main.py:389-414. */
  method ExtractEditorRows(rows: seq<EditorRow>) returns (entries: seq<ScheduleEntry>)
    ensures entries == Extracted(rows)
  {
    entries := [];
    var i := 0;
    while i < |rows|
      invariant 0 <= i <= |rows|
      invariant entries == Extracted(rows[..i])
    {
      var row := rows[i];
      assert rows[..i + 1][..i] == rows[..i];
      if !Skipped(row.event) {
        var dateStr := "";
        if row.date.CalendarDay? {
          dateStr := FormatDate(row.date.d);
        } else if row.date.DateText? {
          dateStr := row.date.s;
        }
        var timeStr := "";
        if row.time.ClockTime? {
          timeStr := FormatHourMinute(row.time.t);
        } else if row.time.TimeText? {
          timeStr := row.time.s;
        }
        entries := entries + [ScheduleEntry(dateStr, timeStr, row.event.s)];
      }
      i := i + 1;
    }
    assert rows[..i] == rows;
  }

  /** Dates are stored as "YYYY-MM-DD" whose numerals read back as the date, strings pass through,
      and any other value becomes "". */
  lemma DateFieldNormalised(c: DateCell)
    ensures c.CalendarDay? ==>
      var s := DateField(c);
      && |s| == 10 && s[4] == '-' && s[7] == '-'
      && AllDigits(s[..4]) && AllDigits(s[5..7]) && AllDigits(s[8..])
      && DigitsValue(s[..4]) == c.d.year && DigitsValue(s[5..7]) == c.d.month
      && DigitsValue(s[8..]) == c.d.day
    ensures c.DateText? ==> DateField(c) == c.s
    ensures c.NoDate? ==> DateField(c) == ""
  {
    if c.CalendarDay? {
      FormatDateReadsBack(c.d);
    }
  }

  /** Times are stored as zero-padded "HH:MM" whose numerals read back as hour and minute,
      strings pass through, and any other value becomes "". */
  lemma TimeFieldNormalised(c: TimeCell)
    ensures c.ClockTime? ==>
      var s := TimeField(c);
      && |s| == 5 && s[2] == ':' && AllDigits(s[..2]) && AllDigits(s[3..])
      && DigitsValue(s[..2]) == c.t.hour && DigitsValue(s[3..]) == c.t.minute
    ensures c.TimeText? ==> TimeField(c) == c.s
    ensures c.NoTime? ==> TimeField(c) == ""
  {
    if c.ClockTime? {
      FormatHourMinuteReadsBack(c.t);
    }
  }

  /** The extraction of a concatenation is the concatenation of the extractions: rows keep their
      order. */
  lemma {:induction false} ExtractedAppend(a: seq<EditorRow>, b: seq<EditorRow>)
    ensures Extracted(a + b) == Extracted(a) + Extracted(b)
  {
    if b == [] {
      assert a + b == a;
    } else {
      var b', last := b[..|b| - 1], b[|b| - 1];
      assert (a + b)[..|a + b| - 1] == a + b';
      assert (a + b)[|a + b| - 1] == last;
      ExtractedAppend(a, b');
    }
  }

  /** Every extracted entry has a non-blank event and comes from some row. */
  lemma {:induction false} ExtractedEntries(rows: seq<EditorRow>)
    ensures |Extracted(rows)| <= |rows|
    ensures forall i :: 0 <= i < |Extracted(rows)| ==> !Blank(Extracted(rows)[i].event)
    ensures forall i :: 0 <= i < |Extracted(rows)| ==>
              exists j :: 0 <= j < |rows| && ExtractRow(rows[j]) == Some(Extracted(rows)[i])
  {
    if rows != [] {
      var init, last := rows[..|rows| - 1], rows[|rows| - 1];
      ExtractedEntries(init);
      var x := Extracted(rows);
      assert x == Extracted(init) + Kept(last);
      forall i | 0 <= i < |x|
        ensures exists j :: 0 <= j < |rows| && ExtractRow(rows[j]) == Some(x[i])
      {
        if i < |Extracted(init)| {
          var j :| 0 <= j < |init| && ExtractRow(init[j]) == Some(Extracted(init)[i]);
          assert rows[j] == init[j];
        } else {
          assert ExtractRow(rows[|rows| - 1]) == Some(x[i]);
        }
      }
    }
  }

  /** When no row is skipped, the entries are the rows' values one for one. */
  lemma {:induction false} ExtractedAllKept(rows: seq<EditorRow>)
    requires forall i :: 0 <= i < |rows| ==> !Skipped(rows[i].event)
    ensures |Extracted(rows)| == |rows|
    ensures forall i :: 0 <= i < |rows| ==> ExtractRow(rows[i]) == Some(Extracted(rows)[i])
  {
    if rows != [] {
      var init := rows[..|rows| - 1];
      ExtractedAllKept(init);
    }
  }

  lemma RemoveAt<T>(s: seq<T>, j: int)
    requires 0 <= j < |s|
    ensures s == s[..j] + [s[j]] + s[j + 1..]
    ensures multiset(s[..j] + s[j + 1..]) == multiset(s) - multiset{s[j]}
  {
    assert s == s[..j] + [s[j]] + s[j + 1..];
  }

  lemma ExtractedAround(rows: seq<EditorRow>, j: int)
    requires 0 <= j < |rows|
    ensures multiset(Extracted(rows))
         == multiset(Extracted(rows[..j] + rows[j + 1..])) + multiset(Kept(rows[j]))
  {
    RemoveAt(rows, j);
    ExtractedAppend(rows[..j] + [rows[j]], rows[j + 1..]);
    ExtractedAppend(rows[..j], [rows[j]]);
    ExtractedAppend(rows[..j], rows[j + 1..]);
    assert Extracted([rows[j]]) == Kept(rows[j]) by {
      assert [rows[j]][..0] == [];
    }
  }

  /** Rows in another order give the same entries in another order. */
  lemma {:induction false} ExtractedPermutation(rows: seq<EditorRow>, rows': seq<EditorRow>)
    requires multiset(rows) == multiset(rows')
    ensures multiset(Extracted(rows)) == multiset(Extracted(rows'))
  {
    if rows == [] {
      assert |rows'| == |multiset(rows')| == 0;
    } else {
      var init, last := rows[..|rows| - 1], rows[|rows| - 1];
      assert rows == init + [last];
      assert last in multiset(rows');
      var j :| 0 <= j < |rows'| && rows'[j] == last;
      RemoveAt(rows', j);
      ExtractedPermutation(init, rows'[..j] + rows'[j + 1..]);
      ExtractedAround(rows', j);
    }
  }

  // ----- reconciliation: tuples compared after sorting -----

  /** `x < y or (x == y and rest)`: one position of Python's tuple comparison `<=`. */
  predicate LexStep(x: string, y: string, rest: bool) {
    StrLt(x, y) || (x == y && rest)
  }

  predicate StrLe(a: string, b: string) {
    StrLt(a, b) || a == b
  }

  lemma LexStepTransitive(x: string, y: string, z: string, r1: bool, r2: bool, r3: bool)
    requires LexStep(x, y, r1) && LexStep(y, z, r2) && (r1 && r2 ==> r3)
    ensures LexStep(x, z, r3)
  {
    if StrLt(x, y) && StrLt(y, z) {
      StrLtTransitive(x, y, z);
    }
  }

  lemma LexStepTotal(x: string, y: string, r1: bool, r2: bool)
    requires r1 || r2
    ensures LexStep(x, y, r1) || LexStep(y, x, r2)
  {
    StrLtTrichotomy(x, y);
  }

  lemma LexStepAntisymmetric(x: string, y: string, r1: bool, r2: bool)
    requires LexStep(x, y, r1) && LexStep(y, x, r2)
    ensures x == y && r1 && r2
  {
    StrLtAsymmetric(x, y);
    StrLtIrreflexive(x);
  }

  /** `(a.date, a.time, a.event) <= (b.date, b.time, b.event)` on Python tuples of strings. */
  predicate EntryLe(a: ScheduleEntry, b: ScheduleEntry) {
    LexStep(a.date, b.date, LexStep(a.time, b.time, StrLe(a.event, b.event)))
  }

  lemma EntryLeTotalPair(a: ScheduleEntry, b: ScheduleEntry)
    ensures EntryLe(a, b) || EntryLe(b, a)
  {
    StrLtTrichotomy(a.event, b.event);
    LexStepTotal(a.time, b.time, StrLe(a.event, b.event), StrLe(b.event, a.event));
    LexStepTotal(a.date, b.date, LexStep(a.time, b.time, StrLe(a.event, b.event)),
                 LexStep(b.time, a.time, StrLe(b.event, a.event)));
  }

  lemma EntryLeTransitive(a: ScheduleEntry, b: ScheduleEntry, c: ScheduleEntry)
    requires EntryLe(a, b) && EntryLe(b, c)
    ensures EntryLe(a, c)
  {
    var e1, e2, e3 := StrLe(a.event, b.event), StrLe(b.event, c.event), StrLe(a.event, c.event);
    if e1 && e2 && StrLt(a.event, b.event) && StrLt(b.event, c.event) {
      StrLtTransitive(a.event, b.event, c.event);
    }
    var t1, t2, t3 := LexStep(a.time, b.time, e1), LexStep(b.time, c.time, e2), LexStep(a.time, c.time, e3);
    if t1 && t2 {
      LexStepTransitive(a.time, b.time, c.time, e1, e2, e3);
    }
    LexStepTransitive(a.date, b.date, c.date, t1, t2, t3);
  }

  lemma EntryLeAntisymmetricPair(a: ScheduleEntry, b: ScheduleEntry)
    requires EntryLe(a, b) && EntryLe(b, a)
    ensures a == b
  {
    LexStepAntisymmetric(a.date, b.date, LexStep(a.time, b.time, StrLe(a.event, b.event)),
                         LexStep(b.time, a.time, StrLe(b.event, a.event)));
    LexStepAntisymmetric(a.time, b.time, StrLe(a.event, b.event), StrLe(b.event, a.event));
    StrLtAsymmetric(a.event, b.event);
  }

  /** The tuple order is total, and only equal tuples tie. */
  lemma EntryLeTotalOrder()
    ensures TotalPreorder(EntryLe) && Antisymmetric(EntryLe)
  {
    forall a, b ensures EntryLe(a, b) || EntryLe(b, a) {
      EntryLeTotalPair(a, b);
    }
    forall a, b, c | EntryLe(a, b) && EntryLe(b, c) ensures EntryLe(a, c) {
      EntryLeTransitive(a, b, c);
    }
    forall a, b | EntryLe(a, b) && EntryLe(b, a) ensures a == b {
      EntryLeAntisymmetricPair(a, b);
    }
  }

  /** `sorted([(s['date'], s['time'], s['event']) for s in entries])`. */
  function SortedTuples(entries: seq<ScheduleEntry>): seq<ScheduleEntry> {
    InsertionSort(entries, EntryLe)
  }

  /** The test of main.py:423 that decides whether the edited list is saved. */
  predicate ScheduleChanged(edited: seq<ScheduleEntry>, existing: seq<ScheduleEntry>) {
    SortedTuples(edited) != SortedTuples(existing)
  }

  /** The comparison of sorted lists is a comparison of multisets: a save happens exactly when an
      entry was added, removed or changed. */
  lemma ChangedIffMultisetsDiffer(edited: seq<ScheduleEntry>, existing: seq<ScheduleEntry>)
    ensures ScheduleChanged(edited, existing) <==> multiset(edited) != multiset(existing)
  {
    EntryLeTotalOrder();
    SortedEqualIffSameMultiset(edited, existing, EntryLe);
  }

  /** Once the rows' extraction is stored, the same rows handed back again, in any order, cause
      no further save. */
  lemma ReconciledIsStable(rows: seq<EditorRow>, rows': seq<EditorRow>)
    requires multiset(rows') == multiset(rows)
    ensures !ScheduleChanged(Extracted(rows'), Extracted(rows))
  {
    ExtractedPermutation(rows, rows');
    ChangedIffMultisetsDiffer(Extracted(rows'), Extracted(rows));
  }

  /** Reordering the editor's rows never causes a save that the original order would not. */
  lemma ReorderingWritesNothing(rows: seq<EditorRow>, rows': seq<EditorRow>, existing: seq<ScheduleEntry>)
    requires multiset(rows) == multiset(rows')
    ensures ScheduleChanged(Extracted(rows'), existing) <==> ScheduleChanged(Extracted(rows), existing)
  {
    ExtractedPermutation(rows, rows');
    ChangedIffMultisetsDiffer(Extracted(rows), existing);
    ChangedIffMultisetsDiffer(Extracted(rows'), existing);
  }

  // ----- entries added through the form, shown in the editor and handed back unedited -----

  /** The entry the add form appends: `str(date)`, `time.strftime("%H:%M")` and the event text. */
  function FormEntry(d: Date, t: Time, event: string): ScheduleEntry {
    ScheduleEntry(FormatDate(d), FormatHourMinute(t), event)
  }

  /** The time column the editor shows for a stored time string: parse_schedule_time's result. */
  function DisplayTime(s: string): TimeCell {
    match TimeParsing.ParseScheduleTime(TimeParsing.TimeString(s)).time
    case Some(t) => ClockTime(t)
    case None => NoTime
  }

  /** A stored "HH:MM" is shown as a time and extracted back to the same string. */
  lemma DisplayTimeRoundTrip(t: Time)
    ensures TimeField(DisplayTime(FormatHourMinute(t))) == FormatHourMinute(t)
  {
    TimeParsing.ParseFormattedTime(t);
  }

  /** The editor rows shown for `entries`, each date already read back as `dates[i]`. */
  function ShownRows(dates: seq<Date>, entries: seq<ScheduleEntry>): (rows: seq<EditorRow>)
    requires |dates| == |entries|
    ensures |rows| == |entries|
  {
    seq(|entries|, i requires 0 <= i < |entries| =>
      EditorRow(CalendarDay(dates[i]), DisplayTime(entries[i].time), EventText(entries[i].event)))
  }

  /** Entries added through the form and handed back unedited, in any order, cause no save. */
  lemma UneditedEditorWritesNothing(dates: seq<Date>, times: seq<Time>, entries: seq<ScheduleEntry>,
                                    rows: seq<EditorRow>)
    requires |dates| == |times| == |entries|
    requires forall i :: 0 <= i < |entries| ==>
               entries[i] == FormEntry(dates[i], times[i], entries[i].event) && !Blank(entries[i].event)
    requires multiset(rows) == multiset(ShownRows(dates, entries))
    ensures !ScheduleChanged(Extracted(rows), entries)
  {
    var shown := ShownRows(dates, entries);
    ExtractedAllKept(shown);
    forall i | 0 <= i < |entries| ensures Extracted(shown)[i] == entries[i] {
      DisplayTimeRoundTrip(times[i]);
    }
    assert Extracted(shown) == entries;
    ExtractedPermutation(shown, rows);
    ChangedIffMultisetsDiffer(Extracted(rows), entries);
  }

  // ----- the schedule text for the AI helper -----

  /** `(x['date'], x['time']) <= (y['date'], y['time'])`: the sort key, ties left in place. */
  predicate KeyLe(a: ScheduleEntry, b: ScheduleEntry) {
    LexStep(a.date, b.date, StrLe(a.time, b.time))
  }

  lemma KeyLeTotalPreorder()
    ensures TotalPreorder(KeyLe)
  {
    forall a, b ensures KeyLe(a, b) || KeyLe(b, a) {
      StrLtTrichotomy(a.time, b.time);
      LexStepTotal(a.date, b.date, StrLe(a.time, b.time), StrLe(b.time, a.time));
    }
    forall a, b, c | KeyLe(a, b) && KeyLe(b, c) ensures KeyLe(a, c) {
      if StrLe(a.time, b.time) && StrLe(b.time, c.time) && StrLt(a.time, b.time) && StrLt(b.time, c.time) {
        StrLtTransitive(a.time, b.time, c.time);
      }
      LexStepTransitive(a.date, b.date, c.date, StrLe(a.time, b.time), StrLe(b.time, c.time), StrLe(a.time, c.time));
    }
  }

  /** `sorted(schedules, key=lambda x: (x['date'], x['time']))`. */
  function ByDateTime(entries: seq<ScheduleEntry>): seq<ScheduleEntry> {
    InsertionSort(entries, KeyLe)
  }

  /** The sorted list is in (date, time) order, holds the same entries, and keeps entries with
      the same date and time in their stored order. */
  lemma ByDateTimeIsStableSort(entries: seq<ScheduleEntry>)
    ensures Sorted(ByDateTime(entries), KeyLe)
    ensures multiset(ByDateTime(entries)) == multiset(entries)
    ensures forall k :: Ties(ByDateTime(entries), k, KeyLe) == Ties(entries, k, KeyLe)
  {
    KeyLeTotalPreorder();
    InsertionSortSorted(entries, KeyLe);
    forall k ensures Ties(ByDateTime(entries), k, KeyLe) == Ties(entries, k, KeyLe) {
      InsertionSortStable(entries, k, KeyLe);
    }
  }

  /** `f"- {row_date} {row_time}: {row_event}\n"`. */
  function Line(e: ScheduleEntry): string {
    "- " + e.date + " " + e.time + ": " + e.event + "\n"
  }

  /** The line an entry contributes: none when its event is blank. */
  function LineOf(e: ScheduleEntry): string {
    if Blank(e.event) then "" else Line(e)
  }

  /** The lines of `entries` in their order. */
  function Lines(entries: seq<ScheduleEntry>): string {
    if entries == [] then "" else Lines(entries[..|entries| - 1]) + LineOf(entries[|entries| - 1])
  }

  /** schedule_text as main.py:434-443 builds it. */
  function ScheduleText(entries: seq<ScheduleEntry>): string {
    Lines(ByDateTime(entries))
  }

  method BuildScheduleText(schedules: seq<ScheduleEntry>) returns (text: string)
    ensures text == ScheduleText(schedules)
  {
    text := "";
    var sorted := ByDateTime(schedules);
    var i := 0;
    while i < |sorted|
      invariant 0 <= i <= |sorted|
      invariant text == Lines(sorted[..i])
    {
      var item := sorted[i];
      assert sorted[..i + 1][..i] == sorted[..i];
      if !Blank(item.event) {
        var line := "- " + item.date + " " + item.time + ": " + item.event + "\n";
        text := text + line;
      }
      i := i + 1;
    }
    assert sorted[..i] == sorted;
  }

  /** The text of a concatenation is the concatenation of the texts. */
  lemma {:induction false} LinesAppend(a: seq<ScheduleEntry>, b: seq<ScheduleEntry>)
    ensures Lines(a + b) == Lines(a) + Lines(b)
  {
    if b == [] {
      assert a + b == a;
    } else {
      var b', last := b[..|b| - 1], b[|b| - 1];
      assert (a + b)[..|a + b| - 1] == a + b';
      assert (a + b)[|a + b| - 1] == last;
      LinesAppend(a, b');
      ConcatAssociative(Lines(a), Lines(b'), LineOf(last));
    }
  }

  lemma ConcatAssociative(x: string, y: string, z: string)
    ensures (x + y) + z == x + (y + z)
  {
  }

  /** Entries with blank events contribute nothing to the text. */
  lemma {:induction false} LinesSkipBlank(entries: seq<ScheduleEntry>)
    ensures Lines(entries) == Lines(NonBlank(entries))
  {
    if entries != [] {
      var init, last := entries[..|entries| - 1], entries[|entries| - 1];
      LinesSkipBlank(init);
      NonBlankStep(init, last, entries);
    }
  }

  lemma NonBlankStep(init: seq<ScheduleEntry>, last: ScheduleEntry, entries: seq<ScheduleEntry>)
    requires entries != [] && init == entries[..|entries| - 1] && last == entries[|entries| - 1]
    requires Lines(init) == Lines(NonBlank(init))
    ensures Lines(entries) == Lines(NonBlank(entries))
  {
    if Blank(last.event) {
      BlankStep(init, last, entries);
    } else {
      KeptStep(init, last, entries);
    }
  }

  lemma BlankStep(init: seq<ScheduleEntry>, last: ScheduleEntry, entries: seq<ScheduleEntry>)
    requires entries != [] && init == entries[..|entries| - 1] && last == entries[|entries| - 1]
    requires Lines(init) == Lines(NonBlank(init)) && Blank(last.event)
    ensures Lines(entries) == Lines(NonBlank(entries))
  {
    AppendEmpty(NonBlank(init));
    AppendEmpty(Lines(init));
  }

  lemma AppendEmpty<T>(x: seq<T>)
    ensures x + [] == x
  {
  }

  lemma KeptStep(init: seq<ScheduleEntry>, last: ScheduleEntry, entries: seq<ScheduleEntry>)
    requires entries != [] && init == entries[..|entries| - 1] && last == entries[|entries| - 1]
    requires Lines(init) == Lines(NonBlank(init)) && !Blank(last.event)
    ensures Lines(entries) == Lines(NonBlank(entries))
  {
    var kept := NonBlank(init);
    assert NonBlank(entries) == kept + [last];
    LinesSnoc(kept, last);
  }

  lemma LinesSnoc(xs: seq<ScheduleEntry>, e: ScheduleEntry)
    ensures Lines(xs + [e]) == Lines(xs) + LineOf(e)
  {
    assert (xs + [e])[..|xs|] == xs;
  }

  /** The entries kept for the text all have a non-blank event, one line each. */
  lemma {:induction false} NonBlankEvents(entries: seq<ScheduleEntry>)
    ensures forall i :: 0 <= i < |NonBlank(entries)| ==> !Blank(NonBlank(entries)[i].event)
    ensures forall i :: 0 <= i < |NonBlank(entries)| ==> LineOf(NonBlank(entries)[i]) == Line(NonBlank(entries)[i])
  {
    if entries != [] {
      NonBlankEvents(entries[..|entries| - 1]);
    }
  }

  /** The entries whose event is not blank, in order. */
  function NonBlank(entries: seq<ScheduleEntry>): seq<ScheduleEntry> {
    if entries == [] then []
    else NonBlank(entries[..|entries| - 1])
         + (if Blank(entries[|entries| - 1].event) then [] else [entries[|entries| - 1]])
  }
}
