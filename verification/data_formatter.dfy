/** The display formatters: the rows of the raw and grouped change grids, the
    markdown statistics text, text truncation and the connection-status line.

    Floating-point percentages are rendered by a caller-supplied function and
    the average per day arrives already rendered; an exception the Python code
    would raise is the `None` result of the member concerned.
 */
module DataFormatter {
  import opened Wrappers
  import opened Strings
  import Tally
  import TableMappings
  import Queries

  /** One change record as the display code reads it: any key may be missing
      or hold None. The campaign id is only passed through, so missing and
      None are the same to it. */
  datatype Row = Row(
    sourceTable: Slot,
    campaignId: Option<int>,
    fieldName: Slot,
    oldValue: Slot,
    newValue: Slot,
    updateTime: Slot,
    updateUser: Slot)

  // ---------------------------------------------------------------------
  // truncate_text

  /** Shortens text longer than `maxLength` to its head followed by "...". */
  function TruncateText(text: string, maxLength: int): (r: string)
    ensures |text| <= maxLength ==> r == text
    ensures |text| > maxLength >= 3 ==>
      && |r| == maxLength
      && EndsWith(r, "...")
      && r[..maxLength - 3] == text[..maxLength - 3]
    ensures |text| > maxLength ==> EndsWith(r, "...") && StartsWith(text, r[..|r| - 3])
  {
    if |text| <= maxLength then text else SliceTo(text, maxLength - 3) + "..."
  }

  /** With room for the ellipsis, truncating twice is truncating once. */
  lemma TruncateIdempotent(text: string, maxLength: int)
    requires maxLength >= 3
    ensures TruncateText(TruncateText(text, maxLength), maxLength) == TruncateText(text, maxLength)
  {
  }

  /** Below three characters the ellipsis alone overshoots the limit. */
  lemma TruncateShortLimitOverflows(text: string, maxLength: int)
    requires maxLength < 3 && |text| > maxLength
    ensures |TruncateText(text, maxLength)| > maxLength
  {
  }

  /** ... and truncating again then changes the text once more. */
  lemma TruncateShortLimitNotIdempotent()
    ensures TruncateText("ab", 1) == "..."
    ensures TruncateText(TruncateText("ab", 1), 1) == "...."
  {
    assert SliceTo("...", -2) == ".";
  }

  // ---------------------------------------------------------------------
  // format_changes_table

  const CellWidth := 100

  /** A value cell of the raw grid: the first 100 characters, followed by
      "..." exactly when something was cut. */
  function ValueCell(v: string): (r: string)
    ensures |r| <= CellWidth + 3
    ensures |v| <= CellWidth ==> r == v
    ensures |v| > CellWidth ==> r == v[..CellWidth] + "..."
  {
    SliceTo(v, CellWidth) + (if |v| > CellWidth then "..." else "")
  }

  /** The cell agrees with `truncate_text` at 103 characters except for
      values of 101 to 103 characters: the cell cuts them to 100 and appends
      "...", while `truncate_text` leaves them alone. */
  lemma ValueCellAgainstTruncate(v: string)
    ensures |v| <= CellWidth || |v| > CellWidth + 3 ==> ValueCell(v) == TruncateText(v, CellWidth + 3)
    ensures CellWidth < |v| < CellWidth + 3 ==> ValueCell(v) != TruncateText(v, CellWidth + 3)
    ensures |v| == CellWidth + 3 && v[CellWidth..] != "..." ==> ValueCell(v) != TruncateText(v, CellWidth + 3)
  {
    if CellWidth < |v| < CellWidth + 3 {
      assert |ValueCell(v)| == CellWidth + 3;
    }
    if |v| == CellWidth + 3 && v[CellWidth..] != "..." {
      assert ValueCell(v)[CellWidth..] == "...";
    }
  }

  /** One row of the raw change grid. */
  datatype TableRow = TableRow(
    sourceTable: Option<string>,
    campaignId: Option<int>,
    field: Option<string>,
    oldValue: string,
    newValue: string,
    updateTime: Option<string>,
    user: Option<string>)

  /** The grid row of one change. A missing source table reads "Unknown", a
      missing user "N/A", a missing value the empty cell and a None value the
      text "None"; a key holding None stays None. */
  function TableRowOf(c: Row): (r: TableRow)
    ensures r.oldValue == ValueCell(c.oldValue.StrOf("")) && r.newValue == ValueCell(c.newValue.StrOf(""))
    ensures |r.oldValue| <= CellWidth + 3 && |r.newValue| <= CellWidth + 3
    ensures c.sourceTable.Absent? ==> r.sourceTable == Some("Unknown")
    ensures c.sourceTable.Null? ==> r.sourceTable.None?
    ensures c.updateUser.Absent? ==> r.user == Some("N/A")
    ensures c.updateUser.Null? ==> r.user.None?
    ensures c.oldValue.Absent? ==> r.oldValue == ""
    ensures c.oldValue.Null? ==> r.oldValue == "None"
    ensures r.campaignId == c.campaignId && r.field == c.fieldName.Get() && r.updateTime == c.updateTime.Get()
  {
    TableRow(
      c.sourceTable.GetDefault("Unknown"),
      c.campaignId,
      c.fieldName.Get(),
      ValueCell(c.oldValue.StrOf("")),
      ValueCell(c.newValue.StrOf("")),
      c.updateTime.Get(),
      c.updateUser.GetDefault("N/A"))
  }

  /** The raw grid: no grid at all for no changes, else one row per change
      in input order. */
  function FormatChangesTable(changes: seq<Row>): (r: Option<seq<TableRow>>)
    ensures r.None? <==> |changes| == 0
    ensures r.Some? ==> |r.value| == |changes|
    ensures r.Some? ==> forall i :: 0 <= i < |changes| ==> r.value[i] == TableRowOf(changes[i])
  {
    if |changes| == 0 then None
    else Some(seq(|changes|, i requires 0 <= i < |changes| => TableRowOf(changes[i])))
  }

  // ---------------------------------------------------------------------
  // format_grouped_changes_table

  /** One group as the grouped grid reads it: its 'update_time' key (which
      may be missing or None), and its 'change_count' and 'changes' keys,
      `None` when missing. */
  datatype GroupInput = GroupInput(updateTime: Slot, changeCount: Option<int>, changes: Option<seq<Row>>)

  /** The group has every key the grid reads by subscript. */
  predicate HasGridKeys(g: GroupInput) {
    !g.updateTime.Absent? && g.changeCount.Some? && g.changes.Some?
  }

  /** One row of the grouped grid. */
  datatype GroupedRow = GroupedRow(
    updateTime: Option<string>,
    tables: string,
    changesCount: int,
    fieldsChanged: string,
    users: string,
    summary: string)

  /** The truthy values one key takes across the changes, in input order. */
  function TruthyValues(changes: seq<Row>, key: Row -> Slot): (r: seq<string>)
    ensures forall x :: x in r <==> x != "" && exists c :: c in changes && key(c) == Str(x)
    ensures |r| <= |changes|
    decreases |changes|
  {
    if |changes| == 0 then []
    else
      assert forall c :: c in changes <==> c == changes[0] || c in changes[1..];
      TruthyOf(key(changes[0])) + TruthyValues(changes[1..], key)
  }

  /** The value of one slot when it is truthy. */
  function TruthyOf(k: Slot): seq<string> {
    if k.IsTruthy() then [k.s] else []
  }

  /** Every non-empty text is collected exactly as often as the key holds
      it, and the empty text never is. */
  lemma {:induction false} TruthyValuesCount(changes: seq<Row>, key: Row -> Slot)
    ensures forall x ::
      multiset(TruthyValues(changes, key))[x] == if x == "" then 0 else multiset(SlotsOf(changes, key))[Str(x)]
    decreases |changes|
  {
    if |changes| > 0 {
      TruthyValuesCount(changes[1..], key);
      assert SlotsOf(changes, key) == [key(changes[0])] + SlotsOf(changes[1..], key);
      assert multiset(TruthyValues(changes, key)) ==
        multiset(TruthyOf(key(changes[0]))) + multiset(TruthyValues(changes[1..], key));
    }
  }

  /** The value of `key` in every change, in order. */
  function SlotsOf(changes: seq<Row>, key: Row -> Slot): (r: seq<Slot>)
    ensures |r| == |changes| && forall i :: 0 <= i < |r| ==> r[i] == key(changes[i])
    decreases |changes|
  {
    if |changes| == 0 then [] else [key(changes[0])] + SlotsOf(changes[1..], key)
  }

  /** Collecting from a concatenation concatenates the collected values, so
      they keep the order of the changes. */
  lemma {:induction false} TruthyValuesAppend(a: seq<Row>, b: seq<Row>, key: Row -> Slot)
    ensures TruthyValues(a + b, key) == TruthyValues(a, key) + TruthyValues(b, key)
    decreases |a|
  {
    if |a| == 0 {
      assert a + b == b;
    } else {
      assert (a + b)[0] == a[0];
      assert (a + b)[1..] == a[1..] + b;
      TruthyValuesAppend(a[1..], b, key);
      var head := TruthyOf(key(a[0]));
      calc {
        TruthyValues(a + b, key);
        head + TruthyValues(a[1..] + b, key);
        head + (TruthyValues(a[1..], key) + TruthyValues(b, key));
        (head + TruthyValues(a[1..], key)) + TruthyValues(b, key);
      }
    }
  }

  function SourceTableOf(c: Row): Slot { c.sourceTable }
  function FieldNameOf(c: Row): Slot { c.fieldName }
  function UpdateUserOf(c: Row): Slot { c.updateUser }

  /** A comma-joined sorted list of the distinct names, or "N/A" for none. */
  function NamesCell(names: seq<string>): string {
    if |names| == 0 then "N/A" else Join(", ", SortedUnique(names))
  }

  const FieldsShown := 5

  /** The first five field names, with "..." when there are more. */
  function FieldsCell(fields: seq<string>): string {
    Join(", ", Tally.Head(fields, FieldsShown)) + (if |fields| > FieldsShown then "..." else "")
  }

  function GroupedRowOf(g: GroupInput): GroupedRow
    requires HasGridKeys(g)
  {
    var tables := TruthyValues(g.changes.value, SourceTableOf);
    var fields := TruthyValues(g.changes.value, FieldNameOf);
    var users := TruthyValues(g.changes.value, UpdateUserOf);
    GroupedRow(
      g.updateTime.Get(),
      NamesCell(tables),
      g.changeCount.value,
      FieldsCell(fields),
      NamesCell(users),
      IntToString(g.changeCount.value) + " changes across " + NatToString(|SortedUnique(tables)|) + " table(s)")
  }

  /** The grouped grid: `Some(None)` (no grid) for no groups; `None` (a
      KeyError) when some group lacks a key the grid reads; else one row per
      group, in order. */
  function FormatGroupedChangesTable(groups: seq<GroupInput>): (r: Option<Option<seq<GroupedRow>>>)
    ensures r == Some(None) <==> |groups| == 0
    ensures r.None? <==> exists g :: g in groups && !HasGridKeys(g)
    ensures r.Some? && r.value.Some? ==>
      |r.value.value| == |groups| && forall i :: 0 <= i < |groups| ==> r.value.value[i] == GroupedRowOf(groups[i])
  {
    if |groups| == 0 then Some(None)
    else if exists g :: g in groups && !HasGridKeys(g) then None
    else Some(Some(seq(|groups|, i requires 0 <= i < |groups| => GroupedRowOf(groups[i]))))
  }

  /** A group the time grouping builds, as the grouped grid would read it:
      the grouping stores its count under 'changes_count', so 'change_count'
      is missing, and its changes carry no table or user. `render` stands for
      the timestamp's rendering. */
  function GridInputOfTimeGroup(g: Queries.ChangeGroup, render: int -> string): GroupInput {
    GroupInput(Str(render(g.updateTime)), None,
               Some(seq(|g.changes|, i requires 0 <= i < |g.changes| => RowOfFieldChange(g.changes[i]))))
  }

  function SlotOf(o: Option<string>): Slot {
    if o.Some? then Str(o.value) else Null
  }

  function RowOfFieldChange(f: Queries.FieldChange): Row {
    Row(Absent, None, SlotOf(f.fieldName), SlotOf(f.oldValue), SlotOf(f.newValue), Absent, Absent)
  }

  /** Handing the time grouping's groups to the grouped grid raises a
      KeyError as soon as there is one group. */
  lemma TimeGroupsLackChangeCount(groups: seq<Queries.ChangeGroup>, render: int -> string)
    requires |groups| > 0
    ensures FormatGroupedChangesTable(
      seq(|groups|, i requires 0 <= i < |groups| => GridInputOfTimeGroup(groups[i], render))) == None
  {
    var inputs := seq(|groups|, i requires 0 <= i < |groups| => GridInputOfTimeGroup(groups[i], render));
    assert inputs[0] in inputs && !HasGridKeys(inputs[0]);
  }

  /** A names column lists, in increasing order and each once, exactly the
      truthy values of its key, or reads "N/A" when there is none. */
  lemma NamesCellSpec(changes: seq<Row>, key: Row -> Slot)
    ensures var names := TruthyValues(changes, key);
      var listed := SortedUnique(names);
      && (NamesCell(names) == "N/A" <== forall c :: c in changes ==> !key(c).IsTruthy())
      && ((exists c :: c in changes && key(c).IsTruthy()) ==> NamesCell(names) == Join(", ", listed))
      && StrictlyIncreasing(listed)
      && (forall i, j :: 0 <= i < j < |listed| ==> listed[i] != listed[j])
      && (forall x :: x in listed <==> x != "" && exists c :: c in changes && key(c) == Str(x))
  {
    var names := TruthyValues(changes, key);
    if |names| > 0 {
      assert names[0] in names;
    }
    SortedUniqueSpec(names);
    IncreasingHasNoRepeats(SortedUnique(names));
    if exists c :: c in changes && key(c).IsTruthy() {
      var c :| c in changes && key(c).IsTruthy();
      assert key(c).s in names;
    }
  }

  /** The columns of a grouped row: the Tables and Users columns are sorted
      duplicate-free lists of the truthy tables and users, Fields Changed
      starts with the first five truthy field names in input order and ends
      in "..." exactly when more were left out, and the summary counts the
      tables the Tables column lists. */
  lemma GroupedRowColumns(g: GroupInput)
    requires HasGridKeys(g)
    ensures var r := GroupedRowOf(g);
      var tables := TruthyValues(g.changes.value, SourceTableOf);
      var fields := TruthyValues(g.changes.value, FieldNameOf);
      var users := TruthyValues(g.changes.value, UpdateUserOf);
      && r.updateTime == g.updateTime.Get() && r.changesCount == g.changeCount.value
      && r.tables == NamesCell(tables) && r.users == NamesCell(users)
      && (|fields| <= FieldsShown ==> r.fieldsChanged == Join(", ", fields))
      && (|fields| > FieldsShown ==>
            r.fieldsChanged == Join(", ", fields[..FieldsShown]) + "..."
            && EndsWith(r.fieldsChanged, "..."))
      && r.summary == IntToString(g.changeCount.value) + " changes across "
           + NatToString(|set t | t in tables|) + " table(s)"
      && |set t | t in tables| == |SortedUnique(tables)|
  {
    var tables := TruthyValues(g.changes.value, SourceTableOf);
    var fields := TruthyValues(g.changes.value, FieldNameOf);
    SetSizeOfNames(tables);
    FieldsCellShape(fields);
  }

  /** `len(set(xs))` is the length of `sorted(set(xs))`. */
  lemma SetSizeOfNames(xs: seq<string>)
    ensures |set t | t in xs| == |SortedUnique(xs)|
  {
    SortedUniqueSpec(xs);
    IncreasingListsItsSet(SortedUnique(xs));
    assert (set t | t in xs) == (set t | t in SortedUnique(xs));
  }

  /** The first five names, joined, with "..." exactly when more exist. */
  lemma FieldsCellShape(fields: seq<string>)
    ensures |fields| <= FieldsShown ==> FieldsCell(fields) == Join(", ", fields)
    ensures |fields| > FieldsShown ==>
      FieldsCell(fields) == Join(", ", fields[..FieldsShown]) + "..." && EndsWith(FieldsCell(fields), "...")
  {
    if |fields| > FieldsShown {
      var shown := Join(", ", fields[..FieldsShown]);
      assert (shown + "...")[|shown + "..."| - 3..] == "...";
    }
  }

  // ---------------------------------------------------------------------
  // format_summary_stats

  /** The statistics dictionary the summary text reads. `None` is a missing
      key; `changesPerDay` holds the average already rendered with one
      decimal. */
  datatype StatsInput = StatsInput(
    changes: Option<seq<Row>>,
    totalChanges: Option<int>,
    uniqueFields: Option<int>,
    dateRangeDays: Option<int>,
    changesPerDay: Option<string>,
    uniqueUsers: Option<int>,
    mostActiveUser: Option<string>,
    mostActiveUserChanges: Option<int>,
    topFields: Option<seq<(string, int)>>)

  /** `count / total * 100` rendered with one decimal. */
  type PercentText = (nat, int) -> string

  const NoSourcesLine := "- No changes found in selected tables\n"
  const NoFieldsLine := "- No field data available\n"
  const TopFieldsShown := 10

  /** The table name of every change, "Unknown" for a missing one; `None`
      when some change holds None there, which the name clean-up later
      fails on. */
  function TableNames(changes: seq<Row>): (r: Option<seq<string>>)
    ensures r.None? <==> exists c :: c in changes && c.sourceTable.Null?
    ensures r.Some? ==> |r.value| == |changes|
    ensures r.Some? ==> forall i :: 0 <= i < |changes| ==> r.value[i] == changes[i].sourceTable.StrOf("Unknown")
    decreases |changes|
  {
    if |changes| == 0 then Some([])
    else
      assert forall c :: c in changes <==> c == changes[0] || c in changes[1..];
      var rest := TableNames(changes[1..]);
      if changes[0].sourceTable.Null? || rest.None? then None
      else Some([changes[0].sourceTable.StrOf("Unknown")] + rest.value)
  }

  /** The per-table counts, most changes first, ties in order of first
      appearance; no counts without a changes list. */
  function TableCounts(s: StatsInput): Option<seq<Tally.Tally>> {
    if s.changes.None? then Some([])
    else
      var names := TableNames(s.changes.value);
      if names.None? then None else Some(Tally.ValueCounts(names.value))
  }

  /** The per-table counts list every table once with its number of changes,
      in non-increasing order, and add up to the number of changes. */
  lemma TableCountsSpec(s: StatsInput)
    requires s.changes.Some? && TableCounts(s).Some?
    ensures var names := TableNames(s.changes.value).value;
      var counts := TableCounts(s).value;
      && Tally.CountsDescending(counts)
      && Tally.NamesDistinct(counts)
      && (forall q: Tally.Tally :: q in counts <==> q.0 in names && q.1 == Tally.Count(names, q.0))
      && Tally.SumCounts(counts) == |s.changes.value|
      && (|counts| == 0 <==> |s.changes.value| == 0)
  {
    var names := TableNames(s.changes.value).value;
    Tally.ValueCountsSpec(names);
    Tally.ValueCountsSum(names);
  }

  /** Tables with equally many changes are listed in the order in which
      each first occurs among the changes. */
  lemma TableCountsTieOrder(s: StatsInput)
    requires s.changes.Some? && TableCounts(s).Some?
    ensures var names := TableNames(s.changes.value).value;
      var counts := TableCounts(s).value;
      forall i, j :: 0 <= i < j < |counts| && counts[i].1 == counts[j].1 ==>
        Tally.IndexOf(names, counts[i].0) < Tally.IndexOf(names, counts[j].0)
  {
    Tally.ValueCountsTieOrder(TableNames(s.changes.value).value);
  }

  const SelectedPrefix := "- **Selected Tables:** "
  const OutOf := " out of "
  const AvailableSuffix := " available\n"

  function SelectedLine(selected: nat, available: nat): string {
    SelectedPrefix + NatToString(selected) + OutOf + NatToString(available) + AvailableSuffix
  }

  /** The selection line as the code prints it: the selection size twice. */
  function SelectedTablesLineAsWritten(selectedTables: seq<string>): string {
    SelectedLine(|selectedTables|, |selectedTables|)
  }

  /** The evidently intended selection line: the selection size against the
      registry of available tables. The statistics text below prints the
      line as written. */
  function SelectedTablesLine(selectedTables: seq<string>): string {
    SelectedLine(|selectedTables|, |TableMappings.AvailableTables|)
  }

  /** Two numbers framed by text can be read back when the text after each
      number starts with a non-digit. */
  lemma TwoNumbersReadBack(p: string, m: string, e: string, a: nat, b: nat, c: nat, d: nat)
    requires |m| > 0 && !IsDigit(m[0]) && |e| > 0 && !IsDigit(e[0])
    requires p + NatToString(a) + m + NatToString(b) + e == p + NatToString(c) + m + NatToString(d) + e
    ensures a == c && b == d
  {
    var sa, sb, sc, sd := NatToString(a), NatToString(b), NatToString(c), NatToString(d);
    Regroup(p, sa, m, sb, e);
    Regroup(p, sc, m, sd, e);
    DropPrefix(p, sa + (m + (sb + e)), sc + (m + (sd + e)));
    NumberThenNonDigit(a, c, m + (sb + e), m + (sd + e));
    DropPrefix(m, sb + e, sd + e);
    NumberThenNonDigit(b, d, e, e);
  }

  lemma Regroup(p: string, x: string, m: string, y: string, e: string)
    ensures p + x + m + y + e == p + (x + (m + (y + e)))
  {
    var q := p + x;
    assert (q + m + y) + e == (q + m) + (y + e);
    assert (q + m) + (y + e) == q + (m + (y + e));
    assert (p + x) + (m + (y + e)) == p + (x + (m + (y + e)));
  }

  lemma DropPrefix(p: string, x: string, y: string)
    requires p + x == p + y
    ensures x == y
  {
    assert x == (p + x)[|p|..];
    assert y == (p + y)[|p|..];
  }

  /** The two numbers of a selection line can be read back from it. */
  lemma SelectedLineReadsBack(a: nat, b: nat, c: nat, d: nat)
    requires SelectedLine(a, b) == SelectedLine(c, d)
    ensures a == c && b == d
  {
    TwoNumbersReadBack(SelectedPrefix, OutOf, AvailableSuffix, a, b, c, d);
  }

  /** As written, the line always claims that every available table is
      selected, so it differs from the intended line whenever fewer tables
      than the registry holds are selected. */
  lemma SelectedTablesLineAsWrittenClaimsAll(selectedTables: seq<string>, a: nat, b: nat)
    ensures SelectedTablesLineAsWritten(selectedTables) == SelectedLine(a, b) ==> a == b
    ensures |selectedTables| != |TableMappings.AvailableTables| ==>
      SelectedTablesLineAsWritten(selectedTables) != SelectedTablesLine(selectedTables)
  {
    if SelectedTablesLineAsWritten(selectedTables) == SelectedLine(a, b) {
      SelectedLineReadsBack(|selectedTables|, |selectedTables|, a, b);
    }
    if SelectedTablesLineAsWritten(selectedTables) == SelectedTablesLine(selectedTables) {
      SelectedLineReadsBack(|selectedTables|, |selectedTables|, |selectedTables|, |TableMappings.AvailableTables|);
    }
  }

  /** The corrected line states the selection size and the registry size. */
  lemma SelectedTablesLineStatesBoth(selectedTables: seq<string>, a: nat, b: nat)
    requires SelectedTablesLine(selectedTables) == SelectedLine(a, b)
    ensures a == |selectedTables| && b == |TableMappings.AvailableTables| == 4
  {
    SelectedLineReadsBack(|selectedTables|, |TableMappings.AvailableTables|, a, b);
  }

  /** The heading part of the statistics text, up to the data sources; its
      selection line is the one the code prints. */
  function Intro(fromDate: string, toDate: string, selectedTables: seq<string>, s: StatsInput): string {
    DateLines(fromDate, toDate) + SelectedTablesLineAsWritten(selectedTables) + OverallLines(s)
  }

  function DateLines(fromDate: string, toDate: string): string {
    "\n## \U{1F4CA} Analysis Summary\n\n### \U{1F5D3}\U{FE0F} Date Range\n"
    + "- **From:** " + fromDate + "\n"
    + "- **To:** " + toDate + "\n"
  }

  function OverallLines(s: StatsInput): string {
    "\n### \U{1F4C8} Overall Statistics\n"
    + "- **Total Changes:** " + IntWithCommas(s.totalChanges.GetOr(0)) + "\n"
    + "- **Unique Fields Modified:** " + IntToString(s.uniqueFields.GetOr(0)) + "\n"
    + "- **Date Range (Days):** " + IntToString(s.dateRangeDays.GetOr(0)) + "\n"
    + "- **Average Changes/Day:** " + s.changesPerDay.GetOr("0.0") + "\n"
    + "\n### \U{1F5C2}\U{FE0F} Changes by Data Source\n"
  }

  /** One data-source line: the cleaned-up table name, the count with
      thousands separators and its share of all changes. */
  function SourceLine(t: Tally.Tally, total: int, percent: PercentText): string {
    "- **" + TableMappings.CleanTableName(t.0) + ":** " + IntWithCommas(t.1)
    + " changes (" + percent(t.1, total) + "%)\n"
  }

  /** The data-source lines, or the fallback line when there are no counts;
      `None` for the division by a zero total. */
  function SourcesSection(counts: seq<Tally.Tally>, total: int, percent: PercentText): (r: Option<string>)
    ensures |counts| == 0 ==> r == Some(NoSourcesLine)
    ensures |counts| > 0 ==> (r.None? <==> total == 0)
    ensures r.Some? && |counts| > 0 ==>
      r.value == Concat(seq(|counts|, i requires 0 <= i < |counts| => SourceLine(counts[i], total, percent)))
  {
    if |counts| == 0 then Some(NoSourcesLine)
    else if total == 0 then None
    else Some(Concat(seq(|counts|, i requires 0 <= i < |counts| => SourceLine(counts[i], total, percent))))
  }

  function Outro(s: StatsInput): string {
    "\n\n### \U{1F465} User Activity\n"
    + "- **Active Users:** " + IntToString(s.uniqueUsers.GetOr(0)) + "\n"
    + "- **Most Active User:** " + s.mostActiveUser.GetOr("N/A")
    + " (" + IntToString(s.mostActiveUserChanges.GetOr(0)) + " changes)\n"
    + "\n### \U{1F3C6} Top Modified Fields\n"
  }

  /** One line per top field, for the first ten at most. */
  function TopFieldLines(top: seq<(string, int)>): (r: seq<string>)
    ensures |r| <= TopFieldsShown
    ensures |r| == if |top| <= TopFieldsShown then |top| else TopFieldsShown
    ensures forall i :: 0 <= i < |r| ==> StartsWith(r[i], "- **" + top[i].0 + ":** ")
  {
    var shown := Tally.Head(top, TopFieldsShown);
    seq(|shown|, i requires 0 <= i < |shown| =>
      var line := "- **" + shown[i].0 + ":** " + IntToString(shown[i].1) + " changes\n";
      assert line[..|"- **" + shown[i].0 + ":** "|] == "- **" + shown[i].0 + ":** ";
      line)
  }

  function TopSection(top: seq<(string, int)>): string {
    Concat(TopFieldLines(top)) + (if |top| == 0 then NoFieldsLine else "")
  }

  /** The statistics text; `None` when the code raises: a change whose table
      is None, or per-table counts to divide by a total of zero. */
  function FormatSummaryStats(s: StatsInput, fromDate: string, toDate: string,
                              selectedTables: seq<string>, percent: PercentText): (r: Option<string>)
    ensures r.None? <==>
      s.changes.Some? && |s.changes.value| > 0 &&
      ((exists c :: c in s.changes.value && c.sourceTable.Null?) || s.totalChanges == Some(0))
  {
    var counts := TableCounts(s);
    if counts.None? then None
    else
      assert s.changes.Some? ==> (|counts.value| == 0 <==> |s.changes.value| == 0) by {
        if s.changes.Some? {
          TableCountsSpec(s);
        }
      }
      var src := SourcesSection(counts.value, s.totalChanges.GetOr(1), percent);
      if src.None? then None
      else Some(Intro(fromDate, toDate, selectedTables, s) + src.value + Outro(s)
                + TopSection(s.topFields.GetOr([])))
  }

  /** The statistics text is the heading part, the data-source lines of the
      per-table counts (or their fallback line when there is no changes
      list), the user part and at most ten top-field lines (or their
      fallback line when there are none). */
  lemma SummaryStatsSections(s: StatsInput, fromDate: string, toDate: string,
                             selectedTables: seq<string>, percent: PercentText)
    requires FormatSummaryStats(s, fromDate, toDate, selectedTables, percent).Some?
    ensures var text := FormatSummaryStats(s, fromDate, toDate, selectedTables, percent).value;
      var src := SourcesSection(TableCounts(s).value, s.totalChanges.GetOr(1), percent);
      && src.Some?
      && text == Intro(fromDate, toDate, selectedTables, s) + src.value + Outro(s)
                 + TopSection(s.topFields.GetOr([]))
      && StartsWith(text, Intro(fromDate, toDate, selectedTables, s))
      && (s.changes.None? ==> Contains(text, NoSourcesLine))
      && (s.topFields.GetOr([]) == [] ==> Contains(text, NoFieldsLine))
  {
    SummaryStatsText(s, fromDate, toDate, selectedTables, percent);
    var counts := TableCounts(s).value;
    var src := SourcesSection(counts, s.totalChanges.GetOr(1), percent).value;
    var top := TopSection(s.topFields.GetOr([]));
    if s.changes.None? {
      assert counts == [];
    }
    if s.topFields.GetOr([]) == [] {
      assert Concat(TopFieldLines([])) == "";
    }
    Sections(Intro(fromDate, toDate, selectedTables, s), src, Outro(s), top);
  }

  /** The statistics text prints the selected-tables line as the code
      writes it, with the selection size in both places. */
  lemma SummaryStatsShowsSelection(s: StatsInput, fromDate: string, toDate: string,
                                   selectedTables: seq<string>, percent: PercentText)
    requires FormatSummaryStats(s, fromDate, toDate, selectedTables, percent).Some?
    ensures Contains(FormatSummaryStats(s, fromDate, toDate, selectedTables, percent).value,
                     SelectedLine(|selectedTables|, |selectedTables|))
  {
    SummaryStatsText(s, fromDate, toDate, selectedTables, percent);
    var src := SourcesSection(TableCounts(s).value, s.totalChanges.GetOr(1), percent).value;
    ContainsInFirst(DateLines(fromDate, toDate), SelectedTablesLineAsWritten(selectedTables), OverallLines(s),
                    src, Outro(s), TopSection(s.topFields.GetOr([])));
  }

  lemma ContainsInFirst(a: string, t: string, b: string, x: string, y: string, z: string)
    ensures Contains((a + t + b) + x + y + z, t)
  {
    assert (a + t + b) + x + y + z == a + t + (b + x + y + z);
    ContainsMiddle(a, t, b + x + y + z);
  }

  /** The pieces the statistics text is made of. */
  lemma SummaryStatsText(s: StatsInput, fromDate: string, toDate: string,
                         selectedTables: seq<string>, percent: PercentText)
    requires FormatSummaryStats(s, fromDate, toDate, selectedTables, percent).Some?
    ensures var src := SourcesSection(TableCounts(s).value, s.totalChanges.GetOr(1), percent);
      && src.Some?
      && FormatSummaryStats(s, fromDate, toDate, selectedTables, percent).value
         == Intro(fromDate, toDate, selectedTables, s) + src.value + Outro(s) + TopSection(s.topFields.GetOr([]))
  {
  }

  lemma Sections(intro: string, src: string, outro: string, top: string)
    ensures StartsWith(intro + src + outro + top, intro)
    ensures src == NoSourcesLine ==> Contains(intro + src + outro + top, NoSourcesLine)
    ensures top == NoFieldsLine ==> Contains(intro + src + outro + top, NoFieldsLine)
  {
    var text := intro + src + outro + top;
    assert text == intro + (src + outro + top);
    assert text[..|intro|] == intro;
    if src == NoSourcesLine {
      assert text == intro + src + (outro + top);
      ContainsMiddle(intro, src, outro + top);
    }
    if top == NoFieldsLine {
      assert text == (intro + src + outro) + top + "";
      ContainsMiddle(intro + src + outro, top, "");
    }
  }

  /** The dictionary the campaign summary query returns carries none of the
      keys 'changes', 'top_fields', 'date_range_days', 'changes_per_day' or
      'most_active_user*' that the text reads. */
  function StatsFromSummary(q: Queries.SummaryStats): StatsInput {
    StatsInput(None, Some(q.totalChanges), Some(q.uniqueFields), None, None,
               Some(q.uniqueUsers), None, None, None)
  }

  /** Rendering the campaign summary query's own statistics never raises and
      always shows both fallback lines, whatever the records were. */
  lemma SummaryOfQueryStatsShowsFallbacks(cs: seq<Queries.ChangeRecord>, fromDate: string, toDate: string,
                                          selectedTables: seq<string>, percent: PercentText)
    ensures var r := FormatSummaryStats(StatsFromSummary(Queries.GetCampaignSummaryStats(cs)),
                                        fromDate, toDate, selectedTables, percent);
      r.Some? && Contains(r.value, NoSourcesLine) && Contains(r.value, NoFieldsLine)
  {
    var st := StatsFromSummary(Queries.GetCampaignSummaryStats(cs));
    SummaryStatsSections(st, fromDate, toDate, selectedTables, percent);
  }

  // ---------------------------------------------------------------------
  // format_connection_status

  /** The connection-status dictionary; `success` is false when missing. */
  datatype ConnectionStatus = ConnectionStatus(
    success: bool, host: string, port: int, database: string, message: Slot)

  const ConnectedPrefix := "✅ Connected to "
  const FailedPrefix := "❌ Connection failed: "

  function FormatConnectionStatus(st: ConnectionStatus): (r: string)
    ensures st.success ==> StartsWith(r, ConnectedPrefix)
    ensures !st.success ==> StartsWith(r, FailedPrefix)
  {
    if st.success then ConnectedPrefix + st.host + ":" + IntToString(st.port) + "/" + st.database
    else FailedPrefix + st.message.StrOf("Unknown error")
  }

  /** The status line tells success from failure by its first character, a
      success names host, port and database in that order, and a failure
      carries the message, "Unknown error" when there is none. */
  lemma ConnectionStatusReadsBack(st: ConnectionStatus)
    ensures var r := FormatConnectionStatus(st);
      && (StartsWith(r, ConnectedPrefix) <==> st.success)
      && (st.success ==> r[|ConnectedPrefix|..] == st.host + ":" + IntToString(st.port) + "/" + st.database)
      && (!st.success ==> r[|FailedPrefix|..] == st.message.StrOf("Unknown error"))
      && (!st.success && st.message.Absent? ==> r[|FailedPrefix|..] == "Unknown error")
  {
    var r := FormatConnectionStatus(st);
    if !st.success {
      assert r[0] == FailedPrefix[0] != ConnectedPrefix[0];
    }
  }
}
