/**
 * What the dashboard computes from the filtered rows: the fallback for an
 * empty date-range choice (app.py lines 78-80), the per-range totals (lines
 * 98-101), the display columns and their human-readable names (lines
 * 108-114), and the long-form chart data (lines 128-143).
 */
module Aggregation {
  import opened Text
  import opened Schema
  import opened Filters

  /** The two series of the chart. */
  datatype Metric = Registrations | Vaccinations

  /** One row of `chart_data`: `Date Range`, `Metric`, `Count`. */
  datatype ChartRow = ChartRow(dateRange: string, metric: Metric, count: int)

  /** The two numbers shown for one range in the summary. */
  datatype RangeTotals = RangeTotals(dateRange: string, reg: int, vac: int)

  /** The effective date-range choice and whether the "showing all" warning was raised. */
  datatype RangeChoice = RangeChoice(ranges: seq<string>, warned: bool)

  /** `table_columns` before any range is added (line 108). */
  const CATEGORY_COLUMNS: seq<string> := ["UC", "Epi_Mis_Facility_Name", "VaccinatorName"]

  function CellValue(c: Cell): int
  {
    match c
    case Blank => 0
    case Count(n) => n
  }

  /** Every row has a cell in column `col` (the column exists in the table). */
  predicate HasColumn(rows: seq<Row>, col: string)
  {
    forall x :: x in rows ==> col in x.cells
  }

  /**
   * `rows[col].sum()` with blank cells skipped: never negative when no count
   * is, and 0 when every cell of the column is blank.
   */
  function ColumnSum(rows: seq<Row>, col: string): (r: int)
    requires HasColumn(rows, col)
    ensures NonNegative(rows, col) ==> r >= 0
    ensures (forall x :: x in rows ==> x.cells[col] == Blank) ==> r == 0
  {
    if rows == [] then 0 else CellValue(rows[0].cells[col]) + ColumnSum(rows[1..], col)
  }

  /** The total of a concatenation of row sequences is the sum of the parts' totals. */
  lemma {:induction false} SumAppend(a: seq<Row>, b: seq<Row>, col: string)
    requires HasColumn(a, col) && HasColumn(b, col)
    ensures HasColumn(a + b, col)
    ensures ColumnSum(a + b, col) == ColumnSum(a, col) + ColumnSum(b, col)
  {
    if a == [] {
      assert a + b == b;
    } else {
      assert (a + b)[1..] == a[1..] + b;
      SumAppend(a[1..], b, col);
    }
  }

  /** A blank cell contributes nothing: the total is that of the row without it. */
  lemma BlankCountsZero(a: seq<Row>, x: Row, b: seq<Row>, col: string)
    requires HasColumn(a, col) && HasColumn(b, col) && col in x.cells && x.cells[col] == Blank
    ensures HasColumn(a + [x] + b, col)
    ensures ColumnSum(a + [x] + b, col) == ColumnSum(a + b, col)
  {
    SumAppend(a, [x], col);
    SumAppend(a + [x], b, col);
    SumAppend(a, b, col);
  }

  /** Two rows with Reg/Vac cells (10, 8) and (5, 4) for one range total 15 and 12. */
  lemma TwoRowTotalsExample()
    ensures var cells1 := map["Reg1_Jan-7_Jan" := Count(10), "Vac1_Jan-7_Jan" := Count(8)];
      var cells2 := map["Reg1_Jan-7_Jan" := Count(5), "Vac1_Jan-7_Jan" := Count(4)];
      var rows := [Row("UC1", "F1", "V1", cells1), Row("UC1", "F2", "V2", cells2)];
      && HasColumn(rows, "Reg1_Jan-7_Jan") && HasColumn(rows, "Vac1_Jan-7_Jan")
      && ColumnSum(rows, "Reg1_Jan-7_Jan") == 15 && ColumnSum(rows, "Vac1_Jan-7_Jan") == 12
  {
    var cells1 := map["Reg1_Jan-7_Jan" := Count(10), "Vac1_Jan-7_Jan" := Count(8)];
    var cells2 := map["Reg1_Jan-7_Jan" := Count(5), "Vac1_Jan-7_Jan" := Count(4)];
    var rows := [Row("UC1", "F1", "V1", cells1), Row("UC1", "F2", "V2", cells2)];
    var reg, vac := "Reg1_Jan-7_Jan", "Vac1_Jan-7_Jan";
    assert reg != vac by {
      assert reg[0] != vac[0];
    }
    assert rows[1..] == [rows[1]] && rows[1..][1..] == [];
    assert ColumnSum(rows[1..], reg) == 5 && ColumnSum(rows[1..], vac) == 4;
  }

  /** Every cell of `col` holds a count that is not negative. */
  predicate NonNegative(rows: seq<Row>, col: string)
    requires HasColumn(rows, col)
  {
    forall x :: x in rows ==> CellValue(x.cells[col]) >= 0
  }

  /** With non-negative counts, a filtered total lies between 0 and the table's total. */
  lemma {:induction false} FilteredSumBounded(rows: seq<Row>, sel: Selection, col: string)
    requires HasColumn(rows, col) && NonNegative(rows, col)
    ensures HasColumn(Conforming(rows, sel), col)
    ensures 0 <= ColumnSum(Conforming(rows, sel), col) <= ColumnSum(rows, col)
  {
    if rows != [] {
      assert rows[0] in rows;
      assert forall x :: x in rows[1..] ==> x in rows;
      FilteredSumBounded(rows[1..], sel, col);
      if Admits(sel, rows[0]) {
        var kept := [rows[0]] + Conforming(rows[1..], sel);
        assert kept[0] == rows[0] && kept[1..] == Conforming(rows[1..], sel);
      }
    }
  }

  /**
   * Lines 78-80: a multiselect left empty falls back to every discovered range
   * and raises the warning; a non-empty choice is used as it is.
   */
  function EffectiveRanges(chosen: seq<string>, ranges: seq<string>): (r: RangeChoice)
    requires forall dr :: dr in chosen ==> dr in ranges
    ensures r.warned <==> chosen == []
    ensures chosen != [] ==> r.ranges == chosen
    ensures chosen == [] ==> r.ranges == ranges
    ensures forall dr :: dr in r.ranges ==> dr in ranges
    ensures r.ranges == [] <==> ranges == []
  {
    if chosen == [] then RangeChoice(ranges, true)
    else
      assert chosen[0] in ranges;
      RangeChoice(chosen, false)
  }

  /** `date_range.replace('_', ' ')`: the label shown for a range. */
  function Label(dr: string): (r: string)
    ensures |r| == |dr| && '_' !in r
  {
    Replace(dr, '_', ' ')
  }

  /** `f'Reg ({label})'` / `f'Vac ({label})'`: the display name of a range's column. */
  function DisplayName(prefix: string, dr: string): (r: string)
    ensures |r| == |prefix| + |dr| + 3
    ensures r[..|prefix|] == prefix && r[|prefix|..|prefix| + 2] == " (" && r[|r| - 1] == ')'
    ensures '_' !in r[|prefix|..]
  {
    prefix + " (" + Label(dr) + ")"
  }

  /** Reading a display name back: strip `Reg (`/`Vac (` and `)`, then spaces back to `_`. */
  function RangeOfDisplayName(name: string): Option<string>
  {
    if |name| >= 6 && (name[..5] == REG_PREFIX + " (" || name[..5] == VAC_PREFIX + " (") && name[|name| - 1] == ')'
    then Some(Replace(name[5..|name| - 1], ' ', '_'))
    else None
  }

  /** The label of a range without spaces gives the range back. */
  lemma LabelRoundTrip(dr: string)
    requires ' ' !in dr
    ensures Replace(Label(dr), ' ', '_') == dr
  {
    ReplaceRoundTrip(dr, '_', ' ');
  }

  /** Renaming for display and reading the name back recovers the range, for both columns. */
  lemma DisplayNameRoundTrip(dr: string)
    requires ' ' !in dr
    ensures RangeOfDisplayName(DisplayName(REG_PREFIX, dr)) == Some(dr)
    ensures RangeOfDisplayName(DisplayName(VAC_PREFIX, dr)) == Some(dr)
  {
    LabelRoundTrip(dr);
    var reg, vac := DisplayName(REG_PREFIX, dr), DisplayName(VAC_PREFIX, dr);
    assert reg[5..|reg| - 1] == Label(dr);
    assert vac[5..|vac| - 1] == Label(dr);
  }

  /** Every chosen range has a column pair, and both columns exist for every row. */
  predicate Covers(rows: seq<Row>, d2c: map<string, ColumnPair>, chosen: seq<string>)
  {
    forall dr :: dr in chosen ==> dr in d2c && HasColumn(rows, d2c[dr].reg) && HasColumn(rows, d2c[dr].vac)
  }

  /** Lines 98-101: for each chosen range, in order, the Reg and Vac totals over the filtered rows. */
  method SummaryTotals(filtered: seq<Row>, chosen: seq<string>, d2c: map<string, ColumnPair>)
    returns (totals: seq<RangeTotals>)
    requires Covers(filtered, d2c, chosen)
    ensures |totals| == |chosen|
    ensures forall i :: 0 <= i < |chosen| ==>
      totals[i] == RangeTotals(chosen[i], ColumnSum(filtered, d2c[chosen[i]].reg), ColumnSum(filtered, d2c[chosen[i]].vac))
  {
    totals := [];
    for idx := 0 to |chosen|
      invariant |totals| == idx
      invariant forall i :: 0 <= i < idx ==>
        totals[i] == RangeTotals(chosen[i], ColumnSum(filtered, d2c[chosen[i]].reg), ColumnSum(filtered, d2c[chosen[i]].vac))
    {
      var pair := d2c[chosen[idx]];
      var regTotal := ColumnSum(filtered, pair.reg);
      var vacTotal := ColumnSum(filtered, pair.vac);
      totals := totals + [RangeTotals(chosen[idx], regTotal, vacTotal)];
    }
  }

  /**
   * Lines 108-114: the category columns followed by the Reg/Vac pair of each
   * chosen range, and the map from those pair columns to their display names.
   */
  method DisplayColumns(chosen: seq<string>, d2c: map<string, ColumnPair>)
    returns (tableColumns: seq<string>, rename: map<string, string>)
    requires forall dr :: dr in chosen ==> dr in d2c && d2c[dr] == PairFor(dr)
    ensures |tableColumns| == 3 + 2 * |chosen|
    ensures tableColumns[..3] == CATEGORY_COLUMNS
    ensures forall i :: 0 <= i < |chosen| ==>
      tableColumns[3 + 2 * i] == PairFor(chosen[i]).reg && tableColumns[4 + 2 * i] == PairFor(chosen[i]).vac
    ensures forall c :: c in rename <==> exists dr :: dr in chosen && (c == PairFor(dr).reg || c == PairFor(dr).vac)
    ensures forall dr :: dr in chosen ==>
      rename[PairFor(dr).reg] == DisplayName(REG_PREFIX, dr) && rename[PairFor(dr).vac] == DisplayName(VAC_PREFIX, dr)
  {
    tableColumns := CATEGORY_COLUMNS;
    rename := map[];
    for idx := 0 to |chosen|
      invariant |tableColumns| == 3 + 2 * idx
      invariant tableColumns[..3] == CATEGORY_COLUMNS
      invariant forall i :: 0 <= i < idx ==>
        tableColumns[3 + 2 * i] == PairFor(chosen[i]).reg && tableColumns[4 + 2 * i] == PairFor(chosen[i]).vac
      invariant forall c :: c in rename <==> exists dr :: dr in chosen[..idx] && (c == PairFor(dr).reg || c == PairFor(dr).vac)
      invariant forall dr :: dr in chosen[..idx] ==>
        rename[PairFor(dr).reg] == DisplayName(REG_PREFIX, dr) && rename[PairFor(dr).vac] == DisplayName(VAC_PREFIX, dr)
    {
      var dr := chosen[idx];
      var pair := d2c[dr];
      tableColumns := tableColumns + [pair.reg, pair.vac];
      ghost var before := rename;
      rename := rename[pair.reg := DisplayName(REG_PREFIX, dr)][pair.vac := DisplayName(VAC_PREFIX, dr)];
      assert chosen[..idx + 1] == chosen[..idx] + [dr];
      RenameStep(before, chosen[..idx], dr);
    }
    assert chosen[..|chosen|] == chosen;
  }

  /** Adding one range's two names to the rename map keeps the names of the ranges already in it. */
  lemma RenameStep(before: map<string, string>, done: seq<string>, dr: string)
    requires forall e :: e in done ==>
      && PairFor(e).reg in before && before[PairFor(e).reg] == DisplayName(REG_PREFIX, e)
      && PairFor(e).vac in before && before[PairFor(e).vac] == DisplayName(VAC_PREFIX, e)
    ensures forall e :: e in done + [dr] ==>
      var rename := before[PairFor(dr).reg := DisplayName(REG_PREFIX, dr)][PairFor(dr).vac := DisplayName(VAC_PREFIX, dr)];
      rename[PairFor(e).reg] == DisplayName(REG_PREFIX, e) && rename[PairFor(e).vac] == DisplayName(VAC_PREFIX, e)
  {
    var rename := before[PairFor(dr).reg := DisplayName(REG_PREFIX, dr)][PairFor(dr).vac := DisplayName(VAC_PREFIX, dr)];
    forall e | e in done + [dr]
      ensures rename[PairFor(e).reg] == DisplayName(REG_PREFIX, e)
      ensures rename[PairFor(e).vac] == DisplayName(VAC_PREFIX, e)
    {
      PairNamesDistinct(e, dr);
      PairNamesDistinct(dr, e);
      if e != dr {
        assert e in done;
      }
    }
  }

  /** `.rename(columns=rename_dict)` on the column list: renamed where the map says, kept otherwise. */
  function RenamedHeader(tableColumns: seq<string>, rename: map<string, string>): (r: seq<string>)
    ensures |r| == |tableColumns|
    ensures forall i :: 0 <= i < |r| ==> r[i] == if tableColumns[i] in rename then rename[tableColumns[i]] else tableColumns[i]
  {
    seq(|tableColumns|, i requires 0 <= i < |tableColumns| =>
      if tableColumns[i] in rename then rename[tableColumns[i]] else tableColumns[i])
  }

  /**
   * Lines 128-143: for each chosen range, in order, a Registrations row then a
   * Vaccinations row, labelled with the range's label and carrying its totals.
   */
  method BuildChart(filtered: seq<Row>, chosen: seq<string>, d2c: map<string, ColumnPair>)
    returns (chart: seq<ChartRow>)
    requires Covers(filtered, d2c, chosen)
    ensures |chart| == 2 * |chosen|
    ensures forall i :: 0 <= i < |chosen| ==>
      && chart[2 * i] == ChartRow(Label(chosen[i]), Registrations, ColumnSum(filtered, d2c[chosen[i]].reg))
      && chart[2 * i + 1] == ChartRow(Label(chosen[i]), Vaccinations, ColumnSum(filtered, d2c[chosen[i]].vac))
  {
    chart := [];
    for idx := 0 to |chosen|
      invariant |chart| == 2 * idx
      invariant forall i :: 0 <= i < idx ==>
        && chart[2 * i] == ChartRow(Label(chosen[i]), Registrations, ColumnSum(filtered, d2c[chosen[i]].reg))
        && chart[2 * i + 1] == ChartRow(Label(chosen[i]), Vaccinations, ColumnSum(filtered, d2c[chosen[i]].vac))
    {
      var dr := chosen[idx];
      var pair := d2c[dr];
      chart := chart + [
        ChartRow(Label(dr), Registrations, ColumnSum(filtered, pair.reg)),
        ChartRow(Label(dr), Vaccinations, ColumnSum(filtered, pair.vac))
      ];
    }
  }
}
