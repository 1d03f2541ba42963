/**
 * The dashboard script from top to bottom, with the widgets' values as
 * parameters: clean the column names, discover the date ranges, apply the
 * date-range fallback, filter, stop on an empty result, and otherwise compute
 * the summary totals, the display table's columns and header, and the chart data.
 */
module Dashboard {
  import opened Text
  import opened Columns
  import opened Schema
  import opened Filters
  import opened Aggregation

  /**
   * What one run of the script produces: it halts on an empty filter result,
   * fails when there is no range to lay out (Streamlit refuses `st.columns(0)`),
   * or shows the report.
   */
  datatype Report =
    | Halted(warned: bool)
    | Failed(warned: bool)
    | Shown(warned: bool, ranges: seq<string>, totals: seq<RangeTotals>, tableColumns: seq<string>,
            header: seq<string>, chart: seq<ChartRow>)

  /** A category column's name is not the `Reg`/`Vac` name of any token, so renaming leaves it alone. */
  lemma CategoryColumnsNotRenamed(dr: string)
    requires IsToken(dr)
    ensures forall c :: c in CATEGORY_COLUMNS ==> c != PairFor(dr).reg && c != PairFor(dr).vac
  {
    var reg, vac := PairFor(dr).reg, PairFor(dr).vac;
    assert IsDigit(reg[3]) && IsDigit(vac[3]);
    assert !IsDigit(CATEGORY_COLUMNS[2][3]);
  }

  /** The two columns of every range the summary looks up exist in the filtered rows. */
  lemma ColumnsPresent(cols: seq<string>, rows: seq<Row>, sel: Selection, ranges: seq<string>)
    requires forall x, c :: x in rows && c in cols ==> c in x.cells
    requires forall dr :: dr in ranges ==> PairFor(dr).reg in cols && PairFor(dr).vac in cols
    ensures forall dr :: dr in ranges ==>
      HasColumn(Conforming(rows, sel), PairFor(dr).reg) && HasColumn(Conforming(rows, sel), PairFor(dr).vac)
  {
  }

  /** The renamed header names each range's pair so that reading the name back gives the range. */
  lemma RenamedHeaderReadsBack(ranges: seq<string>, tableColumns: seq<string>, rename: map<string, string>)
    requires forall dr :: dr in ranges ==> IsToken(dr)
    requires |tableColumns| == 3 + 2 * |ranges|
    requires forall i :: 0 <= i < |ranges| ==>
      tableColumns[3 + 2 * i] == PairFor(ranges[i]).reg && tableColumns[4 + 2 * i] == PairFor(ranges[i]).vac
    requires forall dr :: dr in ranges ==>
      && PairFor(dr).reg in rename && rename[PairFor(dr).reg] == DisplayName(REG_PREFIX, dr)
      && PairFor(dr).vac in rename && rename[PairFor(dr).vac] == DisplayName(VAC_PREFIX, dr)
    ensures forall i :: 0 <= i < |ranges| ==>
      && RangeOfDisplayName(RenamedHeader(tableColumns, rename)[3 + 2 * i]) == Some(ranges[i])
      && RangeOfDisplayName(RenamedHeader(tableColumns, rename)[4 + 2 * i]) == Some(ranges[i])
  {
    var header := RenamedHeader(tableColumns, rename);
    forall i | 0 <= i < |ranges|
      ensures RangeOfDisplayName(header[3 + 2 * i]) == Some(ranges[i])
      ensures RangeOfDisplayName(header[4 + 2 * i]) == Some(ranges[i])
    {
      var dr := ranges[i];
      assert dr in ranges;
      assert header[3 + 2 * i] == DisplayName(REG_PREFIX, dr);
      assert header[4 + 2 * i] == DisplayName(VAC_PREFIX, dr);
      TokenHasNoSpace(dr);
      DisplayNameRoundTrip(dr);
    }
  }

  /** Renaming leaves the three category columns at the head of the header unchanged. */
  lemma RenamedHeaderKeepsCategories(ranges: seq<string>, tableColumns: seq<string>, rename: map<string, string>)
    requires forall dr :: dr in ranges ==> IsToken(dr)
    requires |tableColumns| >= 3 && tableColumns[..3] == CATEGORY_COLUMNS
    requires forall c :: c in rename ==> exists dr :: dr in ranges && (c == PairFor(dr).reg || c == PairFor(dr).vac)
    ensures RenamedHeader(tableColumns, rename)[..3] == CATEGORY_COLUMNS
  {
    var header := RenamedHeader(tableColumns, rename);
    forall k | 0 <= k < 3
      ensures header[k] == CATEGORY_COLUMNS[k]
    {
      assert tableColumns[k] == CATEGORY_COLUMNS[k] && CATEGORY_COLUMNS[k] in CATEGORY_COLUMNS;
      forall dr | dr in ranges
        ensures tableColumns[k] != PairFor(dr).reg && tableColumns[k] != PairFor(dr).vac
      {
        CategoryColumnsNotRenamed(dr);
      }
    }
  }

  /**
   * Lines 96-143, once the filter left some rows: the summary totals, the
   * display table's columns and renamed header, and the chart data.
   */
  method Present(filtered: seq<Row>, ranges: seq<string>, d2c: map<string, ColumnPair>)
    returns (totals: seq<RangeTotals>, tableColumns: seq<string>, header: seq<string>, chart: seq<ChartRow>)
    requires forall dr :: dr in ranges ==>
      && dr in d2c && d2c[dr] == PairFor(dr) && IsToken(dr)
      && HasColumn(filtered, PairFor(dr).reg) && HasColumn(filtered, PairFor(dr).vac)
    ensures |totals| == |ranges|
    ensures |chart| == 2 * |ranges|
    ensures |tableColumns| == |header| == 3 + 2 * |ranges|
    ensures tableColumns[..3] == header[..3] == CATEGORY_COLUMNS
    ensures forall i :: 0 <= i < |ranges| ==>
      && totals[i] == RangeTotals(ranges[i], ColumnSum(filtered, PairFor(ranges[i]).reg), ColumnSum(filtered, PairFor(ranges[i]).vac))
      && chart[2 * i] == ChartRow(Label(ranges[i]), Registrations, totals[i].reg)
      && chart[2 * i + 1] == ChartRow(Label(ranges[i]), Vaccinations, totals[i].vac)
      && tableColumns[3 + 2 * i] == PairFor(ranges[i]).reg
      && tableColumns[4 + 2 * i] == PairFor(ranges[i]).vac
      && header[3 + 2 * i] == DisplayName(REG_PREFIX, ranges[i])
      && header[4 + 2 * i] == DisplayName(VAC_PREFIX, ranges[i])
      && RangeOfDisplayName(header[3 + 2 * i]) == Some(ranges[i])
      && RangeOfDisplayName(header[4 + 2 * i]) == Some(ranges[i])
  {
    totals := SummaryTotals(filtered, ranges, d2c);
    var rename;
    tableColumns, rename := DisplayColumns(ranges, d2c);
    header := RenamedHeader(tableColumns, rename);
    RenamedHeaderReadsBack(ranges, tableColumns, rename);
    RenamedHeaderKeepsCategories(ranges, tableColumns, rename);
    chart := BuildChart(filtered, ranges, d2c);
  }

  /**
   * Lines 55-143 with the sidebar's values as parameters. `rawColumns` is the
   * spreadsheet's header; the rows' cells are keyed by the cleaned names.
   */
  method Run(rawColumns: seq<string>, rows: seq<Row>, sel: Selection, chosen: seq<string>) returns (out: Report)
    requires forall x, c :: x in rows && c in NormaliseColumns(rawColumns) ==> c in x.cells
    requires forall dr :: dr in chosen ==> dr in DateRanges(NormaliseColumns(rawColumns))
    requires Conforming(rows, sel) != [] ==>
      forall dr :: dr in (if chosen == [] then DateRanges(NormaliseColumns(rawColumns)) else chosen) ==>
        PairFor(dr).reg in NormaliseColumns(rawColumns) && PairFor(dr).vac in NormaliseColumns(rawColumns)
    ensures out.warned <==> chosen == []
    ensures out.Halted? <==> Conforming(rows, sel) == []
    ensures out.Failed? <==> Conforming(rows, sel) != [] && chosen == [] && DateRanges(NormaliseColumns(rawColumns)) == []
    ensures out.Shown? ==>
      && out.ranges == (if chosen == [] then DateRanges(NormaliseColumns(rawColumns)) else chosen)
      && |out.totals| == |out.ranges|
      && |out.chart| == 2 * |out.ranges|
      && |out.tableColumns| == |out.header| == 3 + 2 * |out.ranges|
      && out.tableColumns[..3] == out.header[..3] == CATEGORY_COLUMNS
    ensures out.Shown? ==> forall i :: 0 <= i < |out.ranges| ==>
      && HasColumn(Conforming(rows, sel), PairFor(out.ranges[i]).reg)
      && HasColumn(Conforming(rows, sel), PairFor(out.ranges[i]).vac)
      && out.totals[i] == RangeTotals(out.ranges[i],
                                      ColumnSum(Conforming(rows, sel), PairFor(out.ranges[i]).reg),
                                      ColumnSum(Conforming(rows, sel), PairFor(out.ranges[i]).vac))
      && out.chart[2 * i] == ChartRow(Label(out.ranges[i]), Registrations, out.totals[i].reg)
      && out.chart[2 * i + 1] == ChartRow(Label(out.ranges[i]), Vaccinations, out.totals[i].vac)
      && out.tableColumns[3 + 2 * i] == PairFor(out.ranges[i]).reg
      && out.tableColumns[4 + 2 * i] == PairFor(out.ranges[i]).vac
      && out.header[3 + 2 * i] == DisplayName(REG_PREFIX, out.ranges[i])
      && out.header[4 + 2 * i] == DisplayName(VAC_PREFIX, out.ranges[i])
      && RangeOfDisplayName(out.header[3 + 2 * i]) == Some(out.ranges[i])
      && RangeOfDisplayName(out.header[4 + 2 * i]) == Some(out.ranges[i])
  {
    var cols := NormaliseColumns(rawColumns);
    var dateRanges := DateRanges(cols);
    var d2c := DateToColumns(dateRanges);
    var choice := EffectiveRanges(chosen, dateRanges);
    var filtered, empty := ApplyFilters(rows, sel);
    if empty {
      return Halted(choice.warned);
    }
    var ranges := choice.ranges;
    if ranges == [] {
      return Failed(choice.warned);
    }
    assert filtered[0] in filtered;
    ColumnsPresent(cols, rows, sel, ranges);
    var totals, tableColumns, header, chart := Present(filtered, ranges, d2c);
    out := Shown(choice.warned, ranges, totals, tableColumns, header, chart);
  }
}
