/**
 * The rows of the cleaned table, the three categorical selections, the
 * conjunctive filter that narrows the table step by step (app.py lines
 * 83-93), and the sorted candidate lists offered for each selection
 * (lines 68-74).
 */
module Filters {
  import opened Text

  /** A cell of a `Reg`/`Vac` column; a blank cell is skipped by `.sum()`, i.e. counts 0. */
  datatype Cell = Blank | Count(n: int)

  /**
   * A row of the table: the `UC`, `Epi_Mis_Facility_Name` and `VaccinatorName`
   * values, and the count cells keyed by cleaned column name.
   */
  datatype Row = Row(uc: string, facility: string, vaccinator: string, cells: map<string, Cell>)

  /** The three filter dimensions, in the order they are applied. */
  datatype Category = Uc | Facility | Vaccinator

  /** The three select-box values; `"All"` means the dimension is not constrained. */
  datatype Selection = Selection(uc: string, facility: string, vaccinator: string)

  const ALL := "All"

  const EVERYTHING := Selection(ALL, ALL, ALL)

  function Field(row: Row, c: Category): string
  {
    match c
    case Uc => row.uc
    case Facility => row.facility
    case Vaccinator => row.vaccinator
  }

  function Chosen(sel: Selection, c: Category): string
  {
    match c
    case Uc => sel.uc
    case Facility => sel.facility
    case Vaccinator => sel.vaccinator
  }

  /** `sel` with dimension `c` set to `v`. */
  function Constrain(sel: Selection, c: Category, v: string): Selection
  {
    match c
    case Uc => sel.(uc := v)
    case Facility => sel.(facility := v)
    case Vaccinator => sel.(vaccinator := v)
  }

  /** Dimension `c` of `sel` is unconstrained or `row` has the chosen value. */
  predicate Meets(sel: Selection, row: Row, c: Category)
  {
    Chosen(sel, c) == ALL || Field(row, c) == Chosen(sel, c)
  }

  /** `row` satisfies every active selection. */
  predicate Admits(sel: Selection, row: Row)
  {
    Meets(sel, row, Uc) && Meets(sel, row, Facility) && Meets(sel, row, Vaccinator)
  }

  /** `df[df[column] == v]`: the rows with value `v` in dimension `c`, in table order. */
  function Where(rows: seq<Row>, c: Category, v: string): (r: seq<Row>)
    ensures forall x :: x in r <==> x in rows && Field(x, c) == v
  {
    if rows == [] then []
    else
      assert rows == [rows[0]] + rows[1..];
      (if Field(rows[0], c) == v then [rows[0]] else []) + Where(rows[1..], c, v)
  }

  /**
   * The rows satisfying every active selection, in one pass: exactly the
   * admitted rows, each as often as in the table, in table order.
   */
  function Conforming(rows: seq<Row>, sel: Selection): (r: seq<Row>)
    ensures IsSubsequence(r, rows)
    ensures forall x :: x in r <==> x in rows && Admits(sel, x)
    ensures forall x :: multiset(r)[x] == if Admits(sel, x) then multiset(rows)[x] else 0
    ensures |r| <= |rows|
  {
    if rows == [] then []
    else
      var rest := Conforming(rows[1..], sel);
      assert rows == [rows[0]] + rows[1..];
      SubsequenceLength(rest, rows[1..]);
      if Admits(sel, rows[0]) then [rows[0]] + rest else rest
  }

  /** One masking step applied to already-filtered rows adds that dimension to the selection. */
  lemma {:induction false} WhereNarrows(rows: seq<Row>, sel: Selection, c: Category, v: string)
    requires Chosen(sel, c) == ALL && v != ALL
    ensures Where(Conforming(rows, sel), c, v) == Conforming(rows, Constrain(sel, c, v))
  {
    if rows != [] {
      var h, t := rows[0], rows[1..];
      var tight := Constrain(sel, c, v);
      WhereNarrows(t, sel, c, v);
      assert Admits(tight, h) <==> Admits(sel, h) && Field(h, c) == v by {
        match c
        case Uc =>
        case Facility =>
        case Vaccinator =>
      }
      if Admits(sel, h) {
        var kept := [h] + Conforming(t, sel);
        assert kept[0] == h && kept[1..] == Conforming(t, sel);
      }
    }
  }

  lemma {:induction false} ConformingEverything(rows: seq<Row>)
    ensures Conforming(rows, EVERYTHING) == rows
  {
    if rows != [] {
      ConformingEverything(rows[1..]);
      assert rows == [rows[0]] + rows[1..];
    }
  }

  /**
   * Lines 83-93: start from a copy of the table, apply the mask of each
   * dimension whose selection is not `"All"`, and report whether nothing is
   * left (the point where the dashboard stops).
   */
  method ApplyFilters(df: seq<Row>, sel: Selection) returns (filtered: seq<Row>, empty: bool)
    ensures filtered == Conforming(df, sel)
    ensures empty <==> forall x :: x in df ==> !Admits(sel, x)
  {
    filtered := df;
    ghost var applied := EVERYTHING;
    ConformingEverything(df);
    if sel.uc != ALL {
      WhereNarrows(df, applied, Uc, sel.uc);
      filtered := Where(filtered, Uc, sel.uc);
      applied := Constrain(applied, Uc, sel.uc);
    }
    if sel.facility != ALL {
      WhereNarrows(df, applied, Facility, sel.facility);
      filtered := Where(filtered, Facility, sel.facility);
      applied := Constrain(applied, Facility, sel.facility);
    }
    if sel.vaccinator != ALL {
      WhereNarrows(df, applied, Vaccinator, sel.vaccinator);
      filtered := Where(filtered, Vaccinator, sel.vaccinator);
      applied := Constrain(applied, Vaccinator, sel.vaccinator);
    }
    assert applied == sel;
    empty := |filtered| == 0;
    if !empty {
      assert filtered[0] in filtered;
    }
  }

  /** `tight` keeps every active selection of `loose` (and may add more). */
  predicate Tightens(tight: Selection, loose: Selection)
  {
    forall c: Category :: Chosen(loose, c) == ALL || Chosen(tight, c) == Chosen(loose, c)
  }

  /** Filtering by a tighter selection is filtering the looser result again. */
  lemma {:induction false} TighterFiltersFiltered(rows: seq<Row>, tight: Selection, loose: Selection)
    requires Tightens(tight, loose)
    ensures Conforming(rows, tight) == Conforming(Conforming(rows, loose), tight)
  {
    if rows != [] {
      TighterFiltersFiltered(rows[1..], tight, loose);
      if Admits(tight, rows[0]) {
        assert Meets(loose, rows[0], Uc) && Meets(loose, rows[0], Facility) && Meets(loose, rows[0], Vaccinator) by {
          assert Meets(tight, rows[0], Uc) && Meets(tight, rows[0], Facility) && Meets(tight, rows[0], Vaccinator);
          assert Chosen(loose, Uc) == ALL || Chosen(tight, Uc) == Chosen(loose, Uc);
          assert Chosen(loose, Facility) == ALL || Chosen(tight, Facility) == Chosen(loose, Facility);
          assert Chosen(loose, Vaccinator) == ALL || Chosen(tight, Vaccinator) == Chosen(loose, Vaccinator);
        }
      }
    }
  }

  /** Adding a constraint never lets more rows through, and keeps their order. */
  lemma FilterMonotone(rows: seq<Row>, tight: Selection, loose: Selection)
    requires Tightens(tight, loose)
    ensures IsSubsequence(Conforming(rows, tight), Conforming(rows, loose))
    ensures |Conforming(rows, tight)| <= |Conforming(rows, loose)|
  {
    TighterFiltersFiltered(rows, tight, loose);
  }

  /** Filtering twice with the same selections is filtering once. */
  lemma FilterIdempotent(rows: seq<Row>, sel: Selection)
    ensures Conforming(Conforming(rows, sel), sel) == Conforming(rows, sel)
  {
    TighterFiltersFiltered(rows, sel, sel);
  }

  /** The column's values in table order, repetitions kept; `SortedUnique` then drops them, as `unique()` and `sorted` do together. */
  function Column(rows: seq<Row>, c: Category): (r: seq<string>)
    ensures forall v :: v in r <==> exists x :: x in rows && Field(x, c) == v
  {
    if rows == [] then []
    else
      assert rows == [rows[0]] + rows[1..];
      [Field(rows[0], c)] + Column(rows[1..], c)
  }

  /** `ucs` (line 68): the distinct `UC` values, sorted. */
  function Ucs(rows: seq<Row>): (r: seq<string>)
    ensures StrictlySorted(r)
    ensures forall u :: u in r <==> exists x :: x in rows && x.uc == u
  {
    SortedUnique(Column(rows, Uc))
  }

  /**
   * `facilities` (line 71): sorted distinct facilities of all rows when the UC
   * selection is `"All"`, otherwise of the rows with that UC.
   */
  function Facilities(rows: seq<Row>, uc: string): (r: seq<string>)
    ensures StrictlySorted(r)
    ensures forall f :: f in r <==> exists x :: x in rows && (uc == ALL || x.uc == uc) && x.facility == f
  {
    if uc == ALL then SortedUnique(Column(rows, Facility))
    else SortedUnique(Column(Where(rows, Uc, uc), Facility))
  }

  /**
   * `vaccinators` (line 74) as written: all vaccinators only when both UC and
   * facility are `"All"`; otherwise the rows whose UC and facility equal the
   * two selected strings literally, `"All"` included.
   */
  function Vaccinators(rows: seq<Row>, uc: string, facility: string): (r: seq<string>)
    ensures StrictlySorted(r)
    ensures forall v :: v in r <==>
      exists x :: x in rows && ((uc == ALL && facility == ALL) || (x.uc == uc && x.facility == facility)) && x.vaccinator == v
  {
    if uc == ALL && facility == ALL then SortedUnique(Column(rows, Vaccinator))
    else SortedUnique(Column(Where(Where(rows, Uc, uc), Facility, facility), Vaccinator))
  }

  /**
   * The cascade as the dropdowns evidently intend it: the vaccinators of the rows
   * that the current UC and facility selections let through.
   */
  function CascadedVaccinators(rows: seq<Row>, uc: string, facility: string): (r: seq<string>)
    ensures StrictlySorted(r)
  {
    SortedUnique(Column(Conforming(rows, Selection(uc, facility, ALL)), Vaccinator))
  }

  /** A facility is offered exactly when choosing it (under the chosen UC) leaves some row. */
  lemma FacilityOffered(rows: seq<Row>, uc: string, f: string)
    requires f != ALL
    ensures f in Facilities(rows, uc) <==> Conforming(rows, Selection(uc, f, ALL)) != []
  {
    var kept := Conforming(rows, Selection(uc, f, ALL));
    if f in Facilities(rows, uc) {
      var x :| x in rows && (uc == ALL || x.uc == uc) && x.facility == f;
      assert Admits(Selection(uc, f, ALL), x);
      assert x in kept;
    }
    if kept != [] {
      assert kept[0] in kept;
    }
  }

  /** A vaccinator is offered by the corrected cascade exactly when choosing it leaves some row. */
  lemma CascadedVaccinatorOffered(rows: seq<Row>, uc: string, facility: string, v: string)
    requires v != ALL
    ensures v in CascadedVaccinators(rows, uc, facility) <==> Conforming(rows, Selection(uc, facility, v)) != []
  {
    var loose := Conforming(rows, Selection(uc, facility, ALL));
    var kept := Conforming(rows, Selection(uc, facility, v));
    if v in CascadedVaccinators(rows, uc, facility) {
      var x :| x in loose && x.vaccinator == v;
      assert Admits(Selection(uc, facility, v), x);
      assert x in kept;
    }
    if kept != [] {
      assert kept[0] in kept;
      assert kept[0] in loose;
    }
  }

  /**
   * Line 74 as written: with UC `"All"` and a facility chosen, a vaccinator
   * who has rows at that facility is not offered (no row has UC `"All"`).
   */
  lemma VaccinatorMissing()
    ensures var rows := [Row("UC1", "F1", "V1", map[])];
      && Conforming(rows, Selection(ALL, "F1", "V1")) != []
      && "V1" !in Vaccinators(rows, ALL, "F1")
      && "V1" in CascadedVaccinators(rows, ALL, "F1")
  {
    var rows := [Row("UC1", "F1", "V1", map[])];
    assert Admits(Selection(ALL, "F1", "V1"), rows[0]);
    assert rows[0] in Conforming(rows, Selection(ALL, "F1", "V1"));
    CascadedVaccinatorOffered(rows, ALL, "F1", "V1");
  }
}
