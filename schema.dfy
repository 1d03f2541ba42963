/**
 * Discovery of the date-range buckets from the cleaned column names
 * (app.py lines 58-61): the `Reg`/`Vac` columns, the leftmost match of
 * `\d{1,2}_[A-Za-z]{3}-\d{1,2}_[A-Za-z]{3}` in each, the sorted distinct
 * tokens, and the synthesised `Reg<token>`/`Vac<token>` column pair per token.
 */
module Schema {
  import opened Text

  datatype Option<T> = None | Some(value: T)

  /** One match of the pattern: `s[start..end]`. */
  datatype Span = Span(start: nat, end: nat)

  /** The two column names `date_to_columns` records for a token. */
  datatype ColumnPair = ColumnPair(reg: string, vac: string)

  const REG_PREFIX := "Reg"
  const VAC_PREFIX := "Vac"

  predicate IsDigit(c: char) { '0' <= c <= '9' }

  predicate IsLetter(c: char) { 'A' <= c <= 'Z' || 'a' <= c <= 'z' }

  /** `\d` repeated exactly `n` times (`n` is 1 or 2) at position `i`. */
  predicate DayAt(s: string, i: nat, n: nat)
    requires n == 1 || n == 2
  {
    i + n <= |s| && IsDigit(s[i]) && (n == 2 ==> IsDigit(s[i + 1]))
  }

  /** `_[A-Za-z]{3}` at position `i`. */
  predicate MonthAt(s: string, i: nat)
  {
    i + 4 <= |s| && s[i] == '_' && IsLetter(s[i + 1]) && IsLetter(s[i + 2]) && IsLetter(s[i + 3])
  }

  /** `\d{1,2}_[A-Za-z]{3}` from `j`, two digits tried before one; the end of the match. */
  function MatchSecondHalf(s: string, j: nat): Option<nat>
  {
    if DayAt(s, j, 2) && MonthAt(s, j + 2) then Some(j + 6)
    else if DayAt(s, j, 1) && MonthAt(s, j + 1) then Some(j + 5)
    else None
  }

  /** `_[A-Za-z]{3}-\d{1,2}_[A-Za-z]{3}` from `i`, just after the first day field. */
  function MatchAfterFirstDay(s: string, i: nat): Option<nat>
  {
    if MonthAt(s, i) && i + 4 < |s| && s[i + 4] == '-' then MatchSecondHalf(s, i + 5) else None
  }

  /**
   * The whole pattern anchored at `p`, as a backtracking engine runs it: the
   * first day field tries two digits, and falls back to one digit when the
   * rest of the pattern then fails. The end of the match, if any.
   */
  function MatchAt(s: string, p: nat): (r: Option<nat>)
    ensures r.Some? ==> p + 11 <= r.value <= p + 13 && r.value <= |s|
  {
    if DayAt(s, p, 2) && MatchAfterFirstDay(s, p + 2).Some? then MatchAfterFirstDay(s, p + 2)
    else if DayAt(s, p, 1) then MatchAfterFirstDay(s, p + 1)
    else None
  }

  /** The token shape with day fields of `d1` and `d2` digits. */
  predicate Shaped(t: string, d1: nat, d2: nat)
    requires (d1 == 1 || d1 == 2) && (d2 == 1 || d2 == 2)
  {
    |t| == d1 + d2 + 9 && DayAt(t, 0, d1) && MonthAt(t, d1) && t[d1 + 4] == '-'
    && DayAt(t, d1 + 5, d2) && MonthAt(t, d1 + 5 + d2)
  }

  /** A whole string the pattern matches: a declarative reading of the regular expression. */
  predicate IsToken(t: string)
  {
    Shaped(t, 1, 1) || Shaped(t, 1, 2) || Shaped(t, 2, 1) || Shaped(t, 2, 2)
  }

  /** A match found by the engine is a token, read off the subject at `p`. */
  lemma MatchSound(s: string, p: nat)
    requires MatchAt(s, p).Some?
    ensures p + 11 <= MatchAt(s, p).value <= |s|
    ensures IsToken(s[p..MatchAt(s, p).value])
  {
    var e := MatchAt(s, p).value;
    var t := s[p..e];
    assert forall k :: 0 <= k < |t| ==> t[k] == s[p + k];
    if DayAt(s, p, 2) && MatchAfterFirstDay(s, p + 2).Some? {
      if DayAt(s, p + 5 + 2, 2) && MonthAt(s, p + 7 + 2) {
        assert Shaped(t, 2, 2);
      } else {
        assert Shaped(t, 2, 1);
      }
    } else {
      if DayAt(s, p + 5 + 1, 2) && MonthAt(s, p + 6 + 2) {
        assert Shaped(t, 1, 2);
      } else {
        assert Shaped(t, 1, 1);
      }
    }
  }

  /** Any token starting at `p` is the one the engine returns: the match at a position is unique. */
  lemma MatchComplete(s: string, p: nat, e: nat)
    requires p <= e <= |s| && IsToken(s[p..e])
    ensures MatchAt(s, p) == Some(e)
  {
    var t := s[p..e];
    assert forall k :: 0 <= k < |t| ==> t[k] == s[p + k];
    if Shaped(t, 1, 1) || Shaped(t, 1, 2) {
      assert !IsDigit(s[p + 1]);
    } else {
      assert MatchAfterFirstDay(s, p + 2).Some?;
    }
  }

  /** Python's `re.search` from position `p` on: the leftmost match at or after `p`. */
  function SearchFrom(s: string, p: nat): (r: Option<Span>)
    requires p <= |s|
    ensures r.Some? ==> p <= r.value.start < r.value.end <= |s| && IsToken(s[r.value.start..r.value.end])
    ensures r.Some? ==> forall q, f :: p <= q < r.value.start && q <= f <= |s| ==> !IsToken(s[q..f])
    ensures r.None? ==> forall q, f :: p <= q <= f <= |s| ==> !IsToken(s[q..f])
    decreases |s| - p
  {
    assert forall f :: p <= f <= |s| && IsToken(s[p..f]) ==> MatchAt(s, p) == Some(f) by {
      forall f | p <= f <= |s| && IsToken(s[p..f])
        ensures MatchAt(s, p) == Some(f)
      {
        MatchComplete(s, p, f);
      }
    }
    match MatchAt(s, p)
    case Some(e) =>
      MatchSound(s, p);
      Some(Span(p, e))
    case None =>
      if p == |s| then None else SearchFrom(s, p + 1)
  }

  /** `re.search(pattern, col)`: the leftmost match, found exactly when the name holds a token somewhere. */
  function Search(col: string): (r: Option<Span>)
    ensures r.Some? <==> exists q, f :: 0 <= q <= f <= |col| && IsToken(col[q..f])
    ensures r.Some? ==> forall q, f :: 0 <= q < r.value.start && q <= f <= |col| ==> !IsToken(col[q..f])
  {
    SearchFrom(col, 0)
  }

  /** `re.search(pattern, col).group()`, or nothing when there is no match. */
  function FindToken(col: string): (r: Option<string>)
    ensures r.Some? ==> IsToken(r.value)
  {
    match Search(col)
    case Some(sp) => Some(col[sp.start..sp.end])
    case None => None
  }

  /** A token is made of digits, `_`, `-` and letters: it holds no space. */
  lemma TokenHasNoSpace(t: string)
    requires IsToken(t)
    ensures ' ' !in t
  {
    forall k | 0 <= k < |t|
      ensures t[k] != ' '
    {
    }
  }

  /** `col.startswith(('Reg', 'Vac'))`. */
  predicate IsDateColumn(col: string): (b: bool)
    ensures b <==> REG_PREFIX <= col || VAC_PREFIX <= col
  {
    |col| >= 3 && (col[..3] == REG_PREFIX || col[..3] == VAC_PREFIX)
  }

  /** `date_columns` (line 58): the `Reg`/`Vac` columns, in column order. */
  function DateColumns(cols: seq<string>): (r: seq<string>)
    ensures forall c :: c in r <==> c in cols && IsDateColumn(c)
  {
    if cols == [] then []
    else (if IsDateColumn(cols[0]) then [cols[0]] else []) + DateColumns(cols[1..])
  }

  /** The generator of lines 59-60: the match in each column that has one, columns without one skipped. */
  function FoundTokens(cols: seq<string>): (r: seq<string>)
    ensures forall t :: t in r <==> exists c :: c in cols && FindToken(c) == Some(t)
  {
    if cols == [] then []
    else
      var rest := FoundTokens(cols[1..]);
      assert forall c :: c in cols[1..] ==> c in cols;
      assert cols == [cols[0]] + cols[1..];
      match FindToken(cols[0])
      case Some(t) => [t] + rest
      case None => rest
  }

  /**
   * `date_ranges` (lines 58-60): sorted, duplicate-free, and holding exactly the
   * leftmost matches of the `Reg`/`Vac` columns that have one.
   */
  function DateRanges(cols: seq<string>): (r: seq<string>)
    ensures StrictlySorted(r)
    ensures forall t :: t in r <==> exists c :: c in cols && IsDateColumn(c) && FindToken(c) == Some(t)
    ensures forall t :: t in r ==> IsToken(t)
  {
    var found := FoundTokens(DateColumns(cols));
    SortedUnique(found)
  }

  /** The names `date_to_columns` synthesises for a token. */
  function PairFor(dr: string): ColumnPair
  {
    ColumnPair(REG_PREFIX + dr, VAC_PREFIX + dr)
  }

  /** `date_to_columns` (line 61): one entry per range, mapping it to its `Reg`/`Vac` pair. */
  function DateToColumns(ranges: seq<string>): (m: map<string, ColumnPair>)
    ensures forall dr :: dr in m <==> dr in ranges
    ensures forall dr :: dr in m ==> m[dr] == PairFor(dr)
  {
    map dr | dr in ranges :: PairFor(dr)
  }

  /** The synthesised names never collide: distinct ranges, and the two prefixes, give distinct names. */
  lemma PairNamesDistinct(a: string, b: string)
    ensures PairFor(a).reg == PairFor(b).reg ==> a == b
    ensures PairFor(a).vac == PairFor(b).vac ==> a == b
    ensures PairFor(a).reg != PairFor(b).vac
  {
    if PairFor(a).reg == PairFor(b).reg {
      assert a == PairFor(a).reg[3..];
    }
    if PairFor(a).vac == PairFor(b).vac {
      assert a == PairFor(a).vac[3..];
    }
    assert PairFor(a).reg[0] == 'R' && PairFor(b).vac[0] == 'V';
  }

  /**
   * The match in `Reg112_Jan-19_Jan` starts at the `1` after `Reg`, fails there
   * with two digits and with one, and is found one position later.
   */
  lemma LeftmostMatchExample()
    ensures FindToken("Reg112_Jan-19_Jan") == Some("12_Jan-19_Jan")
    ensures FindToken("Reg_total") == None
  {
    var s := "Reg112_Jan-19_Jan";
    assert MatchAt(s, 0) == None && MatchAt(s, 1) == None && MatchAt(s, 2) == None;
    assert MatchAt(s, 3) == None;
    assert MatchAt(s, 4) == Some(17);
    assert s[4..17] == "12_Jan-19_Jan";
    var t := "Reg_total";
    assert forall p :: 0 <= p <= |t| ==> !DayAt(t, p, 1);
  }
}
