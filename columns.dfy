/**
 * Column-name clean-up applied right after loading the spreadsheet
 * (app.py line 55): `(` and `)` are deleted and every space becomes `_`.
 */
module Columns {
  import opened Text

  /** The three chained `str.replace` calls of line 55, in their order. */
  function Normalise(col: string): (r: string)
    ensures '(' !in r && ')' !in r && ' ' !in r
    ensures |r| <= |col|
  {
    var noOpen := Remove(col, '(');
    var noParens := Remove(noOpen, ')');
    SubsequenceLength(noOpen, col);
    SubsequenceLength(noParens, noOpen);
    var r := Replace(noParens, ' ', '_');
    assert '(' !in r && ')' !in r && ' ' !in r by {
      forall i | 0 <= i < |r|
        ensures r[i] != '(' && r[i] != ')' && r[i] != ' '
      {
        assert noParens[i] in noParens;
        SubsequenceMembers(noParens, noOpen);
      }
    }
    r
  }

  /** What one source character becomes: parentheses vanish, a space turns into `_`. */
  function CleanChar(c: char): string
  {
    if c == '(' || c == ')' then [] else if c == ' ' then "_" else [c]
  }

  /** A one-pass reading of line 55, character by character. */
  function Cleaned(col: string): string
  {
    if col == [] then [] else CleanChar(col[0]) + Cleaned(col[1..])
  }

  /** The chained replaces equal the one-pass reading: every other character is kept, in order. */
  lemma {:induction false} NormaliseIsOnePass(col: string)
    ensures Normalise(col) == Cleaned(col)
  {
    if col != [] {
      var h, t := col[0], col[1..];
      assert col == [h] + t;
      var noOpen := Remove(col, '(');
      assert noOpen == Remove([h], '(') + Remove(t, '(') by {
        RemoveAppend([h], t, '(');
      }
      RemoveAppend(Remove([h], '('), Remove(t, '('), ')');
      var head := Remove(Remove([h], '('), ')');
      ReplaceAppend(head, Remove(Remove(t, '('), ')'), ' ', '_');
      assert Replace(head, ' ', '_') == CleanChar(h) by {
        assert [h][1..] == [];
      }
      NormaliseIsOnePass(t);
    }
  }

  /** Cleaning a name that is already clean changes nothing. */
  lemma NormaliseFixesClean(col: string)
    requires '(' !in col && ')' !in col && ' ' !in col
    ensures Normalise(col) == col
  {
    RemoveAbsent(col, '(');
    RemoveAbsent(col, ')');
    ReplaceAbsent(col, ' ', '_');
  }

  /** Line 55 is idempotent: running it twice gives the names of running it once. */
  lemma NormaliseIdempotent(col: string)
    ensures Normalise(Normalise(col)) == Normalise(col)
  {
    NormaliseFixesClean(Normalise(col));
  }

  /** The list comprehension of line 55 over all column names. */
  function NormaliseColumns(cols: seq<string>): (r: seq<string>)
    ensures |r| == |cols|
    ensures forall i :: 0 <= i < |cols| ==> r[i] == Normalise(cols[i])
  {
    seq(|cols|, i requires 0 <= i < |cols| => Normalise(cols[i]))
  }
}
