/**
 * String helpers shared by the dashboard model: Python's ordering on `str`,
 * `sorted(set(...))`, `str.replace` on single characters, and the
 * order-preserving subsequence relation used to describe row filters.
 */
module Text {

  /**
   * Python's `a < b` on `str`: lexicographic by code point, a proper prefix first.
   * The ensures is the textbook reading: `a` is a proper prefix of `b`, or the two
   * agree up to some position `k` where `a` has the smaller character.
   */
  predicate Below(a: string, b: string): (r: bool)
    ensures r <==> a < b || exists k :: 0 <= k < |a| && k < |b| && a[..k] == b[..k] && a[k] < b[k]
    decreases |a|
  {
    if |b| == 0 then false
    else if |a| == 0 then true
    else if a[0] < b[0] then
      assert a[..0] == b[..0];
      true
    else if a[0] != b[0] then
      assert forall k :: 0 < k <= |a| && k <= |b| ==> a[..k][0] == a[0] && b[..k][0] == b[0];
      false
    else
      LexicographicTail(a, b);
      Below(a[1..], b[1..])
  }

  /** Two strings that share their first character compare as their tails do. */
  lemma LexicographicTail(a: string, b: string)
    requires |a| > 0 && |b| > 0 && a[0] == b[0]
    ensures (a < b || exists k :: 0 <= k < |a| && k < |b| && a[..k] == b[..k] && a[k] < b[k])
        <==> (a[1..] < b[1..] || exists k :: 0 <= k < |a| - 1 && k < |b| - 1 && a[1..][..k] == b[1..][..k] && a[1..][k] < b[1..][k])
  {
    assert a == [a[0]] + a[1..] && b == [b[0]] + b[1..];
    if k :| 0 <= k < |a| && k < |b| && a[..k] == b[..k] && a[k] < b[k] {
      assert k != 0;
      assert a[1..][..k - 1] == a[..k][1..] && b[1..][..k - 1] == b[..k][1..];
    }
    if k :| 0 <= k < |a| - 1 && k < |b| - 1 && a[1..][..k] == b[1..][..k] && a[1..][k] < b[1..][k] {
      assert a[..k + 1] == [a[0]] + a[1..][..k] && b[..k + 1] == [b[0]] + b[1..][..k];
    }
  }

  lemma {:induction false} BelowIrreflexive(a: string)
    ensures !Below(a, a)
  {
    if |a| > 0 {
      BelowIrreflexive(a[1..]);
    }
  }

  lemma {:induction false} BelowTransitive(a: string, b: string, c: string)
    requires Below(a, b) && Below(b, c)
    ensures Below(a, c)
  {
    if |a| > 0 && a[0] == b[0] && b[0] == c[0] {
      BelowTransitive(a[1..], b[1..], c[1..]);
    }
  }

  lemma {:induction false} BelowTotal(a: string, b: string)
    requires a != b
    ensures Below(a, b) || Below(b, a)
  {
    if |a| > 0 && |b| > 0 && a[0] == b[0] {
      assert a == [a[0]] + a[1..] && b == [b[0]] + b[1..];
      BelowTotal(a[1..], b[1..]);
    }
  }

  /** Strictly increasing under `Below`, hence also free of duplicates. */
  ghost predicate StrictlySorted(xs: seq<string>)
  {
    forall i, j :: 0 <= i < j < |xs| ==> Below(xs[i], xs[j])
  }

  lemma StrictlySortedDistinct(xs: seq<string>)
    requires StrictlySorted(xs)
    ensures forall i, j :: 0 <= i < j < |xs| ==> xs[i] != xs[j]
  {
    forall i, j | 0 <= i < j < |xs|
      ensures xs[i] != xs[j]
    {
      BelowIrreflexive(xs[i]);
    }
  }

  lemma SortedCons(h: string, t: seq<string>)
    requires StrictlySorted(t)
    requires forall y :: y in t ==> Below(h, y)
    ensures StrictlySorted([h] + t)
  {
    var r := [h] + t;
    forall i, j | 0 <= i < j < |r|
      ensures Below(r[i], r[j])
    {
      if i == 0 {
        assert r[j] == t[j - 1];
      } else {
        assert r[i] == t[i - 1] && r[j] == t[j - 1];
      }
    }
  }

  /** Adds `x` to a sorted duplicate-free list, keeping it sorted and duplicate-free. */
  function Insert(x: string, xs: seq<string>): (r: seq<string>)
    requires StrictlySorted(xs)
    ensures StrictlySorted(r)
    ensures forall y :: y in r <==> y == x || y in xs
  {
    if xs == [] then
      [x]
    else if x == xs[0] then
      xs
    else if Below(x, xs[0]) then
      assert forall y :: y in xs ==> Below(x, y) by {
        forall y | y in xs
          ensures Below(x, y)
        {
          if y != xs[0] {
            var j :| 0 <= j < |xs| && xs[j] == y;
            BelowTransitive(x, xs[0], y);
          }
        }
      }
      SortedCons(x, xs);
      [x] + xs
    else
      var rest := Insert(x, xs[1..]);
      assert forall y :: y in rest ==> Below(xs[0], y) by {
        BelowTotal(x, xs[0]);
        forall y | y in rest
          ensures Below(xs[0], y)
        {
          if y != x {
            var j :| 0 <= j < |xs[1..]| && xs[1..][j] == y;
            assert xs[j + 1] == y;
          }
        }
      }
      SortedCons(xs[0], rest);
      [xs[0]] + rest
  }

  /** Python's `sorted(set(xs))` on strings. */
  function SortedUnique(xs: seq<string>): (r: seq<string>)
    ensures StrictlySorted(r)
    ensures forall y :: y in r <==> y in xs
    ensures |r| <= |xs|
  {
    if xs == [] then
      []
    else
      var rest := SortedUnique(xs[1..]);
      var r := Insert(xs[0], rest);
      assert |r| <= |xs| by {
        SortedSubsetLength(r, xs);
      }
      r
  }

  /** A duplicate-free list is no longer than any list holding all of its elements. */
  lemma {:induction false} SortedSubsetLength(r: seq<string>, xs: seq<string>)
    requires StrictlySorted(r)
    requires forall y :: y in r ==> y in xs
    ensures |r| <= |xs|
  {
    StrictlySortedDistinct(r);
    DistinctSubsetLength(r, xs);
  }

  lemma {:induction false} DistinctSubsetLength(r: seq<string>, xs: seq<string>)
    requires forall i, j :: 0 <= i < j < |r| ==> r[i] != r[j]
    requires forall y :: y in r ==> y in xs
    ensures |r| <= |xs|
    decreases |xs|
  {
    if r != [] {
      assert r[0] in xs;
      var k :| 0 <= k < |xs| && xs[k] == r[0];
      var xs' := xs[..k] + xs[k + 1..];
      var r' := r[1..];
      forall y | y in r'
        ensures y in xs'
      {
        var j :| 0 <= j < |r'| && r'[j] == y;
        assert r[j + 1] == y && y != r[0];
        assert y in r && y in xs;
        var m :| 0 <= m < |xs| && xs[m] == y;
        if m < k {
          assert xs'[m] == y;
        } else {
          assert xs'[m - 1] == y;
        }
      }
      DistinctSubsetLength(r', xs');
    }
  }

  /** A strictly sorted list is determined by its elements: it IS `sorted(set(...))`. */
  lemma {:induction false} SortedIsCanonical(a: seq<string>, b: seq<string>)
    requires StrictlySorted(a) && StrictlySorted(b)
    requires forall y :: y in a <==> y in b
    ensures a == b
  {
    if a != [] {
      assert a[0] in b;
    }
    if b != [] {
      assert b[0] in a;
    }
    if a != [] && b != [] {
      if a[0] != b[0] {
        assert a[0] in a && b[0] in b;
        var i :| 0 <= i < |b| && b[i] == a[0];
        var j :| 0 <= j < |a| && a[j] == b[0];
        assert Below(b[0], a[0]) by {
          assert i != 0;
        }
        assert Below(a[0], b[0]) by {
          assert j != 0;
        }
        BelowTransitive(a[0], b[0], a[0]);
        assert false;
      }
      assert forall y :: y in a[1..] <==> y in b[1..] by {
        StrictlySortedDistinct(a);
        StrictlySortedDistinct(b);
        forall y
          ensures y in a[1..] ==> y in b[1..]
          ensures y in b[1..] ==> y in a[1..]
        {
          if y in a[1..] {
            var j :| 0 <= j < |a[1..]| && a[1..][j] == y;
            assert a[j + 1] == y && y != a[0];
            assert y in b;
            var k :| 0 <= k < |b| && b[k] == y;
            assert k != 0;
            assert b[1..][k - 1] == y;
          }
          if y in b[1..] {
            var j :| 0 <= j < |b[1..]| && b[1..][j] == y;
            assert b[j + 1] == y && y != b[0];
            assert y in a;
            var k :| 0 <= k < |a| && a[k] == y;
            assert k != 0;
            assert a[1..][k - 1] == y;
          }
        }
      }
      SortedIsCanonical(a[1..], b[1..]);
      assert a == [a[0]] + a[1..] && b == [b[0]] + b[1..];
    }
  }

  /** `s.replace(from, to)` for one character each: every `from` becomes `to`. */
  function Replace(s: string, from: char, to: char): (r: string)
    ensures |r| == |s|
    ensures forall i :: 0 <= i < |s| ==> r[i] == (if s[i] == from then to else s[i])
  {
    if s == [] then [] else [if s[0] == from then to else s[0]] + Replace(s[1..], from, to)
  }

  /** Replacing `from` by `to` and back is the identity when `to` did not occur. */
  lemma ReplaceRoundTrip(s: string, from: char, to: char)
    requires to !in s
    ensures Replace(Replace(s, from, to), to, from) == s
  {
    var r := Replace(Replace(s, from, to), to, from);
    assert |r| == |s|;
    forall i | 0 <= i < |s|
      ensures r[i] == s[i]
    {
      assert s[i] != to;
    }
  }

  lemma {:induction false} ReplaceAppend(a: string, b: string, from: char, to: char)
    ensures Replace(a + b, from, to) == Replace(a, from, to) + Replace(b, from, to)
  {
    var l, r := Replace(a + b, from, to), Replace(a, from, to) + Replace(b, from, to);
    assert |l| == |r|;
    forall i | 0 <= i < |l|
      ensures l[i] == r[i]
    {
      if i < |a| {
        assert (a + b)[i] == a[i];
      } else {
        assert (a + b)[i] == b[i - |a|];
      }
    }
  }

  /** Replacing a character that does not occur changes nothing. */
  lemma ReplaceAbsent(s: string, from: char, to: char)
    requires from !in s
    ensures Replace(s, from, to) == s
  {
    var r := Replace(s, from, to);
    forall i | 0 <= i < |s|
      ensures r[i] == s[i]
    {
      assert s[i] != from;
    }
  }

  /** `s.replace(c, '')` for one character `c`: drops every `c`, keeps the rest in order. */
  function Remove(s: string, c: char): (r: string)
    ensures c !in r
    ensures multiset(r) == multiset(s)[c := 0]
    ensures IsSubsequence(r, s)
  {
    if s == [] then
      []
    else if s[0] == c then
      assert s == [s[0]] + s[1..];
      Remove(s[1..], c)
    else
      assert s == [s[0]] + s[1..];
      [s[0]] + Remove(s[1..], c)
  }

  /** `a` is `b` with some elements left out, the others kept in their order. */
  predicate IsSubsequence<T(==)>(a: seq<T>, b: seq<T>)
    decreases |b|
  {
    a == [] || (b != [] && if a[0] == b[0] then IsSubsequence(a[1..], b[1..]) else IsSubsequence(a, b[1..]))
  }

  lemma {:induction false} SubsequenceLength<T>(a: seq<T>, b: seq<T>)
    requires IsSubsequence(a, b)
    ensures |a| <= |b|
    decreases |b|
  {
    if a != [] {
      if a[0] == b[0] {
        SubsequenceLength(a[1..], b[1..]);
      } else {
        SubsequenceLength(a, b[1..]);
      }
    }
  }

  lemma {:induction false} SubsequenceMembers<T>(a: seq<T>, b: seq<T>)
    requires IsSubsequence(a, b)
    ensures forall x :: x in a ==> x in b
    decreases |b|
  {
    if a != [] {
      if a[0] == b[0] {
        SubsequenceMembers(a[1..], b[1..]);
        assert a == [a[0]] + a[1..];
      } else {
        SubsequenceMembers(a, b[1..]);
      }
    }
  }

  lemma {:induction false} RemoveAppend(a: string, b: string, c: char)
    ensures Remove(a + b, c) == Remove(a, c) + Remove(b, c)
  {
    if a != [] {
      assert (a + b)[1..] == a[1..] + b;
      RemoveAppend(a[1..], b, c);
    } else {
      assert a + b == b;
    }
  }

  lemma {:induction false} RemoveAbsent(s: string, c: char)
    requires c !in s
    ensures Remove(s, c) == s
  {
    if s != [] {
      assert s[1..] == s[1..] && c !in s[1..];
      RemoveAbsent(s[1..], c);
      assert s == [s[0]] + s[1..];
    }
  }
}
