/**
 * The tabular data the pipeline works on: a pandas DataFrame seen as a
 * header row plus rows of dynamically typed cells, addressed by position
 * so that repeated column names can be represented as pandas allows them.
 */
module Frames {
  import opened Text

  datatype Result<+T, +E> = Ok(value: T) | Err(error: E)

  type Month = m: int | 1 <= m <= 12 witness 1

  /** A calendar day, the part of a pandas Timestamp the reports use. */
  datatype Date = Date(year: int, month: Month, day: int)

  /** One cell: text, a float, a missing value (None, NaN or NaT), or a timestamp. */
  datatype Cell = Str(text: string) | Num(value: real) | Missing | Stamp(date: Date)

  datatype Table = Table(columns: seq<string>, rows: seq<seq<Cell>>)

  /** Every row has one cell per column, as in any DataFrame. */
  predicate Rectangular(t: Table) {
    forall i :: 0 <= i < |t.rows| ==> |t.rows[i]| == |t.columns|
  }

  type Frame = t: Table | Rectangular(t) witness Table([], [])

  /**
   * Conversions that pandas performs natively and that this model takes as
   * given: `pd.to_datetime(..., errors="coerce")` on a text cell and on a
   * numeric cell (None means NaT), and `str()` of a float and of a Timestamp.
   */
  datatype Conversions = Conversions(
    parseDate: string -> Option<Date>,
    numberDate: real -> Option<Date>,
    numberText: real -> string,
    dateText: Date -> string)

  /** `astype(str)` on one cell of an object column: a missing value becomes the text "None". */
  function Render(c: Cell, conv: Conversions): (r: string)
    ensures c.Str? ==> r == c.text
    ensures c.Missing? ==> r == "None"
  {
    match c
    case Str(s) => s
    case Num(v) => conv.numberText(v)
    case Missing => "None"
    case Stamp(d) => conv.dateText(d)
  }

  /** `pd.to_datetime(cell, errors="coerce")`. */
  function DateCell(c: Cell, conv: Conversions): (r: Cell)
    ensures r.Stamp? || r.Missing?
  {
    match c
    case Str(s) => (match conv.parseDate(s) case Some(d) => Stamp(d) case None => Missing)
    case Num(v) => (match conv.numberDate(v) case Some(d) => Stamp(d) case None => Missing)
    case Missing => Missing
    case Stamp(d) => Stamp(d)
  }

  // ---------------------------------------------------------------------
  // Column names

  /** How many times a name occurs in a header. */
  function Occurrences(names: seq<string>, c: string): (n: nat)
    ensures n == multiset(names)[c]
  {
    if names == [] then 0
    else
      assert names == [names[0]] + names[1..];
      (if names[0] == c then 1 else 0) + Occurrences(names[1..], c)
  }

  /** The position of the first occurrence of a name. */
  function IndexOf(names: seq<string>, c: string): (i: nat)
    requires c in names
    ensures i < |names| && names[i] == c && c !in names[..i]
  {
    if names[0] == c then 0
    else
      var k := IndexOf(names[1..], c);
      assert names[..k + 1] == [names[0]] + names[1..][..k];
      k + 1
  }

  predicate Distinct<T(==)>(s: seq<T>) {
    forall i, j :: 0 <= i < j < |s| ==> s[i] != s[j]
  }

  /** A name that occurs exactly once is found at the one position that holds it. */
  lemma OnlyOccurrence(names: seq<string>, c: string, j: nat)
    requires Occurrences(names, c) == 1 && j < |names| && names[j] == c
    ensures IndexOf(names, c) == j
  {
    var i := IndexOf(names, c);
    if i < j {
      TwoOccurrences(names, c, i, j);
    }
  }

  lemma TwoOccurrences(names: seq<string>, c: string, i: nat, j: nat)
    requires i < j < |names| && names[i] == c && names[j] == c
    ensures Occurrences(names, c) >= 2
  {
    assert names == names[..j] + names[j..];
    assert names[..j][i] == c;
    assert names[j..][0] == c;
  }

  /** A header has no repeated name exactly when every name in it occurs once. */
  lemma DistinctIffOnce(names: seq<string>)
    ensures Distinct(names) <==> forall i :: 0 <= i < |names| ==> Occurrences(names, names[i]) == 1
  {
    if Distinct(names) {
      forall i | 0 <= i < |names| ensures Occurrences(names, names[i]) == 1 {
        if Occurrences(names, names[i]) != 1 {
          var k := IndexOf(names, names[i]);
          var j := SecondOccurrence(names, names[i], k);
        }
      }
    }
    if !Distinct(names) {
      var i, j :| 0 <= i < j < |names| && names[i] == names[j];
      TwoOccurrences(names, names[i], i, j);
    }
  }

  /** A name occurring twice has a second occurrence after its first. */
  lemma SecondOccurrence(names: seq<string>, c: string, k: nat) returns (j: nat)
    requires k < |names| && names[k] == c && c !in names[..k] && Occurrences(names, c) >= 2
    ensures k < j < |names| && names[j] == c
  {
    assert names == names[..k] + [c] + names[k + 1..];
    assert multiset(names)[c] == multiset(names[..k])[c] + 1 + multiset(names[k + 1..])[c];
    assert c in names[k + 1..];
    var i :| 0 <= i < |names[k + 1..]| && names[k + 1..][i] == c;
    j := k + 1 + i;
  }

  // ---------------------------------------------------------------------
  // Row selection

  /** The elements of `s` that satisfy `p`, in their original order (boolean-mask selection). */
  function Filter<T>(s: seq<T>, p: T -> bool): (r: seq<T>)
    ensures |r| <= |s|
    ensures forall i :: 0 <= i < |r| ==> p(r[i]) && r[i] in s
  {
    if s == [] then []
    else (if p(s[0]) then [s[0]] else []) + Filter(s[1..], p)
  }

  /** `a` is `b` with some elements left out and the rest in order. */
  predicate IsSubsequence<T(==)>(a: seq<T>, b: seq<T>)
    decreases |b|
  {
    a == [] || (b != [] && ((a[0] == b[0] && IsSubsequence(a[1..], b[1..])) || IsSubsequence(a, b[1..])))
  }

  /** Filtering keeps order and drops exactly the elements that fail the test. */
  lemma {:induction false} FilterSelects<T>(s: seq<T>, p: T -> bool)
    ensures IsSubsequence(Filter(s, p), s)
    ensures forall x :: multiset(Filter(s, p))[x] == if p(x) then multiset(s)[x] else 0
  {
    if s != [] {
      FilterSelects(s[1..], p);
      assert s == [s[0]] + s[1..];
      var r := Filter(s, p);
      if p(s[0]) {
        assert r[0] == s[0] && r[1..] == Filter(s[1..], p);
      } else {
        assert r == Filter(s[1..], p);
      }
    }
  }

  /** Number of elements that fail a test. */
  function CountFailing<T>(s: seq<T>, p: T -> bool): nat {
    if s == [] then 0 else (if p(s[0]) then 0 else 1) + CountFailing(s[1..], p)
  }

  lemma {:induction false} FilterDropsFailing<T>(s: seq<T>, p: T -> bool)
    ensures |s| - |Filter(s, p)| == CountFailing(s, p)
  {
    if s != [] {
      FilterDropsFailing(s[1..], p);
    }
  }

  /** Two successive selections are one selection on both tests. */
  lemma {:induction false} FilterTwice<T>(s: seq<T>, p: T -> bool, q: T -> bool, both: T -> bool)
    requires forall x :: both(x) == (p(x) && q(x))
    ensures Filter(Filter(s, p), q) == Filter(s, both)
  {
    if s != [] {
      FilterTwice(s[1..], p, q, both);
      var x := Filter(s, p);
      if p(s[0]) {
        assert x == [s[0]] + Filter(s[1..], p);
        assert x != [] && x[0] == s[0] && x[1..] == Filter(s[1..], p);
        assert Filter(x, q) == (if q(s[0]) then [s[0]] else []) + Filter(Filter(s[1..], p), q);
        assert both(s[0]) == q(s[0]);
      } else {
        assert x == Filter(s[1..], p);
        assert !both(s[0]);
      }
    }
  }

  /** Both tests at once. */
  function And<T>(p: T -> bool, q: T -> bool): T -> bool {
    x => p(x) && q(x)
  }

  /** Applies `f` to every element (a column-wise update applied row by row). */
  function MapSeq<T, U>(s: seq<T>, f: T -> U): (r: seq<U>)
    ensures |r| == |s|
    ensures forall i :: 0 <= i < |s| ==> r[i] == f(s[i])
  {
    if s == [] then [] else [f(s[0])] + MapSeq(s[1..], f)
  }

  /** Selecting after a transformation is transforming after the matching selection. */
  lemma {:induction false} FilterMap<T, U>(s: seq<T>, f: T -> U, p: U -> bool, q: T -> bool)
    requires forall i :: 0 <= i < |s| ==> q(s[i]) == p(f(s[i]))
    ensures Filter(MapSeq(s, f), p) == MapSeq(Filter(s, q), f)
  {
    if s != [] {
      FilterMap(s[1..], f, p, q);
      var m := MapSeq(s, f);
      assert m[0] == f(s[0]) && m[1..] == MapSeq(s[1..], f);
      if q(s[0]) {
        var fs := Filter(s, q);
        assert fs == [s[0]] + Filter(s[1..], q);
        assert fs[0] == s[0] && fs[1..] == Filter(s[1..], q);
      }
    }
  }

  /** Selections with tests that agree on every element are equal. */
  lemma {:induction false} FilterSameTest<T>(s: seq<T>, p: T -> bool, q: T -> bool)
    requires forall i :: 0 <= i < |s| ==> p(s[i]) == q(s[i])
    ensures Filter(s, p) == Filter(s, q)
  {
    if s != [] {
      FilterSameTest(s[1..], p, q);
    }
  }

  /** No cell is missing in the columns whose names are in `subset`. */
  predicate CompleteIn(row: seq<Cell>, columns: seq<string>, subset: set<string>) {
    forall j :: 0 <= j < |row| && j < |columns| && columns[j] in subset ==> !row[j].Missing?
  }

  /** The row test of `dropna(subset=...)`, as a value that can be passed around. */
  function Complete(columns: seq<string>, subset: set<string>): seq<Cell> -> bool {
    row => CompleteIn(row, columns, subset)
  }

  /** `DataFrame.dropna(subset=...)`: every column with one of these names is checked. */
  function DropNa(rows: seq<seq<Cell>>, columns: seq<string>, subset: set<string>): (r: seq<seq<Cell>>)
    ensures forall i :: 0 <= i < |r| ==> CompleteIn(r[i], columns, subset) && r[i] in rows
  {
    Filter(rows, Complete(columns, subset))
  }

  /** Number of missing cells in column `j`: `df.iloc[:, j].isnull().sum()`. */
  function NullCount(rows: seq<seq<Cell>>, j: nat): (n: nat)
    requires forall i :: 0 <= i < |rows| ==> j < |rows[i]|
    ensures n <= |rows|
  {
    if rows == [] then 0
    else (if rows[0][j].Missing? then 1 else 0) + NullCount(rows[1..], j)
  }
}
