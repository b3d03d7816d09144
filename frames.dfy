/**
 * The pandas DataFrame as the pipeline uses it: named columns of cells,
 * stored column by column as pandas does, every column as long as the
 * frame.  Column names may repeat: nothing in the pipeline removes a
 * duplicate name.
 */
module Frames {
  import opened Wrappers
  import opened Text

  /**
   * A non-null cell: text, a number of an `int64` column, a number of a
   * `float64` column, or a timestamp of a `datetime64` column, held as
   * its nanoseconds since the epoch.  Which of the two numeric dtypes a
   * column has is decided by whoever built it (an integer column with a
   * blank cell is read as `float64`), and it shows in `str()`.
   */
  datatype Value = Str(s: string) | Int(i: int) | Float(x: real) | Time(t: int)

  /**
   * A cell: `NaN`, the null of a text or numeric column, `NaT`, the null
   * of a datetime column, or a value.  Both nulls count as missing for
   * `dropna` and `isnull`; they differ in what `str()` makes of them.
   */
  datatype Cell = NaN | NaT | Val(value: Value)

  /**
   * The behaviour of pandas and Python that the model does not look
   * inside, supplied by the caller:
   *   showFloat   `str()` of a float that is not a whole number below 10^16,
   *   showTime    `str()` of a timestamp cell,
   *   parseNumber `pd.to_numeric(errors='coerce')` on one text cell,
   *   parseDate   `pd.to_datetime(errors='coerce')` on one non-timestamp cell,
   *   dateRaises  whether `pd.to_datetime` raises on a whole column.
   */
  datatype Env = Env(
    showFloat: real -> string,
    showTime: int -> string,
    parseNumber: string -> Option<real>,
    parseDate: Value -> Option<int>,
    dateRaises: seq<Cell> -> bool)

  /** The magnitude from which Python writes a float in exponent form. */
  const FloatExponentFrom: real := 10_000_000_000_000_000.0

  /** `str(x)` of a Python float: a whole number below 10^16 in magnitude is its integer followed by ".0". */
  function FloatText(env: Env, x: real): string {
    if x == x.Floor as real && -FloatExponentFrom < x < FloatExponentFrom then IntToDecimal(x.Floor) + ".0"
    else env.showFloat(x)
  }

  /** `str(cell)` as `Series.astype(str)` computes it: NaN becomes "nan" and NaT "NaT". */
  function AsText(env: Env, c: Cell): string {
    match c
    case NaN => "nan"
    case NaT => "NaT"
    case Val(Str(s)) => s
    case Val(Int(i)) => IntToDecimal(i)
    case Val(Float(x)) => FloatText(env, x)
    case Val(Time(t)) => env.showTime(t)
  }

  /**
   * The same whole number prints differently from an `int64` and from a
   * `float64` column: "101" and "101.0".  Only the float's text has a
   * decimal point.
   */
  lemma IntAndFloatTexts(env: Env, n: int)
    requires -FloatExponentFrom < n as real < FloatExponentFrom
    ensures AsText(env, Val(Float(n as real))) == AsText(env, Val(Int(n))) + ".0"
    ensures '.' !in AsText(env, Val(Int(n))) && '.' in AsText(env, Val(Float(n as real)))
    ensures AsText(env, Val(Float(n as real))) != AsText(env, Val(Int(n)))
  {
    var s := IntToDecimal(n);
    assert (n as real).Floor == n;
    IntToDecimalHasNoPoint(n);
    assert (s + ".0")[|s|] == '.';
  }

  /** The decimal rendering of an integer is a sign and digits, with no point. */
  lemma IntToDecimalHasNoPoint(n: int)
    ensures '.' !in IntToDecimal(n)
  {
    var s := IntToDecimal(n);
    if n < 0 {
      forall k | 0 <= k < |s| ensures s[k] != '.' {
        if k > 0 {
          assert s[k] == NatToDecimal(-n)[k - 1];
        }
      }
    }
  }

  /** A number of either dtype. */
  predicate IsNumber(v: Value) {
    v.Int? || v.Float?
  }

  /**
   * `pd.to_numeric(errors='coerce')` on one non-null cell: numbers are
   * kept, text is parsed, and a timestamp of a `datetime64` column is
   * read as its `int64` view, the nanoseconds since the epoch.
   */
  function ToNumeric(env: Env, v: Value): (r: Option<real>)
    ensures IsNumber(v) || v.Time? ==> r.Some?
    ensures v.Time? ==> r.value == v.t as real
  {
    match v
    case Int(i) => Some(i as real)
    case Float(x) => Some(x)
    case Str(s) => env.parseNumber(s)
    case Time(t) => Some(t as real)
  }

  /** `pd.to_datetime(errors='coerce')` on one non-null cell: timestamps are kept, anything else is parsed. */
  function ToDatetime(env: Env, v: Value): Option<int> {
    if v.Time? then Some(v.t) else env.parseDate(v)
  }

  datatype Table = Table(names: seq<string>, cols: seq<seq<Cell>>, height: nat)

  /** One name per column and every column `height` cells long. */
  predicate WellFormed(t: Table) {
    |t.names| == |t.cols| && forall j :: 0 <= j < |t.cols| ==> |t.cols[j]| == t.height
  }

  /** Row `i` of the table, one cell per column. */
  function Row(t: Table, i: nat): (r: seq<Cell>)
    requires WellFormed(t) && i < t.height
    ensures |r| == |t.cols|
  {
    seq(|t.cols|, j requires 0 <= j < |t.cols| => t.cols[j][i])
  }

  function Rows(t: Table): (rs: seq<seq<Cell>>)
    requires WellFormed(t)
    ensures |rs| == t.height
  {
    seq(t.height, i requires 0 <= i < t.height => Row(t, i))
  }

  // ---------------------------------------------------------------------
  // Searching column names

  /** The position of the first occurrence of `x`, the column `df[x]` selects. */
  function IndexOf(xs: seq<string>, x: string): (k: nat)
    requires x in xs
    ensures k < |xs| && xs[k] == x
    ensures forall j :: 0 <= j < k ==> xs[j] != x
  {
    if xs[0] == x then 0 else 1 + IndexOf(xs[1..], x)
  }

  /** The position of the first name that satisfies `p`, as `[c for c in names if p(c)][0]` picks it. */
  function FirstWhere(xs: seq<string>, p: string -> bool): (r: Option<nat>)
    ensures r.Some? ==> r.value < |xs| && p(xs[r.value])
    ensures r.Some? ==> forall j :: 0 <= j < r.value ==> !p(xs[j])
    ensures r.None? <==> forall j :: 0 <= j < |xs| ==> !p(xs[j])
  {
    if |xs| == 0 then None
    else if p(xs[0]) then Some(0)
    else match FirstWhere(xs[1..], p)
      case None => None
      case Some(k) => Some(k + 1)
  }

  /** `df.rename(columns={from: to})`: every column called `from` is called `to` afterwards. */
  function RenameAll(names: seq<string>, from: string, to: string): (r: seq<string>)
    ensures |r| == |names|
  {
    seq(|names|, i requires 0 <= i < |names| => if names[i] == from then to else names[i])
  }

  /** Renaming other names keeps the first occurrence of `x` where it was. */
  lemma RenameAllKeepsIndex(names: seq<string>, from: string, to: string, x: string)
    requires x in names && from != x && to != x
    ensures x in RenameAll(names, from, to)
    ensures IndexOf(RenameAll(names, from, to), x) == IndexOf(names, x)
  {
    var r := RenameAll(names, from, to);
    var k := IndexOf(names, x);
    assert r[k] == x;
    IndexOfIs(r, x, k);
  }

  /** The first position holding `x` is `IndexOf`. */
  lemma {:induction false} IndexOfIs(xs: seq<string>, x: string, k: nat)
    requires k < |xs| && xs[k] == x && forall j :: 0 <= j < k ==> xs[j] != x
    ensures IndexOf(xs, x) == k
  {
    if k > 0 {
      IndexOfIs(xs[1..], x, k - 1);
    }
  }

  // ---------------------------------------------------------------------
  // Selecting rows and columns by boolean masks

  function CountTrue(flags: seq<bool>): nat {
    if |flags| == 0 then 0
    else CountTrue(flags[..|flags| - 1]) + (if flags[|flags| - 1] then 1 else 0)
  }

  /**
   * The positions where the mask is true, in increasing order: the index
   * that `df[mask]` keeps.
   */
  function IndicesWhere(flags: seq<bool>): (r: seq<nat>)
    ensures |r| == CountTrue(flags)
    ensures forall k :: 0 <= k < |r| ==> r[k] < |flags| && flags[r[k]]
    ensures forall k, l :: 0 <= k < l < |r| ==> r[k] < r[l]
    ensures forall i :: 0 <= i < |flags| && flags[i] ==> i in r
  {
    if |flags| == 0 then []
    else
      var n := |flags| - 1;
      IndicesWhere(flags[..n]) + (if flags[n] then [n] else [])
  }

  /** The rows at positions `idx`, in that order (`df.iloc[idx]`). */
  function SelectRows(t: Table, idx: seq<nat>): (r: Table)
    requires WellFormed(t)
    requires forall k :: 0 <= k < |idx| ==> idx[k] < t.height
    ensures WellFormed(r) && r.names == t.names && r.height == |idx|
    ensures forall j, k :: 0 <= j < |t.cols| && 0 <= k < |idx| ==> r.cols[j][k] == t.cols[j][idx[k]]
  {
    Table(t.names,
          seq(|t.cols|, j requires 0 <= j < |t.cols| =>
            seq(|idx|, k requires 0 <= k < |idx| => t.cols[j][idx[k]])),
          |idx|)
  }

  /** The columns at positions `idx`, in that order, names with them. */
  function SelectColumns(t: Table, idx: seq<nat>): (r: Table)
    requires WellFormed(t)
    requires forall k :: 0 <= k < |idx| ==> idx[k] < |t.cols|
    ensures WellFormed(r) && r.height == t.height && |r.cols| == |idx|
    ensures forall k :: 0 <= k < |idx| ==> r.names[k] == t.names[idx[k]] && r.cols[k] == t.cols[idx[k]]
  {
    Table(seq(|idx|, k requires 0 <= k < |idx| => t.names[idx[k]]),
          seq(|idx|, k requires 0 <= k < |idx| => t.cols[idx[k]]),
          t.height)
  }

  // ---------------------------------------------------------------------
  // Counting

  /** `df.empty`: no rows or no columns. */
  predicate Empty(t: Table) {
    t.height == 0 || |t.cols| == 0
  }

  /** A mask has at most as many true entries as it has entries, and as many exactly when all are true. */
  lemma {:induction false} CountTrueBound(flags: seq<bool>)
    ensures CountTrue(flags) <= |flags|
    ensures CountTrue(flags) == |flags| <==> forall i :: 0 <= i < |flags| ==> flags[i]
  {
    if |flags| > 0 {
      var p := flags[..|flags| - 1];
      CountTrueBound(p);
      if forall i :: 0 <= i < |flags| ==> flags[i] {
        assert forall i :: 0 <= i < |p| ==> p[i];
      }
      if CountTrue(flags) == |flags| {
        forall i | 0 <= i < |flags| ensures flags[i] {
          if i < |p| { assert p[i] == flags[i]; }
        }
      }
    }
  }

  /** A mask with no two true entries counts at most one. */
  lemma {:induction false} CountTrueAtMostOne(flags: seq<bool>)
    requires forall i, j :: 0 <= i < j < |flags| && flags[i] ==> !flags[j]
    ensures CountTrue(flags) <= 1
  {
    if |flags| > 0 {
      var p := flags[..|flags| - 1];
      CountTrueAtMostOne(p);
      if flags[|flags| - 1] {
        CountTrueZero(p);
      }
    }
  }

  /** A mask counts no true entry exactly when it has none. */
  lemma {:induction false} CountTrueZero(flags: seq<bool>)
    ensures CountTrue(flags) == 0 <==> forall i :: 0 <= i < |flags| ==> !flags[i]
  {
    if |flags| > 0 {
      var p := flags[..|flags| - 1];
      CountTrueZero(p);
      if CountTrue(flags) == 0 {
        forall i | 0 <= i < |flags| ensures !flags[i] {
          if i < |p| { assert p[i] == flags[i]; }
        }
      }
    }
  }

  /** `col.isnull().sum()` */
  function NullCount(col: seq<Cell>): nat {
    if |col| == 0 then 0 else NullCount(col[..|col| - 1]) + (if col[|col| - 1].Val? then 0 else 1)
  }

  /** The mask of non-null cells (`col.notna()`). */
  function NonNullFlags(col: seq<Cell>): (r: seq<bool>)
    ensures |r| == |col| && forall i :: 0 <= i < |col| ==> r[i] == col[i].Val?
  {
    seq(|col|, i requires 0 <= i < |col| => col[i].Val?)
  }

  /** The non-null and the null cells account for the whole column. */
  lemma {:induction false} NonNullPlusNull(col: seq<Cell>)
    ensures CountTrue(NonNullFlags(col)) + NullCount(col) == |col|
  {
    if |col| > 0 {
      var p := col[..|col| - 1];
      NonNullPlusNull(p);
      assert NonNullFlags(col)[..|col| - 1] == NonNullFlags(p);
    }
  }

  /** `s.duplicated().sum()`: the entries equal to an earlier entry (nulls compare equal). */
  function DupCount<T(==)>(s: seq<T>): nat {
    if |s| == 0 then 0
    else DupCount(s[..|s| - 1]) + (if s[|s| - 1] in s[..|s| - 1] then 1 else 0)
  }

  function Elems<T>(s: seq<T>): set<T> {
    set x | x in s
  }

  predicate Distinct<T(==)>(s: seq<T>) {
    forall i, j :: 0 <= i < j < |s| ==> s[i] != s[j]
  }

  /** The duplicates and the distinct values account for every entry. */
  lemma {:induction false} DupCountPlusDistinct<T>(s: seq<T>)
    ensures DupCount(s) + |Elems(s)| == |s|
  {
    if |s| > 0 {
      var p := s[..|s| - 1];
      DupCountPlusDistinct(p);
      var x := s[|s| - 1];
      assert Elems(s) == Elems(p) + {x} by {
        assert s == p + [x];
      }
      if x in p {
        assert x in Elems(p);
        assert Elems(s) == Elems(p);
      } else {
        assert x !in Elems(p);
        assert |Elems(s)| == |Elems(p)| + 1;
      }
    }
  }

  /** No entry is counted as a duplicate exactly when all entries differ. */
  lemma {:induction false} DupCountZero<T>(s: seq<T>)
    ensures DupCount(s) == 0 <==> Distinct(s)
  {
    if |s| > 0 {
      var p := s[..|s| - 1];
      DupCountZero(p);
      if Distinct(s) {
        assert Distinct(p);
        assert s[|s| - 1] !in p by {
          forall i | 0 <= i < |p| ensures p[i] != s[|s| - 1] {
            assert p[i] == s[i];
          }
        }
      }
    }
  }

  // ---------------------------------------------------------------------
  // The mutable DataFrame

  /**
   * A DataFrame that the pipeline updates in place: `df[c] = ...` replaces
   * a column and `df.rename(..., inplace=True)` renames columns.
   */
  class Frame {
    var names: seq<string>
    var cols: seq<seq<Cell>>
    var height: nat

    ghost predicate Valid()
      reads this
    {
      WellFormed(Table(names, cols, height))
    }

    /** The frame's current contents as a value. */
    function Snapshot(): Table
      reads this
    {
      Table(names, cols, height)
    }

    constructor (t: Table)
      requires WellFormed(t)
      ensures Valid() && Snapshot() == t
    {
      names, cols, height := t.names, t.cols, t.height;
    }

    /** `df[names[j]] = c` */
    method SetColumn(j: nat, c: seq<Cell>)
      requires Valid() && j < |cols| && |c| == height
      modifies this
      ensures Valid()
      ensures Snapshot() == old(Snapshot()).(cols := old(cols)[j := c])
    {
      cols := cols[j := c];
    }

    /** `df.columns = ns` */
    method SetNames(ns: seq<string>)
      requires Valid() && |ns| == |names|
      modifies this
      ensures Valid()
      ensures Snapshot() == old(Snapshot()).(names := ns)
    {
      names := ns;
    }

    /** `df.rename(columns={from: to}, inplace=True)` */
    method Rename(from: string, to: string)
      requires Valid()
      modifies this
      ensures Valid()
      ensures Snapshot() == old(Snapshot()).(names := RenameAll(old(names), from, to))
    {
      names := RenameAll(names, from, to);
    }
  }
}
