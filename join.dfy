/**
 * `DataProcessor._merge_data` (data_processor.py): the left join of the
 * diagnosis table with the patient table on `REGISTRY ID`, the error raised
 * when the result is empty, and the match count it reports.
 */
module Join {
  import opened Wrappers
  import opened Text
  import opened Frames
  import opened Cleaning

  const DiagSuffix: string := "_DIAG"
  const PatientSuffix: string := "_PATIENT"
  const NoMatchMessage: string := "No matching records found between patient and diagnosis data"
  const MergeErrorPrefix: string := "Error merging data: "

  /** The identifier column that `df['REGISTRY ID']` selects. */
  function KeyColumn(t: Table): (r: seq<Cell>)
    requires WellFormed(t) && RegistryId in t.names
    ensures |r| == t.height
  {
    t.cols[IndexOf(t.names, RegistryId)]
  }

  // ---------------------------------------------------------------------
  // Row pairing

  /** One row of a left join: a left row and the right row it met, or none. */
  datatype Pair = Pair(left: nat, right: Option<nat>)

  /** The right rows whose key equals `key`, in order. */
  function Matches(rk: seq<Cell>, key: Cell): (r: seq<nat>)
    ensures forall k :: 0 <= k < |r| ==> r[k] < |rk| && rk[r[k]] == key
    ensures forall j :: 0 <= j < |rk| && rk[j] == key ==> j in r
    ensures forall k, l :: 0 <= k < l < |r| ==> r[k] < r[l]
  {
    IndicesWhere(MatchFlags(rk, key))
  }

  function MatchFlags(rk: seq<Cell>, key: Cell): (r: seq<bool>)
    ensures |r| == |rk| && forall j :: 0 <= j < |rk| ==> r[j] == (rk[j] == key)
  {
    seq(|rk|, j requires 0 <= j < |rk| => rk[j] == key)
  }

  /** The result rows that left row `i` contributes: one per match, or one unmatched row. */
  function PairsFor(i: nat, ms: seq<nat>): (r: seq<Pair>)
    ensures |r| == if |ms| == 0 then 1 else |ms|
    ensures forall k :: 0 <= k < |r| ==> r[k].left == i
    ensures |ms| == 0 ==> r == [Pair(i, None)]
    ensures forall k :: 0 <= k < |ms| ==> r[k] == Pair(i, Some(ms[k]))
  {
    if |ms| == 0 then [Pair(i, None)] else seq(|ms|, k requires 0 <= k < |ms| => Pair(i, Some(ms[k])))
  }

  /**
   * Every pair names a left row; a matched pair joins rows with equal keys
   * and an unmatched pair a left row whose key occurs nowhere on the right.
   */
  predicate SoundPairs(r: seq<Pair>, lk: seq<Cell>, rk: seq<Cell>) {
    forall k :: 0 <= k < |r| ==>
      && r[k].left < |lk|
      && (r[k].right.Some? ==> r[k].right.value < |rk| && rk[r[k].right.value] == lk[r[k].left])
      && (r[k].right.None? ==> lk[r[k].left] !in rk)
  }

  /** Left rows appear in order. */
  predicate OrderedPairs(r: seq<Pair>) {
    forall k, l :: 0 <= k < l < |r| ==> r[k].left <= r[l].left
  }

  /**
   * The rows of `left.merge(right, how='left')` as pairs of positions:
   * left rows in order, each with its matching right rows in order, and a
   * left row with no match paired with none.
   */
  function JoinPairs(lk: seq<Cell>, rk: seq<Cell>): (r: seq<Pair>)
    ensures |r| >= |lk| && (|r| == 0 <==> |lk| == 0)
    ensures SoundPairs(r, lk, rk) && OrderedPairs(r)
  {
    if |lk| == 0 then []
    else
      var n := |lk| - 1;
      var prev := JoinPairs(lk[..n], rk);
      var tail := PairsFor(n, Matches(rk, lk[n]));
      AppendPairs(prev, tail, lk, rk);
      prev + tail
  }

  /** The pairs of the first `|lk| - 1` left rows, followed by those of the last one, are sound and ordered. */
  lemma AppendPairs(prev: seq<Pair>, tail: seq<Pair>, lk: seq<Cell>, rk: seq<Cell>)
    requires |lk| > 0
    requires SoundPairs(prev, lk[..|lk| - 1], rk) && OrderedPairs(prev)
    requires tail == PairsFor(|lk| - 1, Matches(rk, lk[|lk| - 1]))
    ensures SoundPairs(prev + tail, lk, rk) && OrderedPairs(prev + tail)
  {
    PrefixPairsStaySound(prev, lk, rk);
    LastRowPairsAreSound(tail, lk, rk);
    SoundPairsConcat(prev, tail, lk, rk);
    assert forall k :: 0 <= k < |prev| ==> prev[k].left < |lk| - 1;
    assert forall k :: 0 <= k < |tail| ==> tail[k].left == |lk| - 1;
    OrderedPairsConcat(prev, tail, |lk| - 1);
  }

  /** Pairs sound for a prefix of the left keys stay sound for the whole. */
  lemma PrefixPairsStaySound(prev: seq<Pair>, lk: seq<Cell>, rk: seq<Cell>)
    requires |lk| > 0 && SoundPairs(prev, lk[..|lk| - 1], rk)
    ensures SoundPairs(prev, lk, rk)
  {
    var n := |lk| - 1;
    forall k | 0 <= k < |prev|
      ensures prev[k].left < |lk| && lk[..n][prev[k].left] == lk[prev[k].left]
    {
    }
  }

  /** The pairs of the last left row are sound. */
  lemma LastRowPairsAreSound(tail: seq<Pair>, lk: seq<Cell>, rk: seq<Cell>)
    requires |lk| > 0 && tail == PairsFor(|lk| - 1, Matches(rk, lk[|lk| - 1]))
    ensures SoundPairs(tail, lk, rk)
  {
    var n := |lk| - 1;
    var ms := Matches(rk, lk[n]);
    forall k | 0 <= k < |tail|
      ensures tail[k].left == n
      ensures tail[k].right.Some? ==> tail[k].right.value < |rk| && rk[tail[k].right.value] == lk[n]
      ensures tail[k].right.None? ==> lk[n] !in rk
    {
      if |ms| > 0 {
        assert tail[k] == Pair(n, Some(ms[k]));
      } else {
        assert tail == [Pair(n, None)];
        forall j | 0 <= j < |rk| ensures rk[j] != lk[n] {
          assert rk[j] == lk[n] ==> j in ms;
        }
      }
    }
  }

  lemma SoundPairsConcat(a: seq<Pair>, b: seq<Pair>, lk: seq<Cell>, rk: seq<Cell>)
    requires SoundPairs(a, lk, rk) && SoundPairs(b, lk, rk)
    ensures SoundPairs(a + b, lk, rk)
  {
    forall k | 0 <= k < |a + b|
      ensures (a + b)[k] == if k < |a| then a[k] else b[k - |a|]
    {
    }
  }

  lemma OrderedPairsConcat(a: seq<Pair>, b: seq<Pair>, n: nat)
    requires OrderedPairs(a) && OrderedPairs(b)
    requires forall k :: 0 <= k < |a| ==> a[k].left < n
    requires forall k :: 0 <= k < |b| ==> b[k].left == n
    ensures OrderedPairs(a + b)
  {
    forall k | 0 <= k < |a + b|
      ensures (a + b)[k] == if k < |a| then a[k] else b[k - |a|]
    {
    }
  }

  /**
   * Every left row appears, paired with each right row of equal key, or,
   * when no right key equals it, with none.
   */
  lemma {:induction false} JoinPairsComplete(lk: seq<Cell>, rk: seq<Cell>, i: nat)
    requires i < |lk|
    ensures forall j :: 0 <= j < |rk| && rk[j] == lk[i] ==> Pair(i, Some(j)) in JoinPairs(lk, rk)
    ensures lk[i] !in rk ==> Pair(i, None) in JoinPairs(lk, rk)
  {
    var n := |lk| - 1;
    var prev := JoinPairs(lk[..n], rk);
    var ms := Matches(rk, lk[n]);
    var tail := PairsFor(n, ms);
    assert JoinPairs(lk, rk) == prev + tail;
    if i < n {
      JoinPairsComplete(lk[..n], rk, i);
      assert lk[..n][i] == lk[i];
    } else {
      forall j | 0 <= j < |rk| && rk[j] == lk[i]
        ensures Pair(i, Some(j)) in JoinPairs(lk, rk)
      {
        var k :| 0 <= k < |ms| && ms[k] == j;
        assert tail[k] == Pair(i, Some(j));
      }
      if lk[i] !in rk {
        assert |ms| == 0;
        assert tail[0] == Pair(i, None);
      }
    }
  }

  /** With no repeated key on the right, a left row meets at most one right row. */
  lemma MatchesOfDistinct(rk: seq<Cell>, key: Cell)
    requires Distinct(rk)
    ensures |Matches(rk, key)| <= 1
  {
    CountTrueAtMostOne(MatchFlags(rk, key));
  }

  /** With no repeated key on the right the join neither drops nor repeats a left row. */
  lemma {:induction false} JoinPairsOfDistinct(lk: seq<Cell>, rk: seq<Cell>)
    requires Distinct(rk)
    ensures |JoinPairs(lk, rk)| == |lk|
  {
    if |lk| > 0 {
      var n := |lk| - 1;
      JoinPairsOfDistinct(lk[..n], rk);
      MatchesOfDistinct(rk, lk[n]);
    }
  }

  // ---------------------------------------------------------------------
  // The merged table

  /** A non-key name that both sides carry; pandas suffixes both copies. */
  predicate Collides(name: string, other: seq<string>) {
    name != RegistryId && name in other
  }

  /** The name a diagnosis column carries in the merged table. */
  function LeftName(name: string, patientNames: seq<string>): string {
    if Collides(name, patientNames) then name + DiagSuffix else name
  }

  /** The name a non-key patient column carries in the merged table. */
  function RightName(name: string, diagnosisNames: seq<string>): string {
    if Collides(name, diagnosisNames) then name + PatientSuffix else name
  }

  /** The patient columns that join the result: all but the key. */
  function RightColumns(names: seq<string>): (r: seq<nat>)
    ensures forall k :: 0 <= k < |r| ==> r[k] < |names| && names[r[k]] != RegistryId
    ensures forall j :: 0 <= j < |names| && names[j] != RegistryId ==> j in r
  {
    IndicesWhere(seq(|names|, j requires 0 <= j < |names| => names[j] != RegistryId))
  }

  /** The pairs of `diagnosis.merge(patient, on='REGISTRY ID', how='left')`. */
  function MergePairs(d: Table, p: Table): (r: seq<Pair>)
    requires WellFormed(d) && WellFormed(p) && RegistryId in d.names && RegistryId in p.names
    ensures |r| >= d.height && (|r| == 0 <==> d.height == 0)
    ensures forall k :: 0 <= k < |r| ==> r[k].left < d.height
    ensures forall k :: 0 <= k < |r| && r[k].right.Some? ==> r[k].right.value < p.height
  {
    JoinPairs(KeyColumn(d), KeyColumn(p))
  }

  /** The patient cell of column `c` that result row `pr` carries: NaN when unmatched. */
  function RightCell(p: Table, c: nat, pr: Pair): Cell
    requires WellFormed(p) && c < |p.cols|
    requires pr.right.Some? ==> pr.right.value < p.height
  {
    if pr.right.Some? then p.cols[c][pr.right.value] else NaN
  }

  /**
   * The merged names: each diagnosis name, suffixed `_DIAG` exactly when a
   * patient column shares it (the key aside), then each non-key patient
   * name, suffixed `_PATIENT` exactly when a diagnosis column shares it.
   */
  function MergedNames(dn: seq<string>, pn: seq<string>): (r: seq<string>)
    ensures |r| == |dn| + |RightColumns(pn)|
    ensures forall j :: 0 <= j < |dn| ==> r[j] == LeftName(dn[j], pn)
    ensures forall c :: 0 <= c < |RightColumns(pn)| ==> r[|dn| + c] == RightName(pn[RightColumns(pn)[c]], dn)
  {
    var rc := RightColumns(pn);
    seq(|dn|, j requires 0 <= j < |dn| => LeftName(dn[j], pn))
      + seq(|rc|, c requires 0 <= c < |rc| => RightName(pn[rc[c]], dn))
  }

  /** The diagnosis side of the result: each diagnosis column read at the left row of every pair. */
  function LeftCells(d: Table, pairs: seq<Pair>): (r: seq<seq<Cell>>)
    requires WellFormed(d) && forall k :: 0 <= k < |pairs| ==> pairs[k].left < d.height
    ensures |r| == |d.cols|
    ensures forall j :: 0 <= j < |r| ==> |r[j]| == |pairs|
    ensures forall j, k :: 0 <= j < |r| && 0 <= k < |pairs| ==> r[j][k] == d.cols[j][pairs[k].left]
  {
    seq(|d.cols|, j requires 0 <= j < |d.cols| =>
      seq(|pairs|, k requires 0 <= k < |pairs| => d.cols[j][pairs[k].left]))
  }

  /** The patient side of the result: each non-key patient column read at the right row of every pair, NaN where there is none. */
  function RightCells(p: Table, rc: seq<nat>, pairs: seq<Pair>): (r: seq<seq<Cell>>)
    requires WellFormed(p) && forall c :: 0 <= c < |rc| ==> rc[c] < |p.cols|
    requires forall k :: 0 <= k < |pairs| && pairs[k].right.Some? ==> pairs[k].right.value < p.height
    ensures |r| == |rc|
    ensures forall c :: 0 <= c < |r| ==> |r[c]| == |pairs|
    ensures forall c, k :: 0 <= c < |r| && 0 <= k < |pairs| && pairs[k].right.None? ==> r[c][k].NaN?
    ensures forall c, k :: 0 <= c < |r| && 0 <= k < |pairs| && pairs[k].right.Some? ==>
              r[c][k] == p.cols[rc[c]][pairs[k].right.value]
  {
    seq(|rc|, c requires 0 <= c < |rc| =>
      seq(|pairs|, k requires 0 <= k < |pairs| => RightCell(p, rc[c], pairs[k])))
  }

  /**
   * `diagnosis.merge(patient, on='REGISTRY ID', how='left',
   * suffixes=('_DIAG', '_PATIENT'))`: the diagnosis columns, then the
   * non-key patient columns, one row per pair.
   */
  function MergeTable(d: Table, p: Table): (m: Table)
    requires WellFormed(d) && WellFormed(p) && RegistryId in d.names && RegistryId in p.names
    ensures WellFormed(m) && m.height == |MergePairs(d, p)|
    ensures |m.cols| == |d.cols| + |RightColumns(p.names)| && m.names == MergedNames(d.names, p.names)
  {
    var pairs := MergePairs(d, p);
    var l := LeftCells(d, pairs);
    var r := RightCells(p, RightColumns(p.names), pairs);
    ColumnsSideBySide(l, r, |pairs|);
    Table(MergedNames(d.names, p.names), l + r, |pairs|)
  }

  /** Two lists of columns of one height, side by side, are columns of that height. */
  lemma ColumnsSideBySide(l: seq<seq<Cell>>, r: seq<seq<Cell>>, h: nat)
    requires forall j :: 0 <= j < |l| ==> |l[j]| == h
    requires forall c :: 0 <= c < |r| ==> |r[c]| == h
    ensures forall j :: 0 <= j < |l + r| ==> |(l + r)[j]| == h
  {
    forall j | 0 <= j < |l + r| ensures |(l + r)[j]| == h {
      if j >= |l| {
        assert (l + r)[j] == r[j - |l|];
      }
    }
  }

  /**
   * `_merge_data`: the merged table, or the error raised when it is empty,
   * which for a left join happens exactly when there are no diagnosis rows.
   */
  function MergeData(d: Table, p: Table): (r: Result<Table>)
    requires WellFormed(d) && WellFormed(p) && RegistryId in d.names && RegistryId in p.names
    ensures r.Err? <==> d.height == 0
    ensures r.Err? ==> r.msg == MergeErrorPrefix + NoMatchMessage
    ensures r.Ok? ==> r.value == MergeTable(d, p) && r.value.height >= d.height
  {
    var m := MergeTable(d, p);
    if Empty(m) then Err(MergeErrorPrefix + NoMatchMessage) else Ok(m)
  }

  /** The left join keeps every diagnosis row: each is carried by a matched or an unmatched result row. */
  lemma MergeKeepsEveryDiagnosis(d: Table, p: Table)
    requires WellFormed(d) && WellFormed(p) && RegistryId in d.names && RegistryId in p.names
    ensures var pairs := MergePairs(d, p);
      forall i :: 0 <= i < d.height ==>
        Pair(i, None) in pairs || exists j :: 0 <= j < p.height && Pair(i, Some(j)) in pairs
  {
    var pairs := MergePairs(d, p);
    forall i | 0 <= i < d.height
      ensures Pair(i, None) in pairs || exists j :: 0 <= j < p.height && Pair(i, Some(j)) in pairs
    {
      var lk, rk := KeyColumn(d), KeyColumn(p);
      JoinPairsComplete(lk, rk, i);
      if lk[i] in rk {
        var j :| 0 <= j < |rk| && rk[j] == lk[i];
        assert Pair(i, Some(j)) in pairs;
      }
    }
  }

  /** Result row `k` carries the diagnosis cells of its left row. */
  lemma MergeRowKeepsDiagnosis(d: Table, p: Table, k: nat)
    requires WellFormed(d) && WellFormed(p) && RegistryId in d.names && RegistryId in p.names
    requires k < |MergePairs(d, p)|
    ensures MergePairs(d, p)[k].left < d.height
    ensures forall j :: 0 <= j < |d.cols| ==> MergeTable(d, p).cols[j][k] == d.cols[j][MergePairs(d, p)[k].left]
  {
    var pairs := MergePairs(d, p);
    var l := LeftCells(d, pairs);
    var r := RightCells(p, RightColumns(p.names), pairs);
    assert MergeTable(d, p).cols == l + r;
  }

  /** A result row whose identifier matched no patient is NaN on every patient column. */
  lemma MergeRowUnmatched(d: Table, p: Table, k: nat)
    requires WellFormed(d) && WellFormed(p) && RegistryId in d.names && RegistryId in p.names
    requires k < |MergePairs(d, p)| && MergePairs(d, p)[k].right.None?
    ensures KeyColumn(d)[MergePairs(d, p)[k].left] !in KeyColumn(p)
    ensures forall c :: |d.cols| <= c < |MergeTable(d, p).cols| ==> MergeTable(d, p).cols[c][k].NaN?
  {
    var pairs := MergePairs(d, p);
    var l := LeftCells(d, pairs);
    var r := RightCells(p, RightColumns(p.names), pairs);
    assert MergeTable(d, p).cols == l + r;
  }

  /** A matched result row carries the patient cells of its patient row (whose identifier is the same, by `MatchedPairIsSound`). */
  lemma MergeRowMatched(d: Table, p: Table, k: nat)
    requires WellFormed(d) && WellFormed(p) && RegistryId in d.names && RegistryId in p.names
    requires k < |MergePairs(d, p)| && MergePairs(d, p)[k].right.Some?
    ensures var pr := MergePairs(d, p)[k]; var rc := RightColumns(p.names);
      forall c :: 0 <= c < |rc| ==> MergeTable(d, p).cols[|d.cols| + c][k] == p.cols[rc[c]][pr.right.value]
  {
    var pairs := MergePairs(d, p);
    var rc := RightColumns(p.names);
    var l := LeftCells(d, pairs);
    var r := RightCells(p, rc, pairs);
    assert MergeTable(d, p).cols == l + r;
  }

  /** The pair of a matched result row joins rows with equal identifiers. */
  lemma MatchedPairIsSound(d: Table, p: Table, k: nat)
    requires WellFormed(d) && WellFormed(p) && RegistryId in d.names && RegistryId in p.names
    requires k < |MergePairs(d, p)| && MergePairs(d, p)[k].right.Some?
    ensures MergePairs(d, p)[k].right.value < p.height
    ensures KeyColumn(p)[MergePairs(d, p)[k].right.value] == KeyColumn(d)[MergePairs(d, p)[k].left]
  {
    assert SoundPairs(MergePairs(d, p), KeyColumn(d), KeyColumn(p));
  }

  /**
   * A patient row that shares the identifier of a diagnosis row meets it in
   * the result, and a diagnosis row whose identifier no patient carries
   * is kept once, unmatched.
   */
  lemma MergeMeetsEveryMatch(d: Table, p: Table, i: nat, j: nat)
    requires WellFormed(d) && WellFormed(p) && RegistryId in d.names && RegistryId in p.names
    requires i < d.height && j < p.height
    ensures KeyColumn(d)[i] == KeyColumn(p)[j] ==> Pair(i, Some(j)) in MergePairs(d, p)
    ensures KeyColumn(d)[i] !in KeyColumn(p) ==> Pair(i, None) in MergePairs(d, p)
  {
    JoinPairsComplete(KeyColumn(d), KeyColumn(p), i);
  }

  /** With unique patient identifiers the merged table has exactly one row per diagnosis row. */
  lemma MergeRowCountWithUniquePatients(d: Table, p: Table)
    requires WellFormed(d) && WellFormed(p) && RegistryId in d.names && RegistryId in p.names
    requires Distinct(KeyColumn(p))
    ensures MergeTable(d, p).height == d.height
  {
    JoinPairsOfDistinct(KeyColumn(d), KeyColumn(p));
  }

  /**
   * The merged names: each diagnosis name, suffixed `_DIAG` exactly when a
   * patient column shares it (the key aside), then each non-key patient
   * name, suffixed `_PATIENT` exactly when a diagnosis column shares it.
   * The key keeps its name.
   */
  lemma MergeNamesSpec(dn: seq<string>, pn: seq<string>)
    requires RegistryId in dn
    ensures var r := MergedNames(dn, pn); var rc := RightColumns(pn);
      && (forall j :: 0 <= j < |dn| ==>
            (Collides(dn[j], pn) ==> r[j] == dn[j] + DiagSuffix)
            && (!Collides(dn[j], pn) ==> r[j] == dn[j]))
      && (forall c :: 0 <= c < |rc| ==>
            (pn[rc[c]] in dn ==> r[|dn| + c] == pn[rc[c]] + PatientSuffix)
            && (pn[rc[c]] !in dn ==> r[|dn| + c] == pn[rc[c]]))
      && r[IndexOf(dn, RegistryId)] == RegistryId
  {
    var r := MergedNames(dn, pn);
    var i := IndexOf(dn, RegistryId);
    assert dn[i] == RegistryId;
    assert r[i] == LeftName(RegistryId, pn);
  }

  /** The merge raises when the diagnosis table is empty, even if identifiers would overlap, and not otherwise, even if they are disjoint. */
  lemma DisjointIdentifiersStillMerge(d: Table, p: Table)
    requires WellFormed(d) && WellFormed(p) && RegistryId in d.names && RegistryId in p.names
    requires d.height > 0
    requires forall i :: 0 <= i < d.height ==> KeyColumn(d)[i] !in KeyColumn(p)
    ensures MergeData(d, p).Ok?
    ensures MatchedDiagnoses(d, p) == 0
  {
    CountTrueZero(KnownFlags(d, p));
  }

  // ---------------------------------------------------------------------
  // The match count

  /** Result row `k` is non-null on every column whose name ends in `_PATIENT`. */
  predicate PatientSideFilled(m: Table, k: nat)
    requires WellFormed(m) && k < m.height
  {
    forall j :: 0 <= j < |m.cols| && EndsWith(m.names[j], PatientSuffix) ==> m.cols[j][k].Val?
  }

  /**
   * The count reported as written:
   * `len(merged.dropna(subset=[c for c in merged.columns if c.endswith('_PATIENT')]))`.
   * With no such column the subset is empty and every row is kept.
   */
  function MatchedAsWritten(m: Table): (n: nat)
    requires WellFormed(m)
    ensures n <= m.height
  {
    CountTrueBound(FilledFlags(m));
    CountTrue(FilledFlags(m))
  }

  function FilledFlags(m: Table): (r: seq<bool>)
    requires WellFormed(m)
    ensures |r| == m.height && forall k :: 0 <= k < m.height ==> r[k] == PatientSideFilled(m, k)
  {
    seq(m.height, k requires 0 <= k < m.height => PatientSideFilled(m, k))
  }

  /** The count the report means: the diagnosis rows whose identifier some patient row carries. */
  function MatchedDiagnoses(d: Table, p: Table): (n: nat)
    requires WellFormed(d) && WellFormed(p) && RegistryId in d.names && RegistryId in p.names
    ensures n <= d.height
  {
    CountTrueBound(KnownFlags(d, p));
    CountTrue(KnownFlags(d, p))
  }

  /** For each diagnosis row, whether some patient row carries its identifier. */
  function KnownFlags(d: Table, p: Table): (r: seq<bool>)
    requires WellFormed(d) && WellFormed(p) && RegistryId in d.names && RegistryId in p.names
    ensures |r| == d.height && forall i :: 0 <= i < d.height ==> r[i] == (KeyColumn(d)[i] in KeyColumn(p))
  {
    seq(d.height, i requires 0 <= i < d.height => KeyColumn(d)[i] in KeyColumn(p))
  }

  /** Every diagnosis row is counted as matched exactly when every diagnosis identifier belongs to some patient. */
  lemma MatchedDiagnosesSpec(d: Table, p: Table)
    requires WellFormed(d) && WellFormed(p) && RegistryId in d.names && RegistryId in p.names
    ensures MatchedDiagnoses(d, p) == d.height <==> forall i :: 0 <= i < d.height ==> KeyColumn(d)[i] in KeyColumn(p)
    ensures MatchedDiagnoses(d, p) == 0 <==> forall i :: 0 <= i < d.height ==> KeyColumn(d)[i] !in KeyColumn(p)
  {
    CountTrueBound(KnownFlags(d, p));
    CountTrueZero(KnownFlags(d, p));
  }

  /**
   * When no patient column shares a name with a diagnosis column and none
   * is called `..._PATIENT`, the as-written count is every result row,
   * matched or not.
   */
  lemma MatchedAsWrittenWithoutCollisions(d: Table, p: Table)
    requires WellFormed(d) && WellFormed(p) && RegistryId in d.names && RegistryId in p.names
    requires forall j :: 0 <= j < |p.names| ==> !Collides(p.names[j], d.names) && !EndsWith(p.names[j], PatientSuffix)
    requires forall j :: 0 <= j < |d.names| ==> !EndsWith(d.names[j], PatientSuffix)
    ensures MatchedAsWritten(MergeTable(d, p)) == MergeTable(d, p).height
  {
    var m := MergeTable(d, p);
    var rc := RightColumns(p.names);
    forall j | 0 <= j < |m.names| ensures !EndsWith(m.names[j], PatientSuffix) {
      if j < |d.names| {
        assert !Collides(d.names[j], p.names);
      } else {
        assert m.names[j] == p.names[rc[j - |d.names|]];
      }
    }
    CountTrueBound(FilledFlags(m));
  }

  /** The diagnosis table of the example: A1 with FLU and B2 with COLD. */
  function ExampleDiagnoses(): (t: Table)
    ensures WellFormed(t) && RegistryId in t.names && t.height == 2
  {
    Table([RegistryId, "DIAGNOSIS"],
          [[Val(Str("A1")), Val(Str("B2"))], [Val(Str("FLU")), Val(Str("COLD"))]],
          2)
  }

  /** The patient table of the example: A1, aged 34, male. */
  function ExamplePatients(): (t: Table)
    ensures WellFormed(t) && RegistryId in t.names && t.height == 1
  {
    Table([RegistryId, "AGE", "GENDER"],
          [[Val(Str("A1"))], [Val(Int(34))], [Val(Str("MALE"))]],
          1)
  }

  /**
   * One of the two diagnoses belongs to a known patient, yet the count as
   * written reports both as matched: with no colliding name there is no
   * `_PATIENT` column to test.
   */
  lemma MatchCountOvercounts()
    ensures MatchedDiagnoses(ExampleDiagnoses(), ExamplePatients()) == 1
    ensures MatchedAsWritten(MergeTable(ExampleDiagnoses(), ExamplePatients())) == 2
  {
    var d, p := ExampleDiagnoses(), ExamplePatients();
    assert KeyColumn(d) == [Val(Str("A1")), Val(Str("B2"))];
    assert KeyColumn(p) == [Val(Str("A1"))];
    var flags := KnownFlags(d, p);
    assert flags == [true, false];
    assert flags[..1] == [true];
    assert flags[..1][..0] == [];
    assert CountTrue([true]) == 1;
    assert CountTrue([true, false]) == 1;
    forall j | 0 <= j < |p.names| ensures !Collides(p.names[j], d.names) && !EndsWith(p.names[j], PatientSuffix) {
    }
    forall j | 0 <= j < |d.names| ensures !EndsWith(d.names[j], PatientSuffix) {
    }
    MatchedAsWrittenWithoutCollisions(d, p);
    assert MergeTable(d, p).height == 2 by {
      MergeRowCountWithUniquePatients(d, p);
    }
  }
}
