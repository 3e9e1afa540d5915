/** DatasetExtensions.CalculateDistances: classify the properties by type,
    read every record's numeric and categorical features into row arrays,
    min/max-normalise the numeric columns in place, and store the Gower
    distance of every pair i < j under the canonically ordered pair of the
    two records' keys. */
module DistanceTable {
  import opened Common
  import opened FeatureSchema

  /** The value 1e-8 that replaces a range of exactly zero. */
  const RangeFloor: real := 0.00000001

  type Table = map<(string, string), real>

  /** A feature value as the table reads it: null counts as 0 (0.0 for a
      numeric value, the code 0 for a categorical one). */
  function ReadOrZero(r: Record, f: nat): real
    requires f < |r.values|
  {
    r.values[f].GetOr(0.0)
  }

  /** A null categorical value and an explicit 0 read alike. */
  lemma MissingReadsAsZero(r: Record, s: Record, f: nat)
    requires f < |r.values| && f < |s.values|
    requires r.values[f].None? && s.values[f] == Some(0.0)
    ensures ReadOrZero(r, f) == ReadOrZero(s, f) == 0.0
  {
  }

  function Ids(rows: seq<Record>): (ids: seq<string>)
    ensures |ids| == |rows|
  {
    seq(|rows|, i requires 0 <= i < |rows| => rows[i].id)
  }

  predicate Distinct(ids: seq<string>) {
    forall i, j :: 0 <= i < j < |ids| ==> ids[i] != ids[j]
  }

  /** Every feature index names a value slot of every row. */
  predicate Readable(rows: seq<Record>, F: Features) {
    forall i :: 0 <= i < |rows| ==> FitsWidth(F, |rows[i].values|)
  }

  /** One record's values for the given features, null read as 0. */
  function RawRow(r: Record, feats: seq<nat>): (row: seq<real>)
    requires forall k :: 0 <= k < |feats| ==> feats[k] < |r.values|
    ensures |row| == |feats|
  {
    seq(|feats|, k requires 0 <= k < |feats| => ReadOrZero(r, feats[k]))
  }

  function RawRows(rows: seq<Record>, feats: seq<nat>): (m: seq<seq<real>>)
    requires forall i, k :: 0 <= i < |rows| && 0 <= k < |feats| ==> feats[k] < |rows[i].values|
    ensures |m| == |rows|
  {
    seq(|rows|, i requires 0 <= i < |rows| => RawRow(rows[i], feats))
  }

  /** The column of property f, null read as 0. */
  function ValueColumn(rows: seq<Record>, f: nat): (col: seq<real>)
    requires forall i :: 0 <= i < |rows| ==> f < |rows[i].values|
    ensures |col| == |rows|
  {
    seq(|rows|, i requires 0 <= i < |rows| => ReadOrZero(rows[i], f))
  }

  /** What a running minimum seeded with double.MaxValue holds after the
      values of col (None is the untouched seed). */
  function RunningMin(col: seq<real>): Option<real> {
    if col == [] then None else Some(SeqMin(col))
  }

  /** The same for a running maximum seeded with double.MinValue. */
  function RunningMax(col: seq<real>): Option<real> {
    if col == [] then None else Some(SeqMax(col))
  }

  /** One step of the running minimum: `if (v < min) min = v`. */
  function MinStep(m: Option<real>, v: real): Option<real> {
    if m.None? || v < m.value then Some(v) else m
  }

  /** One step of the running maximum: `if (v > max) max = v`. */
  function MaxStep(m: Option<real>, v: real): Option<real> {
    if m.None? || v > m.value then Some(v) else m
  }

  /** The running extremes after one more value are one step from the old ones. */
  lemma RunningStep(col: seq<real>, v: real)
    ensures RunningMin(col + [v]) == MinStep(RunningMin(col), v)
    ensures RunningMax(col + [v]) == MaxStep(RunningMax(col), v)
  {
    assert (col + [v])[..|col|] == col;
  }

  /** The range a column with least value lo and greatest value hi is scaled by. */
  function TableRange(lo: real, hi: real): (r: real)
    ensures lo <= hi ==> r > 0.0
  {
    if hi - lo == 0.0 then RangeFloor else hi - lo
  }

  /** The ranges array entry: both seeds untouched only for an empty list,
      where no row is ever scaled. */
  function RangeOf(lo: Option<real>, hi: Option<real>): real {
    if lo.Some? && hi.Some? then TableRange(lo.value, hi.value) else RangeFloor
  }

  /** The normalised value of numeric property f in row i. */
  function Scaled(rows: seq<Record>, f: nat, i: nat): (v: real)
    requires i < |rows|
    requires forall j :: 0 <= j < |rows| ==> f < |rows[j].values|
    ensures 0.0 <= v <= 1.0
  {
    var col := ValueColumn(rows, f);
    var lo, hi := SeqMin(col), SeqMax(col);
    UnitQuotient(col[i] - lo, TableRange(lo, hi));
    (col[i] - lo) / TableRange(lo, hi)
  }

  lemma UnitQuotient(a: real, b: real)
    requires b > 0.0 && 0.0 <= a && (a == 0.0 || a <= b)
    ensures 0.0 <= a / b <= 1.0
  {
  }

  /** The normalised numeric rows of the table. */
  function NumRows(rows: seq<Record>, num: seq<nat>): (m: seq<seq<real>>)
    requires forall i, k :: 0 <= i < |rows| && 0 <= k < |num| ==> num[k] < |rows[i].values|
    ensures |m| == |rows|
  {
    seq(|rows|, i requires 0 <= i < |rows| =>
      seq(|num|, k requires 0 <= k < |num| => Scaled(rows, num[k], i)))
  }

  /** A row of the numeric array after the in-place normalisation loop. */
  function ScaleRow(row: seq<real>, mins: seq<Option<real>>, ranges: seq<real>): (r: seq<real>)
    requires |row| == |mins| == |ranges|
    requires forall k :: 0 <= k < |ranges| ==> ranges[k] != 0.0
    ensures |r| == |row|
  {
    seq(|row|, k requires 0 <= k < |row| => (row[k] - mins[k].GetOr(0.0)) / ranges[k])
  }

  // ---------------------------------------------------------------------
  // The Gower distance of two rows

  /** Sum of |x[k] - y[k]|, accumulated left to right. */
  function AbsDiffSum(x: seq<real>, y: seq<real>): (s: real)
    requires |x| == |y|
    ensures s >= 0.0
  {
    if x == [] then 0.0 else AbsDiffSum(x[..|x| - 1], y[..|y| - 1]) + Abs(x[|x| - 1] - y[|y| - 1])
  }

  /** Number of positions where the categorical codes differ. */
  function Mismatches(x: seq<real>, y: seq<real>): (m: nat)
    requires |x| == |y|
    ensures m <= |x|
  {
    if x == [] then 0
    else Mismatches(x[..|x| - 1], y[..|y| - 1]) + (if x[|x| - 1] == y[|y| - 1] then 0 else 1)
  }

  /** (Σ|Δ numeric| + categorical mismatches) / (numeric + categorical features). */
  function Gower(xn: seq<real>, yn: seq<real>, xc: seq<real>, yc: seq<real>): real
    requires |xn| == |yn| && |xc| == |yc| && |xn| + |xc| > 0
  {
    (AbsDiffSum(xn, yn) + Mismatches(xc, yc) as real) / (|xn| + |xc|) as real
  }

  lemma {:induction false} AbsDiffSumSymmetric(x: seq<real>, y: seq<real>)
    requires |x| == |y|
    ensures AbsDiffSum(x, y) == AbsDiffSum(y, x)
  {
    if x != [] {
      AbsDiffSumSymmetric(x[..|x| - 1], y[..|y| - 1]);
    }
  }

  lemma {:induction false} AbsDiffSumAtMost(x: seq<real>, y: seq<real>)
    requires |x| == |y|
    requires forall k :: 0 <= k < |x| ==> 0.0 <= x[k] <= 1.0 && 0.0 <= y[k] <= 1.0
    ensures AbsDiffSum(x, y) <= |x| as real
  {
    if x != [] {
      AbsDiffSumAtMost(x[..|x| - 1], y[..|y| - 1]);
    }
  }

  lemma {:induction false} MismatchesSymmetric(x: seq<real>, y: seq<real>)
    requires |x| == |y|
    ensures Mismatches(x, y) == Mismatches(y, x)
  {
    if x != [] {
      MismatchesSymmetric(x[..|x| - 1], y[..|y| - 1]);
    }
  }

  lemma {:induction false} SelfDifferencesZero(x: seq<real>)
    ensures AbsDiffSum(x, x) == 0.0 && Mismatches(x, x) == 0
  {
    if x != [] {
      SelfDifferencesZero(x[..|x| - 1]);
    }
  }

  lemma GowerSymmetric(xn: seq<real>, yn: seq<real>, xc: seq<real>, yc: seq<real>)
    requires |xn| == |yn| && |xc| == |yc| && |xn| + |xc| > 0
    ensures Gower(xn, yn, xc, yc) == Gower(yn, xn, yc, xc)
  {
    AbsDiffSumSymmetric(xn, yn);
    MismatchesSymmetric(xc, yc);
  }

  lemma GowerSelfZero(xn: seq<real>, xc: seq<real>)
    requires |xn| + |xc| > 0
    ensures Gower(xn, xn, xc, xc) == 0.0
  {
    SelfDifferencesZero(xn);
    SelfDifferencesZero(xc);
  }

  /** With numeric values normalised into [0, 1], a distance lies in [0, 1]. */
  lemma GowerInUnitInterval(xn: seq<real>, yn: seq<real>, xc: seq<real>, yc: seq<real>)
    requires |xn| == |yn| && |xc| == |yc| && |xn| + |xc| > 0
    requires forall k :: 0 <= k < |xn| ==> 0.0 <= xn[k] <= 1.0 && 0.0 <= yn[k] <= 1.0
    ensures 0.0 <= Gower(xn, yn, xc, yc) <= 1.0
  {
    AbsDiffSumAtMost(xn, yn);
    var d := (|xn| + |xc|) as real;
    UnitQuotient(AbsDiffSum(xn, yn) + Mismatches(xc, yc) as real, d);
  }

  method PairDistance(xn: seq<real>, yn: seq<real>, xc: seq<real>, yc: seq<real>) returns (gower: real)
    requires |xn| == |yn| && |xc| == |yc| && |xn| + |xc| > 0
    ensures gower == Gower(xn, yn, xc, yc)
  {
    var sum := 0.0;
    for k := 0 to |xn|
      invariant sum == AbsDiffSum(xn[..k], yn[..k])
    {
      assert xn[..k + 1][..k] == xn[..k] && yn[..k + 1][..k] == yn[..k];
      sum := sum + Abs(xn[k] - yn[k]);
    }
    assert xn[..|xn|] == xn && yn[..|yn|] == yn;
    for k := 0 to |xc|
      invariant sum == AbsDiffSum(xn, yn) + Mismatches(xc[..k], yc[..k]) as real
    {
      assert xc[..k + 1][..k] == xc[..k] && yc[..k + 1][..k] == yc[..k];
      sum := sum + (if xc[k] == yc[k] then 0.0 else 1.0);
    }
    assert xc[..|xc|] == xc && yc[..|yc|] == yc;
    gower := sum / (|xn| + |xc|) as real;
  }

  // ---------------------------------------------------------------------
  // The table

  predicate Shaped(num: seq<seq<real>>, cat: seq<seq<real>>, numNum: nat, numCat: nat) {
    |num| == |cat| &&
    forall i :: 0 <= i < |num| ==> |num[i]| == numNum && |cat[i]| == numCat
  }

  /** One id and one row of each kind per record, and a non-zero divisor
      whenever there is a pair. */
  predicate Fits(ids: seq<string>, num: seq<seq<real>>, cat: seq<seq<real>>, numNum: nat, numCat: nat) {
    |ids| == |num| && Shaped(num, cat, numNum, numCat) && (|ids| >= 2 ==> numNum + numCat > 0)
  }

  /** t holds, for every pair i < j, the distance of rows i and j under the
      canonical key of their ids, and nothing else. */
  ghost predicate IsDistanceTable(t: Table, ids: seq<string>, num: seq<seq<real>>, cat: seq<seq<real>>,
                                  numNum: nat, numCat: nat)
  {
    Fits(ids, num, cat, numNum, numCat) &&
    (forall i, j {:trigger CanonicalKey(ids[i], ids[j])} :: 0 <= i < j < |ids| ==>
      CanonicalKey(ids[i], ids[j]) in t &&
      t[CanonicalKey(ids[i], ids[j])] == Gower(num[i], num[j], cat[i], cat[j])) &&
    (forall p :: p in t ==> exists i, j {:trigger CanonicalKey(ids[i], ids[j])} :: 0 <= i < j < |ids| && p == CanonicalKey(ids[i], ids[j]))
  }

  /** Every key of a table over distinct ids is canonical and never a self-pair. */
  lemma TableKeysCanonical(t: Table, ids: seq<string>, num: seq<seq<real>>, cat: seq<seq<real>>,
                           numNum: nat, numCat: nat)
    requires Fits(ids, num, cat, numNum, numCat)
    requires Distinct(ids)
    requires IsDistanceTable(t, ids, num, cat, numNum, numCat)
    ensures forall p :: p in t ==> StringLe(p.0, p.1) && p.0 != p.1
  {
    forall p | p in t ensures StringLe(p.0, p.1) && p.0 != p.1 {
      var i, j :| 0 <= i < j < |ids| && p == CanonicalKey(ids[i], ids[j]);
      CanonicalKeyOrdered(ids[i], ids[j]);
    }
  }

  /** The lookup of (ids[j], ids[i]) finds the same entry as (ids[i], ids[j]). */
  lemma TableLookupSymmetric(t: Table, ids: seq<string>, num: seq<seq<real>>, cat: seq<seq<real>>,
                             numNum: nat, numCat: nat, i: nat, j: nat)
    requires Fits(ids, num, cat, numNum, numCat)
    requires IsDistanceTable(t, ids, num, cat, numNum, numCat)
    requires i < |ids| && j < |ids| && i != j
    ensures CanonicalKey(ids[j], ids[i]) in t
    ensures t[CanonicalKey(ids[j], ids[i])] == Gower(num[i], num[j], cat[i], cat[j])
  {
    CanonicalKeySymmetric(ids[i], ids[j]);
    if j < i {
      GowerSymmetric(num[j], num[i], cat[j], cat[i]);
    }
  }

  /** Over normalised rows every stored distance lies in [0, 1]. */
  lemma TableValuesInUnitInterval(t: Table, ids: seq<string>, num: seq<seq<real>>, cat: seq<seq<real>>,
                                  numNum: nat, numCat: nat)
    requires Fits(ids, num, cat, numNum, numCat)
    requires forall i, k :: 0 <= i < |num| && 0 <= k < numNum ==> 0.0 <= num[i][k] <= 1.0
    requires IsDistanceTable(t, ids, num, cat, numNum, numCat)
    ensures forall p :: p in t ==> 0.0 <= t[p] <= 1.0
  {
    forall p | p in t ensures 0.0 <= t[p] <= 1.0 {
      var i, j :| 0 <= i < j < |ids| && p == CanonicalKey(ids[i], ids[j]);
      GowerInUnitInterval(num[i], num[j], cat[i], cat[j]);
    }
  }

  /** Pair (a, b) is visited before pair (i, j) by the nested loops. */
  predicate Before(a: int, b: int, i: int, j: int) {
    a < i || (a == i && b < j)
  }

  /** t holds the entry of every pair visited before (i, j). */
  ghost predicate Holds(t: Table, ids: seq<string>, num: seq<seq<real>>, cat: seq<seq<real>>,
                        numNum: nat, numCat: nat, i: int, j: int)
  {
    Fits(ids, num, cat, numNum, numCat) &&
    forall a, b {:trigger CanonicalKey(ids[a], ids[b])} :: 0 <= a < b < |ids| && Before(a, b, i, j) ==>
      CanonicalKey(ids[a], ids[b]) in t &&
      t[CanonicalKey(ids[a], ids[b])] == Gower(num[a], num[b], cat[a], cat[b])
  }

  /** Every key of t belongs to a pair visited before (i, j). */
  ghost predicate Only(t: Table, ids: seq<string>, i: int, j: int) {
    forall p :: p in t ==>
      exists a, b {:trigger CanonicalKey(ids[a], ids[b])} :: 0 <= a < b < |ids| && Before(a, b, i, j) && p == CanonicalKey(ids[a], ids[b])
  }

  ghost predicate Visited(t: Table, ids: seq<string>, num: seq<seq<real>>, cat: seq<seq<real>>,
                          numNum: nat, numCat: nat, i: int, j: int)
  {
    Holds(t, ids, num, cat, numNum, numCat, i, j) && Only(t, ids, i, j)
  }

  /** Over distinct ids, different pairs have different keys. */
  lemma DistinctPairKeys(ids: seq<string>, a: nat, b: nat, i: nat, j: nat)
    requires Distinct(ids) && a < b < |ids| && i < j < |ids| && (a != i || b != j)
    ensures CanonicalKey(ids[a], ids[b]) != CanonicalKey(ids[i], ids[j])
  {
    CanonicalKeyOrdered(ids[a], ids[b]);
    CanonicalKeyOrdered(ids[i], ids[j]);
  }

  /** The key of (i, j) is not among the keys of the pairs visited before it. */
  lemma VisitFresh(t: Table, ids: seq<string>, i: nat, j: nat)
    requires Distinct(ids) && i < j < |ids|
    requires Only(t, ids, i, j)
    ensures CanonicalKey(ids[i], ids[j]) !in t
  {
    var key := CanonicalKey(ids[i], ids[j]);
    forall a, b | 0 <= a < b < |ids| && Before(a, b, i, j) ensures CanonicalKey(ids[a], ids[b]) != key {
      DistinctPairKeys(ids, a, b, i, j);
    }
  }

  lemma VisitOnly(t: Table, ids: seq<string>, i: nat, j: nat, g: real)
    requires i < j < |ids|
    requires Only(t, ids, i, j)
    ensures Only(t[CanonicalKey(ids[i], ids[j]) := g], ids, i, j + 1)
  {
    var key := CanonicalKey(ids[i], ids[j]);
    var t' := t[key := g];
    forall p | p in t'
      ensures exists a, b {:trigger CanonicalKey(ids[a], ids[b])} :: 0 <= a < b < |ids| && Before(a, b, i, j + 1) && p == CanonicalKey(ids[a], ids[b])
    {
      if p == key {
        assert Before(i, j, i, j + 1);
      } else {
        var a, b :| 0 <= a < b < |ids| && Before(a, b, i, j) && p == CanonicalKey(ids[a], ids[b]);
        assert Before(a, b, i, j + 1);
      }
    }
  }

  lemma VisitHolds(t: Table, ids: seq<string>, num: seq<seq<real>>, cat: seq<seq<real>>,
                   numNum: nat, numCat: nat, i: nat, j: nat)
    requires Fits(ids, num, cat, numNum, numCat)
    requires Distinct(ids) && i < j < |ids|
    requires Holds(t, ids, num, cat, numNum, numCat, i, j)
    ensures Holds(t[CanonicalKey(ids[i], ids[j]) := Gower(num[i], num[j], cat[i], cat[j])],
                  ids, num, cat, numNum, numCat, i, j + 1)
  {
    var t' := t[CanonicalKey(ids[i], ids[j]) := Gower(num[i], num[j], cat[i], cat[j])];
    forall a, b | 0 <= a < b < |ids| && Before(a, b, i, j + 1)
      ensures CanonicalKey(ids[a], ids[b]) in t' &&
              t'[CanonicalKey(ids[a], ids[b])] == Gower(num[a], num[b], cat[a], cat[b])
    {
      if a != i || b != j {
        DistinctPairKeys(ids, a, b, i, j);
        assert Before(a, b, i, j);
      }
    }
  }

  /** Visiting (i, j) adds a key not yet in the table. */
  lemma VisitStep(t: Table, ids: seq<string>, num: seq<seq<real>>, cat: seq<seq<real>>,
                  numNum: nat, numCat: nat, i: nat, j: nat, key: (string, string), g: real)
    requires Fits(ids, num, cat, numNum, numCat)
    requires Distinct(ids) && i < j < |ids|
    requires Visited(t, ids, num, cat, numNum, numCat, i, j)
    requires key == CanonicalKey(ids[i], ids[j]) && g == Gower(num[i], num[j], cat[i], cat[j])
    ensures key !in t
    ensures Visited(t[key := g], ids, num, cat, numNum, numCat, i, j + 1)
  {
    VisitFresh(t, ids, i, j);
    VisitOnly(t, ids, i, j, Gower(num[i], num[j], cat[i], cat[j]));
    VisitHolds(t, ids, num, cat, numNum, numCat, i, j);
  }

  /** Two positions of the loops that have visited the same pairs. */
  lemma VisitedSame(t: Table, ids: seq<string>, num: seq<seq<real>>, cat: seq<seq<real>>,
                    numNum: nat, numCat: nat, i: int, j: int, i': int, j': int)
    requires Fits(ids, num, cat, numNum, numCat)
    requires forall a, b :: 0 <= a < b < |ids| ==> (Before(a, b, i, j) <==> Before(a, b, i', j'))
    requires Visited(t, ids, num, cat, numNum, numCat, i, j)
    ensures Visited(t, ids, num, cat, numNum, numCat, i', j')
  {
    forall p | p in t
      ensures exists a, b {:trigger CanonicalKey(ids[a], ids[b])} :: 0 <= a < b < |ids| && Before(a, b, i', j') && p == CanonicalKey(ids[a], ids[b])
    {
      var a, b :| 0 <= a < b < |ids| && Before(a, b, i, j) && p == CanonicalKey(ids[a], ids[b]);
    }
  }

  /** Once every pair has been visited the table is complete. */
  lemma VisitedAll(t: Table, ids: seq<string>, num: seq<seq<real>>, cat: seq<seq<real>>,
                   numNum: nat, numCat: nat)
    requires Fits(ids, num, cat, numNum, numCat)
    requires Visited(t, ids, num, cat, numNum, numCat, |ids|, |ids| + 1)
    ensures IsDistanceTable(t, ids, num, cat, numNum, numCat)
  {
    forall p | p in t ensures exists a, b {:trigger CanonicalKey(ids[a], ids[b])} :: 0 <= a < b < |ids| && p == CanonicalKey(ids[a], ids[b]) {
      var a, b :| 0 <= a < b < |ids| && Before(a, b, |ids|, |ids| + 1) && p == CanonicalKey(ids[a], ids[b]);
    }
  }

  /** The number of pairs the outer loop has visited before row i. */
  function PairsBefore(n: nat, i: nat): nat
    requires i <= n
  {
    if i == 0 then 0 else PairsBefore(n, i - 1) + (n - i)
  }

  lemma {:induction false} PairsBeforeClosed(n: nat, i: nat)
    requires i <= n
    ensures 2 * PairsBefore(n, i) == i * (2 * n - i - 1)
  {
    if i > 0 {
      PairsBeforeClosed(n, i - 1);
    }
  }

  /** The outer loop visits n(n-1)/2 pairs in all. */
  lemma PairsTotal(n: nat)
    ensures PairsBefore(n, n) == n * (n - 1) / 2
  {
    PairsBeforeClosed(n, n);
    var x := n * (n - 1);
    assert n * (2 * n - n - 1) == x;
    assert 2 * PairsBefore(n, n) == x;
  }

  /** C#'s unchecked `int` arithmetic: x taken modulo 2^32 into the range of
      a 32-bit signed integer. */
  function Wrap32(x: int): (w: int)
    ensures -0x8000_0000 <= w < 0x8000_0000
    ensures (x - w) % 0x1_0000_0000 == 0
  {
    (x + 0x8000_0000) % 0x1_0000_0000 - 0x8000_0000
  }

  /** C#'s `/` on `int` by a positive divisor: it truncates toward zero. */
  function TruncDiv(a: int, b: int): (q: int)
    requires b > 0
    ensures a >= 0 ==> q == a / b
    ensures a < 0 ==> q == -((-a) / b)
  {
    if a >= 0 then a / b else -((-a) / b)
  }

  /** `pairCount = (n * (n - 1)) / 2` computed in 32-bit `int`s. */
  function PairCount(n: nat): int {
    TruncDiv(Wrap32(n * (n - 1)), 2)
  }

  /** The capacity handed to `new Dictionary` is negative, which makes the
      constructor throw ArgumentOutOfRangeException. */
  predicate CapacityFails(n: nat) {
    PairCount(n) < 0
  }

  /** Multiplication by a natural number is monotonic. */
  lemma {:induction false} MulMonotonic(a: nat, b: nat, c: nat)
    requires a <= b
    ensures a * c <= b * c
  {
    if c > 0 {
      MulMonotonic(a, b, c - 1);
      assert a * c == a * (c - 1) + a && b * c == b * (c - 1) + b;
    }
  }

  /** A value already in the range of `int` is its own wrap. */
  lemma WrapInRange(x: int)
    requires -0x8000_0000 <= x < 0x8000_0000
    ensures Wrap32(x) == x
  {
    assert 0 <= x + 0x8000_0000 < 0x1_0000_0000;
  }

  /** Up to 46341 records the product fits in an `int`, and pairCount is the
      number of pairs the loops visit. */
  lemma PairCountExact(n: nat)
    requires n <= 46341
    ensures PairCount(n) == PairsBefore(n, n) && !CapacityFails(n)
  {
    PairsTotal(n);
    if n > 0 {
      var x := n * (n - 1);
      MulMonotonic(n, 46341, n - 1);
      MulMonotonic(n - 1, 46340, 46341);
      assert x <= 46341 * (n - 1) == (n - 1) * 46341 <= 46340 * 46341;
      WrapInRange(x);
    }
  }

  /** From 46342 to 65536 records the product wraps to a negative `int`,
      so the capacity is negative and the dictionary cannot be created. */
  lemma PairCountOverflows(n: nat)
    requires 46342 <= n <= 65536
    ensures Wrap32(n * (n - 1)) == n * (n - 1) - 0x1_0000_0000
    ensures CapacityFails(n)
  {
    var x := n * (n - 1);
    MulMonotonic(46342, n, n - 1);
    MulMonotonic(n, 65536, n - 1);
    MulMonotonic(46341, n - 1, 46342);
    MulMonotonic(n - 1, 65535, 65536);
    assert 46341 * 46342 <= (n - 1) * 46342 == 46342 * (n - 1) <= x;
    assert x <= 65536 * (n - 1) == (n - 1) * 65536 <= 65535 * 65536;
    var y := x + 0x8000_0000;
    assert 0x1_0000_0000 <= y < 2 * 0x1_0000_0000;
    assert y % 0x1_0000_0000 == y - 0x1_0000_0000;
  }

  /** One iteration of the outer loop: the distances of row i to every later row. */
  method VisitRow(keys: seq<string>, numData: seq<seq<real>>, catData: seq<seq<real>>,
                  numNum: nat, numCat: nat, i: nat, table: Table) returns (result: Table)
    requires Fits(keys, numData, catData, numNum, numCat) && i < |keys|
    requires Distinct(keys)
    requires Visited(table, keys, numData, catData, numNum, numCat, i, i + 1)
    ensures Visited(result, keys, numData, catData, numNum, numCat, i + 1, i + 2)
    ensures |result| == |table| + (|keys| - i - 1)
  {
    var n := |keys|;
    result := table;
    for j := i + 1 to n
      invariant Visited(result, keys, numData, catData, numNum, numCat, i, j)
      invariant |result| == |table| + (j - i - 1)
    {
      var gower := PairDistance(numData[i], numData[j], catData[i], catData[j]);
      var key := if StringLe(keys[i], keys[j]) then (keys[i], keys[j]) else (keys[j], keys[i]);
      VisitStep(result, keys, numData, catData, numNum, numCat, i, j, key, gower);
      result := result[key := gower];
    }
    VisitedSame(result, keys, numData, catData, numNum, numCat, i, n, i + 1, i + 2);
  }

  /** The upper-triangle loop.  Each row's buffer is merged into the result
      as it is produced; with distinct keys no entry is written twice. */
  method BuildTable(keys: seq<string>, numData: seq<seq<real>>, catData: seq<seq<real>>,
                    numNum: nat, numCat: nat) returns (result: Table)
    requires Fits(keys, numData, catData, numNum, numCat)
    requires Distinct(keys)
    ensures IsDistanceTable(result, keys, numData, catData, numNum, numCat)
    ensures |result| == PairsBefore(|keys|, |keys|)
  {
    var n := |keys|;
    result := map[];
    for i := 0 to n
      invariant Visited(result, keys, numData, catData, numNum, numCat, i, i + 1)
      invariant |result| == PairsBefore(n, i)
    {
      result := VisitRow(keys, numData, catData, numNum, numCat, i, result);
    }
    VisitedAll(result, keys, numData, catData, numNum, numCat);
  }

  /** The search behind `Single`: how many properties outside Label/IsCenter carry the key's name. */
  method CountKeyMatches(schema: Schema, keyName: string) returns (matches: nat)
    ensures matches == KeyMatches(schema, keyName)
  {
    matches := 0;
    for i := 0 to |schema|
      invariant matches == KeyMatches(schema[..i], keyName)
    {
      assert schema[..i + 1][..i] == schema[..i];
      if schema[i].name !in TypeControl && schema[i].name == keyName {
        matches := matches + 1;
      }
    }
    assert schema[..|schema|] == schema;
  }

  /** The by-type classification loop, after `Single` has found the key property. */
  method ClassifyByType(schema: Schema, keyName: string) returns (r: Result<Features>)
    ensures r == TypeFeatures(schema, keyName)
  {
    var matches := CountKeyMatches(schema, keyName);
    if matches != 1 {
      return Err(InvalidOperation);
    }
    var numeric, categorical := [], [];
    for i := 0 to |schema|
      invariant numeric == Indices(schema, TypeNumeric(keyName), i)
      invariant categorical == Indices(schema, TypeCategorical(keyName), i)
    {
      var p := schema[i];
      if p.name !in TypeControl && p.name != keyName {
        if p.kind == IntKind {
          categorical := categorical + [i];
        } else if p.kind == DoubleKind || p.kind == FloatKind || p.kind == DecimalKind {
          numeric := numeric + [i];
        }
      }
    }
    r := Ok(Features(numeric, categorical));
  }

  /** The running minimum of every numeric column over the rows. */
  function ColumnMins(rows: seq<Record>, feats: seq<nat>): (ms: seq<Option<real>>)
    requires forall i, k :: 0 <= i < |rows| && 0 <= k < |feats| ==> feats[k] < |rows[i].values|
    ensures |ms| == |feats|
  {
    seq(|feats|, k requires 0 <= k < |feats| => RunningMin(ValueColumn(rows, feats[k])))
  }

  /** The running maximum of every numeric column over the rows. */
  function ColumnMaxs(rows: seq<Record>, feats: seq<nat>): (ms: seq<Option<real>>)
    requires forall i, k :: 0 <= i < |rows| && 0 <= k < |feats| ==> feats[k] < |rows[i].values|
    ensures |ms| == |feats|
  {
    seq(|feats|, k requires 0 <= k < |feats| => RunningMax(ValueColumn(rows, feats[k])))
  }

  function MinSteps(ms: seq<Option<real>>, row: seq<real>): (r: seq<Option<real>>)
    requires |ms| == |row|
    ensures |r| == |ms|
  {
    seq(|ms|, k requires 0 <= k < |ms| => MinStep(ms[k], row[k]))
  }

  function MaxSteps(ms: seq<Option<real>>, row: seq<real>): (r: seq<Option<real>>)
    requires |ms| == |row|
    ensures |r| == |ms|
  {
    seq(|ms|, k requires 0 <= k < |ms| => MaxStep(ms[k], row[k]))
  }

  /** Reading row i moves the column extremes of rows[..i] to those of rows[..i + 1]. */
  lemma ColumnExtremesStep(rows: seq<Record>, i: nat, feats: seq<nat>)
    requires i < |rows|
    requires forall j, k :: 0 <= j < |rows| && 0 <= k < |feats| ==> feats[k] < |rows[j].values|
    ensures ColumnMins(rows[..i + 1], feats) == MinSteps(ColumnMins(rows[..i], feats), RawRow(rows[i], feats))
    ensures ColumnMaxs(rows[..i + 1], feats) == MaxSteps(ColumnMaxs(rows[..i], feats), RawRow(rows[i], feats))
  {
    forall k | 0 <= k < |feats|
      ensures ColumnMins(rows[..i + 1], feats)[k] == MinSteps(ColumnMins(rows[..i], feats), RawRow(rows[i], feats))[k]
      ensures ColumnMaxs(rows[..i + 1], feats)[k] == MaxSteps(ColumnMaxs(rows[..i], feats), RawRow(rows[i], feats))[k]
    {
      var f := feats[k];
      assert ValueColumn(rows[..i + 1], f) == ValueColumn(rows[..i], f) + [ReadOrZero(rows[i], f)];
      RunningStep(ValueColumn(rows[..i], f), ReadOrZero(rows[i], f));
    }
  }

  /** The numeric part of one row: every value read (null as 0) and folded
      into the running minimum and maximum of its column. */
  method ReadNumericRow(item: Record, feats: seq<nat>, mins: array<Option<real>>, maxs: array<Option<real>>)
    returns (row: seq<real>)
    requires mins != maxs && mins.Length == maxs.Length == |feats|
    requires forall k :: 0 <= k < |feats| ==> feats[k] < |item.values|
    modifies mins, maxs
    ensures row == RawRow(item, feats)
    ensures mins[..] == MinSteps(old(mins[..]), row) && maxs[..] == MaxSteps(old(maxs[..]), row)
  {
    row := [];
    for k := 0 to |feats|
      invariant row == RawRow(item, feats[..k])
      invariant forall k' :: 0 <= k' < k ==>
        mins[k'] == MinStep(old(mins[k']), row[k']) && maxs[k'] == MaxStep(old(maxs[k']), row[k'])
      invariant forall k' :: k <= k' < |feats| ==> mins[k'] == old(mins[k']) && maxs[k'] == old(maxs[k'])
    {
      var v := ReadOrZero(item, feats[k]);
      if mins[k].None? || v < mins[k].value {
        mins[k] := Some(v);
      }
      if maxs[k].None? || v > maxs[k].value {
        maxs[k] := Some(v);
      }
      row := row + [v];
    }
    assert feats[..|feats|] == feats;
  }

  /** The categorical part of one row, null read as code 0. */
  method ReadCategoricalRow(item: Record, feats: seq<nat>) returns (row: seq<real>)
    requires forall k :: 0 <= k < |feats| ==> feats[k] < |item.values|
    ensures row == RawRow(item, feats)
  {
    row := [];
    for k := 0 to |feats|
      invariant row == RawRow(item, feats[..k])
    {
      row := row + [ReadOrZero(item, feats[k])];
    }
    assert feats[..|feats|] == feats;
  }

  /** The arrays of the row loop after its first i iterations. */
  ghost predicate ExtractedUpTo(list: seq<Record>, F: Features, keys: array<string>,
                                numData: array<seq<real>>, catData: array<seq<real>>,
                                mins: array<Option<real>>, maxs: array<Option<real>>, i: nat)
    reads keys, numData, catData, mins, maxs
  {
    Readable(list, F) && i <= |list| &&
    keys.Length == numData.Length == catData.Length == |list| &&
    mins.Length == maxs.Length == |F.numeric| &&
    (forall j :: 0 <= j < i ==> keys[j] == list[j].id) &&
    (forall j :: 0 <= j < i ==> numData[j] == RawRow(list[j], F.numeric)) &&
    (forall j :: 0 <= j < i ==> catData[j] == RawRow(list[j], F.categorical)) &&
    mins[..] == ColumnMins(list[..i], F.numeric) &&
    maxs[..] == ColumnMaxs(list[..i], F.numeric)
  }

  /** One iteration of the row loop. */
  method ReadRecord(list: seq<Record>, F: Features, i: nat, keys: array<string>,
                    numData: array<seq<real>>, catData: array<seq<real>>,
                    mins: array<Option<real>>, maxs: array<Option<real>>)
    requires numData != catData && mins != maxs
    requires ExtractedUpTo(list, F, keys, numData, catData, mins, maxs, i) && i < |list|
    modifies keys, numData, catData, mins, maxs
    ensures ExtractedUpTo(list, F, keys, numData, catData, mins, maxs, i + 1)
  {
    var item := list[i];
    var rowNum := ReadNumericRow(item, F.numeric, mins, maxs);
    var rowCat := ReadCategoricalRow(item, F.categorical);
    ColumnExtremesStep(list, i, F.numeric);
    keys[i] := item.id;
    numData[i] := rowNum;
    catData[i] := rowCat;
  }

  /** The row loop: keys, raw numeric and categorical rows, and the running
      minimum and maximum of every numeric column. */
  method ExtractRows(list: seq<Record>, F: Features)
    returns (keys: array<string>, numData: array<seq<real>>, catData: array<seq<real>>,
             mins: array<Option<real>>, maxs: array<Option<real>>)
    requires Readable(list, F)
    ensures fresh(keys) && fresh(numData) && fresh(catData) && fresh(mins) && fresh(maxs)
    ensures numData != catData && mins != maxs
    ensures keys[..] == Ids(list)
    ensures numData[..] == RawRows(list, F.numeric)
    ensures catData[..] == RawRows(list, F.categorical)
    ensures mins[..] == ColumnMins(list, F.numeric) && maxs[..] == ColumnMaxs(list, F.numeric)
  {
    var n, numNum := |list|, |F.numeric|;
    keys := new string[n];
    numData := new seq<real>[n];
    catData := new seq<real>[n];
    mins := new Option<real>[numNum](_ => None);
    maxs := new Option<real>[numNum](_ => None);
    assert mins[..] == ColumnMins(list[..0], F.numeric) && maxs[..] == ColumnMaxs(list[..0], F.numeric);
    for i := 0 to n
      invariant ExtractedUpTo(list, F, keys, numData, catData, mins, maxs, i)
    {
      ReadRecord(list, F, i, keys, numData, catData, mins, maxs);
    }
    assert list[..n] == list;
  }

  /** The ranges loop. */
  method Ranges(mins: array<Option<real>>, maxs: array<Option<real>>) returns (ranges: array<real>)
    requires mins.Length == maxs.Length
    ensures fresh(ranges) && ranges.Length == mins.Length
    ensures forall k :: 0 <= k < ranges.Length ==> ranges[k] == RangeOf(mins[k], maxs[k])
  {
    ranges := new real[mins.Length];
    for k := 0 to mins.Length
      invariant forall k' :: 0 <= k' < k ==> ranges[k'] == RangeOf(mins[k'], maxs[k'])
    {
      ranges[k] := RangeOf(mins[k], maxs[k]);
    }
  }

  /** Every range the table divides by is positive, so never zero. */
  lemma RangesPositive(list: seq<Record>, num: seq<nat>, k: nat)
    requires forall i, k :: 0 <= i < |list| && 0 <= k < |num| ==> num[k] < |list[i].values|
    requires k < |num|
    ensures RangeOf(ColumnMins(list, num)[k], ColumnMaxs(list, num)[k]) > 0.0
  {
    var col := ValueColumn(list, num[k]);
    if col != [] {
      assert SeqMin(col) <= col[0] <= SeqMax(col);
    }
  }

  /** Scaling the raw numeric row by the column extremes gives the normalised row. */
  lemma ScaledRowMatches(list: seq<Record>, num: seq<nat>, ranges: seq<real>, i: nat)
    requires forall i, k :: 0 <= i < |list| && 0 <= k < |num| ==> num[k] < |list[i].values|
    requires i < |list| && |ranges| == |num|
    requires forall k :: 0 <= k < |num| ==> ranges[k] == RangeOf(ColumnMins(list, num)[k], ColumnMaxs(list, num)[k])
    requires forall k :: 0 <= k < |ranges| ==> ranges[k] != 0.0
    ensures ScaleRow(RawRow(list[i], num), ColumnMins(list, num), ranges) == NumRows(list, num)[i]
  {
    var raw, mins := RawRow(list[i], num), ColumnMins(list, num);
    var lhs, rhs := ScaleRow(raw, mins, ranges), NumRows(list, num)[i];
    forall k | 0 <= k < |num|
      ensures lhs[k] == rhs[k]
    {
      assert raw[k] == ReadOrZero(list[i], num[k]);
      assert mins[k] == RunningMin(ValueColumn(list, num[k]));
      ScaledValueMatches(list, num[k], mins[k], ranges[k], i);
    }
    assert lhs == rhs;
  }

  lemma ScaledValueMatches(list: seq<Record>, f: nat, lo: Option<real>, range: real, i: nat)
    requires forall j :: 0 <= j < |list| ==> f < |list[j].values|
    requires i < |list|
    requires lo == RunningMin(ValueColumn(list, f))
    requires range == RangeOf(lo, RunningMax(ValueColumn(list, f)))
    requires range != 0.0
    ensures (ReadOrZero(list[i], f) - lo.GetOr(0.0)) / range == Scaled(list, f, i)
  {
    assert ValueColumn(list, f)[i] == ReadOrZero(list[i], f);
  }

  /** The in-place normalisation loop: numData[i][k] := (numData[i][k] - mins[k]) / ranges[k]. */
  method Normalise(numData: array<seq<real>>, mins: array<Option<real>>, ranges: array<real>)
    requires mins.Length == ranges.Length
    requires forall i :: 0 <= i < numData.Length ==> |numData[i]| == mins.Length
    requires forall k :: 0 <= k < ranges.Length ==> ranges[k] != 0.0
    modifies numData
    ensures forall i :: 0 <= i < numData.Length ==> numData[i] == ScaleRow(old(numData[i]), mins[..], ranges[..])
  {
    for i := 0 to numData.Length
      invariant forall j :: 0 <= j < i ==> numData[j] == ScaleRow(old(numData[j]), mins[..], ranges[..])
      invariant forall j :: i <= j < numData.Length ==> numData[j] == old(numData[j])
    {
      NormaliseRow(numData, i, mins, ranges);
    }
  }

  /** The inner loop of the normalisation, over row i. */
  method NormaliseRow(numData: array<seq<real>>, i: nat, mins: array<Option<real>>, ranges: array<real>)
    requires i < numData.Length && mins.Length == ranges.Length == |numData[i]|
    requires forall k :: 0 <= k < ranges.Length ==> ranges[k] != 0.0
    modifies numData
    ensures numData[i] == ScaleRow(old(numData[i]), mins[..], ranges[..])
    ensures forall j :: 0 <= j < numData.Length && j != i ==> numData[j] == old(numData[j])
  {
    var m := mins.Length;
    for k := 0 to m
      invariant |numData[i]| == m
      invariant forall k' :: 0 <= k' < k ==> numData[i][k'] == (old(numData[i])[k'] - mins[k'].GetOr(0.0)) / ranges[k']
      invariant forall k' :: k <= k' < m ==> numData[i][k'] == old(numData[i])[k']
      invariant forall j :: 0 <= j < numData.Length && j != i ==> numData[j] == old(numData[j])
    {
      numData[i] := numData[i][k := (numData[i][k] - mins[k].GetOr(0.0)) / ranges[k]];
    }
  }

  /** DatasetExtensions.CalculateDistances over a list with pairwise distinct keys. */
  method CalculateDistances(list: seq<Record>, schema: Schema, keyName: string) returns (res: Result<Table>)
    requires Conforms(list, |schema|)
    requires Distinct(Ids(list))
    requires |list| >= 2 && TypeFeatures(schema, keyName).Ok? ==> Dimension(TypeFeatures(schema, keyName).value) > 0
    ensures res.Err? <==> TypeFeatures(schema, keyName).Err? || CapacityFails(|list|)
    ensures TypeFeatures(schema, keyName).Err? ==> res == Err(TypeFeatures(schema, keyName).error)
    ensures TypeFeatures(schema, keyName).Ok? && CapacityFails(|list|) ==> res == Err(ArgumentOutOfRange)
    ensures res.Ok? ==>
      var F := TypeFeatures(schema, keyName).value;
      IsDistanceTable(res.value, Ids(list), NumRows(list, F.numeric), RawRows(list, F.categorical),
                      |F.numeric|, |F.categorical|) &&
      |res.value| == PairsBefore(|list|, |list|)
  {
    var classified := ClassifyByType(schema, keyName);
    if classified.Err? {
      return Err(classified.error);
    }
    var F := classified.value;
    assert Readable(list, F);
    var keys, numData, catData, mins, maxs := ExtractRows(list, F);
    var ranges := Ranges(mins, maxs);
    forall k | 0 <= k < ranges.Length ensures ranges[k] != 0.0 {
      RangesPositive(list, F.numeric, k);
    }
    Normalise(numData, mins, ranges);
    forall i | 0 <= i < |list| ensures numData[i] == NumRows(list, F.numeric)[i] {
      ScaledRowMatches(list, F.numeric, ranges[..], i);
    }
    if PairCount(|list|) < 0 {
      return Err(ArgumentOutOfRange);
    }
    var ids, num, cat := keys[..], numData[..], catData[..];
    assert ids == Ids(list) && cat == RawRows(list, F.categorical);
    assert num == NumRows(list, F.numeric);
    var table := BuildTable(ids, num, cat, |F.numeric|, |F.categorical|);
    return Ok(table);
  }
}
