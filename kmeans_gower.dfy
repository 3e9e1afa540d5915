/** KMeansGower<T>: k-means over records with mixed features.  The
    constructor classifies the properties by name (as DataPreparation does)
    and records, per numeric feature, the least and greatest present value
    and the range derived from them.  Run(k, maxIter) starts from copies of k
    shuffled records, then repeats: assign every record to the nearest centre
    (lowest index on ties), sum the member-to-centre distances into the
    inertia, stop when it moved by less than 1e-6, and otherwise replace each
    centre by a synthetic record holding the mean (numeric) or mode
    (categorical) of its cluster. */
module GowerKMeans {
  import opened Common
  import opened FeatureSchema
  import Imputation
  import DistanceTable

  /** A numeric range not above this (1e-8) is replaced by 1.0. */
  const RangeTolerance: real := 0.00000001

  /** The run stops once the inertia moves by less than this (1e-6). */
  const Convergence: real := 0.000001

  // ---------------------------------------------------------------------
  // Ranges

  /** `(max - min > 1e-8) ? max - min : 1.0`; with both seeds untouched
      (no present value) the difference is -infinity, so 1.0. */
  function FeatureRange(lo: Option<real>, hi: Option<real>): (r: real)
    ensures r > 0.0
    ensures lo.Some? && hi.Some? ==> r >= hi.value - lo.value
  {
    if lo.Some? && hi.Some? && hi.value - lo.value > RangeTolerance then hi.value - lo.value else 1.0
  }

  /** Every feature index names a value slot of every row. */
  predicate Covers(rows: seq<Record>, feats: seq<nat>) {
    forall i, k :: 0 <= i < |rows| && 0 <= k < |feats| ==> feats[k] < |rows[i].values|
  }

  /** mins after the constructor's scan: the least present value of each
      numeric feature, None (double.MaxValue) when there is none. */
  function PresentMins(rows: seq<Record>, num: seq<nat>): (ms: seq<Option<real>>)
    requires Covers(rows, num)
    ensures |ms| == |num|
  {
    seq(|num|, k requires 0 <= k < |num| => DistanceTable.RunningMin(Present(Column(rows, num[k]))))
  }

  /** maxs after the scan: the greatest present value, None (double.MinValue)
      when there is none. */
  function PresentMaxs(rows: seq<Record>, num: seq<nat>): (ms: seq<Option<real>>)
    requires Covers(rows, num)
    ensures |ms| == |num|
  {
    seq(|num|, k requires 0 <= k < |num| => DistanceTable.RunningMax(Present(Column(rows, num[k]))))
  }

  /** One record of the scan: nulls are skipped, present values move the extremes. */
  function ScanMins(ms: seq<Option<real>>, r: Record, num: seq<nat>): (r': seq<Option<real>>)
    requires |ms| == |num| && forall k :: 0 <= k < |num| ==> num[k] < |r.values|
    ensures |r'| == |ms|
  {
    seq(|ms|, k requires 0 <= k < |ms| =>
      if r.values[num[k]].None? then ms[k] else DistanceTable.MinStep(ms[k], r.values[num[k]].value))
  }

  function ScanMaxs(ms: seq<Option<real>>, r: Record, num: seq<nat>): (r': seq<Option<real>>)
    requires |ms| == |num| && forall k :: 0 <= k < |num| ==> num[k] < |r.values|
    ensures |r'| == |ms|
  {
    seq(|ms|, k requires 0 <= k < |ms| =>
      if r.values[num[k]].None? then ms[k] else DistanceTable.MaxStep(ms[k], r.values[num[k]].value))
  }

  /** Scanning record i moves the extremes of rows[..i] to those of rows[..i + 1]. */
  lemma ExtremesStep(rows: seq<Record>, num: seq<nat>, i: nat)
    requires Covers(rows, num) && i < |rows|
    ensures PresentMins(rows[..i + 1], num) == ScanMins(PresentMins(rows[..i], num), rows[i], num)
    ensures PresentMaxs(rows[..i + 1], num) == ScanMaxs(PresentMaxs(rows[..i], num), rows[i], num)
  {
    forall k | 0 <= k < |num|
      ensures PresentMins(rows[..i + 1], num)[k] == ScanMins(PresentMins(rows[..i], num), rows[i], num)[k]
      ensures PresentMaxs(rows[..i + 1], num)[k] == ScanMaxs(PresentMaxs(rows[..i], num), rows[i], num)[k]
    {
      var f := num[k];
      var before := Column(rows[..i], f);
      assert Column(rows[..i + 1], f) == before + [rows[i].values[f]];
      assert (before + [rows[i].values[f]])[..|before|] == before;
      if rows[i].values[f].Some? {
        DistanceTable.RunningStep(Present(before), rows[i].values[f].value);
      }
    }
  }

  /** Every present value of a numeric feature lies between its extremes,
      and the feature's range is at least their difference. */
  lemma ExtremesBound(rows: seq<Record>, num: seq<nat>, k: nat, i: nat)
    requires Covers(rows, num) && k < |num| && i < |rows| && rows[i].values[num[k]].Some?
    ensures PresentMins(rows, num)[k].Some? && PresentMaxs(rows, num)[k].Some?
    ensures PresentMins(rows, num)[k].value <= rows[i].values[num[k]].value <= PresentMaxs(rows, num)[k].value
    ensures FeatureRange(PresentMins(rows, num)[k], PresentMaxs(rows, num)[k]) >=
      PresentMaxs(rows, num)[k].value - PresentMins(rows, num)[k].value
  {
    var col := Column(rows, num[k]);
    var v := rows[i].values[num[k]].value;
    assert col[i] == Some(v);
    PresentMembers(col, v);
  }

  // ---------------------------------------------------------------------
  // Distance

  /** The feature lists and the ranges a distance uses. */
  datatype Metric = Metric(num: seq<nat>, cat: seq<nat>, ranges: seq<real>)

  /** One positive range per numeric feature, and at least one feature
      (otherwise the division by the dimension yields NaN). */
  predicate MetricOk(M: Metric) {
    |M.ranges| == |M.num| && (forall k :: 0 <= k < |M.ranges| ==> M.ranges[k] > 0.0) &&
    |M.num| + |M.cat| > 0
  }

  /** The record has a value slot for every feature. */
  predicate Measurable(M: Metric, r: Record) {
    (forall k :: 0 <= k < |M.num| ==> M.num[k] < |r.values|) &&
    (forall k :: 0 <= k < |M.cat| ==> M.cat[k] < |r.values|)
  }

  /** The first m numeric terms |xa - xb| / range, a missing value read as 0.0. */
  function NumericSum(M: Metric, a: Record, b: Record, m: nat): (s: real)
    requires MetricOk(M) && Measurable(M, a) && Measurable(M, b) && m <= |M.num|
    ensures s >= 0.0
  {
    if m == 0 then 0.0
    else
      var f := M.num[m - 1];
      NumericSum(M, a, b, m - 1) + Abs(a.values[f].GetOr(0.0) - b.values[f].GetOr(0.0)) / M.ranges[m - 1]
  }

  /** How many of the first m categorical features differ; two nulls are
      equal, a null and a value differ. */
  function CategoricalMismatches(M: Metric, a: Record, b: Record, m: nat): (n: nat)
    requires Measurable(M, a) && Measurable(M, b) && m <= |M.cat|
    ensures n <= m
  {
    if m == 0 then 0
    else CategoricalMismatches(M, a, b, m - 1) + (if a.values[M.cat[m - 1]] == b.values[M.cat[m - 1]] then 0 else 1)
  }

  /** GowerDistance(a, b). */
  function Distance(M: Metric, a: Record, b: Record): (d: real)
    requires MetricOk(M) && Measurable(M, a) && Measurable(M, b)
    ensures d >= 0.0
  {
    (NumericSum(M, a, b, |M.num|) + CategoricalMismatches(M, a, b, |M.cat|) as real) / (|M.num| + |M.cat|) as real
  }

  lemma {:induction false} NumericSumSymmetric(M: Metric, a: Record, b: Record, m: nat)
    requires MetricOk(M) && Measurable(M, a) && Measurable(M, b) && m <= |M.num|
    ensures NumericSum(M, a, b, m) == NumericSum(M, b, a, m)
  {
    if m > 0 {
      NumericSumSymmetric(M, a, b, m - 1);
      var f := M.num[m - 1];
      assert Abs(a.values[f].GetOr(0.0) - b.values[f].GetOr(0.0)) == Abs(b.values[f].GetOr(0.0) - a.values[f].GetOr(0.0));
    }
  }

  lemma {:induction false} MismatchesSymmetric(M: Metric, a: Record, b: Record, m: nat)
    requires Measurable(M, a) && Measurable(M, b) && m <= |M.cat|
    ensures CategoricalMismatches(M, a, b, m) == CategoricalMismatches(M, b, a, m)
  {
    if m > 0 {
      MismatchesSymmetric(M, a, b, m - 1);
    }
  }

  /** The distance is symmetric. */
  lemma DistanceSymmetric(M: Metric, a: Record, b: Record)
    requires MetricOk(M) && Measurable(M, a) && Measurable(M, b)
    ensures Distance(M, a, b) == Distance(M, b, a)
  {
    NumericSumSymmetric(M, a, b, |M.num|);
    MismatchesSymmetric(M, a, b, |M.cat|);
  }

  lemma {:induction false} SelfTermsZero(M: Metric, a: Record, m: nat, m': nat)
    requires MetricOk(M) && Measurable(M, a) && m <= |M.num| && m' <= |M.cat|
    ensures NumericSum(M, a, a, m) == 0.0 && CategoricalMismatches(M, a, a, m') == 0
  {
    if m > 0 {
      SelfTermsZero(M, a, m - 1, m');
    } else if m' > 0 {
      SelfTermsZero(M, a, m, m' - 1);
    }
  }

  /** A record is at distance 0 from itself. */
  lemma DistanceSelfZero(M: Metric, a: Record)
    requires MetricOk(M) && Measurable(M, a)
    ensures Distance(M, a, a) == 0.0
  {
    SelfTermsZero(M, a, |M.num|, |M.cat|);
  }

  /** No categorical mismatch exactly when every categorical value (null
      included) agrees. */
  lemma {:induction false} MismatchesZeroIff(M: Metric, a: Record, b: Record, m: nat)
    requires Measurable(M, a) && Measurable(M, b) && m <= |M.cat|
    ensures CategoricalMismatches(M, a, b, m) == 0 <==>
      forall k :: 0 <= k < m ==> a.values[M.cat[k]] == b.values[M.cat[k]]
  {
    if m > 0 {
      MismatchesZeroIff(M, a, b, m - 1);
    }
  }

  /** A missing numeric value counts as 0.0: reading it as an explicit 0.0
      changes no numeric term. */
  lemma {:induction false} NumericSumReadsZero(M: Metric, a: Record, a': Record, b: Record, m: nat)
    requires MetricOk(M) && Measurable(M, a) && Measurable(M, a') && Measurable(M, b) && m <= |M.num|
    requires forall k :: 0 <= k < m ==> a.values[M.num[k]].GetOr(0.0) == a'.values[M.num[k]].GetOr(0.0)
    ensures NumericSum(M, a, b, m) == NumericSum(M, a', b, m)
  {
    if m > 0 {
      NumericSumReadsZero(M, a, a', b, m - 1);
    }
  }

  lemma {:induction false} MismatchesSame(M: Metric, a: Record, a': Record, b: Record, m: nat)
    requires Measurable(M, a) && Measurable(M, a') && Measurable(M, b) && m <= |M.cat|
    requires forall k :: 0 <= k < m ==> a.values[M.cat[k]] == a'.values[M.cat[k]]
    ensures CategoricalMismatches(M, a, b, m) == CategoricalMismatches(M, a', b, m)
  {
    if m > 0 {
      MismatchesSame(M, a, a', b, m - 1);
    }
  }

  /** Filling a missing numeric value (of a feature that is not categorical)
      with 0.0 leaves every distance unchanged. */
  lemma MissingNumericIsZero(M: Metric, a: Record, b: Record, f: nat)
    requires MetricOk(M) && Measurable(M, a) && Measurable(M, b)
    requires f < |a.values| && a.values[f].None? && f !in M.cat
    ensures Distance(M, a.(values := a.values[f := Some(0.0)]), b) == Distance(M, a, b)
  {
    var a' := a.(values := a.values[f := Some(0.0)]);
    NumericSumReadsZero(M, a, a', b, |M.num|);
    MismatchesSame(M, a, a', b, |M.cat|);
  }

  lemma {:induction false} NumericSumAtMost(M: Metric, a: Record, b: Record, m: nat)
    requires MetricOk(M) && Measurable(M, a) && Measurable(M, b) && m <= |M.num|
    requires forall k :: 0 <= k < m ==>
      Abs(a.values[M.num[k]].GetOr(0.0) - b.values[M.num[k]].GetOr(0.0)) <= M.ranges[k]
    ensures NumericSum(M, a, b, m) <= m as real
  {
    if m > 0 {
      NumericSumAtMost(M, a, b, m - 1);
      var f := M.num[m - 1];
      DistanceTable.UnitQuotient(Abs(a.values[f].GetOr(0.0) - b.values[f].GetOr(0.0)), M.ranges[m - 1]);
    }
  }

  /** When no numeric difference exceeds its range (as for values within
      [min, max]), the distance lies in [0, 1]. */
  lemma DistanceInUnitInterval(M: Metric, a: Record, b: Record)
    requires MetricOk(M) && Measurable(M, a) && Measurable(M, b)
    requires forall k :: 0 <= k < |M.num| ==>
      Abs(a.values[M.num[k]].GetOr(0.0) - b.values[M.num[k]].GetOr(0.0)) <= M.ranges[k]
    ensures 0.0 <= Distance(M, a, b) <= 1.0
  {
    NumericSumAtMost(M, a, b, |M.num|);
    var n := (|M.num| + |M.cat|) as real;
    var s := NumericSum(M, a, b, |M.num|) + CategoricalMismatches(M, a, b, |M.cat|) as real;
    assert s <= n;
    DistanceTable.UnitQuotient(s, n);
  }

  // ---------------------------------------------------------------------
  // One iteration

  /** The records, their schema and the metric of a KMeansGower instance. */
  datatype Setup = Setup(data: seq<Record>, schema: Schema, metric: Metric)

  predicate SetupOk(S: Setup) {
    MetricOk(S.metric) && Conforms(S.data, |S.schema|) &&
    FitsWidth(Features(S.metric.num, S.metric.cat), |S.schema|) &&
    Disjoint(S.metric.num, S.metric.cat)
  }

  /** No feature is both numeric and categorical. */
  predicate Disjoint(num: seq<nat>, cat: seq<nat>) {
    forall k :: 0 <= k < |cat| ==> cat[k] !in num
  }

  /** Records of the schema's width. */
  predicate Fit(S: Setup, rs: seq<Record>) {
    forall c :: 0 <= c < |rs| ==> |rs[c].values| == |S.schema|
  }

  /** Copy(src): a new record with every read-write property copied; the
      rest keep the default a new record has (null). */
  function Copied(schema: Schema, src: Record): (r: Record)
    requires |src.values| == |schema|
  {
    src.(values := seq(|schema|, f requires 0 <= f < |schema| => if schema[f].readWrite then src.values[f] else None))
  }

  /** A copy agrees with its source on every feature, so it is at the same
      distance from every record. */
  lemma CopyKeepsDistance(S: Setup, names: set<string>, x: Record, y: Record)
    requires SetupOk(S) && |x.values| == |S.schema| && |y.values| == |S.schema|
    requires S.metric.num == NameFeatures(S.schema, names).numeric
    requires S.metric.cat == NameFeatures(S.schema, names).categorical
    ensures Distance(S.metric, Copied(S.schema, x), y) == Distance(S.metric, x, y)
  {
    var M := S.metric;
    var x' := Copied(S.schema, x);
    assert forall k :: 0 <= k < |M.num| ==> S.schema[M.num[k]].readWrite;
    assert forall k :: 0 <= k < |M.cat| ==> S.schema[M.cat[k]].readWrite;
    NumericSumReadsZero(M, x', x, y, |M.num|);
    MismatchesSame(M, x', x, y, |M.cat|);
  }
  /** `data.OrderBy(random).Take(k).Select(Copy)`. */
  function InitialCenters(S: Setup, order: seq<nat>, k: int): (cs: seq<Record>)
    requires Conforms(S.data, |S.schema|) && IsPermutation(order, |S.data|)
    ensures Fit(S, cs)
  {
    var count := if k <= 0 then 0 else if k < |S.data| then k else |S.data|;
    seq(count, c requires 0 <= c < count => Copied(S.schema, S.data[order[c]]))
  }

  /** The initial centres are copies of min(k, n) records at distinct positions. */
  lemma InitialCentersDistinct(S: Setup, order: seq<nat>, k: int)
    requires Conforms(S.data, |S.schema|) && IsPermutation(order, |S.data|)
    ensures |InitialCenters(S, order, k)| == if k <= 0 then 0 else if k < |S.data| then k else |S.data|
    ensures forall c :: 0 <= c < |InitialCenters(S, order, k)| ==>
      order[c] < |S.data| && InitialCenters(S, order, k)[c] == Copied(S.schema, S.data[order[c]])
    ensures forall c, c' :: 0 <= c < c' < |InitialCenters(S, order, k)| ==> order[c] != order[c']
  {
  }

  /** The distances from x to the first k centres. */
  function Distances(S: Setup, x: Record, centers: seq<Record>, k: nat): (ds: seq<real>)
    requires SetupOk(S) && |x.values| == |S.schema| && Fit(S, centers) && k <= |centers|
    ensures |ds| == k
  {
    seq(k, c requires 0 <= c < k => Distance(S.metric, x, centers[c]))
  }

  /** The centre each record is assigned to. */
  function Assignment(S: Setup, centers: seq<Record>, k: nat): (assign: seq<nat>)
    requires SetupOk(S) && Fit(S, centers)
    requires |S.data| > 0 ==> 0 < k <= |centers|
    ensures |assign| == |S.data|
  {
    seq(|S.data|, i requires 0 <= i < |S.data| => ArgMin(Distances(S, S.data[i], centers, k), k))
  }

  /** Each record goes to the centre at least distance, the lowest-index one
      among equals. */
  lemma AssignmentNearest(S: Setup, centers: seq<Record>, k: nat, i: nat)
    requires SetupOk(S) && Fit(S, centers) && 0 < k <= |centers| && i < |S.data|
    ensures Assignment(S, centers, k)[i] < k
    ensures forall c :: 0 <= c < k ==>
      Distance(S.metric, S.data[i], centers[Assignment(S, centers, k)[i]]) <= Distance(S.metric, S.data[i], centers[c])
    ensures forall c :: 0 <= c < Assignment(S, centers, k)[i] ==>
      Distance(S.metric, S.data[i], centers[Assignment(S, centers, k)[i]]) < Distance(S.metric, S.data[i], centers[c])
  {
    var ds := Distances(S, S.data[i], centers, k);
    assert Assignment(S, centers, k)[i] == ArgMin(ds, k);
    assert forall c :: 0 <= c < k ==> ds[c] == Distance(S.metric, S.data[i], centers[c]);
  }

  /** The cluster dictionary: key c holds the records assigned to c, in list order. */
  function Clusters(assign: seq<nat>, k: nat): (cl: seq<seq<nat>>)
    ensures |cl| == k
  {
    seq(k, c requires 0 <= c < k => Members(assign, c, |assign|))
  }

  /** The clusters of a longer prefix of the assignment. */
  lemma ClustersGrow(assign: seq<nat>, i: nat, k: nat)
    requires i < |assign| && assign[i] < k
    ensures Clusters(assign[..i + 1], k) == Clusters(assign[..i], k)[assign[i] := Clusters(assign[..i], k)[assign[i]] + [i]]
  {
    assert assign[..i + 1] == assign[..i] + [assign[i]];
    ClustersStep(assign[..i], assign[i], k);
  }

  /** Every record lies in exactly one cluster, its own, and the cluster
      sizes add up to the number of records. */
  lemma ClustersPartition(assign: seq<nat>, k: nat, i: nat)
    requires forall j :: 0 <= j < |assign| ==> assign[j] < k
    requires i < |assign|
    ensures forall c :: 0 <= c < k ==> (i in Clusters(assign, k)[c] <==> c == assign[i])
    ensures MemberCount(assign, Range(k), |assign|) == |assign|
  {
    forall c | 0 <= c < k ensures i in Clusters(assign, k)[c] <==> c == assign[i] {
      MembersExact(assign, c, |assign|);
    }
    forall j | 0 <= j < |assign| ensures Occurrences(Range(k), assign[j]) == 1 {
      RangeOccurrences(k, assign[j]);
    }
    MembersPartition(assign, Range(k), |assign|);
  }

  /** Appending one assignment adds its position to its cluster. */
  lemma ClustersStep(assign: seq<nat>, b: nat, k: nat)
    requires b < k
    ensures Clusters(assign + [b], k) == Clusters(assign, k)[b := Clusters(assign, k)[b] + [|assign|]]
  {
    var n := |assign|;
    forall c | 0 <= c < k
      ensures Clusters(assign + [b], k)[c] == Clusters(assign, k)[b := Clusters(assign, k)[b] + [n]][c]
    {
      assert (assign + [b])[..n] == assign[..n];
      MembersPrefix(assign + [b], assign, c, n);
    }
  }

  /** Every member index names a record. */
  predicate Indexes(S: Setup, clusters: seq<seq<nat>>) {
    forall c, j :: 0 <= c < |clusters| && 0 <= j < |clusters[c]| ==> clusters[c][j] < |S.data|
  }

  lemma ClustersIndex(assign: seq<nat>, k: nat, S: Setup)
    requires |assign| == |S.data|
    ensures Indexes(S, Clusters(assign, k))
  {
    forall c | 0 <= c < k {
      MembersExact(assign, c, |assign|);
    }
  }

  /** The distances of the first j members to their centre, summed. */
  function ClusterCost(S: Setup, members: seq<nat>, center: Record, j: nat): (s: real)
    requires SetupOk(S) && |center.values| == |S.schema| && j <= |members|
    requires forall i :: 0 <= i < |members| ==> members[i] < |S.data|
    ensures s >= 0.0
  {
    if j == 0 then 0.0
    else ClusterCost(S, members, center, j - 1) + Distance(S.metric, S.data[members[j - 1]], center)
  }

  /** The inertia of the first m clusters: member-to-own-centre distances
      summed cluster by cluster.  An empty cluster reads no centre. */
  function Inertia(S: Setup, clusters: seq<seq<nat>>, centers: seq<Record>, m: nat): (s: real)
    requires SetupOk(S) && Fit(S, centers) && Indexes(S, clusters) && m <= |clusters|
    requires forall c :: 0 <= c < m && clusters[c] != [] ==> c < |centers|
    ensures s >= 0.0
  {
    if m == 0 then 0.0
    else
      Inertia(S, clusters, centers, m - 1) +
      (if clusters[m - 1] == [] then 0.0 else ClusterCost(S, clusters[m - 1], centers[m - 1], |clusters[m - 1]|))
  }

  /** The values property f takes over the members of a cluster. */
  function BlockColumn(S: Setup, block: seq<nat>, f: nat): (col: seq<Option<real>>)
    requires Conforms(S.data, |S.schema|) && f < |S.schema|
    requires forall i :: 0 <= i < |block| ==> block[i] < |S.data|
    ensures |col| == |block|
  {
    seq(|block|, i requires 0 <= i < |block| => S.data[block[i]].values[f])
  }

  /** A numeric field of a new centre: the average of the present member
      values, 0.0 when there is none, converted to the property's type. */
  function NumericCenterValue(values: seq<real>, kind: Kind): real {
    Imputation.Converted(if |values| != 0 then Mean(values) else 0.0, kind)
  }

  /** A categorical field of a new centre: the mode of the present member
      values, or None when First() finds no group. */
  function CategoricalCenterValue(values: seq<real>): Option<real> {
    if values == [] then None else Some(Mode(values))
  }

  /** The field f of the centre of a cluster (before any failure check). */
  function CenterField(S: Setup, block: seq<nat>, f: nat): Option<real>
    requires SetupOk(S) && f < |S.schema|
    requires forall i :: 0 <= i < |block| ==> block[i] < |S.data|
  {
    if f in S.metric.num then Some(NumericCenterValue(Present(BlockColumn(S, block, f)), S.schema[f].kind))
    else if f in S.metric.cat then CategoricalCenterValue(Present(BlockColumn(S, block, f)))
    else None
  }

  /** The new centre of a cluster, or InvalidOperationException when some
      categorical feature has no present value among its members. */
  function NewCenter(S: Setup, block: seq<nat>): (r: Result<Record>)
    requires SetupOk(S)
    requires forall i :: 0 <= i < |block| ==> block[i] < |S.data|
    ensures r.Ok? ==> |r.value.values| == |S.schema|
  {
    if exists k :: 0 <= k < |S.metric.cat| && Present(BlockColumn(S, block, S.metric.cat[k])) == [] then
      Err(InvalidOperation)
    else
      Ok(Record("", seq(|S.schema|, f requires 0 <= f < |S.schema| => CenterField(S, block, f)), None, false))
  }

  /** The centre's numeric fields are the converted mean of the present
      member values (0.0 when none), its categorical fields their mode, and
      it fails exactly when a categorical feature has no present value. */
  lemma NewCenterFields(S: Setup, block: seq<nat>)
    requires SetupOk(S)
    requires forall i :: 0 <= i < |block| ==> block[i] < |S.data|
    ensures NewCenter(S, block).Err? <==>
      exists k :: 0 <= k < |S.metric.cat| && Present(BlockColumn(S, block, S.metric.cat[k])) == []
    ensures NewCenter(S, block).Ok? ==>
      (forall k :: 0 <= k < |S.metric.num| ==>
        var f := S.metric.num[k];
        var vs := Present(BlockColumn(S, block, f));
        NewCenter(S, block).value.values[f] ==
          Some(Imputation.Converted(if vs != [] then Mean(vs) else 0.0, S.schema[f].kind))) &&
      (forall k :: 0 <= k < |S.metric.cat| ==>
        var f := S.metric.cat[k];
        NewCenter(S, block).value.values[f] == Some(Mode(Present(BlockColumn(S, block, f)))))
  {
  }

  /** An empty cluster cannot produce a centre when there is a categorical feature. */
  lemma EmptyClusterFails(S: Setup)
    requires SetupOk(S) && |S.metric.cat| > 0
    ensures NewCenter(S, []) == Err(InvalidOperation)
  {
    assert Present(BlockColumn(S, [], S.metric.cat[0])) == [];
  }

  /** A non-int numeric field of a centre lies between the least and the
      greatest present member value. */
  lemma CenterValueWithin(values: seq<real>, kind: Kind)
    requires values != [] && kind != IntKind
    ensures SeqMin(values) <= NumericCenterValue(values, kind) <= SeqMax(values)
  {
    MeanBetweenExtremes(values);
  }

  /** The centres of the first m clusters, in key order. */
  function NewCenters(S: Setup, clusters: seq<seq<nat>>, m: nat): (r: Result<seq<Record>>)
    requires SetupOk(S) && Indexes(S, clusters) && m <= |clusters|
    ensures r.Ok? ==> |r.value| == m && Fit(S, r.value)
  {
    if m == 0 then Ok([])
    else
      match NewCenters(S, clusters, m - 1)
      case Err(e) => Err(e)
      case Ok(cs) =>
        match NewCenter(S, clusters[m - 1])
        case Err(e) => Err(e)
        case Ok(c) => Ok(cs + [c])
  }

  /** Building the centres fails exactly when some cluster's centre fails. */
  lemma {:induction false} NewCentersFail(S: Setup, clusters: seq<seq<nat>>, m: nat)
    requires SetupOk(S) && Indexes(S, clusters) && m <= |clusters|
    ensures NewCenters(S, clusters, m).Err? <==> exists c :: 0 <= c < m && NewCenter(S, clusters[c]).Err?
  {
    if m > 0 {
      NewCentersFail(S, clusters, m - 1);
      if NewCenters(S, clusters, m - 1).Ok? && NewCenter(S, clusters[m - 1]).Ok? {
        forall c | 0 <= c < m ensures NewCenter(S, clusters[c]).Ok? {
          if c < m - 1 {
            assert !NewCenter(S, clusters[c]).Err?;
          }
        }
      }
    }
  }

  /** When building the centres succeeds, centre c is the one of cluster c. */
  lemma {:induction false} NewCentersEach(S: Setup, clusters: seq<seq<nat>>, m: nat)
    requires SetupOk(S) && Indexes(S, clusters) && m <= |clusters|
    requires NewCenters(S, clusters, m).Ok?
    ensures forall c :: 0 <= c < m ==> NewCenter(S, clusters[c]) == Ok(NewCenters(S, clusters, m).value[c])
  {
    if m > 0 {
      NewCentersEach(S, clusters, m - 1);
    }
  }

  /** The loop variables between iterations; `done` records the break. */
  datatype State = State(centers: seq<Record>, clusters: seq<seq<nat>>, prev: Option<real>, done: bool)

  /** The inertia of an iteration whose assignment could be made. */
  function IterationInertia(S: Setup, centers: seq<Record>, k: nat): real
    requires SetupOk(S) && Fit(S, centers)
    requires |S.data| > 0 ==> 0 < k <= |centers|
  {
    var clusters := Clusters(Assignment(S, centers, k), k);
    ClustersIndex(Assignment(S, centers, k), k, S);
    if |S.data| == 0 then 0.0 else Inertia(S, clusters, centers, k)
  }

  /** One pass of the iteration loop.  Enumerable.Range(0, k) rejects a
      negative k; `centers[c]` fails when there are fewer than k centres (or
      none) and there is a record to assign; with k == 0 and some centre the
      dictionary has no key for the record. */
  function Step(S: Setup, s: State, k: int): (r: Result<State>)
    requires SetupOk(S) && Fit(S, s.centers)
    ensures r.Ok? ==> Fit(S, r.value.centers)
  {
    if k < 0 then Err(ArgumentOutOfRange)
    else if |S.data| > 0 && (|s.centers| == 0 || |s.centers| < k) then Err(ArgumentOutOfRange)
    else if |S.data| > 0 && k == 0 then Err(KeyNotFound)
    else
      var clusters := Clusters(Assignment(S, s.centers, k), k);
      ClustersIndex(Assignment(S, s.centers, k), k, S);
      var inertia := IterationInertia(S, s.centers, k);
      if s.prev.Some? && Abs(inertia - s.prev.value) < Convergence then
        Ok(State(s.centers, clusters, s.prev, true))
      else
        match NewCenters(S, clusters, k)
        case Err(e) => Err(e)
        case Ok(cs) => Ok(State(cs, clusters, Some(inertia), false))
  }

  /** The state after m passes, stopping at the first break or exception. */
  function Iterate(S: Setup, init: State, k: int, m: nat): (r: Result<State>)
    requires SetupOk(S) && Fit(S, init.centers)
    ensures r.Ok? ==> Fit(S, r.value.centers)
  {
    if m == 0 then Ok(init)
    else
      match Iterate(S, init, k, m - 1)
      case Err(e) => Err(e)
      case Ok(s) => if s.done then Ok(s) else Step(S, s, k)
  }

  /** What Run returns: the centres, the clusters by key, and prevInertia
      (None standing for double.MaxValue). */
  datatype Outcome = Outcome(centers: seq<Record>, clusters: seq<seq<nat>>, inertia: Option<real>)

  function Initial(S: Setup, order: seq<nat>, k: int): State
    requires Conforms(S.data, |S.schema|) && IsPermutation(order, |S.data|)
  {
    State(InitialCenters(S, order, k), [], None, false)
  }

  /** Run(k, maxIter) with the shuffle `order`. */
  function RunResult(S: Setup, order: seq<nat>, k: int, maxIter: int): Result<Outcome>
    requires SetupOk(S) && IsPermutation(order, |S.data|)
  {
    var m := if maxIter < 0 then 0 else maxIter;
    match Iterate(S, Initial(S, order, k), k, m)
    case Err(e) => Err(e)
    case Ok(s) => Ok(Outcome(s.centers, s.clusters, s.prev))
  }

  // ---------------------------------------------------------------------
  // Properties of the loop

  /** After a break or an exception, further passes change nothing. */
  lemma {:induction false} IterateSettled(S: Setup, init: State, k: int, m: nat, m': nat)
    requires SetupOk(S) && Fit(S, init.centers) && m <= m'
    requires Iterate(S, init, k, m).Err? || Iterate(S, init, k, m).value.done
    ensures Iterate(S, init, k, m') == Iterate(S, init, k, m)
    decreases m' - m
  {
    if m < m' {
      IterateStays(S, init, k, m);
      IterateSettled(S, init, k, m + 1, m');
    }
  }

  /** A pass after one that threw or finished changes nothing. */
  lemma IterateStays(S: Setup, init: State, k: int, m: nat)
    requires SetupOk(S) && Fit(S, init.centers)
    requires Iterate(S, init, k, m).Err? || Iterate(S, init, k, m).value.done
    ensures Iterate(S, init, k, m + 1) == Iterate(S, init, k, m)
  {
  }

  /** A pass from a state that did not break. */
  lemma IterateNext(S: Setup, init: State, k: int, m: nat, s: State)
    requires SetupOk(S) && Fit(S, init.centers)
    requires Iterate(S, init, k, m) == Ok(s) && !s.done
    ensures Iterate(S, init, k, m + 1) == Step(S, s, k)
  {
  }

  /** Run's result read off the state after m passes. */
  lemma RunResultOf(S: Setup, order: seq<nat>, k: int, maxIter: int, m: nat, r: Result<State>)
    requires SetupOk(S) && IsPermutation(order, |S.data|) && m == (if maxIter < 0 then 0 else maxIter)
    requires r == Iterate(S, Initial(S, order, k), k, m)
    ensures r.Err? ==> RunResult(S, order, k, maxIter) == Err(r.error)
    ensures r.Ok? ==> RunResult(S, order, k, maxIter) == Ok(Outcome(r.value.centers, r.value.clusters, r.value.prev))
  {
  }

  /** A pass that fails or breaks fixes the state of every later count
      of passes. */
  lemma IterateStops(S: Setup, init: State, k: int, i: nat, m: nat, s: State, next: Result<State>)
    requires SetupOk(S) && Fit(S, init.centers) && i < m
    requires Iterate(S, init, k, i) == Ok(s) && !s.done
    requires next == Step(S, s, k) && (next.Err? || next.value.done)
    ensures Iterate(S, init, k, m) == next
  {
    IterateNext(S, init, k, i, s);
    IterateSettled(S, init, k, i + 1, m);
  }

  /** Without iterations Run returns the initial copies, an empty
      dictionary and double.MaxValue. */
  lemma RunWithoutIterations(S: Setup, order: seq<nat>, k: int, maxIter: int)
    requires SetupOk(S) && IsPermutation(order, |S.data|) && maxIter <= 0
    ensures RunResult(S, order, k, maxIter) == Ok(Outcome(InitialCenters(S, order, k), [], None))
  {
  }

  /** A negative k, or more centres than records, fails with
      ArgumentOutOfRangeException as soon as one iteration runs. */
  lemma RunRejectsBadK(S: Setup, order: seq<nat>, k: int, maxIter: int)
    requires SetupOk(S) && IsPermutation(order, |S.data|) && maxIter > 0
    requires k < 0 || (|S.data| > 0 && (k == 0 || k > |S.data|))
    ensures RunResult(S, order, k, maxIter) == Err(ArgumentOutOfRange)
  {
    assert Iterate(S, Initial(S, order, k), k, 1) == Err(ArgumentOutOfRange);
    IterateSettled(S, Initial(S, order, k), k, 1, maxIter);
  }

  /** A pass that breaks keeps the centres and prevInertia, and does so
      exactly when the new inertia is within 1e-6 of the previous one; a
      pass that continues records the inertia and moves to the new centres. */
  lemma StepOutcome(S: Setup, s: State, k: int)
    requires SetupOk(S) && Fit(S, s.centers) && Step(S, s, k).Ok?
    ensures k >= 0 && (|S.data| > 0 ==> 0 < k <= |s.centers|)
    ensures Step(S, s, k).value.clusters == Clusters(Assignment(S, s.centers, k), k)
    ensures Step(S, s, k).value.done <==>
      s.prev.Some? && Abs(IterationInertia(S, s.centers, k) - s.prev.value) < Convergence
    ensures Step(S, s, k).value.done ==> Step(S, s, k).value.centers == s.centers && Step(S, s, k).value.prev == s.prev
    ensures !Step(S, s, k).value.done ==>
      Step(S, s, k).value.prev == Some(IterationInertia(S, s.centers, k)) &&
      ClustersIndexed(S, Step(S, s, k).value.clusters) &&
      NewCenters(S, Step(S, s, k).value.clusters, k) == Ok(Step(S, s, k).value.centers)
  {
    ClustersIndex(Assignment(S, s.centers, k), k, S);
  }

  /** Indexes, spelled as a predicate lemma callers can name. */
  predicate ClustersIndexed(S: Setup, clusters: seq<seq<nat>>) {
    Indexes(S, clusters)
  }

  // ---------------------------------------------------------------------
  // The class

  class KMeansGower {
    const data: seq<Record>
    const schema: Schema
    const numerical: seq<nat>
    const categorical: seq<nat>
    const mins: array<Option<real>>
    const maxs: array<Option<real>>
    const ranges: array<real>
    const dimension: nat

    /** The state the constructor establishes. */
    ghost predicate Valid()
      reads this, mins, maxs, ranges
    {
      Conforms(data, |schema|) && FitsWidth(Features(numerical, categorical), |schema|) &&
      Disjoint(numerical, categorical) && Covers(data, numerical) &&
      mins.Length == |numerical| && maxs.Length == |numerical| && ranges.Length == |numerical| &&
      mins[..] == PresentMins(data, numerical) && maxs[..] == PresentMaxs(data, numerical) &&
      (forall k :: 0 <= k < |numerical| ==> ranges[k] == FeatureRange(mins[k], maxs[k])) &&
      dimension == |numerical| + |categorical|
    }

    /** The data, schema and metric the methods work with. */
    function Model(): Setup
      reads this, ranges
    {
      Setup(data, schema, Metric(numerical, categorical, ranges[..]))
    }

    /** What the other methods rely on: a well-formed setup, which needs at
        least one feature. */
    predicate Ready()
      reads this, ranges
    {
      SetupOk(Model()) && dimension == |numerical| + |categorical|
    }

    /** The constructor's state is ready once there is a feature. */
    lemma ValidReady()
      requires Valid() && dimension > 0
      ensures Ready()
    {
    }

    /** Classifies the properties by name and scans the data for the
        numeric extremes and ranges. */
    constructor (data: seq<Record>, schema: Schema, names: set<string>)
      requires Conforms(data, |schema|)
      ensures Valid()
      ensures this.data == data && this.schema == schema
      ensures numerical == NameFeatures(schema, names).numeric
      ensures categorical == NameFeatures(schema, names).categorical
    {
      var F := NameFeatures(schema, names);
      assert Covers(data, F.numeric);
      var lo, hi := ScanExtremes(data, F.numeric);
      var rg := RangesOf(lo, hi);
      this.data := data;
      this.schema := schema;
      numerical := F.numeric;
      categorical := F.categorical;
      mins := lo;
      maxs := hi;
      ranges := rg;
      dimension := |F.numeric| + |F.categorical|;
      new;
      assert Conforms(data, |schema|) && FitsWidth(Features(numerical, categorical), |schema|);
      assert Disjoint(numerical, categorical);
      assert Covers(data, numerical);
      assert mins[..] == PresentMins(data, numerical) && maxs[..] == PresentMaxs(data, numerical);
      assert forall k :: 0 <= k < |numerical| ==> ranges[k] == FeatureRange(mins[k], maxs[k]);
    }

    /** The GowerDistance loops. */
    method GowerDistance(a: Record, b: Record) returns (d: real)
      requires Ready() && |a.values| == |schema| && |b.values| == |schema|
      ensures d == Distance(Model().metric, a, b)
    {
      var numeric := NumericPart(a, b);
      var mismatches := CategoricalPart(a, b);
      d := (numeric + mismatches) / dimension as real;
    }

    /** The numeric loop: `sum += Math.Abs(xa - xb) / ranges[j]`. */
    method NumericPart(a: Record, b: Record) returns (sum: real)
      requires Ready() && |a.values| == |schema| && |b.values| == |schema|
      ensures sum == NumericSum(Model().metric, a, b, |numerical|)
    {
      ghost var M := Model().metric;
      sum := 0.0;
      for j := 0 to |numerical|
        invariant sum == NumericSum(M, a, b, j)
      {
        var f := numerical[j];
        sum := sum + Abs(a.values[f].GetOr(0.0) - b.values[f].GetOr(0.0)) / ranges[j];
      }
    }

    /** The categorical loop: `sum += (va == vb ? 0.0 : 1.0)`. */
    method CategoricalPart(a: Record, b: Record) returns (sum: real)
      requires Ready() && |a.values| == |schema| && |b.values| == |schema|
      ensures sum == CategoricalMismatches(Model().metric, a, b, |categorical|) as real
    {
      ghost var M := Model().metric;
      sum := 0.0;
      for c := 0 to |categorical|
        invariant sum == CategoricalMismatches(M, a, b, c) as real
      {
        var f := categorical[c];
        sum := sum + (if a.values[f] == b.values[f] then 0.0 else 1.0);
      }
    }

    /** The inner loop of the assignment: the first centre at least distance. */
    method Nearest(x: Record, centers: seq<Record>, k: nat) returns (best: nat)
      requires Ready() && |x.values| == |schema| && Fit(Model(), centers)
      requires 0 < k <= |centers|
      ensures best == ArgMin(Distances(Model(), x, centers, k), k)
    {
      ghost var ds := Distances(Model(), x, centers, k);
      best := 0;
      var bd := GowerDistance(x, centers[0]);
      for c := 1 to k
        invariant best == ArgMin(ds, c) && bd == ds[best]
      {
        var d := GowerDistance(x, centers[c]);
        if d < bd {
          bd := d;
          best := c;
        }
      }
    }

    /** Fresh empty clusters, then every record added to its nearest centre's. */
    method Assign(centers: seq<Record>, k: nat) returns (clusters: seq<seq<nat>>)
      requires Ready() && Fit(Model(), centers)
      requires |data| > 0 ==> 0 < k <= |centers|
      ensures clusters == Clusters(Assignment(Model(), centers, k), k)
    {
      ghost var full := Assignment(Model(), centers, k);
      clusters := seq(k, _ => []);
      for i := 0 to |data|
        invariant clusters == Clusters(full[..i], k)
      {
        var best := Nearest(data[i], centers, k);
        ClustersGrow(full, i, k);
        clusters := clusters[best := clusters[best] + [i]];
      }
      assert full[..|data|] == full;
    }

    /** The inner inertia loop over one non-empty cluster. */
    method ClusterInertia(members: seq<nat>, center: Record) returns (sum: real)
      requires Ready() && |center.values| == |schema|
      requires forall i :: 0 <= i < |members| ==> members[i] < |data|
      ensures sum == ClusterCost(Model(), members, center, |members|)
    {
      sum := 0.0;
      for j := 0 to |members|
        invariant sum == ClusterCost(Model(), members, center, j)
      {
        var d := GowerDistance(data[members[j]], center);
        sum := sum + d;
      }
    }

    /** The inertia loops. */
    method TotalInertia(clusters: seq<seq<nat>>, centers: seq<Record>) returns (inertia: real)
      requires Ready() && Fit(Model(), centers) && Indexes(Model(), clusters)
      requires forall c :: 0 <= c < |clusters| && clusters[c] != [] ==> c < |centers|
      ensures inertia == Inertia(Model(), clusters, centers, |clusters|)
    {
      inertia := 0.0;
      for c := 0 to |clusters|
        invariant inertia == Inertia(Model(), clusters, centers, c)
      {
        if clusters[c] != [] {
          var cost := ClusterInertia(clusters[c], centers[c]);
          inertia := inertia + cost;
        }
      }
    }

    /** The centre loop: one new centre per cluster, in key order. */
    method BuildCenters(clusters: seq<seq<nat>>) returns (r: Result<seq<Record>>)
      requires Ready() && Indexes(Model(), clusters)
      ensures r == NewCenters(Model(), clusters, |clusters|)
    {
      var built: seq<Record> := [];
      for c := 0 to |clusters|
        invariant NewCenters(Model(), clusters, c) == Ok(built)
      {
        var center := NewCenter(Model(), clusters[c]);
        if center.Err? {
          NewCentersFailed(Model(), clusters, c + 1, |clusters|);
          return Err(center.error);
        }
        built := built + [center.value];
      }
      r := Ok(built);
    }

    /** Copy(src), property by property. */
    method Copy(src: Record) returns (dst: Record)
      requires |src.values| == |schema|
      ensures dst == Copied(schema, src)
    {
      var values: seq<Option<real>> := [];
      for f := 0 to |schema|
        invariant values == Copied(schema, src).values[..f]
      {
        values := values + [if schema[f].readWrite then src.values[f] else None];
      }
      dst := src.(values := values);
    }

    /** One pass of the `for (iter ...)` loop body. */
    method Pass(centers: seq<Record>, clusters: seq<seq<nat>>, prev: Option<real>, k: int) returns (r: Result<State>)
      requires Ready() && Fit(Model(), centers)
      ensures r == Step(Model(), State(centers, clusters, prev, false), k)
    {
      ghost var S := Model();
      if k < 0 || (|data| > 0 && (|centers| == 0 || |centers| < k)) {
        return Err(ArgumentOutOfRange);
      }
      if |data| > 0 && k == 0 {
        return Err(KeyNotFound);
      }
      var next := Assign(centers, k);
      ClustersIndex(Assignment(S, centers, k), k, S);
      var inertia := 0.0;
      if |data| > 0 {
        inertia := TotalInertia(next, centers);
      }
      assert inertia == IterationInertia(S, centers, k);
      if prev.Some? && Abs(inertia - prev.value) < Convergence {
        return Ok(State(centers, next, prev, true));
      }
      var built := BuildCenters(next);
      if built.Err? {
        return Err(built.error);
      }
      r := Ok(State(built.value, next, Some(inertia), false));
    }

    /** Run's initial centres: the first k records of the shuffle, copied. */
    method InitialCopies(k: int, order: seq<nat>) returns (centers: seq<Record>)
      requires Ready() && IsPermutation(order, |data|)
      ensures centers == InitialCenters(Model(), order, k)
    {
      var count := if k <= 0 then 0 else if k < |data| then k else |data|;
      centers := [];
      for c := 0 to count
        invariant centers == InitialCenters(Model(), order, k)[..c]
      {
        var copy := Copy(data[order[c]]);
        centers := centers + [copy];
      }
    }

    /** One pass of Run's loop, read against the iteration it extends: a
        pass that continues is the state after one more iteration, and one
        that fails or breaks is the state after every later count. */
    method Advance(ghost init: State, k: int, m: nat, i: nat, s: State) returns (next: Result<State>)
      requires Ready() && Fit(Model(), init.centers) && i < m
      requires Iterate(Model(), init, k, i) == Ok(s) && !s.done
      ensures next.Ok? && !next.value.done ==> Iterate(Model(), init, k, i + 1) == next
      ensures next.Err? || next.value.done ==> Iterate(Model(), init, k, m) == next
    {
      next := Pass(s.centers, s.clusters, s.prev, k);
      if next.Err? || next.value.done {
        IterateStops(Model(), init, k, i, m, s, next);
      } else {
        IterateNext(Model(), init, k, i, s);
      }
    }

    /** Run's loop: at most m passes from the given centres. */
    method Iteration(start: seq<Record>, k: int, m: nat) returns (r: Result<State>)
      requires Ready() && Fit(Model(), start)
      ensures r == Iterate(Model(), State(start, [], None, false), k, m)
    {
      ghost var init := State(start, [], None, false);
      var centers, clusters, prev := start, [], None;
      var iter := 0;
      while iter < m
        invariant iter <= m
        invariant Iterate(Model(), init, k, iter) == Ok(State(centers, clusters, prev, false))
      {
        var next := Advance(init, k, m, iter, State(centers, clusters, prev, false));
        if next.Err? || next.value.done {
          return next;
        }
        centers, clusters, prev := next.value.centers, next.value.clusters, next.value.prev;
        iter := iter + 1;
      }
      r := Ok(State(centers, clusters, prev, false));
    }

    /** Run(k, maxIter), with `order` the shuffle the random keys produce. */
    method Run(k: int, maxIter: int, order: seq<nat>) returns (r: Result<Outcome>)
      requires Ready() && IsPermutation(order, |data|)
      ensures r == RunResult(Model(), order, k, maxIter)
    {
      var centers := InitialCopies(k, order);
      var m := if maxIter < 0 then 0 else maxIter;
      var last := Iteration(centers, k, m);
      RunResultOf(Model(), order, k, maxIter, m, last);
      if last.Err? {
        return Err(last.error);
      }
      r := Ok(Outcome(last.value.centers, last.value.clusters, last.value.prev));
    }
  }

  /** A failed centre fails the whole list, whatever follows. */
  lemma {:induction false} NewCentersFailed(S: Setup, clusters: seq<seq<nat>>, m: nat, m': nat)
    requires SetupOk(S) && Indexes(S, clusters) && 0 < m <= m' <= |clusters|
    requires NewCenters(S, clusters, m - 1).Ok? && NewCenter(S, clusters[m - 1]).Err?
    ensures NewCenters(S, clusters, m') == Err(NewCenter(S, clusters[m - 1]).error)
    decreases m' - m
  {
    if m < m' {
      NewCentersFailed(S, clusters, m, m' - 1);
    }
  }

  /** The constructor's scan: per numeric feature, the least and greatest
      present value over all records (null while none is present). */
  method ScanExtremes(data: seq<Record>, num: seq<nat>) returns (lo: array<Option<real>>, hi: array<Option<real>>)
    requires Covers(data, num)
    ensures fresh(lo) && fresh(hi) && lo != hi
    ensures lo[..] == PresentMins(data, num) && hi[..] == PresentMaxs(data, num)
  {
    lo := new Option<real>[|num|](_ => None);
    hi := new Option<real>[|num|](_ => None);
    assert lo[..] == PresentMins(data[..0], num);
    assert hi[..] == PresentMaxs(data[..0], num);
    for i := 0 to |data|
      invariant lo[..] == PresentMins(data[..i], num)
      invariant hi[..] == PresentMaxs(data[..i], num)
    {
      ScanRecord(data[i], num, lo, hi);
      ExtremesStep(data, num, i);
    }
    assert data[..|data|] == data;
  }

  /** The constructor's ranges: `max - min` above the tolerance, else 1.0. */
  method RangesOf(lo: array<Option<real>>, hi: array<Option<real>>) returns (rg: array<real>)
    requires lo.Length == hi.Length
    ensures fresh(rg) && rg.Length == lo.Length
    ensures forall j :: 0 <= j < rg.Length ==> rg[j] == FeatureRange(lo[j], hi[j])
  {
    rg := new real[lo.Length];
    for j := 0 to lo.Length
      modifies rg
      invariant forall j' :: 0 <= j' < j ==> rg[j'] == FeatureRange(lo[j'], hi[j'])
    {
      rg[j] := FeatureRange(lo[j], hi[j]);
    }
  }

  /** One record of the constructor's scan. */
  method ScanRecord(x: Record, num: seq<nat>, lo: array<Option<real>>, hi: array<Option<real>>)
    requires lo != hi && lo.Length == |num| && hi.Length == |num|
    requires forall k :: 0 <= k < |num| ==> num[k] < |x.values|
    modifies lo, hi
    ensures lo[..] == ScanMins(old(lo[..]), x, num) && hi[..] == ScanMaxs(old(hi[..]), x, num)
  {
    for j := 0 to |num|
      invariant forall j' :: 0 <= j' < j ==>
        lo[j'] == ScanMins(old(lo[..]), x, num)[j'] && hi[j'] == ScanMaxs(old(hi[..]), x, num)[j']
      invariant forall j' :: j <= j' < |num| ==> lo[j'] == old(lo[j']) && hi[j'] == old(hi[j'])
    {
      var raw := x.values[num[j]];
      if raw.None? {
        continue;
      }
      var v := raw.value;
      if lo[j].None? || v < lo[j].value {
        lo[j] := Some(v);
      }
      if hi[j].None? || v > hi[j].value {
        hi[j] := Some(v);
      }
    }
  }
}
