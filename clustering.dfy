/** Clustering.KMeans: k-medoids over a precomputed table of pairwise
    distances keyed by customer id.  Each pass writes every record's label in
    place (the nearest medoid, the lowest index among equals), makes each
    non-empty cluster's member with the least summed distance to the others
    its new medoid, and the loop stops once the medoid list no longer changes
    or after maxItteration passes.  The records are the caller's own (the
    working list is a shallow copy), so the labels and the IsCenter flags
    written here are visible to the caller.  Medoids are positions in the
    list: SequenceEqual compares records by reference. */
module Medoids {
  import opened Common
  import DistanceTable

  /** The distance dictionary, keyed by pairs of ids. */
  type Table = DistanceTable.Table

  /** Every position names a record of a list of length n. */
  predicate Positions(ps: seq<nat>, n: nat) {
    forall c :: 0 <= c < |ps| ==> ps[c] < n
  }

  /** How many times `for (i = 0; i < k; i++)` runs. */
  function LoopCount(k: int): nat {
    if k < 0 then 0 else k
  }

  // ---------------------------------------------------------------------
  // GetDistance

  /** The local function GetDistance: 0 for equal ids without a lookup,
      otherwise the entry under the canonical key (the ordinally smaller id
      first), and KeyNotFoundException when the table has none. */
  function GetDistance(D: Table, a: string, b: string): Result<real> {
    if a == b then Ok(0.0)
    else if CanonicalKey(a, b) in D then Ok(D[CanonicalKey(a, b)])
    else Err(KeyNotFound)
  }

  /** The lookup does not depend on the order of its arguments. */
  lemma GetDistanceSymmetric(D: Table, a: string, b: string)
    ensures GetDistance(D, a, b) == GetDistance(D, b, a)
  {
    CanonicalKeySymmetric(a, b);
  }

  /** With the table CalculateDistances builds for records with distinct ids,
      no lookup between two of them fails: it yields their Gower distance, or
      0 for a record and itself. */
  lemma GetDistanceInTable(t: Table, ids: seq<string>, num: seq<seq<real>>, cat: seq<seq<real>>,
                           numNum: nat, numCat: nat, i: nat, j: nat)
    requires DistanceTable.Distinct(ids)
    requires DistanceTable.IsDistanceTable(t, ids, num, cat, numNum, numCat)
    requires i < |ids| && j < |ids|
    ensures GetDistance(t, ids[i], ids[j]) ==
      Ok(if i == j then 0.0 else DistanceTable.Gower(num[i], num[j], cat[i], cat[j]))
  {
    if i != j {
      assert ids[i] != ids[j] by {
        if i < j {
          assert ids[i] != ids[j];
        } else {
          assert ids[j] != ids[i];
        }
      }
      DistanceTable.TableLookupSymmetric(t, ids, num, cat, numNum, numCat, j, i);
      DistanceTable.GowerSymmetric(num[j], num[i], cat[j], cat[i]);
    }
  }

  // ---------------------------------------------------------------------
  // Assignment

  /** The inner loop over the centroids for a record with id x, up to ci = m:
      the distances read so far, or the first exception (an index past the
      end of the centroid list, or a missing table entry). */
  function CentreDistances(D: Table, recs: seq<Record>, cents: seq<nat>, x: string, m: nat): (r: Result<seq<real>>)
    requires Positions(cents, |recs|)
    ensures r.Ok? ==> |r.value| == m && m <= |cents|
  {
    if m == 0 then Ok([])
    else
      match CentreDistances(D, recs, cents, x, m - 1)
      case Err(e) => Err(e)
      case Ok(ds) =>
        if m - 1 >= |cents| then Err(ArgumentOutOfRange)
        else
          match GetDistance(D, x, recs[cents[m - 1]].id)
          case Err(e) => Err(e)
          case Ok(d) => Ok(ds + [d])
  }

  /** The loop succeeds exactly when there are m centroids and every lookup
      succeeds; it then holds the distance to each centroid.  It fails with
      KeyNotFoundException when a lookup before the end of the list fails,
      and with ArgumentOutOfRangeException otherwise. */
  lemma {:induction false} CentreDistancesSpec(D: Table, recs: seq<Record>, cents: seq<nat>, x: string, m: nat)
    requires Positions(cents, |recs|)
    ensures CentreDistances(D, recs, cents, x, m).Ok? <==>
      m <= |cents| && forall c :: 0 <= c < m ==> GetDistance(D, x, recs[cents[c]].id).Ok?
    ensures CentreDistances(D, recs, cents, x, m).Ok? ==>
      forall c :: 0 <= c < m ==> CentreDistances(D, recs, cents, x, m).value[c] == GetDistance(D, x, recs[cents[c]].id).value
    ensures CentreDistances(D, recs, cents, x, m).Err? ==>
      CentreDistances(D, recs, cents, x, m).error ==
        if forall c :: 0 <= c < m && c < |cents| ==> GetDistance(D, x, recs[cents[c]].id).Ok?
        then ArgumentOutOfRange else KeyNotFound
  {
    if m > 0 {
      CentreDistancesSpec(D, recs, cents, x, m - 1);
    }
  }

  /** The loop reads only the ids of the records. */
  lemma {:induction false} CentreDistancesIds(D: Table, recs: seq<Record>, recs': seq<Record>, cents: seq<nat>, x: string, m: nat)
    requires |recs| == |recs'| && Positions(cents, |recs|)
    requires forall j :: 0 <= j < |recs| ==> recs[j].id == recs'[j].id
    ensures CentreDistances(D, recs, cents, x, m) == CentreDistances(D, recs', cents, x, m)
  {
    if m > 0 {
      CentreDistancesIds(D, recs, recs', cents, x, m - 1);
    }
  }

  /** Record i after the Parallel.For body: with k > 0 its label is
      "cluster_{bestK}", the first centroid at least distance; with k <= 0
      the label is never written. */
  function Relabelled(D: Table, recs: seq<Record>, cents: seq<nat>, k: int, i: nat): (r: Result<Record>)
    requires Positions(cents, |recs|) && i < |recs|
  {
    if k <= 0 then Ok(recs[i])
    else
      match CentreDistances(D, recs, cents, recs[i].id, k)
      case Err(e) => Err(e)
      case Ok(ds) => Ok(recs[i].(clusterLabel := Some(ArgMin(ds, k))))
  }

  /** Relabelling reads the ids and changes the label only. */
  lemma RelabelledIds(D: Table, recs: seq<Record>, recs': seq<Record>, cents: seq<nat>, k: int, i: nat)
    requires |recs| == |recs'| && Positions(cents, |recs|) && i < |recs|
    requires forall j :: 0 <= j < |recs| ==> recs[j].id == recs'[j].id
    requires recs[i] == recs'[i]
    ensures Relabelled(D, recs, cents, k, i) == Relabelled(D, recs', cents, k, i)
    ensures Relabelled(D, recs, cents, k, i).Ok? ==>
      Relabelled(D, recs, cents, k, i).value == recs[i].(clusterLabel := Relabelled(D, recs, cents, k, i).value.clusterLabel)
  {
    if k > 0 {
      CentreDistancesIds(D, recs, recs', cents, recs[i].id, k);
    }
  }

  /** The Parallel.For over records 0..n-1, run in order on the list as it
      is being written; the first exception ends it. */
  function Labelled(D: Table, recs: seq<Record>, cents: seq<nat>, k: int, n: nat): (r: Result<seq<Record>>)
    requires Positions(cents, |recs|) && n <= |recs|
    ensures r.Ok? ==> |r.value| == |recs|
  {
    if n == 0 then Ok(recs)
    else
      match Labelled(D, recs, cents, k, n - 1)
      case Err(e) => Err(e)
      case Ok(rs) =>
        match Relabelled(D, rs, cents, k, n - 1)
        case Err(e) => Err(e)
        case Ok(x) => Ok(rs[n - 1 := x])
  }

  /** A pass over the first n records fails exactly when one of their loops
      does. */
  lemma {:induction false} LabelledOk(D: Table, recs: seq<Record>, cents: seq<nat>, k: int, n: nat)
    requires Positions(cents, |recs|) && n <= |recs|
    ensures Labelled(D, recs, cents, k, n).Ok? <==>
      forall j :: 0 <= j < n ==> Relabelled(D, recs, cents, k, j).Ok?
  {
    if n > 0 {
      LabelledOk(D, recs, cents, k, n - 1);
      if Labelled(D, recs, cents, k, n - 1).Ok? {
        LabelledNext(D, recs, cents, k, n);
      }
    }
  }

  /** The records before n are relabelled as if each were alone, the rest
      are untouched. */
  lemma {:induction false} LabelledValues(D: Table, recs: seq<Record>, cents: seq<nat>, k: int, n: nat)
    requires Positions(cents, |recs|) && n <= |recs|
    requires Labelled(D, recs, cents, k, n).Ok?
    ensures forall j :: 0 <= j < n ==> Relabelled(D, recs, cents, k, j).Ok?
    ensures forall j :: 0 <= j < |recs| ==>
      Labelled(D, recs, cents, k, n).value[j] == if j < n then Relabelled(D, recs, cents, k, j).value else recs[j]
    decreases n, 1
  {
    if n > 0 {
      LabelledValues(D, recs, cents, k, n - 1);
      LabelledNext(D, recs, cents, k, n);
    }
  }

  /** A failed pass throws the exception of the first record whose loop
      fails. */
  lemma {:induction false} LabelledError(D: Table, recs: seq<Record>, cents: seq<nat>, k: int, n: nat)
    requires Positions(cents, |recs|) && n <= |recs|
    requires Labelled(D, recs, cents, k, n).Err?
    ensures exists j :: (0 <= j < n && Relabelled(D, recs, cents, k, j) == Err(Labelled(D, recs, cents, k, n).error) &&
      forall j' :: 0 <= j' < j ==> Relabelled(D, recs, cents, k, j').Ok?)
  {
    if Labelled(D, recs, cents, k, n - 1).Err? {
      LabelledError(D, recs, cents, k, n - 1);
    } else {
      LabelledOk(D, recs, cents, k, n - 1);
      LabelledNext(D, recs, cents, k, n);
      assert Relabelled(D, recs, cents, k, n - 1) == Err(Labelled(D, recs, cents, k, n).error);
    }
  }

  /** Record n-1's loop sees the same ids as in the original list. */
  lemma {:induction false} LabelledNext(D: Table, recs: seq<Record>, cents: seq<nat>, k: int, n: nat)
    requires Positions(cents, |recs|) && 0 < n <= |recs|
    requires Labelled(D, recs, cents, k, n - 1).Ok?
    ensures Relabelled(D, Labelled(D, recs, cents, k, n - 1).value, cents, k, n - 1) == Relabelled(D, recs, cents, k, n - 1)
    decreases n, 0
  {
    LabelledValues(D, recs, cents, k, n - 1);
    var rs := Labelled(D, recs, cents, k, n - 1).value;
    forall j | 0 <= j < |recs| ensures rs[j].id == recs[j].id {
      if j < n - 1 {
        RelabelledIds(D, recs, recs, cents, k, j);
      }
    }
    RelabelledIds(D, rs, recs, cents, k, n - 1);
  }

  /** Each record's label after a pass is the lowest-index centroid at
      minimal distance from it, among the first k. */
  lemma LabelNearest(D: Table, recs: seq<Record>, cents: seq<nat>, k: int, i: nat)
    requires Positions(cents, |recs|) && 0 < k && i < |recs|
    requires Labelled(D, recs, cents, k, |recs|).Ok?
    ensures var lab := Labelled(D, recs, cents, k, |recs|).value[i].clusterLabel;
      k <= |cents| && lab.Some? && 0 <= lab.value < k &&
      (forall c :: 0 <= c < k ==> GetDistance(D, recs[i].id, recs[cents[c]].id).Ok?) &&
      (forall c :: 0 <= c < k ==>
        GetDistance(D, recs[i].id, recs[cents[lab.value]].id).value <= GetDistance(D, recs[i].id, recs[cents[c]].id).value) &&
      (forall c :: 0 <= c < lab.value ==>
        GetDistance(D, recs[i].id, recs[cents[lab.value]].id).value < GetDistance(D, recs[i].id, recs[cents[c]].id).value)
  {
    LabelledOk(D, recs, cents, k, |recs|);
    LabelledValues(D, recs, cents, k, |recs|);
    CentreDistancesSpec(D, recs, cents, recs[i].id, k);
  }

  // ---------------------------------------------------------------------
  // Medoids

  /** The labels of the records, in list order. */
  function Labels(recs: seq<Record>): (ls: seq<Option<int>>)
    ensures |ls| == |recs| && forall i :: 0 <= i < |recs| ==> ls[i] == recs[i].clusterLabel
  {
    seq(|recs|, i requires 0 <= i < |recs| => recs[i].clusterLabel)
  }

  /** `list.Where(x => x.Label == "cluster_{c}")`, as positions. */
  function Cluster(recs: seq<Record>, c: int): (ms: seq<nat>)
    ensures Positions(ms, |recs|)
  {
    MembersExact(Labels(recs), Some(c), |recs|);
    Members(Labels(recs), Some(c), |recs|)
  }

  /** The members of a cluster are exactly the records labelled with it, in
      list order. */
  lemma ClusterExact(recs: seq<Record>, c: int)
    ensures Positions(Cluster(recs, c), |recs|)
    ensures forall i :: i in Cluster(recs, c) <==> 0 <= i < |recs| && recs[i].clusterLabel == Some(c)
    ensures forall a, b :: 0 <= a < b < |Cluster(recs, c)| ==> Cluster(recs, c)[a] < Cluster(recs, c)[b]
  {
    MembersExact(Labels(recs), Some(c), |recs|);
  }

  /** The summed distance from the candidate to the first m members with a
      different id; a member with the candidate's id is skipped without a
      lookup. */
  function Cost(D: Table, recs: seq<Record>, ms: seq<nat>, cand: nat, m: nat): Result<real>
    requires Positions(ms, |recs|) && cand < |recs| && m <= |ms|
  {
    if m == 0 then Ok(0.0)
    else
      match Cost(D, recs, ms, cand, m - 1)
      case Err(e) => Err(e)
      case Ok(s) =>
        if recs[ms[m - 1]].id == recs[cand].id then Ok(s)
        else
          match GetDistance(D, recs[cand].id, recs[ms[m - 1]].id)
          case Err(e) => Err(e)
          case Ok(d) => Ok(s + d)
  }

  /** The cost is defined exactly when every lookup from the candidate to a
      member with another id succeeds. */
  lemma {:induction false} CostSpec(D: Table, recs: seq<Record>, ms: seq<nat>, cand: nat, m: nat)
    requires Positions(ms, |recs|) && cand < |recs| && m <= |ms|
    ensures Cost(D, recs, ms, cand, m).Ok? <==>
      forall o :: 0 <= o < m && recs[ms[o]].id != recs[cand].id ==> GetDistance(D, recs[cand].id, recs[ms[o]].id).Ok?
    ensures Cost(D, recs, ms, cand, m).Err? ==> Cost(D, recs, ms, cand, m).error == KeyNotFound
  {
    if m > 0 {
      CostSpec(D, recs, ms, cand, m - 1);
    }
  }

  /** With non-negative distances the cost is non-negative, and it is 0 for a
      cluster whose other members all share the candidate's id. */
  lemma {:induction false} CostNonNegative(D: Table, recs: seq<Record>, ms: seq<nat>, cand: nat, m: nat)
    requires Positions(ms, |recs|) && cand < |recs| && m <= |ms|
    requires forall p :: p in D ==> D[p] >= 0.0
    requires Cost(D, recs, ms, cand, m).Ok?
    ensures Cost(D, recs, ms, cand, m).value >= 0.0
    ensures (forall o :: 0 <= o < m ==> recs[ms[o]].id == recs[cand].id) ==> Cost(D, recs, ms, cand, m).value == 0.0
  {
    if m > 0 {
      CostNonNegative(D, recs, ms, cand, m - 1);
    }
  }

  /** The costs of the first m candidates, or the first exception. */
  function Costs(D: Table, recs: seq<Record>, ms: seq<nat>, m: nat): (r: Result<seq<real>>)
    requires Positions(ms, |recs|) && m <= |ms|
    ensures r.Ok? ==> |r.value| == m
  {
    if m == 0 then Ok([])
    else
      match Costs(D, recs, ms, m - 1)
      case Err(e) => Err(e)
      case Ok(cs) =>
        match Cost(D, recs, ms, ms[m - 1], |ms|)
        case Err(e) => Err(e)
        case Ok(v) => Ok(cs + [v])
  }

  lemma {:induction false} CostsSpec(D: Table, recs: seq<Record>, ms: seq<nat>, m: nat)
    requires Positions(ms, |recs|) && m <= |ms|
    ensures Costs(D, recs, ms, m).Ok? <==> forall j :: 0 <= j < m ==> Cost(D, recs, ms, ms[j], |ms|).Ok?
    ensures Costs(D, recs, ms, m).Ok? ==>
      forall j :: 0 <= j < m ==> Costs(D, recs, ms, m).value[j] == Cost(D, recs, ms, ms[j], |ms|).value
  {
    if m > 0 {
      CostsSpec(D, recs, ms, m - 1);
    }
  }

  /** Where the candidate loop of a non-empty cluster ends. */
  function MedoidIndex(D: Table, recs: seq<Record>, ms: seq<nat>): (r: Result<nat>)
    requires ms != [] && Positions(ms, |recs|)
    ensures r.Ok? ==> r.value < |ms|
  {
    match Costs(D, recs, ms, |ms|)
    case Err(e) => Err(e)
    case Ok(cs) => Ok(ArgMin(cs, |ms|))
  }

  /** bestMember: the candidate with the least cost, the first among equals. */
  function Medoid(D: Table, recs: seq<Record>, ms: seq<nat>): (r: Result<nat>)
    requires ms != [] && Positions(ms, |recs|)
  {
    match MedoidIndex(D, recs, ms)
    case Err(e) => Err(e)
    case Ok(b) => Ok(ms[b])
  }

  /** The new medoid is a member whose summed distance to the other members
      is least, the first such member in list order; it fails exactly when
      some candidate's lookup does. */
  lemma MedoidBest(D: Table, recs: seq<Record>, ms: seq<nat>)
    requires ms != [] && Positions(ms, |recs|)
    ensures Medoid(D, recs, ms).Ok? <==> forall j :: 0 <= j < |ms| ==> Cost(D, recs, ms, ms[j], |ms|).Ok?
    ensures Medoid(D, recs, ms).Ok? ==>
      var b := MedoidIndex(D, recs, ms).value;
      Medoid(D, recs, ms).value == ms[b] &&
      (forall j :: 0 <= j < |ms| ==>
        Cost(D, recs, ms, ms[b], |ms|).value <= Cost(D, recs, ms, ms[j], |ms|).value) &&
      (forall j :: 0 <= j < b ==>
        Cost(D, recs, ms, ms[b], |ms|).value < Cost(D, recs, ms, ms[j], |ms|).value)
  {
    CostsSpec(D, recs, ms, |ms|);
  }

  /** The new medoid is no worse than the prior one when the prior one is a member. */
  lemma MedoidNoWorse(D: Table, recs: seq<Record>, ms: seq<nat>, prior: nat)
    requires ms != [] && Positions(ms, |recs|) && prior in ms
    requires Medoid(D, recs, ms).Ok?
    ensures Cost(D, recs, ms, Medoid(D, recs, ms).value, |ms|).Ok? && Cost(D, recs, ms, prior, |ms|).Ok?
    ensures Cost(D, recs, ms, Medoid(D, recs, ms).value, |ms|).value <= Cost(D, recs, ms, prior, |ms|).value
  {
    MedoidBest(D, recs, ms);
    var j :| 0 <= j < |ms| && ms[j] == prior;
  }

  /** The clusters below m that have a member, in increasing order. */
  function Occupied(recs: seq<Record>, m: nat): seq<int> {
    if m == 0 then []
    else Occupied(recs, m - 1) + (if Cluster(recs, m - 1) != [] then [m - 1] else [])
  }

  lemma {:induction false} OccupiedExact(recs: seq<Record>, m: nat)
    ensures forall c :: c in Occupied(recs, m) <==> 0 <= c < m && Cluster(recs, c) != []
  {
    if m > 0 {
      OccupiedExact(recs, m - 1);
    }
  }

  /** Every cluster below m is occupied exactly when all m are listed. */
  lemma {:induction false} OccupiedCount(recs: seq<Record>, m: nat)
    ensures |Occupied(recs, m)| <= m
    ensures |Occupied(recs, m)| == m <==> forall c :: 0 <= c < m ==> Cluster(recs, c) != []
  {
    if m > 0 {
      OccupiedCount(recs, m - 1);
      if Cluster(recs, m - 1) == [] {
        assert |Occupied(recs, m)| < m;
      }
    }
  }

  /** The loop over ci < m: the medoid of each non-empty cluster, empty
      clusters skipped, or the first exception. */
  function NewCentroids(D: Table, recs: seq<Record>, m: nat): (r: Result<seq<nat>>)
    ensures r.Ok? ==> Positions(r.value, |recs|)
  {
    if m == 0 then Ok([])
    else
      match NewCentroids(D, recs, m - 1)
      case Err(e) => Err(e)
      case Ok(cs) =>
        var ms := Cluster(recs, m - 1);
        if ms == [] then Ok(cs)
        else
          match Medoid(D, recs, ms)
          case Err(e) => Err(e)
          case Ok(p) => Ok(cs + [p])
  }

  /** The new centroid list is defined exactly when the medoid of every
      non-empty cluster is. */
  lemma {:induction false} NewCentroidsOk(D: Table, recs: seq<Record>, m: nat)
    ensures NewCentroids(D, recs, m).Ok? <==>
      forall c :: 0 <= c < m && Cluster(recs, c) != [] ==> Medoid(D, recs, Cluster(recs, c)).Ok?
  {
    if m > 0 {
      NewCentroidsOk(D, recs, m - 1);
    }
  }

  /** The new centroid list holds one medoid per non-empty cluster, in
      cluster order. */
  lemma {:induction false} NewCentroidsEach(D: Table, recs: seq<Record>, m: nat)
    requires NewCentroids(D, recs, m).Ok?
    ensures |NewCentroids(D, recs, m).value| == |Occupied(recs, m)|
    ensures forall c :: 0 <= c < |Occupied(recs, m)| ==>
      Cluster(recs, Occupied(recs, m)[c]) != [] &&
      Medoid(D, recs, Cluster(recs, Occupied(recs, m)[c])) == Ok(NewCentroids(D, recs, m).value[c])
  {
    if m > 0 {
      NewCentroidsEach(D, recs, m - 1);
      var prev := NewCentroids(D, recs, m - 1).value;
      var occ := Occupied(recs, m - 1);
      var ms := Cluster(recs, m - 1);
      if ms == [] {
        assert Occupied(recs, m) == occ;
      } else {
        assert Occupied(recs, m) == occ + [m - 1];
        assert NewCentroids(D, recs, m).value == prev + [Medoid(D, recs, ms).value];
      }
    }
  }

  /** A centroid list that is one medoid per cluster has as many entries as
      there are clusters exactly when no cluster is empty. */
  lemma NewCentroidsFull(D: Table, recs: seq<Record>, m: nat)
    requires NewCentroids(D, recs, m).Ok?
    ensures |NewCentroids(D, recs, m).value| == m <==> forall c :: 0 <= c < m ==> Cluster(recs, c) != []
  {
    NewCentroidsEach(D, recs, m);
    OccupiedExact(recs, m);
    OccupiedCount(recs, m);
  }

  // ---------------------------------------------------------------------
  // The loop

  /** The list, the centroids and the `changed` flag between passes. */
  datatype State = State(recs: seq<Record>, cents: seq<nat>, changed: bool)

  /** One pass of `while (changed && iteration < maxItteration)`. */
  function Step(D: Table, s: State, k: int): (r: Result<State>)
    requires Positions(s.cents, |s.recs|)
    ensures r.Ok? ==> |r.value.recs| == |s.recs| && Positions(r.value.cents, |r.value.recs|)
  {
    match Labelled(D, s.recs, s.cents, k, |s.recs|)
    case Err(e) => Err(e)
    case Ok(rs) =>
      match NewCentroids(D, rs, LoopCount(k))
      case Err(e) => Err(e)
      case Ok(nc) => if s.cents == nc then Ok(State(rs, s.cents, false)) else Ok(State(rs, nc, true))
  }

  /** The state after m passes, stopping once a pass leaves the centroids
      unchanged or throws. */
  function Iterate(D: Table, s0: State, k: int, m: nat): (r: Result<State>)
    requires Positions(s0.cents, |s0.recs|)
    ensures r.Ok? ==> |r.value.recs| == |s0.recs| && Positions(r.value.cents, |r.value.recs|)
  {
    if m == 0 then Ok(s0)
    else
      match Iterate(D, s0, k, m - 1)
      case Err(e) => Err(e)
      case Ok(s) => if !s.changed then Ok(s) else Step(D, s, k)
  }

  /** The rest of the loop from s with at most f passes left. */
  function Remaining(D: Table, s: State, k: int, f: nat): (r: Result<State>)
    requires Positions(s.cents, |s.recs|)
    ensures r.Ok? ==> |r.value.recs| == |s.recs| && Positions(r.value.cents, |r.value.recs|)
    decreases f
  {
    if f == 0 || !s.changed then Ok(s)
    else
      match Step(D, s, k)
      case Err(e) => Err(e)
      case Ok(t) => Remaining(D, t, k, f - 1)
  }

  /** `Enumerable.Range(0, count).OrderBy(random).Take(k)` with the shuffle
      `order`: min(k, count) distinct positions. */
  function InitialCentroids(order: seq<nat>, k: int, n: nat): (cs: seq<nat>)
    requires IsPermutation(order, n)
    ensures |cs| == (if k <= 0 then 0 else if k < n then k else n)
    ensures Positions(cs, n) && forall c, c' :: 0 <= c < c' < |cs| ==> cs[c] != cs[c']
  {
    order[..if k <= 0 then 0 else if k < n then k else n]
  }

  /** `foreach (var center in centeroids) center.IsCenter = true`. */
  function Flagged(recs: seq<Record>, cents: seq<nat>): (r: seq<Record>)
    ensures |r| == |recs|
  {
    seq(|recs|, i requires 0 <= i < |recs| => if i in cents then recs[i].(isCenter := true) else recs[i])
  }

  /** What KMeans leaves behind: the records (with their labels and flags),
      the final centroids, and the returned dictionary as one list of
      positions per key 0..k-1. */
  datatype Outcome = Outcome(recs: seq<Record>, centroids: seq<nat>, clusters: seq<seq<nat>>)

  /** Clustering.KMeans(maxItteration, k, dataset, distances) with the
      shuffle `order`. */
  function KMeansResult(D: Table, recs: seq<Record>, order: seq<nat>, k: int, maxIter: int): Result<Outcome>
    requires IsPermutation(order, |recs|)
  {
    var init := InitialCentroids(order, k, |recs|);
    match Iterate(D, State(recs, init, true), k, LoopCount(maxIter))
    case Err(e) => Err(e)
    case Ok(s) =>
      var fin := Flagged(s.recs, s.cents);
      Ok(Outcome(fin, s.cents, seq(LoopCount(k), i requires 0 <= i < LoopCount(k) => Cluster(fin, i))))
  }

  /** The medoid is a member of the cluster. */
  lemma MedoidMember(D: Table, recs: seq<Record>, ms: seq<nat>)
    requires ms != [] && Positions(ms, |recs|) && Medoid(D, recs, ms).Ok?
    ensures Medoid(D, recs, ms).value in ms
  {
  }

  // ---------------------------------------------------------------------
  // Properties of the loop

  /** A pass changes only labels. */
  lemma StepOnlyLabels(D: Table, s: State, k: int)
    requires Positions(s.cents, |s.recs|) && Step(D, s, k).Ok?
    ensures forall i :: 0 <= i < |s.recs| ==>
      Step(D, s, k).value.recs[i] == s.recs[i].(clusterLabel := Step(D, s, k).value.recs[i].clusterLabel)
  {
    LabelledValues(D, s.recs, s.cents, k, |s.recs|);
    forall i | 0 <= i < |s.recs| ensures Relabelled(D, s.recs, s.cents, k, i).Ok? ==>
      Relabelled(D, s.recs, s.cents, k, i).value == s.recs[i].(clusterLabel := Relabelled(D, s.recs, s.cents, k, i).value.clusterLabel)
    {
      RelabelledIds(D, s.recs, s.recs, s.cents, k, i);
    }
  }

  /** The passes change only labels. */
  lemma {:induction false} IterateOnlyLabels(D: Table, s0: State, k: int, m: nat)
    requires Positions(s0.cents, |s0.recs|) && Iterate(D, s0, k, m).Ok?
    ensures forall i :: 0 <= i < |s0.recs| ==>
      Iterate(D, s0, k, m).value.recs[i] == s0.recs[i].(clusterLabel := Iterate(D, s0, k, m).value.recs[i].clusterLabel)
  {
    if m > 0 {
      IterateOnlyLabels(D, s0, k, m - 1);
      var s := Iterate(D, s0, k, m - 1).value;
      if s.changed {
        StepOnlyLabels(D, s, k);
      }
    }
  }

  /** Once a pass leaves the centroids as they were, later passes do not run. */
  lemma {:induction false} IterateSettled(D: Table, s0: State, k: int, m: nat, m': nat)
    decreases m' - m
    requires Positions(s0.cents, |s0.recs|) && m <= m'
    requires Iterate(D, s0, k, m).Ok? && !Iterate(D, s0, k, m).value.changed
    ensures Iterate(D, s0, k, m') == Iterate(D, s0, k, m)
  {
    if m < m' {
      IterateStays(D, s0, k, m);
      IterateSettled(D, s0, k, m + 1, m');
    }
  }

  /** A pass after one that left the centroids unchanged changes nothing. */
  lemma IterateStays(D: Table, s0: State, k: int, m: nat)
    requires Positions(s0.cents, |s0.recs|)
    requires Iterate(D, s0, k, m).Ok? && !Iterate(D, s0, k, m).value.changed
    ensures Iterate(D, s0, k, m + 1) == Iterate(D, s0, k, m)
  {
  }

  /** The loop stops when a pass reproduces the centroids: a pass that
      keeps them reports no change, and one that replaces them reports one. */
  lemma StepChanged(D: Table, s: State, k: int)
    requires Positions(s.cents, |s.recs|) && Step(D, s, k).Ok?
    ensures var t := Step(D, s, k).value;
      NewCentroids(D, t.recs, LoopCount(k)).Ok? &&
      t.cents == NewCentroids(D, t.recs, LoopCount(k)).value &&
      (t.changed <==> s.cents != t.cents)
  {
  }

  /** After a pass with k > 0 every record carries one of the labels 0..k-1. */
  lemma StepLabelled(D: Table, s: State, k: int)
    requires Positions(s.cents, |s.recs|) && 0 < k && Step(D, s, k).Ok?
    ensures forall i :: 0 <= i < |s.recs| ==>
      Step(D, s, k).value.recs[i].clusterLabel.Some? && 0 <= Step(D, s, k).value.recs[i].clusterLabel.value < k
  {
    forall i | 0 <= i < |s.recs|
      ensures Step(D, s, k).value.recs[i].clusterLabel.Some? && 0 <= Step(D, s, k).value.recs[i].clusterLabel.value < k
    {
      LabelNearest(D, s.recs, s.cents, k, i);
    }
  }

  /** Every record is labelled 0..k-1 whenever at least one pass ran. */
  lemma {:induction false} IterateLabelled(D: Table, s0: State, k: int, m: nat)
    requires Positions(s0.cents, |s0.recs|) && 0 < k && 0 < m && s0.changed
    requires Iterate(D, s0, k, m).Ok?
    ensures forall i :: 0 <= i < |s0.recs| ==>
      Iterate(D, s0, k, m).value.recs[i].clusterLabel.Some? && 0 <= Iterate(D, s0, k, m).value.recs[i].clusterLabel.value < k
  {
    var s := Iterate(D, s0, k, m - 1).value;
    if s.changed {
      StepLabelled(D, s, k);
    } else {
      IterateLabelled(D, s0, k, m - 1);
    }
  }

  /** A pass over at least one record fails when fewer than k centroids are
      left: the inner loop reads past the end of the list. */
  lemma ShortCentroidsFail(D: Table, s: State, k: int)
    requires Positions(s.cents, |s.recs|) && 0 < |s.recs| && |s.cents| < k
    ensures Step(D, s, k).Err?
  {
    LabelledOk(D, s.recs, s.cents, k, |s.recs|);
    CentreDistancesSpec(D, s.recs, s.cents, s.recs[0].id, k);
  }

  /** A pass that empties a cluster and so changes the centroid list makes
      the next pass fail. */
  lemma EmptyClusterFails(D: Table, s: State, k: int, c: int)
    requires Positions(s.cents, |s.recs|) && 0 < |s.recs| && Step(D, s, k).Ok?
    requires Step(D, s, k).value.changed
    requires 0 <= c < k && Cluster(Step(D, s, k).value.recs, c) == []
    ensures Step(D, Step(D, s, k).value, k).Err?
  {
    var t := Step(D, s, k).value;
    NewCentroidsFull(D, t.recs, LoopCount(k));
    NewCentroidsEach(D, t.recs, LoopCount(k));
    OccupiedCount(t.recs, LoopCount(k));
    ShortCentroidsFail(D, t, k);
  }

  /** More centroids asked for than there are records: the first pass fails. */
  lemma RunRejects(D: Table, recs: seq<Record>, order: seq<nat>, k: int, maxIter: int)
    requires IsPermutation(order, |recs|) && 0 < |recs| < k && 0 < maxIter
    ensures KMeansResult(D, recs, order, k, maxIter).Err?
  {
    var s0 := State(recs, InitialCentroids(order, k, |recs|), true);
    ShortCentroidsFail(D, s0, k);
    IterateFirst(D, s0, k, LoopCount(maxIter));
  }

  /** A first pass that fails ends the loop with its exception. */
  lemma {:induction false} IterateFirst(D: Table, s0: State, k: int, m: nat)
    requires Positions(s0.cents, |s0.recs|) && 0 < m && s0.changed && Step(D, s0, k).Err?
    ensures Iterate(D, s0, k, m).Err?
  {
    if m > 1 {
      IterateFirst(D, s0, k, m - 1);
    }
  }

  /** No two records share an id. */
  predicate DistinctIds(recs: seq<Record>) {
    forall a, b :: 0 <= a < b < |recs| ==> recs[a].id != recs[b].id
  }

  /** Every distance in the table is positive. */
  predicate PositiveTable(D: Table) {
    forall p :: p in D ==> D[p] > 0.0
  }

  /** Every centroid c is labelled c. */
  predicate Centred(s: State, k: nat)
    requires Positions(s.cents, |s.recs|)
  {
    |s.cents| == k && forall c :: 0 <= c < k ==> s.recs[s.cents[c]].clusterLabel == Some(c)
  }

  /** With distinct ids and positive distances, each centroid is nearest to
      itself, so a pass labels centroid c with c. */
  lemma SelfNearest(D: Table, recs: seq<Record>, cents: seq<nat>, k: int, c: nat)
    requires Positions(cents, |recs|) && 0 < k && c < k && 0 < |recs|
    requires forall a, b :: 0 <= a < b < |cents| ==> cents[a] != cents[b]
    requires DistinctIds(recs) && PositiveTable(D)
    requires Labelled(D, recs, cents, k, |recs|).Ok?
    ensures k <= |cents| && Labelled(D, recs, cents, k, |recs|).value[cents[c]].clusterLabel == Some(c)
  {
    LabelNearest(D, recs, cents, k, 0);
    var x := cents[c];
    LabelNearest(D, recs, cents, k, x);
  }

  /** When every cluster below m is occupied, the c-th occupied cluster is c. */
  lemma {:induction false} OccupiedAll(recs: seq<Record>, m: nat)
    requires forall c :: 0 <= c < m ==> Cluster(recs, c) != []
    ensures |Occupied(recs, m)| == m && forall c :: 0 <= c < m ==> Occupied(recs, m)[c] == c
  {
    if m > 0 {
      OccupiedAll(recs, m - 1);
    }
  }

  /** With distinct ids and positive distances a pass from at most k distinct
      centroids over a non-empty list leaves k centroids, each in its own
      cluster, and so no cluster empty. */
  lemma StepCentred(D: Table, s: State, k: int)
    requires Positions(s.cents, |s.recs|) && 0 < k && 0 < |s.recs| && |s.cents| <= k
    requires forall a, b :: 0 <= a < b < |s.cents| ==> s.cents[a] != s.cents[b]
    requires DistinctIds(s.recs) && PositiveTable(D) && Step(D, s, k).Ok?
    ensures Centred(Step(D, s, k).value, k)
  {
    var rs := Labelled(D, s.recs, s.cents, k, |s.recs|).value;
    forall c | 0 <= c < k ensures rs[s.cents[c]].clusterLabel == Some(c) && Cluster(rs, c) != [] {
      SelfNearest(D, s.recs, s.cents, k, c);
      ClusterExact(rs, c);
    }
    var nc := NewCentroids(D, rs, k).value;
    NewCentroidsEach(D, rs, k);
    OccupiedAll(rs, k);
    forall c | 0 <= c < k ensures rs[nc[c]].clusterLabel == Some(c) {
      MedoidMember(D, rs, Cluster(rs, c));
      ClusterExact(rs, c);
    }
  }

  /** Centroids that are each labelled with their own index are distinct. */
  lemma CentredDistinct(s: State, k: nat)
    requires Positions(s.cents, |s.recs|) && Centred(s, k)
    ensures forall a, b :: 0 <= a < b < |s.cents| ==> s.cents[a] != s.cents[b]
  {
  }

  /** A pass from centroids that are each in their own cluster keeps them so. */
  lemma StepKeepsCentred(D: Table, s: State, k: nat)
    requires Positions(s.cents, |s.recs|) && 0 < k && 0 < |s.recs| && Centred(s, k)
    requires DistinctIds(s.recs) && PositiveTable(D) && Step(D, s, k).Ok?
    ensures Centred(Step(D, s, k).value, k)
  {
    CentredDistinct(s, k);
    StepCentred(D, s, k);
  }

  /** The passes keep the ids distinct. */
  lemma IterateIds(D: Table, s0: State, k: int, m: nat)
    requires Positions(s0.cents, |s0.recs|) && DistinctIds(s0.recs) && Iterate(D, s0, k, m).Ok?
    ensures DistinctIds(Iterate(D, s0, k, m).value.recs)
  {
    var s := Iterate(D, s0, k, m).value;
    IterateOnlyLabels(D, s0, k, m);
    forall a, b | 0 <= a < b < |s.recs| ensures s.recs[a].id != s.recs[b].id {
      assert s.recs[a].id == s0.recs[a].id && s.recs[b].id == s0.recs[b].id;
    }
  }

  /** Every pass keeps the centroids each in its own cluster. */
  lemma {:induction false} IterateCentred(D: Table, s0: State, k: int, m: nat)
    requires Positions(s0.cents, |s0.recs|) && 0 < k && 0 < |s0.recs| && |s0.cents| <= k && 0 < m && s0.changed
    requires forall a, b :: 0 <= a < b < |s0.cents| ==> s0.cents[a] != s0.cents[b]
    requires DistinctIds(s0.recs) && PositiveTable(D) && Iterate(D, s0, k, m).Ok?
    ensures Centred(Iterate(D, s0, k, m).value, k)
  {
    if m == 1 {
      IterateNext(D, s0, k, 0, s0);
      StepCentred(D, s0, k);
    } else {
      assert Iterate(D, s0, k, m - 1).Ok?;
      IterateCentred(D, s0, k, m - 1);
      var s := Iterate(D, s0, k, m - 1).value;
      if s.changed {
        IterateIds(D, s0, k, m - 1);
        IterateNext(D, s0, k, m - 1, s);
        StepKeepsCentred(D, s, k);
      }
    }
  }

  // ---------------------------------------------------------------------
  // Properties of the result

  /** The labels as the dictionary keys "cluster_0" .. "cluster_{k-1}". */
  function Keys(k: nat): (ks: seq<Option<int>>)
    ensures |ks| == k && forall c :: 0 <= c < k ==> ks[c] == Some(c)
  {
    seq(k, c requires 0 <= c < k => Some(c))
  }

  lemma {:induction false} KeysOccurrences(k: nat, c: int)
    ensures Occurrences(Keys(k), Some(c)) == if 0 <= c < k then 1 else 0
  {
    if k > 0 {
      assert Keys(k)[..k - 1] == Keys(k - 1);
      KeysOccurrences(k - 1, c);
    }
  }

  /** Setting the flags leaves the labels alone. */
  lemma FlaggedLabels(recs: seq<Record>, cents: seq<nat>)
    ensures Labels(Flagged(recs, cents)) == Labels(recs)
  {
  }

  /** Every record ends up as it came in, except that its label may change
      and that exactly the final centroids have IsCenter set (a flag already
      set stays set). */
  lemma ResultFlags(D: Table, recs: seq<Record>, order: seq<nat>, k: int, maxIter: int)
    requires IsPermutation(order, |recs|) && KMeansResult(D, recs, order, k, maxIter).Ok?
    ensures var o := KMeansResult(D, recs, order, k, maxIter).value;
      |o.recs| == |recs| && Positions(o.centroids, |recs|) &&
      forall i :: 0 <= i < |recs| ==>
        o.recs[i] == recs[i].(clusterLabel := o.recs[i].clusterLabel, isCenter := recs[i].isCenter || i in o.centroids)
  {
    var s0 := State(recs, InitialCentroids(order, k, |recs|), true);
    IterateOnlyLabels(D, s0, k, LoopCount(maxIter));
  }

  /** The result lists hold, for each key i, exactly the records labelled
      i, in list order. */
  lemma ResultClusters(D: Table, recs: seq<Record>, order: seq<nat>, k: int, maxIter: int)
    requires IsPermutation(order, |recs|) && KMeansResult(D, recs, order, k, maxIter).Ok?
    ensures var o := KMeansResult(D, recs, order, k, maxIter).value;
      |o.clusters| == LoopCount(k) &&
      forall c :: 0 <= c < LoopCount(k) ==>
        o.clusters[c] == Members(Labels(o.recs), Some(c), |recs|) &&
        forall i :: i in o.clusters[c] <==> 0 <= i < |recs| && o.recs[i].clusterLabel == Some(c)
  {
    var o := KMeansResult(D, recs, order, k, maxIter).value;
    forall c | 0 <= c < LoopCount(k)
      ensures forall i :: i in o.clusters[c] <==> 0 <= i < |recs| && o.recs[i].clusterLabel == Some(c)
    {
      ClusterExact(o.recs, c);
    }
  }

  /** After at least one pass with k > 0 every record carries one of the
      keys 0..k-1. */
  lemma ResultLabelled(D: Table, recs: seq<Record>, order: seq<nat>, k: int, maxIter: int)
    requires IsPermutation(order, |recs|) && 0 < k && 0 < maxIter
    requires KMeansResult(D, recs, order, k, maxIter).Ok?
    ensures var o := KMeansResult(D, recs, order, k, maxIter).value;
      |o.recs| == |recs| &&
      forall i :: 0 <= i < |recs| ==> o.recs[i].clusterLabel.Some? && 0 <= o.recs[i].clusterLabel.value < k
  {
    var s0 := State(recs, InitialCentroids(order, k, |recs|), true);
    IterateLabelled(D, s0, k, LoopCount(maxIter));
  }

  /** After at least one pass with k > 0 the k result lists partition the
      list: each record is in exactly one, and their sizes add up to the
      number of records. */
  lemma ResultsPartition(D: Table, recs: seq<Record>, order: seq<nat>, k: int, maxIter: int)
    requires IsPermutation(order, |recs|) && 0 < k && 0 < maxIter
    requires KMeansResult(D, recs, order, k, maxIter).Ok?
    ensures var o := KMeansResult(D, recs, order, k, maxIter).value;
      |o.recs| == |recs| && MemberCount(Labels(o.recs), Keys(k), |recs|) == |recs|
  {
    ResultLabelled(D, recs, order, k, maxIter);
    var o := KMeansResult(D, recs, order, k, maxIter).value;
    var ls := Labels(o.recs);
    forall i | 0 <= i < |recs| ensures Occurrences(Keys(k), ls[i]) == 1 {
      KeysOccurrences(k, o.recs[i].clusterLabel.value);
    }
    MembersPartition(ls, Keys(k), |recs|);
  }

  /** With distinct ids and positive distances, after at least one pass over
      a non-empty list there are k centroids, centroid c lies in result list
      c, and no result list is empty. */
  lemma ResultCentroidsOwnCluster(D: Table, recs: seq<Record>, order: seq<nat>, k: int, maxIter: int)
    requires IsPermutation(order, |recs|) && 0 < k && 0 < maxIter && 0 < |recs|
    requires DistinctIds(recs) && PositiveTable(D)
    requires KMeansResult(D, recs, order, k, maxIter).Ok?
    ensures var o := KMeansResult(D, recs, order, k, maxIter).value;
      |o.centroids| == k && |o.clusters| == k &&
      forall c :: 0 <= c < k ==> o.centroids[c] in o.clusters[c] && o.clusters[c] != []
  {
    var s0 := State(recs, InitialCentroids(order, k, |recs|), true);
    IterateCentred(D, s0, k, LoopCount(maxIter));
    ResultClusters(D, recs, order, k, maxIter);
    var o := KMeansResult(D, recs, order, k, maxIter).value;
    FlaggedLabels(Iterate(D, s0, k, LoopCount(maxIter)).value.recs, o.centroids);
    forall c | 0 <= c < k ensures o.centroids[c] in o.clusters[c] {
      assert Labels(o.recs)[o.centroids[c]] == Some(c);
    }
  }

  /** With maxItteration <= 0 no pass runs: the labels are as given and the
      centroids are the random initial ones. */
  lemma ResultWithoutPasses(D: Table, recs: seq<Record>, order: seq<nat>, k: int, maxIter: int)
    requires IsPermutation(order, |recs|) && maxIter <= 0
    ensures KMeansResult(D, recs, order, k, maxIter).Ok?
    ensures var o := KMeansResult(D, recs, order, k, maxIter).value;
      Labels(o.recs) == Labels(recs) && o.centroids == InitialCentroids(order, k, |recs|)
  {
  }

  /** With k <= 0 one pass runs, writes no label, finds no centroid and
      stops: nothing changes and the result is empty. */
  lemma ResultNoClusters(D: Table, recs: seq<Record>, order: seq<nat>, k: int, maxIter: int)
    requires IsPermutation(order, |recs|) && k <= 0
    ensures KMeansResult(D, recs, order, k, maxIter) == Ok(Outcome(recs, [], []))
  {
    assert InitialCentroids(order, k, |recs|) == [];
    var s0 := State(recs, [], true);
    LabelledOk(D, recs, [], k, |recs|);
    LabelledValues(D, recs, [], k, |recs|);
    assert Labelled(D, recs, [], k, |recs|).value == recs;
    assert Step(D, s0, k) == Ok(State(recs, [], false));
    var s := State(recs, [], false);
    if maxIter > 0 {
      assert Iterate(D, s0, k, 1) == Ok(s);
      IterateSettled(D, s0, k, 1, LoopCount(maxIter));
    } else {
      assert Iterate(D, s0, k, 0) == Ok(s0);
    }
    var r := Iterate(D, s0, k, LoopCount(maxIter));
    assert r.Ok? && r.value.recs == recs && r.value.cents == [];
    assert Flagged(recs, []) == recs;
    var cl := seq(LoopCount(k), i requires 0 <= i < LoopCount(k) => Cluster(Flagged(recs, []), i));
    assert cl == [];
  }

  // ---------------------------------------------------------------------
  // Exceptions end the loops they are thrown in

  lemma {:induction false} CentreDistancesSticks(D: Table, recs: seq<Record>, cents: seq<nat>, x: string, j: nat, m: nat)
    requires Positions(cents, |recs|) && j <= m && CentreDistances(D, recs, cents, x, j).Err?
    ensures CentreDistances(D, recs, cents, x, m) == CentreDistances(D, recs, cents, x, j)
  {
    if j < m {
      CentreDistancesSticks(D, recs, cents, x, j, m - 1);
    }
  }

  lemma {:induction false} LabelledSticks(D: Table, recs: seq<Record>, cents: seq<nat>, k: int, j: nat, n: nat)
    requires Positions(cents, |recs|) && j <= n <= |recs| && Labelled(D, recs, cents, k, j).Err?
    ensures Labelled(D, recs, cents, k, n) == Labelled(D, recs, cents, k, j)
  {
    if j < n {
      LabelledSticks(D, recs, cents, k, j, n - 1);
    }
  }

  lemma {:induction false} CostsSticks(D: Table, recs: seq<Record>, ms: seq<nat>, j: nat, m: nat)
    requires Positions(ms, |recs|) && j <= m <= |ms| && Costs(D, recs, ms, j).Err?
    ensures Costs(D, recs, ms, m) == Costs(D, recs, ms, j)
  {
    if j < m {
      CostsSticks(D, recs, ms, j, m - 1);
    }
  }

  lemma {:induction false} NewCentroidsSticks(D: Table, recs: seq<Record>, j: nat, m: nat)
    requires j <= m && NewCentroids(D, recs, j).Err?
    ensures NewCentroids(D, recs, m) == NewCentroids(D, recs, j)
  {
    if j < m {
      NewCentroidsSticks(D, recs, j, m - 1);
    }
  }

  lemma {:induction false} IterateSticks(D: Table, s0: State, k: int, j: nat, m: nat)
    requires Positions(s0.cents, |s0.recs|) && j <= m && Iterate(D, s0, k, j).Err?
    ensures Iterate(D, s0, k, m) == Iterate(D, s0, k, j)
  {
    if j < m {
      IterateSticks(D, s0, k, j, m - 1);
    }
  }

  /** One more step of a first-minimum scan: the new value wins only when
      it is strictly smaller than the best so far. */
  lemma ArgMinExtend(ds: seq<real>, d: real, m: nat)
    requires m == |ds|
    ensures ArgMin(ds + [d], m + 1) == if m == 0 || d < ds[ArgMin(ds, m)] then m else ArgMin(ds, m)
  {
    if 0 < m {
      ArgMinPrefix(ds + [d], ds, m);
      var b := ArgMin(ds, m);
      assert (ds + [d])[m] == d && (ds + [d])[b] == ds[b];
    }
  }

  /** One more step of the inner loop over the centroids. */
  lemma CentreDistancesNext(D: Table, recs: seq<Record>, cents: seq<nat>, x: string, m: nat, ds: seq<real>, d: real)
    requires Positions(cents, |recs|) && m < |cents|
    requires CentreDistances(D, recs, cents, x, m) == Ok(ds) && GetDistance(D, x, recs[cents[m]].id) == Ok(d)
    ensures CentreDistances(D, recs, cents, x, m + 1) == Ok(ds + [d])
  {
  }

  /** One more candidate of the medoid loop. */
  lemma CostsNext(D: Table, recs: seq<Record>, ms: seq<nat>, m: nat, cs: seq<real>, v: real)
    requires Positions(ms, |recs|) && m < |ms|
    requires Costs(D, recs, ms, m) == Ok(cs) && Cost(D, recs, ms, ms[m], |ms|) == Ok(v)
    ensures Costs(D, recs, ms, m + 1) == Ok(cs + [v])
  {
  }

  /** One more pass at the end of the rest of the loop. */
  lemma {:induction false} RemainingLast(D: Table, s: State, k: int, f: nat)
    decreases f
    requires Positions(s.cents, |s.recs|) && 0 < f
    ensures Remaining(D, s, k, f) ==
      match Remaining(D, s, k, f - 1)
      case Err(e) => Err(e)
      case Ok(u) => if !u.changed then Ok(u) else Step(D, u, k)
  {
    if 1 < f && s.changed {
      match Step(D, s, k)
      case Err(_) =>
      case Ok(t) =>
        RemainingLast(D, t, k, f - 1);
    }
  }

  /** Counting passes from the end or from the front gives the same loop. */
  lemma {:induction false} IterateIsRemaining(D: Table, s0: State, k: int, m: nat)
    requires Positions(s0.cents, |s0.recs|)
    ensures Iterate(D, s0, k, m) == Remaining(D, s0, k, m)
  {
    if 0 < m {
      IterateIsRemaining(D, s0, k, m - 1);
      RemainingLast(D, s0, k, m);
    }
  }

  /** A pass after one that changed the centroids. */
  lemma IterateNext(D: Table, s0: State, k: int, j: nat, s: State)
    requires Positions(s0.cents, |s0.recs|) && Iterate(D, s0, k, j) == Ok(s) && s.changed
    ensures Iterate(D, s0, k, j + 1) == Step(D, s, k)
  {
  }

  // ---------------------------------------------------------------------
  // The method, on the caller's list

  /** The list with record i's label set to lab. */
  function WithLabel(rs: seq<Record>, i: nat, lab: Option<int>): (r: seq<Record>)
    requires i < |rs|
    ensures |r| == |rs| && r[i].id == rs[i].id
  {
    rs[i := rs[i].(clusterLabel := lab)]
  }

  /** A second label write replaces the first. */
  lemma WithLabelTwice(rs: seq<Record>, i: nat, a: Option<int>, b: Option<int>)
    requires i < |rs|
    ensures WithLabel(rs, i, a)[i := WithLabel(rs, i, a)[i].(clusterLabel := b)] == WithLabel(rs, i, b)
  {
  }

  /** Where the inner loop for record i stands after ci centroids: the
      label written so far and bestDistance belong to the first nearest
      centroid among them. */
  ghost predicate Scanned(D: Table, rs: seq<Record>, cents: seq<nat>, i: nat, ci: nat,
                          lab: Option<int>, bestDistance: Option<real>, bestK: int)
    requires Positions(cents, |rs|) && i < |rs|
  {
    CentreDistances(D, rs, cents, rs[i].id, ci).Ok? &&
    (ci == 0 ==> lab == rs[i].clusterLabel && bestDistance.None?) &&
    (0 < ci ==> var ds := CentreDistances(D, rs, cents, rs[i].id, ci).value;
      lab == Some(bestK) && 0 <= bestK < ci && bestK == ArgMin(ds, ci) && bestDistance == Some(ds[bestK]))
  }

  /** One turn of the inner loop: read centroid ci, compare, write the label. */
  method ScanCentre(D: Table, list: array<Record>, cents: seq<nat>, i: nat, ci: nat, first: string,
                    bestDistance: Option<real>, bestK: int, ghost rs: seq<Record>, ghost lab: Option<int>)
    returns (err: Option<Error>, bestDistance': Option<real>, bestK': int, ghost lab': Option<int>)
    requires Positions(cents, list.Length) && i < list.Length == |rs| && first == rs[i].id
    requires list[..] == WithLabel(rs, i, lab) && Scanned(D, rs, cents, i, ci, lab, bestDistance, bestK)
    modifies list
    ensures err.None? ==> list[..] == WithLabel(rs, i, lab') && Scanned(D, rs, cents, i, ci + 1, lab', bestDistance', bestK')
    ensures err.Some? ==> list[..] == old(list[..]) && CentreDistances(D, rs, cents, first, ci + 1) == Err(err.value)
  {
    ghost var ds := CentreDistances(D, rs, cents, first, ci).value;
    if ci >= |cents| {
      return Some(ArgumentOutOfRange), bestDistance, bestK, lab;
    }
    assert list[cents[ci]] == WithLabel(rs, i, lab)[cents[ci]];
    var second := list[cents[ci]].id;
    var d := GetDistance(D, first, second);
    if d.Err? {
      return Some(d.error), bestDistance, bestK, lab;
    }
    ArgMinExtend(ds, d.value, ci);
    CentreDistancesNext(D, rs, cents, first, ci, ds, d.value);
    bestDistance', bestK' := bestDistance, bestK;
    if bestDistance.None? || d.value < bestDistance.value {
      bestDistance', bestK' := Some(d.value), ci;
    }
    WithLabelTwice(rs, i, lab, Some(bestK'));
    list[i] := list[i].(clusterLabel := Some(bestK'));
    return None, bestDistance', bestK', Some(bestK');
  }

  /** The body of the Parallel.For for record i: the inner loop over the
      centroids, writing the label after every step. */
  method LabelRecord(D: Table, list: array<Record>, cents: seq<nat>, k: int, i: nat) returns (err: Option<Error>)
    requires Positions(cents, list.Length) && i < list.Length
    modifies list
    ensures list[..] == old(list[..])[i := list[i]]
    ensures list[i] == old(list[i]).(clusterLabel := list[i].clusterLabel)
    ensures err.None? ==> Relabelled(D, old(list[..]), cents, k, i) == Ok(list[i])
    ensures err.Some? ==> Relabelled(D, old(list[..]), cents, k, i) == Err(err.value)
  {
    ghost var rs := list[..];
    var first := list[i].id;
    var bestDistance: Option<real> := None;
    var bestK := -1;
    ghost var lab := rs[i].clusterLabel;
    var ci := 0;
    while ci < k
      invariant 0 <= ci <= LoopCount(k)
      invariant list[..] == WithLabel(rs, i, lab)
      invariant Scanned(D, rs, cents, i, ci, lab, bestDistance, bestK)
    {
      err, bestDistance, bestK, lab := ScanCentre(D, list, cents, i, ci, first, bestDistance, bestK, rs, lab);
      if err.Some? {
        CentreDistancesSticks(D, rs, cents, first, ci + 1, k);
        return;
      }
      ci := ci + 1;
    }
    if 0 < k {
      assert ci == k;
    }
    return None;
  }

  /** The Parallel.For over the records, in order. */
  method AssignLabels(D: Table, list: array<Record>, cents: seq<nat>, k: int) returns (err: Option<Error>)
    requires Positions(cents, list.Length)
    modifies list
    ensures err.None? ==> Labelled(D, old(list[..]), cents, k, list.Length) == Ok(list[..])
    ensures err.Some? ==> Labelled(D, old(list[..]), cents, k, list.Length) == Err(err.value)
  {
    ghost var recs := list[..];
    var i := 0;
    while i < list.Length
      invariant 0 <= i <= list.Length
      invariant Labelled(D, recs, cents, k, i) == Ok(list[..])
    {
      err := LabelRecord(D, list, cents, k, i);
      if err.Some? {
        LabelledSticks(D, recs, cents, k, i + 1, list.Length);
        return;
      }
      i := i + 1;
    }
    return None;
  }

  /** `list.Where(x => x.Label == "cluster_{c}")`. */
  method ClusterOf(list: array<Record>, c: int) returns (ms: seq<nat>)
    ensures ms == Cluster(list[..], c)
  {
    ms := [];
    var j := 0;
    while j < list.Length
      invariant 0 <= j <= list.Length
      invariant ms == Members(Labels(list[..]), Some(c), j)
    {
      if list[j].clusterLabel == Some(c) {
        ms := ms + [j];
      }
      j := j + 1;
    }
  }

  /** sumDistance for one candidate. */
  method CostOf(D: Table, list: array<Record>, ms: seq<nat>, cand: nat) returns (r: Result<real>)
    requires Positions(ms, list.Length) && cand < list.Length
    ensures r == Cost(D, list[..], ms, cand, |ms|)
  {
    var candidateId := list[cand].id;
    var sumDistance := 0.0;
    var o := 0;
    while o < |ms|
      invariant 0 <= o <= |ms|
      invariant Cost(D, list[..], ms, cand, o) == Ok(sumDistance)
    {
      if list[ms[o]].id != candidateId {
        var d := GetDistance(D, candidateId, list[ms[o]].id);
        if d.Err? {
          CostSticks(D, list[..], ms, cand, o + 1, |ms|);
          return Err(d.error);
        }
        sumDistance := sumDistance + d.value;
      }
      o := o + 1;
    }
    return Ok(sumDistance);
  }

  lemma {:induction false} CostSticks(D: Table, recs: seq<Record>, ms: seq<nat>, cand: nat, j: nat, m: nat)
    requires Positions(ms, |recs|) && cand < |recs| && j <= m <= |ms| && Cost(D, recs, ms, cand, j).Err?
    ensures Cost(D, recs, ms, cand, m) == Cost(D, recs, ms, cand, j)
  {
    if j < m {
      CostSticks(D, recs, ms, cand, j, m - 1);
    }
  }

  /** The candidate loop: bestMember starts at the first member and moves on
      only for a strictly smaller total. */
  method MedoidOf(D: Table, list: array<Record>, ms: seq<nat>) returns (r: Result<nat>)
    requires ms != [] && Positions(ms, list.Length)
    ensures r == Medoid(D, list[..], ms)
  {
    ghost var recs := list[..];
    var bestTotal: Option<real> := None;
    var best := 0;
    ghost var cs: seq<real> := [];
    var j := 0;
    while j < |ms|
      invariant 0 <= j <= |ms| && best < |ms| && |cs| == j
      invariant Costs(D, recs, ms, j) == Ok(cs)
      invariant j == 0 ==> best == 0 && bestTotal.None?
      invariant 0 < j ==> best == ArgMin(cs, j) && bestTotal == Some(cs[best])
    {
      var sum := CostOf(D, list, ms, ms[j]);
      if sum.Err? {
        CostsSticks(D, recs, ms, j + 1, |ms|);
        return Err(sum.error);
      }
      ArgMinExtend(cs, sum.value, j);
      CostsNext(D, recs, ms, j, cs, sum.value);
      if bestTotal.None? || sum.value < bestTotal.value {
        bestTotal := Some(sum.value);
        best := j;
      }
      cs := cs + [sum.value];
      j := j + 1;
    }
    return Ok(ms[best]);
  }

  /** The loop building newCenteroids. */
  method Centroids(D: Table, list: array<Record>, k: int) returns (r: Result<seq<nat>>)
    ensures r == NewCentroids(D, list[..], LoopCount(k))
  {
    var cs := [];
    var ci := 0;
    while ci < k
      invariant 0 <= ci <= LoopCount(k)
      invariant NewCentroids(D, list[..], ci) == Ok(cs)
    {
      var records := ClusterOf(list, ci);
      if records != [] {
        var best := MedoidOf(D, list, records);
        if best.Err? {
          NewCentroidsSticks(D, list[..], ci + 1, LoopCount(k));
          return Err(best.error);
        }
        cs := cs + [best.value];
      }
      ci := ci + 1;
    }
    assert ci == LoopCount(k);
    return Ok(cs);
  }

  /** One pass of the while loop. */
  method Pass(D: Table, list: array<Record>, cents: seq<nat>, k: int) returns (err: Option<Error>, next: seq<nat>, changed: bool)
    requires Positions(cents, list.Length)
    modifies list
    ensures err.None? ==> Step(D, State(old(list[..]), cents, true), k) == Ok(State(list[..], next, changed))
    ensures err.Some? ==> Step(D, State(old(list[..]), cents, true), k) == Err(err.value)
  {
    err := AssignLabels(D, list, cents, k);
    if err.Some? {
      return err, cents, false;
    }
    var newCentroids := Centroids(D, list, k);
    if newCentroids.Err? {
      return Some(newCentroids.error), cents, false;
    }
    if cents != newCentroids.value {
      return None, newCentroids.value, true;
    }
    return None, cents, false;
  }

  /** The body of the while loop, with f passes left before it. */
  method Round(D: Table, list: array<Record>, cents: seq<nat>, k: int, ghost f: nat, ghost goal: Result<State>)
    returns (err: Option<Error>, next: seq<nat>, changed: bool)
    requires Positions(cents, list.Length) && 0 < f
    requires Remaining(D, State(list[..], cents, true), k, f) == goal
    modifies list
    ensures err.None? ==> Positions(next, list.Length) && Remaining(D, State(list[..], next, changed), k, f - 1) == goal
    ensures err.Some? ==> goal == Err(err.value)
  {
    err, next, changed := Pass(D, list, cents, k);
  }

  /** `while (changed && iteration < maxItteration)`. */
  method Iterations(D: Table, list: array<Record>, init: seq<nat>, k: int, maxIter: int)
    returns (err: Option<Error>, cents: seq<nat>, changed: bool)
    requires Positions(init, list.Length)
    modifies list
    ensures Remaining(D, State(old(list[..]), init, true), k, LoopCount(maxIter)) ==
      if err.None? then Ok(State(list[..], cents, changed)) else Err(err.value)
  {
    ghost var goal := Remaining(D, State(list[..], init, true), k, LoopCount(maxIter));
    ghost var left := LoopCount(maxIter);
    err := None;
    cents := init;
    changed := true;
    var iteration := 0;
    while err.None? && changed && iteration < maxIter
      invariant left == LoopCount(maxIter) - iteration
      invariant err.None? ==> Positions(cents, list.Length)
      invariant err.None? ==> Remaining(D, State(list[..], cents, changed), k, left) == goal
      invariant err.Some? ==> goal == Err(err.value)
      decreases left
    {
      err, cents, changed := Round(D, list, cents, k, left, goal);
      iteration := iteration + 1;
      left := left - 1;
    }
  }

  /** `foreach (var center in centeroids) center.IsCenter = true`. */
  method SetCenters(list: array<Record>, cents: seq<nat>)
    requires Positions(cents, list.Length)
    modifies list
    ensures list[..] == Flagged(old(list[..]), cents)
  {
    ghost var recs := list[..];
    var c := 0;
    while c < |cents|
      invariant 0 <= c <= |cents|
      invariant list[..] == Flagged(recs, cents[..c])
    {
      FlaggedStep(recs, cents[..c], cents[c]);
      assert cents[..c + 1] == cents[..c] + [cents[c]];
      list[cents[c]] := list[cents[c]].(isCenter := true);
      c := c + 1;
    }
    assert cents[..c] == cents;
  }

  /** Flagging one more centroid changes only that record. */
  lemma FlaggedStep(recs: seq<Record>, cs: seq<nat>, x: nat)
    requires x < |recs|
    ensures Flagged(recs, cs + [x]) == Flagged(recs, cs)[x := Flagged(recs, cs)[x].(isCenter := true)]
  {
  }

  /** The results dictionary: key i holds the records labelled i. */
  method Results(list: array<Record>, k: int) returns (clusters: seq<seq<nat>>)
    ensures |clusters| == LoopCount(k) && forall i :: 0 <= i < LoopCount(k) ==> clusters[i] == Cluster(list[..], i)
  {
    clusters := [];
    var i := 0;
    while i < k
      invariant 0 <= i <= LoopCount(k)
      invariant |clusters| == i && forall c :: 0 <= c < i ==> clusters[c] == Cluster(list[..], c)
    {
      var members := ClusterOf(list, i);
      clusters := clusters + [members];
      i := i + 1;
    }
  }

  /** Clustering.KMeans on the caller's list, with the shuffle `order` in
      place of the random keys.  The list's records are updated in place;
      after an exception their state is left unspecified. */
  method KMeans(maxIter: int, k: int, list: array<Record>, D: Table, order: seq<nat>) returns (r: Result<seq<seq<nat>>>)
    requires IsPermutation(order, list.Length)
    modifies list
    ensures r.Ok? ==> (KMeansResult(D, old(list[..]), order, k, maxIter).Ok? &&
      list[..] == KMeansResult(D, old(list[..]), order, k, maxIter).value.recs &&
      r.value == KMeansResult(D, old(list[..]), order, k, maxIter).value.clusters)
    ensures r.Err? ==> KMeansResult(D, old(list[..]), order, k, maxIter) == Err(r.error)
  {
    var count := list.Length;
    var take := if k <= 0 then 0 else if k < count then k else count;
    var centeroids := order[..take];
    IterateIsRemaining(D, State(list[..], centeroids, true), k, LoopCount(maxIter));
    var err, cents, _ := Iterations(D, list, centeroids, k, maxIter);
    if err.Some? {
      return Err(err.value);
    }
    SetCenters(list, cents);
    var results := Results(list, k);
    assert results == KMeansResult(D, old(list[..]), order, k, maxIter).value.clusters;
    return Ok(results);
  }
}
