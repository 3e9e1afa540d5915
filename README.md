# Gower-distance clustering of customer-credit records, in Dafny

This project models the clustering engine of IAUN.ML.CustomerCredit. The
engine groups records that mix numeric and categorical fields (credit-card
customers) by their Gower distance. It has four parts, each modelled in its
own module:

- `DistanceTable` (distance_table.dfy): `DatasetExtensions.CalculateDistances`.
  - It classifies the properties by type: int is categorical; double, float
    and decimal are numeric; the key, `Label` and `IsCenter` are left out.
  - It min/max-normalises the numeric columns, reading a null as 0.
  - It stores the Gower distance of every pair `i < j` under the pair's
    canonically ordered ids.
  - The method runs on arrays and a map, loop by loop. It is proved to build
    exactly the table `IsDistanceTable` describes, with n(n-1)/2 entries.
  - The pair count that sizes the dictionary is computed in 32-bit `int`s,
    with wrap-around. A negative count makes the method fail.
- `Imputation` and `NullReplacement` (imputation.dfy, null_replacement.dfy):
  the two null-filling routines. Each is modelled as in-place writes to an
  `array<Record>`, and each is proved equal to a function on sequences:
  - `DataPreparation.ImputeMissing` fills with the mean or the first-occurring
    mode;
  - `DatasetExtensions.ReplaceNullValues` fills with the maximum or the
    average; it throws for other nullable types, and for an int? or double?
    column that holds nulls but no value.
  Keeping present values, filling every null and idempotence are proved about
  those functions.
- `Medoids` (clustering.dfy): `Clustering.KMeans`, k-medoids over the
  precomputed table. The list is an `array<Record>` whose labels and
  `IsCenter` flags the method writes in place. Centroids are positions in the
  list. The `while` loop is proved equal to `KMeansResult`, and labelling,
  medoid choice, termination, partition and error cases are proved about it.
- `GowerKMeans` (kmeans_gower.dfy): the class `KMeansGower<T>`, k-means with
  synthetic centres. It is a Dafny class whose constructor fills the
  `mins`/`maxs`/`ranges` arrays. Its methods (`GowerDistance`, `Run`,
  `Copy` and the loops inside `Run`) are proved against the functions
  `Distance`, `Step`, `Iterate` and `RunResult`.

Two modules hold what the parts share:

- `Common` (common.dfy):
  - the record and result types;
  - column access;
  - mean, minimum, maximum and mode;
  - the ordinal string order standing in for `string.CompareTo`;
  - canonical keys;
  - first-minimum scans;
  - member lists.
- `FeatureSchema` (features.dfy): the two classification rules, by type and by
  name.

Modelling conventions:

- A record is `Record(id, values, clusterLabel, isCenter)`. `values` holds one
  `Option<real>` per public property of the record type, in declaration
  order; `None` is null.
- A `Schema` lists each property's name, underlying type, nullability and
  whether it can be read and written. It replaces reflection.
- `clusterLabel == Some(i)` stands for the label string `"cluster_i"`.
- Exceptions are `Err` results (`KeyNotFound`, `ArgumentOutOfRange`,
  `InvalidOperation`, `Argument`, `InvalidCast`).
- The random shuffles are a parameter `order`, a permutation of the
  positions.

Behaviour of the code that the model follows, which a reader might not
expect:

- `CalculateDistances` reads a null numeric value as 0.0 when it takes the
  column minimum and maximum; it does not skip it.
- Its `pairCount = (n * (n - 1)) / 2` overflows `int` from n = 46342 on.
  For every n from 46342 to 65536 the product wraps to a negative value.
  The dictionary constructor then throws ArgumentOutOfRangeException before
  any distance is computed (`DistanceTable.PairCountOverflows`). Up to 46341
  records the count is exact (`DistanceTable.PairCountExact`).
- Its range is 1e-8 only when max − min is exactly 0. `KMeansGower` uses 1.0
  whenever max − min ≤ 1e-8.
- An empty cluster is not skipped harmlessly:
  - in `Clustering.KMeans` it shortens the centroid list, so the next pass
    reads past its end (`Medoids.EmptyClusterFails`);
  - in `KMeansGower.Run` the mode's `First()` throws when there is a
    categorical feature (`GowerKMeans.EmptyClusterFails`).
- A bad `k` is not rejected up front. It fails only once a pass reads a
  missing centre (`Medoids.RunRejects`, `GowerKMeans.RunRejectsBadK`). With
  no pass, `k` is never checked (`Medoids.ResultWithoutPasses`,
  `GowerKMeans.RunWithoutIterations`).
- `ReplaceNullValues` does not leave an all-null int? or double? column
  alone. Its maximum or average is null, and converting that null to the
  value type throws InvalidCastException before any write
  (`NullReplacement.OutcomeAllNull`).
- `Clustering.KMeans` computes no inertia. The model proves instead that each
  new medoid is no worse, for its own cluster, than any member it replaces
  (`Medoids.MedoidNoWorse`).

## Model

| member | source | states |
|---|---|---|
| Common.FillColumn | IAUN.ML.CustomerCredit/Extensions/DataPreparation.cs:35-39 | writing v into every record whose property f is null changes exactly the nulls of column f and nothing else in the list |
| Common.FillNullsNoNull | IAUN.ML.CustomerCredit/Extensions/DatasetExtensions.cs:181-182 | a column without a null is left as it is by the fill |
| Common.PresentMembers | IAUN.ML.CustomerCredit/Extensions/DataPreparation.cs:27-31 | a value is among the present values of a column exactly when the column holds it |
| Common.PresentEmpty | IAUN.ML.CustomerCredit/Extensions/DataPreparation.cs:32 | there are no present values exactly when every entry of the column is null |
| Common.MeanWithin | IAUN.ML.CustomerCredit/Extensions/DataPreparation.cs:33 | the average of values lying in [lo, hi] lies in [lo, hi] |
| Common.MeanBetweenExtremes | IAUN.ML.CustomerCredit/Extensions/DataPreparation.cs:33 | the average lies between the least and the greatest value |
| Common.SeqMax | IAUN.ML.CustomerCredit/Extensions/DatasetExtensions.cs:186-187 | LINQ's Max over present values is one of them and no value exceeds it |
| Common.SeqMin | IAUN.ML.CustomerCredit/Extensions/KMeansGower.cs:42 | the least value is one of the values and none is below it |
| Common.ModeIndex | IAUN.ML.CustomerCredit/Extensions/DataPreparation.cs:50-53 | GroupBy, then a stable OrderByDescending by count, then First: a most frequent value whose first occurrence precedes that of every other most frequent value |
| Common.StringLeReflexive | IAUN.ML.CustomerCredit/Clustering.cs:23 | the string order used for `CompareTo(..) <= 0` is reflexive |
| Common.StringLeTotal | IAUN.ML.CustomerCredit/Clustering.cs:23 | any two strings are ordered one way or the other |
| Common.StringLeAntisymmetric | IAUN.ML.CustomerCredit/Clustering.cs:23 | strings ordered both ways are equal |
| Common.StringLeTransitive | IAUN.ML.CustomerCredit/Clustering.cs:23 | the order is transitive, so it is a total order |
| Common.CanonicalKeyOrdered | IAUN.ML.CustomerCredit/Extensions/DatasetExtensions.cs:134 | a key holds the two ids, the lesser first |
| Common.CanonicalKeySymmetric | IAUN.ML.CustomerCredit/Extensions/DatasetExtensions.cs:134 | (a, b) and (b, a) get the same key |
| Common.ArgMin | IAUN.ML.CustomerCredit/Extensions/KMeansGower.cs:91-97 | the scan with a strict `<` ends at a least value, and at the first position of it |
| Common.MembersExact | IAUN.ML.CustomerCredit/Clustering.cs:105 | a `Where` over the list yields exactly the positions with the tag, in increasing order |
| Common.MembersPartition | IAUN.ML.CustomerCredit/Clustering.cs:103-106 | when each record's tag is listed exactly once among the keys, the member lists together have as many entries as there are records |
| FeatureSchema.TypeFeatures | IAUN.ML.CustomerCredit/Extensions/DatasetExtensions.cs:15-39 | `Single` fails unless exactly one property outside Label/IsCenter has the key's name; otherwise, outside Label, IsCenter and the key, int properties are categorical, double/float/decimal ones numeric, and all others ignored |
| FeatureSchema.NameFeatures | IAUN.ML.CustomerCredit/Extensions/DataPreparation.cs:10-23 | of the read-write properties other than CustomerId/Label/IsCenter, the named ones are categorical and the remaining double/int/float/decimal ones numeric; no property is both (the KMeansGower constructor uses the same rule) |
| DistanceTable.MissingReadsAsZero | IAUN.ML.CustomerCredit/Extensions/DatasetExtensions.cs:79-80 | a null categorical value reads as the code 0, the same as an explicit 0 |
| DistanceTable.TableRange | IAUN.ML.CustomerCredit/Extensions/DatasetExtensions.cs:85-90 | the range max − min, or 1e-8 when it is exactly 0, is positive |
| DistanceTable.RangesPositive | IAUN.ML.CustomerCredit/Extensions/DatasetExtensions.cs:85-90 | every range the normalisation divides by is positive |
| DistanceTable.Scaled | IAUN.ML.CustomerCredit/Extensions/DatasetExtensions.cs:91-97 | each normalised value (v − min) / range lies in [0, 1] |
| DistanceTable.ScaledValueMatches | IAUN.ML.CustomerCredit/Extensions/DatasetExtensions.cs:91-97 | the loops' value (v − mins[k]) / ranges[k] is that normalised value |
| DistanceTable.ScaledRowMatches | IAUN.ML.CustomerCredit/Extensions/DatasetExtensions.cs:91-97 | scaling a raw row by the column extremes gives the normalised row |
| DistanceTable.GowerSymmetric | IAUN.ML.CustomerCredit/Extensions/DatasetExtensions.cs:119-129 | the pair distance does not depend on the order of the two rows |
| DistanceTable.GowerSelfZero | IAUN.ML.CustomerCredit/Extensions/DatasetExtensions.cs:119-129 | a row is at distance 0 from itself |
| DistanceTable.GowerInUnitInterval | IAUN.ML.CustomerCredit/Extensions/DatasetExtensions.cs:119-129 | with numeric values in [0, 1] and at least one feature, the distance lies in [0, 1] |
| DistanceTable.PairDistance | IAUN.ML.CustomerCredit/Extensions/DatasetExtensions.cs:119-129 | the two summing loops compute (Σ\|Δ numeric\| + mismatches) / (numNum + numCat) |
| DistanceTable.TableKeysCanonical | IAUN.ML.CustomerCredit/Extensions/DatasetExtensions.cs:134 | over distinct ids every key of the table is ordered and never a self-pair |
| DistanceTable.TableLookupSymmetric | IAUN.ML.CustomerCredit/Extensions/DatasetExtensions.cs:134-136 | looking up (ids[j], ids[i]) canonically finds the distance of rows i and j |
| DistanceTable.TableValuesInUnitInterval | IAUN.ML.CustomerCredit/Extensions/DatasetExtensions.cs:91-129 | over normalised rows every stored distance lies in [0, 1] |
| DistanceTable.DistinctPairKeys | IAUN.ML.CustomerCredit/Extensions/DatasetExtensions.cs:134-136 | over distinct ids, different pairs i < j have different keys, so no entry is written twice |
| DistanceTable.PairsTotal | IAUN.ML.CustomerCredit/Extensions/DatasetExtensions.cs:99 | the nested loops visit n(n−1)/2 pairs |
| DistanceTable.Wrap32 | IAUN.ML.CustomerCredit/Extensions/DatasetExtensions.cs:99 | unchecked `int` arithmetic: the result is in the 32-bit range and congruent to the exact value modulo 2^32 |
| DistanceTable.TruncDiv | IAUN.ML.CustomerCredit/Extensions/DatasetExtensions.cs:99 | `int` division truncates toward zero, also for a negative dividend |
| DistanceTable.PairCountExact | IAUN.ML.CustomerCredit/Extensions/DatasetExtensions.cs:99-100 | up to 46341 records pairCount equals the number of pairs the loops visit, and the dictionary can be created |
| DistanceTable.PairCountOverflows | IAUN.ML.CustomerCredit/Extensions/DatasetExtensions.cs:99-100 | from 46342 to 65536 records n(n−1) wraps to n(n−1) − 2^32, so the capacity is negative and `new Dictionary` throws |
| DistanceTable.VisitRow | IAUN.ML.CustomerCredit/Extensions/DatasetExtensions.cs:106-140 | row i's iteration adds the n−i−1 entries of pairs (i, j), j > i, each under a key not yet present |
| DistanceTable.BuildTable | IAUN.ML.CustomerCredit/Extensions/DatasetExtensions.cs:101-148 | the upper-triangle loops build exactly one entry per pair i < j, holding its distance under its canonical key, and n(n−1)/2 entries in all |
| DistanceTable.CountKeyMatches | IAUN.ML.CustomerCredit/Extensions/DatasetExtensions.cs:21 | the search counts the properties that carry the key's name |
| DistanceTable.ClassifyByType | IAUN.ML.CustomerCredit/Extensions/DatasetExtensions.cs:21-39 | the classification loop yields the by-type feature split or the `Single` exception |
| DistanceTable.ReadNumericRow | IAUN.ML.CustomerCredit/Extensions/DatasetExtensions.cs:65-74 | a row's numeric values (null as 0.0), each folded into its column's running minimum and maximum |
| DistanceTable.ReadCategoricalRow | IAUN.ML.CustomerCredit/Extensions/DatasetExtensions.cs:76-82 | a row's categorical codes, null as 0 |
| DistanceTable.ReadRecord | IAUN.ML.CustomerCredit/Extensions/DatasetExtensions.cs:60-83 | one iteration of the row loop extends the key, row and extreme arrays by one record |
| DistanceTable.ExtractRows | IAUN.ML.CustomerCredit/Extensions/DatasetExtensions.cs:46-83 | the row loop yields the keys, the raw rows and the column minima and maxima over all records |
| DistanceTable.Ranges | IAUN.ML.CustomerCredit/Extensions/DatasetExtensions.cs:85-90 | each range is max − min, or 1e-8 when that is 0 |
| DistanceTable.NormaliseRow | IAUN.ML.CustomerCredit/Extensions/DatasetExtensions.cs:93-96 | the inner loop rescales row i in place and leaves the other rows alone |
| DistanceTable.Normalise | IAUN.ML.CustomerCredit/Extensions/DatasetExtensions.cs:91-97 | every row is rescaled in place by the column minima and ranges |
| DistanceTable.CalculateDistances | IAUN.ML.CustomerCredit/Extensions/DatasetExtensions.cs:8-151 | with distinct keys, it fails exactly when the key property is not unique (InvalidOperationException) or the 32-bit pair count is negative (ArgumentOutOfRangeException, in that order); otherwise it returns the table of all pair distances over normalised rows, with n(n−1)/2 entries |
| Imputation.RoundHalfEven | IAUN.ML.CustomerCredit/Extensions/DataPreparation.cs:38 | Convert.ChangeType to int: the nearest integer, ties to the even one, whole numbers unchanged |
| Imputation.RoundWithin | IAUN.ML.CustomerCredit/Extensions/DataPreparation.cs:38 | rounding a value between two integers stays between them |
| Imputation.ImputedColumnFills | IAUN.ML.CustomerCredit/Extensions/DataPreparation.cs:25-57 | present values are kept, every null of a column with a present value gets the replacement, and no null is left |
| Imputation.ImputedColumnAllNull | IAUN.ML.CustomerCredit/Extensions/DataPreparation.cs:32 | a column with no present value is left as it is |
| Imputation.ImputedColumnIdempotent | IAUN.ML.CustomerCredit/Extensions/DataPreparation.cs:25-57 | imputing a column twice is the same as once |
| Imputation.NumericReplacementWithin | IAUN.ML.CustomerCredit/Extensions/DataPreparation.cs:33-38 | the numeric replacement lies between the least and the greatest present value, and is whole for an int property |
| Imputation.CategoricalReplacementIsMode | IAUN.ML.CustomerCredit/Extensions/DataPreparation.cs:50-53 | the categorical replacement is a present value of maximal count, the first to appear among those |
| Imputation.ImputeColumnsSame | IAUN.ML.CustomerCredit/Extensions/DataPreparation.cs:25-57 | imputation writes values only: ids, labels and flags are unchanged |
| Imputation.PassColumn | IAUN.ML.CustomerCredit/Extensions/DataPreparation.cs:25-40 | a pass over distinct features imputes each of their columns from its original values and leaves every other column alone |
| Imputation.ImputedColumnwise | IAUN.ML.CustomerCredit/Extensions/DataPreparation.cs:7-58 | after the method, each numeric feature column is mean-imputed, each categorical one mode-imputed, and every other column is unchanged |
| Imputation.ImputeKeepsPresent | IAUN.ML.CustomerCredit/Extensions/DataPreparation.cs:35-55 | a present value is never overwritten |
| Imputation.ImputeFills | IAUN.ML.CustomerCredit/Extensions/DataPreparation.cs:33-56 | a null of a feature with a present value becomes the converted mean (numeric) or the mode (categorical) of the original present values |
| Imputation.ImputeOthersUnchanged | IAUN.ML.CustomerCredit/Extensions/DataPreparation.cs:10-23 | excluded properties, CustomerId, Label and IsCenter among them, are untouched |
| Imputation.ImputedSame | IAUN.ML.CustomerCredit/Extensions/DataPreparation.cs:7-58 | the method changes values only |
| Imputation.ImputeIdempotent | IAUN.ML.CustomerCredit/Extensions/DataPreparation.cs:7-58 | running the method twice is the same as running it once |
| Imputation.ImputeProperty | IAUN.ML.CustomerCredit/Extensions/DataPreparation.cs:27-39 | one property's nulls are overwritten in place with its replacement, everything else kept |
| Imputation.ImputePass | IAUN.ML.CustomerCredit/Extensions/DataPreparation.cs:25-40 | the foreach over the properties imputes them one after the other |
| Imputation.ImputeMissing | IAUN.ML.CustomerCredit/Extensions/DataPreparation.cs:7-58 | the list after the method is the imputed list: numeric features first, then categorical ones |
| NullReplacement.Largest | IAUN.ML.CustomerCredit/Extensions/DatasetExtensions.cs:186-187 | Max over a nullable column is null exactly when nothing is present, else the greatest present value |
| NullReplacement.AverageOrNull | IAUN.ML.CustomerCredit/Extensions/DatasetExtensions.cs:197-198 | Average over a nullable column is null exactly when nothing is present |
| NullReplacement.ReplaceSame | IAUN.ML.CustomerCredit/Extensions/DatasetExtensions.cs:155-212 | replacing changes values only |
| NullReplacement.OutcomeKeepsPresent | IAUN.ML.CustomerCredit/Extensions/DatasetExtensions.cs:181-203 | present values of a column are never overwritten |
| NullReplacement.OutcomeFills | IAUN.ML.CustomerCredit/Extensions/DatasetExtensions.cs:184-203 | a null of an int? column with a present value becomes the maximum; one of a double? column becomes the average |
| NullReplacement.OutcomeAllNull | IAUN.ML.CustomerCredit/Extensions/DatasetExtensions.cs:184-203 | an int?/double? column that holds nulls and no value fails with InvalidCastException, before any write |
| NullReplacement.OutcomeFailure | IAUN.ML.CustomerCredit/Extensions/DatasetExtensions.cs:181-203 | a column fails exactly when it is eligible and holds a null and either is not int?/double? (then with ArgumentException) or holds no value (then with InvalidCastException) |
| NullReplacement.OutcomeIdempotent | IAUN.ML.CustomerCredit/Extensions/DatasetExtensions.cs:181-182 | a replaced column is left as it is by a second replacement |
| NullReplacement.ReplaceColumnwise | IAUN.ML.CustomerCredit/Extensions/DatasetExtensions.cs:169-207 | when no exception escaped, every column handled is its own replacement |
| NullReplacement.ReplaceColumnSettled | IAUN.ML.CustomerCredit/Extensions/DatasetExtensions.cs:169-207 | even after an exception each column is either untouched or fully replaced |
| NullReplacement.SettledLast | IAUN.ML.CustomerCredit/Extensions/DatasetExtensions.cs:169-207 | the column of the property handled last is untouched or fully replaced |
| NullReplacement.ReplaceFailure | IAUN.ML.CustomerCredit/Extensions/DatasetExtensions.cs:169-207 | the run throws exactly when some handled column fails |
| NullReplacement.ReplaceFailureFirst | IAUN.ML.CustomerCredit/Extensions/DatasetExtensions.cs:169-207 | a run that throws does so with the exception of the first column that fails, every earlier column being handled without one |
| NullReplacement.FailureSticks | IAUN.ML.CustomerCredit/Extensions/DatasetExtensions.cs:169 | once the ForEach has thrown, later properties change nothing |
| NullReplacement.ReplaceKeepsPresent | IAUN.ML.CustomerCredit/Extensions/DatasetExtensions.cs:189-203 | whatever happens, a present value is still there |
| NullReplacement.ReplaceFills | IAUN.ML.CustomerCredit/Extensions/DatasetExtensions.cs:184-203 | after a run without exception, every null of an int?/double? column with a present value holds its maximum/average |
| NullReplacement.ReplaceIdempotent | IAUN.ML.CustomerCredit/Extensions/DatasetExtensions.cs:155-212 | a second run after one without exception changes nothing |
| NullReplacement.ReplaceProperty | IAUN.ML.CustomerCredit/Extensions/DatasetExtensions.cs:169-207 | one property: its column is replaced in place, or its ArgumentException or InvalidCastException is reported and the list is unchanged |
| NullReplacement.ReplaceNullValues | IAUN.ML.CustomerCredit/Extensions/DatasetExtensions.cs:155-212 | the list and the escaped exception are those of the property-by-property replacement |
| GowerKMeans.FeatureRange | IAUN.ML.CustomerCredit/Extensions/KMeansGower.cs:46-48 | every range is positive and at least max − min |
| GowerKMeans.ExtremesBound | IAUN.ML.CustomerCredit/Extensions/KMeansGower.cs:32-48 | every present numeric value lies between its feature's scanned extremes, which its range covers |
| GowerKMeans.Distance | IAUN.ML.CustomerCredit/Extensions/KMeansGower.cs:53-71 | the Gower distance is non-negative |
| GowerKMeans.DistanceSymmetric | IAUN.ML.CustomerCredit/Extensions/KMeansGower.cs:53-71 | the distance is symmetric |
| GowerKMeans.DistanceSelfZero | IAUN.ML.CustomerCredit/Extensions/KMeansGower.cs:53-71 | a record is at distance 0 from itself |
| GowerKMeans.MismatchesZeroIff | IAUN.ML.CustomerCredit/Extensions/KMeansGower.cs:64-69 | no categorical term counts exactly when all categorical values agree, two nulls agreeing and a null never agreeing with a value |
| GowerKMeans.MissingNumericIsZero | IAUN.ML.CustomerCredit/Extensions/KMeansGower.cs:59-60 | a missing numeric value counts as 0.0: replacing it by 0.0 changes no distance |
| GowerKMeans.DistanceInUnitInterval | IAUN.ML.CustomerCredit/Extensions/KMeansGower.cs:53-71 | when no numeric difference exceeds its range, the distance lies in [0, 1] |
| GowerKMeans.CopyKeepsDistance | IAUN.ML.CustomerCredit/Extensions/KMeansGower.cs:146-153 | a copy is at the same distance from every record as its source |
| GowerKMeans.InitialCenters | IAUN.ML.CustomerCredit/Extensions/KMeansGower.cs:77-80 | the initial centres have the record type's shape |
| GowerKMeans.InitialCentersDistinct | IAUN.ML.CustomerCredit/Extensions/KMeansGower.cs:77-80 | there are min(k, n) initial centres (none for k ≤ 0), copies of records at distinct positions |
| GowerKMeans.AssignmentNearest | IAUN.ML.CustomerCredit/Extensions/KMeansGower.cs:89-97 | each record goes to a centre at least distance, the lowest-index one among equals |
| GowerKMeans.ClustersPartition | IAUN.ML.CustomerCredit/Extensions/KMeansGower.cs:88-99 | every record is in exactly one cluster, its own, and the cluster sizes add up to the number of records |
| GowerKMeans.Inertia | IAUN.ML.CustomerCredit/Extensions/KMeansGower.cs:101-108 | the summed member-to-centre distances are non-negative |
| GowerKMeans.NewCenter | IAUN.ML.CustomerCredit/Extensions/KMeansGower.cs:113-139 | a new centre has the record type's shape |
| GowerKMeans.NewCenterFields | IAUN.ML.CustomerCredit/Extensions/KMeansGower.cs:113-139 | building a centre fails exactly when a categorical feature has no present member value; otherwise numeric fields are the converted mean (0.0 when none) and categorical fields the first-occurring mode |
| GowerKMeans.EmptyClusterFails | IAUN.ML.CustomerCredit/Extensions/KMeansGower.cs:131-135 | an empty cluster makes `First()` throw InvalidOperationException when there is a categorical feature |
| GowerKMeans.CenterValueWithin | IAUN.ML.CustomerCredit/Extensions/KMeansGower.cs:121-126 | a non-int numeric centre field lies between the least and the greatest present member value |
| GowerKMeans.NewCentersFail | IAUN.ML.CustomerCredit/Extensions/KMeansGower.cs:113-140 | building the centres fails exactly when some cluster's centre fails |
| GowerKMeans.NewCentersEach | IAUN.ML.CustomerCredit/Extensions/KMeansGower.cs:113-140 | otherwise centre c is the centre of cluster c |
| GowerKMeans.NewCentersFailed | IAUN.ML.CustomerCredit/Extensions/KMeansGower.cs:113-140 | the first failing cluster's exception is the one that escapes |
| GowerKMeans.StepOutcome | IAUN.ML.CustomerCredit/Extensions/KMeansGower.cs:85-141 | a successful pass had a valid k; its clusters are the nearest-centre clusters; it breaks exactly when the inertia moved by less than 1e-6, keeping centres and prevInertia; otherwise it records the inertia and moves to the new centres |
| GowerKMeans.IterateSettled | IAUN.ML.CustomerCredit/Extensions/KMeansGower.cs:85-111 | after a break or an exception, more iterations change nothing |
| GowerKMeans.IterateStops | IAUN.ML.CustomerCredit/Extensions/KMeansGower.cs:85-111 | a pass that fails or breaks fixes the outcome of every later iteration count |
| GowerKMeans.RunResultOf | IAUN.ML.CustomerCredit/Extensions/KMeansGower.cs:143 | Run returns the centres, the clusters and prevInertia of the state after maxIter passes, or its exception |
| GowerKMeans.RunWithoutIterations | IAUN.ML.CustomerCredit/Extensions/KMeansGower.cs:82-83 | with maxIter ≤ 0, Run returns the initial copies, an empty dictionary and double.MaxValue |
| GowerKMeans.RunRejectsBadK | IAUN.ML.CustomerCredit/Extensions/KMeansGower.cs:88-95 | a negative k, or k = 0 or k > n over a non-empty list, throws ArgumentOutOfRangeException once an iteration runs |
| GowerKMeans.KMeansGower.ValidReady | IAUN.ML.CustomerCredit/Extensions/KMeansGower.cs:50 | the constructed state is usable once the dimension is positive |
| GowerKMeans.KMeansGower.constructor | IAUN.ML.CustomerCredit/Extensions/KMeansGower.cs:13-51 | classifies by name, scans the present numeric extremes and fills the ranges and the dimension |
| GowerKMeans.KMeansGower.GowerDistance | IAUN.ML.CustomerCredit/Extensions/KMeansGower.cs:53-71 | the method computes the Gower distance |
| GowerKMeans.KMeansGower.NumericPart | IAUN.ML.CustomerCredit/Extensions/KMeansGower.cs:57-62 | the numeric loop sums \|xa − xb\| / range, nulls as 0.0 |
| GowerKMeans.KMeansGower.CategoricalPart | IAUN.ML.CustomerCredit/Extensions/KMeansGower.cs:64-69 | the categorical loop counts the mismatches |
| GowerKMeans.KMeansGower.Nearest | IAUN.ML.CustomerCredit/Extensions/KMeansGower.cs:91-97 | the inner loop finds the first centre at least distance |
| GowerKMeans.KMeansGower.Assign | IAUN.ML.CustomerCredit/Extensions/KMeansGower.cs:88-99 | the assignment loop builds the nearest-centre clusters |
| GowerKMeans.KMeansGower.ClusterInertia | IAUN.ML.CustomerCredit/Extensions/KMeansGower.cs:104-107 | one cluster's members' distances to its centre, summed |
| GowerKMeans.KMeansGower.TotalInertia | IAUN.ML.CustomerCredit/Extensions/KMeansGower.cs:101-108 | the inertia loops compute the inertia |
| GowerKMeans.KMeansGower.BuildCenters | IAUN.ML.CustomerCredit/Extensions/KMeansGower.cs:113-140 | the centre loop builds the new centres or stops at the first exception |
| GowerKMeans.KMeansGower.Copy | IAUN.ML.CustomerCredit/Extensions/KMeansGower.cs:146-153 | the copy has the source's read-write properties |
| GowerKMeans.KMeansGower.Pass | IAUN.ML.CustomerCredit/Extensions/KMeansGower.cs:88-140 | one iteration of the loop body is one step of the model |
| GowerKMeans.KMeansGower.InitialCopies | IAUN.ML.CustomerCredit/Extensions/KMeansGower.cs:77-80 | the first k records of the shuffle, copied |
| GowerKMeans.KMeansGower.Advance | IAUN.ML.CustomerCredit/Extensions/KMeansGower.cs:85-111 | a pass that continues is the next state; one that fails or breaks is the final one |
| GowerKMeans.KMeansGower.Iteration | IAUN.ML.CustomerCredit/Extensions/KMeansGower.cs:85-141 | the `for (iter ...)` loop yields the state after at most m passes |
| GowerKMeans.KMeansGower.Run | IAUN.ML.CustomerCredit/Extensions/KMeansGower.cs:73-144 | Run returns what the model of Run describes |
| GowerKMeans.ScanExtremes | IAUN.ML.CustomerCredit/Extensions/KMeansGower.cs:32-45 | the scan yields the least and greatest present value per numeric feature, null while none |
| GowerKMeans.ScanRecord | IAUN.ML.CustomerCredit/Extensions/KMeansGower.cs:37-44 | one record moves the extremes, nulls skipped |
| GowerKMeans.RangesOf | IAUN.ML.CustomerCredit/Extensions/KMeansGower.cs:46-48 | each range is the feature range of its extremes |
| Medoids.GetDistanceSymmetric | IAUN.ML.CustomerCredit/Clustering.cs:20-26 | the lookup does not depend on the order of the two ids |
| Medoids.GetDistanceInTable | IAUN.ML.CustomerCredit/Clustering.cs:20-26 | over a table built from distinct ids, the lookup is 0 for a record and itself and the pair distance otherwise |
| Medoids.CentreDistancesSpec | IAUN.ML.CustomerCredit/Clustering.cs:48-51 | the inner loop reads the first m centroid distances; it fails with ArgumentOutOfRange past the end of the list, or with KeyNotFound on a missing entry, whichever comes first |
| Medoids.RelabelledIds | IAUN.ML.CustomerCredit/Clustering.cs:42-60 | relabelling a record reads the ids only and changes its label only |
| Medoids.LabelledOk | IAUN.ML.CustomerCredit/Clustering.cs:42-60 | the labelling pass succeeds exactly when every record's inner loop does |
| Medoids.LabelledValues | IAUN.ML.CustomerCredit/Clustering.cs:42-60 | after it, each record holds its own relabelling, unaffected by the others' |
| Medoids.LabelledError | IAUN.ML.CustomerCredit/Clustering.cs:42-60 | a failed pass throws the exception of the first record whose loop fails |
| Medoids.LabelNearest | IAUN.ML.CustomerCredit/Clustering.cs:44-58 | each record's label is the lowest-index centroid at minimal distance among the first k |
| Medoids.ClusterExact | IAUN.ML.CustomerCredit/Clustering.cs:66 | the members of a cluster are exactly the records with its label, in list order |
| Medoids.CostSpec | IAUN.ML.CustomerCredit/Clustering.cs:74-81 | a candidate's total is defined exactly when every lookup to a member with another id succeeds; otherwise KeyNotFound |
| Medoids.CostNonNegative | IAUN.ML.CustomerCredit/Clustering.cs:74-81 | with non-negative distances the total is non-negative, and 0 when every member shares the candidate's id |
| Medoids.MedoidBest | IAUN.ML.CustomerCredit/Clustering.cs:69-88 | the new medoid is defined exactly when every candidate's total is; it has the least total, and it is the first such member |
| Medoids.MedoidMember | IAUN.ML.CustomerCredit/Clustering.cs:69-88 | the medoid is a member of its cluster |
| Medoids.MedoidNoWorse | IAUN.ML.CustomerCredit/Clustering.cs:69-88 | the new medoid is no worse than any member, the old centroid included |
| Medoids.NewCentroidsOk | IAUN.ML.CustomerCredit/Clustering.cs:62-90 | the new centroid list is defined exactly when the medoid of every non-empty cluster is |
| Medoids.NewCentroidsEach | IAUN.ML.CustomerCredit/Clustering.cs:62-90 | it holds the medoids of the non-empty clusters, in cluster order, empty clusters skipped |
| Medoids.NewCentroidsFull | IAUN.ML.CustomerCredit/Clustering.cs:67-89 | it has k entries exactly when no cluster is empty |
| Medoids.OccupiedCount | IAUN.ML.CustomerCredit/Clustering.cs:67 | at most k clusters are non-empty, and all are exactly when none is skipped |
| Medoids.InitialCentroids | IAUN.ML.CustomerCredit/Clustering.cs:15 | min(k, count) distinct positions of the list (none for k ≤ 0) |
| Medoids.StepOnlyLabels | IAUN.ML.CustomerCredit/Clustering.cs:42-60 | a pass changes labels only |
| Medoids.IterateOnlyLabels | IAUN.ML.CustomerCredit/Clustering.cs:37-98 | the loop changes labels only |
| Medoids.IterateIds | IAUN.ML.CustomerCredit/Clustering.cs:37-98 | the loop keeps the ids distinct |
| Medoids.StepChanged | IAUN.ML.CustomerCredit/Clustering.cs:92-96 | a pass's new centroids are the medoid list, and it reports a change exactly when they differ from the old ones |
| Medoids.IterateSettled | IAUN.ML.CustomerCredit/Clustering.cs:37-40 | once a pass leaves the centroids unchanged, further passes do not run |
| Medoids.IterateFirst | IAUN.ML.CustomerCredit/Clustering.cs:37-40 | a first pass that throws ends the loop with its exception |
| Medoids.StepLabelled | IAUN.ML.CustomerCredit/Clustering.cs:42-60 | with k > 0 a pass labels every record with one of 0..k−1 |
| Medoids.IterateLabelled | IAUN.ML.CustomerCredit/Clustering.cs:37-98 | after at least one pass every record carries one of the labels 0..k−1 |
| Medoids.ShortCentroidsFail | IAUN.ML.CustomerCredit/Clustering.cs:48-50 | with fewer than k centroids, a pass over a non-empty list reads past the end of the list and fails |
| Medoids.EmptyClusterFails | IAUN.ML.CustomerCredit/Clustering.cs:92-95 | a pass that empties a cluster shortens the centroid list, so the next pass fails |
| Medoids.RunRejects | IAUN.ML.CustomerCredit/Clustering.cs:29-50 | asking for more centroids than records fails in the first pass |
| Medoids.SelfNearest | IAUN.ML.CustomerCredit/Clustering.cs:44-58 | with distinct ids and positive distances, each centroid is nearest to itself and gets its own label |
| Medoids.StepCentred | IAUN.ML.CustomerCredit/Clustering.cs:42-90 | from at most k distinct initial centroids, a pass puts every centroid c in cluster c |
| Medoids.CentredDistinct | IAUN.ML.CustomerCredit/Clustering.cs:62-90 | centroids labelled with their own index are distinct |
| Medoids.StepKeepsCentred | IAUN.ML.CustomerCredit/Clustering.cs:42-96 | a pass from centroids each in its own cluster keeps them so |
| Medoids.IterateCentred | IAUN.ML.CustomerCredit/Clustering.cs:37-98 | under those conditions every pass keeps every centroid in its own cluster, so no cluster is empty |
| Medoids.FlaggedLabels | IAUN.ML.CustomerCredit/Clustering.cs:99-102 | setting the flags leaves the labels alone |
| Medoids.ResultFlags | IAUN.ML.CustomerCredit/Clustering.cs:99-102 | exactly the final centroids get IsCenter set; no other record's flag, and nothing but labels and flags, changes |
| Medoids.ResultClusters | IAUN.ML.CustomerCredit/Clustering.cs:103-106 | the results map each key 0..k−1 to exactly the records with that label, in list order |
| Medoids.ResultLabelled | IAUN.ML.CustomerCredit/Clustering.cs:37-106 | after at least one pass with k > 0 every record carries one of the keys |
| Medoids.ResultsPartition | IAUN.ML.CustomerCredit/Clustering.cs:103-106 | the result lists partition the records |
| Medoids.ResultCentroidsOwnCluster | IAUN.ML.CustomerCredit/Clustering.cs:52-95 | with distinct ids and positive distances, centroid c lies in result list c and no list is empty |
| Medoids.ResultWithoutPasses | IAUN.ML.CustomerCredit/Clustering.cs:29-40 | with maxItteration ≤ 0 the labels are as given and the centroids are the random initial ones |
| Medoids.ResultNoClusters | IAUN.ML.CustomerCredit/Clustering.cs:37-106 | with k ≤ 0 one pass writes no label and finds no centroid, and the result is empty |
| Medoids.ScanCentre | IAUN.ML.CustomerCredit/Clustering.cs:50-58 | one turn of the inner loop: look up, compare, write the label |
| Medoids.LabelRecord | IAUN.ML.CustomerCredit/Clustering.cs:44-59 | the loop body for record i writes only its label, the one its relabelling gives, or stops with its exception |
| Medoids.AssignLabels | IAUN.ML.CustomerCredit/Clustering.cs:42-60 | the labelling loop leaves the list the labelling pass describes |
| Medoids.ClusterOf | IAUN.ML.CustomerCredit/Clustering.cs:66 | the `Where` yields the cluster's members |
| Medoids.CostOf | IAUN.ML.CustomerCredit/Clustering.cs:74-81 | the loop computes sumDistance for one candidate |
| Medoids.MedoidOf | IAUN.ML.CustomerCredit/Clustering.cs:69-88 | the candidate loop finds the medoid |
| Medoids.Centroids | IAUN.ML.CustomerCredit/Clustering.cs:62-90 | the loop builds the new centroid list |
| Medoids.Pass | IAUN.ML.CustomerCredit/Clustering.cs:39-96 | one iteration of the while loop is one step of the model |
| Medoids.Iterations | IAUN.ML.CustomerCredit/Clustering.cs:37-98 | the while loop leaves the list and centroids of at most maxItteration passes, or their exception |
| Medoids.SetCenters | IAUN.ML.CustomerCredit/Clustering.cs:99-102 | the flag loop sets IsCenter on the centroids |
| Medoids.Results | IAUN.ML.CustomerCredit/Clustering.cs:103-106 | the result loop yields each key's cluster |
| Medoids.KMeans | IAUN.ML.CustomerCredit/Clustering.cs:6-109 | KMeans returns the clusters and leaves the list as the model of KMeans describes, or throws its exception |

## Left out

- `DataPreparation.LoadCsv`, `TryParseDouble` and `TryParseInt`: file I/O and library parsing. The model starts from parsed records.
- Program.cs: console orchestration and the interactive k = 4..10 loop.
- DistanceInfo.cs: DTOs the core does not use.
- CreditCardInfo.cs: it is replaced by the generic `Record`. Its `Label`/`IsCenter`, which the clustering code reads, are the fields `clusterLabel` and `isCenter`.
- Reflection, expression compilation and `Convert`: replaced by the `Schema` and feature index lists. Property values are modelled as reals only. String or bool properties, which `ImputeMissing` treats as categorical through `ToString()`, cannot be represented. The rounding of a mean written into an int property is modelled (`Imputation.RoundHalfEven`). A float or decimal conversion is the identity on reals.
- `Parallel.For`, thread-local buffers and the `lock`: modelled as the sequential loops in index order. Where records write to shared state (the labels in `Clustering.KMeans`), each record reads only ids, which no record changes, so the order does not matter.
- Duplicate keys in `CalculateDistances`: the model requires distinct ids. With duplicates the code throws or overwrites depending on scheduling.
- Floating point: doubles and floats are reals. The single-precision rows of `CalculateDistances`, rounding, overflow, NaN and infinity are not modelled. The `double.MaxValue`/`MinValue` seeds of the running extremes, of `prevInertia`, and of `bestDistance` and `bestTotal` in `Clustering.KMeans` are `None`. So a distance or cost of `double.MaxValue` behaves differently. In the code it never beats the seed: the label stays `"cluster_-1"` while every distance so far is that large, and the medoid stays `records[0]`. The model (`Medoids.ScanCentre`, `Medoids.MedoidOf`) takes the first centroid, or the least-cost member. Tables from `CalculateDistances` hold values in [0, 1] and never reach this.
- The `(byte)` cast of categorical codes in `CalculateDistances`: codes are taken to be in 0..255.
- `KMeansGower` with no feature at all divides by a zero dimension (NaN). The methods require a positive dimension (`Ready`).
- `string.CompareTo`: culture-sensitive comparison is modelled as the ordinal lexicographic order `StringLe`, proved to be a total order.
- `System.Random`: the shuffle is the parameter `order`, any permutation of the positions.
- Object identity: records are values, and centroids in `Clustering.KMeans` are positions in the list. `SequenceEqual` by reference is equality of positions. The same object appearing twice in a list is not modelled.
- `GowerKMeans.KMeansGower.Copy`: modelled as a value copy; `new T()`'s defaults are null for the properties it does not copy.
- `Medoids.LabelledError`: a failed pass yields the bare exception of the first failing record. Parallel.For rethrows it wrapped in an AggregateException, possibly with other records' exceptions; the wrapping is not modelled.
- `Medoids.KMeans`: reports the bare exception of a failed pass, not the AggregateException that wraps it, as for `Medoids.LabelledError`.
- `Medoids.KMeans`: states nothing about the list after an exception. The code has by then rewritten some labels, and Parallel.For leaves which ones unspecified.
- `DistanceTable.CalculateDistances`: the key property is taken to be the record's id (`Record.id`). The code keys by the string of whichever property `keyName` names, with "" for null.
- `DistanceTable.CalculateDistances`: requires at least one feature when there are two or more records. Otherwise the code divides by a zero feature count (NaN).
