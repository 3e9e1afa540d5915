/** Shared vocabulary of the clustering engine: optional values and the
    exceptions the core raises, the property schema that stands in for
    reflection, records as rows of optional values, the ordinal string order
    behind canonical distance keys, and the sum, mean, minimum, maximum and
    mode aggregates that the imputation and centroid code take over sequences. */
module Common {

  datatype Option<T> = None | Some(value: T) {
    /** C#'s `v ?? d`. */
    function GetOr(default: T): T {
      if Some? then value else default
    }
  }

  /** The .NET exceptions the core can raise. */
  datatype Error =
    | KeyNotFound          // a distance lookup for a pair the table does not hold
    | ArgumentOutOfRange   // a list index past the end, Enumerable.Range with a negative count
    | InvalidOperation     // Single() without exactly one match, First() on an empty sequence
    | Argument             // an expression tree whose type does not fit its delegate
    | InvalidCast          // Convert.ChangeType of a null to a value type

  datatype Result<T> = Ok(value: T) | Err(error: Error)

  /** The underlying (non-nullable) type of a public instance property. */
  datatype Kind = IntKind | DoubleKind | FloatKind | DecimalKind | OtherKind

  /** What reflection reports about one property: its name, its underlying
      type, whether it is a `Nullable<>` value type, and whether it has both
      a getter and a setter. */
  datatype Property = Property(name: string, kind: Kind, nullable: bool, readWrite: bool)

  /** The public instance properties of a record type, in declaration order. */
  type Schema = seq<Property>

  /** A record: its identity, one optional value per schema property (None
      is null; integer properties hold integral reals), and the two
      engine-owned properties.  `clusterLabel == Some(i)` stands for the label
      string "cluster_i"; None stands for null or any other string. */
  datatype Record = Record(id: string, values: seq<Option<real>>, clusterLabel: Option<int>, isCenter: bool)

  /** Every record has one value slot per property. */
  predicate Conforms(rows: seq<Record>, width: nat) {
    forall i :: 0 <= i < |rows| ==> |rows[i].values| == width
  }

  /** The two sequences hold the same records apart from their values. */
  predicate SameButValues(a: seq<Record>, b: seq<Record>) {
    |a| == |b| &&
    forall i :: 0 <= i < |a| ==>
      a[i].id == b[i].id && a[i].clusterLabel == b[i].clusterLabel && a[i].isCenter == b[i].isCenter &&
      |a[i].values| == |b[i].values|
  }

  // ---------------------------------------------------------------------
  // Columns

  /** The values that the rows hold for property f, in row order. */
  function Column(rows: seq<Record>, f: nat): (col: seq<Option<real>>)
    requires forall i :: 0 <= i < |rows| ==> f < |rows[i].values|
    ensures |col| == |rows|
  {
    seq(|rows|, i requires 0 <= i < |rows| => rows[i].values[f])
  }

  /** The rows with the values of property f replaced by col. */
  function SetColumn(rows: seq<Record>, f: nat, col: seq<Option<real>>): (r: seq<Record>)
    requires forall i :: 0 <= i < |rows| ==> f < |rows[i].values|
    requires |col| == |rows|
    ensures SameButValues(rows, r)
  {
    seq(|rows|, i requires 0 <= i < |rows| => rows[i].(values := rows[i].values[f := col[i]]))
  }

  /** Writing a column back unchanged leaves the rows as they were. */
  lemma SetColumnOwn(rows: seq<Record>, f: nat)
    requires forall i :: 0 <= i < |rows| ==> f < |rows[i].values|
    ensures SetColumn(rows, f, Column(rows, f)) == rows
  {
    var r := SetColumn(rows, f, Column(rows, f));
    forall i | 0 <= i < |rows| ensures r[i] == rows[i] {
      assert r[i].values == rows[i].values;
    }
  }

  lemma ColumnOfSetColumn(rows: seq<Record>, f: nat, col: seq<Option<real>>, g: nat)
    requires forall i :: 0 <= i < |rows| ==> f < |rows[i].values| && g < |rows[i].values|
    requires |col| == |rows|
    ensures Column(SetColumn(rows, f, col), g) == if g == f then col else Column(rows, g)
  {
  }

  /** Rows that agree outside their values and agree column by column are equal. */
  lemma {:induction false} EqualByColumns(a: seq<Record>, b: seq<Record>, width: nat)
    requires SameButValues(a, b) && Conforms(a, width)
    requires forall f :: 0 <= f < width ==> Column(a, f) == Column(b, f)
    ensures a == b
  {
    forall i | 0 <= i < |a| ensures a[i] == b[i] {
      forall f | 0 <= f < width ensures a[i].values[f] == b[i].values[f] {
        assert Column(a, f)[i] == Column(b, f)[i];
      }
      assert a[i].values == b[i].values;
    }
  }

  /** The present (non-null) values of a column, in order. */
  function Present(col: seq<Option<real>>): (p: seq<real>)
    ensures |p| <= |col|
  {
    if col == [] then []
    else if col[|col| - 1].Some? then Present(col[..|col| - 1]) + [col[|col| - 1].value]
    else Present(col[..|col| - 1])
  }

  /** A value is present in the column exactly when it is among its present values. */
  lemma {:induction false} PresentMembers(col: seq<Option<real>>, x: real)
    ensures x in Present(col) <==> Some(x) in col
  {
    if col != [] {
      PresentMembers(col[..|col| - 1], x);
      assert col == col[..|col| - 1] + [col[|col| - 1]];
    }
  }

  lemma {:induction false} PresentEmpty(col: seq<Option<real>>)
    ensures Present(col) == [] <==> forall i :: 0 <= i < |col| ==> col[i].None?
  {
    if col != [] {
      PresentEmpty(col[..|col| - 1]);
      assert forall i :: 0 <= i < |col| - 1 ==> col[..|col| - 1][i] == col[i];
    }
  }

  /** Every null of the column replaced by v; when v is None (SetValue with
      null) the column is unchanged. */
  function FillNulls(col: seq<Option<real>>, v: Option<real>): (r: seq<Option<real>>)
    ensures |r| == |col|
  {
    seq(|col|, i requires 0 <= i < |col| => if col[i].None? then v else col[i])
  }

  predicate HasNull(col: seq<Option<real>>) {
    exists i :: 0 <= i < |col| && col[i].None?
  }

  /** Filling a column without nulls changes nothing. */
  lemma FillNullsNoNull(col: seq<Option<real>>, v: Option<real>)
    requires !HasNull(col)
    ensures FillNulls(col, v) == col
  {
  }

  /** `foreach (var x in list.Where(x => p.GetValue(x) == null)) p.SetValue(x, v)`:
      every null of property f in the list becomes v, in place. */
  method FillColumn(list: array<Record>, f: nat, v: Option<real>)
    requires forall i :: 0 <= i < list.Length ==> f < |list[i].values|
    modifies list
    ensures list[..] == SetColumn(old(list[..]), f, FillNulls(Column(old(list[..]), f), v))
  {
    ghost var target := SetColumn(old(list[..]), f, FillNulls(Column(old(list[..]), f), v));
    for i := 0 to list.Length
      invariant forall j :: 0 <= j < i ==> list[j] == target[j]
      invariant forall j :: i <= j < list.Length ==> list[j] == old(list[j])
    {
      if list[i].values[f].None? {
        list[i] := list[i].(values := list[i].values[f := v]);
      }
    }
    assert list[..] == target;
  }

  // ---------------------------------------------------------------------
  // Aggregates

  function Abs(x: real): real {
    if x < 0.0 then -x else x
  }

  /** Left-to-right sum, as an accumulating loop computes it. */
  function Sum(s: seq<real>): real {
    if s == [] then 0.0 else Sum(s[..|s| - 1]) + s[|s| - 1]
  }

  lemma {:induction false} SumBounds(s: seq<real>, lo: real, hi: real)
    requires forall i :: 0 <= i < |s| ==> lo <= s[i] <= hi
    ensures |s| as real * lo <= Sum(s) <= |s| as real * hi
  {
    if s != [] {
      SumBounds(s[..|s| - 1], lo, hi);
    }
  }

  /** LINQ's Average over a non-empty sequence. */
  function Mean(s: seq<real>): real
    requires |s| > 0
  {
    Sum(s) / |s| as real
  }

  lemma MeanWithin(s: seq<real>, lo: real, hi: real)
    requires |s| > 0
    requires forall i :: 0 <= i < |s| ==> lo <= s[i] <= hi
    ensures lo <= Mean(s) <= hi
  {
    SumBounds(s, lo, hi);
    var n := |s| as real;
    assert Sum(s) / n >= (n * lo) / n;
    assert Sum(s) / n <= (n * hi) / n;
  }

  /** The least element of a non-empty sequence. */
  function SeqMin(s: seq<real>): (m: real)
    requires |s| > 0
    ensures m in s
    ensures forall i :: 0 <= i < |s| ==> m <= s[i]
  {
    if |s| == 1 then s[0]
    else
      var m := SeqMin(s[..|s| - 1]);
      if s[|s| - 1] < m then s[|s| - 1] else m
  }

  /** The greatest element of a non-empty sequence. */
  function SeqMax(s: seq<real>): (m: real)
    requires |s| > 0
    ensures m in s
    ensures forall i :: 0 <= i < |s| ==> s[i] <= m
  {
    if |s| == 1 then s[0]
    else
      var m := SeqMax(s[..|s| - 1]);
      if s[|s| - 1] > m then s[|s| - 1] else m
  }

  /** The mean of a non-empty sequence lies between its least and greatest element. */
  lemma MeanBetweenExtremes(s: seq<real>)
    requires |s| > 0
    ensures SeqMin(s) <= Mean(s) <= SeqMax(s)
  {
    MeanWithin(s, SeqMin(s), SeqMax(s));
  }

  /** How often v occurs in s. */
  function Count(s: seq<real>, v: real): nat {
    if s == [] then 0 else Count(s[..|s| - 1], v) + (if s[|s| - 1] == v then 1 else 0)
  }

  /** The scan behind the mode: b is the best position among s[..i]. */
  function ModeScan(s: seq<real>, i: nat, b: nat): (r: nat)
    requires b < i <= |s|
    requires forall j :: 0 <= j < i ==> Count(s, s[j]) <= Count(s, s[b])
    requires forall j :: 0 <= j < b ==> Count(s, s[j]) < Count(s, s[b])
    ensures r < |s|
    ensures forall j :: 0 <= j < |s| ==> Count(s, s[j]) <= Count(s, s[r])
    ensures forall j :: 0 <= j < r ==> Count(s, s[j]) < Count(s, s[r])
    decreases |s| - i
  {
    if i == |s| then b
    else if Count(s, s[i]) > Count(s, s[b]) then ModeScan(s, i + 1, i)
    else ModeScan(s, i + 1, b)
  }

  /** The position of the mode that GroupBy, a stable OrderByDescending on
      the group size and First() select: a most frequent value, the one
      whose first occurrence comes first. */
  function ModeIndex(s: seq<real>): (b: nat)
    requires |s| > 0
    ensures b < |s|
    ensures forall j :: 0 <= j < |s| ==> Count(s, s[j]) <= Count(s, s[b])
    ensures forall j :: 0 <= j < b ==> Count(s, s[j]) < Count(s, s[b]) && s[j] != s[b]
  {
    ModeScan(s, 1, 0)
  }

  function Mode(s: seq<real>): real
    requires |s| > 0
  {
    s[ModeIndex(s)]
  }

  // ---------------------------------------------------------------------
  // The string order behind canonical keys

  /** Ordinal lexicographic order on strings, standing in for string.CompareTo(..) <= 0. */
  predicate StringLe(a: string, b: string)
    decreases |a|
  {
    if a == [] then true
    else if b == [] then false
    else if a[0] != b[0] then a[0] < b[0]
    else StringLe(a[1..], b[1..])
  }

  lemma {:induction false} StringLeReflexive(a: string)
    ensures StringLe(a, a)
  {
    if a != [] {
      StringLeReflexive(a[1..]);
    }
  }

  lemma {:induction false} StringLeTotal(a: string, b: string)
    ensures StringLe(a, b) || StringLe(b, a)
    decreases |a|
  {
    if a != [] && b != [] && a[0] == b[0] {
      StringLeTotal(a[1..], b[1..]);
    }
  }

  lemma {:induction false} StringLeAntisymmetric(a: string, b: string)
    requires StringLe(a, b) && StringLe(b, a)
    ensures a == b
    decreases |a|
  {
    if a != [] && b != [] {
      StringLeAntisymmetric(a[1..], b[1..]);
      assert a == [a[0]] + a[1..] && b == [b[0]] + b[1..];
    }
  }

  lemma {:induction false} StringLeTransitive(a: string, b: string, c: string)
    requires StringLe(a, b) && StringLe(b, c)
    ensures StringLe(a, c)
    decreases |a|
  {
    if a != [] && b != [] && c != [] && a[0] == b[0] && b[0] == c[0] {
      StringLeTransitive(a[1..], b[1..], c[1..]);
    }
  }

  /** The dictionary key of an unordered pair of identities: the pair ordered
      by StringLe. */
  function CanonicalKey(a: string, b: string): (string, string) {
    if StringLe(a, b) then (a, b) else (b, a)
  }

  /** A key holds the two identities, in order. */
  lemma CanonicalKeyOrdered(a: string, b: string)
    ensures StringLe(CanonicalKey(a, b).0, CanonicalKey(a, b).1)
    ensures CanonicalKey(a, b) == (a, b) || CanonicalKey(a, b) == (b, a)
  {
    StringLeTotal(a, b);
  }

  /** (a, b) and (b, a) share one key. */
  lemma CanonicalKeySymmetric(a: string, b: string)
    ensures CanonicalKey(a, b) == CanonicalKey(b, a)
  {
    StringLeTotal(a, b);
    if StringLe(a, b) && StringLe(b, a) {
      StringLeAntisymmetric(a, b);
    }
  }

  // ---------------------------------------------------------------------
  // Nearest centre and cluster membership

  /** Where the scan `if (d < best) { best = d; bestIndex = c; }` over
      ds[..m] ends: the first position of the least value. */
  function ArgMin(ds: seq<real>, m: nat): (b: nat)
    requires 0 < m <= |ds|
    ensures b < m
    ensures forall c :: 0 <= c < m ==> ds[b] <= ds[c]
    ensures forall c :: 0 <= c < b ==> ds[b] < ds[c]
  {
    if m == 1 then 0
    else
      var b := ArgMin(ds, m - 1);
      if ds[m - 1] < ds[b] then m - 1 else b
  }

  /** The scan depends only on the values it visits. */
  lemma {:induction false} ArgMinPrefix(ds: seq<real>, ds': seq<real>, m: nat)
    requires 0 < m <= |ds| && m <= |ds'|
    requires forall c :: 0 <= c < m ==> ds[c] == ds'[c]
    ensures ArgMin(ds, m) == ArgMin(ds', m)
  {
    if m > 1 {
      ArgMinPrefix(ds, ds', m - 1);
    }
  }

  /** The positions below n whose tag is c, in list order: what
      `list.Where(x => tag(x) == c)` or repeated `clusters[c].Add(x)` yield. */
  function Members<T(==)>(tags: seq<T>, c: T, n: nat): seq<nat>
    requires n <= |tags|
  {
    if n == 0 then []
    else Members(tags, c, n - 1) + (if tags[n - 1] == c then [n - 1] else [])
  }

  /** A position is a member exactly when its tag is c; members come in
      increasing order. */
  lemma {:induction false} MembersExact<T>(tags: seq<T>, c: T, n: nat)
    requires n <= |tags|
    ensures forall i :: i in Members(tags, c, n) <==> 0 <= i < n && tags[i] == c
    ensures forall a, b :: 0 <= a < b < |Members(tags, c, n)| ==> Members(tags, c, n)[a] < Members(tags, c, n)[b]
    ensures forall a :: 0 <= a < |Members(tags, c, n)| ==> Members(tags, c, n)[a] < n
  {
    if n > 0 {
      MembersExact(tags, c, n - 1);
    }
  }

  /** Members depend only on the tags of positions below n. */
  lemma {:induction false} MembersPrefix<T>(tags: seq<T>, tags': seq<T>, c: T, n: nat)
    requires n <= |tags| && n <= |tags'| && tags[..n] == tags'[..n]
    ensures Members(tags, c, n) == Members(tags', c, n)
  {
    if n > 0 {
      assert tags[n - 1] == tags[..n][n - 1];
      assert tags'[n - 1] == tags'[..n][n - 1];
      assert tags[..n - 1] == tags[..n][..n - 1];
      assert tags'[..n - 1] == tags'[..n][..n - 1];
      MembersPrefix(tags, tags', c, n - 1);
    }
  }

  /** The total size of the member lists of the tags cs. */
  function MemberCount<T(==)>(tags: seq<T>, cs: seq<T>, n: nat): nat
    requires n <= |tags|
  {
    if cs == [] then 0 else MemberCount(tags, cs[..|cs| - 1], n) + |Members(tags, cs[|cs| - 1], n)|
  }

  /** How often t occurs in cs. */
  function Occurrences<T(==)>(cs: seq<T>, t: T): nat {
    if cs == [] then 0 else Occurrences(cs[..|cs| - 1], t) + (if cs[|cs| - 1] == t then 1 else 0)
  }

  lemma {:induction false} MemberCountStep<T>(tags: seq<T>, cs: seq<T>, n: nat)
    requires n < |tags|
    ensures MemberCount(tags, cs, n + 1) == MemberCount(tags, cs, n) + Occurrences(cs, tags[n])
  {
    if cs != [] {
      MemberCountStep(tags, cs[..|cs| - 1], n);
    }
  }

  /** When every tag occurs exactly once among cs, the member lists of cs
      partition the positions: their sizes add up to n. */
  lemma {:induction false} MembersPartition<T>(tags: seq<T>, cs: seq<T>, n: nat)
    requires n <= |tags|
    requires forall i :: 0 <= i < n ==> Occurrences(cs, tags[i]) == 1
    ensures MemberCount(tags, cs, n) == n
  {
    if n == 0 {
      MemberCountEmpty(tags, cs);
    } else {
      MembersPartition(tags, cs, n - 1);
      MemberCountStep(tags, cs, n - 1);
    }
  }

  lemma {:induction false} MemberCountEmpty<T>(tags: seq<T>, cs: seq<T>)
    ensures MemberCount(tags, cs, 0) == 0
  {
    if cs != [] {
      MemberCountEmpty(tags, cs[..|cs| - 1]);
    }
  }

  /** Each of the distinct values 0..k-1 occurs once in [0, ..., k-1]. */
  lemma {:induction false} RangeOccurrences(k: nat, t: nat)
    ensures Occurrences(Range(k), t) == if t < k then 1 else 0
  {
    if k > 0 {
      assert Range(k)[..k - 1] == Range(k - 1);
      RangeOccurrences(k - 1, t);
    }
  }

  /** `order` is a shuffle of the positions 0..n-1. */
  predicate IsPermutation(order: seq<nat>, n: nat) {
    |order| == n && (forall i :: 0 <= i < n ==> order[i] < n) &&
    (forall i, j :: 0 <= i < j < n ==> order[i] != order[j])
  }

  /** Enumerable.Range(0, k) as a sequence. */
  function Range(k: nat): (r: seq<nat>)
    ensures |r| == k && forall i :: 0 <= i < k ==> r[i] == i
  {
    seq(k, i => i)
  }
}
