/** Feature classification: which properties of a record type take part in a
    distance, and as what.  Two policies exist in the source.
    - By type (DatasetExtensions.CalculateDistances): every property except
      Label, IsCenter and the key property; int is categorical,
      double/float/decimal are numeric, any other type is ignored.
    - By name (KMeansGower's constructor and DataPreparation.ImputeMissing,
      which repeat the same code): read-write properties except CustomerId,
      Label and IsCenter; those named in the caller's list are categorical,
      the rest of type double/int/float/decimal are numeric. */
module FeatureSchema {
  import opened Common

  /** Feature index lists into a schema, each in declaration order. */
  datatype Features = Features(numeric: seq<nat>, categorical: seq<nat>)

  /** The number of features, the divisor of a Gower sum. */
  function Dimension(F: Features): nat {
    |F.numeric| + |F.categorical|
  }

  predicate Increasing(s: seq<nat>) {
    forall i, j :: 0 <= i < j < |s| ==> s[i] < s[j]
  }

  /** Every index names a property of a schema of the given width. */
  predicate FitsWidth(F: Features, width: nat) {
    (forall k :: 0 <= k < |F.numeric| ==> F.numeric[k] < width) &&
    (forall k :: 0 <= k < |F.categorical| ==> F.categorical[k] < width)
  }

  /** The four selection rules. */
  datatype Rule =
    | TypeNumeric(key: string)
    | TypeCategorical(key: string)
    | NameNumeric(names: set<string>)
    | NameCategorical(names: set<string>)

  /** Names the by-type policy never classifies. */
  const TypeControl: set<string> := {"Label", "IsCenter"}

  /** Names the by-name policy never classifies. */
  const NameControl: set<string> := {"CustomerId", "Label", "IsCenter"}

  predicate Selects(rule: Rule, p: Property) {
    match rule
    case TypeNumeric(key) =>
      p.name !in TypeControl && p.name != key && p.kind in {DoubleKind, FloatKind, DecimalKind}
    case TypeCategorical(key) =>
      p.name !in TypeControl && p.name != key && p.kind == IntKind
    case NameNumeric(names) =>
      p.readWrite && p.name !in NameControl && p.name !in names &&
      p.kind in {DoubleKind, IntKind, FloatKind, DecimalKind}
    case NameCategorical(names) =>
      p.readWrite && p.name !in NameControl && p.name in names
  }

  /** The indices below n of the properties the rule selects, in declaration order. */
  function Indices(schema: Schema, rule: Rule, n: nat): seq<nat>
    requires n <= |schema|
  {
    if n == 0 then []
    else Indices(schema, rule, n - 1) + (if Selects(rule, schema[n - 1]) then [n - 1] else [])
  }

  /** The indices are increasing, below n, and exactly those the rule selects. */
  lemma {:induction false} IndicesSelected(schema: Schema, rule: Rule, n: nat)
    requires n <= |schema|
    ensures Increasing(Indices(schema, rule, n))
    ensures forall k :: 0 <= k < |Indices(schema, rule, n)| ==> Indices(schema, rule, n)[k] < n
    ensures forall i :: i in Indices(schema, rule, n) <==> 0 <= i < n && Selects(rule, schema[i])
  {
    if n > 0 {
      IndicesSelected(schema, rule, n - 1);
    }
  }

  /** How many properties outside Label/IsCenter carry the key's name:
      `Single` succeeds only when this is 1. */
  function KeyMatches(schema: Schema, key: string): nat {
    if schema == [] then 0
    else
      KeyMatches(schema[..|schema| - 1], key) +
      (var p := schema[|schema| - 1]; if p.name !in TypeControl && p.name == key then 1 else 0)
  }

  /** The by-type classification, or the InvalidOperationException of
      `Single` when the key property is missing or not unique. */
  function TypeFeatures(schema: Schema, key: string): (r: Result<Features>)
    ensures r.Err? <==> KeyMatches(schema, key) != 1
    ensures r.Ok? ==> FitsWidth(r.value, |schema|)
    ensures r.Ok? ==> forall i :: i in r.value.numeric <==>
      0 <= i < |schema| && schema[i].name !in {"Label", "IsCenter", key} &&
      schema[i].kind in {DoubleKind, FloatKind, DecimalKind}
    ensures r.Ok? ==> forall i :: i in r.value.categorical <==>
      0 <= i < |schema| && schema[i].name !in {"Label", "IsCenter", key} && schema[i].kind == IntKind
  {
    IndicesSelected(schema, TypeNumeric(key), |schema|);
    IndicesSelected(schema, TypeCategorical(key), |schema|);
    if KeyMatches(schema, key) != 1 then Err(InvalidOperation)
    else Ok(Features(Indices(schema, TypeNumeric(key), |schema|),
                     Indices(schema, TypeCategorical(key), |schema|)))
  }

  /** The by-name classification. */
  function NameFeatures(schema: Schema, names: set<string>): (F: Features)
    ensures FitsWidth(F, |schema|)
    ensures Increasing(F.numeric) && Increasing(F.categorical)
    ensures forall i :: i in F.categorical <==>
      0 <= i < |schema| && schema[i].readWrite && schema[i].name !in NameControl && schema[i].name in names
    ensures forall i :: i in F.numeric <==>
      0 <= i < |schema| && schema[i].readWrite && schema[i].name !in NameControl && schema[i].name !in names &&
      schema[i].kind in {DoubleKind, IntKind, FloatKind, DecimalKind}
    ensures forall i :: !(i in F.numeric && i in F.categorical)
  {
    IndicesSelected(schema, NameNumeric(names), |schema|);
    IndicesSelected(schema, NameCategorical(names), |schema|);
    Features(Indices(schema, NameNumeric(names), |schema|),
             Indices(schema, NameCategorical(names), |schema|))
  }
}
