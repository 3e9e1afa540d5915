/** DataPreparation.ImputeMissing: with the by-name classification, every
    null of a numeric feature becomes the average of the column's present
    values (converted to the property's type: rounded half to even for int),
    and every null of a categorical feature becomes the column's most frequent
    present value.  A column without any present value is left alone.  All
    numeric columns are handled first, then all categorical ones. */
module Imputation {
  import opened Common
  import opened FeatureSchema

  predicate Integral(x: real) {
    x == x.Floor as real
  }

  /** Convert.ChangeType(double, typeof(int)): the nearest integer, ties to
      the even one. */
  function RoundHalfEven(x: real): (r: int)
    ensures Abs(r as real - x) <= 0.5
    ensures Abs(r as real - x) == 0.5 ==> r % 2 == 0
    ensures Integral(x) ==> r as real == x
  {
    var f := x.Floor;
    var d := x - f as real;
    if d < 0.5 then f
    else if d > 0.5 then f + 1
    else if f % 2 == 0 then f
    else f + 1
  }

  /** Rounding a value that lies between two integers cannot leave them, so
      the conversion of an average of int values never overflows. */
  lemma RoundWithin(x: real, lo: int, hi: int)
    requires lo as real <= x <= hi as real
    ensures lo <= RoundHalfEven(x) <= hi
  {
  }

  /** The average written back through SetValue: converted to the property's
      underlying type.  Only int changes the value here. */
  function Converted(avg: real, kind: Kind): real {
    if kind == IntKind then RoundHalfEven(avg) as real else avg
  }

  /** The value a null of the column becomes, given its present values. */
  function Replacement(present: seq<real>, kind: Kind, categorical: bool): real
    requires |present| > 0
  {
    if categorical then Mode(present) else Converted(Mean(present), kind)
  }

  /** One column after imputation. */
  function ImputedColumn(col: seq<Option<real>>, kind: Kind, categorical: bool): seq<Option<real>> {
    var present := Present(col);
    if present == [] then col else FillNulls(col, Some(Replacement(present, kind, categorical)))
  }

  /** The features feats[..k] imputed one after the other. */
  function ImputeColumns(rows: seq<Record>, schema: Schema, feats: seq<nat>, k: nat, categorical: bool): (r: seq<Record>)
    requires Conforms(rows, |schema|) && k <= |feats|
    requires forall j :: 0 <= j < |feats| ==> feats[j] < |schema|
    ensures |r| == |rows| && Conforms(r, |schema|)
  {
    if k == 0 then rows
    else
      var r := ImputeColumns(rows, schema, feats, k - 1, categorical);
      var f := feats[k - 1];
      SetColumn(r, f, ImputedColumn(Column(r, f), schema[f].kind, categorical))
  }

  /** Imputing changes values only. */
  lemma {:induction false} ImputeColumnsSame(rows: seq<Record>, schema: Schema, feats: seq<nat>, k: nat, categorical: bool)
    requires Conforms(rows, |schema|) && k <= |feats|
    requires forall j :: 0 <= j < |feats| ==> feats[j] < |schema|
    ensures SameButValues(rows, ImputeColumns(rows, schema, feats, k, categorical))
  {
    if k > 0 {
      ImputeColumnsSame(rows, schema, feats, k - 1, categorical);
    }
  }

  /** The whole method: numeric features first, then categorical ones. */
  function Imputed(rows: seq<Record>, schema: Schema, names: set<string>): seq<Record>
    requires Conforms(rows, |schema|)
  {
    var F := NameFeatures(schema, names);
    var afterNumeric := ImputeColumns(rows, schema, F.numeric, |F.numeric|, false);
    ImputeColumns(afterNumeric, schema, F.categorical, |F.categorical|, true)
  }

  // ---------------------------------------------------------------------
  // One column

  /** Present values are never overwritten, and a column with a present value
      has no null left. */
  lemma ImputedColumnFills(col: seq<Option<real>>, kind: Kind, categorical: bool)
    ensures |ImputedColumn(col, kind, categorical)| == |col|
    ensures forall i :: 0 <= i < |col| && col[i].Some? ==> ImputedColumn(col, kind, categorical)[i] == col[i]
    ensures Present(col) != [] ==>
      forall i :: 0 <= i < |col| && col[i].None? ==>
        ImputedColumn(col, kind, categorical)[i] == Some(Replacement(Present(col), kind, categorical))
    ensures Present(col) != [] ==> !HasNull(ImputedColumn(col, kind, categorical))
  {
    PresentEmpty(col);
  }

  /** A column whose values are all null stays all null. */
  lemma ImputedColumnAllNull(col: seq<Option<real>>, kind: Kind, categorical: bool)
    requires forall i :: 0 <= i < |col| ==> col[i].None?
    ensures ImputedColumn(col, kind, categorical) == col
  {
    PresentEmpty(col);
  }

  /** Imputing an imputed column changes nothing. */
  lemma ImputedColumnIdempotent(col: seq<Option<real>>, kind: Kind, categorical: bool)
    ensures ImputedColumn(ImputedColumn(col, kind, categorical), kind, categorical) ==
      ImputedColumn(col, kind, categorical)
  {
    var once := ImputedColumn(col, kind, categorical);
    ImputedColumnFills(col, kind, categorical);
    ImputedColumnFills(once, kind, categorical);
    if Present(col) == [] {
      assert once == col;
    } else {
      assert !HasNull(once);
      FillNullsNoNull(once, Some(Replacement(Present(col), kind, categorical)));
      if Present(once) != [] {
        FillNullsNoNull(once, Some(Replacement(Present(once), kind, categorical)));
      }
    }
  }

  /** A numeric replacement lies between the least and the greatest present
      value, for int columns too once the values are whole numbers. */
  lemma NumericReplacementWithin(present: seq<real>, kind: Kind)
    requires |present| > 0
    requires kind == IntKind ==> forall i :: 0 <= i < |present| ==> Integral(present[i])
    ensures SeqMin(present) <= Replacement(present, kind, false) <= SeqMax(present)
    ensures kind == IntKind ==> Integral(Replacement(present, kind, false))
  {
    MeanBetweenExtremes(present);
    if kind == IntKind {
      var lo, hi := SeqMin(present), SeqMax(present);
      assert Integral(lo) && Integral(hi);
      RoundWithin(Mean(present), lo.Floor, hi.Floor);
    }
  }

  /** A categorical replacement is a present value that occurs at least as
      often as any other, and among those the first to appear. */
  lemma CategoricalReplacementIsMode(present: seq<real>, kind: Kind)
    requires |present| > 0
    ensures Replacement(present, kind, true) in present
    ensures forall i :: 0 <= i < |present| ==> Count(present, present[i]) <= Count(present, Replacement(present, kind, true))
    ensures forall i :: 0 <= i < |present| && Count(present, present[i]) == Count(present, Replacement(present, kind, true)) ==>
      exists j :: 0 <= j <= i && present[j] == Replacement(present, kind, true)
  {
    var b := ModeIndex(present);
    forall i | 0 <= i < |present| && Count(present, present[i]) == Count(present, present[b])
      ensures exists j :: 0 <= j <= i && present[j] == present[b]
    {
      assert b <= i;
      assert present[b] == present[b];
    }
  }

  // ---------------------------------------------------------------------
  // The whole list

  /** One feature more: its column is imputed from the columns so far. */
  lemma ImputeColumnsStep(rows: seq<Record>, schema: Schema, feats: seq<nat>, k: nat, categorical: bool)
    requires Conforms(rows, |schema|) && 0 < k <= |feats|
    requires forall j :: 0 <= j < |feats| ==> feats[j] < |schema|
    ensures Column(ImputeColumns(rows, schema, feats, k, categorical), feats[k - 1]) ==
      ImputedColumn(Column(ImputeColumns(rows, schema, feats, k - 1, categorical), feats[k - 1]),
                    schema[feats[k - 1]].kind, categorical)
  {
    var r := ImputeColumns(rows, schema, feats, k - 1, categorical);
    var f := feats[k - 1];
    ColumnOfSetColumn(r, f, ImputedColumn(Column(r, f), schema[f].kind, categorical), f);
  }

  /** One feature more: every other column is kept. */
  lemma ImputeColumnsKeep(rows: seq<Record>, schema: Schema, feats: seq<nat>, k: nat,
                          categorical: bool, g: nat)
    requires Conforms(rows, |schema|) && 0 < k <= |feats| && g < |schema| && g != feats[k - 1]
    requires forall j :: 0 <= j < |feats| ==> feats[j] < |schema|
    ensures Column(ImputeColumns(rows, schema, feats, k, categorical), g) ==
      Column(ImputeColumns(rows, schema, feats, k - 1, categorical), g)
  {
    var r := ImputeColumns(rows, schema, feats, k - 1, categorical);
    var f := feats[k - 1];
    ColumnOfSetColumn(r, f, ImputedColumn(Column(r, f), schema[f].kind, categorical), g);
  }

  /** A column no feature of feats[..k] names is untouched. */
  lemma {:induction false} ImputeColumnsOther(rows: seq<Record>, schema: Schema, feats: seq<nat>, k: nat,
                                              categorical: bool, g: nat)
    requires Conforms(rows, |schema|) && k <= |feats| && g < |schema|
    requires forall j :: 0 <= j < |feats| ==> feats[j] < |schema|
    requires forall j :: 0 <= j < k ==> feats[j] != g
    ensures Column(ImputeColumns(rows, schema, feats, k, categorical), g) == Column(rows, g)
  {
    if k == 0 {
      assert ImputeColumns(rows, schema, feats, k, categorical) == rows;
    } else {
      ImputeColumnsKeep(rows, schema, feats, k, categorical, g);
      ImputeColumnsOther(rows, schema, feats, k - 1, categorical, g);
      assert Column(ImputeColumns(rows, schema, feats, k, categorical), g) == Column(rows, g);
    }
  }

  /** The column of the feature feats[j], j < k, named by no other feature
      there, is imputed from its original values. */
  lemma {:induction false} ImputeColumnsFeature(rows: seq<Record>, schema: Schema, feats: seq<nat>, k: nat,
                                                categorical: bool, j: nat)
    requires Conforms(rows, |schema|) && j < k <= |feats|
    requires forall i :: 0 <= i < |feats| ==> feats[i] < |schema|
    requires forall i :: 0 <= i < k && i != j ==> feats[i] != feats[j]
    ensures Column(ImputeColumns(rows, schema, feats, k, categorical), feats[j]) ==
      ImputedColumn(Column(rows, feats[j]), schema[feats[j]].kind, categorical)
  {
    var goal := ImputedColumn(Column(rows, feats[j]), schema[feats[j]].kind, categorical);
    if j == k - 1 {
      ImputeColumnsStep(rows, schema, feats, k, categorical);
      ImputeColumnsOther(rows, schema, feats, k - 1, categorical, feats[j]);
      assert Column(ImputeColumns(rows, schema, feats, k, categorical), feats[j]) == goal;
    } else {
      ImputeColumnsKeep(rows, schema, feats, k, categorical, feats[j]);
      ImputeColumnsFeature(rows, schema, feats, k - 1, categorical, j);
      assert Column(ImputeColumns(rows, schema, feats, k, categorical), feats[j]) == goal;
    }
  }

  /** Each column after one pass over strictly increasing features: a
      feature's column imputed from its values before the pass, the rest
      untouched. */
  lemma PassColumn(rows: seq<Record>, schema: Schema, feats: seq<nat>, categorical: bool, g: nat)
    requires Conforms(rows, |schema|) && g < |schema|
    requires (forall i :: 0 <= i < |feats| ==> feats[i] < |schema|) && Increasing(feats)
    ensures Column(ImputeColumns(rows, schema, feats, |feats|, categorical), g) ==
      if g in feats then ImputedColumn(Column(rows, g), schema[g].kind, categorical) else Column(rows, g)
  {
    if g in feats {
      var j :| 0 <= j < |feats| && feats[j] == g;
      assert forall i :: 0 <= i < |feats| && i != j ==> feats[i] != feats[j];
      ImputeColumnsFeature(rows, schema, feats, |feats|, categorical, j);
    } else {
      ImputeColumnsOther(rows, schema, feats, |feats|, categorical, g);
    }
  }

  /** Each column after the method: numeric features imputed with the
      converted average, categorical features with the mode, the rest
      untouched. */
  lemma ImputedColumnwise(rows: seq<Record>, schema: Schema, names: set<string>, g: nat)
    requires Conforms(rows, |schema|) && g < |schema|
    ensures Column(Imputed(rows, schema, names), g) ==
      var F := NameFeatures(schema, names);
      if g in F.numeric then ImputedColumn(Column(rows, g), schema[g].kind, false)
      else if g in F.categorical then ImputedColumn(Column(rows, g), schema[g].kind, true)
      else Column(rows, g)
  {
    var F := NameFeatures(schema, names);
    var afterNumeric := ImputeColumns(rows, schema, F.numeric, |F.numeric|, false);
    PassColumn(rows, schema, F.numeric, false, g);
    PassColumn(afterNumeric, schema, F.categorical, true, g);
  }

  /** Whatever the column, a present value is kept. */
  lemma ImputeKeepsPresent(rows: seq<Record>, schema: Schema, names: set<string>, i: nat, g: nat)
    requires Conforms(rows, |schema|) && i < |rows| && g < |schema|
    requires rows[i].values[g].Some?
    ensures Imputed(rows, schema, names)[i].values[g] == rows[i].values[g]
  {
    ImputedColumnwise(rows, schema, names, g);
    ImputedColumnFills(Column(rows, g), schema[g].kind, false);
    ImputedColumnFills(Column(rows, g), schema[g].kind, true);
    assert Column(Imputed(rows, schema, names), g)[i] == Imputed(rows, schema, names)[i].values[g];
  }

  /** A null of a feature column with a present value is replaced: by the
      converted average for a numeric feature, by the mode for a categorical one. */
  lemma ImputeFills(rows: seq<Record>, schema: Schema, names: set<string>, i: nat, g: nat)
    requires Conforms(rows, |schema|) && i < |rows| && g < |schema|
    requires rows[i].values[g].None? && Present(Column(rows, g)) != []
    ensures g in NameFeatures(schema, names).numeric ==>
      Imputed(rows, schema, names)[i].values[g] == Some(Converted(Mean(Present(Column(rows, g))), schema[g].kind))
    ensures g in NameFeatures(schema, names).categorical ==>
      Imputed(rows, schema, names)[i].values[g] == Some(Mode(Present(Column(rows, g))))
  {
    ImputedColumnwise(rows, schema, names, g);
    ImputedColumnFills(Column(rows, g), schema[g].kind, false);
    ImputedColumnFills(Column(rows, g), schema[g].kind, true);
    assert Column(Imputed(rows, schema, names), g)[i] == Imputed(rows, schema, names)[i].values[g];
  }

  /** Properties that are neither numeric nor categorical features, among them
      CustomerId, Label and IsCenter, are untouched. */
  lemma ImputeOthersUnchanged(rows: seq<Record>, schema: Schema, names: set<string>, g: nat)
    requires Conforms(rows, |schema|) && g < |schema|
    requires g !in NameFeatures(schema, names).numeric && g !in NameFeatures(schema, names).categorical
    ensures Column(Imputed(rows, schema, names), g) == Column(rows, g)
  {
    ImputedColumnwise(rows, schema, names, g);
  }

  /** The method changes values only. */
  lemma ImputedSame(rows: seq<Record>, schema: Schema, names: set<string>)
    requires Conforms(rows, |schema|)
    ensures SameButValues(rows, Imputed(rows, schema, names))
  {
    var F := NameFeatures(schema, names);
    ImputeColumnsSame(rows, schema, F.numeric, |F.numeric|, false);
    ImputeColumnsSame(ImputeColumns(rows, schema, F.numeric, |F.numeric|, false), schema, F.categorical, |F.categorical|, true);
  }

  /** Running the method twice is the same as running it once. */
  lemma ImputeIdempotent(rows: seq<Record>, schema: Schema, names: set<string>)
    requires Conforms(rows, |schema|)
    ensures Imputed(Imputed(rows, schema, names), schema, names) == Imputed(rows, schema, names)
  {
    var once := Imputed(rows, schema, names);
    var twice := Imputed(once, schema, names);
    ImputedSame(once, schema, names);
    forall g | 0 <= g < |schema| ensures Column(twice, g) == Column(once, g) {
      ImputedColumnwise(rows, schema, names, g);
      ImputedColumnwise(once, schema, names, g);
      ImputedColumnIdempotent(Column(rows, g), schema[g].kind, false);
      ImputedColumnIdempotent(Column(rows, g), schema[g].kind, true);
    }
    EqualByColumns(twice, once, |schema|);
  }

  // ---------------------------------------------------------------------
  // The method

  /** One property: the present values, their average or mode, and the
      nulls overwritten with it. */
  method ImputeProperty(list: array<Record>, schema: Schema, f: nat, categorical: bool)
    requires Conforms(list[..], |schema|) && f < |schema|
    modifies list
    ensures list[..] == SetColumn(old(list[..]), f, ImputedColumn(Column(old(list[..]), f), schema[f].kind, categorical))
  {
    var present := Present(Column(list[..], f));
    if |present| == 0 {
      SetColumnOwn(list[..], f);
      return;
    }
    FillColumn(list, f, Some(Replacement(present, schema[f].kind, categorical)));
  }

  /** One pass of ImputeMissing: the features in feats, in order. */
  method ImputePass(list: array<Record>, schema: Schema, feats: seq<nat>, categorical: bool)
    requires Conforms(list[..], |schema|)
    requires forall j :: 0 <= j < |feats| ==> feats[j] < |schema|
    modifies list
    ensures list[..] == ImputeColumns(old(list[..]), schema, feats, |feats|, categorical)
  {
    ghost var rows := list[..];
    for k := 0 to |feats|
      invariant list[..] == ImputeColumns(rows, schema, feats, k, categorical)
    {
      ImputeProperty(list, schema, feats[k], categorical);
    }
  }

  /** DataPreparation.ImputeMissing on a list of records, with the names of
      the categorical properties. */
  method ImputeMissing(list: array<Record>, schema: Schema, names: set<string>)
    requires Conforms(list[..], |schema|)
    modifies list
    ensures list[..] == Imputed(old(list[..]), schema, names)
  {
    var F := NameFeatures(schema, names);
    ImputePass(list, schema, F.numeric, false);
    ImputePass(list, schema, F.categorical, true);
  }
}
