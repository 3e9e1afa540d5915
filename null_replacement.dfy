/** DatasetExtensions.ReplaceNullValues: for every readable and writable
    property of a Nullable<> value type, in declaration order, replace the
    nulls of its column by the column's maximum (int?) or average (double?).
    Any other nullable type fails once its column holds a null, because the
    accessor expression cannot be typed as returning double?; an int? or
    double? column holding nulls and no value fails too, because the null
    maximum or average cannot be converted to the value type. The columns
    handled before the failing one keep their replacements. */
module NullReplacement {
  import opened Common

  /** The properties the method looks at. */
  predicate Eligible(p: Property) {
    p.nullable && p.readWrite
  }

  /** LINQ's Max over a nullable column: null when no value is present. */
  function Largest(present: seq<real>): (m: Option<real>)
    ensures m.Some? ==> m.value in present && forall i :: 0 <= i < |present| ==> present[i] <= m.value
    ensures m.None? <==> present == []
  {
    if present == [] then None else Some(SeqMax(present))
  }

  /** LINQ's Average over a nullable column: null when no value is present. */
  function AverageOrNull(present: seq<real>): (m: Option<real>)
    ensures m.None? <==> present == []
  {
    if present == [] then None else Some(Mean(present))
  }

  /** The fill value of an int? or double? column: its maximum or its average. */
  function FillValue(present: seq<real>, p: Property): Option<real> {
    if p.kind == IntKind then Largest(present) else AverageOrNull(present)
  }

  /** What the method does to the column of one property. */
  function ColumnOutcome(col: seq<Option<real>>, p: Property): Result<seq<Option<real>>> {
    if !Eligible(p) || !HasNull(col) then Ok(col)
    else if p.kind != IntKind && p.kind != DoubleKind then Err(Argument)
    else
      var v := FillValue(Present(col), p);
      if v.None? then Err(InvalidCast) else Ok(FillNulls(col, v))
  }

  /** The rows after the properties before m, and the exception that stopped
      the method, if any. */
  datatype Step = Step(rows: seq<Record>, failure: Option<Error>)

  function ReplaceUpTo(rows: seq<Record>, schema: Schema, m: nat): (s: Step)
    requires Conforms(rows, |schema|) && m <= |schema|
    ensures |s.rows| == |rows| && Conforms(s.rows, |schema|)
  {
    if m == 0 then Step(rows, None)
    else
      var s := ReplaceUpTo(rows, schema, m - 1);
      if s.failure.Some? then s
      else
        match ColumnOutcome(Column(s.rows, m - 1), schema[m - 1])
        case Err(e) => Step(s.rows, Some(e))
        case Ok(col) => Step(SetColumn(s.rows, m - 1, col), None)
  }

  /** Replacing changes values only. */
  lemma {:induction false} ReplaceSame(rows: seq<Record>, schema: Schema, m: nat)
    requires Conforms(rows, |schema|) && m <= |schema|
    ensures SameButValues(rows, ReplaceUpTo(rows, schema, m).rows)
  {
    if m > 0 {
      ReplaceSame(rows, schema, m - 1);
    }
  }

  function Replaced(rows: seq<Record>, schema: Schema): Step
    requires Conforms(rows, |schema|)
  {
    ReplaceUpTo(rows, schema, |schema|)
  }

  // ---------------------------------------------------------------------
  // One column

  /** Present values are never overwritten. */
  lemma OutcomeKeepsPresent(col: seq<Option<real>>, p: Property)
    requires ColumnOutcome(col, p).Ok?
    ensures |ColumnOutcome(col, p).value| == |col|
    ensures forall i :: 0 <= i < |col| && col[i].Some? ==> ColumnOutcome(col, p).value[i] == col[i]
  {
  }

  /** A replaced int? or double? column with a present value has no null left,
      and each former null holds the maximum or the average of the present values. */
  lemma OutcomeFills(col: seq<Option<real>>, p: Property, i: nat)
    requires Eligible(p) && (p.kind == IntKind || p.kind == DoubleKind)
    requires i < |col| && col[i].None? && Present(col) != []
    ensures ColumnOutcome(col, p).Ok?
    ensures p.kind == IntKind ==> ColumnOutcome(col, p).value[i] == Some(SeqMax(Present(col)))
    ensures p.kind == DoubleKind ==> ColumnOutcome(col, p).value[i] == Some(Mean(Present(col)))
  {
  }

  /** An eligible int? or double? column that holds a null and no value
      fails with InvalidCastException and is not written. */
  lemma OutcomeAllNull(col: seq<Option<real>>, p: Property)
    requires Eligible(p) && (p.kind == IntKind || p.kind == DoubleKind)
    requires col != [] && Present(col) == []
    ensures ColumnOutcome(col, p) == Err(InvalidCast)
  {
    PresentEmpty(col);
    assert col[0].None?;
  }

  /** The column fails exactly when it is eligible and holds a null, and
      either is neither int? nor double? (ArgumentException) or holds no
      value at all (InvalidCastException). */
  lemma OutcomeFailure(col: seq<Option<real>>, p: Property)
    ensures ColumnOutcome(col, p).Err? <==>
      Eligible(p) && HasNull(col) &&
      (p.kind !in {IntKind, DoubleKind} || Present(col) == [])
    ensures ColumnOutcome(col, p).Err? && p.kind !in {IntKind, DoubleKind} ==>
      ColumnOutcome(col, p).error == Argument
    ensures ColumnOutcome(col, p).Err? && p.kind in {IntKind, DoubleKind} ==>
      ColumnOutcome(col, p).error == InvalidCast
  {
  }

  /** Replacing a replaced column changes nothing. */
  lemma {:induction false} OutcomeIdempotent(col: seq<Option<real>>, p: Property)
    requires ColumnOutcome(col, p).Ok?
    ensures ColumnOutcome(ColumnOutcome(col, p).value, p) == Ok(ColumnOutcome(col, p).value)
  {
    var r := ColumnOutcome(col, p).value;
    if Eligible(p) && HasNull(col) {
      var v := FillValue(Present(col), p);
      assert r == FillNulls(col, v);
      assert !HasNull(r);
    }
  }

  // ---------------------------------------------------------------------
  // The whole list

  /** One property more: another column is kept. */
  lemma ReplaceKeep(rows: seq<Record>, schema: Schema, m: nat, g: nat)
    requires Conforms(rows, |schema|) && 0 < m <= |schema| && g < |schema| && g != m - 1
    ensures Column(ReplaceUpTo(rows, schema, m).rows, g) == Column(ReplaceUpTo(rows, schema, m - 1).rows, g)
  {
    var s := ReplaceUpTo(rows, schema, m - 1);
    if s.failure.None? {
      var out := ColumnOutcome(Column(s.rows, m - 1), schema[m - 1]);
      if out.Ok? {
        ColumnOfSetColumn(s.rows, m - 1, out.value, g);
      }
    }
  }

  /** One property more: its column is replaced when nothing failed, and
      otherwise the rows stay as they were. */
  lemma ReplaceStep(rows: seq<Record>, schema: Schema, m: nat)
    requires Conforms(rows, |schema|) && 0 < m <= |schema|
    ensures var s := ReplaceUpTo(rows, schema, m - 1);
      var out := ColumnOutcome(Column(s.rows, m - 1), schema[m - 1]);
      if s.failure.None? && out.Ok? then Column(ReplaceUpTo(rows, schema, m).rows, m - 1) == out.value
      else ReplaceUpTo(rows, schema, m).rows == s.rows
  {
    var s := ReplaceUpTo(rows, schema, m - 1);
    if s.failure.None? {
      var out := ColumnOutcome(Column(s.rows, m - 1), schema[m - 1]);
      if out.Ok? {
        ColumnOfSetColumn(s.rows, m - 1, out.value, m - 1);
      }
    }
  }

  /** Columns from m on are untouched. */
  lemma {:induction false} ReplaceUntouched(rows: seq<Record>, schema: Schema, m: nat, g: nat)
    requires Conforms(rows, |schema|) && m <= g < |schema|
    ensures Column(ReplaceUpTo(rows, schema, m).rows, g) == Column(rows, g)
  {
    if m > 0 {
      ReplaceUntouched(rows, schema, m - 1, g);
      ReplaceKeep(rows, schema, m, g);
      assert Column(ReplaceUpTo(rows, schema, m).rows, g) == Column(rows, g);
    }
  }

  /** When the run has not failed, each column before m is replaced. */
  lemma {:induction false} ReplaceColumnwise(rows: seq<Record>, schema: Schema, m: nat, g: nat)
    requires Conforms(rows, |schema|) && g < m <= |schema|
    requires ReplaceUpTo(rows, schema, m).failure.None?
    ensures ColumnOutcome(Column(rows, g), schema[g]).Ok?
    ensures Column(ReplaceUpTo(rows, schema, m).rows, g) == ColumnOutcome(Column(rows, g), schema[g]).value
  {
    var s := ReplaceUpTo(rows, schema, m - 1);
    assert s.failure.None?;
    if g != m - 1 {
      ReplaceColumnwise(rows, schema, m - 1, g);
      ReplaceKeep(rows, schema, m, g);
      assert Column(ReplaceUpTo(rows, schema, m).rows, g) == Column(s.rows, g);
    } else {
      ReplaceUntouched(rows, schema, m - 1, g);
      assert Column(s.rows, g) == Column(rows, g);
      ReplaceStep(rows, schema, m);
    }
  }

  /** The column after is the one before or its replacement. */
  predicate Settled(before: seq<Option<real>>, after: seq<Option<real>>, p: Property) {
    after == before || ColumnOutcome(before, p) == Ok(after)
  }

  /** Even a failed run leaves each column untouched or fully replaced. */
  lemma {:induction false} ReplaceColumnSettled(rows: seq<Record>, schema: Schema, m: nat, g: nat)
    requires Conforms(rows, |schema|) && m <= |schema| && g < |schema|
    ensures Settled(Column(rows, g), Column(ReplaceUpTo(rows, schema, m).rows, g), schema[g])
  {
    if m > 0 {
      if g != m - 1 {
        ReplaceColumnSettled(rows, schema, m - 1, g);
        ReplaceKeep(rows, schema, m, g);
      } else {
        SettledLast(rows, schema, m);
      }
    }
  }

  /** The property handled last is untouched or fully replaced. */
  lemma SettledLast(rows: seq<Record>, schema: Schema, m: nat)
    requires Conforms(rows, |schema|) && 0 < m <= |schema|
    ensures Settled(Column(rows, m - 1), Column(ReplaceUpTo(rows, schema, m).rows, m - 1), schema[m - 1])
  {
    var s := ReplaceUpTo(rows, schema, m - 1);
    ReplaceUntouched(rows, schema, m - 1, m - 1);
    assert Column(s.rows, m - 1) == Column(rows, m - 1);
    ReplaceStep(rows, schema, m);
  }

  /** The run fails exactly when some property before m fails on its own
      column. */
  lemma {:induction false} ReplaceFailure(rows: seq<Record>, schema: Schema, m: nat)
    requires Conforms(rows, |schema|) && m <= |schema|
    ensures ReplaceUpTo(rows, schema, m).failure.Some? <==>
      exists g :: 0 <= g < m && ColumnOutcome(Column(rows, g), schema[g]).Err?
  {
    if m > 0 {
      ReplaceFailure(rows, schema, m - 1);
      var s := ReplaceUpTo(rows, schema, m - 1);
      if s.failure.None? {
        ReplaceUntouched(rows, schema, m - 1, m - 1);
      }
    }
  }

  /** A failed run throws the exception of the first property that fails on
      its own column. */
  lemma {:induction false} ReplaceFailureFirst(rows: seq<Record>, schema: Schema, m: nat)
    requires Conforms(rows, |schema|) && m <= |schema|
    requires ReplaceUpTo(rows, schema, m).failure.Some?
    ensures exists g :: (0 <= g < m && ColumnOutcome(Column(rows, g), schema[g]) == Err(ReplaceUpTo(rows, schema, m).failure.value) &&
      forall h :: 0 <= h < g ==> ColumnOutcome(Column(rows, h), schema[h]).Ok?)
  {
    var s := ReplaceUpTo(rows, schema, m - 1);
    if s.failure.Some? {
      ReplaceFailureFirst(rows, schema, m - 1);
    } else {
      ReplaceFailure(rows, schema, m - 1);
      ReplaceUntouched(rows, schema, m - 1, m - 1);
      assert ColumnOutcome(Column(rows, m - 1), schema[m - 1]) == Err(ReplaceUpTo(rows, schema, m).failure.value);
    }
  }

  /** Whatever happens, a value that was present is still there. */
  lemma ReplaceKeepsPresent(rows: seq<Record>, schema: Schema, i: nat, g: nat)
    requires Conforms(rows, |schema|) && i < |rows| && g < |schema|
    requires rows[i].values[g].Some?
    ensures Replaced(rows, schema).rows[i].values[g] == rows[i].values[g]
  {
    ReplaceColumnSettled(rows, schema, |schema|, g);
    var col := Column(rows, g);
    var after := Column(Replaced(rows, schema).rows, g);
    assert after[i] == Replaced(rows, schema).rows[i].values[g];
    if after != col {
      OutcomeKeepsPresent(col, schema[g]);
    }
  }

  /** After a run that did not fail, every null of an int? or double? column
      with a present value is gone: it holds the column's maximum or average. */
  lemma ReplaceFills(rows: seq<Record>, schema: Schema, i: nat, g: nat)
    requires Conforms(rows, |schema|) && i < |rows| && g < |schema|
    requires Replaced(rows, schema).failure.None?
    requires Eligible(schema[g]) && (schema[g].kind == IntKind || schema[g].kind == DoubleKind)
    requires rows[i].values[g].None? && Present(Column(rows, g)) != []
    ensures schema[g].kind == IntKind ==>
      Replaced(rows, schema).rows[i].values[g] == Some(SeqMax(Present(Column(rows, g))))
    ensures schema[g].kind == DoubleKind ==>
      Replaced(rows, schema).rows[i].values[g] == Some(Mean(Present(Column(rows, g))))
  {
    ReplaceColumnwise(rows, schema, |schema|, g);
    OutcomeFills(Column(rows, g), schema[g], i);
    assert Column(Replaced(rows, schema).rows, g)[i] == Replaced(rows, schema).rows[i].values[g];
  }

  /** A second run after a run that did not fail changes nothing. */
  lemma ReplaceIdempotent(rows: seq<Record>, schema: Schema)
    requires Conforms(rows, |schema|)
    requires Replaced(rows, schema).failure.None?
    ensures Replaced(Replaced(rows, schema).rows, schema) == Replaced(rows, schema)
  {
    var once := Replaced(rows, schema).rows;
    var twice := Replaced(once, schema);
    forall g | 0 <= g < |schema|
      ensures ColumnOutcome(Column(once, g), schema[g]) == Ok(Column(once, g))
    {
      ReplaceColumnwise(rows, schema, |schema|, g);
      OutcomeIdempotent(Column(rows, g), schema[g]);
    }
    ReplaceFailure(once, schema, |schema|);
    ReplaceSame(once, schema, |schema|);
    forall g | 0 <= g < |schema| ensures Column(twice.rows, g) == Column(once, g) {
      ReplaceColumnwise(once, schema, |schema|, g);
    }
    EqualByColumns(twice.rows, once, |schema|);
  }

  // ---------------------------------------------------------------------
  // The method

  /** One property of the loop: left alone, filled in place, or the
      exception for a nullable type other than int? and double?, or for a
      column with nulls and no value. */
  method ReplaceProperty(list: array<Record>, schema: Schema, f: nat) returns (failure: Option<Error>)
    requires Conforms(list[..], |schema|) && f < |schema|
    modifies list
    ensures match ColumnOutcome(Column(old(list[..]), f), schema[f])
      case Ok(col) => failure.None? && list[..] == SetColumn(old(list[..]), f, col)
      case Err(e) => failure == Some(e) && list[..] == old(list[..])
  {
    var p := schema[f];
    var col := Column(list[..], f);
    if !Eligible(p) || !HasNull(col) {
      SetColumnOwn(list[..], f);
      return None;
    }
    if p.kind != IntKind && p.kind != DoubleKind {
      return Some(Argument);
    }
    var v := if p.kind == IntKind then Largest(Present(col)) else AverageOrNull(Present(col));
    if v.None? {
      return Some(InvalidCast);
    }
    FillColumn(list, f, v);
    failure := None;
  }

  /** DatasetExtensions.ReplaceNullValues on a list of records; the result is
      the exception that escaped, if any. */
  method ReplaceNullValues(list: array<Record>, schema: Schema) returns (failure: Option<Error>)
    requires Conforms(list[..], |schema|)
    modifies list
    ensures list[..] == Replaced(old(list[..]), schema).rows
    ensures failure == Replaced(old(list[..]), schema).failure
  {
    ghost var rows := list[..];
    for f := 0 to |schema|
      invariant list[..] == ReplaceUpTo(rows, schema, f).rows
      invariant ReplaceUpTo(rows, schema, f).failure.None?
    {
      ghost var out := ColumnOutcome(Column(list[..], f), schema[f]);
      failure := ReplaceProperty(list, schema, f);
      assert ReplaceUpTo(rows, schema, f + 1) == Step(list[..], failure);
      if failure.Some? {
        FailureSticks(rows, schema, f + 1, |schema|);
        return;
      }
    }
    failure := None;
  }

  /** Once the run has failed, later properties change nothing. */
  lemma {:induction false} FailureSticks(rows: seq<Record>, schema: Schema, m: nat, m': nat)
    requires Conforms(rows, |schema|) && m <= m' <= |schema|
    requires ReplaceUpTo(rows, schema, m).failure.Some?
    ensures ReplaceUpTo(rows, schema, m') == ReplaceUpTo(rows, schema, m)
    decreases m' - m
  {
    if m < m' {
      FailureSticks(rows, schema, m, m' - 1);
      var s := ReplaceUpTo(rows, schema, m' - 1);
      assert s.failure.Some?;
      assert ReplaceUpTo(rows, schema, m') == s;
    }
  }
}
