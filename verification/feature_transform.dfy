/** The per-column feature normalisation helpers of `ModelEvaluation`
    (src/components/model_evaluation.py, lines 56-92): the binary gender
    encoding, the schema-driven identifier drop, and the renaming and integer
    casting of the one-hot vehicle columns. */
module FeatureTransform {
  import opened Wrappers
  import opened Frames

  const GenderColumn := "Gender"
  const AgeBelowOneRaw := "Vehicle_Age_< 1 Year"
  const AgeBelowOne := "Vehicle_Age_lt_1_Year"
  const AgeAboveTwoRaw := "Vehicle_Age_> 2 Years"
  const AgeAboveTwo := "Vehicle_Age_gt_2_Years"
  const DamageYes := "Vehicle_Damage_Yes"

  /** The five vehicle labels are pairwise different. */
  lemma LabelsDistinct()
    ensures AgeBelowOneRaw != AgeBelowOne && AgeBelowOneRaw != AgeAboveTwoRaw
    ensures AgeBelowOneRaw != AgeAboveTwo && AgeBelowOneRaw != DamageYes
    ensures AgeAboveTwoRaw != AgeBelowOne && AgeAboveTwoRaw != AgeAboveTwo
    ensures AgeAboveTwoRaw != DamageYes
    ensures AgeBelowOne != AgeAboveTwo && AgeBelowOne != DamageYes && AgeAboveTwo != DamageYes
  {
    assert AgeBelowOneRaw[12] == '<' && AgeAboveTwoRaw[12] == '>';
    assert AgeBelowOne[12] == 'l' && AgeAboveTwo[12] == 'g' && DamageYes[12] == 'g';
    assert AgeAboveTwo[8] == 'A' && DamageYes[8] == 'D';
  }

  /** The indicator columns cast to int, in the order they are visited. */
  const IndicatorColumns := [AgeBelowOne, AgeAboveTwo, DamageYes]

  // ---------------------------------------------------------------------
  // Gender
  // ---------------------------------------------------------------------

  /** `map({'Female': 0, 'Male': 1})` followed by `astype(int)` on one cell:
      any other value maps to NaN, which the integer cast rejects. */
  function GenderCode(c: Cell): Option<Cell> {
    if c == StrC("Female") then Some(IntC(0))
    else if c == StrC("Male") then Some(IntC(1))
    else None
  }

  predicate IsGenderLabel(c: Cell) {
    c == StrC("Female") || c == StrC("Male")
  }

  /** `map_gender_column`: replaces the `Gender` column, in place, by its
      0/1 encoding. Fails when the column is absent (KeyError) or when some
      cell is neither "Female" nor "Male" (the cast of NaN to int). */
  function MapGenderColumn(t: Table): (r: Result<Table, FrameError>)
    requires t.Valid()
    ensures GenderColumn !in t.data ==> r == Failure(MissingColumn(GenderColumn))
    ensures r.Success? <==>
      GenderColumn in t.data && forall k :: 0 <= k < t.rows ==> IsGenderLabel(t.data[GenderColumn][k])
    ensures GenderColumn in t.data && r.Failure? ==> r.error == NotCastable(GenderColumn)
    ensures r.Success? ==> r.value.Valid() && r.value.cols == t.cols && r.value.rows == t.rows
    ensures r.Success? ==> forall k :: 0 <= k < t.rows ==>
      r.value.data[GenderColumn][k] == (if t.data[GenderColumn][k] == StrC("Female") then IntC(0) else IntC(1))
    ensures r.Success? ==> forall d :: d in t.data && d != GenderColumn ==> r.value.data[d] == t.data[d]
  {
    if GenderColumn !in t.data then Failure(MissingColumn(GenderColumn))
    else ConvertColumn(t, GenderColumn, GenderCode)
  }

  /** The encoding is not idempotent: a column that already holds 0/1 no
      longer matches either label, so mapping a mapped frame fails. */
  lemma {:induction false} MapGenderRejectsMappedFrame(t: Table)
    requires t.Valid() && t.rows > 0
    requires MapGenderColumn(t).Success?
    ensures MapGenderColumn(MapGenderColumn(t).value) == Failure(NotCastable(GenderColumn))
  {
    var u := MapGenderColumn(t).value;
    assert !IsGenderLabel(u.data[GenderColumn][0]);
  }

  // ---------------------------------------------------------------------
  // Identifier column
  // ---------------------------------------------------------------------

  /** `drop_id_column`: drops the schema's `drop_columns` label when the
      frame has it, cutting it out at its position so that the other columns
      keep their order, and otherwise returns the frame unchanged. */
  function DropIdColumn(t: Table, dropCol: string): (r: Table)
    requires t.Valid()
    ensures r.Valid() && r.rows == t.rows
    ensures dropCol !in r.data
    ensures dropCol !in t.data ==> r == t
    ensures r.cols == Remove(t.cols, dropCol)
    ensures dropCol in t.data ==> r.cols == t.cols[..IndexOf(t.cols, dropCol)] + t.cols[IndexOf(t.cols, dropCol) + 1..]
    ensures dropCol in t.data ==> |r.cols| == |t.cols| - 1
    ensures forall d :: d in t.data && d != dropCol ==> d in r.data && r.data[d] == t.data[d]
    ensures forall d :: d in r.data ==> d in t.data
  {
    if dropCol in t.data then
      RemoveAt(t.cols, dropCol);
      DropColumn(t, dropCol)
    else t
  }

  // ---------------------------------------------------------------------
  // Renaming and integer casts of the one-hot columns
  // ---------------------------------------------------------------------

  /** `astype('int')` on one cell: booleans become 0/1, integers stay,
      reals truncate toward zero; NaN and strings cannot be cast. */
  function CastToInt(c: Cell): (r: Option<Cell>)
    ensures r.Some? ==> r.value.IntC?
    ensures r.Some? <==> !(c.StrC? || c.Missing?)
    ensures c.IntC? ==> r == Some(c)
    ensures c.BoolC? ==> r == Some(IntC(if c.b then 1 else 0))
    ensures c.RealC? ==> r == Some(IntC(Truncate(c.x)))
  {
    match c
    case IntC(i) => Some(IntC(i))
    case BoolC(b) => Some(IntC(if b then 1 else 0))
    case RealC(x) => Some(IntC(Truncate(x)))
    case StrC(_) => None
    case Missing => None
  }

  /** Truncation toward zero, the C cast numpy applies to floats. */
  function Truncate(x: real): (n: int)
    ensures 0.0 <= x ==> n as real <= x < n as real + 1.0
    ensures x < 0.0 ==> n as real - 1.0 < x <= n as real
  {
    if x >= 0.0 then x.Floor else -((-x).Floor)
  }

  /** The label `_rename_columns` gives a column. */
  function CanonicalName(c: string): string {
    if c == AgeBelowOneRaw then AgeBelowOne
    else if c == AgeAboveTwoRaw then AgeAboveTwo
    else c
  }

  /** Every cell of the column can be cast to int. */
  predicate Castable(cells: seq<Cell>) {
    forall k :: 0 <= k < |cells| ==> CastToInt(cells[k]).Some?
  }

  /** A castable column after `astype('int')`. */
  function CastCells(cells: seq<Cell>): (v: seq<Cell>)
    requires Castable(cells)
    ensures |v| == |cells|
    ensures forall k :: 0 <= k < |cells| ==> v[k] == CastToInt(cells[k]).value
  {
    seq(|cells|, k requires 0 <= k < |cells| => CastToInt(cells[k]).value)
  }

  /** Casts each listed column that the frame has, in list order; the first
      column holding an uncastable cell makes the whole step fail. */
  function CastPresent(t: Table, cols: seq<string>): (r: Result<Table, FrameError>)
    requires t.Valid() && Distinct(cols)
    ensures r.Success? <==> forall c :: c in cols && c in t.data ==> Castable(t.data[c])
    ensures r.Failure? ==> r.error.NotCastable?
    ensures r.Success? ==> r.value.Valid() && r.value.cols == t.cols && r.value.rows == t.rows
    ensures r.Success? ==> forall d :: d in t.data && d !in cols ==> r.value.data[d] == t.data[d]
    ensures r.Success? ==> forall c :: c in cols && c in t.data ==> r.value.data[c] == CastCells(t.data[c])
    decreases |cols|
  {
    if cols == [] then Success(t)
    else
      var t' :- if cols[0] in t.data then ConvertColumn(t, cols[0], CastToInt) else Success(t);
      assert cols[0] !in cols[1..];
      assert cols[0] in t.data ==> t'.data[cols[0]] == CastCells(t.data[cols[0]]);
      CastPresent(t', cols[1..])
  }

  /** The indicator list names three different columns. */
  lemma IndicatorColumnsDistinct()
    ensures Distinct(IndicatorColumns)
  {
    LabelsDistinct();
  }

  /** Neither vehicle-age rename would land on a label the frame already
      uses. */
  predicate RenamesFree(t: Table) {
    && !(AgeBelowOneRaw in t.data && AgeBelowOne in t.data)
    && !(AgeAboveTwoRaw in t.data && AgeAboveTwo in t.data)
  }

  /** The `df.rename(columns={...})` of `_rename_columns`: each column moves,
      in place and with its cells, to its canonical label, and no other label
      appears. */
  function RenameVehicleAge(t: Table): (r: Table)
    requires t.Valid() && RenamesFree(t)
    ensures r.Valid() && r.rows == t.rows
    ensures |r.cols| == |t.cols|
    ensures forall k :: 0 <= k < |t.cols| ==> r.cols[k] == CanonicalName(t.cols[k])
    ensures forall c :: c in t.data ==> CanonicalName(c) in r.data && r.data[CanonicalName(c)] == t.data[c]
    ensures forall d :: d in r.data ==> exists c :: c in t.data && CanonicalName(c) == d
  {
    LabelsDistinct();
    var t1 := RenameColumn(t, AgeBelowOneRaw, AgeBelowOne);
    var t2 := RenameColumn(t1, AgeAboveTwoRaw, AgeAboveTwo);
    RenamedLabels(t, t1, t2);
    RenamedCells(t, t1, t2);
    RenamedOrigins(t, t1, t2);
    t2
  }

  /** `_rename_columns`: renames the two vehicle-age indicators to their
      canonical labels, then casts the three indicator columns that are
      present to int. A rename onto a label the frame already has would give
      pandas two columns under one label; the model reports it as
      `DuplicateLabel` instead. No column is added, none is dropped, and
      every column keeps its position. */
  function RenameDummyColumns(t: Table): (r: Result<Table, FrameError>)
    requires t.Valid()
    ensures !RenamesFree(t) ==> r.Failure? && r.error.DuplicateLabel?
    ensures r.Failure? ==> r.error.DuplicateLabel? || r.error.NotCastable?
    ensures r.Success? ==> r.value.Valid() && r.value.rows == t.rows
    ensures r.Success? ==> |r.value.cols| == |t.cols|
    ensures r.Success? ==> forall k :: 0 <= k < |t.cols| ==> r.value.cols[k] == CanonicalName(t.cols[k])
  {
    if AgeBelowOneRaw in t.data && AgeBelowOne in t.data then Failure(DuplicateLabel(AgeBelowOne))
    else if AgeAboveTwoRaw in t.data && AgeAboveTwo in t.data then Failure(DuplicateLabel(AgeAboveTwo))
    else
      IndicatorColumnsDistinct();
      CastPresent(RenameVehicleAge(t), IndicatorColumns)
  }

  /** The two renames keep the frame well formed and relabel each column in
      place. */
  lemma RenamedLabels(t: Table, t1: Table, t2: Table)
    requires t.Valid() && RenamesFree(t)
    requires t1 == RenameColumn(t, AgeBelowOneRaw, AgeBelowOne)
    requires t2 == RenameColumn(t1, AgeAboveTwoRaw, AgeAboveTwo)
    ensures t2.Valid() && t2.rows == t.rows
    ensures |t2.cols| == |t.cols|
    ensures forall k :: 0 <= k < |t.cols| ==> t2.cols[k] == CanonicalName(t.cols[k])
  {
    LabelsDistinct();
  }

  /** Each column's cells move to its canonical label. */
  lemma RenamedCells(t: Table, t1: Table, t2: Table)
    requires t.Valid() && RenamesFree(t)
    requires t1 == RenameColumn(t, AgeBelowOneRaw, AgeBelowOne)
    requires t2 == RenameColumn(t1, AgeAboveTwoRaw, AgeAboveTwo)
    ensures forall c :: c in t.data ==> CanonicalName(c) in t2.data && t2.data[CanonicalName(c)] == t.data[c]
  {
    LabelsDistinct();
    forall c | c in t.data
      ensures CanonicalName(c) in t2.data && t2.data[CanonicalName(c)] == t.data[c]
    {
      if c == AgeBelowOneRaw {
        assert t1.data[AgeBelowOne] == t.data[c];
      } else {
        assert t1.data[c] == t.data[c];
      }
    }
  }

  /** Every label after the renames is the canonical label of an input
      column. */
  lemma RenamedOrigins(t: Table, t1: Table, t2: Table)
    requires t.Valid() && RenamesFree(t)
    requires t1 == RenameColumn(t, AgeBelowOneRaw, AgeBelowOne)
    requires t2 == RenameColumn(t1, AgeAboveTwoRaw, AgeAboveTwo)
    ensures forall d :: d in t2.data ==> exists c :: c in t.data && CanonicalName(c) == d
  {
    LabelsDistinct();
    forall d | d in t2.data ensures exists c :: c in t.data && CanonicalName(c) == d {
      if d == AgeAboveTwo && AgeAboveTwoRaw in t1.data {
        assert CanonicalName(AgeAboveTwoRaw) == d;
      } else if d == AgeBelowOne && AgeBelowOneRaw in t.data {
        assert CanonicalName(AgeBelowOneRaw) == d;
      } else {
        assert d in t.data && CanonicalName(d) == d;
      }
    }
  }

  /** `_rename_columns` succeeds exactly when neither rename clashes and
      every column that ends up under an indicator label holds castable
      cells. */
  lemma RenameDummyColumnsSucceeds(t: Table)
    requires t.Valid()
    ensures RenameDummyColumns(t).Success? <==>
      && RenamesFree(t)
      && forall c :: c in t.data && CanonicalName(c) in IndicatorColumns ==> Castable(t.data[c])
  {
    if RenamesFree(t) {
      IndicatorColumnsDistinct();
      var t2 := RenameVehicleAge(t);
      var r := CastPresent(t2, IndicatorColumns);
      assert r == RenameDummyColumns(t);
      if forall c :: c in t.data && CanonicalName(c) in IndicatorColumns ==> Castable(t.data[c]) {
        forall d | d in IndicatorColumns && d in t2.data ensures Castable(t2.data[d]) {
          var c :| c in t.data && CanonicalName(c) == d;
          assert t2.data[d] == t.data[c];
        }
      }
      if r.Success? {
        forall c | c in t.data && CanonicalName(c) in IndicatorColumns ensures Castable(t.data[c]) {
          assert t2.data[CanonicalName(c)] == t.data[c];
        }
      }
    }
  }

  /** On success each input column reappears under its canonical label, cast
      to int when that label is an indicator and untouched otherwise. */
  lemma RenameDummyColumnsCells(t: Table)
    requires t.Valid()
    requires RenameDummyColumns(t).Success?
    ensures forall c :: c in t.data ==>
      && CanonicalName(c) in RenameDummyColumns(t).value.data
      && RenameDummyColumns(t).value.data[CanonicalName(c)] ==
           (if CanonicalName(c) in IndicatorColumns then CastCells(t.data[c]) else t.data[c])
  {
    IndicatorColumnsDistinct();
    var t2 := RenameVehicleAge(t);
    assert CastPresent(t2, IndicatorColumns) == RenameDummyColumns(t);
  }

  /** On success no label appears that is not the canonical label of an input
      column: nothing is added. */
  lemma RenameDummyColumnsAddsNothing(t: Table)
    requires t.Valid()
    requires RenameDummyColumns(t).Success?
    ensures forall d :: d in RenameDummyColumns(t).value.data ==> exists c :: c in t.data && CanonicalName(c) == d
  {
    IndicatorColumnsDistinct();
    var t2 := RenameVehicleAge(t);
    assert CastPresent(t2, IndicatorColumns) == RenameDummyColumns(t);
  }

  /** Already-canonical frames are left alone: renaming and casting the
      output of a successful `_rename_columns` gives it back unchanged. */
  lemma {:induction false} RenameDummyColumnsIdempotent(t: Table)
    requires t.Valid()
    requires RenameDummyColumns(t).Success?
    ensures RenameDummyColumns(RenameDummyColumns(t).value) == RenameDummyColumns(t)
  {
    var u := RenameDummyColumns(t).value;
    RawLabelsGone(t);
    IndicatorsHoldIntegers(t);
    IndicatorColumnsDistinct();
    CastIntegersIsIdentity(u, IndicatorColumns);
    assert RenameVehicleAge(u) == u by {
      assert RenameColumn(u, AgeBelowOneRaw, AgeBelowOne) == u;
      assert RenameColumn(u, AgeAboveTwoRaw, AgeAboveTwo) == u;
    }
  }

  /** After a successful `_rename_columns` neither raw vehicle-age label is
      left. */
  lemma RawLabelsGone(t: Table)
    requires t.Valid()
    requires RenameDummyColumns(t).Success?
    ensures RenamesFree(RenameDummyColumns(t).value)
    ensures AgeBelowOneRaw !in RenameDummyColumns(t).value.data
    ensures AgeAboveTwoRaw !in RenameDummyColumns(t).value.data
  {
    var u := RenameDummyColumns(t).value;
    LabelsDistinct();
  }

  /** After a successful `_rename_columns` every indicator column holds
      integers. */
  lemma IndicatorsHoldIntegers(t: Table)
    requires t.Valid()
    requires RenameDummyColumns(t).Success?
    ensures forall d :: d in IndicatorColumns && d in RenameDummyColumns(t).value.data ==>
      forall k :: 0 <= k < t.rows ==> RenameDummyColumns(t).value.data[d][k].IntC?
  {
    var u := RenameDummyColumns(t).value;
    RenameDummyColumnsSucceeds(t);
    RenameDummyColumnsCells(t);
    RenameDummyColumnsAddsNothing(t);
    forall d | d in IndicatorColumns && d in u.data
      ensures forall k :: 0 <= k < t.rows ==> u.data[d][k].IntC?
    {
      var c :| c in t.data && CanonicalName(c) == d;
      var v := t.data[c];
      assert Castable(v);
      assert u.data[d] == CastCells(v);
      forall k | 0 <= k < t.rows ensures u.data[d][k].IntC? {
        assert CastToInt(v[k]).Some?;
      }
    }
  }

  /** Casting columns that already hold integers changes nothing. */
  lemma {:induction false} CastIntegersIsIdentity(t: Table, cols: seq<string>)
    requires t.Valid() && Distinct(cols)
    requires forall c :: c in cols && c in t.data ==> forall k :: 0 <= k < t.rows ==> t.data[c][k].IntC?
    ensures CastPresent(t, cols) == Success(t)
    decreases |cols|
  {
    if cols != [] {
      if cols[0] in t.data {
        var v := t.data[cols[0]];
        assert Castable(v);
        var m := MapCells(v, CastToInt);
        assert m.Some? && |m.value| == |v|;
        assert forall k :: 0 <= k < |v| ==> m.value[k] == v[k];
        assert m.value == v;
        assert t.data[cols[0] := v] == t.data;
      }
      assert cols[0] !in cols[1..];
      CastIntegersIsIdentity(t, cols[1..]);
    }
  }
}
