/** The model wrapper of src/entity/estimator.py: the target-label mapping
    and its reverse, and `MyModel.predict`, which aligns the incoming frame
    to the columns the fitted preprocessor was trained on before scaling and
    classifying it. The preprocessor's `transform` and the classifier's
    `predict` are library code and enter as function parameters. */
module Estimator {
  import opened Wrappers
  import opened Frames

  // ---------------------------------------------------------------------
  // Target value mapping
  // ---------------------------------------------------------------------

  /** The attributes of `TargetValueMapping` in declaration order, as
      `_asdict` lists them. */
  const TargetValueFields: seq<(string, int)> := [("yes", 0), ("no", 1)]

  /** The attribute names, as a set. */
  function Names<K, V>(fields: seq<(K, V)>): set<K> {
    set i | 0 <= i < |fields| :: fields[i].0
  }

  /** The attribute values, as a set. */
  function Values<K, V>(fields: seq<(K, V)>): set<V> {
    set i | 0 <= i < |fields| :: fields[i].1
  }

  /** `dict(zip(values, keys))`: each value maps back to its name; when two
      names share a value the later one wins, as in a Python dict. */
  function ReverseMapping<K, V>(fields: seq<(K, V)>): (r: map<V, K>)
    ensures r.Keys == Values(fields)
    decreases |fields|
  {
    if fields == [] then map[]
    else
      var init := fields[..|fields| - 1];
      var last := fields[|fields| - 1];
      var r := ReverseMapping(init)[last.1 := last.0];
      assert Values(fields) == Values(init) + {last.1} by {
        forall v | v in Values(fields)
          ensures v in Values(init) + {last.1}
        {
          var i :| 0 <= i < |fields| && fields[i].1 == v;
          if i < |init| {
            assert init[i] == fields[i];
          }
        }
        forall v | v in Values(init)
          ensures v in Values(fields)
        {
          var i :| 0 <= i < |init| && init[i].1 == v;
          assert fields[i] == init[i];
        }
      }
      r
  }

  /** The forward mapping the attributes define: name to encoded value. */
  function ForwardMapping<K, V>(fields: seq<(K, V)>): (r: map<K, V>)
    ensures r.Keys == Names(fields)
    decreases |fields|
  {
    if fields == [] then map[]
    else
      var init := fields[..|fields| - 1];
      var last := fields[|fields| - 1];
      var r := ForwardMapping(init)[last.0 := last.1];
      assert Names(fields) == Names(init) + {last.0} by {
        forall n | n in Names(fields)
          ensures n in Names(init) + {last.0}
        {
          var i :| 0 <= i < |fields| && fields[i].0 == n;
          if i < |init| {
            assert init[i] == fields[i];
          }
        }
        forall n | n in Names(init)
          ensures n in Names(fields)
        {
          var i :| 0 <= i < |init| && init[i].0 == n;
          assert fields[i] == init[i];
        }
      }
      r
  }

  /** No two attributes share a value. */
  predicate ValuesDistinct<K, V(==)>(fields: seq<(K, V)>) {
    forall i, j :: 0 <= i < j < |fields| ==> fields[i].1 != fields[j].1
  }

  /** No two attributes share a name (always true of an object's fields). */
  predicate NamesDistinct<K(==), V>(fields: seq<(K, V)>) {
    forall i, j :: 0 <= i < j < |fields| ==> fields[i].0 != fields[j].0
  }

  /** With distinct values, the reverse mapping sends every value back to the
      name that declared it. */
  lemma {:induction false} ReverseMappingAt<K, V>(fields: seq<(K, V)>, i: nat)
    requires ValuesDistinct(fields) && i < |fields|
    ensures fields[i].1 in ReverseMapping(fields)
    ensures ReverseMapping(fields)[fields[i].1] == fields[i].0
    decreases |fields|
  {
    var init := fields[..|fields| - 1];
    if i < |init| {
      assert fields[i] == init[i];
      assert ValuesDistinct(init);
      ReverseMappingAt(init, i);
    }
  }

  /** With distinct names, the forward mapping sends every name to the value
      it declares. */
  lemma {:induction false} ForwardMappingAt<K, V>(fields: seq<(K, V)>, i: nat)
    requires NamesDistinct(fields) && i < |fields|
    ensures fields[i].0 in ForwardMapping(fields)
    ensures ForwardMapping(fields)[fields[i].0] == fields[i].1
    decreases |fields|
  {
    var init := fields[..|fields| - 1];
    if i < |init| {
      assert fields[i] == init[i];
      assert NamesDistinct(init);
      ForwardMappingAt(init, i);
    }
  }

  /** With distinct names and values, reverse and forward mappings undo each
      other in both directions. */
  lemma MappingRoundTrip<K, V>(fields: seq<(K, V)>)
    requires NamesDistinct(fields) && ValuesDistinct(fields)
    ensures forall n :: n in ForwardMapping(fields) ==>
      ForwardMapping(fields)[n] in ReverseMapping(fields) && ReverseMapping(fields)[ForwardMapping(fields)[n]] == n
    ensures forall v :: v in ReverseMapping(fields) ==>
      ReverseMapping(fields)[v] in ForwardMapping(fields) && ForwardMapping(fields)[ReverseMapping(fields)[v]] == v
  {
    forall n | n in ForwardMapping(fields)
      ensures ForwardMapping(fields)[n] in ReverseMapping(fields) && ReverseMapping(fields)[ForwardMapping(fields)[n]] == n
    {
      assert n in Names(fields);
      var i :| 0 <= i < |fields| && fields[i].0 == n;
      ForwardMappingAt(fields, i);
      ReverseMappingAt(fields, i);
    }
    forall v | v in ReverseMapping(fields)
      ensures ReverseMapping(fields)[v] in ForwardMapping(fields) && ForwardMapping(fields)[ReverseMapping(fields)[v]] == v
    {
      assert v in Values(fields);
      var i :| 0 <= i < |fields| && fields[i].1 == v;
      ForwardMappingAt(fields, i);
      ReverseMappingAt(fields, i);
    }
  }

  /** `TargetValueMapping().reverse_mapping()` is `{0: "yes", 1: "no"}`, the
      inverse of the forward encoding `yes: 0, no: 1`. */
  lemma TargetReverseMapping()
    ensures ReverseMapping(TargetValueFields) == map[0 := "yes", 1 := "no"]
    ensures ForwardMapping(TargetValueFields) == map["yes" := 0, "no" := 1]
  {
    var first := TargetValueFields[..1];
    assert first == [("yes", 0)];
    assert first[..0] == [];
  }

  // ---------------------------------------------------------------------
  // Column alignment
  // ---------------------------------------------------------------------

  /** `[c for c in expected_cols if c not in dataframe.columns]`. */
  function MissingColumns(t: Table, expected: seq<string>): (m: seq<string>)
    ensures forall c :: c in m <==> c in expected && c !in t.data
    ensures Distinct(expected) ==> Distinct(m)
  {
    if expected == [] then []
    else if expected[0] in t.data then MissingColumns(t, expected[1..])
    else [expected[0]] + MissingColumns(t, expected[1..])
  }

  /** `for col in missing_cols: dataframe[col] = 0`: each absent column is
      appended, in order, filled with zeros. */
  function AddZeroColumns(t: Table, cols: seq<string>): (r: Table)
    requires t.Valid() && Distinct(cols)
    requires forall c :: c in cols ==> c !in t.data
    ensures r.Valid() && r.rows == t.rows
    ensures r.cols == t.cols + cols
    ensures forall c :: c in t.data ==> c in r.data && r.data[c] == t.data[c]
    ensures forall c :: c in cols ==> c in r.data && r.data[c] == Zeros(t.rows)
    ensures forall c :: c in r.data ==> c in t.data || c in cols
    decreases |cols|
  {
    if cols == [] then t
    else
      var t' := SetColumn(t, cols[0], Zeros(t.rows));
      assert cols == [cols[0]] + cols[1..];
      assert cols[0] !in cols[1..];
      assert t.cols + cols == t'.cols + cols[1..];
      AddZeroColumns(t', cols[1..])
  }

  /** `dataframe[expected_cols]`: exactly the named columns, in the named
      order. Every name must be present (pandas raises a KeyError
      otherwise, which alignment never lets happen). */
  function SelectColumns(t: Table, names: seq<string>): (r: Table)
    requires t.Valid() && Distinct(names)
    requires forall c :: c in names ==> c in t.data
    ensures r.Valid() && r.rows == t.rows && r.cols == names
    ensures forall c :: c in names ==> r.data[c] == t.data[c]
  {
    Table(names, map c | c in names :: t.data[c], t.rows)
  }

  /** The alignment block of `MyModel.predict`: afterwards the frame has
      exactly the expected columns in the expected order; columns it already
      had keep their cells, the ones it lacked are all zeros, and every
      other column is gone. */
  function Align(t: Table, expected: seq<string>): (r: Table)
    requires t.Valid() && Distinct(expected)
    ensures r.Valid() && r.rows == t.rows
    ensures r.cols == expected
    ensures forall c :: c in expected && c in t.data ==> r.data[c] == t.data[c]
    ensures forall c :: c in expected && c !in t.data ==> r.data[c] == Zeros(t.rows)
    ensures forall c :: c in t.data && c !in expected ==> c !in r.data
  {
    var missing := MissingColumns(t, expected);
    SelectColumns(AddZeroColumns(t, missing), expected)
  }

  /** A frame whose columns are already the expected ones, in order, is
      returned unchanged. */
  lemma AlignAlignedIsIdentity(t: Table, expected: seq<string>)
    requires t.Valid() && Distinct(expected)
    requires t.cols == expected
    ensures Align(t, expected) == t
  {
    var r := Align(t, expected);
    assert r.data.Keys == t.data.Keys;
  }

  /** Any well-formed frame with the expected columns in order, holding the
      input's cells where it had the column and zeros elsewhere, is the
      aligned frame. */
  lemma AlignUnique(t: Table, expected: seq<string>, r: Table)
    requires t.Valid() && Distinct(expected)
    requires r.Valid() && r.rows == t.rows && r.cols == expected
    requires forall c :: c in r.data ==> r.data[c] == if c in t.data then t.data[c] else Zeros(t.rows)
    ensures r == Align(t, expected)
  {
    var a := Align(t, expected);
    SameKeys(r, a);
    SameCells(t, expected, r, a);
    SameTable(r, a);
  }

  lemma SameKeys(r: Table, a: Table)
    requires r.Valid() && a.Valid() && r.cols == a.cols
    ensures r.data.Keys == a.data.Keys
  {
    forall c ensures c in r.data <==> c in a.data {
      assert c in r.data <==> c in r.cols;
    }
  }

  lemma SameCells(t: Table, expected: seq<string>, r: Table, a: Table)
    requires t.Valid() && Distinct(expected) && a == Align(t, expected)
    requires r.data.Keys == a.data.Keys
    requires forall c :: c in r.data ==> r.data[c] == if c in t.data then t.data[c] else Zeros(t.rows)
    ensures forall c :: c in r.data ==> r.data[c] == a.data[c]
  {
    forall c | c in r.data ensures r.data[c] == a.data[c] {
      assert c in expected;
    }
  }

  lemma SameTable(r: Table, a: Table)
    requires r.cols == a.cols && r.rows == a.rows && r.data.Keys == a.data.Keys
    requires forall c :: c in r.data ==> r.data[c] == a.data[c]
    ensures r == a
  {
    assert r.data == a.data;
  }

  /** Alignment is idempotent. */
  lemma AlignIdempotent(t: Table, expected: seq<string>)
    requires t.Valid() && Distinct(expected)
    ensures Align(Align(t, expected), expected) == Align(t, expected)
  {
    AlignAlignedIsIdentity(Align(t, expected), expected);
  }

  /** The aligned frame depends only on the expected columns of the input:
      extra columns and the input's column order make no difference. */
  lemma AlignDependsOnlyOnExpected(t1: Table, t2: Table, expected: seq<string>)
    requires t1.Valid() && t2.Valid() && Distinct(expected)
    requires t1.rows == t2.rows
    requires forall c :: c in expected ==> (c in t1.data <==> c in t2.data)
    requires forall c :: c in expected && c in t1.data ==> t1.data[c] == t2.data[c]
    ensures Align(t1, expected) == Align(t2, expected)
  {
    var a1 := Align(t1, expected);
    var a2 := Align(t2, expected);
    SameKeys(a1, a2);
    forall c | c in a1.data ensures a1.data[c] == a2.data[c] {
      assert c in expected;
    }
    SameTable(a1, a2);
  }

  /** The same alignment written as the source's loops: collect the missing
      columns, append each as zeros, then rebuild the frame column by column
      in the expected order. */
  method AlignColumns(t: Table, expected: seq<string>) returns (r: Table)
    requires t.Valid() && Distinct(expected)
    ensures r.Valid() && r.rows == t.rows && r.cols == expected
    ensures forall c :: c in expected ==> r.data[c] == if c in t.data then t.data[c] else Zeros(t.rows)
    ensures r == Align(t, expected)
  {
    var missing := CollectMissing(t, expected);
    var frame := AppendZeros(t, missing);
    r := Reindex(frame, expected);
    AlignUnique(t, expected, r);
  }

  /** The list comprehension over `expected_cols`, as a loop. */
  method CollectMissing(t: Table, expected: seq<string>) returns (missing: seq<string>)
    requires Distinct(expected)
    ensures forall c :: c in missing <==> c in expected && c !in t.data
    ensures Distinct(missing)
  {
    missing := [];
    for i := 0 to |expected|
      invariant forall c :: c in missing <==> c in expected[..i] && c !in t.data
      invariant Distinct(missing)
    {
      if expected[i] !in t.data {
        assert expected[i] !in expected[..i];
        missing := missing + [expected[i]];
      }
      assert expected[..i + 1] == expected[..i] + [expected[i]];
    }
    assert expected[..|expected|] == expected;
  }

  /** `for col in missing_cols: dataframe[col] = 0`, as a loop. */
  method AppendZeros(t: Table, missing: seq<string>) returns (frame: Table)
    requires t.Valid() && Distinct(missing)
    requires forall c :: c in missing ==> c !in t.data
    ensures frame.Valid() && frame.rows == t.rows
    ensures forall c :: c in t.data ==> c in frame.data && frame.data[c] == t.data[c]
    ensures forall c :: c in missing ==> c in frame.data && frame.data[c] == Zeros(t.rows)
    ensures forall c :: c in frame.data ==> c in t.data || c in missing
  {
    frame := t;
    for j := 0 to |missing|
      invariant frame.Valid() && frame.rows == t.rows
      invariant forall c :: c in t.data ==> c in frame.data && frame.data[c] == t.data[c]
      invariant forall c :: c in missing[..j] ==> c in frame.data && frame.data[c] == Zeros(t.rows)
      invariant forall c :: c in frame.data ==> c in t.data || c in missing[..j]
    {
      assert missing[j] !in missing[..j];
      frame := SetColumn(frame, missing[j], Zeros(t.rows));
      assert missing[..j + 1] == missing[..j] + [missing[j]];
    }
    assert missing[..|missing|] == missing;
  }

  /** `dataframe[expected_cols]`, as a loop over the expected labels. */
  method Reindex(frame: Table, expected: seq<string>) returns (r: Table)
    requires frame.Valid() && Distinct(expected)
    requires forall c :: c in expected ==> c in frame.data
    ensures r.Valid() && r.rows == frame.rows && r.cols == expected
    ensures forall c :: c in r.data ==> c in expected && r.data[c] == frame.data[c]
  {
    var data: map<string, seq<Cell>> := map[];
    for k := 0 to |expected|
      invariant forall c :: c in data <==> c in expected[..k]
      invariant forall c :: c in data ==> c in frame.data && data[c] == frame.data[c]
    {
      data := data[expected[k] := frame.data[expected[k]]];
      assert expected[..k + 1] == expected[..k] + [expected[k]];
    }
    assert expected[..|expected|] == expected;
    r := Table(expected, data, frame.rows);
  }

  // ---------------------------------------------------------------------
  // Prediction
  // ---------------------------------------------------------------------

  /** A fitted preprocessing step; `featureNamesIn` is `None` when it has no
      `feature_names_in_` attribute. */
  datatype Step = Step(featureNamesIn: Option<seq<string>>)

  /** The preprocessing object: an sklearn `Pipeline` (looked up by its
      "preprocessor" step) or a bare fitted transformer. */
  datatype Preprocessing = PipelineObject(namedSteps: map<string, Step>) | BareStep(step: Step)

  /** `MyModel`: the preprocessing object and an opaque trained classifier. */
  datatype MyModel<M> = MyModel(preprocessing: Preprocessing, trained: M)

  /** The step whose feature names drive alignment, if any. */
  function FittedPreprocessor(p: Preprocessing): (s: Option<Step>)
    ensures p.BareStep? ==> s == Some(p.step)
    ensures p.PipelineObject? ==> (s.Some? <==> "preprocessor" in p.namedSteps)
    ensures p.PipelineObject? && s.Some? ==> s.value == p.namedSteps["preprocessor"]
  {
    match p
    case PipelineObject(steps) => if "preprocessor" in steps then Some(steps["preprocessor"]) else None
    case BareStep(s) => Some(s)
  }

  /** The expected column order, when there is a step that records one. */
  function ExpectedColumns(p: Preprocessing): Option<seq<string>> {
    match FittedPreprocessor(p)
    case None => None
    case Some(s) => s.featureNamesIn
  }

  /** Feature names recorded by a fit are distinct. */
  predicate WellFormed(p: Preprocessing) {
    ExpectedColumns(p).Some? ==> Distinct(ExpectedColumns(p).value)
  }

  /** The frame `predict` hands to `transform`: aligned when the fitted step
      records its feature names, and the input itself otherwise. */
  function FrameForTransform(p: Preprocessing, t: Table): (r: Table)
    requires t.Valid() && WellFormed(p)
    ensures r.Valid() && r.rows == t.rows
    ensures ExpectedColumns(p).None? ==> r == t
    ensures ExpectedColumns(p).Some? ==> r.cols == ExpectedColumns(p).value
    ensures ExpectedColumns(p).Some? ==> forall c :: c in r.data ==>
      r.data[c] == if c in t.data then t.data[c] else Zeros(t.rows)
  {
    match ExpectedColumns(p)
    case None => t
    case Some(names) => Align(t, names)
  }

  datatype PredictError = TransformFailed | ClassifierFailed

  /** `MyModel.predict`: align, then `transform`, then the classifier's
      `predict`, whose output is the prediction; a failure of either library
      call aborts the prediction, while alignment itself cannot fail on a
      well-formed frame. */
  function Predict<M, X, Y>(m: MyModel<M>, t: Table,
                            transform: (Preprocessing, Table) -> Option<X>,
                            classify: (M, X) -> Option<Y>): (r: Result<Y, PredictError>)
    requires t.Valid() && WellFormed(m.preprocessing)
    ensures r.Success? <==>
      transform(m.preprocessing, FrameForTransform(m.preprocessing, t)).Some? &&
      classify(m.trained, transform(m.preprocessing, FrameForTransform(m.preprocessing, t)).value).Some?
    ensures transform(m.preprocessing, FrameForTransform(m.preprocessing, t)).None? ==> r == Failure(TransformFailed)
    ensures transform(m.preprocessing, FrameForTransform(m.preprocessing, t)).Some? && r.Failure? ==>
      r == Failure(ClassifierFailed)
    ensures r.Success? ==>
      r.value == classify(m.trained, transform(m.preprocessing, FrameForTransform(m.preprocessing, t)).value).value
  {
    var x :- match transform(m.preprocessing, FrameForTransform(m.preprocessing, t))
             case None => Failure(TransformFailed)
             case Some(x) => Success(x);
    match classify(m.trained, x)
    case None => Failure(ClassifierFailed)
    case Some(y) => Success(y)
  }

  /** When the fitted step records its feature names, a prediction depends
      only on the input's cells in those columns: extra columns and column
      order never change it, whatever `transform` and the classifier do. */
  lemma PredictIgnoresExtraColumns<M, X, Y>(m: MyModel<M>, t1: Table, t2: Table,
                                           transform: (Preprocessing, Table) -> Option<X>,
                                           classify: (M, X) -> Option<Y>)
    requires t1.Valid() && t2.Valid() && WellFormed(m.preprocessing)
    requires ExpectedColumns(m.preprocessing).Some?
    requires t1.rows == t2.rows
    requires forall c :: c in ExpectedColumns(m.preprocessing).value ==> (c in t1.data <==> c in t2.data)
    requires forall c :: c in ExpectedColumns(m.preprocessing).value && c in t1.data ==> t1.data[c] == t2.data[c]
    ensures Predict(m, t1, transform, classify) == Predict(m, t2, transform, classify)
  {
    AlignDependsOnlyOnExpected(t1, t2, ExpectedColumns(m.preprocessing).value);
  }
}
