/** `VehicleData.export_collection_as_dataframe`
    (src/data_access/vehical_data.py): the fetched documents become a frame,
    the store's `_id` column is dropped and the "na" sentinel becomes the
    missing marker. The fetch itself is network I/O; the model starts from
    the sequence of documents it returned. */
module VehicleData {
  import opened Frames

  const IdColumn := "_id"
  const NaSentinel := StrC("na")

  /** A fetched document: its fields in stored order. */
  type Document = seq<(string, Cell)>

  /** The field names of a document, in order. */
  function Keys(d: Document): (ks: seq<string>)
    ensures |ks| == |d| && forall i :: 0 <= i < |d| ==> ks[i] == d[i].0
  {
    seq(|d|, i requires 0 <= i < |d| => d[i].0)
  }

  /** The value a document holds under `key`, or the missing marker when it
      has no such field (pandas fills the gap with NaN). */
  function Lookup(d: Document, key: string): (c: Cell)
    ensures key !in Keys(d) ==> c == Missing
    ensures key in Keys(d) ==> exists i :: 0 <= i < |d| && d[i] == (key, c)
  {
    if d == [] then Missing
    else if d[0].0 == key then d[0].1
    else
      var c := Lookup(d[1..], key);
      assert Keys(d) == [d[0].0] + Keys(d[1..]);
      assert key in Keys(d[1..]) ==> exists i :: 0 <= i < |d| && d[i] == (key, c) by {
        if key in Keys(d[1..]) {
          var i :| 0 <= i < |d[1..]| && d[1..][i] == (key, c);
          assert d[i + 1] == (key, c);
        }
      }
      c
  }

  /** `acc` followed by the labels of `keys` it does not have yet, in order
      of first appearance in `keys` (see `AppendNewOrder`). */
  function AppendNew(acc: seq<string>, keys: seq<string>): (r: seq<string>)
    ensures forall c :: c in r <==> c in acc || c in keys
    ensures Distinct(acc) ==> Distinct(r)
    ensures |acc| <= |r| && r[..|acc|] == acc
    decreases |keys|
  {
    if keys == [] then acc
    else if keys[0] in acc then AppendNew(acc, keys[1..])
    else
      var acc' := acc + [keys[0]];
      assert Distinct(acc) ==> Distinct(acc') by {
        if Distinct(acc) {
          forall i, j | 0 <= i < j < |acc'| ensures acc'[i] != acc'[j] {
            if j == |acc| {
              assert acc'[i] == acc[i];
            }
          }
        }
      }
      var r := AppendNew(acc', keys[1..]);
      assert r[..|acc|] == r[..|acc'|][..|acc|];
      r
  }

  /** The labels `AppendNew` adds come from `keys` and are new to `acc`. */
  lemma {:induction false} AppendNewFresh(acc: seq<string>, keys: seq<string>)
    ensures forall i :: |acc| <= i < |AppendNew(acc, keys)| ==>
      AppendNew(acc, keys)[i] in keys && AppendNew(acc, keys)[i] !in acc
    decreases |keys|
  {
    if keys != [] && keys[0] in acc {
      var r := AppendNew(acc, keys[1..]);
      assert AppendNew(acc, keys) == r;
      AppendNewFresh(acc, keys[1..]);
      forall i | |acc| <= i < |r| ensures r[i] in keys {
        assert r[i] in keys[1..];
      }
    } else if keys != [] {
      var acc' := acc + [keys[0]];
      var r := AppendNew(acc', keys[1..]);
      assert AppendNew(acc, keys) == r;
      AppendNewFresh(acc', keys[1..]);
      assert r[|acc|] == keys[0] by {
        assert r[..|acc'|][|acc|] == acc'[|acc|];
      }
      forall i | |acc| <= i < |r| ensures r[i] in keys && r[i] !in acc {
        if i > |acc| {
          assert r[i] in keys[1..] && r[i] !in acc';
        }
      }
    }
  }

  /** The labels `AppendNew` adds come in the order of their first
      appearance in `keys`. */
  lemma {:induction false} AppendNewOrder(acc: seq<string>, keys: seq<string>)
    ensures forall i, j :: |acc| <= i < j < |AppendNew(acc, keys)| ==>
      && AppendNew(acc, keys)[i] in keys && AppendNew(acc, keys)[j] in keys
      && IndexOf(keys, AppendNew(acc, keys)[i]) < IndexOf(keys, AppendNew(acc, keys)[j])
    decreases |keys|
  {
    AppendNewFresh(acc, keys);
    if keys != [] && keys[0] in acc {
      var r := AppendNew(acc, keys[1..]);
      assert AppendNew(acc, keys) == r;
      AppendNewFresh(acc, keys[1..]);
      AppendNewOrder(acc, keys[1..]);
      forall i | |acc| <= i < |r| ensures IndexOf(keys, r[i]) == 1 + IndexOf(keys[1..], r[i]) {
        assert r[i] in keys[1..] && r[i] != keys[0];
        IndexOfTail(keys, r[i]);
      }
    } else if keys != [] {
      var acc' := acc + [keys[0]];
      var r := AppendNew(acc', keys[1..]);
      assert AppendNew(acc, keys) == r;
      AppendNewFresh(acc', keys[1..]);
      AppendNewOrder(acc', keys[1..]);
      assert r[|acc|] == keys[0] by {
        assert r[..|acc'|][|acc|] == acc'[|acc|];
      }
      forall i | |acc'| <= i < |r| ensures IndexOf(keys, r[i]) == 1 + IndexOf(keys[1..], r[i]) {
        assert r[i] in keys[1..] && r[i] != keys[0];
        IndexOfTail(keys, r[i]);
      }
      forall i, j | |acc| <= i < j < |r| ensures IndexOf(keys, r[i]) < IndexOf(keys, r[j]) {
        if i == |acc| {
          assert IndexOf(keys, r[i]) == 0;
        }
      }
    }
  }

  /** Past the head, a position in `keys` is one more than in its tail. */
  lemma IndexOfTail(keys: seq<string>, x: string)
    requires keys != [] && x in keys && x != keys[0]
    ensures IndexOf(keys, x) == 1 + IndexOf(keys[1..], x)
  {
  }

  /** The columns of `pd.DataFrame(list_of_documents)` after the documents
      already folded into `acc`: every field name, in order of first
      appearance. */
  function GatherColumns(acc: seq<string>, docs: seq<Document>): (cols: seq<string>)
    ensures Distinct(acc) ==> Distinct(cols)
    ensures forall c :: c in cols <==> c in acc || exists i :: 0 <= i < |docs| && c in Keys(docs[i])
    decreases |docs|
  {
    if docs == [] then acc
    else
      var cols := GatherColumns(AppendNew(acc, Keys(docs[0])), docs[1..]);
      assert forall c :: c in cols <==> c in acc || exists i :: 0 <= i < |docs| && c in Keys(docs[i]) by {
        forall c ensures c in cols <==> c in acc || exists i :: 0 <= i < |docs| && c in Keys(docs[i]) {
          if exists i :: 0 <= i < |docs[1..]| && c in Keys(docs[1..][i]) {
            var i :| 0 <= i < |docs[1..]| && c in Keys(docs[1..][i]);
            assert docs[1..][i] == docs[i + 1];
          }
          if exists i :: 0 <= i < |docs| && c in Keys(docs[i]) {
            var i :| 0 <= i < |docs| && c in Keys(docs[i]);
            if i > 0 {
              assert docs[1..][i - 1] == docs[i];
            }
          }
        }
      }
      cols
  }

  function ColumnsOf(docs: seq<Document>): (cols: seq<string>)
    ensures Distinct(cols)
    ensures forall c :: c in cols <==> exists i :: 0 <= i < |docs| && c in Keys(docs[i])
  {
    GatherColumns([], docs)
  }

  /** `pd.DataFrame(list(collection.find()))`: one row per document, one
      column per field name, and the missing marker where a document lacks
      the field. */
  function FromRecords(docs: seq<Document>): (t: Table)
    ensures t.Valid() && t.rows == |docs| && t.cols == ColumnsOf(docs)
    ensures forall c :: c in t.data ==> forall i :: 0 <= i < |docs| ==> t.data[c][i] == Lookup(docs[i], c)
  {
    var cols := ColumnsOf(docs);
    Table(cols, map c | c in cols :: seq(|docs|, i requires 0 <= i < |docs| => Lookup(docs[i], c)), |docs|)
  }

  /** `replace({"na": np.nan})` on one cell. */
  function NaToMissing(c: Cell): Cell {
    if c == NaSentinel then Missing else c
  }

  /** `df.replace({"na": np.nan})`: every "na" cell becomes the missing
      marker and every other cell, label and row stays as it was. */
  function ReplaceNa(t: Table): (r: Table)
    requires t.Valid()
    ensures r.Valid() && r.cols == t.cols && r.rows == t.rows
    ensures forall c :: c in r.data ==> forall i :: 0 <= i < r.rows ==> r.data[c][i] != NaSentinel
    ensures forall c :: c in r.data ==> forall i :: 0 <= i < r.rows ==>
      t.data[c][i] != NaSentinel ==> r.data[c][i] == t.data[c][i]
    ensures forall c :: c in r.data ==> forall i :: 0 <= i < r.rows ==>
      t.data[c][i] == NaSentinel ==> r.data[c][i] == Missing
  {
    Table(t.cols, map c | c in t.data :: seq(t.rows, i requires 0 <= i < t.rows => NaToMissing(t.data[c][i])), t.rows)
  }

  /** Replacing the sentinel twice is replacing it once. */
  lemma ReplaceNaIdempotent(t: Table)
    requires t.Valid()
    ensures ReplaceNa(ReplaceNa(t)) == ReplaceNa(t)
  {
    var r := ReplaceNa(t);
    var rr := ReplaceNa(r);
    forall c | c in rr.data ensures rr.data[c] == r.data[c] {
      assert |rr.data[c]| == |r.data[c]|;
    }
    assert rr.data == r.data;
  }

  /** `export_collection_as_dataframe` after the fetch: drop `_id` when the
      frame has it, then replace the sentinel. The result has one row per
      document, no `_id` column and no "na" cell; its columns are the fetched
      field names other than `_id`, in order of first appearance, and each
      cell is the document's value with "na" read as missing. */
  function ExportCollection(docs: seq<Document>): (t: Table)
    ensures t.Valid() && t.rows == |docs|
    ensures IdColumn !in t.data
    ensures t.cols == Remove(ColumnsOf(docs), IdColumn)
    ensures forall c :: c in t.data <==> c != IdColumn && exists i :: 0 <= i < |docs| && c in Keys(docs[i])
    ensures forall c :: c in t.data ==> forall i :: 0 <= i < |docs| ==> t.data[c][i] != NaSentinel
    ensures forall c :: c in t.data ==> forall i :: 0 <= i < |docs| ==> t.data[c][i] == NaToMissing(Lookup(docs[i], c))
  {
    ReplaceNa(DropColumn(FromRecords(docs), IdColumn))
  }

  /** When no document carries `_id`, the exported frame has exactly the
      fetched columns, in the fetched order. */
  lemma NoIdKeepsColumns(docs: seq<Document>)
    requires forall i :: 0 <= i < |docs| ==> IdColumn !in Keys(docs[i])
    ensures ExportCollection(docs).cols == ColumnsOf(docs)
  {
    assert IdColumn !in ColumnsOf(docs);
  }
}
