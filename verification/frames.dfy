/** An abstract data frame: an ordered sequence of distinct column labels, a
    map from each label to its column of cells, and a row count (a frame with
    no columns still has rows, as a pandas index does). The column-level
    primitives here are the pandas operations the pipeline uses: drop a
    column, assign a column, rename a column and map a column cell by cell. */
module Frames {
  import opened Wrappers

  /** One cell of a frame. `Missing` is pandas' NaN marker. */
  datatype Cell = IntC(i: int) | RealC(x: real) | BoolC(b: bool) | StrC(s: string) | Missing

  /** Failures the pipeline's frame operations raise. */
  datatype FrameError =
    | MissingColumn(name: string)   // a KeyError on a column label
    | NotCastable(column: string)   // `astype(int)` met a value it cannot convert
    | DuplicateLabel(name: string)  // a rename would give two columns one label

  predicate Distinct<T(==)>(s: seq<T>) {
    forall i, j :: 0 <= i < j < |s| ==> s[i] != s[j]
  }

  /** A column of `n` integer zeros, what `df[col] = 0` stores. */
  function Zeros(n: nat): (z: seq<Cell>)
    ensures |z| == n
    ensures forall k :: 0 <= k < n ==> z[k] == IntC(0)
  {
    seq(n, _ => IntC(0))
  }

  datatype Table = Table(cols: seq<string>, data: map<string, seq<Cell>>, rows: nat) {

    /** Labels are distinct, the map holds exactly the listed labels, and
        every column has one cell per row. */
    predicate Valid() {
      && Distinct(cols)
      && (forall c :: c in cols ==> c in data)
      && (forall c :: c in data ==> c in cols)
      && (forall c :: c in data ==> |data[c]| == rows)
    }
  }

  /** The position of `x` in `s`. */
  function IndexOf<T(==)>(s: seq<T>, x: T): (i: nat)
    requires x in s
    ensures i < |s| && s[i] == x
    ensures forall j :: 0 <= j < i ==> s[j] != x
  {
    if s[0] == x then 0 else 1 + IndexOf(s[1..], x)
  }

  /** `s` with every occurrence of `x` removed, other elements in order. */
  function Remove(s: seq<string>, x: string): (r: seq<string>)
    ensures forall y :: y in r <==> y in s && y != x
    ensures Distinct(s) ==> Distinct(r)
    ensures x !in s ==> r == s
  {
    if s == [] then []
    else if s[0] == x then Remove(s[1..], x)
    else
      var rest := Remove(s[1..], x);
      assert Distinct(s) ==> Distinct([s[0]] + rest) by {
        if Distinct(s) {
          assert s[0] !in s[1..];
          forall i, j | 0 <= i < j < |[s[0]] + rest| ensures ([s[0]] + rest)[i] != ([s[0]] + rest)[j] {
            if i == 0 {
              assert ([s[0]] + rest)[j] in rest;
            }
          }
        }
      }
      [s[0]] + rest
  }

  /** Removing a label that occurs once cuts it out at its position. */
  lemma {:induction false} RemoveAt(s: seq<string>, x: string)
    requires Distinct(s) && x in s
    ensures Remove(s, x) == s[..IndexOf(s, x)] + s[IndexOf(s, x) + 1..]
  {
    if s[0] != x {
      RemoveAt(s[1..], x);
      assert s[1..][..IndexOf(s[1..], x)] == s[1..IndexOf(s, x)];
      assert s[1..][IndexOf(s[1..], x) + 1..] == s[IndexOf(s, x) + 1..];
    }
  }

  /** `s` with every occurrence of `a` replaced by `b`, positions kept. */
  function Replace<T(==)>(s: seq<T>, a: T, b: T): (r: seq<T>)
    ensures |r| == |s|
    ensures forall k :: 0 <= k < |s| ==> r[k] == (if s[k] == a then b else s[k])
  {
    seq(|s|, k requires 0 <= k < |s| => if s[k] == a then b else s[k])
  }

  /** `df.drop(c, axis=1)` guarded by `c in df.columns`: the column goes,
      every other column keeps its cells and its relative order. */
  function DropColumn(t: Table, c: string): (r: Table)
    requires t.Valid()
    ensures r.Valid() && r.rows == t.rows
    ensures c !in r.data
    ensures forall d :: d != c ==> (d in r.data <==> d in t.data)
    ensures forall d :: d in r.data ==> r.data[d] == t.data[d]
    ensures r.cols == Remove(t.cols, c)
    ensures c !in t.data ==> r == t
  {
    if c in t.data then Table(Remove(t.cols, c), t.data - {c}, t.rows) else t
  }

  /** `df[c] = v`: replaces the column in place when `c` exists, otherwise
      appends it as the last column. */
  function SetColumn(t: Table, c: string, v: seq<Cell>): (r: Table)
    requires t.Valid() && |v| == t.rows
    ensures r.Valid() && r.rows == t.rows
    ensures r.cols == if c in t.data then t.cols else t.cols + [c]
    ensures r.data == t.data[c := v]
  {
    if c in t.data then Table(t.cols, t.data[c := v], t.rows)
    else
      assert Distinct(t.cols + [c]) by {
        forall i, j | 0 <= i < j < |t.cols + [c]|
          ensures (t.cols + [c])[i] != (t.cols + [c])[j]
        {
          if j == |t.cols| {
            assert (t.cols + [c])[i] == t.cols[i];
            assert t.cols[i] in t.cols;
          }
        }
      }
      Table(t.cols + [c], t.data[c := v], t.rows)
  }

  /** `df.rename(columns={from: to})`: a label that is absent is ignored;
      the renamed column keeps its position and its cells. The caller rules
      out the one case pandas allows and this model cannot represent, two
      columns under one label. */
  function RenameColumn(t: Table, from: string, to: string): (r: Table)
    requires t.Valid()
    requires from in t.data && to in t.data ==> from == to
    ensures r.Valid() && r.rows == t.rows
    ensures |r.cols| == |t.cols|
    ensures forall k :: 0 <= k < |t.cols| ==> r.cols[k] == (if t.cols[k] == from then to else t.cols[k])
    ensures from in t.data ==> to in r.data && r.data[to] == t.data[from]
    ensures forall d :: d in t.data && d != from ==> d in r.data && r.data[d] == t.data[d]
    ensures forall d :: d in r.data ==> d in t.data || (d == to && from in t.data)
  {
    if from !in t.data || from == to then t
    else
      var cols := Replace(t.cols, from, to);
      ReplaceKeepsDistinct(t.cols, from, to);
      ReplacedLabels(t, from, to);
      Table(cols, (t.data - {from})[to := t.data[from]], t.rows)
  }

  /** Replacing a label by one the sequence lacks keeps labels distinct. */
  lemma ReplaceKeepsDistinct(s: seq<string>, a: string, b: string)
    requires Distinct(s) && b !in s
    ensures Distinct(Replace(s, a, b))
  {
    var r := Replace(s, a, b);
    forall i, j | 0 <= i < j < |r| ensures r[i] != r[j] {
      if s[i] != a && s[j] == a {
        assert s[i] in s;
      } else if s[i] == a && s[j] != a {
        assert s[j] in s;
      }
    }
  }

  /** The relabelled column list names exactly the keys of the relabelled
      map. */
  lemma ReplacedLabels(t: Table, from: string, to: string)
    requires t.Valid() && from in t.data && to !in t.data
    ensures forall c :: c in Replace(t.cols, from, to) <==> c in (t.data - {from})[to := t.data[from]]
  {
    var cols := Replace(t.cols, from, to);
    forall c ensures c in cols <==> c in (t.data - {from})[to := t.data[from]] {
      if c in cols {
        var k :| 0 <= k < |cols| && cols[k] == c;
        assert t.cols[k] in t.cols;
      }
      if c == to {
        var k := IndexOf(t.cols, from);
        assert cols[k] == to;
      } else if c in t.data && c != from {
        var k := IndexOf(t.cols, c);
        assert cols[k] == c;
      }
    }
  }

  /** Applies `f` to every cell; fails as a whole when `f` fails on any
      cell, as a pandas column conversion does. */
  function MapCells(cells: seq<Cell>, f: Cell -> Option<Cell>): (r: Option<seq<Cell>>)
    ensures r.Some? <==> forall k :: 0 <= k < |cells| ==> f(cells[k]).Some?
    ensures r.Some? ==> |r.value| == |cells|
    ensures r.Some? ==> forall k :: 0 <= k < |cells| ==> r.value[k] == f(cells[k]).value
  {
    if cells == [] then Some([])
    else
      match f(cells[0])
      case None => None
      case Some(x) =>
        match MapCells(cells[1..], f)
        case None =>
          assert exists k :: 1 <= k < |cells| && f(cells[k]).None? by {
            var k :| 0 <= k < |cells[1..]| && f(cells[1..][k]).None?;
            assert f(cells[k + 1]).None?;
          }
          None
        case Some(rest) =>
          assert forall k :: 1 <= k < |cells| ==> cells[k] == cells[1..][k - 1];
          Some([x] + rest)
  }

  /** Replaces column `c` by `f` applied to each of its cells, or fails
      naming the column. */
  function ConvertColumn(t: Table, c: string, f: Cell -> Option<Cell>): (r: Result<Table, FrameError>)
    requires t.Valid() && c in t.data
    ensures r.Success? <==> forall k :: 0 <= k < t.rows ==> f(t.data[c][k]).Some?
    ensures r.Failure? ==> r.error == NotCastable(c)
    ensures r.Success? ==> r.value.Valid() && r.value.cols == t.cols && r.value.rows == t.rows
    ensures r.Success? ==> forall d :: d in t.data && d != c ==> r.value.data[d] == t.data[d]
    ensures r.Success? ==> forall k :: 0 <= k < t.rows ==> r.value.data[c][k] == f(t.data[c][k]).value
  {
    match MapCells(t.data[c], f)
    case None => Failure(NotCastable(c))
    case Some(v) => Success(SetColumn(t, c, v))
  }
}
