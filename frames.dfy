/** The pandas values the label-table code touches: cells, rows, frames, the
    errors pandas raises on them, and the abstract standard-scaling step that
    both inference.py and streamlit.py apply after the categorical step. */
module Frames {

  /** One cell: a number, a text value, or pandas' missing marker (NaN). */
  datatype Value = Num(x: real) | Str(s: string) | Missing

  /** One row, by column name. */
  type Row = map<string, Value>

  /** A data frame: its ordered column labels and its rows. */
  datatype Frame = Frame(columns: seq<string>, rows: seq<Row>)

  /** The exceptions the modelled code lets escape. */
  datatype Error =
    | KeyError(key: string)   // a column or dictionary key that is not there
    | IndexError              // `prediction[0]` on an empty prediction

  datatype Result<T> = Ok(value: T) | Err(error: Error)

  datatype Outcome = Pass | Fail(error: Error)

  /** The fitted tables as the pickle carries them: one category->code table
      per categorical column. */
  type Tables = map<string, map<string, int>>

  /** The part of the saved artifact dictionary that the label tables
      concern: `numeric_columns` and `label_mappings`. */
  datatype Bundle = Bundle(numericColumns: seq<string>, labelMappings: Tables)

  predicate Distinct(names: seq<string>)
  {
    forall i, j :: 0 <= i < j < |names| ==> names[i] != names[j]
  }

  /** The labels listed in `names`. */
  function Elems(names: seq<string>): set<string>
  {
    set c | c in names
  }

  /** Walking a list without repeats: element `i` is not among the first
      `i`, and taking it adds exactly it. */
  lemma ElemsPrefix(names: seq<string>, i: nat)
    requires Distinct(names) && i < |names|
    ensures names[i] !in Elems(names[..i])
    ensures Elems(names[..i + 1]) == Elems(names[..i]) + {names[i]}
  {
    assert names[..i + 1] == names[..i] + [names[i]];
  }

  function ColumnSet(f: Frame): set<string>
  {
    Elems(f.columns)
  }

  /** Column labels are unique and every row has exactly those columns. */
  predicate WellFormed(f: Frame)
  {
    Distinct(f.columns) && forall r :: r in f.rows ==> r.Keys == ColumnSet(f)
  }

  /** No cell of the frame is missing. */
  predicate NoMissing(f: Frame)
  {
    forall r, c :: r in f.rows && c in r ==> r[c] != Missing
  }

  /** The labels of `wanted` that are not columns of `f`. */
  function Absent(wanted: seq<string>, f: Frame): (r: seq<string>)
    ensures forall c :: c in r <==> c in wanted && c !in f.columns
  {
    if wanted == [] then []
    else if wanted[0] in f.columns then Absent(wanted[1..], f)
    else [wanted[0]] + Absent(wanted[1..], f)
  }

  /** `frame[cols] = scaler.transform(frame[cols])`: selecting absent columns
      raises KeyError; otherwise each listed column is rewritten cell by cell
      by the fitted scaler, which is left abstract as a function of the
      column and the value. Nothing else changes. */
  function ScaleColumns(f: Frame, cols: seq<string>, scaler: (string, Value) -> Value): (r: Result<Frame>)
    requires WellFormed(f)
    ensures r.Err? <==> exists c :: c in cols && c !in f.columns
    ensures r.Err? ==> r.error.KeyError? && r.error.key in cols && r.error.key !in f.columns
    ensures r.Ok? ==> WellFormed(r.value) && r.value.columns == f.columns && |r.value.rows| == |f.rows|
    ensures r.Ok? ==> forall i, c :: 0 <= i < |f.rows| && c in f.rows[i] ==>
      c in r.value.rows[i] &&
      r.value.rows[i][c] == (if c in cols then scaler(c, f.rows[i][c]) else f.rows[i][c])
  {
    var absent := Absent(cols, f);
    if absent != [] then
      assert absent[0] in absent;
      Err(KeyError(absent[0]))
    else
      var rows := seq(|f.rows|, i requires 0 <= i < |f.rows| =>
        var r := f.rows[i];
        map c | c in r :: if c in cols then scaler(c, r[c]) else r[c]);
      assert forall r :: r in rows ==> r.Keys == ColumnSet(f) by {
        forall r | r in rows ensures r.Keys == ColumnSet(f) {
          var i :| 0 <= i < |rows| && rows[i] == r;
          assert f.rows[i] in f.rows;
        }
      }
      Ok(Frame(f.columns, rows))
  }
}
