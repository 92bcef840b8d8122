/** inference.py: `XGBoostInference` loads the saved tables, builds a
    code->category table per column by inverting each category->code table,
    remaps the categorical columns of a copy of the input, scales the numeric
    columns, classifies, and decodes the predicted code through the target
    column's reverse table, falling back to the raw code. The classifier and
    the scaler are opaque functions handed to the constructor. */
module Inference {
  import opened Frames
  import opened StrOrder
  import opened LabelEncoding

  /** The categories of `m` whose code is `v`. */
  function Preimage(m: map<string, int>, v: int): set<string>
  {
    set k | k in m && m[k] == v
  }

  /** `{v: k for k, v in mapping.items()}`. A later key overwrites an earlier
      one with the same code; the model keeps the greatest such key, which is
      the last one inserted for a table written in ascending key order. */
  function Invert(m: map<string, int>): (r: map<int, string>)
    ensures r.Keys == m.Values
    ensures forall v :: v in r ==> r[v] in m && m[r[v]] == v
    ensures forall v, k :: v in r && k in m && m[k] == v && k != r[v] ==> Less(k, r[v])
  {
    map v | v in m.Values :: assert (var k :| k in m && m[k] == v; k) in Preimage(m, v); Greatest(Preimage(m, v))
  }

  /** `reverse_label_mappings`: one inverted table per column. */
  function ReverseTables(t: Tables): (r: map<string, map<int, string>>)
    ensures r.Keys == t.Keys
    ensures forall c :: c in r ==> r[c].Keys == t[c].Values
  {
    map c | c in t :: Invert(t[c])
  }

  /** An inverted table with distinct codes gives back every category from
      its code. */
  lemma InvertRoundTrip(m: map<string, int>, k: string)
    requires Injective(m) && k in m
    ensures m[k] in Invert(m) && Invert(m)[m[k]] == k
  {
    var r := Invert(m);
    assert m[k] in m.Values;
    var back := r[m[k]];
    assert m[back] == m[k];
  }

  /** The inverse of a fitted table is defined on exactly the codes 0..n-1
      and is itself one-to-one. */
  lemma InvertLabelTable(m: map<string, int>)
    requires IsLabelTable(m)
    ensures Invert(m).Keys == Codes(|m|)
    ensures forall v, w :: v in Invert(m) && w in Invert(m) && v != w ==> Invert(m)[v] != Invert(m)[w]
  {
  }

  // ---- predict's decoding step

  /** What `predict` returns: a category, or the raw code. */
  datatype Prediction = Label(name: string) | RawCode(code: int)

  /** `reverse.get(code, code)`. */
  function Decode(reverse: map<int, string>, code: int): Prediction
  {
    if code in reverse then Label(reverse[code]) else RawCode(code)
  }

  /** Decoding the code of a category through the inverse of its table
      gives back the category. */
  lemma DecodeEncoded(m: map<string, int>, k: string)
    requires Injective(m) && k in m
    ensures Decode(Invert(m), m[k]) == Label(k)
  {
    InvertRoundTrip(m, k);
  }

  /** Through a fitted table's inverse, decoding falls back to the raw code
      exactly for the codes outside 0..n-1, and otherwise yields the
      category with that code. */
  lemma DecodeFitted(m: map<string, int>, code: int)
    requires IsLabelTable(m)
    ensures Decode(Invert(m), code).RawCode? <==> !(0 <= code < |m|)
    ensures Decode(Invert(m), code).RawCode? ==> Decode(Invert(m), code).code == code
    ensures Decode(Invert(m), code).Label? ==>
      var k := Decode(Invert(m), code).name; k in m && m[k] == code
  {
    InvertLabelTable(m);
  }

  // ---- preprocess_input's categorical step

  /** `series.map(mapping)` on one cell: a known category becomes its code;
      anything else, including a number or a missing cell, becomes missing. */
  function MapCell(table: map<string, int>, v: Value): Value
  {
    if v.Str? && v.s in table then Num(table[v.s] as real) else Missing
  }

  /** A row with the columns of `done` that have a table remapped. */
  function RemapRow(row: Row, t: Tables, done: set<string>): Row
  {
    map c | c in row :: if c in done && c in t then MapCell(t[c], row[c]) else row[c]
  }

  function Remap(f: Frame, t: Tables, done: set<string>): Frame
  {
    Frame(f.columns, seq(|f.rows|, i requires 0 <= i < |f.rows| => RemapRow(f.rows[i], t, done)))
  }

  /** The frame after the loop of `preprocess_input`: every column that has
      a table and is in the input is remapped through it. */
  function MapCategorical(f: Frame, t: Tables): Frame
  {
    Remap(f, t, t.Keys)
  }

  /** `input_data[col] = input_data[col].map(mapping)`. */
  function MapColumn(f: Frame, c: string, table: map<string, int>): Frame
    requires forall r: Row :: r in f.rows ==> c in r
  {
    Frame(f.columns, seq(|f.rows|, i requires 0 <= i < |f.rows| =>
      assert f.rows[i] in f.rows; f.rows[i][c := MapCell(table, f.rows[i][c])]))
  }

  lemma RemapNothing(f: Frame, t: Tables)
    ensures Remap(f, t, {}) == f
  {
    var e := Remap(f, t, {});
    forall i | 0 <= i < |f.rows| ensures e.rows[i] == f.rows[i] { }
  }

  /** Remapping one more column that is in the frame. */
  lemma RemapStep(f: Frame, t: Tables, done: set<string>, c: string)
    requires WellFormed(f) && c in t && c !in done && c in f.columns
    ensures forall r: Row :: r in Remap(f, t, done).rows ==> c in r
    ensures MapColumn(Remap(f, t, done), c, t[c]) == Remap(f, t, done + {c})
  {
    var e := Remap(f, t, done);
    forall r: Row | r in e.rows ensures c in r {
      var i :| 0 <= i < |e.rows| && e.rows[i] == r;
      assert f.rows[i] in f.rows;
    }
    var lhs := MapColumn(e, c, t[c]);
    var rhs := Remap(f, t, done + {c});
    forall i | 0 <= i < |f.rows| ensures lhs.rows[i] == rhs.rows[i] {
      assert f.rows[i] in f.rows;
    }
  }

  /** Skipping a column that has a table but is not in the frame. */
  lemma RemapSkip(f: Frame, t: Tables, done: set<string>, c: string)
    requires WellFormed(f) && c !in f.columns
    ensures Remap(f, t, done) == Remap(f, t, done + {c})
  {
    var lhs := Remap(f, t, done);
    var rhs := Remap(f, t, done + {c});
    forall i | 0 <= i < |f.rows| ensures lhs.rows[i] == rhs.rows[i] {
      assert f.rows[i] in f.rows;
    }
  }

  /** What the categorical step does to each cell: a column without a table
      is untouched; in a column with a table a known category becomes its
      code and any other value becomes missing. Rows and columns stay. */
  lemma MapCategoricalCells(f: Frame, t: Tables, i: nat, c: string)
    requires i < |f.rows| && c in f.rows[i]
    ensures MapCategorical(f, t).columns == f.columns && |MapCategorical(f, t).rows| == |f.rows|
    ensures c in MapCategorical(f, t).rows[i]
    ensures var v := f.rows[i][c]; var w := MapCategorical(f, t).rows[i][c];
      && (c !in t ==> w == v)
      && (c in t && v.Str? && v.s in t[c] ==> w == Num(t[c][v.s] as real))
      && (c in t && !(v.Str? && v.s in t[c]) ==> w == Missing)
  {
  }

  // ---- the inference object

  class XGBoostInference {
    const model: Row -> int
    const scaler: (string, Value) -> Value
    const numericColumns: seq<string>
    const labelMappings: Tables
    const reverseLabelMappings: map<string, map<int, string>>
    const targetColumn: string

    /** `__init__` on the loaded artifact dictionary. */
    constructor (saved: Bundle, model: Row -> int, scaler: (string, Value) -> Value, targetColumn: string)
      ensures this.model == model && this.scaler == scaler
      ensures numericColumns == saved.numericColumns && labelMappings == saved.labelMappings
      ensures reverseLabelMappings == ReverseTables(saved.labelMappings)
      ensures this.targetColumn == targetColumn
    {
      this.model := model;
      this.scaler := scaler;
      numericColumns := saved.numericColumns;
      labelMappings := saved.labelMappings;
      reverseLabelMappings := ReverseTables(saved.labelMappings);
      this.targetColumn := targetColumn;
    }

    /** `preprocess_input`: remap the categorical columns of a copy of the
        input, then scale the numeric columns. The input is a value and is
        never modified. */
    method PreprocessInput(input: Frame) returns (r: Result<Frame>)
      requires WellFormed(input)
      ensures r == ScaleColumns(MapCategorical(input, labelMappings), numericColumns, scaler)
    {
      var data := input;
      var todo := labelMappings.Keys;
      RemapNothing(input, labelMappings);
      assert labelMappings.Keys - todo == {};
      while todo != {}
        invariant todo <= labelMappings.Keys
        invariant data == Remap(input, labelMappings, labelMappings.Keys - todo)
        decreases |todo|
      {
        var col :| col in todo;
        ghost var done := labelMappings.Keys - todo;
        if col in data.columns {
          RemapStep(input, labelMappings, done, col);
          data := MapColumn(data, col, labelMappings[col]);
        } else {
          RemapSkip(input, labelMappings, done, col);
        }
        todo := todo - {col};
        assert labelMappings.Keys - todo == done + {col};
      }
      assert labelMappings.Keys - todo == labelMappings.Keys;
      assert WellFormed(data) by {
        forall row: Row | row in data.rows ensures row.Keys == ColumnSet(data) {
          var i :| 0 <= i < |data.rows| && data.rows[i] == row;
          assert input.rows[i] in input.rows;
        }
      }
      r := ScaleColumns(data, numericColumns, scaler);
    }

    /** `predict`: classify the first preprocessed row and decode the code
        through the target's reverse table, or return the raw code when the
        table has no entry for it. */
    method Predict(input: Frame) returns (r: Result<Prediction>)
      requires WellFormed(input)
      ensures var p := ScaleColumns(MapCategorical(input, labelMappings), numericColumns, scaler);
        r == if p.Err? then Err(p.error)
             else if targetColumn !in reverseLabelMappings then Err(KeyError(targetColumn))
             else if |p.value.rows| == 0 then Err(IndexError)
             else Ok(Decode(reverseLabelMappings[targetColumn], model(p.value.rows[0])))
    {
      var processed := PreprocessInput(input);
      if processed.Err? {
        return Err(processed.error);
      }
      // `reverse_label_mappings[target]` is evaluated before `prediction[0]`
      if targetColumn !in reverseLabelMappings {
        return Err(KeyError(targetColumn));
      }
      if |processed.value.rows| == 0 {
        return Err(IndexError);
      }
      var code := model(processed.value.rows[0]);
      r := Ok(Decode(reverseLabelMappings[targetColumn], code));
    }
  }
}
