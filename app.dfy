/** streamlit.py: the front end builds a one-row frame from the form, encodes
    it with the saved tables (keeping any value a table does not know),
    scales the numeric columns, classifies, and shows a fixed two-way label
    for the predicted code. Widgets are modelled by the values they return:
    a number input by its number, a select box by the index of the option
    chosen. */
module App {
  import opened Frames
  import opened StrOrder
  import opened LabelEncoding
  import opened Inference

  // ---- get_input_data

  const MealPlans: seq<string> := ["Meal Plan 1", "Not Selected", "Meal Plan 2", "Meal Plan 3"]
  const ParkingOptions: seq<string> := ["0.0", "1.0"]
  const RoomTypes: seq<string> :=
    ["Room_Type 1", "Room_Type 2", "Room_Type 3", "Room_Type 4", "Room_Type 5", "Room_Type 6", "Room_Type 7"]
  const MarketSegments: seq<string> := ["Offline", "Online", "Corporate", "Complementary", "Aviation"]

  /** The fields of the input record, in the order the record lists them. */
  const FieldNames: seq<string> := [
    "no_of_adults", "no_of_children", "no_of_weekend_nights", "no_of_week_nights",
    "type_of_meal_plan", "required_car_parking_space", "room_type_reserved",
    "lead_time", "arrival_year", "arrival_month", "arrival_date",
    "market_segment_type", "repeated_guest", "no_of_previous_cancellations",
    "no_of_previous_bookings_not_canceled", "avg_price_per_room", "no_of_special_requests"]

  /** The fields filled from a select box, in the order of the record, and
      the option list of each. */
  const ChoiceFields: seq<string> :=
    ["type_of_meal_plan", "required_car_parking_space", "room_type_reserved", "market_segment_type"]
  const ChoiceOptions: seq<seq<string>> := [MealPlans, ParkingOptions, RoomTypes, MarketSegments]

  /** The fields filled from a number input, in the order of the record. */
  const NumberFields: seq<string> := [
    "no_of_adults", "no_of_children", "no_of_weekend_nights", "no_of_week_nights",
    "lead_time", "arrival_year", "arrival_month", "arrival_date",
    "repeated_guest", "no_of_previous_cancellations",
    "no_of_previous_bookings_not_canceled", "avg_price_per_room", "no_of_special_requests"]

  lemma NumberFieldsDistinct()
    ensures Distinct(NumberFields)
  {
    forall i, j | 0 <= i < j < |NumberFields| ensures NumberFields[i] != NumberFields[j] {
      var a, b := NumberFields[i], NumberFields[j];
      assert |a| != |b| || a[0] != b[0] || a[8] != b[8];
    }
  }

  /** No field is listed twice: names of equal length differ in their
      first letter, except the two `arrival_` fields, which differ in
      their ninth. */
  lemma FieldNamesDistinct()
    ensures Distinct(FieldNames)
  {
    forall i, j | 0 <= i < j < |FieldNames| ensures FieldNames[i] != FieldNames[j] {
      var a, b := FieldNames[i], FieldNames[j];
      assert |a| != |b| || a[0] != b[0] || a[8] != b[8];
    }
  }

  /** What the widgets of the form return. */
  datatype Form = Form(
    adults: int, children: int, weekendNights: int, weekNights: int,
    mealPlan: nat, parking: nat, roomType: nat,
    leadTime: int, arrivalYear: int, arrivalMonth: int, arrivalDate: int,
    marketSegment: nat,
    repeatedGuest: int, previousCancellations: int, previousNotCanceled: int,
    avgPrice: int, specialRequests: int)

  /** The options chosen in the form's select boxes, in the order of
      `ChoiceFields`. */
  function FormChoices(form: Form): (picks: seq<nat>)
    ensures |picks| == |ChoiceFields| == |ChoiceOptions|
  {
    [form.mealPlan, form.parking, form.roomType, form.marketSegment]
  }

  /** A select box always returns one of its options. */
  predicate ValidChoices(form: Form)
  {
    forall i :: 0 <= i < |ChoiceFields| ==> FormChoices(form)[i] < |ChoiceOptions[i]|
  }

  /** The values of the form's number inputs, in the order of
      `NumberFields`. */
  function FormNumbers(form: Form): (nums: seq<int>)
    ensures |nums| == |NumberFields|
  {
    [form.adults, form.children, form.weekendNights, form.weekNights,
     form.leadTime, form.arrivalYear, form.arrivalMonth, form.arrivalDate,
     form.repeatedGuest, form.previousCancellations, form.previousNotCanceled,
     form.avgPrice, form.specialRequests]
  }

  /** Each number-input field of `row` holds the value of its own widget. */
  predicate HoldsNumbers(row: Row, form: Form)
  {
    forall i :: 0 <= i < |NumberFields| ==>
      NumberFields[i] in row && row[NumberFields[i]] == Num(FormNumbers(form)[i] as real)
  }

  /** The number-input cells of the record: each field holds the value of
      its own widget. */
  function NumberCells(form: Form): (m: Row)
    ensures m.Keys == Elems(NumberFields)
    ensures forall c :: c in m ==> m[c].Num?
    ensures forall i :: 0 <= i < |NumberFields| ==> m[NumberFields[i]] == Num(FormNumbers(form)[i] as real)
  {
    var nums := FormNumbers(form);
    NumberFieldsDistinct();
    map i | 0 <= i < |NumberFields| :: NumberFields[i] := Num(nums[i] as real)
  }

  /** Each select-box field of `row` holds the option chosen in its own
      widget. */
  predicate HoldsChoices(row: Row, form: Form)
    requires ValidChoices(form)
  {
    forall i :: 0 <= i < |ChoiceFields| ==>
      ChoiceFields[i] in row && row[ChoiceFields[i]] == Str(ChoiceOptions[i][FormChoices(form)[i]])
  }

  lemma ChoiceFieldsDistinct()
    ensures Distinct(ChoiceFields)
  {
    forall i, j | 0 <= i < j < |ChoiceFields| ensures ChoiceFields[i] != ChoiceFields[j] {
      assert |ChoiceFields[i]| != |ChoiceFields[j]|;
    }
  }

  /** The select-box cells of the record: each field holds the option
      chosen in its own widget. */
  function ChoiceCells(form: Form): (m: Row)
    requires ValidChoices(form)
    ensures m.Keys == Elems(ChoiceFields)
    ensures forall c :: c in m ==> m[c].Str?
    ensures forall i :: 0 <= i < |ChoiceFields| ==> m[ChoiceFields[i]] == Str(ChoiceOptions[i][FormChoices(form)[i]])
  {
    var picks := FormChoices(form);
    ChoiceFieldsDistinct();
    map i | 0 <= i < |ChoiceFields| :: ChoiceFields[i] := Str(ChoiceOptions[i][picks[i]])
  }

  /** The record's fields are the number-input fields and the select-box
      fields, and no field is both. */
  lemma FieldsSplit()
    ensures Distinct(FieldNames)
    ensures Elems(FieldNames) == Elems(NumberFields) + Elems(ChoiceFields)
    ensures forall c :: c in NumberFields ==> c !in ChoiceFields
  {
    FieldNamesDistinct();
    // a number-input field and a select-box field differ in length or in
    // their first letter
    forall c | c in NumberFields ensures c !in ChoiceFields {
      forall k | k in ChoiceFields ensures c != k {
        assert |c| != |k| || c[0] != k[0];
      }
    }
  }

  /** `get_input_data`: one record holding exactly the 17 fields, each the
      value of its own widget: the option chosen for a select box, the
      number entered for a number input. */
  function GetInputData(form: Form): (f: Frame)
    requires ValidChoices(form)
    ensures WellFormed(f) && f.columns == FieldNames && |f.rows| == 1 && NoMissing(f)
    ensures HoldsChoices(f.rows[0], form)
    ensures HoldsNumbers(f.rows[0], form)
  {
    var row := NumberCells(form) + ChoiceCells(form);
    RecordRow(form, row);
    Frame(FieldNames, [row])
  }

  /** The cells of the record, from both kinds of widget. */
  lemma RecordRow(form: Form, row: Row)
    requires ValidChoices(form) && row == NumberCells(form) + ChoiceCells(form)
    ensures Distinct(FieldNames) && row.Keys == Elems(FieldNames)
    ensures forall c :: c in row ==> row[c] != Missing
    ensures HoldsChoices(row, form)
    ensures HoldsNumbers(row, form)
  {
    FieldsSplit();
    var numbers, choices := NumberCells(form), ChoiceCells(form);
    forall i | 0 <= i < |NumberFields|
      ensures NumberFields[i] in row && row[NumberFields[i]] == Num(FormNumbers(form)[i] as real)
    {
      assert NumberFields[i] in NumberFields;
      assert NumberFields[i] !in choices;
    }
    forall i | 0 <= i < |ChoiceFields|
      ensures ChoiceFields[i] in row && row[ChoiceFields[i]] == Str(ChoiceOptions[i][FormChoices(form)[i]])
    {
      assert ChoiceFields[i] in choices;
    }
    forall c | c in row ensures row[c] != Missing {
      if c in choices {
        assert row[c] == choices[c];
      } else {
        assert row[c] == numbers[c];
      }
    }
  }

  // ---- the encoding loop of main

  /** `series.map(mapping).fillna(series)` on one cell: a known category
      becomes its code; any other value comes back as it was. */
  function KeepCell(table: map<string, int>, v: Value): Value
  {
    if v.Str? && v.s in table then Num(table[v.s] as real) else v
  }

  /** A row with the columns of `done` that have a table encoded. */
  function KeepRow(row: Row, t: Tables, done: set<string>): Row
  {
    map c | c in row :: if c in done && c in t then KeepCell(t[c], row[c]) else row[c]
  }

  function PassThrough(f: Frame, t: Tables, done: set<string>): (r: Frame)
    ensures WellFormed(f) ==> WellFormed(r)
  {
    var r := Frame(f.columns, seq(|f.rows|, i requires 0 <= i < |f.rows| => KeepRow(f.rows[i], t, done)));
    if WellFormed(f) then
      assert forall row: Row :: row in r.rows ==> row.Keys == ColumnSet(r) by {
        forall row: Row | row in r.rows ensures row.Keys == ColumnSet(r) {
          var i :| 0 <= i < |r.rows| && r.rows[i] == row;
          assert f.rows[i] in f.rows;
        }
      }
      r
    else r
  }

  /** The frame after the loop: every column that has a table encoded. */
  function EncodeKnown(f: Frame, t: Tables): (r: Frame)
    ensures WellFormed(f) ==> WellFormed(r)
  {
    PassThrough(f, t, ColumnSet(f))
  }

  /** `data_baru[col] = data_baru[col].map(mapping).fillna(data_baru[col])`. */
  function KeepColumn(f: Frame, c: string, table: map<string, int>): Frame
    requires forall r: Row :: r in f.rows ==> c in r
  {
    Frame(f.columns, seq(|f.rows|, i requires 0 <= i < |f.rows| =>
      assert f.rows[i] in f.rows; f.rows[i][c := KeepCell(table, f.rows[i][c])]))
  }

  lemma PassThroughNothing(f: Frame, t: Tables)
    ensures PassThrough(f, t, {}) == f
  {
    var e := PassThrough(f, t, {});
    forall i | 0 <= i < |f.rows| ensures e.rows[i] == f.rows[i] { }
  }

  /** The partly encoded frame still has every column in every row. */
  lemma KeepColumns(f: Frame, t: Tables, done: set<string>, c: string)
    requires WellFormed(f) && c in f.columns
    ensures forall r: Row :: r in PassThrough(f, t, done).rows ==> c in r
  {
    var e := PassThrough(f, t, done);
    forall r: Row | r in e.rows ensures c in r {
      var i :| 0 <= i < |e.rows| && e.rows[i] == r;
      assert f.rows[i] in f.rows;
    }
  }

  /** Encoding one more column, which has a table. */
  lemma KeepStep(f: Frame, t: Tables, done: set<string>, c: string)
    requires WellFormed(f) && c in t && c !in done && c in f.columns
    ensures forall r: Row :: r in PassThrough(f, t, done).rows ==> c in r
    ensures KeepColumn(PassThrough(f, t, done), c, t[c]) == PassThrough(f, t, done + {c})
  {
    KeepColumns(f, t, done, c);
    var e := PassThrough(f, t, done);
    var lhs := KeepColumn(e, c, t[c]);
    var rhs := PassThrough(f, t, done + {c});
    forall i | 0 <= i < |f.rows| ensures lhs.rows[i] == rhs.rows[i] {
      var row := f.rows[i];
      assert row in f.rows;
      assert e.rows[i] == KeepRow(row, t, done);
    }
  }

  /** Passing over a column that has no table. */
  lemma KeepSkip(f: Frame, t: Tables, done: set<string>, c: string)
    requires c !in t
    ensures PassThrough(f, t, done) == PassThrough(f, t, done + {c})
  {
    var lhs := PassThrough(f, t, done);
    var rhs := PassThrough(f, t, done + {c});
    forall i | 0 <= i < |f.rows| ensures lhs.rows[i] == rhs.rows[i] { }
  }

  /** The loop `for col in data_baru.columns: if col in label_mappings: ...`,
      rewriting the frame column by column. */
  method EncodeInput(data: Frame, labelMappings: Tables) returns (r: Frame)
    requires WellFormed(data)
    ensures r == EncodeKnown(data, labelMappings)
  {
    r := data;
    PassThroughNothing(data, labelMappings);
    assert Elems(data.columns[..0]) == {};
    var i := 0;
    while i < |data.columns|
      invariant 0 <= i <= |data.columns|
      invariant r == PassThrough(data, labelMappings, Elems(data.columns[..i]))
    {
      var col := data.columns[i];
      ghost var done := Elems(data.columns[..i]);
      ElemsPrefix(data.columns, i);
      if col in labelMappings {
        KeepStep(data, labelMappings, done, col);
        r := KeepColumn(r, col, labelMappings[col]);
      } else {
        KeepSkip(data, labelMappings, done, col);
      }
      i := i + 1;
    }
    assert data.columns[..i] == data.columns;
  }

  /** What the loop does to each cell: a column without a table is untouched;
      in a column with a table a known category becomes its code and any other
      value stays exactly as it was. Rows and columns stay. */
  lemma EncodeKnownCells(f: Frame, t: Tables, i: nat, c: string)
    requires WellFormed(f) && i < |f.rows| && c in f.columns
    ensures EncodeKnown(f, t).columns == f.columns && |EncodeKnown(f, t).rows| == |f.rows|
    ensures c in f.rows[i] && c in EncodeKnown(f, t).rows[i]
    ensures var v := f.rows[i][c]; var w := EncodeKnown(f, t).rows[i][c];
      && (c !in t ==> w == v)
      && (c in t && v.Str? && v.s in t[c] ==> w == Num(t[c][v.s] as real))
      && (c in t && !(v.Str? && v.s in t[c]) ==> w == v)
  {
    assert f.rows[i] in f.rows;
  }

  /** The pass-through rule is total: it never turns a present value into a
      missing one, so a cell of the result is missing exactly when the input
      cell was. */
  lemma EncodeKnownKeepsPresence(f: Frame, t: Tables, i: nat, c: string)
    requires WellFormed(f) && i < |f.rows| && c in f.columns
    ensures c in f.rows[i] && c in EncodeKnown(f, t).rows[i]
    ensures EncodeKnown(f, t).rows[i][c] == Missing <==> f.rows[i][c] == Missing
  {
    EncodeKnownCells(f, t, i, c);
  }

  lemma EncodeKnownNoMissing(f: Frame, t: Tables)
    requires WellFormed(f) && NoMissing(f)
    ensures NoMissing(EncodeKnown(f, t))
  {
    var e := EncodeKnown(f, t);
    forall r: Row, c: string | r in e.rows && c in r ensures r[c] != Missing {
      var i :| 0 <= i < |e.rows| && e.rows[i] == r;
      assert f.rows[i] in f.rows;
      EncodeKnownKeepsPresence(f, t, i, c);
    }
  }

  /** The front end and inference.py encode a cell alike exactly when the
      cell is not an unknown, present value of a column with a table; on such
      a value the front end keeps it and inference.py makes it missing. */
  lemma FrontEndAgreesWithInference(f: Frame, t: Tables, i: nat, c: string)
    requires WellFormed(f) && i < |f.rows| && c in f.columns
    ensures c in f.rows[i] && c in EncodeKnown(f, t).rows[i] && c in MapCategorical(f, t).rows[i]
    ensures var v := f.rows[i][c];
      var unknown := c in t && v != Missing && !(v.Str? && v.s in t[c]);
      && (EncodeKnown(f, t).rows[i][c] == MapCategorical(f, t).rows[i][c] <==> !unknown)
      && (unknown ==> EncodeKnown(f, t).rows[i][c] == v && MapCategorical(f, t).rows[i][c] == Missing)
  {
    EncodeKnownCells(f, t, i, c);
    assert f.rows[i] in f.rows;
    MapCategoricalCells(f, t, i, c);
  }

  // ---- the displayed label

  /** `"Not Canceled" if prediction[0] == 1 else "Canceled"`. */
  function DisplayLabel(code: int): (s: string)
    ensures s == "Not Canceled" <==> code == 1
    ensures s == "Not Canceled" || s == "Canceled"
  {
    if code == 1 then "Not Canceled" else "Canceled"
  }

  /** For a target column fitted on two categories `lo` < `hi`, the fixed
      label of the front end names `hi` exactly when inference.py decodes the
      code to `hi`; a code inference.py decodes to `lo`, or cannot decode and
      returns raw, is shown as "Canceled". */
  lemma DisplayAgreesWithDecode(values: seq<string>, lo: string, hi: string, code: int)
    requires DistinctValues(values) == {lo, hi} && Less(lo, hi)
    ensures var d := Decode(Invert(Fit(values)), code);
      && (DisplayLabel(code) == "Not Canceled" <==> d == Label(hi))
      && (d == Label(lo) <==> code == 0)
      && (d.RawCode? <==> code != 0 && code != 1)
      && (d.Label? || DisplayLabel(code) == "Canceled")
  {
    FitTwoValues(values, lo, hi);
    FitIsLabelTable(values);
    var m := Fit(values);
    LessIrreflexive(lo);
    assert lo != hi;
    assert |m| == 2 by {
      assert m.Keys == {lo} + {hi};
    }
    DecodeFitted(m, code);
    if code == 1 {
      assert Invert(m)[1] == hi;
    }
  }

  // ---- the prediction button

  /** The body of `if st.button(...)` in `main`: encode the form's record,
      scale the numeric columns (KeyError when one is not a field), classify
      the one row and choose the label. */
  method PredictBookingStatus(saved: Bundle, model: Row -> int, scaler: (string, Value) -> Value, form: Form)
    returns (r: Result<string>)
    requires ValidChoices(form)
    ensures var p := ScaleColumns(EncodeKnown(GetInputData(form), saved.labelMappings), saved.numericColumns, scaler);
      && (r.Err? <==> exists c :: c in saved.numericColumns && c !in FieldNames)
      && (r.Err? ==> r == Err(p.error))
      && (r.Ok? ==> p.Ok? && |p.value.rows| == 1 && r.value == DisplayLabel(model(p.value.rows[0])))
  {
    var data := GetInputData(form);
    data := EncodeInput(data, saved.labelMappings);
    var scaled := ScaleColumns(data, saved.numericColumns, scaler);
    if scaled.Err? {
      return Err(scaled.error);
    }
    var code := model(scaled.value.rows[0]);
    r := Ok(DisplayLabel(code));
  }
}
