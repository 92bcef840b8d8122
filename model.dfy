/** Model/model.py: the training side of the label tables. `XGBoostTrainer`
    cleans the frame read from the CSV file, splits its columns by dtype,
    fits one LabelEncoder table per categorical column on the whole cleaned
    frame and rewrites those columns to codes, before any train/test split. */
module Model {
  import opened Frames
  import opened LabelEncoding

  /** The identifier column `load_data` drops. */
  const BookingId: string := "Booking_ID"

  // ---- load_data

  /** A row with no missing cell. */
  predicate Complete(r: Row)
  {
    forall c :: c in r ==> r[c] != Missing
  }

  /** `df.dropna()`: the rows with no missing cell (DropNaCounts adds that
      each is kept as often as the frame has it, DropNaConcat that they keep
      their order). */
  function DropNa(rows: seq<Row>): (kept: seq<Row>)
    ensures |rows| == 1 ==> kept == if Complete(rows[0]) then rows else []
    ensures forall r: Row :: r in kept <==> r in rows && Complete(r)
    ensures |kept| <= |rows|
  {
    if rows == [] then []
    else if Complete(rows[0]) then [rows[0]] + DropNa(rows[1..])
    else DropNa(rows[1..])
  }

  /** `dropna` keeps each complete row as often as the frame has it, and no
      other row. */
  lemma {:induction false} DropNaCounts(rows: seq<Row>)
    ensures forall r: Row :: multiset(DropNa(rows))[r] == if Complete(r) then multiset(rows)[r] else 0
  {
    if rows != [] {
      DropNaCounts(rows[1..]);
      assert rows == [rows[0]] + rows[1..];
    }
  }

  /** `dropna` works row by row: on two blocks of rows it keeps the kept
      rows of the first block followed by those of the second. With the
      one-row case in DropNa's contract this fixes the result completely,
      order and repeats included. */
  lemma {:induction false} DropNaConcat(a: seq<Row>, b: seq<Row>)
    ensures DropNa(a + b) == DropNa(a) + DropNa(b)
  {
    if a == [] {
      assert a + b == b;
    } else {
      var ab := a + b;
      assert ab != [] && ab[0] == a[0] && ab[1..] == a[1..] + b;
      DropNaConcat(a[1..], b);
      if Complete(a[0]) {
        assert DropNa(ab) == [a[0]] + DropNa(a[1..] + b);
        assert DropNa(a) == [a[0]] + DropNa(a[1..]);
        assert [a[0]] + (DropNa(a[1..]) + DropNa(b)) == ([a[0]] + DropNa(a[1..])) + DropNa(b);
      } else {
        assert DropNa(ab) == DropNa(a[1..] + b);
        assert DropNa(a) == DropNa(a[1..]);
      }
    }
  }

  lemma DistinctCons(x: string, s: seq<string>)
    requires x !in s && Distinct(s)
    ensures Distinct([x] + s)
  {
    var t := [x] + s;
    forall i, j | 0 <= i < j < |t| ensures t[i] != t[j] {
      if i == 0 { assert t[j] == s[j - 1]; assert s[j - 1] in s; }
      else { assert t[i] == s[i - 1] && t[j] == s[j - 1]; }
    }
  }

  lemma DistinctTail(s: seq<string>)
    requires s != [] && Distinct(s)
    ensures s[0] !in s[1..] && Distinct(s[1..])
  {
  }

  /** `names` without the label `c`. */
  function Without(names: seq<string>, c: string): (r: seq<string>)
    ensures forall x :: x in r <==> x in names && x != c
  {
    if names == [] then []
    else if names[0] == c then Without(names[1..], c)
    else [names[0]] + Without(names[1..], c)
  }

  lemma {:induction false} WithoutDistinct(names: seq<string>, c: string)
    requires Distinct(names)
    ensures Distinct(Without(names, c))
  {
    if names != [] {
      DistinctTail(names);
      WithoutDistinct(names[1..], c);
      if names[0] != c {
        DistinctCons(names[0], Without(names[1..], c));
      }
    }
  }

  /** `df.drop([c], axis=1)`: the column `c` goes from the column list and
      from every row; the rows stay as they are otherwise. */
  function DropColumn(f: Frame, c: string): (r: Frame)
    requires WellFormed(f)
    ensures WellFormed(r)
    ensures ColumnSet(r) == ColumnSet(f) - {c}
    ensures |r.rows| == |f.rows|
    ensures forall i :: 0 <= i < |f.rows| ==> r.rows[i] == f.rows[i] - {c}
  {
    var rows := seq(|f.rows|, i requires 0 <= i < |f.rows| => f.rows[i] - {c});
    var r := Frame(Without(f.columns, c), rows);
    WithoutDistinct(f.columns, c);
    forall row | row in rows ensures row.Keys == ColumnSet(r) {
      var i :| 0 <= i < |rows| && rows[i] == row;
      assert f.rows[i] in f.rows;
    }
    r
  }

  /** The dtype pandas gives column `c` of the frame read from the file: a
      number when the file had rows and the column holds no text (a column
      of only missing cells reads as float), text otherwise. `dropna` and
      `drop` keep the dtypes, so `select_dtypes` sees these. */
  predicate IsNumberColumn(raw: Frame, c: string)
  {
    |raw.rows| > 0 && forall r: Row :: r in raw.rows && c in r ==> !r[c].Str?
  }

  /** What `read_csv` produces: a well-formed frame each of whose columns
      holds only numbers or only text, apart from missing cells. */
  predicate Typed(raw: Frame)
  {
    && WellFormed(raw)
    && forall c :: c in raw.columns ==>
         (forall r: Row :: r in raw.rows && c in r ==> !r[c].Str?) ||
         (forall r: Row :: r in raw.rows && c in r ==> !r[c].Num?)
  }

  /** `select_dtypes(include=["number"])` when `number`, and
      `select_dtypes(exclude=["number"])` otherwise, over the labels `names`. */
  function SelectDtypes(raw: Frame, names: seq<string>, number: bool): (r: seq<string>)
    ensures forall c :: c in r <==> c in names && IsNumberColumn(raw, c) == number
  {
    if names == [] then []
    else if IsNumberColumn(raw, names[0]) != number then SelectDtypes(raw, names[1..], number)
    else [names[0]] + SelectDtypes(raw, names[1..], number)
  }

  lemma {:induction false} SelectDtypesDistinct(raw: Frame, names: seq<string>, number: bool)
    requires Distinct(names)
    ensures Distinct(SelectDtypes(raw, names, number))
  {
    if names != [] {
      DistinctTail(names);
      SelectDtypesDistinct(raw, names[1..], number);
      if IsNumberColumn(raw, names[0]) == number {
        DistinctCons(names[0], SelectDtypes(raw, names[1..], number));
      }
    }
  }

  /** `df.dropna().drop(["Booking_ID"], axis=1)`. */
  function Cleaned(raw: Frame): Frame
    requires WellFormed(raw)
  {
    DropColumn(Frame(raw.columns, DropNa(raw.rows)), BookingId)
  }

  /** The trainer's state after a successful `load_data`: a well-formed frame
      with no missing cell whose columns are split, without overlap, into
      numeric columns holding numbers and categorical columns holding text. */
  ghost predicate LoadedState(df: Frame, numericCols: seq<string>, catCols: seq<string>)
  {
    && WellFormed(df) && NoMissing(df)
    && Distinct(numericCols) && Distinct(catCols)
    && (forall c :: c in df.columns <==> c in numericCols || c in catCols)
    && (forall c :: c in numericCols ==> c !in catCols)
    && (forall r: Row, c: string :: r in df.rows && c in catCols ==> c in r && r[c].Str?)
    && (forall r: Row, c: string :: r in df.rows && c in numericCols ==> c in r && r[c].Num?)
  }

  /** Row `i` of the cleaned frame is a complete row of the file without
      its `Booking_ID` cell. */
  lemma CleanedRow(raw: Frame, i: nat)
    requires WellFormed(raw) && i < |Cleaned(raw).rows|
    ensures DropNa(raw.rows)[i] in raw.rows && Complete(DropNa(raw.rows)[i])
    ensures Cleaned(raw).rows[i] == DropNa(raw.rows)[i] - {BookingId}
  {
    assert DropNa(raw.rows)[i] in DropNa(raw.rows);
  }

  /** A cell of the cleaned frame is present, not missing, and of its
      column's dtype. */
  lemma CleanedCell(raw: Frame, i: nat, c: string)
    requires Typed(raw) && i < |Cleaned(raw).rows| && c in Cleaned(raw).columns
    ensures c in Cleaned(raw).rows[i] && Cleaned(raw).rows[i][c] != Missing
    ensures IsNumberColumn(raw, c) ==> Cleaned(raw).rows[i][c].Num?
    ensures !IsNumberColumn(raw, c) ==> Cleaned(raw).rows[i][c].Str?
  {
    var f := Cleaned(raw);
    CleanedRow(raw, i);
    var r0 := DropNa(raw.rows)[i];
    assert c in ColumnSet(f);
    assert c in raw.columns && c != BookingId;
    assert c in r0 && r0[c] == f.rows[i][c];
    if !IsNumberColumn(raw, c) {
      var w: Row :| w in raw.rows && c in w && w[c].Str?;
    }
  }

  /** The categorical columns of the cleaned frame are distinct and hold
      only text. */
  lemma CleanedTextColumns(raw: Frame)
    requires Typed(raw) && BookingId in raw.columns
    ensures var cat := SelectDtypes(raw, Cleaned(raw).columns, false);
      Distinct(cat) && forall c :: c in cat ==> TextColumn(Cleaned(raw), c)
  {
    CleanedIsLoaded(raw);
  }

  /** The cleaned frame keeps every column of the file but `Booking_ID`. */
  lemma CleanedColumns(raw: Frame)
    requires WellFormed(raw)
    ensures forall c :: c in Cleaned(raw).columns <==> c in raw.columns && c != BookingId
  {
    assert ColumnSet(Cleaned(raw)) == ColumnSet(raw) - {BookingId};
  }

  /** Every row of the cleaned frame is a complete row of the file without
      its `Booking_ID` cell: row `i` comes from the `i`-th row `dropna`
      keeps. */
  predicate RowsFromFile(raw: Frame)
    requires WellFormed(raw)
  {
    && |Cleaned(raw).rows| == |DropNa(raw.rows)|
    && forall i :: 0 <= i < |Cleaned(raw).rows| ==>
         DropNa(raw.rows)[i] in raw.rows && Complete(DropNa(raw.rows)[i]) &&
         Cleaned(raw).rows[i] == DropNa(raw.rows)[i] - {BookingId}
  }

  lemma CleanedRowsFromFile(raw: Frame)
    requires WellFormed(raw)
    ensures RowsFromFile(raw)
  {
    forall i | 0 <= i < |Cleaned(raw).rows|
      ensures DropNa(raw.rows)[i] in raw.rows && Complete(DropNa(raw.rows)[i])
      ensures Cleaned(raw).rows[i] == DropNa(raw.rows)[i] - {BookingId}
    {
      CleanedRow(raw, i);
    }
  }

  /** No cell of the cleaned frame is missing. */
  lemma CleanedNoMissing(raw: Frame)
    requires Typed(raw)
    ensures NoMissing(Cleaned(raw))
  {
    var f := Cleaned(raw);
    forall r: Row, c: string | r in f.rows && c in r ensures r[c] != Missing {
      var i :| 0 <= i < |f.rows| && f.rows[i] == r;
      assert c in ColumnSet(f);
      CleanedCell(raw, i, c);
    }
  }

  /** Each cleaned cell of a column has that column's dtype. */
  lemma CleanedDtypes(raw: Frame, number: bool)
    requires Typed(raw)
    ensures forall r: Row, c: string :: r in Cleaned(raw).rows && c in SelectDtypes(raw, Cleaned(raw).columns, number) ==>
      c in r && (if number then r[c].Num? else r[c].Str?)
  {
    var f := Cleaned(raw);
    var sel := SelectDtypes(raw, f.columns, number);
    forall r: Row, c: string | r in f.rows && c in sel ensures c in r && (if number then r[c].Num? else r[c].Str?) {
      var i :| 0 <= i < |f.rows| && f.rows[i] == r;
      CleanedCell(raw, i, c);
    }
  }

  /** load_data's promises: the cleaned frame has no `Booking_ID` column and
      no missing cell, every row kept is a complete row of the file, and the
      two column lists partition the remaining columns by dtype. */
  lemma CleanedIsLoaded(raw: Frame)
    requires Typed(raw) && BookingId in raw.columns
    ensures var f := Cleaned(raw);
      LoadedState(f, SelectDtypes(raw, f.columns, true), SelectDtypes(raw, f.columns, false))
    ensures BookingId !in Cleaned(raw).columns
    ensures ColumnSet(Cleaned(raw)) == ColumnSet(raw) - {BookingId}
    ensures RowsFromFile(raw)
  {
    var f := Cleaned(raw);
    SelectDtypesDistinct(raw, f.columns, true);
    SelectDtypesDistinct(raw, f.columns, false);
    CleanedRowsFromFile(raw);
    CleanedNoMissing(raw);
    CleanedDtypes(raw, true);
    CleanedDtypes(raw, false);
  }

  // ---- encode_data

  /** Every cell of column `c` is text. */
  predicate TextColumn(f: Frame, c: string)
  {
    forall r: Row :: r in f.rows ==> c in r && r[c].Str?
  }

  /** The values of text column `c`, row by row. */
  function ColumnStrings(f: Frame, c: string): (vals: seq<string>)
    requires TextColumn(f, c)
    ensures |vals| == |f.rows|
    ensures forall i :: 0 <= i < |f.rows| ==> vals[i] == f.rows[i][c].s
  {
    seq(|f.rows|, i requires 0 <= i < |f.rows| => assert f.rows[i] in f.rows; f.rows[i][c].s)
  }

  /** One LabelEncoder table per listed column, fitted on the whole frame. */
  function FitTables(f: Frame, cols: seq<string>): Tables
    requires forall c :: c in cols ==> TextColumn(f, c)
  {
    map c | c in cols :: Fit(ColumnStrings(f, c))
  }

  /** Cells of `cols` have a code in `t`. */
  predicate Covered(f: Frame, t: Tables, cols: set<string>)
  {
    forall r: Row, c: string :: r in f.rows && c in cols ==> c in r && c in t && r[c].Str? && r[c].s in t[c]
  }

  /** `row` with each column of `cols` replaced by the code of its value. */
  function EncodeRow(row: Row, t: Tables, cols: set<string>): Row
    requires forall c :: c in cols && c in row ==> c in t && row[c].Str? && row[c].s in t[c]
  {
    map c | c in row :: if c in cols then Num(t[c][row[c].s] as real) else row[c]
  }

  /** The frame with the columns `cols` rewritten through the tables `t`. */
  function Encoded(f: Frame, t: Tables, cols: set<string>): Frame
    requires Covered(f, t, cols)
  {
    Frame(f.columns, seq(|f.rows|, i requires 0 <= i < |f.rows| =>
      assert f.rows[i] in f.rows; EncodeRow(f.rows[i], t, cols)))
  }

  /** `df[c] = le.fit_transform(df[c])` with the fitted table `table`. */
  function TransformColumn(f: Frame, c: string, table: map<string, int>): Frame
    requires forall r: Row :: r in f.rows ==> c in r && r[c].Str? && r[c].s in table
  {
    Frame(f.columns, seq(|f.rows|, i requires 0 <= i < |f.rows| =>
      assert f.rows[i] in f.rows; f.rows[i][c := Num(table[f.rows[i][c].s] as real)]))
  }

  /** Tables fitted on the frame give a code to every one of its cells. */
  lemma FitTablesCover(f: Frame, cols: seq<string>)
    requires forall c :: c in cols ==> TextColumn(f, c)
    ensures Covered(f, FitTables(f, cols), Elems(cols))
  {
    var t := FitTables(f, cols);
    forall r: Row, c: string | r in f.rows && c in cols ensures c in r && r[c].Str? && r[c].s in t[c] {
      var i :| 0 <= i < |f.rows| && f.rows[i] == r;
      var vals := ColumnStrings(f, c);
      assert vals[i] in vals;
    }
  }

  /** The tables of `t` for the columns in `cols`. */
  function Restrict(t: Tables, cols: set<string>): Tables
  {
    map c | c in cols && c in t :: t[c]
  }

  lemma RestrictAll(t: Tables, cols: set<string>)
    requires t.Keys == cols
    ensures Restrict(t, cols) == t
  {
  }

  /** Recording the table of one more column. */
  lemma RestrictStep(m0: Tables, t: Tables, done: set<string>, c: string)
    requires c in t
    ensures (m0 + Restrict(t, done))[c := t[c]] == m0 + Restrict(t, done + {c})
  {
    assert Restrict(t, done + {c}) == Restrict(t, done)[c := t[c]];
  }

  /** Encoding no column changes nothing. */
  lemma EncodedNothing(f: Frame, t: Tables)
    ensures Encoded(f, t, {}) == f
  {
    var e := Encoded(f, t, {});
    forall i | 0 <= i < |f.rows| ensures e.rows[i] == f.rows[i] {
      assert f.rows[i] in f.rows;
    }
  }

  /** One turn of the encode_data loop: rewriting one more column of the
      partly encoded frame gives the frame encoded on one more column. */
  lemma EncodeStep(f: Frame, t: Tables, done: set<string>, c: string)
    requires Covered(f, t, done + {c}) && c !in done && c in t
    ensures TextColumn(Encoded(f, t, done), c)
    ensures forall r: Row :: r in Encoded(f, t, done).rows ==> c in r && r[c].Str? && r[c].s in t[c]
    ensures TextColumn(f, c) && ColumnStrings(Encoded(f, t, done), c) == ColumnStrings(f, c)
    ensures TransformColumn(Encoded(f, t, done), c, t[c]) == Encoded(f, t, done + {c})
  {
    var e := Encoded(f, t, done);
    forall r: Row | r in e.rows ensures c in r && r[c].Str? && r[c].s in t[c] {
      var i :| 0 <= i < |e.rows| && e.rows[i] == r;
      assert f.rows[i] in f.rows;
    }
    forall r: Row | r in f.rows ensures c in r && r[c].Str? { }
    assert ColumnStrings(e, c) == ColumnStrings(f, c) by {
      forall i | 0 <= i < |f.rows| ensures e.rows[i][c] == f.rows[i][c] {
        assert f.rows[i] in f.rows;
      }
    }
    var lhs := TransformColumn(e, c, t[c]);
    var rhs := Encoded(f, t, done + {c});
    forall i | 0 <= i < |f.rows| ensures lhs.rows[i] == rhs.rows[i] {
      assert f.rows[i] in f.rows;
    }
  }

  /** Turn `i` of the encode_data loop over the columns `cols`, fitted on
      the frame `f0` as it was before the loop, `done` being the columns
      already rewritten: column `cols[i]` still holds its original text, its
      table is the one fitted on the original frame, and rewriting it
      extends both the encoding and the recorded tables by that one
      column. */
  lemma EncodeTurn(f0: Frame, m0: Tables, cols: seq<string>, i: nat, done: set<string>, df: Frame, lm: Tables)
    requires Distinct(cols) && i < |cols| && done == Elems(cols[..i])
    requires forall c :: c in cols ==> TextColumn(f0, c)
    requires Covered(f0, FitTables(f0, cols), done)
    requires df == Encoded(f0, FitTables(f0, cols), done)
    requires lm == m0 + Restrict(FitTables(f0, cols), done)
    ensures Elems(cols[..i + 1]) == done + {cols[i]}
    ensures Covered(f0, FitTables(f0, cols), done + {cols[i]})
    ensures TextColumn(df, cols[i])
    ensures forall r: Row :: r in df.rows ==> cols[i] in r && r[cols[i]].Str? && r[cols[i]].s in Fit(ColumnStrings(df, cols[i]))
    ensures TransformColumn(df, cols[i], Fit(ColumnStrings(df, cols[i])))
      == Encoded(f0, FitTables(f0, cols), done + {cols[i]})
    ensures lm[cols[i] := Fit(ColumnStrings(df, cols[i]))] == m0 + Restrict(FitTables(f0, cols), done + {cols[i]})
  {
    var t := FitTables(f0, cols);
    var c := cols[i];
    FitTablesCover(f0, cols);
    ElemsPrefix(cols, i);
    EncodeStep(f0, t, done, c);
    RestrictStep(m0, t, done, c);
  }

  /** What encode_data leaves in each cell of a loaded frame: a numeric
      column is unchanged; a categorical cell holds the code its original
      text has in the table fitted on that column, which lies in 0..n-1 for
      the n distinct values of the column; and every cell is a number. */
  lemma EncodedCells(f: Frame, num: seq<string>, cat: seq<string>, i: nat, c: string)
    requires LoadedState(f, num, cat) && i < |f.rows| && c in f.columns
    ensures Covered(f, FitTables(f, cat), Elems(cat))
    ensures var t := FitTables(f, cat); var e := Encoded(f, t, Elems(cat));
      && e.columns == f.columns && |e.rows| == |f.rows|
      && c in f.rows[i] && c in e.rows[i] && e.rows[i][c].Num?
      && (c in num ==> e.rows[i][c] == f.rows[i][c])
      && (c in cat ==>
           && t[c] == Fit(ColumnStrings(f, c))
           && e.rows[i][c] == Num(t[c][f.rows[i][c].s] as real)
           && 0 <= t[c][f.rows[i][c].s] < |DistinctValues(ColumnStrings(f, c))|)
  {
    FitTablesCover(f, cat);
    assert f.rows[i] in f.rows;
    if c in cat {
      FitCoversColumn(ColumnStrings(f, c), i);
    }
  }

  /** The tables are fitted on the whole cleaned frame, so whichever rows
      the train/test split puts on either side, each of their categorical
      values has a code. */
  lemma SplitCovered(f: Frame, cat: seq<string>, part: seq<Row>)
    requires forall c :: c in cat ==> TextColumn(f, c)
    requires forall r: Row :: r in part ==> r in f.rows
    ensures Covered(Frame(f.columns, part), FitTables(f, cat), Elems(cat))
  {
    FitTablesCover(f, cat);
  }

  class XGBoostTrainer {
    const targetColumn: string
    var df: Frame
    var numericCols: seq<string>
    var catCols: seq<string>
    var labelMappings: Tables

    constructor (targetColumn: string)
      ensures this.targetColumn == targetColumn
      ensures df == Frame([], []) && numericCols == [] && catCols == []
      ensures labelMappings == map[]
    {
      this.targetColumn := targetColumn;
      df := Frame([], []);
      numericCols := [];
      catCols := [];
      labelMappings := map[];
    }

    ghost predicate Loaded()
      reads this
    {
      LoadedState(df, numericCols, catCols)
    }

    /** `load_data` on the frame `read_csv` returned. Without a `Booking_ID`
        column, `drop` raises KeyError after `self.df` already holds the
        frame without missing rows, and the column lists are not set. */
    method LoadData(raw: Frame) returns (out: Outcome)
      requires Typed(raw)
      modifies this`df, this`numericCols, this`catCols
      ensures out == if BookingId in raw.columns then Pass else Fail(KeyError(BookingId))
      ensures out.Fail? ==> df == Frame(raw.columns, DropNa(raw.rows))
      ensures out.Fail? ==> numericCols == old(numericCols) && catCols == old(catCols)
      ensures out.Pass? ==> df == Cleaned(raw) && Loaded()
      ensures out.Pass? ==> numericCols == SelectDtypes(raw, df.columns, true)
      ensures out.Pass? ==> catCols == SelectDtypes(raw, df.columns, false)
    {
      df := Frame(raw.columns, DropNa(raw.rows));
      if BookingId !in df.columns {
        return Fail(KeyError(BookingId));
      }
      df := DropColumn(df, BookingId);
      numericCols := SelectDtypes(raw, df.columns, true);
      catCols := SelectDtypes(raw, df.columns, false);
      CleanedIsLoaded(raw);
      out := Pass;
    }

    /** `encode_data`: for each categorical column in turn, fit a table on
        the column, rewrite the column to codes and record the table. */
    method EncodeData()
      requires Distinct(catCols) && forall c :: c in catCols ==> TextColumn(df, c)
      modifies this`df, this`labelMappings
      ensures Covered(old(df), FitTables(old(df), catCols), Elems(catCols))
      ensures df == Encoded(old(df), FitTables(old(df), catCols), Elems(catCols))
      ensures labelMappings == old(labelMappings) + FitTables(old(df), catCols)
    {
      var f0 := df;
      var m0 := labelMappings;
      var cols := catCols;
      ghost var t := FitTables(f0, cols);
      EncodedNothing(f0, t);
      ghost var done: set<string> := {};
      assert done == Elems(cols[..0]);
      var frame, mappings := f0, m0;
      var i := 0;
      while i < |cols|
        invariant 0 <= i <= |cols| && done == Elems(cols[..i])
        invariant Covered(f0, t, done)
        invariant frame == Encoded(f0, t, done)
        invariant mappings == m0 + Restrict(t, done)
      {
        var c := cols[i];
        EncodeTurn(f0, m0, cols, i, done, frame, mappings);
        var table := Fit(ColumnStrings(frame, c));
        frame := TransformColumn(frame, c, table);
        mappings := mappings[c := table];
        done := done + {c};
        i := i + 1;
      }
      assert cols[..i] == cols;
      assert done == t.Keys;
      RestrictAll(t, done);
      FitTablesCover(f0, cols);
      assert Covered(f0, FitTables(f0, cols), Elems(cols));
      df, labelMappings := frame, mappings;
      assert catCols == cols && old(df) == f0;
      assert Covered(old(df), FitTables(old(df), catCols), Elems(catCols));
    }
  }

  /** The tables and column list the trainer saves for a file `raw`. */
  function TrainedBundle(raw: Frame): Bundle
    requires Typed(raw) && BookingId in raw.columns
  {
    CleanedTextColumns(raw);
    var f := Cleaned(raw);
    Bundle(SelectDtypes(raw, f.columns, true), FitTables(f, SelectDtypes(raw, f.columns, false)))
  }

  /** The saved tables: one for each text column of the file other than
      `Booking_ID`, each numbering exactly the distinct values of its column
      0..n-1 in sorted order. The numeric columns are the other columns. */
  lemma TrainedTables(raw: Frame)
    requires Typed(raw) && BookingId in raw.columns
    ensures var b := TrainedBundle(raw);
      && (forall c :: c in b.labelMappings <==> c in raw.columns && c != BookingId && !IsNumberColumn(raw, c))
      && (forall c :: c in b.numericColumns <==> c in raw.columns && c != BookingId && IsNumberColumn(raw, c))
      && (forall c :: c in b.labelMappings ==>
           && TextColumn(Cleaned(raw), c)
           && b.labelMappings[c].Keys == DistinctValues(ColumnStrings(Cleaned(raw), c))
           && IsLabelTable(b.labelMappings[c]))
  {
    CleanedIsLoaded(raw);
    CleanedColumns(raw);
    var t := TrainedBundle(raw).labelMappings;
    forall c | c in t ensures IsLabelTable(t[c]) {
      FitIsLabelTable(ColumnStrings(Cleaned(raw), c));
    }
  }

  /** The bundle built from the lists `load_data` computes and the tables
      `encode_data` records. */
  lemma TrainedBundleIs(raw: Frame, b: Bundle)
    requires Typed(raw) && BookingId in raw.columns
    requires forall c :: c in SelectDtypes(raw, Cleaned(raw).columns, false) ==> TextColumn(Cleaned(raw), c)
    requires b.numericColumns == SelectDtypes(raw, Cleaned(raw).columns, true)
    requires b.labelMappings == FitTables(Cleaned(raw), SelectDtypes(raw, Cleaned(raw).columns, false))
    ensures b == TrainedBundle(raw)
  {
  }

  lemma EmptyUnion(t: Tables)
    ensures map[] + t == t
  {
  }

  /** The first steps of the `__main__` block: load, encode, then the
      target lookup in `defineXnY`, which raises KeyError when the target
      is not a column. The later steps are not modelled, so an `Ok` says
      only that these steps succeed and which tables `save_model` writes. */
  method Train(raw: Frame, targetColumn: string) returns (r: Result<Bundle>)
    requires Typed(raw)
    ensures r.Ok? <==> BookingId in raw.columns && targetColumn in raw.columns && targetColumn != BookingId
    ensures r.Err? ==> r.error == KeyError(if BookingId in raw.columns then targetColumn else BookingId)
    ensures r.Ok? ==> r.value == TrainedBundle(raw)
  {
    var trainer := new XGBoostTrainer(targetColumn);
    var loaded := trainer.LoadData(raw);
    if loaded.Fail? {
      return Err(loaded.error);
    }
    r := EncodeAndCollect(trainer, raw);
  }

  /** The steps of `__main__` after a successful `load_data`. */
  method EncodeAndCollect(trainer: XGBoostTrainer, raw: Frame) returns (r: Result<Bundle>)
    requires Typed(raw) && BookingId in raw.columns
    requires trainer.labelMappings == map[] && trainer.df == Cleaned(raw)
    requires trainer.numericCols == SelectDtypes(raw, trainer.df.columns, true)
    requires trainer.catCols == SelectDtypes(raw, trainer.df.columns, false)
    modifies trainer`df, trainer`labelMappings
    ensures r.Ok? <==> trainer.targetColumn in raw.columns && trainer.targetColumn != BookingId
    ensures r.Err? ==> r.error == KeyError(trainer.targetColumn)
    ensures r.Ok? ==> r.value == TrainedBundle(raw)
  {
    CleanedTextColumns(raw);
    CleanedColumns(raw);
    ghost var columns := trainer.df.columns;
    trainer.EncodeData();
    assert trainer.df.columns == columns;
    if trainer.targetColumn !in trainer.df.columns {
      return Err(KeyError(trainer.targetColumn));
    }
    EmptyUnion(FitTables(Cleaned(raw), trainer.catCols));
    r := Ok(Bundle(trainer.numericCols, trainer.labelMappings));
    TrainedBundleIs(raw, r.value);
  }
}
