/** How the three programs fit together through the saved artifact: the
    tables the trainer saves (Model/model.py) are the ones inference.py
    inverts and streamlit.py applies. */
module EndToEnd {
  import opened Frames
  import opened LabelEncoding
  import opened Model
  import opened Inference
  import opened App

  /** Every category of a saved table is given back by the reverse table
      inference.py builds from it. */
  lemma SavedRoundTrip(raw: Frame, c: string, k: string)
    requires Typed(raw) && BookingId in raw.columns
    requires c in TrainedBundle(raw).labelMappings && k in TrainedBundle(raw).labelMappings[c]
    ensures var t := TrainedBundle(raw).labelMappings;
      c in ReverseTables(t) && t[c][k] in ReverseTables(t)[c] && ReverseTables(t)[c][t[c][k]] == k
  {
    var t := TrainedBundle(raw).labelMappings;
    TrainedTables(raw);
    LabelTableIsInjective(t[c]);
    InvertRoundTrip(t[c], k);
  }

  /** Decoding through a saved table falls back to the raw code exactly for
      the codes outside 0..n-1, n being the size of the table, which is the
      number of categories the column had in the file (TrainedTables); any
      other code decodes to the category with it. */
  lemma SavedDecode(raw: Frame, c: string, code: int)
    requires Typed(raw) && BookingId in raw.columns
    requires c in TrainedBundle(raw).labelMappings
    ensures var t := TrainedBundle(raw).labelMappings;
      var d := Decode(ReverseTables(t)[c], code);
      && (d.RawCode? <==> !(0 <= code < |t[c]|))
      && (d.Label? ==> d.name in t[c] && t[c][d.name] == code)
  {
    var t := TrainedBundle(raw).labelMappings;
    TrainedTables(raw);
    DecodeFitted(t[c], code);
  }

  /** A row of the cleaned training frame, put through the categorical step
      of inference.py or of the front end with the saved tables, comes out
      as the trainer encoded it: no category of the training data is
      unknown to the tables. */
  lemma ServingMatchesTraining(raw: Frame, i: nat, c: string)
    requires Typed(raw) && BookingId in raw.columns
    requires i < |Cleaned(raw).rows| && c in Cleaned(raw).columns
    ensures var f := Cleaned(raw);
      var cat := SelectDtypes(raw, f.columns, false);
      var t := TrainedBundle(raw).labelMappings;
      && Covered(f, t, Elems(cat))
      && c in MapCategorical(f, t).rows[i] && c in EncodeKnown(f, t).rows[i]
      && c in Encoded(f, t, Elems(cat)).rows[i]
      && MapCategorical(f, t).rows[i][c] == Encoded(f, t, Elems(cat)).rows[i][c]
      && EncodeKnown(f, t).rows[i][c] == Encoded(f, t, Elems(cat)).rows[i][c]
  {
    var f := Cleaned(raw);
    var num := SelectDtypes(raw, f.columns, true);
    var cat := SelectDtypes(raw, f.columns, false);
    var t := TrainedBundle(raw).labelMappings;
    CleanedIsLoaded(raw);
    EncodedCells(f, num, cat, i, c);
    assert f.rows[i] in f.rows;
    MapCategoricalCells(f, t, i, c);
    EncodeKnownCells(f, t, i, c);
  }
}
