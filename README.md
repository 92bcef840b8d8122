# Hotel booking status: the categorical label tables

This project models the part of the hotel-booking prediction repository that
the repository itself owns: the tables that turn each categorical column's
text values into integer codes and turn codes back into text.

- **Training** (`Model/model.py`). `XGBoostTrainer.load_data` cleans the
  frame read from the CSV file: it drops rows with a missing cell, then the
  `Booking_ID` column. It then splits the remaining columns by dtype into
  numeric and categorical. `encode_data` fits one scikit-learn
  `LabelEncoder` per categorical column on the whole cleaned frame. It
  rewrites the column to codes and records the category->code table. This
  happens before the train/test split. The `__main__` block runs load,
  encode, then the target lookup of `defineXnY`.
- **Inference** (`inference.py`). `XGBoostInference.__init__` inverts every
  table into a code->category table. `preprocess_input` remaps the
  categorical columns of a copy of the input and scales the numeric ones.
  `predict` classifies the first row and decodes the code through the target
  column's reverse table, returning the raw code when the table has no entry
  for it.
- **Front end** (`streamlit.py`). `get_input_data` builds a one-row record of
  17 fields from the form widgets. The prediction button encodes it with the
  saved tables, keeping any value a table does not know. It then scales,
  classifies and shows "Not Canceled" for code 1 and "Canceled" for any
  other code.

Modules:

- `Frames`: cells, rows, frames, errors, and the abstract scaling step.
- `StrOrder`: Python's order on `str`.
- `LabelEncoding`: the `LabelEncoder` contract. The code of a category is the
  number of distinct categories that sort before it.
- `Model`: the trainer class.
- `Inference`: the inference class.
- `App`: the front end.
- `EndToEnd`: lemmas that join the saved tables to their two consumers.

A frame is a value: its column labels plus rows mapping a label to
`Num`, `Str` or `Missing`. The trainer is a class whose methods reassign its
fields. `preprocess_input` and the front-end loop rewrite a local frame
column by column in a `while` loop, each proved against a specification
function.

The model follows the code in three places a reader might not expect:

- A category missing from a table becomes a missing cell in
  `preprocess_input`, because pandas `map` with a dict gives NaN. It does
  not raise an error. The front end keeps the value unchanged.
- `load_data` drops incomplete rows before it drops `Booking_ID`, so a row
  whose only missing cell is its `Booking_ID` is dropped too.
- A missing `Booking_ID` column makes `drop` raise `KeyError`. A missing
  target column is found only later, by `defineXnY`, also as `KeyError`.

## Model

| member | source | states |
|---|---|---|
| LabelEncoding.Fit | Model/model.py:30-33 | the table's keys are exactly the distinct values of the column it is fitted on |
| LabelEncoding.FitIsLabelTable | Model/model.py:31-33 | a fitted table numbers its n categories 0..n-1 in sorted `str` order, using every code in that range |
| LabelEncoding.LabelTableIsInjective | Model/model.py:33 | an order-following table gives distinct categories distinct codes |
| LabelEncoding.FitCoversColumn | Model/model.py:31 | every value of the fitted column has a code, lying in 0..n-1 |
| LabelEncoding.FitTwoValues | Model/model.py:31-33 | a two-valued column gets code 0 for the smaller category and 1 for the larger |
| Model.DropNa | Model/model.py:22 | `dropna` keeps exactly the rows with no missing cell and never adds rows; a single row is kept iff it is complete |
| Model.DropNaCounts | Model/model.py:22 | each complete row is kept as many times as the file has it, and no incomplete row is kept |
| Model.DropNaConcat | Model/model.py:22 | `dropna` of two blocks of rows is the `dropna` of the first followed by that of the second, so kept rows stay in file order |
| Model.DropColumn | Model/model.py:23 | dropping a column removes exactly that label from the columns and from every row and keeps the row count |
| Model.SelectDtypes | Model/model.py:25-26 | a column is listed iff it is a frame column whose dtype is (or, for `exclude`, is not) numeric |
| Model.CleanedColumns | Model/model.py:22-23 | the cleaned frame has every column of the file except `Booking_ID` |
| Model.CleanedRowsFromFile | Model/model.py:22-23 | row i of the cleaned frame is the i-th row `dropna` keeps, a complete file row, without its `Booking_ID` cell |
| Model.CleanedNoMissing | Model/model.py:22-23 | no cell of the cleaned frame is missing |
| Model.CleanedDtypes | Model/model.py:25-26 | every cleaned cell of a column listed as numeric is a number, and of one listed as non-numeric is text |
| Model.CleanedIsLoaded | Model/model.py:22-26 | after cleaning: no `Booking_ID`, no missing cell, every row a complete file row minus its id; numeric and categorical lists are duplicate-free, disjoint, cover all columns, and hold numbers and text respectively |
| Model.XGBoostTrainer.constructor | Model/model.py:9-15 | the trainer starts with the target column and an empty table dictionary |
| Model.XGBoostTrainer.LoadData | Model/model.py:17-26 | succeeds iff `Booking_ID` is a column; on success the frame is the cleaned file and the column lists are the dtype partition; on failure the frame holds the rows without missing cells and the lists are untouched |
| Model.XGBoostTrainer.EncodeData | Model/model.py:28-33 | the frame becomes the encoding of the old frame through tables fitted on it, and one table per categorical column is added to the dictionary |
| Model.FitTablesCover | Model/model.py:29-33 | tables fitted on a frame give a code to each of its categorical cells |
| Model.EncodedCells | Model/model.py:29-33 | after encoding, numeric cells are unchanged and each categorical cell is the code in 0..n-1 of its original text; every cell is a number |
| Model.SplitCovered | Model/model.py:76-78 | whatever rows either side of the split receives, all their categorical values have codes |
| Model.TrainedTables | Model/model.py:25-33 | the saved tables are keyed by exactly the text columns other than `Booking_ID`, each keyed by the column's distinct values and numbered 0..n-1 in order; `numeric_columns` are the other columns |
| Model.EncodeAndCollect | Model/model.py:75-77 | after loading, encoding succeeds and the target lookup fails with KeyError iff the target is not a cleaned column; the bundle is the tables fitted on the cleaned frame |
| Model.Train | Model/model.py:73-77 | load, encode and the target lookup of `defineXnY` succeed iff the file has `Booking_ID` and a different target column; otherwise KeyError of the first missing one; on success the tables are those `save_model` writes |
| Frames.ScaleColumns | inference.py:27 | KeyError iff a listed numeric column is absent (naming one); otherwise only the listed columns change, cell by cell through the scaler, and shape is kept |
| Frames.Absent | inference.py:27 | lists exactly the wanted labels that are not frame columns |
| Inference.Invert | inference.py:13 | inverse defined on exactly the codes in use; each entry maps back to a category with that code; with shared codes the greatest key is kept |
| Inference.ReverseTables | inference.py:13 | one reverse table per column of `label_mappings`, each defined on exactly the codes of the forward table |
| Inference.InvertRoundTrip | inference.py:13 | with distinct codes, `reverse[mapping[k]] == k` for every category |
| Inference.InvertLabelTable | inference.py:13 | the inverse of a fitted table covers exactly 0..n-1 and is one-to-one |
| Inference.DecodeEncoded | inference.py:34 | decoding a category's code gives back the category |
| Inference.DecodeFitted | inference.py:34 | through a fitted table, decoding returns the raw code exactly for codes outside 0..n-1, otherwise the category with that code |
| Inference.MapCategoricalCells | inference.py:20-23 | columns without a table are untouched; known categories become their codes; any other value becomes missing; shape is kept |
| Inference.XGBoostInference.constructor | inference.py:5-15 | fields are the saved lists and tables, and the reverse tables are their inversion |
| Inference.XGBoostInference.PreprocessInput | inference.py:17-28 | the result is the scaling of the input with every column that has a table remapped; the input value is not changed |
| Inference.XGBoostInference.Predict | inference.py:30-35 | preprocessing errors propagate; KeyError when the target has no reverse table; IndexError on no rows; otherwise the decoded prediction for the first row |
| App.FieldsSplit | streamlit.py:33-51 | the 17 record fields are distinct and are the number-input fields plus the select-box fields, with no overlap |
| App.GetInputData | streamlit.py:14-53 | one row with exactly the 17 fields in order and no missing cell; each select-box field holds the option chosen in its own widget and each number field the number entered in its own widget |
| App.EncodeInput | streamlit.py:135-137 | the loop's result is the frame with every column that has a table encoded under the pass-through rule |
| App.EncodeKnownCells | streamlit.py:135-137 | columns without a table are untouched; known categories become their codes; unknown values stay exactly as they were |
| App.EncodeKnownKeepsPresence | streamlit.py:137 | a result cell is missing iff the input cell was |
| App.EncodeKnownNoMissing | streamlit.py:137 | an input with no missing cell gives an encoding with no missing cell |
| App.FrontEndAgreesWithInference | streamlit.py:135-137 | the front end and `preprocess_input` (inference.py:23) agree on a cell iff it is not an unknown present value of a mapped column; there the front end keeps it and inference makes it missing |
| App.DisplayLabel | streamlit.py:143-146 | the label is "Not Canceled" iff the code is 1, and otherwise "Canceled" |
| App.DisplayAgreesWithDecode | streamlit.py:143-146 | for a target fitted on two categories lo < hi, the label is "Not Canceled" iff decoding gives hi; codes decoding to lo or falling back raw show "Canceled" |
| App.PredictBookingStatus | streamlit.py:134-148 | fails iff a saved numeric column is not a record field; otherwise shows the label of the classifier's code for the encoded, scaled record |
| EndToEnd.SavedRoundTrip | inference.py:13 | a reverse table built from the training tables gives back every category from its code |
| EndToEnd.SavedDecode | inference.py:34 | through a trained table, decoding falls back to the raw code exactly outside 0..n-1, otherwise it yields the category with that code |
| EndToEnd.ServingMatchesTraining | inference.py:20-23 | a training row put through inference's or the front end's categorical step comes out as the trainer encoded it |

## Left out

- File handling is not modelled: CSV reading, pickle load and save, console output. The frame read from the file is a parameter, and so is the saved bundle.
- `Typed`: the shapes pandas `read_csv` produces are a precondition (each column all numbers or all text apart from missing cells), not modelled from the file.
- Standard scaling is an opaque function of column and value, applied to `numeric_columns` only. This covers `split_data` and `scaling` (Model/model.py:39-47), inference.py:27 and streamlit.py:139. Means, deviations and floating point are not modelled.
- The classifier is an opaque function from a preprocessed row to an integer code. XGBoost training and evaluation metrics are not modelled.
- `train_test_split` and its seed are not modelled. SplitCovered states the covering property for any choice of rows.
- `defineXnY` is modelled only through its target-column lookup. Building `X` and `y` is not modelled.
- Model.Train: the steps after the target lookup are not modelled, so two ways the Python run still fails are not part of the contract. A numeric target is listed in `numeric_cols` but dropped from `X`, so `scaling` raises KeyError (Model/model.py:25, 36, 46). A cleaned frame with fewer than two rows makes `train_test_split` raise ValueError (Model/model.py:40). In both cases `Train` returns the tables.
- `label_encoders` (the fitted encoder objects) are not modelled. Only the tables they produce are.
- Numbers are reals: integer widths, NumPy dtypes and float formatting are not modelled.
- Inference.Invert: Python keeps the last key inserted among keys sharing a code. The model keeps the greatest key by `str` order. The two agree for tables inserted in ascending order, which every trained table is. For other hand-made non-injective tables the choice may differ.
- Inference.XGBoostInference.PreprocessInput: the `except`/`ValueError` branch of inference.py:24-25 is not modelled. Mapping a cell through a dict never raises here, so the branch is unreachable in the model.
- Inference.XGBoostInference.Predict: the model takes a `KeyError` for the target before an `IndexError`, following Python's evaluation order. Prediction on zero rows is assumed to give zero codes.
- Streamlit widgets, their bounds and defaults, CSS, tabs and the description page are not modelled. The form's values are a parameter, and a select box is modelled by the index of the chosen option.
