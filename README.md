# Claim-charge prediction: request path

A Dafny model of the request path of a Streamlit decision-support page for
motor-insurance claims. When the user presses the predict button, the page
builds a one-row table from five form values. Two radio labels become 0/1
flags. The row is aligned against the column order the regressor was trained
on. The regressor's answer, truncated to an integer, is shown as a grouped
amount in dirhams ("95 000 DH") together with an advisory for its risk tier.

The model has four modules:

- `Encoding` (encoding.dfy): the label flags, the row dictionary, the fixed
  training columns and the `reindex(columns=…, fill_value=0)` alignment. The
  row is a `map<string, int>` and the aligned vector a `seq<int>`.
- `Tiering` (tiering.dfy): the three tiers, the if/elif/else chain on the
  charge and the message shown for each tier.
- `Formatting` (formatting.dfy): `f"{n:,} DH".replace(',', ' ')`. This is the
  "," thousands option of Python's format-spec mini-language (PEP 378),
  then the comma-to-space replacement. It also holds a small decimal parser
  used to state the round trip.
- `Pipeline` (pipeline.dfy): the whole request. The regressor is a parameter
  `predict: seq<int> -> int` that stands for `model.predict` followed by
  `int(...)`.

The radio offers "Urbaine"/"Rurale" and the code compares with "Urbaine"
(app.py:96), so an English "Urban" encodes as 0
(`Encoding.FlagsRejectOtherLabels`).

## Model

| member | source | states |
|---|---|---|
| `Encoding.DriverFlag` | app.py:95 | The driver flag is 0 or 1, and it is 1 exactly when the label equals "Principal". |
| `Encoding.ZoneFlag` | app.py:96 | The zone flag is 0 or 1, and it is 1 exactly when the label equals "Urbaine". |
| `Encoding.FlagsRejectOtherLabels` | app.py:95-96 | "Occasionnel", case variants of "Principal", "Rurale", "Urban" and "urbaine" all encode as 0. |
| `Encoding.InputRow` | app.py:91-97 | The dictionary built from the form has exactly the five training column names as keys. |
| `Encoding.Reindex` | app.py:101 | The aligned row has one entry per requested column. Entry i holds the row's value for column i, or 0 when the row lacks that column. |
| `Encoding.ReindexIgnoresExtraColumn` | app.py:101 | Adding, changing or removing a column that is not requested leaves the aligned row unchanged. |
| `Encoding.ReindexRestrict` | app.py:101 | Restricting the row to the requested columns leaves the aligned row unchanged. |
| `Encoding.Encode` | app.py:91-101 | The feature vector has one entry per requested column. A column named after one of the five inputs holds that input (the flag for a label), and any other column holds 0. |
| `Encoding.EncodeTrainingColumns` | app.py:91-101 | With the fixed training columns, the feature vector is [value, age, power, driver flag, zone flag]. |
| `Encoding.EncodeExampleRequest` | app.py:91-101 | (250000, 5, 8, "Principal", "Urbaine") encodes to [250000, 5, 8, 1, 1]. |
| `Tiering.Classify` | app.py:112-117 | High exactly when the charge is above 200000. Watch exactly when it is above 80000 and at most 200000. Standard exactly when it is at most 80000. |
| `Tiering.RankCountsThresholds` | app.py:112-117 | A tier's rank (Standard 0, Watch 1, High 2) equals the number of thresholds (80000, 200000) the charge exceeds. |
| `Tiering.ClassifyBoundaries` | app.py:112-117 | 200001 is High, 200000 and 80001 are Watch, 80000 and 0 are Standard. |
| `Tiering.ClassifyMonotone` | app.py:112-117 | A larger charge never gets a lower tier. |
| `Tiering.AdvisoryFor` | app.py:112-117 | An error box exactly for High, a warning exactly for Watch, a success box exactly for Standard. |
| `Formatting.Digits` | app.py:109 | The decimal digits are non-empty, all digit characters, and start with '0' only for zero. |
| `Formatting.DigitsRoundTrip` | app.py:109 | Reading the decimal digits of n gives n back. |
| `Formatting.CanonicalDigits` | app.py:109 | A digit string without a leading zero is the decimal form of the number it reads as. |
| `Formatting.GroupLength` | app.py:109 | Grouping n digits gives n + (n-1)/3 characters, a length that is not a multiple of 4, so the leading group has 1 to 3 digits. |
| `Formatting.GroupShape` | app.py:109 | A separator stands exactly at every fourth position from the end of the grouped digits. |
| `Formatting.GroupContents` | app.py:109 | Removing the separators from the grouped digits gives the digits back. |
| `Formatting.GroupDigits` | app.py:109 | Grouping adds no character other than the separator. |
| `Formatting.GroupReplace` | app.py:109 | Grouping with commas and then replacing each comma by a space is the same as grouping with spaces. |
| `Formatting.CommaGrouped` | app.py:109 | The "," format option only inserts commas: removing them gives the plain decimal form. |
| `Formatting.Replace` | app.py:109 | The result has the same length, every `from` character becomes `to`, and every other character is unchanged. |
| `Formatting.Display` | app.py:109 | The shown text is the sign, then the digits grouped by single spaces, then " DH". |
| `Formatting.DisplaySuffix` | app.py:109 | The shown text ends with " DH" and contains no comma. |
| `Formatting.DisplayStrip` | app.py:109 | Dropping " DH" and every space leaves exactly the plain decimal form, with "-" for a negative charge. |
| `Formatting.DecimalRoundTrip` | app.py:109 | The plain decimal form parses back to the same integer. |
| `Formatting.ParseDecimalCanonical` | app.py:109 | Any canonical text the parser accepts is the decimal form of the value it parses to, so parsing and decimal form are inverses. |
| `Formatting.DisplayRoundTrip` | app.py:109 | The shown text, without " DH" and spaces, parses back to the charge. |
| `Formatting.DisplayInjective` | app.py:109 | Two different charges are never shown alike. |
| `Formatting.DisplayGrouping` | app.py:109 | After the sign, the amount is digit groups joined by single spaces. The first group has 1 to 3 digits and every later group exactly 3. |
| `Formatting.DisplayExample95000` | app.py:109 | 95000 is shown as "95 000 DH". |
| `Formatting.DisplayExampleMillion` | app.py:109 | 1234567 is shown as "1 234 567 DH". |
| `Formatting.DisplayExampleNegative` | app.py:109 | -1234 is shown as "-1 234 DH". |
| `Formatting.DisplayExampleShort` | app.py:109 | 999 is shown as "999 DH" and 0 as "0 DH". |
| `Pipeline.Predict` | app.py:88-117 | The charge is the regressor's answer on the aligned row. The tier is its classification and the advisory that tier's message. The shown text is the grouped display of the charge and reads back as it. The advisory's kind follows the thresholds. |
| `Pipeline.PredictSeesTrainingVector` | app.py:101-105 | With the fixed training columns, the regressor receives [value, age, power, driver flag, zone flag]. |
| `Pipeline.ExampleRequestOutcome` | app.py:91-117 | If the regressor answers 95000 on [250000, 5, 8, 1, 1], the example request shows "95 000 DH" with the Watch advisory. |

## Left out

- Training (`train_model`, app.py:16-55) is left out. It draws random synthetic data, computes floating-point cost factors, fits a random forest and pickles it.
- The column names that `get_dummies(drop_first=True)` produces on the training path (app.py:42-45, 55) are library behaviour. The model takes the columns as a parameter and proves its facts for the fixed list at app.py:66.
- Loading the model file and the file-existence branch (app.py:59-64) are left out because they are file-system I/O. The caching decorator is left out too.
- `model.predict` (app.py:104) is an opaque library call. It is the function parameter `predict`, so prediction is deterministic by construction.
- `int(prediction[0])` (app.py:105) truncates a float. The model starts from the resulting integer.
- The Streamlit widgets and layout are left out (app.py:73-88, 120-124). The slider ranges (app.py:82-84) are enforced by the widgets, so the model accepts any integers.
- `Formatting.ParseDecimal` is the model's own reader for the round trip. It accepts an optional "-" followed by digits. It is not Python's `int()`, which also accepts "+", surrounding whitespace and underscores.
