# A verified model of the toolkit's dataset manager

This project models the `manager` package of a small Python machine-learning
toolkit in Dafny and proves properties of that model. The package has four parts:

- **`Dataset`** (`dataset.py`). It loads an ARFF file: an `@relation` name,
  `@attribute` declarations that are either continuous or nominal
  (`{a, b, c}`), and `@data` rows. It keeps the relation name, the attribute
  names, one label-to-code and one code-to-label map per attribute, and the
  rows as a 2-D float table. It offers read-only accessors, the `inputs` and
  `targets` views, `split` into folds by ratios, and `normalize` of the
  continuous columns.
- **The workflow states** (`states.py`). `NoSplit`, `NoValidation`,
  `WithValidation` and `CrossValidation` each decide how a dataset is split
  into features and targets, what a learner is trained on, and what the
  metrics are evaluated on.
- **`MLSystemManager`** (`manager.py`). It holds the current state and the
  registries of metrics and learners. Its state-switching methods change the
  state. Its `split`, `train` and `test` hand on to the current state.
- **The metrics** (`measurements.py`): `sse`, `mse` and `categorical_accuracy`.

The modules are:

- **Wrappers**: `Option` and `Result`.
- **PyText**: the Python string operations the loader relies on:
  `rstrip`, `strip`, `split`, `lower`, `"".join(s.split())`, and the `(\w*)\s*(.*)` match.
- **PyNumbers**: the stored floats and the number rules. A `Cell` is either
  `Missing` (the MISSING sentinel, `float("infinity")`) or a finite real.
  The module also covers `float(str)`, `int()` truncation, `round()` half to
  even, and Python index and slice clamping.
- **Tables**: a dataset as a value (`Table`), with `get`,
  `get_attribute_column`, `attribute_name`, `attribute_value`,
  `is_continuous`, `inputs` and `targets` defined once on it.
- **Arff**: the loader as functions. `Step` is one iteration of the
  `_load_arff` loop, `Run` the loop, and `ParseArff` the loop followed by the
  conversion to a 2-D array.
- **Datasets**: the `Dataset` class. Its fields are updated in place by
  `_load_*`, `split` and `normalize`. The module also holds the
  specification functions `SplitRows` and `NormalizedRows` and their lemmas.
- **States**, **Measurements** and **Manager**: one module per Python file.

The loading and normalising methods of `Dataset` are loops over mutable fields.
Each is proved against a function of the old state:

- `LoadArff` against `ParseArff`;
- `LoadDatapoint` against `ParseRow`;
- `Normalize` against `NormalizedRows`;
- `Split` against `SplitRows`.

The properties of the dataset are proved about those functions:

- every data line of the file that is not blank or a comment lands in the table as one row, in order;
- the label maps invert each other;
- the folds of `split` concatenate back to the rows;
- normalised columns lie in [0, 1], with the minimum at 0 and the maximum at 1.

`Split` builds the folds from the front of the remaining rows:

- every fold but the last is a new dataset holding `int(ratio * remaining)` rows;
- the last fold is the dataset itself, holding what is left.

The loop handles the first `len(splits) - 1` ratios and appends the dataset
itself after the loop. This is the same as the source's
`if i == len(splits)-1` branch inside the loop.

Because each ratio applies to what is left, the folds of cross validation
are not equal. With 12 rows and 4 folds they hold 3, 2, 1 and 6 rows
(`States.CrossValidationTwelveByFour`).

## Model

| member | source | states |
|---|---|---|
| PyText.RStripSpec | toolkit_2/manager/dataset.py:145 | `rstrip` gives a prefix of the line that ends in a non-space, and everything it removed is whitespace |
| PyText.LStripSpec | toolkit_2/manager/dataset.py:172 | the left strip is a suffix that starts with a non-space, and everything before it is whitespace |
| PyText.StripSpec | toolkit_2/manager/dataset.py:172 | `strip` gives a contiguous slice with no whitespace at either end, and only whitespace lies outside it |
| PyText.StripNoEdges | toolkit_2/manager/dataset.py:172 | a string without whitespace at its ends is left unchanged by `strip` |
| PyText.DropAfterPrefix | toolkit_2/manager/dataset.py:172 | cutting off a keyword's length (`line[9:]`, `line[10:]`) gives back exactly the text after the keyword |
| PyText.DropDrop | toolkit_2/manager/dataset.py:179 | dropping m then n characters is dropping m + n, and dropping never lengthens the text |
| PyText.IndexOf | toolkit_2/manager/dataset.py:185 | `str.index(c)` gives the first position holding c |
| PyText.SplitOn | toolkit_2/manager/dataset.py:220 | `split(",")` gives at least one part, no part holds the separator, and joining the parts with it gives the line back |
| PyText.RemoveSpaces | toolkit_2/manager/dataset.py:193 | `"".join(s.split())` keeps exactly the non-whitespace characters |
| PyText.RemoveSpacesAppend | toolkit_2/manager/dataset.py:193 | removing whitespace from two pieces of text and joining them is removing it from the joined text, so the kept characters stay in order |
| PyText.RemoveSpacesNoSpaces | toolkit_2/manager/dataset.py:193 | text comes back unchanged exactly when it holds no whitespace |
| PyText.LowerIdempotent | toolkit_2/manager/dataset.py:154 | lowered text has no upper-case ASCII letter left, so lowering it again changes nothing |
| PyText.LowerAppend | toolkit_2/manager/dataset.py:154 | `lower()` keeps the length and lowers piece by piece: the lowered prefix of a line is the prefix of the lowered line |
| PyText.WordPrefix | toolkit_2/manager/dataset.py:188 | `(\w*)` takes the longest prefix of word characters |
| PyText.SkipSpaces | toolkit_2/manager/dataset.py:188 | `\s*` removes exactly the leading whitespace: what it drops is all whitespace, and what remains starts with a non-space |
| PyText.UpToNewline | toolkit_2/manager/dataset.py:188 | `(.*)` takes the longest prefix without a newline |
| PyNumbers.AddLaws | toolkit_2/manager/measurements.py:17-20 | the `sse` accumulator starts at a neutral 0, a MISSING term absorbs the sum, and the order of the terms does not change it |
| PyNumbers.SquaredError | toolkit_2/manager/measurements.py:20 | `(target - pred) ** 2` is +infinity exactly for a MISSING target; otherwise it is the non-negative square |
| PyNumbers.ParseFloatOfNatToString | toolkit_2/manager/dataset.py:228 | `float(str(n))` is `n` for every natural number `n` |
| PyNumbers.ParseFloatDecimal | toolkit_2/manager/dataset.py:228 | `float` of digits, a point and digits (at least one digit in all), after an optional sign, is the decimal's exact value, negated after `-` |
| PyNumbers.ParseFloatExponent | toolkit_2/manager/dataset.py:228 | `float` of a mantissa, an `e` or `E` and an optionally signed exponent, after an optional sign, is the mantissa's value times ten to the exponent, negated after `-` |
| PyNumbers.ParseFloatSigned | toolkit_2/manager/dataset.py:228 | a `+` in front of a finite numeral changes nothing and a `-` negates it |
| PyNumbers.ParseFloatInfinity | toolkit_2/manager/dataset.py:228 | `inf` and `infinity` in any letter case, bare or after `+`, read as MISSING; after `-` they are rejected |
| PyNumbers.MantissaValue | toolkit_2/manager/dataset.py:228 | a mantissa `whole.frac` reads as `whole` plus `frac` tenths, hundredths and so on |
| PyNumbers.ExponentValue | toolkit_2/manager/dataset.py:228 | an exponent (digits after an optional sign) reads as the digits' value, negated after `-` |
| PyNumbers.ParseFloatOneTenth | toolkit_2/manager/dataset.py:228 | `float("0.1")` is 0.1, the value the loading test expects |
| PyNumbers.Trunc | toolkit_2/manager/dataset.py:101 | `int(x)` truncates toward zero |
| PyNumbers.RoundHalfEven | toolkit_2/manager/measurements.py:54 | `round(x)` is within one half of x, and a tie goes to the even integer |
| PyNumbers.RoundHalfEvenNearest | toolkit_2/manager/measurements.py:54 | `round(x)` is the integer strictly within one half of x |
| PyNumbers.PyIndexNames | toolkit_2/manager/dataset.py:73 | each position p has exactly the two indexes p and p - n; every index outside [-n, n) is an IndexError |
| PyNumbers.SliceEndLaws | toolkit_2/manager/dataset.py:102 | `seq[:k]` never passes the end, grows with k of one sign, and stops just before the element `seq[k]` names |
| Tables.Table.Get | toolkit_2/manager/dataset.py:72-73 | `get(idx)` is the row at a Python index, `cols` cells long; it fails outside [-size, size) |
| Tables.Table.GetAttributeColumn | toolkit_2/manager/dataset.py:75-76 | `get_attribute_column(idx)` holds one cell per row, taken from that column; it fails outside [-cols, cols) |
| Tables.Table.AttributeName | toolkit_2/manager/dataset.py:78-79 | `attribute_name(col)` is the name declared at that Python index (negative counts from the end); it fails outside the attribute list |
| Tables.Table.AttributeValue | toolkit_2/manager/dataset.py:81-82 | `attribute_value(col, val)` is the label the column's code-to-label map gives `val`, at that Python index; it fails on a bad column or an unknown code |
| Tables.Table.IsContinuous | toolkit_2/manager/dataset.py:84-86 | `is_continuous(col)` holds if and only if there are no label maps at all, or that column's map is empty; a bad column fails |
| Tables.Table.Inputs | toolkit_2/manager/dataset.py:46-56 | `inputs` keeps every row minus its last cell, and the header |
| Tables.Table.Targets | toolkit_2/manager/dataset.py:58-70 | `targets` is the one-column table of last cells with the same header; it fails on a zero-width table |
| Tables.InputsTargetsRecombine | toolkit_2/manager/dataset.py:46-70 | an input row followed by its target gives the original row back |
| Arff.ParseRelation | toolkit_2/manager/dataset.py:171-174 | the relation name is the text after the keyword, stripped; it fails, with that text, exactly when the text holds a space (the assertion) |
| Arff.RelationHeaderRoundTrip | toolkit_2/manager/dataset.py:171-174 | `@RELATION name` loads back as `name` for every valid name |
| Arff.SplitAttribute | toolkit_2/manager/dataset.py:179-193 | an attribute line fails only as an empty declaration or an unclosed quote; a name holds no quote |
| Arff.SplitAttributeFails | toolkit_2/manager/dataset.py:179-185 | an attribute line fails exactly when nothing follows the keyword or an opening quote is never closed |
| Arff.SplitAttributeQuoted | toolkit_2/manager/dataset.py:182-186 | a quoted name is the text between the first two quotes |
| Arff.SplitAttributeUnquoted | toolkit_2/manager/dataset.py:187-193 | an unquoted name is the longest run of word characters at the start, and the type text after it holds no whitespace |
| Arff.NominalItems | toolkit_2/manager/dataset.py:201-206 | a nominal type is accepted if and only if it is braced, and yields at least one label |
| Arff.StripAllClean | toolkit_2/manager/dataset.py:208-209 | each label keeps its place and has no whitespace at either end, so stripping again changes nothing |
| Arff.LastIndex | toolkit_2/manager/dataset.py:208-211 | a repeated label gets the code of its last occurrence |
| Arff.LabelsSnoc | toolkit_2/manager/dataset.py:208-211 | each loop pass maps the new label to its position, overwriting an earlier code |
| Arff.CodesSnoc | toolkit_2/manager/dataset.py:208-211 | each loop pass maps the next code to the new label |
| Arff.LabelMapsInverse | toolkit_2/manager/dataset.py:198-214 | the code-to-label map covers exactly the positions, the label-to-code map exactly the labels, and they invert each other; distinct labels get their own positions |
| Arff.AttributeValueOfLabel | toolkit_2/manager/dataset.py:81-82 | `attribute_value` gives back the label of every code the loader assigned |
| Arff.ParseAttributeOfSplit | toolkit_2/manager/dataset.py:176-214 | a line that splits into a name and a type gives that name with the type's label maps, or the type's error |
| Arff.ParseAttributeOfSplitFailure | toolkit_2/manager/dataset.py:176-196 | a line that does not split is rejected with the split's own error |
| Arff.ParseAttributeContinuousIff | toolkit_2/manager/dataset.py:198-214 | an attribute has empty maps if and only if its type is `real`, `continuous` or `integer` |
| Arff.NonEmptyPositionsExact | toolkit_2/manager/dataset.py:220-223 | the positions that give a cell are exactly the non-empty fields, in increasing order |
| Arff.ParseFieldsCells | toolkit_2/manager/dataset.py:216-231 | a row has one cell per non-empty field, in order: `?` is MISSING, a label its code, other text its float |
| Arff.ParseFieldsFailure | toolkit_2/manager/dataset.py:216-231 | a row fails if and only if one field fails, and then with the first failing field's error |
| Arff.SkippedLineIsIgnored | toolkit_2/manager/dataset.py:145-149 | a blank or `%` line changes nothing, in either section |
| Arff.HeaderIgnoresOtherLines | toolkit_2/manager/dataset.py:152-162 | before `@data`, a line without one of the three keywords changes nothing |
| Arff.DataLinesBecomeRows | toolkit_2/manager/dataset.py:144-167 | after `@data`, the loop appends exactly the rows of the unskipped lines, in order, and leaves the header alone; it fails with the first line that does not parse |
| Arff.DataLineStep | toolkit_2/manager/dataset.py:164-167 | after `@data`, an unskipped line is parsed as a row and appended, or its error stops the load |
| Arff.DataRowsCount | toolkit_2/manager/dataset.py:144-167 | the data section gives exactly one row per unskipped line |
| Arff.RunKeepsAligned | toolkit_2/manager/dataset.py:195-214 | the loop keeps the name list and the two map lists in step |
| Arff.ParseArffValid | toolkit_2/manager/dataset.py:169 | a loaded table is rectangular, with its attribute lists in step |
| Datasets.BuildLabelMaps | toolkit_2/manager/dataset.py:208-211 | the enumeration loop builds exactly the label maps of the stripped labels |
| Datasets.DeclaredLabelMaps | toolkit_2/manager/dataset.py:198-214 | a type declaration gives empty maps for a continuous type, and the label maps or the brace error otherwise |
| Datasets.FrontCount | toolkit_2/manager/dataset.py:101-102 | a fold never takes more rows than remain |
| Datasets.FrontCountFloor | toolkit_2/manager/dataset.py:101 | for a ratio in [0, 1] the fold size is the floor of ratio times the remaining size |
| Datasets.Remaining | toolkit_2/manager/dataset.py:103 | cutting folds never adds rows |
| Datasets.CutStep | toolkit_2/manager/dataset.py:101-103 | each pass splits what remains into the new fold followed by the new remainder |
| Datasets.FrontThenRemaining | toolkit_2/manager/dataset.py:91-105 | the folds cut so far, followed by what remains, are the original rows |
| Datasets.ConcatFolds | toolkit_2/manager/dataset.py:91-105 | the first i folds concatenated are the rows cut so far |
| Datasets.SplitRowsConcat | toolkit_2/manager/dataset.py:88-107 | for at least one ratio, the folds concatenated in order give every row exactly once, in order |
| Datasets.SplitHalvesOfEight | tests/manager/dataset.py:44-48 | the default `[0.5, 0.5]` split of 8 rows gives 4 and 4 |
| Datasets.SplitThirdsOfEight | tests/manager/dataset.py:50-54 | the `[1/3, 1/3, 1/3]` split of 8 rows gives 2, 2 and 4 |
| Datasets.SplitRowsAt | toolkit_2/manager/dataset.py:91-105 | every fold but the last is cut from the front; the last is what remains |
| Datasets.MinOf | toolkit_2/manager/dataset.py:127 | `np.min` is an element no larger than any other |
| Datasets.MaxOf | toolkit_2/manager/dataset.py:128 | `np.max` is an element no smaller than any other |
| Datasets.NormalizedRows | toolkit_2/manager/dataset.py:124-130 | normalising keeps the number of rows and the width |
| Datasets.RescaledInUnit | toolkit_2/manager/dataset.py:129 | `(x - min) / (max - min)` lies in [0, 1] for every value of the column |
| Datasets.NormalizedRange | toolkit_2/manager/dataset.py:124-130 | every normalised continuous cell is a number in [0, 1] |
| Datasets.NormalizedEnds | toolkit_2/manager/dataset.py:127-129 | a column's minimum becomes 0 and its maximum becomes 1 |
| Datasets.NormalizedKeepsOthers | toolkit_2/manager/dataset.py:125 | nominal columns, and columns not yet reached, are unchanged |
| Datasets.ColumnUntouched | toolkit_2/manager/dataset.py:126 | a column is read before any pass has written it |
| Datasets.NormalizedStep | toolkit_2/manager/dataset.py:124-130 | each pass rescales only its own column, and only a continuous one |
| Datasets.NormalizedSkips | toolkit_2/manager/dataset.py:124-130 | a column that is not continuous, or a table without rows, leaves every row as it was |
| Datasets.NormalizedNothing | toolkit_2/manager/dataset.py:124 | before the loop nothing is rescaled |
| Datasets.ScaleEnds | toolkit_2/manager/dataset.py:129 | the rescaling maps min to 0 and max to 1 |
| Datasets.Dataset.constructor | toolkit_2/manager/dataset.py:20-24 | a new dataset is "Untitled", with no attributes and no rows, and its `_data` is still a list rather than an array (not loaded) |
| Datasets.Dataset.LoadRelation | toolkit_2/manager/dataset.py:171-174 | only the name changes, to the parsed name; on the assertion error nothing changes |
| Datasets.Dataset.LoadAttribute | toolkit_2/manager/dataset.py:176-214 | appends the name and both maps; on a bad type the name is already appended and the maps are not |
| Datasets.Dataset.AppendLabelMaps | toolkit_2/manager/dataset.py:198-214 | appends the type's two label maps, or returns its error and leaves both map lists as they were |
| Datasets.Dataset.LoadDatapoint | toolkit_2/manager/dataset.py:216-231 | the field loop gives exactly `ParseRow` of the line |
| Datasets.Dataset.LoadArff | toolkit_2/manager/dataset.py:135-169 | the line loop leaves exactly the table `ParseArff` describes, now loaded as an array, or reports its error |
| Datasets.Dataset.Normalize | toolkit_2/manager/dataset.py:122-124 | on a dataset never loaded, `num_attributes` raises AttributeError and nothing changes; otherwise the outcome of `NormalizeColumns` |
| Datasets.Dataset.NormalizeColumns | toolkit_2/manager/dataset.py:124-130 | rescales exactly the continuous columns, in order; it stops at the first column numpy raises on, with the earlier ones rescaled; the header is kept |
| Datasets.Dataset.NormalizeColumn | toolkit_2/manager/dataset.py:125-130 | one pass moves the table from `NormalizedRows(t, c)` to `NormalizedRows(t, c + 1)` |
| Datasets.Dataset.RescaleInPlace | toolkit_2/manager/dataset.py:126-130 | column c of every row is rescaled and nothing else changes |
| Datasets.Dataset.CutFront | toolkit_2/manager/dataset.py:95-103 | a new loaded dataset with the same header takes the first `int(ratio * size)` rows, and this one keeps the rest |
| Datasets.Dataset.Split | toolkit_2/manager/dataset.py:88-107 | one dataset per ratio, holding `SplitRows` of the old rows with the old header; the folds are pairwise distinct objects, all new except the last, which is this dataset; with two or more ratios a dataset never loaded raises AttributeError and nothing changes |
| Datasets.FromArff | toolkit_2/manager/dataset.py:15-30 | `Dataset(arff)` gives a new valid, loaded dataset equal to `ParseArff("Untitled", lines)`, or raises its error |
| States.SeparateTargets | toolkit_2/manager/states.py:30-34 | one features and one targets table per dataset; IndexError when a dataset has no columns |
| States.SeparateTargetsRecombine | toolkit_2/manager/states.py:30-34 | a features row followed by its target row gives the dataset's row back |
| States.CrossRatios | toolkit_2/manager/states.py:111-112 | `k` folds of ratio `1/k`; IndexError on an empty list and TypeError on a float count |
| States.SplitRatios | toolkit_2/manager/states.py:42-116 | the ratios each state passes to `Dataset.split`: none for `NoSplit`, the splits as given for (With/No)Validation, `1/k` ones for cross validation |
| States.FoldTables | toolkit_2/manager/states.py:65 | one valid table per ratio |
| States.FoldsRectangular | toolkit_2/manager/dataset.py:102-103 | every fold keeps the dataset's width |
| States.FoldWithin | toolkit_2/manager/dataset.py:102 | every row of a fold is a row of the dataset |
| States.RemainingIsSuffix | toolkit_2/manager/dataset.py:103 | what remains after the cuts is a suffix of the rows |
| States.SplitOutcome | toolkit_2/manager/states.py:42-116 | `NoSplit` separates the whole dataset, and the other states separate the folds of their ratios; a ratio error propagates |
| States.Split | toolkit_2/manager/states.py:42-116 | on a loaded dataset, or on any dataset when the call reads no data, each state's `split` returns `SplitOutcome` and leaves the dataset with the rows of the last fold |
| States.ReadsNoDataOutcome | toolkit_2/manager/states.py:30-116 | a split whose ratios are rejected, or which hands `Dataset.split` no ratio, returns the ratio error or two empty lists and leaves the dataset's rows alone, whatever the data |
| States.SplitTables | toolkit_2/manager/states.py:65 | `dataset.split` yields the fold tables, and the dataset keeps the last fold; with no ratio it needs no loaded data |
| States.SplitOutcomeFolds | toolkit_2/manager/states.py:64-67 | features row plus target row of fold k is row j of fold k |
| States.CrossValidationTwelveByFour | toolkit_2/manager/states.py:110-116 | four-fold cross validation of 12 rows gives folds of 3, 2, 1 and 6 rows |
| States.TrainThenTestFromFront | toolkit_2/manager/states.py:69-84 | the training fold followed by the test fold is a prefix of the dataset |
| States.Train | toolkit_2/manager/states.py:46-120 | `NoSplit` trains on the whole lists and `NoValidation` on fold 0 (IndexError when a list is empty); the other states do not train |
| States.Evaluations | toolkit_2/manager/states.py:51-56 | the loop succeeds exactly when every metric returns, and then holds one key per metric name; otherwise it fails with the exception of the first metric that raises |
| States.EvaluationsLastWins | toolkit_2/manager/states.py:53-55 | when every metric returns, a name holds the value of its last metric |
| States.EvaluationsStopAt | toolkit_2/manager/states.py:53-55 | the first metric that raises decides the outcome, whatever the later metrics would do |
| States.EvaluationsFailAt | toolkit_2/manager/states.py:53-55 | when every earlier metric returned, a metric that raises makes its exception the outcome |
| States.SnocFacts | toolkit_2/manager/states.py:53-55 | adding a metric at the end adds its name, and the loop succeeds exactly when it succeeded before and the new metric returns |
| States.FirstFailureExtends | toolkit_2/manager/states.py:53-55 | adding a metric at the end keeps the first metric that raised |
| States.EvaluateAll | toolkit_2/manager/states.py:52-56 | the evaluation loop, which stops at the first metric that raises, gives exactly `Evaluations` |
| States.Test | toolkit_2/manager/states.py:51-123 | `NoSplit` evaluates the whole lists and `NoValidation` fold 1 (IndexError with fewer than 2); a metric that raises makes `test` raise with its exception; the other states return nothing |
| Measurements.SquaresUpTo | toolkit_2/manager/measurements.py:17-22 | a running sum is never negative, and it is +infinity if and only if a label so far is MISSING |
| Measurements.OneColumnScalar | toolkit_2/manager/measurements.py:11-13 | a one-column label table has scalar labels |
| Measurements.Sse | toolkit_2/manager/measurements.py:5-22 | the three checks in their order, then the sum of squared errors over all rows |
| Measurements.ExactPredictionNoError | toolkit_2/manager/measurements.py:17-22 | a learner that predicts every label exactly has zero error |
| Measurements.ExactSquare | toolkit_2/manager/measurements.py:20 | an exact prediction adds nothing |
| Measurements.SquareBelowSum | toolkit_2/manager/measurements.py:17-22 | no row's squared error exceeds the total |
| Measurements.Mse | toolkit_2/manager/measurements.py:25-27 | the errors of `sse`; otherwise a non-negative mean that times the row count gives the sum back |
| Measurements.HitsUpTo | toolkit_2/manager/measurements.py:50-54 | the count of correct predictions never exceeds the pairs seen |
| Measurements.CategoricalAccuracy | toolkit_2/manager/measurements.py:48-56 | the first bad label among the pairs raises its error, and no labels gives division by zero; otherwise the result is the hits over the label count, in [0, 1] |
| Measurements.Ratio | toolkit_2/manager/measurements.py:56 | `correct / len(labels)` is in [0, 1] and times the total gives the count back |
| Measurements.ExactPredictionAllHits | toolkit_2/manager/measurements.py:52-54 | exact predictions of integer labels are all counted correct |
| Manager.RegistryKeys | toolkit_2/manager/manager.py:14-29 | the registries hold exactly the five metric keys and the five learner keys, and the metric descriptions are distinct |
| Manager.GetLearner | toolkit_2/manager/manager.py:31-35 | a registered name gives its learner class; any other name gives the "Unrecognized model" error |
| Manager.EveryLearnerOneName | toolkit_2/manager/manager.py:23-35 | every learner class is reachable by exactly one name |
| Manager.GatherMetrics | toolkit_2/manager/manager.py:37-39 | succeeds if and only if every key is registered, giving each key's entry in order; otherwise it fails on the first unknown key |
| Manager.BoundNames | toolkit_2/manager/manager.py:37-39 | metrics are stored under exactly the gathered descriptions |
| Manager.MLSystemManager.constructor | toolkit_2/manager/manager.py:10-11 | a new manager starts in `NoValidation` |
| Manager.MLSystemManager.LoadDataset | toolkit_2/manager/manager.py:46-47 | `load_dataset` is `Dataset(file)`: a loaded dataset, or the load error |
| Manager.MLSystemManager.DoValidation | toolkit_2/manager/manager.py:56-57 | the state becomes `WithValidation` |
| Manager.MLSystemManager.CrossValidation | toolkit_2/manager/manager.py:59-60 | the state becomes `CrossValidation` |
| Manager.MLSystemManager.NoValidation | toolkit_2/manager/manager.py:62-63 | the state becomes `NoValidation` |
| Manager.MLSystemManager.NoSplit | toolkit_2/manager/manager.py:65-66 | the state becomes `NoSplit` |
| Manager.MLSystemManager.Split | toolkit_2/manager/manager.py:49-50 | `split` is the current state's split |
| Manager.MLSystemManager.Train | toolkit_2/manager/manager.py:80-81 | `train` is the current state's train |
| Manager.MLSystemManager.Test | toolkit_2/manager/manager.py:83-84 | the metrics are dropped; an exception remains exactly when `NoValidation` has no fold 1 (IndexError) or a metric raises on the evaluated fold (the first such metric's exception) |

## Left out

- File reading: `_load_arff` opens a file name. The model takes the file's lines as a `seq<string>`.
- `shuffle` (dataset.py lines 109-120): it depends on `random.shuffle`, which is randomness the model does not have.
- `__str__` (dataset.py lines 241-262): it writes the dataset back out in ARFF format. This serializer is not modelled, so there is no write-then-load round trip.
- `numpy` (lines 132-133) only exposes the table, which `Snapshot` already is.
- `__getitem__` and `__len__` (lines 233-239) are `Get` and `Size` under other names.
- `rmse` (measurements.py lines 30-32): the square root of `mse`. Square roots are not modelled on reals.
- `confusion_matrix` (measurements.py lines 35-45): it normalises with floating-point `exp`, which has no counterpart on reals.
- `describe` and `display` (manager.py lines 72-94), the timers and their prints (states.py lines 23-28): output only.
- The command-line driver and the learner classes. A learner is seen only through its `predict`, as a function. The registry holds learner kinds rather than classes to instantiate.
- Floating point: cells are exact reals, and MISSING is the only infinity.
  - NaN, `-inf`, and `float` syntax with underscores or surrounding text are not modelled. A field that `float` would read as one of these is a load error.
  - Only ASCII digits are digits. Python's `float` also reads other Unicode decimal digits; in the model such a field is a load error.
  - Exponents never overflow or underflow. Python reads `1e400` as infinity (MISSING) and `1e-400` as 0.0; the model reads them as the exact finite reals.
  - Rounding in `int(split * size)` and in the normalisation division is exact.
- Characters: `lower()` and `\w` are ASCII-only. `isspace()` (`PyText.IsSpace`) is Python's full Unicode whitespace set.
- numpy views: `inputs`, `targets` and the folds of `split` are views in numpy, sharing memory with their parent in both directions. The model gives value copies, so writing into a view does not write into its parent, and writing into the parent (as `normalize` does) does not change a view taken before.
- Shapes numpy gives that the model does not follow:
  - rows of different lengths are a load error (`RaggedRows`), where numpy raises or builds an object array, depending on its version;
  - Datasets.Dataset.Normalize and Tables.Table.Inputs: a table loaded with no data rows gets width 0, where numpy gives shape `(0,)`. On such an array `num_attributes` raises IndexError, so Python's `normalize` raises where the model rescales nothing. `inputs` (`self._data[:, :-1]`) raises IndexError too, where the model gives an empty table. Every state's split still fails with IndexError on such a table, because `Tables.Table.Targets` fails on width 0 and `States.SeparateTargets` asks for both.
- The comment test: a line is skipped when it starts with `%` after `rstrip`, as the code does. An indented `%` line is not a comment.
- Load errors: a failure inside `Dataset(arff)` propagates out of the constructor, so the model returns the error and no dataset (`FromArff`). `LoadArff` states no field values on failure.
- Datasets.Dataset.Normalize: requires every continuous column with rows to be numeric and not constant. In Python a MISSING or constant column makes `(x - min) / (max - min)` NaN; NaN is not represented.
- States.Split and Manager.MLSystemManager.Split: on a `Dataset()` never loaded, they cover only the calls that read no data (`States.ReadsNoData`): the ratios are rejected first (an empty list or a float for cross validation), or no ratio reaches `Dataset.split` (an empty list, or a cross-validation count of at most 0). There Python returns the error or two empty lists, as the model does. Any other split of such a dataset makes Python raise TypeError (`inputs` indexes a list) or AttributeError (`split` reads `size`). The model requires a loaded dataset for those calls; every dataset `load_dataset` returns is loaded. `Datasets.Dataset.Split` and `Datasets.Dataset.Normalize` do model the AttributeError.
- States.Train: returns the call the state would make on the learner instead of making it. What the learner does with it is outside the model.
- Measurements.Sse: returns a scalar `Cell`, where numpy returns a one-element array for a one-column label table.
- Metrics inside `test`: each metric is a function of the batch it is given. Which metrics raise on a list of folds (as `NoSplit` passes them) is up to that function; `test` only passes the exception on.
- `WithValidation` and `CrossValidation` `train`/`test` are unfinished in the source (they do nothing). The model gives `Ok(None)` for them.
- States.CrossRatios: the count is a Python `int` or a `float` (`PyNum`). Other types are not modelled.
- `assert` statements are modelled as raising. Running Python with `-O` would skip them.
