# Sales-forecast feature pipeline, modelled in Dafny

This project models the feature-and-split half of the forecasting pipeline in
`tensorflow.js`:

- `preprocessData` parses each record's `sales_date` and adds eleven derived
  fields: `day`, `month`, `quarter`, seven 0/1 flags and the ratio
  `discount_per`. It then rewrites every NaN number to 0. All of this happens
  in place on the record objects.
- `splitData` pushes each record, in order, into `trainData` when its date is
  before a cutoff, and into `testData` otherwise.
- `trainModel` checks its input and builds the key list and the `xsData` /
  `ysData` matrices it hands to TensorFlow.
- `makePredictions` checks its input, rebuilds the key list and collects one
  prediction per test record.

Layout, one module per file:

- `rows.dfy` (`Rows`): the value domain of a record field (numbers, NaN,
  strings, booleans, null, undefined, valid and invalid moments). A record is
  an object whose keys are kept in insertion order. It defines JavaScript
  property read (`Get`) and assignment (`Set`, `SetAll`), and the class
  `Record` that the stages share by reference.
- `features.dfy` (`Features`): the body of each preprocessing pass as a
  function on a record's entries, and what a preprocessed record holds.
- `preprocess.dfy` (`Preprocess`): the three `forEach` passes and the inner
  `for … in` loop, as methods that update `Record` objects in place.
- `split.dfy` (`Split`): the temporal split, a loop proved against a filter.
- `training.dfy` (`Training`): the key filter, the feature and target
  matrices, and the two empty checks of `trainModel`.
- `prediction.dfy` (`Prediction`): the prediction loop of `makePredictions`.

Parameters stand for what the model does not reimplement:

- `Features.Host.parseMoment` is `moment(v, 'YYYY-MM-DD')` on a value that is
  not already a moment. It yields a valid or an invalid moment.
- `Features.Host.divide` is JavaScript's floating-point `/`. It always yields a number or NaN (`Features.NumOrNaN`); which one is left to the parameter.
- `Split.Instant` is the cutoff. The source computes it from the clock.
- `predict` is the fitted network.

Behaviour of the code worth knowing when reading the model:

- `is_weekend` tests `day() >= 5`. moment numbers weekdays from 0 (Sunday), so
  Friday and Saturday count and Sunday does not (`Features.DayFlagsFollowDay`,
  `Features.CalendarExamples`).
- Only NaN is rewritten to 0. `isNaN(Infinity)` is false, so a positive price
  over a zero `rsp` stays infinite.
- A column that already has a derived name (`day`, `month`, ...) is
  overwritten in place by the second pass.
- An unparsable date is not an error. It becomes an invalid moment, and
  `day`, `month` and `quarter` then become 0 (NaN rewritten).
- The trained model does not carry its key list. `makePredictions` rebuilds
  it from `testData[0]`. `Prediction.FeatureKeysAgree` shows the two lists
  agree when the training and test records had the same keys before
  preprocessing, and `Prediction.TrainedShapeAccepted` that the trained
  input width then matches.
- Re-running preprocessing keeps every derived field when neither covariate
  of `discount_per` was NaN (`Features.ReprocessCalendarStable`,
  `Features.ReprocessPromoStable`, `Features.ReprocessDiscountStable`). The
  one case in which JavaScript arithmetic makes a second run change
  `discount_per` is a NaN `rsp` with a nonzero numeric `rel_promo_price`:
  the first run stores 0 for the NaN quotient and turns `rsp` into 0, and
  the second run divides by that 0 and stores an infinite value, which the
  NaN pass leaves alone. Division being a parameter here, that case is
  described, not proved.

## Model

| member | source | states |
|---|---|---|
| `Rows.GetAbsent` | tensorflow.js:142 | reading a key the record does not have gives `undefined` |
| `Rows.MergeKeysDistinct` | tensorflow.js:66-76 | assigning keys to an object with distinct keys leaves its keys distinct |
| `Rows.IsNaNExamples` | tensorflow.js:84 | JavaScript's coercing `isNaN` holds for a word, `undefined` and an invalid moment, and fails for padded digits, the empty string and `null` |
| `Rows.GetSetSame` | tensorflow.js:66-76 | after `row[k] = v`, reading `row[k]` gives `v` |
| `Rows.GetSetOther` | tensorflow.js:66-76 | assigning `row[k]` leaves every other key's value unchanged |
| `Rows.KeysOfSet` | tensorflow.js:66-76 | assigning an existing key keeps the key order; a new key is appended last |
| `Rows.GetSetAll` | tensorflow.js:66-76 | after a run of assignments with distinct keys, each assigned key holds its assigned value and every other key its old value |
| `Rows.KeysOfSetAll` | tensorflow.js:66-76 | the key order after a run of assignments depends only on the old key order and the assigned names |
| `Rows.SetAllIdempotent` | tensorflow.js:65-77 | doing the same assignments twice gives the same object as doing them once |
| `Features.ParseDate` | tensorflow.js:59 | the result is always a valid or an invalid moment; a moment passed in comes back unchanged |
| `Features.ParseDateFieldIdempotent` | tensorflow.js:58-60 | parsing a record's date a second time changes nothing |
| `Features.DerivedFieldsShape` | tensorflow.js:65-77 | the second pass assigns exactly the eleven derived names, each once, in source order |
| `Features.AddFeaturesIdempotent` | tensorflow.js:65-77 | the second pass reads no field it writes, so running it twice on a record equals running it once |
| `Features.ZeroNaNValue` | tensorflow.js:84-86 | of the values the coercing `isNaN` accepts, only NaN has `typeof` "number", so NaN becomes 0; every other value (numbers, strings, booleans, null, undefined, moments) is returned unchanged; the result is never NaN |
| `Features.GetZeroNaN` | tensorflow.js:82-88 | after the third pass each field holds its old value with NaN replaced by 0 |
| `Features.ZeroNaNShape` | tensorflow.js:82-88 | the third pass keeps the keys and their order and is idempotent |
| `Features.PreprocessGet` | tensorflow.js:54-91 | every field of a preprocessed record: the parsed date, a derived value with NaN replaced by 0, or the old value with NaN replaced by 0 |
| `Features.MonthFlagsFollowMonth` | tensorflow.js:67-71 | `month` is moment's 0-based month + 1 (1..12; 0 for an invalid date); `black_friday_month` = 1 iff month is 11; `is_dec_holiday` = 1 iff month is 11 or 12; `start_of_year` = 1 iff month is 1; else 0 |
| `Features.QuarterFollowsMonth` | tensorflow.js:68 | `quarter` is 1..4 and contains the month for a valid date; 0 for an invalid one |
| `Features.DayFlagsFollowDay` | tensorflow.js:66-76 | `day` is the day of month (0 if invalid); `is_after_payday` = 1 iff day >= 25; `start_of_month` = 1 iff day is 1; `is_weekend` = 1 iff the weekday index is >= 5 (Friday, Saturday) |
| `Features.DerivedNumeric` | tensorflow.js:66-88 | after preprocessing all eleven derived fields hold numbers, never NaN, `undefined` or anything else |
| `Features.PromoFields` | tensorflow.js:72-73 | `promo_length` = 1 iff `is_promo` was truthy, else 0; `discount_per` is the quotient of the covariates with NaN replaced by 0, never NaN |
| `Features.FlagsAreBits` | tensorflow.js:69-76 | each 0/1 flag holds 0 or 1 after preprocessing |
| `Features.NoNaNAfterPreprocess` | tensorflow.js:82-88 | no field of a preprocessed record is NaN |
| `Features.OtherFieldsKept` | tensorflow.js:58-88 | a field other than `sales_date` and the eleven derived names keeps its value, except that NaN becomes 0 |
| `Features.DateFieldParsed` | tensorflow.js:58-60 | `sales_date` holds the parsed moment after preprocessing |
| `Features.PreprocessKeys` | tensorflow.js:58-77 | the keys after preprocessing: the old keys in their order, then `sales_date` if it was missing, then the missing derived names in assignment order |
| `Features.PreprocessDistinct` | tensorflow.js:58-77 | a record whose keys are distinct still has distinct keys after preprocessing, new keys being added only when missing |
| `Features.PreprocessExtends` | tensorflow.js:58-77 | the old keys stay a prefix in place, and `sales_date` and all eleven derived names are present afterwards |
| `Features.ReprocessCalendarStable` | tensorflow.js:54-91 | preprocessing a preprocessed record again keeps `sales_date` and all calendar fields |
| `Features.ReprocessPromoStable` | tensorflow.js:73 | preprocessing again keeps `promo_length` |
| `Features.ReprocessDiscountStable` | tensorflow.js:72 | preprocessing again keeps `discount_per` when neither covariate was NaN |
| `Features.DiscountFromCovariates` | tensorflow.js:72 | `discount_per` depends only on `rel_promo_price` and `rsp` |
| `Features.CalendarExamples` | tensorflow.js:66-76 | on 2024-11-15 (a Friday) month is 11, quarter 4, and `black_friday_month`, `is_dec_holiday` and, as written, `is_weekend` are 1 while the other flags are 0; on 2024-01-01 (a Monday) `start_of_year` and `start_of_month` are 1 and the other month and weekend flags 0 |
| `Preprocess.ParseDates` | tensorflow.js:58-60 | every record in the array, even one listed twice, ends up with its date field parsed once |
| `Preprocess.AddAllFeatures` | tensorflow.js:65-77 | every record in the array ends up with the eleven derived fields assigned |
| `Preprocess.ReplaceNaNs` | tensorflow.js:83-87 | the `for … in` loop rewrites each NaN field of one record to 0 and nothing else |
| `Preprocess.ReplaceAllNaNs` | tensorflow.js:82-88 | every record in the array ends up with its NaN fields rewritten |
| `Preprocess.PreprocessData` | tensorflow.js:54-91 | returns the same array; each record in it holds the preprocessed form of its old fields |
| `Split.SplitData` | tensorflow.js:99-117 | `trainData` is the records dated before the cutoff and `testData` the rest, each in input order |
| `Split.SplitPartitions` | tensorflow.js:105-111 | the two sides' sizes add up to the input's, and together they are a rearrangement of the input |
| `Split.SplitMembership` | tensorflow.js:105-111 | a record is in `trainData` iff it is in the input and before the cutoff, and in `testData` iff it is in the input and not, so no record is in both |
| `Split.SplitAppend` | tensorflow.js:105-111 | splitting a concatenation concatenates the splits, so input order is kept on both sides |
| `Training.InputKeys` | tensorflow.js:134-135 | a key is kept iff it is neither `volume` nor `sales_date`; the result is no longer than the input |
| `Training.InputKeysAppend` | tensorflow.js:135 | the filter keeps the keys' order |
| `Training.InputKeysDistinct` | tensorflow.js:134-135 | distinct object keys give distinct feature columns |
| `Training.TrainKeysDistinct` | tensorflow.js:134-135 | a first training record with distinct keys gives distinct feature columns of `trainModel` |
| `Training.FeatureRow` | tensorflow.js:142 | one entry per key, entry j being the record's value for key j (`undefined` if missing) |
| `Training.FeatureMatrix` | tensorflow.js:142 | one row per record, each of length `|inputKeys|`, with entry (i, j) the value of key j in record i |
| `Training.TargetColumn` | tensorflow.js:143 | one singleton `[volume]` per record |
| `Training.TrainModel` | tensorflow.js:125-161 | fails iff `trainData` is empty, and only with "trainData is empty."; otherwise the keys are the first record's keys filtered, and the matrices fit the shapes `[n, inputShape]` and `[n, 1]` with the right entries |
| `Prediction.MakePredictions` | tensorflow.js:208-231 | fails with "testData is empty." iff `testData` is empty, and with `model.predict`'s shape error iff the key list of `testData[0]` is not as wide as the trained `inputShape`; otherwise exactly one prediction per test record, in order, computed from those keys |
| `Prediction.TrainedShapeAccepted` | tensorflow.js:134-135 | when the first training and first test records have the same keys, training succeeds and its `inputShape` is the width `makePredictions` feeds the model |
| `Prediction.FeatureKeysAgree` | tensorflow.js:218 | records with the same keys before preprocessing give the same feature key list after it, so the training and prediction columns line up |

## Left out

- `loadData` and `parseCSV` (tensorflow.js:19-45): file I/O and the Papa Parse library. Records are taken as already parsed. `loadData` ignores its argument and reads a fixed path.
- moment's parsing of `YYYY-MM-DD` and its calendar arithmetic: `Host.parseMoment` is a parameter, and a valid moment carries its year, month, day of month and weekday.
- The wall-clock cutoff `moment().subtract(16, 'months')` (tensorflow.js:106): it is the parameter `cutoff`. The source evaluates it once per record inside the loop, so it can drift while the loop runs; the model fixes one cutoff per call. Time zones and daylight saving are not modelled. A row moment is taken as local midnight of its day.
- `Split.Precedes`: a `sales_date` that is not a moment (a string or a number) compares as "not before". In the source such a value is compared as a number against the cutoff's timestamp. This can only happen if `splitData` runs on records that were not preprocessed, since `Features.DateFieldParsed` shows preprocessing always leaves a moment there.
- Floating point: numbers are integers, and `discount_per`'s division is the parameter `Host.divide`. IEEE Infinity is not represented, so the fact that the NaN pass leaves Infinity alone is stated only in prose.
- `Rows.NumericText` approximates the text `Number` accepts: signed decimals, `Infinity` and white space only; exponents, hexadecimal and binary literals count as not numeric. It only decides `isNaN` for strings, which the NaN pass never rewrites either way.
- `Object.keys` puts integer-like keys first, in ascending order. The model keeps pure insertion order, which is the same unless a CSV column is named like an array index.
- Network construction, `compile`, `fit` and `model.predict` (tensorflow.js:160-175, 226-230): the TensorFlow.js library. `TrainModel` returns the tensors it would build, and `predict` is a parameter. Of `model.predict`'s checks only the input-width check is modelled (`Prediction.MakePredictions`, given the trained `inputShape`). The tensor constructor's rejection of non-numeric entries is not modelled.
- The MSE, MAE, MAPE and bias computations (tensorflow.js:236-261): floating-point tensor arithmetic. Their results are only logged, and `makePredictions` returns just the predictions.
- `printPredictions` (tensorflow.js:188-199), all `console.log` calls, and `async`/`await`: console output and promise plumbing.
- The unused constants `TIME_SERIES_ID_COL`, `FREQUENCY` and `PREDICTION_LENGTH` (tensorflow.js:7, 10-11).
- server.js is not part of this model. It holds HTTP routing, CORS headers, body parsing and database queries.
