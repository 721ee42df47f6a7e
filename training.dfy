/** The input bookkeeping of `trainModel` (tensorflow.js): the feature key
    list and the matrices handed to `tf.tensor2d`. Fitting the network is
    not modelled. */
module Training {
  import opened Rows

  /** The three errors the shaping code throws, and the one `model.predict`
      throws when an input row is not as wide as the trained `inputShape`. */
  datatype PipelineError =
    | TrainDataEmpty      // "trainData is empty."
    | TensorDataEmpty     // "xsData or ysData is empty."
    | TestDataEmpty       // "testData is empty."
    | InputShapeMismatch  // model.predict: input width differs from inputShape

  datatype Result<T> = Ok(value: T) | Err(error: PipelineError)

  /** `keys.filter(key => key !== TARGET_COL && key !== DATE_COL && key !== 'sales_date')`;
      the last test repeats the second, as in the source. */
  function InputKeys(keys: seq<string>): (r: seq<string>)
    ensures |r| <= |keys|
    ensures forall k :: k in r <==> k in keys && k != TargetCol && k != DateCol
  {
    if |keys| == 0 then []
    else
      var k := keys[0];
      (if k != TargetCol && k != DateCol && k != "sales_date" then [k] else []) + InputKeys(keys[1..])
  }

  /** `inputKeys.map(key => row[key])`: one entry per key, a missing field
      giving `undefined`. */
  function FeatureRow(keys: seq<string>, row: Row): (r: seq<Value>)
    ensures |r| == |keys|
    ensures forall j :: 0 <= j < |keys| ==> r[j] == Get(row, keys[j])
  {
    if |keys| == 0 then [] else [Get(row, keys[0])] + FeatureRow(keys[1..], row)
  }

  /** The fields of each record, read once. */
  function Snapshot(data: seq<Record>): (rows: seq<Row>)
    reads data
    ensures |rows| == |data|
    ensures forall i :: 0 <= i < |data| ==> rows[i] == data[i].entries
  {
    if |data| == 0 then [] else [data[0].entries] + Snapshot(data[1..])
  }

  /** `trainData.map(row => inputKeys.map(key => row[key]))`. */
  function FeatureMatrix(keys: seq<string>, rows: seq<Row>): (xs: seq<seq<Value>>)
    ensures |xs| == |rows|
    ensures forall i :: 0 <= i < |rows| ==> |xs[i]| == |keys|
    ensures forall i, j :: 0 <= i < |rows| && 0 <= j < |keys| ==> xs[i][j] == Get(rows[i], keys[j])
  {
    if |rows| == 0 then [] else [FeatureRow(keys, rows[0])] + FeatureMatrix(keys, rows[1..])
  }

  /** `trainData.map(row => [row[TARGET_COL]])`. */
  function TargetColumn(rows: seq<Row>): (ys: seq<seq<Value>>)
    ensures |ys| == |rows|
    ensures forall i :: 0 <= i < |rows| ==> ys[i] == [Get(rows[i], TargetCol)]
  {
    if |rows| == 0 then [] else [[Get(rows[0], TargetCol)]] + TargetColumn(rows[1..])
  }

  /** What `tf.tensor2d(xsData, [n, inputShape])` and
      `tf.tensor2d(ysData, [n, 1])` are given. */
  datatype TrainingTensors = TrainingTensors(
    inputKeys: seq<string>, inputShape: nat, xs: seq<seq<Value>>, ys: seq<seq<Value>>)

  /** The data agrees with the declared shapes `[n, inputShape]` and `[n, 1]`. */
  predicate WellShaped(t: TrainingTensors, n: nat) {
    && |t.xs| == n && |t.ys| == n
    && (forall i :: 0 <= i < n ==> |t.xs[i]| == t.inputShape)
    && (forall i :: 0 <= i < n ==> |t.ys[i]| == 1)
  }

  /** The second check of `trainModel`, `xsData.length === 0 || ysData.length === 0`,
      which the first check already makes unreachable (see `TrainModel`).
      Given one feature row of width `|inputKeys|` and one singleton target
      per record, the tensors it passes on agree with the declared shapes. */
  function CheckTensors(inputKeys: seq<string>, xs: seq<seq<Value>>, ys: seq<seq<Value>>): (r: Result<TrainingTensors>)
    requires |xs| == |ys|
    requires forall i :: 0 <= i < |xs| ==> |xs[i]| == |inputKeys| && |ys[i]| == 1
    ensures r.Ok? ==> WellShaped(r.value, |xs|)
  {
    if |xs| == 0 || |ys| == 0 then Err(TensorDataEmpty)
    else Ok(TrainingTensors(inputKeys, |inputKeys|, xs, ys))
  }

  /** The checks and shaping of `trainModel`, up to the point where the
      tensors are built. Only the first check can fail. */
  function TrainModel(trainData: seq<Record>): (r: Result<TrainingTensors>)
    reads trainData
    ensures r.Err? <==> |trainData| == 0
    ensures r.Err? ==> r.error == TrainDataEmpty
    ensures r.Ok? ==>
      var t := r.value;
      && t.inputKeys == InputKeys(Keys(trainData[0].entries))
      && t.inputShape == |t.inputKeys|
      && WellShaped(t, |trainData|)
      && (forall i, j :: 0 <= i < |trainData| && 0 <= j < |t.inputKeys| ==>
            t.xs[i][j] == Get(trainData[i].entries, t.inputKeys[j]))
      && (forall i :: 0 <= i < |trainData| ==> t.ys[i] == [Get(trainData[i].entries, TargetCol)])
  {
    var inputKeys := if |trainData| == 0 then [] else InputKeys(Keys(trainData[0].entries));
    var rows := Snapshot(trainData);
    var xs := FeatureMatrix(inputKeys, rows);
    var ys := TargetColumn(rows);
    if |trainData| == 0 then Err(TrainDataEmpty) else CheckTensors(inputKeys, xs, ys)
  }

  /** The filter keeps the order of the keys: filtering a concatenation is
      concatenating the filtered parts. */
  lemma {:induction false} InputKeysAppend(a: seq<string>, b: seq<string>)
    ensures InputKeys(a + b) == InputKeys(a) + InputKeys(b)
  {
    if |a| > 0 {
      assert (a + b)[1..] == a[1..] + b;
      InputKeysAppend(a[1..], b);
    } else {
      assert a + b == b;
    }
  }

  /** The filter keeps distinct keys distinct, so each feature column is a
      different field. */
  lemma {:induction false} InputKeysDistinct(keys: seq<string>)
    requires Distinct(keys)
    ensures Distinct(InputKeys(keys))
  {
    if |keys| > 0 {
      InputKeysDistinct(keys[1..]);
      var rest := InputKeys(keys[1..]);
      assert keys[0] !in keys[1..];
      assert keys[0] !in rest;
    }
  }

  /** A first training record with distinct keys gives distinct feature
      columns; preprocessing keeps a parsed record's keys distinct
      (`Features.PreprocessDistinct`). */
  lemma TrainKeysDistinct(trainData: seq<Record>)
    requires |trainData| > 0 && DistinctKeys(trainData[0].entries)
    ensures TrainModel(trainData).Ok? && Distinct(TrainModel(trainData).value.inputKeys)
  {
    var ks := Keys(trainData[0].entries);
    assert Distinct(ks);
    InputKeysDistinct(ks);
  }
}
