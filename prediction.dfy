/** The input side of `makePredictions` (tensorflow.js): the empty check,
    the key list and one prediction per test record. The network itself is
    the parameter `predict`; the error metrics are not modelled. */
module Prediction {
  import opened Rows
  import opened Training
  import Features

  /** `makePredictions` on a model trained with input width `inputShape`: the
      key list comes from `testData[0]`, and each test record, in order,
      contributes the model's answer for its feature row. `model.predict`
      rejects a row whose width is not `inputShape`; every row is as wide as
      the key list, so that happens exactly when the key list has another
      length. */
  method MakePredictions(predict: seq<Value> -> int, inputShape: nat, testData: seq<Record>)
    returns (r: Result<seq<int>>)
    ensures r.Err? <==> |testData| == 0 || |InputKeys(Keys(testData[0].entries))| != inputShape
    ensures r.Err? ==> r.error == if |testData| == 0 then TestDataEmpty else InputShapeMismatch
    ensures r.Ok? ==>
      var inputKeys := InputKeys(Keys(testData[0].entries));
      && |r.value| == |testData|
      && forall i :: 0 <= i < |testData| ==> r.value[i] == predict(FeatureRow(inputKeys, testData[i].entries))
  {
    var predictions := [];
    if |testData| == 0 {
      return Err(TestDataEmpty);
    }
    var inputKeys := InputKeys(Keys(testData[0].entries));
    var i := 0;
    while i < |testData|
      invariant 0 <= i <= |testData|
      invariant i > 0 ==> |inputKeys| == inputShape
      invariant |predictions| == i
      invariant forall j :: 0 <= j < i ==> predictions[j] == predict(FeatureRow(inputKeys, testData[j].entries))
    {
      var rowArray := FeatureRow(inputKeys, testData[i].entries);
      if |rowArray| != inputShape {
        return Err(InputShapeMismatch);
      }
      predictions := predictions + [predict(rowArray)];
      i := i + 1;
    }
    r := Ok(predictions);
  }

  /** `makePredictions` recomputes the key list from the first test record
      instead of taking the one used in training. The two lists agree when
      the first training and first test record had the same keys, in the same
      order, before preprocessing, as records parsed under one CSV header do. */
  lemma FeatureKeysAgree(host: Features.Host, a: Row, b: Row)
    requires Keys(a) == Keys(b)
    ensures InputKeys(Keys(Features.PreprocessRow(host, a))) == InputKeys(Keys(Features.PreprocessRow(host, b)))
  {
    Features.PreprocessKeys(host, a);
    Features.PreprocessKeys(host, b);
  }

  /** A model trained on `trainData` accepts `testData` when the first
      records of the two had the same keys. */
  lemma TrainedShapeAccepted(trainData: seq<Record>, testData: seq<Record>)
    requires |trainData| > 0 && |testData| > 0
    requires Keys(trainData[0].entries) == Keys(testData[0].entries)
    ensures TrainModel(trainData).Ok?
    ensures TrainModel(trainData).value.inputShape == |InputKeys(Keys(testData[0].entries))|
  {
  }
}
