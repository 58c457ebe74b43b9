/**
  Online scoring for one customer: fetch the customer's current record,
  turn it into model input holding only the latest purchase value, and run
  the model on it. Each step answers `None` rather than failing when there is
  nothing to work on.
 */
module RealTimeInference {
  import opened Wrappers
  import opened FeatureStore

  /**
    `get_latest_features`: `None` when the lookup raises or the response has
    no `Record`, otherwise the record's pairs as a map.
   */
  function GetLatestFeatures(customerId: int, getRecord: GetRecordRequest -> GetRecordOutcome): (r: Option<map<string, string>>)
    ensures r.Some? <==> getRecord(RecordRequestFor(customerId)).Response? && getRecord(RecordRequestFor(customerId)).record.Some?
    ensures r.Some? ==> r.value.Keys == set f | f in getRecord(RecordRequestFor(customerId)).record.value :: f.name
    ensures r.Some? ==> r.value == ToFeatureMap(getRecord(RecordRequestFor(customerId)).record.value)
  {
    match getRecord(RecordRequestFor(customerId))
    case ClientError(_) => None
    case Response(None) => None
    case Response(Some(record)) => Some(ToFeatureMap(record))
  }

  /**
    `preprocess_features`: no input for absent or empty features; otherwise a
    1x1 matrix holding latest_purchase_value read as a float with default 0.0,
    whose parse failure raises.
   */
  function PreprocessFeatures(features: Option<map<string, string>>, parseFloat: string -> Option<real>): (r: Result<Option<seq<seq<real>>>, Raised>)
    ensures r == Success(None) <==> features.None? || features.value == map[]
    ensures r.Success? && r.value.Some? ==>
      |r.value.value| == 1 && |r.value.value[0]| == 1 &&
      FeatureAsFloat(features.value, PurchaseValueName, parseFloat) == Success(r.value.value[0][0])
    ensures r.Failure? ==>
      features.Some? && FeatureAsFloat(features.value, PurchaseValueName, parseFloat) == Failure(r.error)
  {
    if features.None? || features.value == map[] then Success(None)
    else match FeatureAsFloat(features.value, PurchaseValueName, parseFloat)
      case Success(v) => Success(Some([[v]]))
      case Failure(e) => Failure(e)
  }

  /**
    `run_inference`: the model is not consulted for absent or empty input,
    which gives `None`; otherwise the first element of its prediction, an
    empty prediction raising `IndexError`.
   */
  function RunInference(predict: seq<seq<real>> -> seq<real>, input: Option<seq<seq<real>>>): (r: Result<Option<real>, Raised>)
    ensures r == Success(None) <==> input.None? || input.value == []
    ensures r.Success? && r.value.Some? ==> |predict(input.value)| > 0 && r.value.value == predict(input.value)[0]
    ensures r.Failure? ==> r.error == IndexError && input.Some? && predict(input.value) == []
  {
    if input.None? || input.value == [] then Success(None)
    else
      var prediction := predict(input.value);
      if prediction == [] then Failure(IndexError) else Success(Some(prediction[0]))
  }

  /** Only latest_purchase_value is read: features that agree on it give the same input. */
  lemma PreprocessReadsOnlyPurchaseValue(a: map<string, string>, b: map<string, string>, parseFloat: string -> Option<real>)
    requires a != map[] && b != map[]
    requires PurchaseValueName in a <==> PurchaseValueName in b
    requires PurchaseValueName in a ==> a[PurchaseValueName] == b[PurchaseValueName]
    ensures PreprocessFeatures(Some(a), parseFloat) == PreprocessFeatures(Some(b), parseFloat)
  {
  }

  /** With no input the model is never consulted: any two models give the same answer. */
  lemma NoInputIgnoresModel(p: seq<seq<real>> -> seq<real>, q: seq<seq<real>> -> seq<real>, input: Option<seq<seq<real>>>)
    requires input.None? || input.value == []
    ensures RunInference(p, input) == RunInference(q, input) == Success(None)
  {
  }

  /**
    The scoring pipeline of one customer, as the script chains it: features,
    then model input, then prediction. A prediction comes only from a lookup
    that returned a non-empty record.
   */
  function Score(customerId: int, getRecord: GetRecordRequest -> GetRecordOutcome,
                 parseFloat: string -> Option<real>, predict: seq<seq<real>> -> seq<real>): (r: Result<Option<real>, Raised>)
    ensures r.Success? && r.value.Some? ==>
      var outcome := getRecord(RecordRequestFor(customerId));
      outcome.Response? && outcome.record.Some? && outcome.record.value != []
  {
    match PreprocessFeatures(GetLatestFeatures(customerId, getRecord), parseFloat)
    case Failure(e) => Failure(e)
    case Success(input) => RunInference(predict, input)
  }

  /**
    A customer whose lookup fails, has no record, or has an empty record gets
    no prediction, and the model is not consulted.
   */
  lemma ScoreWithoutRecord(customerId: int, getRecord: GetRecordRequest -> GetRecordOutcome,
                           parseFloat: string -> Option<real>, predict: seq<seq<real>> -> seq<real>)
    requires var outcome := getRecord(RecordRequestFor(customerId));
      outcome.ClientError? || outcome == Response(None) || outcome == Response(Some([]))
    ensures Score(customerId, getRecord, parseFloat, predict) == Success(None)
  {
  }

  /**
    A customer whose record has a last latest_purchase_value pair with
    parsable text `v` is scored on exactly `[[parseFloat(v)]]`.
   */
  lemma ScoreUsesLastPurchaseValue(customerId: int, getRecord: GetRecordRequest -> GetRecordOutcome,
                                   parseFloat: string -> Option<real>, predict: seq<seq<real>> -> seq<real>, i: int)
    requires getRecord(RecordRequestFor(customerId)).Response?
    requires getRecord(RecordRequestFor(customerId)).record.Some?
    requires IsLastOccurrence(getRecord(RecordRequestFor(customerId)).record.value, i, PurchaseValueName)
    requires parseFloat(getRecord(RecordRequestFor(customerId)).record.value[i].value).Some?
    ensures var x := parseFloat(getRecord(RecordRequestFor(customerId)).record.value[i].value).value;
      Score(customerId, getRecord, parseFloat, predict)
        == if predict([[x]]) == [] then Failure(IndexError) else Success(Some(predict([[x]])[0]))
  {
    var record := getRecord(RecordRequestFor(customerId)).record.value;
    ToFeatureMapLastWins(record, i);
  }
}
