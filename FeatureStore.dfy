/**
  The keyed feature store as both scripts see it: the `CustomerTransactions`
  feature group, its four feature names, the request and response shapes of
  `put_record` / `get_record`, and the client-side decoding of a record.
 */
module FeatureStore {
  import opened Wrappers
  import Text

  const FeatureGroupName: string := "CustomerTransactions"

  const CustomerIdName: string := "customer_id"
  const EventTimeName: string := "event_time"
  const PurchaseValueName: string := "latest_purchase_value"
  const LoyaltyScoreName: string := "latest_loyalty_score"

  /** One `{FeatureName, ValueAsString}` pair. */
  datatype Feature = Feature(name: string, value: string)

  /** The keyword arguments of `put_record`. */
  datatype PutRecordRequest = PutRecordRequest(featureGroupName: string, record: seq<Feature>)

  /** The keyword arguments of `get_record`. */
  datatype GetRecordRequest = GetRecordRequest(featureGroupName: string, recordIdentifier: string)

  /**
    What a `get_record` call yields: a response whose `Record` key is present
    or absent, or a raised client error.
   */
  datatype GetRecordOutcome = Response(record: Option<seq<Feature>>) | ClientError(message: string)

  /** Exceptions raised by the scripts' own code on a value they cannot use. */
  datatype Raised = ValueError(text: string) | IndexError | Unhandled(message: string)

  /** `str(customer_id)`: the record identifier under which a customer is written and read. */
  function RecordIdentifier(customerId: int): string {
    Text.IntToString(customerId)
  }

  /** The lookup both scripts issue for a customer. */
  function RecordRequestFor(customerId: int): GetRecordRequest
  {
    GetRecordRequest(FeatureGroupName, RecordIdentifier(customerId))
  }

  /** Distinct customers are looked up under distinct identifiers. */
  lemma RecordRequestForInjective(a: int, b: int)
    requires RecordRequestFor(a) == RecordRequestFor(b)
    ensures a == b
  {
    Text.IntToStringInjective(a, b);
  }

  /**
    The dictionary built from a record's pairs, name to value: one entry per
    feature name, a later pair overwriting an earlier one with the same name.
   */
  function ToFeatureMap(record: seq<Feature>): (m: map<string, string>)
    ensures m.Keys == set f | f in record :: f.name
  {
    if record == [] then map[]
    else
      var init := record[..|record| - 1];
      var last := record[|record| - 1];
      assert forall f :: f in record <==> f in init || f == last;
      ToFeatureMap(init)[last.name := last.value]
  }

  /** A name maps to the value of its last occurrence in the record. */
  lemma {:induction false} ToFeatureMapLastWins(record: seq<Feature>, i: nat)
    requires i < |record|
    requires forall j :: i < j < |record| ==> record[j].name != record[i].name
    ensures record[i].name in ToFeatureMap(record)
    ensures ToFeatureMap(record)[record[i].name] == record[i].value
  {
    if i < |record| - 1 {
      ToFeatureMapLastWins(record[..|record| - 1], i);
    }
  }

  /** Pair `i` is the last pair of the record named `name`. */
  predicate IsLastOccurrence(record: seq<Feature>, i: int, name: string) {
    && 0 <= i < |record|
    && record[i].name == name
    && forall j :: i < j < |record| ==> record[j].name != name
  }

  /** Every entry of the map is the value of the last pair of the record with that name. */
  lemma {:induction false} ToFeatureMapEntrySource(record: seq<Feature>, name: string)
    requires name in ToFeatureMap(record)
    ensures exists i :: IsLastOccurrence(record, i, name) && ToFeatureMap(record)[name] == record[i].value
  {
    var n := |record|;
    var init := record[..n - 1];
    if record[n - 1].name == name {
      assert IsLastOccurrence(record, n - 1, name);
    } else {
      ToFeatureMapEntrySource(init, name);
      var i :| IsLastOccurrence(init, i, name) && ToFeatureMap(init)[name] == init[i].value;
      assert record[i] == init[i];
      forall j | i < j < n
        ensures record[j].name != name
      {
        if j < n - 1 { assert record[j] == init[j]; }
      }
      assert IsLastOccurrence(record, i, name);
    }
  }

  /**
    A feature read as a float with 0.0 as the default: an absent feature is 0.0; a present one
    is parsed by `parseFloat`, and text it cannot parse raises `ValueError`.
   */
  function FeatureAsFloat(features: map<string, string>, name: string, parseFloat: string -> Option<real>): (r: Result<real, Raised>)
    ensures name !in features ==> r == Success(0.0)
    ensures name in features ==>
      (r.Success? <==> parseFloat(features[name]).Some?) &&
      (r.Success? ==> r.value == parseFloat(features[name]).value) &&
      (r.Failure? ==> r.error == ValueError(features[name]))
  {
    if name !in features then Success(0.0)
    else match parseFloat(features[name])
      case Some(v) => Success(v)
      case None => Failure(ValueError(features[name]))
  }
}
