/**
  The two scripts meet only in the store: ingestion writes a customer's
  record under `str(customer_id)`, and scoring reads it back under the same
  rendering. These lemmas follow a written record through the read path.
 */
module StoreRoundTrip {
  import opened Wrappers
  import opened FeatureStore
  import UpdateFeatureStore
  import RealTimeInference

  /**
    The record that ingestion writes for a row is addressed by exactly the
    request that scoring issues for that row's customer, and by no other
    customer's request.
   */
  lemma WrittenUnderReadKey(row: UpdateFeatureStore.Row, other: int)
    requires UpdateFeatureStore.Timestamped(row)
    ensures var req := UpdateFeatureStore.EncodeRow(row);
      RecordRequestFor(row.customerId) == GetRecordRequest(req.featureGroupName, req.record[0].value)
    ensures other != row.customerId ==> RecordRequestFor(other) != RecordRequestFor(row.customerId)
  {
    if RecordRequestFor(other) == RecordRequestFor(row.customerId) {
      RecordRequestForInjective(other, row.customerId);
    }
  }

  /**
    When the store answers a customer's lookup with the record ingested from
    `row`, scoring sees all four features and scores `row`'s purchase value.
   */
  lemma ScoreOfIngestedRow(row: UpdateFeatureStore.Row, getRecord: GetRecordRequest -> GetRecordOutcome,
                           parseFloat: string -> Option<real>, predict: seq<seq<real>> -> seq<real>)
    requires UpdateFeatureStore.Timestamped(row)
    requires getRecord(RecordRequestFor(row.customerId)) == Response(Some(UpdateFeatureStore.EncodeRow(row).record))
    ensures RealTimeInference.GetLatestFeatures(row.customerId, getRecord)
      == Some(ToFeatureMap(UpdateFeatureStore.EncodeRow(row).record))
    ensures parseFloat(row.purchaseValue).None? ==>
      RealTimeInference.Score(row.customerId, getRecord, parseFloat, predict) == Failure(ValueError(row.purchaseValue))
    ensures parseFloat(row.purchaseValue).Some? ==>
      var x := parseFloat(row.purchaseValue).value;
      RealTimeInference.Score(row.customerId, getRecord, parseFloat, predict)
        == if predict([[x]]) == [] then Failure(IndexError) else Success(Some(predict([[x]])[0]))
  {
    UpdateFeatureStore.DecodeEncodedRow(row);
  }
}
