/**
  Streaming ingestion: every row (already sorted ascending by purchase time)
  is encoded into a `CustomerTransactions` record, stored under its customer
  id in the script's module-level dictionary, overwriting whatever was there,
  and then sent with `put_record`, whose failure is reported and otherwise
  ignored. Also the ingestion script's read-back of a customer's features.
 */
module UpdateFeatureStore {
  import opened Wrappers
  import opened FeatureStore
  import EventTime

  /**
    One row of the transaction data set, after `to_datetime`. A missing
    purchase time becomes `None` there (pandas' NaT).
   */
  datatype Row = Row(
    customerId: int,
    purchaseTimestamp: Option<EventTime.Timestamp>,
    purchaseValue: string,   // the purchase value as Python renders it
    loyaltyScore: string)    // the loyalty score as Python renders it

  /** A row as pandas can hold it: a purchase time, if present, is a real calendar time. */
  predicate WellFormed(row: Row) {
    row.purchaseTimestamp.Some? ==> EventTime.Valid(row.purchaseTimestamp.value)
  }

  predicate AllWellFormed(rows: seq<Row>) {
    forall i :: 0 <= i < |rows| ==> WellFormed(rows[i])
  }

  /** A row that can be encoded: it carries a purchase time. */
  predicate Timestamped(row: Row) {
    row.purchaseTimestamp.Some? && EventTime.Valid(row.purchaseTimestamp.value)
  }

  predicate AllTimestamped(rows: seq<Row>) {
    forall i :: 0 <= i < |rows| ==> Timestamped(rows[i])
  }

  /** The dictionary entry and `put_record` arguments built from one row. */
  function EncodeRow(row: Row): PutRecordRequest
    requires Timestamped(row)
  {
    PutRecordRequest(FeatureGroupName, [
      Feature(CustomerIdName, RecordIdentifier(row.customerId)),
      Feature(EventTimeName, EventTime.Format(row.purchaseTimestamp.value)),
      Feature(PurchaseValueName, row.purchaseValue),
      Feature(LoyaltyScoreName, row.loyaltyScore)
    ])
  }

  /**
    Every record is for the `CustomerTransactions` group and holds exactly the
    four features customer_id, event_time, latest_purchase_value and
    latest_loyalty_score, in that order; its identifier is the one a later
    lookup for the same customer asks for.
   */
  lemma EncodedRecordSchema(row: Row)
    requires Timestamped(row)
    ensures var req := EncodeRow(row);
      && req.featureGroupName == FeatureGroupName
      && |req.record| == 4
      && req.record[0].name == CustomerIdName && req.record[1].name == EventTimeName
      && req.record[2].name == PurchaseValueName && req.record[3].name == LoyaltyScoreName
      && req.record[0].value == RecordRequestFor(row.customerId).recordIdentifier
      && req.featureGroupName == RecordRequestFor(row.customerId).featureGroupName
  {
  }

  /**
    Decoding an encoded record gives back the row: the four names as keys,
    the id's rendering, the rendered time and the two values as they were.
   */
  lemma {:induction false} DecodeEncodedRow(row: Row)
    requires Timestamped(row)
    ensures var m := ToFeatureMap(EncodeRow(row).record);
      && m.Keys == {CustomerIdName, EventTimeName, PurchaseValueName, LoyaltyScoreName}
      && m[CustomerIdName] == RecordIdentifier(row.customerId)
      && m[EventTimeName] == EventTime.Format(row.purchaseTimestamp.value)
      && m[PurchaseValueName] == row.purchaseValue
      && m[LoyaltyScoreName] == row.loyaltyScore
  {
    var rec := EncodeRow(row).record;
    var m := ToFeatureMap(rec);
    ToFeatureMapLastWins(rec, 0);
    ToFeatureMapLastWins(rec, 1);
    ToFeatureMapLastWins(rec, 2);
    ToFeatureMapLastWins(rec, 3);
    var names := {CustomerIdName, EventTimeName, PurchaseValueName, LoyaltyScoreName};
    forall k | k in m
      ensures k in names
    {
      var f :| f in rec && f.name == k;
      assert f == rec[0] || f == rec[1] || f == rec[2] || f == rec[3];
    }
    assert m.Keys == names;
  }

  /** The sort's order on purchase times: ascending, with missing times last. */
  predicate SortsBefore(a: Option<EventTime.Timestamp>, b: Option<EventTime.Timestamp>) {
    b.None? || (a.Some? && EventTime.NotAfter(a.value, b.value))
  }

  /** The ingestion driver's precondition: rows in ascending purchase-time order, NaT last. */
  predicate SortedByTimestamp(rows: seq<Row>) {
    forall i, j :: 0 <= i < j < |rows| ==> SortsBefore(rows[i].purchaseTimestamp, rows[j].purchaseTimestamp)
  }

  /**
    The dictionary that streaming `rows` into an empty one leaves: each id
    seen, holding the record of the last row processed for it.
   */
  function LatestRecords(rows: seq<Row>): (m: map<int, PutRecordRequest>)
    requires AllTimestamped(rows)
    ensures m.Keys == set r | r in rows :: r.customerId
  {
    if rows == [] then map[]
    else
      var init := rows[..|rows| - 1];
      var last := rows[|rows| - 1];
      assert forall r :: r in rows <==> r in init || r == last;
      LatestRecords(init)[last.customerId := EncodeRow(last)]
  }

  /** Row `i` is the last row for its customer. */
  predicate IsLastRowFor(rows: seq<Row>, i: int) {
    && 0 <= i < |rows|
    && forall j :: i < j < |rows| ==> rows[j].customerId != rows[i].customerId
  }

  /** The entry for a customer is the record of the last row for it. */
  lemma {:induction false} LatestRecordsLastRowWins(rows: seq<Row>, i: int)
    requires AllTimestamped(rows) && IsLastRowFor(rows, i)
    ensures LatestRecords(rows)[rows[i].customerId] == EncodeRow(rows[i])
  {
    if i < |rows| - 1 {
      LatestRecordsLastRowWins(rows[..|rows| - 1], i);
    }
  }

  /** Every row's customer has a last row, at or after it. */
  lemma {:induction false} LastRowForExists(rows: seq<Row>, k: int)
    requires 0 <= k < |rows|
    ensures exists i :: k <= i && IsLastRowFor(rows, i) && rows[i].customerId == rows[k].customerId
    decreases |rows| - k
  {
    if !IsLastRowFor(rows, k) {
      var j :| k < j < |rows| && rows[j].customerId == rows[k].customerId;
      LastRowForExists(rows, j);
    }
  }

  /**
    With rows sorted by purchase time, each customer's entry is built from a
    row of that customer whose timestamp is not earlier than any other row of
    that customer. (Which of several rows with equal timestamps wins is not
    stated: the sort does not fix the order of ties.)
   */
  lemma SortedLatestIsNewest(rows: seq<Row>, k: int)
    requires AllTimestamped(rows) && SortedByTimestamp(rows) && 0 <= k < |rows|
    ensures exists i :: (
      && 0 <= i < |rows| && rows[i].customerId == rows[k].customerId
      && LatestRecords(rows)[rows[k].customerId] == EncodeRow(rows[i])
      && EventTime.NotAfter(rows[k].purchaseTimestamp.value, rows[i].purchaseTimestamp.value))
  {
    LastRowForExists(rows, k);
    var i :| k <= i && IsLastRowFor(rows, i) && rows[i].customerId == rows[k].customerId;
    LatestRecordsLastRowWins(rows, i);
    if k < i {
      assert SortsBefore(rows[k].purchaseTimestamp, rows[i].purchaseTimestamp);
    } else {
      NotAfterReflexive(rows[k].purchaseTimestamp.value);
    }
  }

  lemma NotAfterReflexive(t: EventTime.Timestamp)
    ensures EventTime.NotAfter(t, t)
  {
  }

  /**
    There is no staleness check: a row older than the entry it replaces still
    replaces it. Only the ascending pre-sort keeps the newest row last.
   */
  lemma OlderRowStillOverwrites(rows: seq<Row>, r: Row)
    requires AllTimestamped(rows) && Timestamped(r)
    ensures AllTimestamped(rows + [r])
    ensures LatestRecords(rows + [r]) == LatestRecords(rows)[r.customerId := EncodeRow(r)]
  {
    assert (rows + [r])[..|rows|] == rows;
    assert (rows + [r])[|rows|] == r;
  }

  /** Overriding with an updated map is updating the override. */
  lemma UnionUpdate<K, V>(m: map<K, V>, l: map<K, V>, k: K, v: V)
    ensures (m + l)[k := v] == m + l[k := v]
  {
  }

  /** Streaming two batches is streaming the first, then overwriting with the second's entries. */
  lemma {:induction false} LatestRecordsAppend(a: seq<Row>, b: seq<Row>)
    requires AllTimestamped(a) && AllTimestamped(b)
    ensures AllTimestamped(a + b)
    ensures LatestRecords(a + b) == LatestRecords(a) + LatestRecords(b)
  {
    if b == [] {
      assert a + b == a;
    } else {
      var b', r := b[..|b| - 1], b[|b| - 1];
      assert a + b == (a + b') + [r];
      assert b == b' + [r];
      OlderRowStillOverwrites(a + b', r);
      OlderRowStillOverwrites(b', r);
      LatestRecordsAppend(a, b');
      UnionUpdate(LatestRecords(a), LatestRecords(b'), r.customerId, EncodeRow(r));
    }
  }

  /** Streaming the same batch twice leaves the dictionary as streaming it once. */
  lemma LatestRecordsIdempotent(rows: seq<Row>)
    requires AllTimestamped(rows)
    ensures AllTimestamped(rows + rows)
    ensures LatestRecords(rows + rows) == LatestRecords(rows)
  {
    LatestRecordsAppend(rows, rows);
  }

  /** One `put_record` call as issued: its arguments and whether it returned normally. */
  datatype PutAttempt = PutAttempt(request: PutRecordRequest, succeeded: bool)

  function Attempts(rows: seq<Row>, outcomes: seq<bool>): (r: seq<PutAttempt>)
    requires AllTimestamped(rows) && |outcomes| == |rows|
    ensures |r| == |rows|
    ensures forall i :: 0 <= i < |rows| ==> r[i] == PutAttempt(EncodeRow(rows[i]), outcomes[i])
  {
    if rows == [] then
      []
    else
      Attempts(rows[..|rows| - 1], outcomes[..|rows| - 1])
        + [PutAttempt(EncodeRow(rows[|rows| - 1]), outcomes[|rows| - 1])]
  }

  /** One more row streamed: the entry for its customer is replaced and one attempt is appended. */
  lemma StreamStep(m: map<int, PutRecordRequest>, a: seq<PutAttempt>, rows: seq<Row>, outcomes: seq<bool>, i: int)
    requires |outcomes| == |rows| && 0 <= i < |rows| && AllTimestamped(rows[..i + 1])
    ensures AllTimestamped(rows[..i]) && Timestamped(rows[i])
    ensures m + LatestRecords(rows[..i + 1])
      == (m + LatestRecords(rows[..i]))[rows[i].customerId := EncodeRow(rows[i])]
    ensures a + Attempts(rows[..i + 1], outcomes[..i + 1])
      == a + Attempts(rows[..i], outcomes[..i]) + [PutAttempt(EncodeRow(rows[i]), outcomes[i])]
  {
    assert rows[..i + 1][..i] == rows[..i];
    assert rows[..i + 1][i] == rows[i];
    assert outcomes[..i + 1][..i] == outcomes[..i];
    assert rows[..i + 1] == rows[..i] + [rows[i]];
    OlderRowStillOverwrites(rows[..i], rows[i]);
    UnionUpdate(m, LatestRecords(rows[..i]), rows[i].customerId, EncodeRow(rows[i]));
  }

  /**
    How many rows the streaming loop gets through: the rows before the first
    one without a purchase time, or all of them.
   */
  function StreamedPrefix(rows: seq<Row>): (n: nat)
    ensures n <= |rows|
    ensures forall i :: 0 <= i < n ==> rows[i].purchaseTimestamp.Some?
    ensures n < |rows| ==> rows[n].purchaseTimestamp.None?
  {
    if rows == [] || rows[0].purchaseTimestamp.None? then 0
    else 1 + StreamedPrefix(rows[1..])
  }

  /** The rows the loop gets through all carry a purchase time. */
  lemma StreamedRowsTimestamped(rows: seq<Row>, k: int)
    requires AllWellFormed(rows) && 0 <= k <= StreamedPrefix(rows)
    ensures AllTimestamped(rows[..k])
  {
    forall j | 0 <= j < k
      ensures Timestamped(rows[..k][j])
    {
      assert rows[..k][j] == rows[j];
    }
  }

  /**
    Rows sorted with missing times last lose nothing but those rows: every
    row the loop does not reach lacks a purchase time.
   */
  lemma SortedStreamStopsOnlyAtNaT(rows: seq<Row>, j: int)
    requires SortedByTimestamp(rows) && StreamedPrefix(rows) <= j < |rows|
    ensures rows[j].purchaseTimestamp.None?
  {
    var n := StreamedPrefix(rows);
    if n < j {
      assert SortsBefore(rows[n].purchaseTimestamp, rows[j].purchaseTimestamp);
    }
  }

  /** The exception a row without a purchase time raises when its time is rendered. */
  const NaTRenderError: Raised := ValueError("NaTType does not support strftime")

  /**
    The script's module-level state: the `latest_customer_records` dictionary,
    and the `put_record` calls issued so far with their outcomes (what the
    script reports per customer).
   */
  class StreamingUpdater {
    var latestCustomerRecords: map<int, PutRecordRequest>
    var attempts: seq<PutAttempt>

    constructor ()
      ensures latestCustomerRecords == map[] && attempts == []
    {
      latestCustomerRecords := map[];
      attempts := [];
    }

    /**
      `update_feature_store(row)`: the entry for the row's customer becomes the
      row's record whatever it held before, no other entry changes, and one
      `put_record` with that entry is issued. `putSucceeds` is the outcome of
      that call; a failure is caught and leaves the dictionary updated.
      A row without a purchase time raises while its time is rendered, before
      anything is stored or sent; that exception is not caught.
     */
    method UpdateFeatureStore(row: Row, putSucceeds: bool) returns (error: Option<Raised>)
      requires WellFormed(row)
      modifies this
      ensures row.purchaseTimestamp.None? ==>
        && error == Some(NaTRenderError)
        && latestCustomerRecords == old(latestCustomerRecords) && attempts == old(attempts)
      ensures row.purchaseTimestamp.Some? ==>
        && error == None
        && latestCustomerRecords == old(latestCustomerRecords)[row.customerId := EncodeRow(row)]
        && attempts == old(attempts) + [PutAttempt(EncodeRow(row), putSucceeds)]
    {
      if row.purchaseTimestamp.None? {
        return Some(NaTRenderError);
      }
      latestCustomerRecords := latestCustomerRecords[row.customerId := EncodeRow(row)];
      var request := latestCustomerRecords[row.customerId];
      // A failed write is caught and only reported; nothing is undone.
      attempts := attempts + [PutAttempt(request, putSucceeds)];
      error := None;
    }

    /**
      The streaming loop: rows are processed in order, whatever the outcome
      of earlier writes, until one without a purchase time raises and ends
      the stream. The dictionary ends as its old contents overwritten by
      `LatestRecords` of the rows processed, one write is attempted per row
      processed, and an error is returned exactly when the stream was cut short.
     */
    method StreamRows(rows: seq<Row>, putOutcomes: seq<bool>) returns (error: Option<Raised>)
      requires AllWellFormed(rows) && |putOutcomes| == |rows|
      modifies this
      ensures var n := StreamedPrefix(rows);
        && AllTimestamped(rows[..n])
        && latestCustomerRecords == old(latestCustomerRecords) + LatestRecords(rows[..n])
        && attempts == old(attempts) + Attempts(rows[..n], putOutcomes[..n])
        && (error.None? <==> n == |rows|)
        && (error.Some? ==> error.value == NaTRenderError)
    {
      ghost var n := StreamedPrefix(rows);
      var i := 0;
      assert rows[..0] == [];
      while i < |rows|
        invariant 0 <= i <= n
        invariant AllTimestamped(rows[..i])
        invariant latestCustomerRecords == old(latestCustomerRecords) + LatestRecords(rows[..i])
        invariant attempts == old(attempts) + Attempts(rows[..i], putOutcomes[..i])
      {
        if rows[i].purchaseTimestamp.Some? {
          StreamedRowsTimestamped(rows, i + 1);
          StreamStep(old(latestCustomerRecords), old(attempts), rows, putOutcomes, i);
        }
        error := UpdateFeatureStore(rows[i], putOutcomes[i]);
        if error.Some? {
          assert i == n;
          return;
        }
        i := i + 1;
      }
      assert rows[..i] == rows;
      assert putOutcomes[..i] == putOutcomes;
      error := None;
    }
  }

  /**
    The ingestion script's `get_latest_features`: the record's pairs as a map,
    an empty map when the response has no `Record`; a client error is not
    caught and propagates.
   */
  function GetLatestFeatures(customerId: int, getRecord: GetRecordRequest -> GetRecordOutcome): (r: Result<map<string, string>, Raised>)
    ensures getRecord(RecordRequestFor(customerId)).ClientError? <==> r.Failure?
    ensures getRecord(RecordRequestFor(customerId)) == Response(None) ==> r == Success(map[])
    ensures getRecord(RecordRequestFor(customerId)).Response? && getRecord(RecordRequestFor(customerId)).record.Some? ==>
      r.Success? && r.value.Keys == set f | f in getRecord(RecordRequestFor(customerId)).record.value :: f.name
    ensures getRecord(RecordRequestFor(customerId)).Response? && getRecord(RecordRequestFor(customerId)).record.Some? ==>
      r == Success(ToFeatureMap(getRecord(RecordRequestFor(customerId)).record.value))
  {
    match getRecord(RecordRequestFor(customerId))
    case ClientError(message) => Failure(Unhandled(message))
    case Response(None) => Success(map[])
    case Response(Some(record)) => Success(ToFeatureMap(record))
  }

  /**
    The two values the ingestion script reads back: a customer without a
    stored record, or without either feature, reads as 0.0.
   */
  lemma MissingRecordReadsAsZero(customerId: int, getRecord: GetRecordRequest -> GetRecordOutcome, parseFloat: string -> Option<real>)
    requires getRecord(RecordRequestFor(customerId)) == Response(None)
    ensures var features := GetLatestFeatures(customerId, getRecord).value;
      && FeatureAsFloat(features, PurchaseValueName, parseFloat) == Success(0.0)
      && FeatureAsFloat(features, LoyaltyScoreName, parseFloat) == Success(0.0)
  {
  }
}
