/**
  Waiting for the historical-feature query: poll the query's execution
  until its state is terminal, then hand back the result location or raise
  with the service's reason; and the object key the result is downloaded
  under.
 */
module HistoricalFeatures {
  import opened Wrappers
  import Text

  /** The parts of one `get_query_execution` response the poller reads. */
  datatype QueryExecution = QueryExecution(
    state: string,
    outputLocation: Option<string>,      // ResultConfiguration.OutputLocation
    stateChangeReason: Option<string>)   // Status.StateChangeReason

  /** One poll: the response received, or the client error the call raised. */
  datatype Poll = Polled(execution: QueryExecution) | PollRaised(message: string)

  /** How `wait_for_query` ends. */
  datatype QueryOutcome =
    | Completed(outputLocation: string)  // returned
    | QueryFailed(reason: string)        // the raised "Query failed" exception
    | KeyError(key: string)              // a response key it needed was missing
    | PollError(message: string)         // a poll raised; the exception propagates

  predicate IsTerminal(state: string) {
    state == "SUCCEEDED" || state == "FAILED" || state == "CANCELLED"
  }

  /** A poll after which the loop does not poll again: a raised call or a terminal state. */
  predicate EndsWait(p: Poll) {
    p.PollRaised? || IsTerminal(p.execution.state)
  }

  /**
    `wait_for_query` over its successive polls. The loop has no budget or
    deadline, so some poll must raise or reach a terminal state. It polls up
    to and including the first such poll and no further. A raised poll ends
    the wait with that error; otherwise the outcome is decided on the
    terminal response alone.
   */
  method WaitForQuery(responses: seq<Poll>) returns (outcome: QueryOutcome, polls: nat)
    requires exists k :: 0 <= k < |responses| && EndsWait(responses[k])
    ensures 1 <= polls <= |responses|
    ensures EndsWait(responses[polls - 1])
    ensures forall j :: 0 <= j < polls - 1 ==> !EndsWait(responses[j])
    ensures responses[polls - 1].PollRaised? ==> outcome == PollError(responses[polls - 1].message)
    ensures responses[polls - 1].Polled? ==>
      var last := responses[polls - 1].execution;
      && (outcome.Completed? <==> last.state == "SUCCEEDED" && last.outputLocation.Some?)
      && (outcome.Completed? ==> outcome.outputLocation == last.outputLocation.value)
      && (outcome.QueryFailed? <==> last.state != "SUCCEEDED" && last.stateChangeReason.Some?)
      && (outcome.QueryFailed? ==> outcome.reason == last.stateChangeReason.value)
      && (outcome.KeyError? <==> !outcome.Completed? && !outcome.QueryFailed?)
      && (outcome.KeyError? ==> outcome.key == (if last.state == "SUCCEEDED" then "OutputLocation" else "StateChangeReason"))
  {
    var response: QueryExecution;
    var state: string;
    polls := 0;
    while true
      invariant polls < |responses|
      invariant forall j :: 0 <= j < polls ==> !EndsWait(responses[j])
      decreases |responses| - polls
    {
      var poll := responses[polls];
      polls := polls + 1;
      if poll.PollRaised? {
        return PollError(poll.message), polls;
      }
      response := poll.execution;
      state := response.state;
      if IsTerminal(state) {
        break;
      }
    }
    if state == "SUCCEEDED" {
      match response.outputLocation
      case Some(location) => outcome := Completed(location);
      case None => outcome := KeyError("OutputLocation");
    } else {
      match response.stateChangeReason
      case Some(reason) => outcome := QueryFailed(reason);
      case None => outcome := KeyError("StateChangeReason");
    }
  }

  /**
    The last '/'-separated piece of the output location: the S3 object key the results are
    downloaded under. It holds no '/', is a suffix of the location, and is
    either the whole location or preceded there by a '/'.
   */
  function ResultKey(outputLocation: string): (key: string)
    ensures '/' !in key
    ensures |key| <= |outputLocation| && key == outputLocation[|outputLocation| - |key|..]
    ensures |key| < |outputLocation| ==> outputLocation[|outputLocation| - |key| - 1] == '/'
  {
    var parts := Text.Split(outputLocation, '/');
    parts[|parts| - 1]
  }

  /** The key is the longest suffix without '/': everything after the last '/'. */
  lemma ResultKeyIsAfterLastSlash(outputLocation: string, i: int)
    requires 0 <= i < |outputLocation| && outputLocation[i] == '/'
    ensures i < |outputLocation| - |ResultKey(outputLocation)|
  {
    var key := ResultKey(outputLocation);
    assert forall j :: |outputLocation| - |key| <= j < |outputLocation| ==>
      outputLocation[j] == key[j - (|outputLocation| - |key|)];
  }
}
