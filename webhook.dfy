/**
 * The ingestion decision of the `/webhook` endpoint and the event store it
 * appends to. The store is an append-only sequence of records.
 */
module Webhook {
  import opened Optional
  import opened Timestamps
  import opened Events

  /** `{"message": "pong"}`, `{"status": "stored"}` or `{"status": "ignored"}`. */
  datatype Reply = Pong | Stored | Ignored

  /** The reply the endpoint gives for an event type and payload. */
  function Respond(event: string, p: Payload, first: Instant, second: Instant): (reply: Reply)
    ensures reply == Pong <==> event == "ping"
    ensures event == "push" ==> reply == Stored
    ensures event == "pull_request" ==> (reply == Stored <==> IsMergeEvent(p) || IsSubmissionEvent(p))
    ensures event != "push" && event != "pull_request" ==> reply != Stored
    ensures reply == Stored <==> Normalize(event, p, first, second).Some?
  {
    if event == "ping" then Pong
    else if Normalize(event, p, first, second).Some? then Stored
    else Ignored
  }

  /** What every record the normaliser produces satisfies. */
  predicate WellFormed(r: Record) {
    && (r.action == Push <==> r.fromBranch.None?)
    && (r.action != Push ==> r.author != "")
  }

  /** Every normalised record is well formed. */
  lemma NormalizedWellFormed(event: string, p: Payload, first: Instant, second: Instant)
    ensures Normalize(event, p, first, second).Some? ==> WellFormed(Normalize(event, p, first, second).value)
  {
  }

  /** Scenario: a closed, unmerged pull request is acknowledged as ignored. */
  lemma ClosedUnmergedRepliesIgnored(p: Payload, first: Instant, second: Instant)
    requires p.action == Some("closed") && !IsMerged(p)
    ensures Respond("pull_request", p, first, second) == Ignored
  {
  }

  class EventStore {
    /** The inserted records, oldest first. */
    var events: seq<Record>

    ghost predicate Valid()
      reads this
    {
      forall i :: 0 <= i < |events| ==> WellFormed(events[i])
    }

    constructor ()
      ensures Valid() && events == []
    {
      events := [];
    }

    /**
     * `webhook`: ping is answered without touching the store; a push or a
     * pull request is normalised and, when that gives a record, appended
     * exactly once; everything else is ignored.
     */
    method Receive(event: string, payload: Payload, first: Instant, second: Instant) returns (reply: Reply)
      requires Valid()
      modifies this
      ensures Valid()
      ensures reply == Respond(event, payload, first, second)
      ensures reply == Stored ==> events == old(events) + [Normalize(event, payload, first, second).value]
      ensures reply != Stored ==> events == old(events)
      ensures |events| == |old(events)| + 1 <==> reply == Stored
    {
      var doc: Option<Record> := None;
      if event == "push" {
        doc := Some(HandlePush(payload, first, second));
      } else if event == "pull_request" {
        doc := HandlePullRequest(payload, first, second);
      } else if event == "ping" {
        return Pong;
      }
      if doc.Some? {
        NormalizedWellFormed(event, payload, first, second);
        events := events + [doc.value];
        return Stored;
      }
      return Ignored;
    }
  }
}
