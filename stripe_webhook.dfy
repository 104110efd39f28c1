/**
 * The idempotent checkout-completed handler of pages/api/stripe-webhook.ts:
 * it looks up the event's session in `purchases` and inserts a row only when
 * none is recorded yet.
 */
module StripeWebhook {
  import opened Shared
  import opened Stripe

  /**
   * Whether each of the two store calls fails, by an error result or by an
   * exception; both end in the same 500 response.
   */
  datatype StoreFaults = StoreFaults(lookupFails: bool, insertFails: bool)

  /** The response status and the `purchases` table after one delivery. */
  datatype Outcome = Outcome(status: int, purchases: seq<Purchase>)

  /**
   * One delivery to the handler. The session lookup uses `maybeSingle()`,
   * which reports an error when more than one row matches, so a table that
   * already holds duplicates for the session also ends in a 500.
   */
  function Reconcile(ps: seq<Purchase>, req: Request, construct: ConstructEvent, secret: string,
                     faults: StoreFaults): (o: Outcome)
    // a request that is not a POST is refused before anything else
    ensures req.httpMethod != Post ==> o == Outcome(MethodNotAllowed, ps)
    // a failed verification answers 400, whatever the store would have done
    ensures (req.httpMethod == Post && construct(req.rawBody, req.signature, secret).None?)
            ==> o == Outcome(BadRequest, ps)
    // every answer but 200 leaves the table as it was
    ensures o.status != Ok ==> o.purchases == ps
    ensures o.status in {Ok, BadRequest, MethodNotAllowed, ServerError}
    // the table changes only by one appended row for a session not yet recorded
    ensures o.purchases == ps
            || (o.status == Ok && |o.purchases| == |ps| + 1 && o.purchases[..|ps|] == ps
                && SessionCount(ps, o.purchases[|ps|].sessionId) == 0)
  {
    if req.httpMethod != Post then Outcome(MethodNotAllowed, ps)
    else match construct(req.rawBody, req.signature, secret)
      case None => Outcome(BadRequest, ps)
      case Some(event) =>
        if event.eventType != CheckoutSessionCompleted then Outcome(Ok, ps)
        else
          var listingId := MetadataValue(event.session.metadata, "listing_id");
          var userId := MetadataValue(event.session.metadata, "user_id");
          var sid := event.session.id;
          if !Truthy(listingId) || !Truthy(userId) then Outcome(BadRequest, ps)
          else if faults.lookupFails || SessionCount(ps, sid) > 1 then Outcome(ServerError, ps)
          else if SessionCount(ps, sid) == 1 then Outcome(Ok, ps)
          else if faults.insertFails then Outcome(ServerError, ps)
          else
            assert (ps + [Purchase(userId.value, listingId.value, sid)])[..|ps|] == ps;
            Outcome(Ok, ps + [Purchase(userId.value, listingId.value, sid)])
  }

  /** The request a verified checkout-completed event arrived in. */
  predicate VerifiedCheckout(req: Request, construct: ConstructEvent, secret: string, event: Event) {
    req.httpMethod == Post && construct(req.rawBody, req.signature, secret) == Some(event)
    && event.eventType == CheckoutSessionCompleted
  }

  /** Events of any other type are acknowledged with the table untouched. */
  lemma OtherEventsAcknowledged(ps: seq<Purchase>, req: Request, construct: ConstructEvent,
                                secret: string, faults: StoreFaults, event: Event)
    requires req.httpMethod == Post && construct(req.rawBody, req.signature, secret) == Some(event)
    requires event.eventType != CheckoutSessionCompleted
    ensures Reconcile(ps, req, construct, secret, faults) == Outcome(Ok, ps)
  {
  }

  /** A checkout event without a `listing_id` or `user_id` is refused with 400 and inserts nothing. */
  lemma MissingMetadataRefused(ps: seq<Purchase>, req: Request, construct: ConstructEvent,
                               secret: string, faults: StoreFaults, event: Event)
    requires VerifiedCheckout(req, construct, secret, event)
    requires !Truthy(MetadataValue(event.session.metadata, "listing_id"))
             || !Truthy(MetadataValue(event.session.metadata, "user_id"))
    ensures Reconcile(ps, req, construct, secret, faults) == Outcome(BadRequest, ps)
  {
  }

  /**
   * For a checkout event with both metadata values: a failing store call
   * answers 500 and leaves the table; a session already recorded answers 200
   * and inserts nothing; otherwise exactly the row {user_id, listing_id,
   * session_id} is appended.
   */
  lemma CheckoutOutcome(ps: seq<Purchase>, req: Request, construct: ConstructEvent,
                        secret: string, faults: StoreFaults, event: Event)
    requires VerifiedCheckout(req, construct, secret, event)
    requires Truthy(MetadataValue(event.session.metadata, "listing_id"))
    requires Truthy(MetadataValue(event.session.metadata, "user_id"))
    ensures var o := Reconcile(ps, req, construct, secret, faults);
            var sid := event.session.id;
            && (faults.lookupFails ==> o == Outcome(ServerError, ps))
            && (!faults.lookupFails && SessionCount(ps, sid) == 1 ==> o == Outcome(Ok, ps))
            && ((!faults.lookupFails && SessionCount(ps, sid) == 0 && faults.insertFails)
                ==> o == Outcome(ServerError, ps))
            && ((!faults.lookupFails && SessionCount(ps, sid) == 0 && !faults.insertFails)
                ==> o == Outcome(Ok, ps + [Purchase(event.session.metadata.value["user_id"],
                                                      event.session.metadata.value["listing_id"], sid)]))
  {
  }

  /**
   * Redelivery is harmless: handing the handler's own result the same
   * request again, with the store behaving the same, gives the same status
   * and the same table.
   */
  lemma Idempotent(ps: seq<Purchase>, req: Request, construct: ConstructEvent, secret: string,
                   faults: StoreFaults)
    ensures var o := Reconcile(ps, req, construct, secret, faults);
            Reconcile(o.purchases, req, construct, secret, faults) == o
  {
    var o := Reconcile(ps, req, construct, secret, faults);
    if o.purchases != ps {
      var event := construct(req.rawBody, req.signature, secret).value;
      var p := o.purchases[|ps|];
      assert o.purchases == ps + [p];
      assert p.sessionId == event.session.id;
      SessionCountAppend(ps, p, event.session.id);
    }
  }

  /** `n` deliveries of the same request, one after another. */
  function DeliverTimes(ps: seq<Purchase>, req: Request, construct: ConstructEvent, secret: string,
                        faults: StoreFaults, n: nat): seq<Purchase>
  {
    if n == 0 then ps
    else Reconcile(DeliverTimes(ps, req, construct, secret, faults, n - 1), req, construct, secret, faults).purchases
  }

  /** Any positive number of deliveries leaves the table one delivery leaves. */
  lemma {:induction false} RepeatedDelivery(ps: seq<Purchase>, req: Request, construct: ConstructEvent,
                                            secret: string, faults: StoreFaults, n: nat)
    requires n >= 1
    ensures DeliverTimes(ps, req, construct, secret, faults, n)
            == Reconcile(ps, req, construct, secret, faults).purchases
  {
    if n > 1 {
      RepeatedDelivery(ps, req, construct, secret, faults, n - 1);
      Idempotent(ps, req, construct, secret, faults);
    }
  }

  /** The handler keeps the table at most one row per checkout session. */
  lemma KeepsSessionsUnique(ps: seq<Purchase>, req: Request, construct: ConstructEvent, secret: string,
                            faults: StoreFaults)
    requires UniqueSessions(ps)
    ensures UniqueSessions(Reconcile(ps, req, construct, secret, faults).purchases)
  {
    var o := Reconcile(ps, req, construct, secret, faults);
    if o.purchases != ps {
      var p := o.purchases[|ps|];
      assert o.purchases == ps + [p];
      forall i, j | 0 <= i < j < |o.purchases|
        ensures o.purchases[i].sessionId != o.purchases[j].sessionId
      {
        if j == |ps| {
          assert o.purchases[i] == ps[i];
        } else {
          assert o.purchases[i] == ps[i] && o.purchases[j] == ps[j];
        }
      }
    }
  }

  /** The `purchases` table as the handler sees it. */
  class PurchasesTable {
    var rows: seq<Purchase>

    constructor (initial: seq<Purchase>)
      ensures rows == initial
    {
      rows := initial;
    }

    /** `handler`: guarded early returns, then the check-then-insert on `session_id`. */
    method Handler(req: Request, construct: ConstructEvent, secret: string, faults: StoreFaults)
      returns (status: int)
      modifies this
      ensures Outcome(status, rows) == Reconcile(old(rows), req, construct, secret, faults)
    {
      if req.httpMethod != Post {
        return MethodNotAllowed;
      }
      var verified := construct(req.rawBody, req.signature, secret);
      if verified.None? {
        return BadRequest;
      }
      var event := verified.value;
      if event.eventType == CheckoutSessionCompleted {
        var session := event.session;
        var listingId := MetadataValue(session.metadata, "listing_id");
        var userId := MetadataValue(session.metadata, "user_id");
        if !Truthy(listingId) || !Truthy(userId) {
          return BadRequest;
        }
        var existing := SessionCount(rows, session.id);
        if faults.lookupFails || existing > 1 {
          return ServerError;
        }
        if existing == 0 {
          if faults.insertFails {
            return ServerError;
          }
          rows := rows + [Purchase(userId.value, listingId.value, session.id)];
        }
      }
      return Ok;
    }
  }
}
