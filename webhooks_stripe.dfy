/**
 * The checkout-completed handler of pages/api/webhooks/stripe.ts: after the
 * metadata check it inserts a `purchases` row on every delivery, with no
 * look-up of the session first.
 */
module WebhooksStripe {
  import opened Shared
  import opened Stripe
  import StripeWebhook

  /** The response status and the `purchases` table after one delivery. */
  datatype Outcome = Outcome(status: int, purchases: seq<Purchase>)

  /** One delivery; `insertFails` says whether the insert reports an error. */
  function Reconcile(ps: seq<Purchase>, req: Request, construct: ConstructEvent, secret: string,
                     insertFails: bool): (o: Outcome)
    ensures req.httpMethod != Post ==> o == Outcome(MethodNotAllowed, ps)
    ensures (req.httpMethod == Post && construct(req.rawBody, req.signature, secret).None?)
            ==> o == Outcome(BadRequest, ps)
    ensures o.status != Ok ==> o.purchases == ps
    ensures o.status in {Ok, BadRequest, MethodNotAllowed, ServerError}
    // the table changes only by exactly one appended row
    ensures o.purchases == ps || (o.status == Ok && |o.purchases| == |ps| + 1 && o.purchases[..|ps|] == ps)
  {
    if req.httpMethod != Post then Outcome(MethodNotAllowed, ps)
    else match construct(req.rawBody, req.signature, secret)
      case None => Outcome(BadRequest, ps)
      case Some(event) =>
        if event.eventType != CheckoutSessionCompleted then Outcome(Ok, ps)
        else
          var userId := MetadataValue(event.session.metadata, "user_id");
          var listingId := MetadataValue(event.session.metadata, "listing_id");
          var sid := event.session.id;
          if !Truthy(userId) || !Truthy(listingId) || sid == "" then Outcome(BadRequest, ps)
          else if insertFails then Outcome(ServerError, ps)
          else
            assert (ps + [Purchase(userId.value, listingId.value, sid)])[..|ps|] == ps;
            Outcome(Ok, ps + [Purchase(userId.value, listingId.value, sid)])
  }

  /** Events of any other type are acknowledged with the table untouched. */
  lemma OtherEventsAcknowledged(ps: seq<Purchase>, req: Request, construct: ConstructEvent,
                                secret: string, insertFails: bool, event: Event)
    requires req.httpMethod == Post && construct(req.rawBody, req.signature, secret) == Some(event)
    requires event.eventType != CheckoutSessionCompleted
    ensures Reconcile(ps, req, construct, secret, insertFails) == Outcome(Ok, ps)
  {
  }

  /**
   * For a verified checkout event: a missing `user_id`, `listing_id` or
   * session id answers 400; otherwise a failing insert answers 500, and a
   * succeeding one appends {user_id, listing_id, session_id} and answers 200.
   */
  lemma CheckoutOutcome(ps: seq<Purchase>, req: Request, construct: ConstructEvent,
                        secret: string, insertFails: bool, event: Event)
    requires StripeWebhook.VerifiedCheckout(req, construct, secret, event)
    ensures var o := Reconcile(ps, req, construct, secret, insertFails);
            var md := event.session.metadata;
            var complete := Truthy(MetadataValue(md, "user_id")) && Truthy(MetadataValue(md, "listing_id"))
                            && event.session.id != "";
            && (!complete ==> o == Outcome(BadRequest, ps))
            && ((complete && insertFails) ==> o == Outcome(ServerError, ps))
            && ((complete && !insertFails)
                ==> o == Outcome(Ok, ps + [Purchase(md.value["user_id"], md.value["listing_id"], event.session.id)]))
  {
  }

  /** A verified checkout event that passes the metadata check. */
  predicate Accepted(req: Request, construct: ConstructEvent, secret: string, event: Event) {
    && StripeWebhook.VerifiedCheckout(req, construct, secret, event)
    && Truthy(MetadataValue(event.session.metadata, "user_id"))
    && Truthy(MetadataValue(event.session.metadata, "listing_id"))
    && event.session.id != ""
  }

  /** The row an accepted event inserts. */
  function RowOf(event: Event): Purchase
    requires event.session.metadata.Some?
  {
    var md := event.session.metadata.value;
    Purchase(if "user_id" in md then md["user_id"] else "",
             if "listing_id" in md then md["listing_id"] else "", event.session.id)
  }

  /**
   * Without a look-up, a second successful delivery of the same event adds a
   * second row for the same session: the table no longer holds one row per
   * session, whatever it held before.
   */
  lemma RedeliveryDuplicates(ps: seq<Purchase>, req: Request, construct: ConstructEvent, secret: string,
                             event: Event)
    requires Accepted(req, construct, secret, event)
    ensures var once := Reconcile(ps, req, construct, secret, false);
            var twice := Reconcile(once.purchases, req, construct, secret, false);
            && once == Outcome(Ok, ps + [RowOf(event)])
            && twice == Outcome(Ok, ps + [RowOf(event), RowOf(event)])
            && SessionCount(twice.purchases, event.session.id) == SessionCount(ps, event.session.id) + 2
            && !UniqueSessions(twice.purchases)
  {
    var p := RowOf(event);
    CheckoutOutcome(ps, req, construct, secret, false, event);
    CheckoutOutcome(ps + [p], req, construct, secret, false, event);
    var twice := ps + [p] + [p];
    assert twice == ps + [p, p];
    SessionCountAppend(ps, p, p.sessionId);
    SessionCountAppend(ps + [p], p, p.sessionId);
    assert twice[|ps|] == p && twice[|ps| + 1] == p;
  }

  /**
   * The two revisions share the `purchases` table. Once this handler has
   * recorded a session twice, the idempotent handler's `maybeSingle()`
   * look-up for that session fails on every later delivery: it answers 500
   * and never acknowledges the event.
   */
  lemma DuplicatesStallIdempotentHandler(ps: seq<Purchase>, req: Request, construct: ConstructEvent,
                                         secret: string, event: Event, faults: StripeWebhook.StoreFaults)
    requires Accepted(req, construct, secret, event)
    ensures var twice := Reconcile(Reconcile(ps, req, construct, secret, false).purchases,
                                   req, construct, secret, false);
            StripeWebhook.Reconcile(twice.purchases, req, construct, secret, faults)
              == StripeWebhook.Outcome(ServerError, twice.purchases)
  {
    RedeliveryDuplicates(ps, req, construct, secret, event);
  }

  /** The `purchases` table as this handler sees it. */
  class PurchasesTable {
    var rows: seq<Purchase>

    constructor (initial: seq<Purchase>)
      ensures rows == initial
    {
      rows := initial;
    }

    /** `handler`: guarded early returns, then an unconditional insert. */
    method Handler(req: Request, construct: ConstructEvent, secret: string, insertFails: bool)
      returns (status: int)
      modifies this
      ensures Outcome(status, rows) == Reconcile(old(rows), req, construct, secret, insertFails)
    {
      if req.httpMethod != Post {
        return MethodNotAllowed;
      }
      var verified := construct(req.rawBody, req.signature, secret);
      if verified.None? {
        return BadRequest;
      }
      var event := verified.value;
      if event.eventType == CheckoutSessionCompleted {
        var session := event.session;
        var userId := MetadataValue(session.metadata, "user_id");
        var listingId := MetadataValue(session.metadata, "listing_id");
        if !Truthy(userId) || !Truthy(listingId) || session.id == "" {
          return BadRequest;
        }
        if insertFails {
          return ServerError;
        }
        rows := rows + [Purchase(userId.value, listingId.value, session.id)];
      }
      return Ok;
    }
  }
}
