/**
 * The checkout-completed handler of pages/api/stripe-webhooks.ts: it inserts
 * a `purchases` row with the columns `listing_id`, `buyer_id` and
 * `stripe_session_id` when both metadata values are present, never looks at
 * the insert's result, and acknowledges every verified event.
 */
module StripeWebhooks {
  import opened Shared
  import opened Stripe

  /** The row this revision writes. */
  datatype BuyerPurchase = BuyerPurchase(listingId: string, buyerId: string, stripeSessionId: string)

  /** The response status and the `purchases` table after one delivery. */
  datatype Outcome = Outcome(status: int, purchases: seq<BuyerPurchase>)

  /** One delivery; `insertFails` says whether the (unchecked) insert fails. */
  function Reconcile(ps: seq<BuyerPurchase>, req: Request, construct: ConstructEvent, secret: string,
                     insertFails: bool): (o: Outcome)
    ensures req.httpMethod != Post ==> o == Outcome(MethodNotAllowed, ps)
    ensures (req.httpMethod == Post && construct(req.rawBody, req.signature, secret).None?)
            ==> o == Outcome(BadRequest, ps)
    // once verification has passed the answer is 200, whatever the insert did
    ensures (req.httpMethod == Post && construct(req.rawBody, req.signature, secret).Some?) ==> o.status == Ok
    ensures o.status != Ok ==> o.purchases == ps
    ensures o.purchases == ps || (|o.purchases| == |ps| + 1 && o.purchases[..|ps|] == ps)
  {
    if req.httpMethod != Post then Outcome(MethodNotAllowed, ps)
    else match construct(req.rawBody, req.signature, secret)
      case None => Outcome(BadRequest, ps)
      case Some(event) =>
        if event.eventType != CheckoutSessionCompleted then Outcome(Ok, ps)
        else
          var listingId := MetadataValue(event.session.metadata, "listing_id");
          var userId := MetadataValue(event.session.metadata, "user_id");
          if Truthy(listingId) && Truthy(userId) && !insertFails then
            var row := BuyerPurchase(listingId.value, userId.value, event.session.id);
            assert (ps + [row])[..|ps|] == ps;
            Outcome(Ok, ps + [row])
          else Outcome(Ok, ps)
  }

  /** Events of any other type are acknowledged with the table untouched. */
  lemma OtherEventsAcknowledged(ps: seq<BuyerPurchase>, req: Request, construct: ConstructEvent,
                                secret: string, insertFails: bool, event: Event)
    requires req.httpMethod == Post && construct(req.rawBody, req.signature, secret) == Some(event)
    requires event.eventType != CheckoutSessionCompleted
    ensures Reconcile(ps, req, construct, secret, insertFails) == Outcome(Ok, ps)
  {
  }

  /**
   * For a verified checkout event: with both metadata values and a working
   * store exactly the row {listing_id, buyer_id, stripe_session_id} is
   * appended; missing metadata or a failed insert changes nothing. The
   * status is 200 in every case.
   */
  lemma CheckoutOutcome(ps: seq<BuyerPurchase>, req: Request, construct: ConstructEvent, secret: string,
                        insertFails: bool, event: Event)
    requires req.httpMethod == Post && construct(req.rawBody, req.signature, secret) == Some(event)
    requires event.eventType == CheckoutSessionCompleted
    ensures var o := Reconcile(ps, req, construct, secret, insertFails);
            var md := event.session.metadata;
            var complete := Truthy(MetadataValue(md, "listing_id")) && Truthy(MetadataValue(md, "user_id"));
            && o.status == Ok
            && ((complete && !insertFails)
                ==> o.purchases == ps + [BuyerPurchase(md.value["listing_id"], md.value["user_id"], event.session.id)])
            && ((!complete || insertFails) ==> o.purchases == ps)
  {
  }

  /**
   * A lost insert is acknowledged all the same: the event is answered 200,
   * so the payment provider never redelivers it, and no row records it.
   */
  lemma FailedInsertAcknowledged(ps: seq<BuyerPurchase>, req: Request, construct: ConstructEvent,
                                 secret: string)
    requires req.httpMethod == Post && construct(req.rawBody, req.signature, secret).Some?
    ensures Reconcile(ps, req, construct, secret, true) == Outcome(Ok, ps)
  {
  }

  /** The `purchases` table as this handler sees it. */
  class PurchasesTable {
    var rows: seq<BuyerPurchase>

    constructor (initial: seq<BuyerPurchase>)
      ensures rows == initial
    {
      rows := initial;
    }

    /** `handler`: the conditional, unchecked insert, then `res.json({ received: true })`. */
    method Handler(req: Request, construct: ConstructEvent, secret: string, insertFails: bool)
      returns (status: int)
      modifies this
      ensures Outcome(status, rows) == Reconcile(old(rows), req, construct, secret, insertFails)
    {
      if req.httpMethod != Post {
        return MethodNotAllowed;
      }
      var verified := construct(req.rawBody, req.signature, secret);
      if verified.None? {
        return BadRequest;
      }
      var event := verified.value;
      if event.eventType == CheckoutSessionCompleted {
        var listingId := MetadataValue(event.session.metadata, "listing_id");
        var userId := MetadataValue(event.session.metadata, "user_id");
        if Truthy(listingId) && Truthy(userId) {
          // the insert's result is discarded; a failed insert leaves no row
          if !insertFails {
            rows := rows + [BuyerPurchase(listingId.value, userId.value, event.session.id)];
          }
        }
      }
      return Ok;
    }
  }
}
