/**
 * What the four checkout-completed webhook handlers share: the request they
 * receive, the event that signature verification yields, the metadata keys
 * and the `purchases` rows keyed by checkout session.
 */
module Stripe {
  import opened Shared

  const Post: string := "POST"
  const CheckoutSessionCompleted: string := "checkout.session.completed"

  /** Response statuses. */
  const Ok: int := 200
  const BadRequest: int := 400
  const MethodNotAllowed: int := 405
  const ServerError: int := 500

  /** A session's metadata: absent, or string keys mapped to string values. */
  type Metadata = Option<map<string, string>>

  /** The part of a Checkout Session the handlers read. */
  datatype Session = Session(id: string, metadata: Metadata)

  /** A verified event: its type and the object it carries. */
  datatype Event = Event(eventType: string, session: Session)

  /** An incoming request: method, raw body and the `stripe-signature` header. */
  datatype Request = Request(httpMethod: string, rawBody: seq<bv8>, signature: Option<string>)

  /**
   * `stripe.webhooks.constructEvent(body, signature, secret)`: the parsed
   * event when the signature over the raw body checks out against the
   * endpoint secret, `None` where the SDK throws.
   */
  type ConstructEvent = (seq<bv8>, Option<string>, string) -> Option<Event>

  /** `session.metadata?.[key]`. */
  function MetadataValue(md: Metadata, key: string): (v: Option<string>)
    ensures v.Some? <==> md.Some? && key in md.value
    ensures v.Some? ==> v.value == md.value[key]
  {
    match md
    case None => None
    case Some(m) => if key in m then Some(m[key]) else None
  }

  /** JavaScript truthiness of an optional string: present and not empty. */
  predicate Truthy(v: Option<string>) {
    v.Some? && v.value != ""
  }

  /** The metadata the checkout-session endpoint attaches to every session it creates. */
  function CheckoutMetadata(listingId: string, userId: string): Metadata {
    Some(map["listing_id" := listingId, "user_id" := userId])
  }

  /** A `purchases` row with the columns `user_id`, `listing_id`, `session_id`. */
  datatype Purchase = Purchase(userId: string, listingId: string, sessionId: string)

  /** The number of rows recorded for checkout session `sid`. */
  function SessionCount(ps: seq<Purchase>, sid: string): (c: nat)
    ensures c <= |ps|
    ensures c == 0 <==> forall i :: 0 <= i < |ps| ==> ps[i].sessionId != sid
  {
    if ps == [] then 0
    else
      var c := SessionCount(ps[..|ps| - 1], sid);
      assert forall i :: 0 <= i < |ps| - 1 ==> ps[..|ps| - 1][i] == ps[i];
      c + if ps[|ps| - 1].sessionId == sid then 1 else 0
  }

  /** Appending one row raises its session's count by one and leaves every other count alone. */
  lemma SessionCountAppend(ps: seq<Purchase>, p: Purchase, sid: string)
    ensures SessionCount(ps + [p], sid) == SessionCount(ps, sid) + if p.sessionId == sid then 1 else 0
  {
    assert (ps + [p])[..|ps|] == ps;
  }

  /** At most one purchase per checkout session. */
  predicate UniqueSessions(ps: seq<Purchase>) {
    forall i, j :: 0 <= i < j < |ps| ==> ps[i].sessionId != ps[j].sessionId
  }
}
