/**
 * The checkout-completed handler of pages/api/webhooks.ts: it looks the
 * listing up in the catalog and records a `transactions` row priced at the
 * catalog's current price.
 */
module Webhooks {
  import opened Shared
  import opened Stripe

  /** A `listings` row, as far as this handler reads it. */
  datatype CatalogListing = CatalogListing(id: string, price: int)

  /**
   * A `transactions` row. The two identifiers are whatever the metadata
   * held, `undefined` included.
   */
  datatype Transaction = Transaction(listingId: Option<string>, buyerId: Option<string>, purchasePrice: int)

  /** The metadata keys the handler reads the listing and the buyer from. */
  datatype MetadataKeys = MetadataKeys(listing: string, buyer: string)

  /** The keys the handler reads. */
  const AsWrittenKeys := MetadataKeys("listingId", "buyerId")

  /** The keys the checkout-session endpoint writes. */
  const CheckoutKeys := MetadataKeys("listing_id", "user_id")

  /** Whether the listing look-up reports an error, and whether the (unchecked) insert fails. */
  datatype StoreFaults = StoreFaults(lookupFails: bool, insertFails: bool)

  /** The response status and the `transactions` table after one delivery. */
  datatype Outcome = Outcome(status: int, transactions: seq<Transaction>)

  /** The catalog rows whose `id` equals `id`, in table order: `.eq('id', id)`. */
  function Matches(listings: seq<CatalogListing>, id: string): (r: seq<CatalogListing>)
    ensures forall k :: 0 <= k < |r| ==> r[k] in listings && r[k].id == id
    // every row carrying the id comes back, as often as the catalog holds it, and no other row
    ensures forall l :: multiset(r)[l] == if l.id == id then multiset(listings)[l] else 0
  {
    FilterCounts(listings, (l: CatalogListing) => l.id == id);
    Filter(listings, (l: CatalogListing) => l.id == id)
  }

  /** When only position `idx` holds `id`, the matches are that row alone. */
  lemma MatchesSingle(listings: seq<CatalogListing>, id: string, idx: nat)
    requires idx < |listings|
    requires forall k :: 0 <= k < |listings| ==> (listings[k].id == id <==> k == idx)
    ensures Matches(listings, id) == [listings[idx]]
  {
    var r := Matches(listings, id);
    var x := listings[idx];
    assert listings == listings[..idx] + [x] + listings[idx + 1..];
    assert x !in listings[..idx] && x !in listings[idx + 1..] by {
      forall k | 0 <= k < idx ensures listings[..idx][k] != x { assert listings[..idx][k] == listings[k]; }
      var tail := listings[idx + 1..];
      forall k | 0 <= k < |tail| ensures tail[k] != x { assert tail[k] == listings[idx + 1 + k]; }
    }
    assert multiset(r)[x] == 1;
    assert |r| == 1 by {
      assert multiset(r) == multiset{x} by {
        forall l ensures multiset(r)[l] == multiset{x}[l] {
          if l.id == id && l != x {
            assert l !in listings;
          }
        }
      }
    }
    assert r[0] in multiset(r);
  }

  /** When no row holds `id`, nothing matches. */
  lemma MatchesNone(listings: seq<CatalogListing>, id: string)
    requires forall k :: 0 <= k < |listings| ==> listings[k].id != id
    ensures Matches(listings, id) == []
  {
    var r := Matches(listings, id);
    assert forall l :: multiset(r)[l] == 0;
  }

  /**
   * `.from('listings').select('*').eq('id', id).single()`: the row when the
   * query succeeds and exactly one row matches, otherwise `null`. An
   * `undefined` id matches no row.
   */
  function FindListing(listings: seq<CatalogListing>, id: Option<string>, lookupFails: bool)
    : (r: Option<CatalogListing>)
    ensures r.Some? <==> !lookupFails && id.Some? && |Matches(listings, id.value)| == 1
    ensures r.Some? ==> r.value in listings && r.value.id == id.value
  {
    if lookupFails || id.None? then None
    else
      var ms := Matches(listings, id.value);
      if |ms| == 1 then Some(ms[0]) else None
  }

  /** One delivery, reading the metadata under `keys`. */
  function Handle(keys: MetadataKeys, txs: seq<Transaction>, listings: seq<CatalogListing>, req: Request,
                  construct: ConstructEvent, secret: string, faults: StoreFaults): (o: Outcome)
    ensures req.httpMethod != Post ==> o == Outcome(MethodNotAllowed, txs)
    ensures (req.httpMethod == Post && construct(req.rawBody, req.signature, secret).None?)
            ==> o == Outcome(BadRequest, txs)
    ensures o.status in {Ok, BadRequest, MethodNotAllowed}
    ensures o.status != Ok ==> o.transactions == txs
    // a recorded transaction carries the price of a catalog row with the listing's id
    ensures o.transactions == txs
            || (|o.transactions| == |txs| + 1 && o.transactions[..|txs|] == txs
                && o.transactions[|txs|].listingId.Some?
                && exists l :: l in listings && l.id == o.transactions[|txs|].listingId.value
                               && l.price == o.transactions[|txs|].purchasePrice)
  {
    if req.httpMethod != Post then Outcome(MethodNotAllowed, txs)
    else match construct(req.rawBody, req.signature, secret)
      case None => Outcome(BadRequest, txs)
      case Some(event) =>
        if event.eventType != CheckoutSessionCompleted then Outcome(Ok, txs)
        else
          var listingId := MetadataValue(event.session.metadata, keys.listing);
          var buyerId := MetadataValue(event.session.metadata, keys.buyer);
          match FindListing(listings, listingId, faults.lookupFails)
          case None => Outcome(BadRequest, txs)
          case Some(listing) =>
            if faults.insertFails then Outcome(Ok, txs)
            else
              var row := Transaction(listingId, buyerId, listing.price);
              assert (txs + [row])[..|txs|] == txs;
              Outcome(Ok, txs + [row])
  }

  /**
   * The handler as written, reading `listingId` and `buyerId`: a verified
   * checkout event whose metadata has no `listingId` is answered 400 and
   * records nothing, whatever the catalog and the store do.
   */
  function Reconcile(txs: seq<Transaction>, listings: seq<CatalogListing>, req: Request,
                     construct: ConstructEvent, secret: string, faults: StoreFaults): (o: Outcome)
    ensures (&& req.httpMethod == Post
             && construct(req.rawBody, req.signature, secret).Some?
             && construct(req.rawBody, req.signature, secret).value.eventType == CheckoutSessionCompleted
             && MetadataValue(construct(req.rawBody, req.signature, secret).value.session.metadata,
                              AsWrittenKeys.listing).None?)
            ==> o == Outcome(BadRequest, txs)
  {
    Handle(AsWrittenKeys, txs, listings, req, construct, secret, faults)
  }

  /** Events of any other type are acknowledged with the table untouched, under either set of keys. */
  lemma OtherEventsAcknowledged(keys: MetadataKeys, txs: seq<Transaction>, listings: seq<CatalogListing>,
                                req: Request, construct: ConstructEvent, secret: string, faults: StoreFaults,
                                event: Event)
    requires req.httpMethod == Post && construct(req.rawBody, req.signature, secret) == Some(event)
    requires event.eventType != CheckoutSessionCompleted
    ensures Handle(keys, txs, listings, req, construct, secret, faults) == Outcome(Ok, txs)
  {
  }

  /**
   * For a verified checkout event: no catalog row found answers 400 and
   * records nothing; a found row is recorded once at the catalog price when
   * the insert succeeds, and the answer is 200 whether it succeeds or not.
   */
  lemma CheckoutOutcome(keys: MetadataKeys, txs: seq<Transaction>, listings: seq<CatalogListing>,
                        req: Request, construct: ConstructEvent, secret: string, faults: StoreFaults,
                        event: Event)
    requires req.httpMethod == Post && construct(req.rawBody, req.signature, secret) == Some(event)
    requires event.eventType == CheckoutSessionCompleted
    ensures var o := Handle(keys, txs, listings, req, construct, secret, faults);
            var listingId := MetadataValue(event.session.metadata, keys.listing);
            var buyerId := MetadataValue(event.session.metadata, keys.buyer);
            var found := FindListing(listings, listingId, faults.lookupFails);
            && (found.None? ==> o == Outcome(BadRequest, txs))
            && ((found.Some? && faults.insertFails) ==> o == Outcome(Ok, txs))
            && ((found.Some? && !faults.insertFails)
                ==> o == Outcome(Ok, txs + [Transaction(listingId, buyerId, found.value.price)]))
  {
  }

  /**
   * The handler as written never records a checkout made by this
   * application: the checkout endpoint stores `listing_id` and `user_id`,
   * the handler reads `listingId`, finds it undefined, matches no listing
   * and answers 400, whatever the catalog holds.
   */
  lemma AsWrittenRejectsCheckout(txs: seq<Transaction>, listings: seq<CatalogListing>, req: Request,
                                 construct: ConstructEvent, secret: string, faults: StoreFaults,
                                 sid: string, listingId: string, userId: string)
    requires req.httpMethod == Post
    requires construct(req.rawBody, req.signature, secret)
             == Some(Event(CheckoutSessionCompleted, Session(sid, CheckoutMetadata(listingId, userId))))
    ensures Reconcile(txs, listings, req, construct, secret, faults) == Outcome(BadRequest, txs)
  {
    assert "listingId" != "listing_id" && "listingId" != "user_id";
  }

  /**
   * Read under the keys the checkout endpoint writes, the same event is
   * recorded: when exactly one catalog row has the listing's id and the
   * store works, one transaction {listing, buyer, catalog price} is
   * appended and the answer is 200.
   */
  lemma IntendedRecordsCheckout(txs: seq<Transaction>, listings: seq<CatalogListing>, req: Request,
                                construct: ConstructEvent, secret: string,
                                sid: string, listingId: string, userId: string, idx: nat)
    requires req.httpMethod == Post
    requires construct(req.rawBody, req.signature, secret)
             == Some(Event(CheckoutSessionCompleted, Session(sid, CheckoutMetadata(listingId, userId))))
    requires idx < |listings|
    requires forall k :: 0 <= k < |listings| ==> (listings[k].id == listingId <==> k == idx)
    ensures Handle(CheckoutKeys, txs, listings, req, construct, secret, StoreFaults(false, false))
            == Outcome(Ok, txs + [Transaction(Some(listingId), Some(userId), listings[idx].price)])
  {
    MatchesSingle(listings, listingId, idx);
  }

  /** The two tables this handler reads and writes. */
  class Store {
    var listings: seq<CatalogListing>
    var transactions: seq<Transaction>

    constructor (catalog: seq<CatalogListing>, initial: seq<Transaction>)
      ensures listings == catalog && transactions == initial
    {
      listings := catalog;
      transactions := initial;
    }

    /** `handler`: catalog look-up, then an unchecked `transactions` insert. */
    method Handler(req: Request, construct: ConstructEvent, secret: string, faults: StoreFaults)
      returns (status: int)
      modifies this
      ensures listings == old(listings)
      ensures Outcome(status, transactions)
              == Reconcile(old(transactions), listings, req, construct, secret, faults)
    {
      if req.httpMethod != Post {
        return MethodNotAllowed;
      }
      var verified := construct(req.rawBody, req.signature, secret);
      if verified.None? {
        return BadRequest;
      }
      var event := verified.value;
      if event.eventType == CheckoutSessionCompleted {
        var listingId := MetadataValue(event.session.metadata, AsWrittenKeys.listing);
        var buyerId := MetadataValue(event.session.metadata, AsWrittenKeys.buyer);
        var listing := FindListing(listings, listingId, faults.lookupFails);
        if listing.None? {
          return BadRequest;
        }
        // the insert's result is discarded; a failed insert leaves no row
        if !faults.insertFails {
          transactions := transactions + [Transaction(listingId, buyerId, listing.value.price)];
        }
      }
      return Ok;
    }
  }
}
