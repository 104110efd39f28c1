# Sovrn marketplace: a verified model of its order and form logic

This Dafny project models the parts of the Sovrn data-marketplace site that
make decisions, rather than only drawing pages:

- **The four revisions of the checkout-completed webhook.**
  - `pages/api/stripe-webhook.ts` is the idempotent check-then-insert on `purchases`.
  - `pages/api/webhooks/stripe.ts` inserts on every delivery.
  - `pages/api/stripe-webhooks.ts` inserts silently and always answers 200.
  - `pages/api/webhooks.ts` records a `transactions` row at the catalog price.

  Each revision is a pure `Reconcile` function from (table, request, verifier, store faults) to (status, new table). Beside it is a class holding the table, whose `Handler` method follows the source's early returns and is proved equal to that function.
- **The marketplace page** (`pages/marketplace/index.tsx`):
  - `filterAndSort`: a search filter, a tag filter, then an in-place sort of an array. The sort is an insertion sort proved to sort and to permute.
  - `uniqueTags`.
  - `handleOptIn`: a check-then-insert on `buyer_post_optins`.
- **The seller dashboard** (`pages/dashboard.tsx`):
  - the comma-separated tag parse;
  - the file extension and the storage name built from it;
  - the create-listing `handleSubmit`, modelled as a class over the form fields, the storage bucket and the `listings` table.
- **The buyer-post form** (`pages/buyer_posts/new.tsx`): the tag parse that drops empty tags, and its `handleSubmit`.
- **The admin metrics page** (`pages/admin/metrics.tsx`):
  - `fetchMetrics`: the revenue fold, the `revenueByDay` dictionary filled by a loop, the chart points and the counts;
  - the ten-row recent-transactions slice.

The JavaScript built-ins the pages rely on are modelled once, in `Text` and `Shared`, with their JavaScript meaning: `split` and `join`, `trim`, `toLowerCase`, `includes`, `filter`, and the first-occurrence order of a `Set`.

Inputs the code cannot see are parameters:
- Signature verification is a function `ConstructEvent` from (raw body, signature header, secret) to an optional event.
- Every database or storage call that can fail has a boolean saying whether it fails.
- The signed-in user is an `Option<string>`.
- `uuidv4()` is a string parameter.
- `parseFloat` is a function parameter.

## Model

| member | source | states |
|---|---|---|
| Shared.Dedup | pages/marketplace/index.tsx:147 | the result has no duplicates and holds exactly the elements of the input |
| Shared.DedupFirstOccurrenceOrder | pages/marketplace/index.tsx:147 | the distinct elements come in the order of their first occurrences, the iteration order of a `Set` |
| Shared.FirstIndex | pages/marketplace/index.tsx:147 | the index found holds the element and no earlier index does |
| Shared.Filter | pages/marketplace/index.tsx:53-61 | `filter` returns at most as many elements as it was given, each one accepted and taken from the input |
| Shared.FilterCount | pages/marketplace/index.tsx:53-61 | an accepted element occurs in the output exactly as often as in the input; a rejected one does not occur |
| Shared.FilterCounts | pages/marketplace/index.tsx:53-61 | the same count relation for every element at once |
| Shared.FilterConcat | pages/marketplace/index.tsx:53-61 | filtering keeps order: filtering a concatenation is the concatenation of the filtered parts |
| Shared.FilterEmpty | pages/buyer_posts/new.tsx:32 | a filter returns nothing exactly when it accepts no element |
| Shared.FilterKeepsAll | pages/buyer_posts/new.tsx:32 | a filter that accepts every element returns its input |
| Text.TrimStartShape | pages/dashboard.tsx:61 | `trimStart` returns a suffix of its input that does not start with white space, and everything it cuts away is white space |
| Text.TrimStart | pages/dashboard.tsx:61 | definition: the input with its leading white space dropped one character at a time; `TrimStartShape` states what it returns |
| Text.TrimEndShape | pages/dashboard.tsx:61 | `trimEnd` returns a prefix of its input that does not end with white space, and everything it cuts away is white space |
| Text.TrimEnd | pages/dashboard.tsx:61 | definition: the input with its trailing white space dropped one character at a time; `TrimEndShape` states what it returns |
| Text.Trim | pages/dashboard.tsx:61 | `trim` starts and ends with a non-space, is empty exactly when the input is all white space, and holds only input characters |
| Text.TrimSlice | pages/dashboard.tsx:61 | `trim` returns a contiguous part of its input with only white space cut away on either side |
| Text.TrimExcludes | pages/dashboard.tsx:61 | `trim` adds no character: a character absent from the input is absent from the result |
| Text.TrimOfTrimmed | pages/dashboard.tsx:61 | `trim` leaves a trimmed string unchanged, so trimming twice equals trimming once |
| Text.LowerChar | pages/marketplace/index.tsx:54-55 | a lowered character is never an upper-case letter; an upper-case letter becomes its lower-case partner and any other character is kept |
| Text.Lower | pages/marketplace/index.tsx:54-55 | `toLowerCase` keeps the length and lowers each character in place |
| Text.LowerIdempotent | pages/marketplace/index.tsx:54-55 | lowering a lowered string changes nothing |
| Text.IncludesAt | pages/marketplace/index.tsx:54-55 | `includes` holds exactly when the substring occurs at some position |
| Text.Includes | pages/marketplace/index.tsx:54-55 | definition of `String.prototype.includes`: the substring starts the string or occurs in its tail; `IncludesAt` states it as the existence of a position |
| Text.Split | pages/dashboard.tsx:61 | `split` on one character always returns at least one piece |
| Text.SplitShape | pages/dashboard.tsx:61 | `split` returns one more piece than there are separators, and no piece holds the separator |
| Text.JoinSplit | pages/dashboard.tsx:61 | joining the pieces of a split with the separator gives back the input |
| Text.SplitJoin | pages/dashboard.tsx:61 | splitting a join of separator-free pieces gives back the pieces |
| Text.Join | pages/dashboard.tsx:61 | definition of `Array.prototype.join` with one separator character, used as the inverse of `split` in `JoinSplit` and `SplitJoin`; no join occurs in the source |
| Text.SplitNoSep | pages/dashboard.tsx:43 | a string without the separator splits into itself alone |
| Text.SplitPrepend | pages/dashboard.tsx:61 | `a + sep + b`, with `a` free of the separator, splits into `a` followed by the pieces of `b` |
| Text.SplitConcat | pages/dashboard.tsx:61 | splitting `a + sep + b` gives the pieces of `a` followed by the pieces of `b` |
| Text.JoinEndsWithLast | pages/dashboard.tsx:43 | a join ends with the last piece, preceded by the separator when there are several pieces |
| Text.SplitEndsAfterLastSep | pages/dashboard.tsx:43-44 | the last piece of `a + sep + b` is the last piece of `b` |
| Text.JoinBlank | pages/buyer_posts/new.tsx:32 | a join of separator-free pieces is only white space and separators exactly when every piece is white space |
| Stripe.MetadataValue | pages/api/stripe-webhook.ts:44-45 | `metadata?.[key]` is present exactly when there is metadata holding that key, and is then its value |
| Stripe.Truthy | pages/api/stripe-webhook.ts:47 | definition: JavaScript truthiness of an optional string, present and not empty, so `!listingId` holds for `undefined` and for `""` |
| Stripe.CheckoutMetadata | pages/api/checkout_sessions.ts:46-49 | definition: the metadata a checkout session carries, `listing_id` and `user_id`; `Webhooks.AsWrittenRejectsCheckout` and `Webhooks.IntendedRecordsCheckout` use it |
| Stripe.SessionCount | pages/api/stripe-webhook.ts:54-58 | the count of rows for a session is zero exactly when no row carries that session id |
| Stripe.SessionCountAppend | pages/api/stripe-webhook.ts:66-72 | appending a row raises its own session's count by one and no other count |
| StripeWebhook.Reconcile | pages/api/stripe-webhook.ts:26-90 | not a POST gives 405 and failed verification gives 400, both with the table unchanged; every non-200 answer leaves the table; the only change is one appended row for a session not yet recorded |
| StripeWebhook.OtherEventsAcknowledged | pages/api/stripe-webhook.ts:42-89 | a verified event of another type is answered 200 with the table unchanged |
| StripeWebhook.MissingMetadataRefused | pages/api/stripe-webhook.ts:44-50 | a checkout event without a truthy `listing_id` or `user_id` is answered 400 with nothing inserted, whatever the store would do |
| StripeWebhook.CheckoutOutcome | pages/api/stripe-webhook.ts:52-86 | a lookup failure answers 500; a recorded session answers 200 with nothing inserted; otherwise a failed insert answers 500, and a successful one appends exactly {user_id, listing_id, session_id} and answers 200 |
| StripeWebhook.Idempotent | pages/api/stripe-webhook.ts:53-82 | delivering the same request again to the resulting table gives the same status and the same table |
| StripeWebhook.RepeatedDelivery | pages/api/stripe-webhook.ts:53-82 | any positive number of deliveries leaves the table that one delivery leaves |
| StripeWebhook.DeliverTimes | pages/api/stripe-webhook.ts:53-82 | definition: the table after `n` deliveries of the same request, one after another; `RepeatedDelivery` states that any positive `n` equals one delivery |
| StripeWebhook.KeepsSessionsUnique | pages/api/stripe-webhook.ts:54-72 | a table holding at most one row per session keeps that property |
| StripeWebhook.PurchasesTable.Handler | pages/api/stripe-webhook.ts:26-90 | the handler's status and new table are those of `Reconcile` on the old table |
| WebhooksStripe.Reconcile | pages/api/webhooks/stripe.ts:17-63 | 405 for a non-POST and 400 for failed verification, both with no change; every non-200 answer leaves the table; the only change is exactly one appended row |
| WebhooksStripe.OtherEventsAcknowledged | pages/api/webhooks/stripe.ts:37-62 | a verified event of another type is answered 200 with no change |
| WebhooksStripe.CheckoutOutcome | pages/api/webhooks/stripe.ts:37-60 | a missing `user_id`, `listing_id` or session id answers 400; otherwise a failed insert answers 500 with no change, and a successful one appends {user_id, listing_id, session_id} |
| WebhooksStripe.RedeliveryDuplicates | pages/api/webhooks/stripe.ts:48-54 | two successful deliveries of one event append two rows for the same session, so the table no longer holds one row per session |
| WebhooksStripe.DuplicatesStallIdempotentHandler | pages/api/webhooks/stripe.ts:48-54 | after those duplicate rows, the idempotent revision's `maybeSingle` lookup answers 500 for that session and changes nothing |
| WebhooksStripe.PurchasesTable.Handler | pages/api/webhooks/stripe.ts:17-63 | the handler's status and new table are those of `Reconcile` on the old table |
| StripeWebhooks.Reconcile | pages/api/stripe-webhooks.ts:17-51 | 405 for a non-POST and 400 for failed verification, both with no change; once verified, the answer is 200 whatever the insert does; the table changes by one appended row at most |
| StripeWebhooks.OtherEventsAcknowledged | pages/api/stripe-webhooks.ts:33-50 | a verified event of another type is answered 200 with the table unchanged |
| StripeWebhooks.CheckoutOutcome | pages/api/stripe-webhooks.ts:33-50 | with both metadata values and a working insert, exactly {listing_id, buyer_id, stripe_session_id} is appended; missing metadata or a failed insert changes nothing; the status is 200 in every case |
| StripeWebhooks.FailedInsertAcknowledged | pages/api/stripe-webhooks.ts:40-50 | a lost insert is still answered 200 and leaves no row |
| StripeWebhooks.PurchasesTable.Handler | pages/api/stripe-webhooks.ts:17-51 | the handler's status and new table are those of `Reconcile` on the old table |
| Webhooks.Matches | pages/api/webhooks.ts:32-36 | the query is `filter` on the id: every row returned carries the id, and each row with the id comes back as often as the catalog holds it, so the count `.single()` decides on is the number of catalog rows with the id |
| Webhooks.MatchesSingle | pages/api/webhooks.ts:32-36 | when one catalog position holds the id, the query returns that row alone |
| Webhooks.MatchesNone | pages/api/webhooks.ts:32-36 | when no row holds the id, the query returns nothing |
| Webhooks.FindListing | pages/api/webhooks.ts:32-38 | `.single()` yields a row exactly when the query works, the id is defined and exactly one row matches, and that row has the id |
| Webhooks.Handle | pages/api/webhooks.ts:10-51 | 405 and 400 with no change for a non-POST and failed verification; the only statuses are 200, 400 and 405; a recorded transaction is one appended row carrying the price of a catalog row with the listing's id |
| Webhooks.OtherEventsAcknowledged | pages/api/webhooks.ts:24-50 | a verified event of another type is answered 200 with the table unchanged, under either set of metadata keys |
| Webhooks.CheckoutOutcome | pages/api/webhooks.ts:24-50 | no listing found answers 400 with nothing recorded; a found listing is recorded at its catalog price when the insert works, and the answer is 200 whether it works or not |
| Webhooks.Reconcile | pages/api/webhooks.ts:10-51 | the handler as written: a verified checkout event without a `listingId` in its metadata is answered 400 with nothing recorded, whatever the catalog and the store do |
| Webhooks.AsWrittenRejectsCheckout | pages/api/webhooks.ts:27-38 | reading the camelCase keys, every checkout event carrying the metadata the checkout endpoint writes is answered 400 and records nothing |
| Webhooks.IntendedRecordsCheckout | pages/api/webhooks.ts:27-47 | reading `listing_id`/`user_id`, the same event records one transaction at the catalog price and is answered 200 |
| Webhooks.Store.Handler | pages/api/webhooks.ts:10-51 | the catalog is unchanged, and the status and new `transactions` table are those of the handler as written |
| Marketplace.Filtered | pages/marketplace/index.tsx:52-61 | a listing is kept exactly when the search (if non-empty) and the tag (if not `'all'`) accept it, as often as it occurs; the result is a sub-multiset of the input |
| Marketplace.MatchesSearch | pages/marketplace/index.tsx:53-56 | definition of the search filter: the lowercased title or the lowercased description includes the lowercased search |
| Marketplace.HasTag | pages/marketplace/index.tsx:60 | definition of `l.tags?.includes(tag)`: the listing has tags and `tag` is one of them |
| Marketplace.Keeps | pages/marketplace/index.tsx:52-61 | definition: an empty search and the tag `all` switch their filters off, otherwise both must accept; `Filtered` keeps exactly the listings it accepts |
| Marketplace.NoFilterKeepsAll | pages/marketplace/index.tsx:50-62 | an empty search and tag `'all'` keep a permutation of all listings |
| Marketplace.SwapDown | pages/marketplace/index.tsx:63-72 | exchanges two neighbours and nothing else, keeping the multiset |
| Marketplace.SortKey | pages/marketplace/index.tsx:63-72 | definition of the comparators as ascending keys: price for `price_low`, minus price for `price_high`, minus the creation time otherwise (newest first) |
| Marketplace.InsertDown | pages/marketplace/index.tsx:63-72 | moving the next element into a sorted prefix leaves the longer prefix sorted, keeps the multiset and leaves the rest alone |
| Marketplace.InsertStep | pages/marketplace/index.tsx:63-72 | one swap moves the element being inserted one place down and keeps the rest of the prefix in order |
| Marketplace.InsertDone | pages/marketplace/index.tsx:63-72 | once the neighbour below is not larger, the prefix is sorted |
| Marketplace.SortListings | pages/marketplace/index.tsx:63-72 | the array ends up sorted by the chosen key and is a permutation of the original |
| Marketplace.FilterAndSort | pages/marketplace/index.tsx:49-75 | the result is a permutation of the filtered listings, holds only kept input listings, and is in non-decreasing price, non-increasing price or newest-first order as `sort` asks |
| Marketplace.TagsOf | pages/marketplace/index.tsx:147 | a tag is listed exactly when some listing has it; null tags contribute none |
| Marketplace.TagsOfOne | pages/marketplace/index.tsx:147 | one listing contributes its own tags in order, or none when they are null |
| Marketplace.TagsOfConcat | pages/marketplace/index.tsx:147 | `flatMap` keeps listing order: the tags of `a + b` are those of `a` followed by those of `b` |
| Marketplace.UniqueTags | pages/marketplace/index.tsx:147 | no duplicates, exactly the tags occurring in some listing, in the order of their first occurrence |
| Marketplace.OptInStep | pages/marketplace/index.tsx:102-145 | signed out or already opted in changes nothing; an opt-in is recorded exactly when the user is signed in, the insert works and the check failed or found nothing; a recorded opt-in appends exactly one row; a signed-in user whose check found nothing and whose insert fails is told it failed |
| Marketplace.OptInKeepsUnique | pages/marketplace/index.tsx:113-130 | while the existence check works, no (post, user) pair is recorded twice |
| Marketplace.FailedCheckDuplicates | pages/marketplace/index.tsx:114-120 | a failed existence check lets an existing opt-in be recorded a second time |
| Marketplace.OptInPage.constructor | pages/marketplace/index.tsx:18 | the page starts with no opt-in in progress and no redirect |
| Marketplace.OptInPage.HandleOptIn | pages/marketplace/index.tsx:102-145 | the result and new table are those of `OptInStep`, the redirect to the sell tab happens exactly on success, and the loading marker ends cleared |
| Dashboard.TrimAll | pages/dashboard.tsx:61 | trims each piece and keeps their number and order |
| Dashboard.ParseTags | pages/dashboard.tsx:61 | definition: `split(',')`, then `trim` each piece; `ParseTagsShape`, `ParseTagsAppend`, `BlankTagsGiveEmptyTag` and `ParseTagsJoin` state its properties |
| Dashboard.ParseTagsShape | pages/dashboard.tsx:61 | one tag per comma plus one, none holding a comma or surrounding white space; a field without commas gives its trimmed self |
| Dashboard.ParseTagsAppend | pages/dashboard.tsx:61 | tags keep their order: the parse of `a,b` is the parse of `a` followed by that of `b` |
| Dashboard.BlankTagsGiveEmptyTag | pages/dashboard.tsx:61 | an empty or blank field gives the single empty tag |
| Dashboard.TrimAllConcat | pages/dashboard.tsx:61 | trimming a concatenation of pieces trims each part in turn |
| Dashboard.TrimAllOfTrimmed | pages/dashboard.tsx:61 | pieces already trimmed are unchanged by trimming |
| Dashboard.ParseTagsJoin | pages/dashboard.tsx:61 | trimmed, comma-free tags joined with commas parse back to themselves |
| Dashboard.FileExtShape | pages/dashboard.tsx:43 | the extension holds no dot and ends the name, preceded by a dot when the name has one; a name without a dot is its own extension |
| Dashboard.FileExt | pages/dashboard.tsx:43 | definition: the last piece of `split('.')`, which is what `pop()` returns; `FileExtShape` states its properties |
| Dashboard.StorageName | pages/dashboard.tsx:44 | the storage name is as long as the id, a dot and the extension together |
| Dashboard.StorageNameKeepsExt | pages/dashboard.tsx:43-44 | the storage name is the id, a dot and the extension, and its own extension is the upload's |
| Dashboard.Submit | pages/dashboard.tsx:35-78 | the error is cleared exactly when the file and user are present and the upload and insert both work; any error leaves the listings as they were; a submit that stops before the upload leaves the bucket as it was |
| Dashboard.SubmitFailures | pages/dashboard.tsx:38-69 | a missing file or user only sets the error, so does a failed upload, and a failed insert sets the error, keeps the fields, adds no row but leaves the uploaded file |
| Dashboard.SubmitSaves | pages/dashboard.tsx:55-76 | success stores one file that keeps the upload's extension, appends one row as entered pointing at it, and clears the fields and the error |
| Dashboard.SubmitKeepsFilesStored | pages/dashboard.tsx:46-64 | no submit leaves a listing whose file is not in the bucket |
| Dashboard.DashboardForm.constructor | pages/dashboard.tsx:9-16 | the form starts with empty fields, no file and no error |
| Dashboard.DashboardForm.HandleSubmit | pages/dashboard.tsx:35-78 | the new form, bucket and table are those of `Submit` on the old state; the user is unchanged |
| BuyerPosts.ParseTagsShape | pages/buyer_posts/new.tsx:32 | no tag is empty, holds a comma or has surrounding white space |
| BuyerPosts.ParseTags | pages/buyer_posts/new.tsx:32 | definition: the dashboard's `split(',')` and `trim`, then `filter(Boolean)` keeps the non-empty tags; `ParseTagsShape`, `KeepsNonEmptyTags`, `NoTagsIffBlank` and `ParseTagsJoin` state its properties |
| BuyerPosts.KeepsNonEmptyTags | pages/buyer_posts/new.tsx:32 | every non-empty tag of the dashboard's parse is kept as often as it occurs there, and no empty one |
| BuyerPosts.ParseTagsAppend | pages/buyer_posts/new.tsx:32 | tags keep their order: the parse of `a,b` is the parse of `a` followed by that of `b` |
| BuyerPosts.NoTagsIffBlank | pages/buyer_posts/new.tsx:32 | the parse is empty exactly when the field holds only white space and commas |
| BuyerPosts.ParseTagsJoin | pages/buyer_posts/new.tsx:32 | non-empty, trimmed, comma-free tags joined with commas parse back to themselves |
| BuyerPosts.NewBuyerPostForm.constructor | pages/buyer_posts/new.tsx:12-16 | the form starts empty, with no navigation |
| BuyerPosts.NewBuyerPostForm.HandleSubmit | pages/buyer_posts/new.tsx:19-43 | the fields are never changed; signed out sets the error with no insert or navigation; a failed insert sets the error and stays; success appends the row as entered and goes to `/marketplace` |
| AdminMetrics.DayBounds | pages/admin/metrics.tsx:47 | an instant lies in the day-long span of its day number |
| AdminMetrics.Day | pages/admin/metrics.tsx:47 | definition: the UTC calendar day of an instant, numbered from the epoch, the floor of its milliseconds over 86400000; `DayBounds` states the floor |
| AdminMetrics.Revenue | pages/admin/metrics.tsx:40-43 | the fold is non-negative when every price is |
| AdminMetrics.Price | pages/admin/metrics.tsx:41 | definition: the row's `purchase_price`, or 0 when it is missing, as the `or 0` fallback gives |
| AdminMetrics.RevenueConcat | pages/admin/metrics.tsx:40-43 | the fold over two runs of rows is the sum of the two folds |
| AdminMetrics.RevenueIgnoresUnpriced | pages/admin/metrics.tsx:40-43 | rows without a price add nothing: the revenue is that of the priced rows alone |
| AdminMetrics.DayTotalOfAbsentDay | pages/admin/metrics.tsx:45-49 | a day no row falls on has a zero total |
| AdminMetrics.DayTotal | pages/admin/metrics.tsx:45-49 | definition, independent of the tally: the sum of the prices of the rows that fall on the day; `RevenueByDay` and `TallyStep` prove the tally equal to it |
| AdminMetrics.DayTotalBounds | pages/admin/metrics.tsx:45-49 | with no negative prices, a day's total lies between zero and the total revenue |
| AdminMetrics.SumTotalsStep | pages/admin/metrics.tsx:45-49 | a new row adds its price to the sum over distinct days exactly when its day is among them |
| AdminMetrics.DayTotalsSumToRevenue | pages/admin/metrics.tsx:40-49 | over distinct days covering every row, the per-day totals add up to the total revenue |
| AdminMetrics.ZeroTotals | pages/admin/metrics.tsx:45-49 | no rows give a zero sum of day totals |
| AdminMetrics.RevenueByDay | pages/admin/metrics.tsx:45-49 | the keys are exactly the days some row falls on, listed once each in first-occurrence order, and each holds the total of its day's rows |
| AdminMetrics.DistinctDays | pages/admin/metrics.tsx:46-48 | the distinct days are exactly the days some row falls on |
| AdminMetrics.Days | pages/admin/metrics.tsx:46-47 | the day of every row, one per row and in table order |
| AdminMetrics.TallyStep | pages/admin/metrics.tsx:46-49 | adding one row to its day's entry keeps every entry equal to its day's total and the keys in first-occurrence order |
| AdminMetrics.ChartData | pages/admin/metrics.tsx:51-54 | one point per key, in key order, each carrying its key's amount in the dictionary |
| AdminMetrics.ChartSumsTotals | pages/admin/metrics.tsx:51-54 | chart points carrying the day totals add up to the sum of those totals |
| AdminMetrics.Recent | pages/admin/metrics.tsx:116 | the table shows the first `min(n, 10)` rows, in order |
| AdminMetrics.FetchMetrics | pages/admin/metrics.tsx:32-62 | the counts are the lengths or 0; without transactions there is no revenue and no points; with them, the revenue is the fold, there is one point per distinct day in first-occurrence order carrying its day's total, and the points add up to the revenue |

## Left out

- Signature verification: the SDK's algorithm is not part of this model. `constructEvent` is a function parameter, with `None` standing for the exception.
- The database, storage and auth clients are not modelled as calls.
  - Each table is a sequence of rows.
  - Each call that can fail is a boolean.
  - The signed-in user is an optional id.
  - supabase-js reports a failed query as an error result, and that is what each flag models. Thrown exceptions (a rejected promise from the client) are not modelled. They would not always act like an error result:
    - `pages/api/stripe-webhooks.ts:40` and `pages/api/webhooks.ts:41` ignore an error result and answer 200, but a throw there escapes the handler and the server answers 500;
    - in `pages/api/webhooks.ts:32-38` a lookup error result gives 400, a throw gives 500;
    - in `pages/marketplace/index.tsx:114-130` an error result from the existence check falls through to the insert (modelled), while a throw reaches the catch at :139-141 and inserts nothing;
    - `pages/dashboard.tsx:46-66` and `pages/buyer_posts/new.tsx:26-40` have no `try`, so a throw sets no error message.
- Concurrency: deliveries and submits are sequential. The check-then-insert race of `pages/api/stripe-webhook.ts` is not modelled.
- Logging (`console.*`), response bodies and messages: only the status codes are modelled.
- Floating point:
  - `parseFloat` is a function parameter into `real`.
  - Marketplace prices and transaction prices are integers (cents).
  - `toFixed(2)` is not modelled: `totalRevenue` is the integer sum, or `None` where the page shows `undefined`.
  - NaN is not modelled.
- Dates:
  - Timestamps are integer milliseconds.
  - `new Date(...).toISOString().split('T')[0]` is the UTC day number `ms / 86400000` (floor), which is in one-to-one correspondence with the date string.
  - Invalid dates (which throw, or sort as NaN) are not modelled.
- Text.Lower: only ASCII letters are lowered (each character independently, keeping the length). Unicode case mapping is not modelled. `trim`'s white-space set is the ECMAScript one.
- Marketplace.FilterAndSort: does not state that the sort is stable (JavaScript's sort is, and so is the insertion sort used), because stating it needs each listing's original position carried through the sort; the model keeps sortedness and the permutation.
- Marketplace: `handlePurchase`, `fetchListings` and `fetchBuyerPosts` are queries and a redirect to checkout; they are not modelled. `alert` messages are collapsed into `OptInResult`.
- Dashboard.DashboardForm.HandleSubmit: the `fetchListings(user.id)` reload after a save only re-reads the table, so `listings` stands for the table itself. The page's filtered and ordered copy is not modelled.
- Row types are declared per page, as each page reads its table:
  - `transactions` is `Webhooks.Transaction` (identifiers that may be undefined, an integer price) where it is written, and `AdminMetrics.Transaction` (a price that may be missing, a timestamp) where it is read;
  - listing prices are integer cents in `Marketplace` and `Webhooks`, and `real` in `Dashboard`, where they come from `parseFloat`.
  No lemma relates the two views of a table, so nothing is lost by keeping them apart.
- AdminMetrics: the admin redirect (`ADMIN_USER_IDS`) is routing and is not modelled. The three queries are given as optional results.
- `pages/api/checkout_sessions.ts` is not part of this model, except for the metadata keys it writes, which are `Stripe.CheckoutMetadata`.
- Revenue allocation among contributors, quantity clamping and pooled datasets have no implementation in the modelled files.

## Findings

| source | as written | input that shows it | evidently intended | confidence | as-written member | corrected member |
|---|---|---|---|---|---|---|
| pages/api/webhooks.ts:27-29 | reads the listing and the buyer from metadata keys `listingId` and `buyerId` | any checkout session created by the checkout endpoint, which writes `listing_id` and `user_id`: the listing id is undefined, no catalog row matches, and the handler answers 400 | read `listing_id` and `user_id`, the keys written at checkout | high; not executed | Webhooks.AsWrittenRejectsCheckout | Webhooks.IntendedRecordsCheckout |

`Webhooks.Handle` takes the metadata keys as a parameter:
- `Webhooks.Reconcile` and `Webhooks.Store.Handler` use the keys as written;
- `Handle(CheckoutKeys, …)` is the corrected handler.

`Webhooks.CheckoutOutcome` holds for both.
