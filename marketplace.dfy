/**
 * The marketplace page of pages/marketplace/index.tsx: the search, tag and
 * sort controls over the listings (`filterAndSort`), the tag choices offered
 * (`uniqueTags`) and opting in to a buyer post (`handleOptIn`).
 */
module Marketplace {
  import opened Shared
  import opened Text

  /**
   * A listing as the page reads it. Prices are integer cents and creation
   * times integer milliseconds since the epoch; `tags` may be null.
   */
  datatype Listing = Listing(id: string, title: string, description: string, price: int,
                             tags: Option<seq<string>>, createdAt: int)

  /** The tag choice that switches the tag filter off. */
  const AllTags: string := "all"

  /** The search keeps a listing whose lowercased title or description contains the lowercased search. */
  predicate MatchesSearch(l: Listing, search: string) {
    Includes(Lower(l.title), Lower(search)) || Includes(Lower(l.description), Lower(search))
  }

  /** `l.tags?.includes(tag)`: the listing has tags and `tag` is one of them. */
  predicate HasTag(l: Listing, tag: string) {
    l.tags.Some? && tag in l.tags.value
  }

  /** Whether `filterAndSort` keeps a listing: empty search and tag `'all'` switch their filters off. */
  predicate Keeps(l: Listing, search: string, tag: string) {
    (search == "" || MatchesSearch(l, search)) && (tag == AllTags || HasTag(l, tag))
  }

  /** The listings the two filters of `filterAndSort` let through, in their order. */
  function Filtered(listings: seq<Listing>, search: string, tag: string): (r: seq<Listing>)
    // a listing is kept, as often as it occurs, exactly when both filters accept it
    ensures forall l :: multiset(r)[l] == if Keeps(l, search, tag) then multiset(listings)[l] else 0
    ensures multiset(r) <= multiset(listings)
  {
    var afterSearch := if search != "" then Filter(listings, l => MatchesSearch(l, search)) else listings;
    FilterCounts(listings, l => MatchesSearch(l, search));
    FilterCounts(afterSearch, l => HasTag(l, tag));
    if tag != AllTags then Filter(afterSearch, l => HasTag(l, tag)) else afterSearch
  }

  /** With an empty search and tag `'all'` nothing is filtered out. */
  lemma NoFilterKeepsAll(listings: seq<Listing>)
    ensures multiset(Filtered(listings, "", AllTags)) == multiset(listings)
  {
    var r := Filtered(listings, "", AllTags);
    assert forall l :: multiset(r)[l] == multiset(listings)[l];
  }

  /**
   * The key the chosen order sorts ascending by: `'price_low'` by price,
   * `'price_high'` by falling price, any other value newest first.
   */
  function SortKey(l: Listing, sort: string): int {
    if sort == "price_low" then l.price
    else if sort == "price_high" then -l.price
    else -l.createdAt
  }

  predicate SortedBy(s: seq<Listing>, sort: string) {
    forall i, j :: 0 <= i < j < |s| ==> SortKey(s[i], sort) <= SortKey(s[j], sort)
  }

  /** Exchanges two neighbouring elements. */
  method SwapDown(a: array<Listing>, j: nat)
    requires 0 < j < a.Length
    modifies a
    ensures a[..] == old(a[..])[j - 1 := old(a[j])][j := old(a[j - 1])]
    ensures multiset(a[..]) == old(multiset(a[..]))
  {
    a[j - 1], a[j] := a[j], a[j - 1];
  }

  /** Moves `a[i]` down into the sorted prefix `a[..i]`, leaving `a[..i + 1]` sorted. */
  method InsertDown(a: array<Listing>, i: nat, sort: string)
    requires i < a.Length
    requires forall p, q :: 0 <= p < q < i ==> SortKey(a[p], sort) <= SortKey(a[q], sort)
    modifies a
    ensures forall p, q :: 0 <= p < q <= i ==> SortKey(a[p], sort) <= SortKey(a[q], sort)
    ensures forall k :: i < k < a.Length ==> a[k] == old(a[k])
    ensures multiset(a[..]) == old(multiset(a[..]))
  {
    var j: nat := i;
    while j > 0 && SortKey(a[j - 1], sort) > SortKey(a[j], sort)
      invariant Inserting(a[..], i, j, sort)
      invariant forall k :: i < k < a.Length ==> a[k] == old(a[k])
      invariant multiset(a[..]) == old(multiset(a[..]))
    {
      InsertStep(a[..], i, j, sort);
      SwapDown(a, j);
      j := j - 1;
    }
    InsertDone(a[..], i, j, sort);
  }

  /**
   * The state of the insertion: `s[..i + 1]` is sorted apart from the
   * element at `j` being moved down, which sorts before everything above it.
   */
  ghost predicate Inserting(s: seq<Listing>, i: nat, j: nat, sort: string) {
    && j <= i < |s|
    && (forall p, q :: 0 <= p < q <= i && p != j && q != j ==> SortKey(s[p], sort) <= SortKey(s[q], sort))
    && (forall q :: j < q <= i ==> SortKey(s[j], sort) < SortKey(s[q], sort))
  }

  /** Swapping the moving element with a larger neighbour below it moves it one place down. */
  lemma InsertStep(s: seq<Listing>, i: nat, j: nat, sort: string)
    requires Inserting(s, i, j, sort) && j > 0 && SortKey(s[j - 1], sort) > SortKey(s[j], sort)
    ensures Inserting(s[j - 1 := s[j]][j := s[j - 1]], i, j - 1, sort)
  {
  }

  /** Once the neighbour below is not larger, the prefix `s[..i + 1]` is sorted. */
  lemma InsertDone(s: seq<Listing>, i: nat, j: nat, sort: string)
    requires Inserting(s, i, j, sort) && (j == 0 || SortKey(s[j - 1], sort) <= SortKey(s[j], sort))
    ensures forall p, q :: 0 <= p < q <= i ==> SortKey(s[p], sort) <= SortKey(s[q], sort)
  {
  }

  /** `result.sort(...)` with the comparator the sort choice selects, in place (insertion sort). */
  method SortListings(a: array<Listing>, sort: string)
    modifies a
    ensures SortedBy(a[..], sort)
    ensures multiset(a[..]) == old(multiset(a[..]))
  {
    var i := 0;
    while i < a.Length
      invariant 0 <= i <= a.Length
      invariant forall p, q :: 0 <= p < q < i ==> SortKey(a[p], sort) <= SortKey(a[q], sort)
      invariant multiset(a[..]) == old(multiset(a[..]))
    {
      InsertDown(a, i, sort);
      i := i + 1;
    }
  }

  /**
   * `filterAndSort`: the search filter, then the tag filter, then the chosen
   * order. The result holds exactly the kept listings, each as often as in
   * `listings`, sorted as `sort` asks.
   */
  method FilterAndSort(listings: seq<Listing>, search: string, tag: string, sort: string)
    returns (filtered: seq<Listing>)
    ensures multiset(filtered) == multiset(Filtered(listings, search, tag))
    ensures forall k :: 0 <= k < |filtered| ==> filtered[k] in listings && Keeps(filtered[k], search, tag)
    ensures sort == "price_low" ==>
              forall i, j :: 0 <= i < j < |filtered| ==> filtered[i].price <= filtered[j].price
    ensures sort == "price_high" ==>
              forall i, j :: 0 <= i < j < |filtered| ==> filtered[i].price >= filtered[j].price
    ensures sort != "price_low" && sort != "price_high" ==>
              forall i, j :: 0 <= i < j < |filtered| ==> filtered[i].createdAt >= filtered[j].createdAt
  {
    var result := listings;
    if search != "" {
      result := Filter(result, l => MatchesSearch(l, search));
    }
    if tag != AllTags {
      result := Filter(result, l => HasTag(l, tag));
    }
    assert result == Filtered(listings, search, tag);
    var a := new Listing[|result|](k requires 0 <= k < |result| => result[k]);
    assert a[..] == result;
    SortListings(a, sort);
    filtered := a[..];
    forall k | 0 <= k < |filtered|
      ensures filtered[k] in listings && Keeps(filtered[k], search, tag)
    {
      assert filtered[k] in multiset(filtered);
      assert multiset(result)[filtered[k]] > 0;
    }
    assert SortedBy(filtered, sort);
  }

  /** Every tag of every listing, in listing order; a listing without tags contributes none. */
  function TagsOf(listings: seq<Listing>): (r: seq<string>)
    ensures forall t :: t in r <==> exists k :: 0 <= k < |listings| && HasTag(listings[k], t)
  {
    if listings == [] then []
    else
      var rest := TagsOf(listings[1..]);
      assert forall k :: 0 <= k < |listings[1..]| ==> listings[1..][k] == listings[k + 1];
      (if listings[0].tags.Some? then listings[0].tags.value else []) + rest
  }

  /** The tags of one listing: its own tags in order, or none when they are null. */
  lemma TagsOfOne(l: Listing)
    ensures TagsOf([l]) == if l.tags.Some? then l.tags.value else []
  {
    assert [l][1..] == [];
  }

  /** `flatMap` keeps listing order: the tags of `a + b` are those of `a` followed by those of `b`. */
  lemma {:induction false} TagsOfConcat(a: seq<Listing>, b: seq<Listing>)
    ensures TagsOf(a + b) == TagsOf(a) + TagsOf(b)
  {
    if a == [] {
      assert a + b == b;
    } else {
      assert (a + b)[0] == a[0] && (a + b)[1..] == a[1..] + b;
      TagsOfConcat(a[1..], b);
    }
  }

  /**
   * `uniqueTags`: the tags occurring in some listing, each once, in the
   * order of their first occurrence.
   */
  function UniqueTags(listings: seq<Listing>): (r: seq<string>)
    ensures NoDup(r)
    ensures forall t :: t in r <==> exists k :: 0 <= k < |listings| && HasTag(listings[k], t)
    ensures forall i :: 0 <= i < |r| ==> r[i] in TagsOf(listings)
    ensures forall i, j :: 0 <= i < j < |r| ==> FirstIndex(TagsOf(listings), r[i]) < FirstIndex(TagsOf(listings), r[j])
  {
    var all := TagsOf(listings);
    DedupFirstOccurrenceOrder(all);
    assert forall t :: t in Dedup(all) <==> t in all by {
      forall t ensures t in Dedup(all) <==> t in all {
        if t in all { assert all[FirstIndex(all, t)] == t; }
        if t in Dedup(all) { var i :| 0 <= i < |Dedup(all)| && Dedup(all)[i] == t; }
      }
    }
    Dedup(all)
  }

  /** A `buyer_post_optins` row. */
  datatype OptIn = OptIn(buyerPostId: string, userId: string)

  /** What `handleOptIn` tells the user: one of its three alerts, or the redirect after success. */
  datatype OptInResult = NotLoggedIn | AlreadyOptedIn | InsertFailed | OptedIn

  /** The result and the `buyer_post_optins` table after one opt-in. */
  datatype OptInOutcome = OptInOutcome(result: OptInResult, optIns: seq<OptIn>)

  const SellTabRoute: string := "/marketplace?refresh=true#sell"

  predicate HasOptIn(optIns: seq<OptIn>, postId: string, userId: string) {
    exists k :: 0 <= k < |optIns| && optIns[k] == OptIn(postId, userId)
  }

  predicate UniqueOptIns(optIns: seq<OptIn>) {
    forall i, j :: 0 <= i < j < |optIns| ==> optIns[i] != optIns[j]
  }

  /**
   * One opt-in by `user` (None when not logged in). The existence check
   * discards the query's error, so a failed check reads as "none found" and
   * the insert goes ahead.
   */
  function OptInStep(optIns: seq<OptIn>, postId: string, user: Option<string>, lookupFails: bool,
                     insertFails: bool): (o: OptInOutcome)
    ensures user.None? ==> o == OptInOutcome(NotLoggedIn, optIns)
    ensures (user.Some? && !lookupFails && HasOptIn(optIns, postId, user.value))
            ==> o == OptInOutcome(AlreadyOptedIn, optIns)
    ensures o.result != OptedIn ==> o.optIns == optIns
    ensures o.result == OptedIn <==>
              user.Some? && !insertFails && (lookupFails || !HasOptIn(optIns, postId, user.value))
    ensures o.result == OptedIn ==> o.optIns == optIns + [OptIn(postId, user.value)]
    // a signed-in user whose check did not find an opt-in, and whose insert fails, is told it failed
    ensures (user.Some? && insertFails && (lookupFails || !HasOptIn(optIns, postId, user.value)))
            ==> o.result == InsertFailed
  {
    match user
    case None => OptInOutcome(NotLoggedIn, optIns)
    case Some(u) =>
      var existing := !lookupFails && HasOptIn(optIns, postId, u);
      if existing then OptInOutcome(AlreadyOptedIn, optIns)
      else if insertFails then OptInOutcome(InsertFailed, optIns)
      else OptInOutcome(OptedIn, optIns + [OptIn(postId, u)])
  }

  /** While the existence check works, opting in never records the same (post, user) pair twice. */
  lemma OptInKeepsUnique(optIns: seq<OptIn>, postId: string, user: Option<string>, insertFails: bool)
    requires UniqueOptIns(optIns)
    ensures UniqueOptIns(OptInStep(optIns, postId, user, false, insertFails).optIns)
  {
    var o := OptInStep(optIns, postId, user, false, insertFails);
    if o.result == OptedIn {
      var n := OptIn(postId, user.value);
      forall i, j | 0 <= i < j < |o.optIns| ensures o.optIns[i] != o.optIns[j] {
        if j == |optIns| {
          assert o.optIns[i] == optIns[i];
          assert optIns[i] != n;
        } else {
          assert o.optIns[i] == optIns[i] && o.optIns[j] == optIns[j];
        }
      }
    }
  }

  /** A failed existence check lets an existing opt-in be recorded a second time. */
  lemma FailedCheckDuplicates(postId: string, userId: string)
    ensures var o := OptInStep([OptIn(postId, userId)], postId, Some(userId), true, false);
            o.result == OptedIn && !UniqueOptIns(o.optIns)
  {
    var o := OptInStep([OptIn(postId, userId)], postId, Some(userId), true, false);
    assert o.optIns == [OptIn(postId, userId), OptIn(postId, userId)];
    assert o.optIns[0] == o.optIns[1];
  }

  /** The page state `handleOptIn` touches, with the `buyer_post_optins` table. */
  class OptInPage {
    var optIns: seq<OptIn>
    var optInLoading: Option<string>
    var route: Option<string>

    constructor (initial: seq<OptIn>)
      ensures optIns == initial && optInLoading == None && route == None
    {
      optIns := initial;
      optInLoading := None;
      route := None;
    }

    /** `handleOptIn`: log-in check, existence check, insert, then redirect or alert. */
    method HandleOptIn(postId: string, user: Option<string>, lookupFails: bool, insertFails: bool)
      returns (result: OptInResult)
      modifies this
      ensures OptInOutcome(result, optIns) == OptInStep(old(optIns), postId, user, lookupFails, insertFails)
      ensures route == if result == OptedIn then Some(SellTabRoute) else old(route)
      ensures optInLoading == None
    {
      optInLoading := Some(postId);
      if user.None? {
        result := NotLoggedIn;
      } else {
        var u := user.value;
        // `data: existing` is null when the query fails
        var existing := if lookupFails then None else Some(Filter(optIns, (r: OptIn) => r == OptIn(postId, u)));
        if existing.Some? && |existing.value| > 0 {
          result := AlreadyOptedIn;
        } else {
          if insertFails {
            result := InsertFailed;
          } else {
            optIns := optIns + [OptIn(postId, u)];
            route := Some(SellTabRoute);
            result := OptedIn;
          }
        }
        assert existing.Some? ==> (|existing.value| > 0 <==> HasOptIn(old(optIns), postId, u)) by {
          if existing.Some? {
            var m := Filter(old(optIns), (r: OptIn) => r == OptIn(postId, u));
            assert existing.value == m;
            if |m| > 0 {
              assert m[0] in old(optIns) && m[0] == OptIn(postId, u);
            }
            if HasOptIn(old(optIns), postId, u) {
              var k :| 0 <= k < |old(optIns)| && old(optIns)[k] == OptIn(postId, u);
              assert multiset(old(optIns))[OptIn(postId, u)] > 0;
              FilterCount(old(optIns), (r: OptIn) => r == OptIn(postId, u), OptIn(postId, u));
            }
          }
        }
      }
      optInLoading := None;
    }
  }
}
