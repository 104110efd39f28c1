/**
 * The buyer-post form of pages/buyer_posts/new.tsx: the tag field parsed
 * with empty tags dropped, and the submit handler (sign-in guard, insert
 * into `buyer_posts`, then an error or a move to the marketplace).
 */
module BuyerPosts {
  import opened Shared
  import opened Text
  import Dashboard

  /** `filter(Boolean)` on strings keeps the non-empty ones. */
  predicate NonEmpty(t: string) {
    t != ""
  }

  /** `tags.split(',').map(t => t.trim()).filter(Boolean)`: the dashboard's parse with the empty tags removed. */
  function ParseTags(tags: string): seq<string> {
    Filter(Dashboard.ParseTags(tags), NonEmpty)
  }

  /** No tag is empty, holds a comma or has surrounding white space. */
  lemma ParseTagsShape(tags: string)
    ensures forall k :: 0 <= k < |ParseTags(tags)| ==>
              ParseTags(tags)[k] != "" && ',' !in ParseTags(tags)[k] && Trimmed(ParseTags(tags)[k])
  {
    Dashboard.ParseTagsShape(tags);
  }

  /** Every non-empty tag of the dashboard's parse is kept, as often as it occurs there, and no empty one. */
  lemma KeepsNonEmptyTags(tags: string)
    ensures forall t :: multiset(ParseTags(tags))[t] == if t == "" then 0 else multiset(Dashboard.ParseTags(tags))[t]
  {
    FilterCounts(Dashboard.ParseTags(tags), NonEmpty);
  }

  /** Tags keep their order, as in the dashboard's parse. */
  lemma ParseTagsAppend(a: string, b: string)
    ensures ParseTags(a + [','] + b) == ParseTags(a) + ParseTags(b)
  {
    Dashboard.ParseTagsAppend(a, b);
    FilterConcat(Dashboard.ParseTags(a), Dashboard.ParseTags(b), NonEmpty);
  }

  /** A field that is empty, blank or only commas and white space gives no tags, and no other does. */
  lemma NoTagsIffBlank(tags: string)
    ensures ParseTags(tags) == [] <==> SpaceOrSep(tags, ',')
  {
    var parts := Split(tags, ',');
    var parsed := Dashboard.ParseTags(tags);
    SplitShape(tags, ',');
    JoinSplit(tags, ',');
    JoinBlank(parts, ',');
    FilterEmpty(parsed, NonEmpty);
    assert (forall k :: 0 <= k < |parsed| ==> parsed[k] == "")
           <==> forall k :: 0 <= k < |parts| ==> AllSpace(parts[k]) by {
      forall k | 0 <= k < |parts| ensures parsed[k] == "" <==> AllSpace(parts[k]) {
        assert parsed[k] == Trim(parts[k]);
      }
    }
  }

  /** Non-empty tags without commas or surrounding white space, joined by commas, parse to the same tags. */
  lemma ParseTagsJoin(ts: seq<string>)
    requires |ts| >= 1
    requires forall k :: 0 <= k < |ts| ==> ts[k] != "" && ',' !in ts[k] && Trimmed(ts[k])
    ensures ParseTags(Join(ts, ',')) == ts
  {
    Dashboard.ParseTagsJoin(ts);
    FilterKeepsAll(ts, NonEmpty);
  }

  /** A `buyer_posts` row. */
  datatype BuyerPost = BuyerPost(userId: string, title: string, description: string, budget: real,
                                 tags: seq<string>)

  const NotLoggedIn: string := "You must be logged in."
  const CreateFailed: string := "Failed to create buyer post."
  const MarketplaceRoute: string := "/marketplace"

  /** The form's state, the `buyer_posts` table, and the route the page was sent to, if any. */
  class NewBuyerPostForm {
    var title: string
    var description: string
    var budget: string
    var tags: string
    var error: string
    var route: Option<string>
    var posts: seq<BuyerPost>

    constructor (posts: seq<BuyerPost>)
      ensures this.posts == posts && route == None
      ensures title == "" && description == "" && budget == "" && tags == "" && error == ""
    {
      this.posts := posts;
      route := None;
      title, description, budget, tags, error := "", "", "", "", "";
    }

    /**
     * `handleSubmit` for the signed-in `user`; `parseFloat` is the number
     * the budget field parses to and `insertFails` whether the insert
     * reports an error. The fields are never cleared, and a success leaves
     * an earlier error in place.
     */
    method HandleSubmit(user: Option<string>, parseFloat: string -> real, insertFails: bool)
      modifies this
      ensures title == old(title) && description == old(description) && budget == old(budget)
      ensures tags == old(tags)
      // signed out: the error is set and nothing is inserted or navigated
      ensures user.None? ==> error == NotLoggedIn && posts == old(posts) && route == old(route)
      // a failed insert: the error is set and the page stays
      ensures (user.Some? && insertFails) ==>
                error == CreateFailed && posts == old(posts) && route == old(route)
      // a saved post: one row as entered, then the marketplace
      ensures (user.Some? && !insertFails) ==>
                && posts == old(posts) + [BuyerPost(user.value, old(title), old(description),
                                                    parseFloat(old(budget)), ParseTags(old(tags)))]
                && route == Some(MarketplaceRoute) && error == old(error)
    {
      if user.None? {
        error := NotLoggedIn;
      } else if insertFails {
        error := CreateFailed;
      } else {
        var post := BuyerPost(user.value, title, description, parseFloat(budget), ParseTags(tags));
        posts := posts + [post];
        route := Some(MarketplaceRoute);
      }
    }
  }
}
