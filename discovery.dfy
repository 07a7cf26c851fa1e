/** Feed-URI discovery in showingRecentlyPosts: the `href` of the first
    `link[rel="alternate"]` whose `type` is a feed content type. */
module Discovery {
  import opened Wrappers

  const FEED_CONTENT_TYPES: seq<string> :=
    ["application/xml", "application/atom+xml", "application/rdf+xml", "application/rss+xml"]

  /** A `link[rel="alternate"]` element: its `type` and `href` attributes
      (`None` is the `null` that getAttribute returns for a missing one). */
  datatype AlternateLink = AlternateLink(contentType: Option<string>, href: Option<string>)

  /** The closure's result: `undefined` when no link matched, otherwise the
      matching link's `href` (which is `null` when it has none). */
  datatype FeedUri = Undefined | Found(href: Option<string>)

  /** `FEED_CONTENT_TYPES.indexOf(contentType) >= 0` */
  predicate IsFeedLink(link: AlternateLink)
  {
    link.contentType.Some? && link.contentType.value in FEED_CONTENT_TYPES
  }

  /** Reference definition of the search: the first feed link wins. */
  function FirstFeedUri(links: seq<AlternateLink>): (r: FeedUri)
    ensures r == Undefined <==> forall i :: 0 <= i < |links| ==> !IsFeedLink(links[i])
    ensures r.Found? ==>
      exists k :: 0 <= k < |links| && IsFeedLink(links[k]) && r.href == links[k].href &&
        forall j :: 0 <= j < k ==> !IsFeedLink(links[j])
  {
    if |links| == 0 then Undefined
    else if IsFeedLink(links[0]) then Found(links[0].href)
    else
      var r := FirstFeedUri(links[1..]);
      if r.Found? then
        var k :| 0 <= k < |links| - 1 && IsFeedLink(links[1..][k]) && r.href == links[1..][k].href &&
          forall j :: 0 <= j < k ==> !IsFeedLink(links[1..][j]);
        assert links[k + 1] == links[1..][k];
        r
      else
        assert forall i :: 1 <= i < |links| ==> links[i] == links[1..][i - 1];
        r
  }

  /** The closure's `some` loop, assigning the captured `feedUri` and
      stopping at the first feed link. */
  method DiscoverFeedUri(alternateLinks: seq<AlternateLink>) returns (feedUri: FeedUri)
    ensures feedUri == FirstFeedUri(alternateLinks)
  {
    feedUri := Undefined;
    var i := 0;
    while i < |alternateLinks|
      invariant 0 <= i <= |alternateLinks|
      invariant feedUri == Undefined
      invariant FirstFeedUri(alternateLinks) == FirstFeedUri(alternateLinks[i..])
    {
      var alternateLink := alternateLinks[i];
      if IsFeedLink(alternateLink) {
        feedUri := Found(alternateLink.href);
        return;
      }
      assert alternateLinks[i..][1..] == alternateLinks[i + 1..];
      i := i + 1;
    }
  }

  /** Links after the first feed link do not change the result. */
  lemma {:induction false} LaterLinksIgnored(links: seq<AlternateLink>, later: seq<AlternateLink>)
    requires FirstFeedUri(links).Found?
    ensures FirstFeedUri(links + later) == FirstFeedUri(links)
  {
    if !IsFeedLink(links[0]) {
      assert (links + later)[1..] == links[1..] + later;
      LaterLinksIgnored(links[1..], later);
    }
  }

  /** Links that are not feed links, placed in front, do not change it either. */
  lemma {:induction false} NonFeedLinksSkipped(skipped: seq<AlternateLink>, links: seq<AlternateLink>)
    requires forall i :: 0 <= i < |skipped| ==> !IsFeedLink(skipped[i])
    ensures FirstFeedUri(skipped + links) == FirstFeedUri(links)
  {
    if |skipped| > 0 {
      assert (skipped + links)[1..] == skipped[1..] + links;
      NonFeedLinksSkipped(skipped[1..], links);
    } else {
      assert skipped + links == links;
    }
  }
}
