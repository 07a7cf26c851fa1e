/** showingRecentlyPosts.insertRecentPosts and removeChildNodes: the
    recent-posts container, whose children the script replaces with an
    ordered list of links to the entries. */
module RecentPosts {
  import opened Wrappers
  import opened Exceptions
  import opened Feed
  import opened Dom
  import opened FeedClient

  /** A clone of the `li > a` template with the anchor's `href` set to the
      entry's URI and its `textContent` set to the entry's title. */
  function ListItem(entry: PostEntry): (li: Node)
    ensures li.Element? && li.localName == "li" && |li.childNodes| == 1
    ensures li.childNodes[0].Element? && li.childNodes[0].localName == "a"
    ensures li.childNodes[0].attributes.Keys == {"href"}
    ensures li.childNodes[0].attributes["href"] == entry.uri
    ensures TextContent(li.childNodes[0]) == entry.title && TextContent(li) == entry.title
  {
    var a := Element("a", map["href" := entry.uri], TextChildren(entry.title));
    assert ChildrenText([a]) == TextContent(a) + ChildrenText([]);
    Element("li", map[], [a])
  }

  /** `node` is the `ol` insertRecentPosts builds: one list item per entry,
      in entry order. */
  predicate IsRecentList(node: Node, entries: seq<PostEntry>)
  {
    node.Element? && node.localName == "ol" && node.attributes == map[] &&
    |node.childNodes| == |entries| &&
    forall i :: 0 <= i < |entries| ==> node.childNodes[i] == ListItem(entries[i])
  }

  /** The `forEach` loop that appends one list item per entry to a new `ol`. */
  method BuildList(entries: seq<PostEntry>) returns (listElement: Node)
    ensures IsRecentList(listElement, entries)
  {
    var listItems: seq<Node> := [];
    var i := 0;
    while i < |entries|
      invariant 0 <= i <= |entries|
      invariant |listItems| == i
      invariant forall k :: 0 <= k < i ==> listItems[k] == ListItem(entries[k])
    {
      var listItemElement := ListItem(entries[i]);
      listItems := listItems + [listItemElement];
      i := i + 1;
    }
    listElement := Element("ol", map[], listItems);
  }

  /** `(entries || [])` as `forEach` sees it: null, undefined and the empty
      string become `[]`; a marker string or `{}` has no `forEach`. */
  function Iterable(entries: Option<Parsed>): (r: Result<seq<PostEntry>, Error>)
    ensures r.Success? <==> entries.None? || entries.value.Entries? || entries.value == Marker("")
    ensures r.Success? && entries.Some? && entries.value.Entries? ==> r.value == entries.value.entries
    ensures r.Success? && !(entries.Some? && entries.value.Entries?) ==> r.value == []
    ensures r.Failure? ==> r.error == NotAFunction("forEach")
  {
    match entries
    case None => Success([])
    case Some(Entries(es)) => Success(es)
    case Some(Marker(name)) => if name == "" then Success([]) else Failure(NotAFunction("forEach"))
    case Some(EmptyObject) => Failure(NotAFunction("forEach"))
  }

  /** The recent-posts container: its child nodes. */
  class Container {
    var childNodes: seq<Node>

    constructor (childNodes: seq<Node>)
      ensures this.childNodes == childNodes
    {
      this.childNodes := childNodes;
    }

    /** removeChildNodes: delete everything after the first headline; with no
        headline `setStartAfter(null)` throws and nothing is deleted. */
    method RemoveChildNodes() returns (completion: Completion)
      modifies this
      ensures FindHeadline(old(childNodes)).None? ==>
        completion == Threw(NoHeadline) && childNodes == old(childNodes)
      ensures FindHeadline(old(childNodes)).Some? ==>
        completion == Returned &&
        childNodes == TruncateAfter(old(childNodes), FindHeadline(old(childNodes)).value)
    {
      var headline := FindHeadline(childNodes);
      if headline.None? {
        return Threw(NoHeadline);
      }
      childNodes := TruncateAfter(childNodes, headline.value);
      completion := Returned;
    }

    /** insertRecentPosts: with no entries the container is untouched;
        otherwise everything after the first headline is replaced by the
        list of entries, appended as the last child. */
    method InsertRecentPosts(entries: Option<Parsed>) returns (completion: Completion)
      modifies this
      ensures Iterable(entries).Failure? ==>
        completion == Threw(Iterable(entries).error) && childNodes == old(childNodes)
      ensures Iterable(entries) == Success([]) ==>
        completion == Returned && childNodes == old(childNodes)
      ensures (Iterable(entries).Success? && Iterable(entries).value != [] &&
               FindHeadline(old(childNodes)).None?) ==>
        completion == Threw(NoHeadline) && childNodes == old(childNodes)
      ensures (Iterable(entries).Success? && Iterable(entries).value != [] &&
               FindHeadline(old(childNodes)).Some?) ==>
        completion == Returned && |childNodes| >= 1 &&
        childNodes[..|childNodes| - 1] == TruncateAfter(old(childNodes), FindHeadline(old(childNodes)).value) &&
        IsRecentList(childNodes[|childNodes| - 1], Iterable(entries).value)
    {
      var iterable := Iterable(entries);
      if iterable.Failure? {
        return Threw(iterable.error);
      }
      var listElement := BuildList(iterable.value);
      if |listElement.childNodes| <= 0 {
        return Returned;
      }
      completion := RemoveChildNodes();
      if completion.Threw? {
        return;
      }
      childNodes := childNodes + [listElement];
      assert childNodes[..|childNodes| - 1] == old(TruncateAfter(childNodes, FindHeadline(childNodes).value));
    }
  }

  /** A second insertion into a container that a first one filled finds the
      same headline and removes the first list: the container ends with the
      same nodes before the new list. */
  lemma ReinsertionReplacesList(nodes: seq<Node>, list: Node)
    requires FindHeadline(nodes).Some?
    ensures var p := FindHeadline(nodes).value;
      var filled := TruncateAfter(nodes, p) + [list];
      FindHeadline(filled) == Some(p) && TruncateAfter(filled, p) == TruncateAfter(nodes, p)
  {
    var p := FindHeadline(nodes).value;
    var kept := TruncateAfter(nodes, p);
    var filled := kept + [list];
    FirstHeadlineKept(nodes, p);
    FirstHeadlineExtended(kept, p, [list]);
    FirstHeadlineNotClear(filled, p);
    var q := FindHeadline(filled);
    assert q.Some?;
    FirstHeadlineUnique(filled, p, q.value);
    TruncateAfterIgnoresLater(kept, p, [list]);
    TruncateAfterIdempotent(nodes, p);
  }

  /** The recent-posts pipeline once the feed request completes:
      handleEvent of a RecentlyPosts built with insertRecentPosts, bound to
      the container, as its only handler. */
  method ShowRecentPostsOnLoad(container: Container, event: LoadEvent) returns (completion: Completion)
    modifies container
    // Nothing is shown unless an RSS 2.0 feed with at least one item arrived.
    ensures container.childNodes != old(container.childNodes) ==>
      !TransportFailed(event) && ParseResponse(event.responseXml).Success? &&
      ParseResponse(event.responseXml).value.Entries? &&
      ParseResponse(event.responseXml).value.entries != []
    ensures TransportFailed(event) ==> completion == Returned
    // There is no error handler, so a parse failure escapes as a TypeError.
    ensures !TransportFailed(event) && ParseResponse(event.responseXml).Failure? ==>
      completion == Threw(NotAFunction("errorHandler"))
    // Marker strings and `{}` have no forEach.
    ensures (!TransportFailed(event) && ParseResponse(event.responseXml).Success? &&
             !ParseResponse(event.responseXml).value.Entries?) ==>
      completion == Threw(NotAFunction("forEach"))
    ensures (!TransportFailed(event) && ParseResponse(event.responseXml).Success? &&
             ParseResponse(event.responseXml).value.Entries?) ==>
      var es := ParseResponse(event.responseXml).value.entries;
      var headline := FindHeadline(old(container.childNodes));
      if es == [] then completion == Returned
      else if headline.None? then
        completion == Threw(NoHeadline) && container.childNodes == old(container.childNodes)
      else
        completion == Returned &&
        |container.childNodes| >= 1 &&
        container.childNodes[..|container.childNodes| - 1] == TruncateAfter(old(container.childNodes), headline.value) &&
        IsRecentList(container.childNodes[|container.childNodes| - 1], es)
  {
    var recentlyPosts := RecentlyPosts(Function, NotFunction);
    var calls, handled := HandleEvent(recentlyPosts, event);
    completion := handled;
    if |calls| == 1 && calls[0].SuccessCalled? {
      completion := container.InsertRecentPosts(Some(calls[0].parsed));
    }
  }
}
