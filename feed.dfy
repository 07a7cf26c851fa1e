/** Feed documents and the RecentlyPosts parsing layer: dialect
    classification (parseResponse) and the RSS 2.0 mapping (parseRss2,
    parseRss2Item). The XML parser itself is abstracted: a document is the
    root element's identity plus the `item` elements in document order,
    each with its descendant elements. */
module Feed {
  import opened Wrappers
  import opened Exceptions

  const ATOM_NAMESPACE_URI: string := "http://www.w3.org/2005/Atom"
  const RDF_NAMESPACE_URI: string := "http://www.w3.org/1999/02/22-rdf-syntax-ns#"

  /** The elements an RSS 2.0 item is read from, in the order they are read. */
  const ITEM_TAGS: seq<string> := ["link", "title", "description", "pubDate"]

  /** An element inside an item, at any depth: its qualified tag name, as
      written in the document and compared exactly (so `atom:link` is not a
      `link`), and its text content. */
  datatype Field = Field(tagName: string, textContent: string)

  /** An `item` element: its descendant elements, at every depth, in
      document order (the order `getElementsByTagName` searches). */
  datatype Item = Item(fields: seq<Field>)

  /** A parsed document: the root element's local name and namespace URI
      (`None` is `null`), and every `item` element in document order. */
  datatype XmlDocument = XmlDocument(localName: string, namespaceUri: Option<string>, items: seq<Item>)

  /** `new Date(pubDate)`: host date parsing is not modelled, so a date is
      identified by the text it was built from. */
  datatype Date = DateOf(pubDate: string)

  datatype PostEntry = PostEntry(uri: string, title: string, summary: string, date: Date)

  /** The three shapes parseResponse returns: an entry array, a marker
      string (`'parseRss'`, `'parseAtom'`), or an empty object `{}`. */
  datatype Parsed = Entries(entries: seq<PostEntry>) | Marker(name: string) | EmptyObject

  datatype Dialect = Rss2 | Rdf | Atom | Unknown

  /** The dialect named by a root element's `(localName, namespaceURI)`. */
  function Classify(localName: string, namespaceUri: Option<string>): (d: Dialect)
    ensures d == Rss2 <==> localName == "rss" && namespaceUri.None?
    ensures d == Rdf <==> localName == "RDF" && namespaceUri == Some(RDF_NAMESPACE_URI)
    ensures d == Atom <==> localName == "feed" && namespaceUri == Some(ATOM_NAMESPACE_URI)
  {
    if localName == "rss" && namespaceUri == None then Rss2
    else if localName == "RDF" && namespaceUri == Some(RDF_NAMESPACE_URI) then Rdf
    else if localName == "feed" && namespaceUri == Some(ATOM_NAMESPACE_URI) then Atom
    else Unknown
  }

  predicate HasElement(fields: seq<Field>, tagName: string)
  {
    exists i :: 0 <= i < |fields| && fields[i].tagName == tagName
  }

  /** `fields[i]` is the first element named `tagName`. */
  predicate IsFirst(fields: seq<Field>, tagName: string, i: int)
  {
    0 <= i < |fields| && fields[i].tagName == tagName &&
    forall j :: 0 <= j < i ==> fields[j].tagName != tagName
  }

  /** `text` is the text content of the first element named `tagName`. */
  predicate IsFirstText(fields: seq<Field>, tagName: string, text: string)
  {
    exists i :: 0 <= i < |fields| && IsFirst(fields, tagName, i) && fields[i].textContent == text
  }

  /** Index of `getElementsByTagName(tagName)[0]`, if there is one. */
  function FirstIndex(fields: seq<Field>, tagName: string): (r: Option<nat>)
    ensures r.None? <==> !HasElement(fields, tagName)
    ensures r.Some? ==> IsFirst(fields, tagName, r.value)
  {
    if |fields| == 0 then None
    else if fields[0].tagName == tagName then Some(0)
    else
      match FirstIndex(fields[1..], tagName)
      case None =>
        assert forall i :: 1 <= i < |fields| ==> fields[i] == fields[1..][i - 1];
        None
      case Some(k) =>
        assert fields[k + 1] == fields[1..][k];
        Some(k + 1)
  }

  /** `getElementsByTagName(tagName)[0].textContent`, failing with the
      TypeError the source raises when there is no such element. */
  function FirstText(fields: seq<Field>, tagName: string): (r: Result<string, Error>)
    ensures r.Failure? <==> !HasElement(fields, tagName)
    ensures r.Failure? ==> r.error == MissingElement(tagName)
    ensures r.Success? ==> IsFirstText(fields, tagName, r.value)
  {
    match FirstIndex(fields, tagName)
    case None => Failure(MissingElement(tagName))
    case Some(i) => Success(fields[i].textContent)
  }

  /** An item has every element parseRss2Item reads. */
  predicate Complete(item: Item)
  {
    forall k :: 0 <= k < |ITEM_TAGS| ==> HasElement(item.fields, ITEM_TAGS[k])
  }

  /** parseRss2Item: an entry built from the first `link`, `title`,
      `description` and `pubDate` of the item, read in that order, so the
      exception names the first of them that is missing. */
  function ParseRss2Item(item: Item): (r: Result<PostEntry, Error>)
    ensures r.Success? <==> Complete(item)
    ensures r.Success? ==>
      && IsFirstText(item.fields, "link", r.value.uri)
      && IsFirstText(item.fields, "title", r.value.title)
      && IsFirstText(item.fields, "description", r.value.summary)
      && IsFirstText(item.fields, "pubDate", r.value.date.pubDate)
    ensures r.Failure? ==>
      exists k :: 0 <= k < |ITEM_TAGS| && r.error == MissingElement(ITEM_TAGS[k]) &&
        !HasElement(item.fields, ITEM_TAGS[k]) &&
        forall j :: 0 <= j < k ==> HasElement(item.fields, ITEM_TAGS[j])
  {
    assert ITEM_TAGS[0] == "link" && ITEM_TAGS[1] == "title";
    assert ITEM_TAGS[2] == "description" && ITEM_TAGS[3] == "pubDate";
    var link := FirstText(item.fields, "link");
    var title := FirstText(item.fields, "title");
    var description := FirstText(item.fields, "description");
    var pubDate := FirstText(item.fields, "pubDate");
    if link.Failure? then Failure(link.error)
    else if title.Failure? then Failure(title.error)
    else if description.Failure? then Failure(description.error)
    else if pubDate.Failure? then Failure(pubDate.error)
    else Success(PostEntry(link.value, title.value, description.value, DateOf(pubDate.value)))
  }

  /** `Array.prototype.map` with a callback that may throw: one result per
      element, in order, or the exception of the first element that throws
      (later elements are not visited). */
  function MapOrThrow<A, B>(xs: seq<A>, f: A -> Result<B, Error>): (r: Result<seq<B>, Error>)
    ensures r.Success? <==> forall i :: 0 <= i < |xs| ==> f(xs[i]).Success?
    ensures r.Success? ==> |r.value| == |xs|
    ensures r.Success? ==> forall i :: 0 <= i < |xs| ==> Success(r.value[i]) == f(xs[i])
    ensures r.Failure? ==>
      exists k :: 0 <= k < |xs| && f(xs[k]) == Failure(r.error) &&
        forall j :: 0 <= j < k ==> f(xs[j]).Success?
  {
    if |xs| == 0 then Success([])
    else
      var head := f(xs[0]);
      var tail := MapOrThrow(xs[1..], f);
      if head.Failure? then Failure(head.error)
      else if tail.Failure? then
        var k :| 0 <= k < |xs| - 1 && f(xs[1..][k]) == Failure(tail.error) &&
          forall j :: 0 <= j < k ==> f(xs[1..][j]).Success?;
        assert f(xs[k + 1]) == Failure(tail.error);
        Failure(tail.error)
      else Success([head.value] + tail.value)
  }

  /** parseRss2: parseRss2Item mapped over every `item`, in document order.
      It succeeds exactly when every item is complete, with one entry per
      item read from that item; otherwise it fails with the error of the
      first incomplete item. */
  function ParseRss2(xml: XmlDocument): (r: Result<seq<PostEntry>, Error>)
    ensures r.Success? <==> forall i :: 0 <= i < |xml.items| ==> Complete(xml.items[i])
    ensures r.Success? ==> |r.value| == |xml.items|
    ensures r.Success? ==> forall i :: 0 <= i < |xml.items| ==> ParseRss2Item(xml.items[i]) == Success(r.value[i])
    ensures r.Failure? ==>
      exists k :: 0 <= k < |xml.items| && !Complete(xml.items[k]) &&
        ParseRss2Item(xml.items[k]) == Failure(r.error) &&
        forall j :: 0 <= j < k ==> Complete(xml.items[j])
  {
    MapOrThrow(xml.items, ParseRss2Item)
  }

  /** parseResponse applied to `responseXML` (`None` is a null response,
      whose `documentElement` cannot be read). */
  function ParseResponse(responseXml: Option<XmlDocument>): (r: Result<Parsed, Error>)
    ensures responseXml.None? ==> r == Failure(NoDocument)
    ensures r.Success? && r.value.Entries? ==>
      responseXml.Some? && responseXml.value.localName == "rss" && responseXml.value.namespaceUri.None?
    ensures r.Success? && r.value.Entries? ==> ParseRss2(responseXml.value) == Success(r.value.entries)
    ensures r.Failure? && responseXml.Some? ==>
      responseXml.value.localName == "rss" && responseXml.value.namespaceUri.None? &&
      ParseRss2(responseXml.value) == Failure(r.error)
    ensures responseXml.Some? ==>
      (r == Success(Marker("parseRss")) <==>
        responseXml.value.localName == "RDF" && responseXml.value.namespaceUri == Some(RDF_NAMESPACE_URI))
    ensures responseXml.Some? ==>
      (r == Success(Marker("parseAtom")) <==>
        responseXml.value.localName == "feed" && responseXml.value.namespaceUri == Some(ATOM_NAMESPACE_URI))
    ensures responseXml.Some? ==>
      (r == Success(EmptyObject) <==>
        Classify(responseXml.value.localName, responseXml.value.namespaceUri) == Unknown)
  {
    match responseXml
    case None => Failure(NoDocument)
    case Some(xml) =>
      match Classify(xml.localName, xml.namespaceUri)
      case Rss2 =>
        (match ParseRss2(xml)
         case Success(entries) => Success(Entries(entries))
         case Failure(e) => Failure(e))
      case Rdf => Success(Marker("parseRss"))
      case Atom => Success(Marker("parseAtom"))
      case Unknown => Success(EmptyObject)
  }

  /** For an RSS 2.0 root, parseResponse gives exactly one entry per item, in
      document order, each read from that item; any other root gives no
      entries, even `rss` in a namespace. */
  lemma {:induction false} Rss2EntriesPerItem(xml: XmlDocument)
    requires xml.localName == "rss" && xml.namespaceUri.None?
    requires forall i :: 0 <= i < |xml.items| ==> Complete(xml.items[i])
    ensures ParseResponse(Some(xml)).Success? && ParseResponse(Some(xml)).value.Entries?
    ensures var es := ParseResponse(Some(xml)).value.entries;
      |es| == |xml.items| &&
      forall i :: 0 <= i < |es| ==>
        && IsFirstText(xml.items[i].fields, "link", es[i].uri)
        && IsFirstText(xml.items[i].fields, "title", es[i].title)
        && IsFirstText(xml.items[i].fields, "description", es[i].summary)
        && IsFirstText(xml.items[i].fields, "pubDate", es[i].date.pubDate)
  {
    var r := ParseRss2(xml);
    assert r.Success?;
    forall i | 0 <= i < |xml.items|
      ensures var e := r.value[i];
        && IsFirstText(xml.items[i].fields, "link", e.uri)
        && IsFirstText(xml.items[i].fields, "title", e.title)
        && IsFirstText(xml.items[i].fields, "description", e.summary)
        && IsFirstText(xml.items[i].fields, "pubDate", e.date.pubDate)
    {
      assert Success(r.value[i]) == ParseRss2Item(xml.items[i]);
    }
  }

  /** An item missing one of the four elements makes the whole parse fail:
      no entry array is produced. */
  lemma {:induction false} IncompleteItemFailsParse(xml: XmlDocument, k: nat)
    requires xml.localName == "rss" && xml.namespaceUri.None?
    requires k < |xml.items| && !Complete(xml.items[k])
    ensures ParseResponse(Some(xml)).Failure?
    ensures ParseResponse(Some(xml)).error.MissingElement?
  {
    assert ParseRss2Item(xml.items[k]).Failure?;
    var r := ParseRss2(xml);
    assert r.Failure?;
    var j :| 0 <= j < |xml.items| && ParseRss2Item(xml.items[j]) == Failure(r.error);
  }
}
