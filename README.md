# Octopress Tumblr theme script: a Dafny model

This project models the decision and transformation layer of the theme's
in-page script `octopress-tumblr-theme.js`:

- **RecentlyPosts** (the feed client): how `handleEvent` dispatches the outcome of the
  feed request to the success and error handlers; how `parseResponse` classifies a
  document by its root element's `(localName, namespaceURI)`; and how `parseRss2` and
  `parseRss2Item` map each RSS 2.0 `item` to an entry `{uri, title, summary, date}`.
- **Feed discovery** in `showingRecentlyPosts`: the first `link[rel="alternate"]` whose
  `type` is one of the four feed content types.
- **insertRecentPosts / removeChildNodes**: the recent-posts container keeps everything up
  to its first `h1:first-child … h6:first-child` headline, everything after it is
  deleted, and one `ol` of `li > a` links, one per entry, is appended.
- **SiteScript** event dispatch: `getMethodNames`, `getEventHandler`, `handleEvent`, and
  `setPlaceholder`.

Browser primitives are abstract inputs. A parsed XML document is a datatype with the
root name, an optional namespace and the `item` elements. Each item is the sequence of
its descendant elements, at every depth and in document order, as
`(tagName, textContent)` pairs, because `getElementsByTagName` searches the whole
subtree. The DOM is a tree of `Element`/`Text` nodes. A
JavaScript exception is an `Error` variant, and a call ends in a `Completion`
(`Returned` or `Threw`). `null`/`undefined` are `None`. Feed tag names are qualified
names compared exactly as written, so `pubDate` keeps its capital and `<atom:link>` is
not a `link`. The container's headlines are matched by the lower-case `localName` of
HTML elements.

Modules, one per file: `Wrappers` (Option, Result), `Exceptions` (the TypeErrors the
script raises), `Strings` (`split`/`join`), `Feed` (documents, classification,
RSS 2.0 mapping), `FeedClient` (`handleEvent`), `Discovery`, `Dom` (headline search,
Range deletion, `textContent`), `RecentPosts` (the container and the load pipeline),
`SiteScript`.

Behaviours of the code that are easy to miss, and that the model follows:

- Errors are not always dropped silently when there is no error handler. Only
  transport failures check the handler first (line 56). A parse exception
  calls `this.errorHandler.call` unchecked (line 65). `showingRecentlyPosts` builds its
  RecentlyPosts with no error handler, so an incomplete RSS item ends in a TypeError
  escaping `handleEvent` (`FeedClient.HandleEvent`, `RecentPosts.ShowRecentPostsOnLoad`).
- RDF and Atom roots do not raise an "unsupported dialect" error. They produce the
  strings `'parseRss'` and `'parseAtom'`, and any other root produces `{}`. The success
  handler receives these values, and `insertRecentPosts` then fails: neither a string nor
  `{}` has `forEach`.
- The headline is found only by the fixed selector `h1:first-child, …, h6:first-child`,
  searched through all descendants of the container in document order. There is no
  other notion of a "heading-like" element.
- `pubDate` is handed to `new Date` as it is, with no date format checked here. The model
  keeps the raw text inside an opaque `Date`.
- A SiteScript method that throws ends the handler's `some` loop, and its exception
  escapes `handleEvent` (lines 122-124 and 140). No later method runs.

## Model

| member | source | states |
|---|---|---|
| `Feed.Classify` | octopress-tumblr-theme.js:74-81 | the root is RSS 2.0 exactly for `('rss', null)`, RDF exactly for `('RDF', RDF ns)`, Atom exactly for `('feed', Atom ns)`, and unknown otherwise |
| `Feed.FirstIndex` | octopress-tumblr-theme.js:91-95 | the index found is that of the first descendant with the tag; none exactly when no descendant has it |
| `Feed.FirstText` | octopress-tumblr-theme.js:91-95 | `getElementsByTagName(tag)[0].textContent` is the text of the first such descendant; it throws MissingElement(tag) exactly when there is none |
| `Feed.ParseRss2Item` | octopress-tumblr-theme.js:90-104 | succeeds exactly when the item has link, title, description and pubDate; uri, title, summary and date come from the first of each; otherwise the error names the first missing tag in reading order |
| `Feed.MapOrThrow` | octopress-tumblr-theme.js:85-88 | `map` with a throwing callback: one result per element in order, or the exception of the first element that throws |
| `Feed.ParseRss2` | octopress-tumblr-theme.js:85-88 | succeeds exactly when every item is complete, with one entry per item, in document order, each the parse of its item; otherwise it throws the error of the first incomplete item |
| `Feed.ParseResponse` | octopress-tumblr-theme.js:71-83 | null document throws; entries only for `('rss', null)`, and then exactly the RSS 2.0 parse's entries; `'parseRss'` exactly for `('RDF', RDF ns)`; `'parseAtom'` exactly for `('feed', Atom ns)`; `{}` for every other pair, including `rss` in a namespace; a failure is always the RSS 2.0 parse's failure |
| `Feed.Rss2EntriesPerItem` | octopress-tumblr-theme.js:85-103 | for an RSS 2.0 root with complete items, the result has one entry per item in document order, each read from the first link/title/description/pubDate of its item |
| `Feed.IncompleteItemFailsParse` | octopress-tumblr-theme.js:90-95 | one item missing a required element makes the whole parse throw a MissingElement error |
| `FeedClient.TransportFailed` | octopress-tumblr-theme.js:55 | definition: the request failed when the event is `error` or the status is neither 200 nor 304 (`HandleEvent`'s contract states what follows from it) |
| `FeedClient.HandleEvent` | octopress-tumblr-theme.js:49-69 | an `error` event or a status other than 200/304 calls only the error handler, once, with "Don't get response." and only if it is a function; a parse exception goes to the error handler unchecked (TypeError if it is not a function); otherwise the success handler receives the parse; the success handler never runs unless the transport succeeded and the parse did not throw |
| `Discovery.IsFeedLink` | octopress-tumblr-theme.js:157-158 | definition: a link is a feed link when its `type` attribute is present and one of the four feed content types (`FirstFeedUri`'s contract states the search over it) |
| `Discovery.FirstFeedUri` | octopress-tumblr-theme.js:153-165 | undefined exactly when no link's type is a feed content type; otherwise the href (possibly null) of the first link whose type is |
| `Discovery.DiscoverFeedUri` | octopress-tumblr-theme.js:153-165 | the `some` loop assigning `feedUri` yields exactly the first-match result |
| `Discovery.LaterLinksIgnored` | octopress-tumblr-theme.js:156-163 | links after the first feed link never change the result |
| `Discovery.NonFeedLinksSkipped` | octopress-tumblr-theme.js:157-160 | links whose type is not a feed type are passed over |
| `Dom.FirstChildSelectors` | octopress-tumblr-theme.js:213-215 | each tag becomes `tag + ':first-child'`, in order |
| `Dom.HeadlinesSelector` | octopress-tumblr-theme.js:206-215 | headlinesSelector is `h1:first-child` … `h6:first-child`, in that order, joined by `", "` |
| `Dom.FindHeadline` | octopress-tumblr-theme.js:199 | querySelector finds no headline exactly when no node at any depth matches; otherwise it returns a valid path to the first match in document order |
| `Dom.FindFrom` | octopress-tumblr-theme.js:199 | the document-order search from a sibling index: none exactly when those siblings and their subtrees hold no match |
| `Dom.TruncateAfter` | octopress-tumblr-theme.js:200-203 | after the Range deletion the node at the path is intact and last in document order; everything before it (earlier siblings, ancestors' names and attributes) is unchanged |
| `Dom.FirstHeadlineUnique` | octopress-tumblr-theme.js:199 | there is only one first headline |
| `Dom.FirstHeadlineKept` | octopress-tumblr-theme.js:199-203 | after deleting everything behind the first headline, it is still the first headline |
| `Dom.FirstHeadlineExtended` | octopress-tumblr-theme.js:193 | appending children keeps the first headline where it was |
| `Dom.TruncateAfterIgnoresLater` | octopress-tumblr-theme.js:200-203 | children appended after the path do not change the deletion's result |
| `Dom.TruncateAfterIdempotent` | octopress-tumblr-theme.js:200-203 | deleting behind the same node twice removes nothing more |
| `Dom.TextChildren` | octopress-tumblr-theme.js:186 | setting `textContent` then reading it gives back the title |
| `RecentPosts.ListItem` | octopress-tumblr-theme.js:176-186 | each list item is an `li` holding one `a` whose only attribute is `href` equal to the entry's uri and whose text is the entry's title |
| `RecentPosts.BuildList` | octopress-tumblr-theme.js:182-188 | the `forEach` loop builds an `ol` with exactly one list item per entry, in entry order |
| `RecentPosts.Iterable` | octopress-tumblr-theme.js:182 | the value `forEach` is called on can be iterated exactly for null, undefined or `''` (which fall back to `[]` and give no entries) or an entry array (which gives its entries); a marker string or `{}` throws TypeError (no `forEach`) |
| `RecentPosts.Container.RemoveChildNodes` | octopress-tumblr-theme.js:196-204 | with a headline, the children become the deletion behind the first headline; without one, setStartAfter(null) throws and nothing changes |
| `RecentPosts.Container.InsertRecentPosts` | octopress-tumblr-theme.js:172-194 | null, undefined, `''` or zero entries leave the container unchanged; a marker string or `{}` throws (no forEach) and changes nothing; otherwise no headline throws with nothing changed, else the container is the truncated children followed by the new list as last child |
| `RecentPosts.ReinsertionReplacesList` | octopress-tumblr-theme.js:192-203 | a second insertion finds the same headline and drops the first list: the nodes before the new list are the same as after the first insertion |
| `RecentPosts.ShowRecentPostsOnLoad` | octopress-tumblr-theme.js:166-169 | the whole recent-posts load path: the container changes only for a delivered RSS 2.0 feed with at least one item; a transport failure returns quietly; a parse failure escapes as a TypeError from the missing error handler; a marker or `{}` fails in forEach; with entries but no headline it throws and the container is unchanged; with a headline the children become the truncation behind it followed by the new list |
| `Strings.Split` | octopress-tumblr-theme.js:130 | `split(',')` gives at least one piece and no piece contains the separator |
| `Strings.Join` | octopress-tumblr-theme.js:215 | definition of `join(sep)`: the pieces in order with `sep` between neighbours (`JoinSplit` and `SplitJoin` state that it inverts `split`) |
| `Strings.JoinSplit` | octopress-tumblr-theme.js:130 | joining the pieces of a split with the separator gives back the string |
| `Strings.SplitJoin` | octopress-tumblr-theme.js:130 | splitting a join of separator-free pieces gives back the pieces |
| `SiteScript.GetMethodNames` | octopress-tumblr-theme.js:128-132 | the names are never empty as a list and contain no comma |
| `SiteScript.DomContentLoadedNames` | octopress-tumblr-theme.js:134-136 | DOMContentLoaded names `setPlaceholder` then `showingRecentlyPosts` |
| `SiteScript.UnlistedEventTypeNames` | octopress-tumblr-theme.js:130 | an event type without an entry yields `['']` |
| `SiteScript.FunctionsOf` | octopress-tumblr-theme.js:114-119 | exactly the names that resolve to functions are kept |
| `SiteScript.FunctionsOfConcat` | octopress-tumblr-theme.js:114-119 | the filter keeps the names' order (it distributes over concatenation) |
| `SiteScript.Invoked` | octopress-tumblr-theme.js:122-124 | reference definition of one run of the handler: the methods called and whether the last threw (its properties are `InvokedCharacterised`'s contract) |
| `SiteScript.InvokedCharacterised` | octopress-tumblr-theme.js:121-124 | methods run in order from the first; all but the last did not throw, returned falsy and left the default alone; none run once `defaultPrevented` is set; the run stops early only for an exception, a truthy result or a prevented default; it ends in an exception exactly when its last method threw |
| `SiteScript.RunHandler` | octopress-tumblr-theme.js:121-124 | the `some` loop calls exactly the methods of that reference run, and lets an exception out exactly when the reference run throws |
| `SiteScript.HandleEvent` | octopress-tumblr-theme.js:138-141 | handleEvent does the reference run over the names of the event type that resolve to functions, and lets its exception escape |
| `SiteScript.DomContentLoadedRunsBoth` | octopress-tumblr-theme.js:112-136 | on DOMContentLoaded, setPlaceholder then showingRecentlyPosts run when both are functions and setPlaceholder does not throw, return truthy or prevent the default; the event then throws exactly when showingRecentlyPosts does |
| `SiteScript.UnlistedEventRunsNothing` | octopress-tumblr-theme.js:128-132 | an event type with no entry runs nothing and throws nothing |
| `SiteScript.SetPlaceholder` | octopress-tumblr-theme.js:143-149 | every search field ends with placeholder `'Search'` |

## Left out

- The XMLHttpRequest transport (`get`), listener registration, the SiteScript constructor
  and `main` are browser I/O and event-loop wiring. Only the `(type, status, responseXML)`
  that reaches `handleEvent` is modelled. The URI handed to `get` (possibly `undefined` or
  `null`) is not followed further.
- XML parsing and the CSS selector engine (`responseXML`, `querySelectorAll('item')`,
  `link[rel="alternate"]`, `getElementsByTagName`) are host code. A document arrives
  already reduced to its `item` elements, each with its descendant elements (at every
  depth) in document order. The page's alternate links arrive already selected, as
  `(type, href)` pairs. Feed tag names are qualified names compared exactly as written.
  Container headlines use the lower-case `localName` of HTML elements; HTML case folding
  is not modelled.
- `new Date(pubDate)` is host date parsing and is not specified by the file. The date is
  an opaque value built from the raw `pubDate` text.
- DOM Range, `cloneNode` and `createElement` are modelled by their effect on the child
  trees, not as primitives. `getElementById('recent-posts')` is assumed to find the
  container (the source does not handle null there).
- Handlers are modelled only by whether `typeof` says they are functions. A handler's own
  effects and exceptions are not modelled, except for `insertRecentPosts`, which is. A
  non-function value that happens to have a callable `call` property is treated like any
  other non-function.
- The SiteScript methods' own effects are parameters: whether `this[name]` is a function,
  whether the method throws, whether it returns truthy, and whether it sets
  `defaultPrevented`. Which exception a method throws is not modelled, only that it
  escapes. In the source, setPlaceholder and showingRecentlyPosts return `undefined`.
- `getMethodNames.list` is a plain object, so names inherited from `Object.prototype`
  (such as `toString`) would look up non-string values. Such event types are not real
  events, and the model treats every unlisted type as having no entry.
- `bind`, `call` and `apply` (this-binding) are left out. The container is the receiver
  of insertRecentPosts.
- Dom.HeadlinesSelector: states the selector as the six selectors `"h1" + ":first-child"`
  … `"h6" + ":first-child"` joined by `", "`, instead of as one literal string.
- The cross-origin JSON client, the query-string codec and the popular-posts source are
  not part of this model. This file does not contain them.
