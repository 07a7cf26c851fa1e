/** The part of the DOM the theme script touches: element trees, the
    headline that querySelector finds in the recent-posts container
    (removeChildNodes.headlinesSelector), and the deletion that a Range from
    just after that headline to the container's end performs. */
module Dom {
  import opened Wrappers
  import opened Strings

  datatype Node =
    | Element(localName: string, attributes: map<string, string>, childNodes: seq<Node>)
    | Text(data: string)

  /** A position in a tree: child indices from the container down. */
  type Path = seq<nat>

  const HEADLINE_TAGS: seq<string> := ["h1", "h2", "h3", "h4", "h5", "h6"]

  /** The pseudo-class every headline selector carries. */
  const FIRST_CHILD: string := ":first-child"

  /** Each tag in `tags` turned into `tag + ':first-child'`. */
  function FirstChildSelectors(tags: seq<string>): (r: seq<string>)
    ensures |r| == |tags|
    ensures forall i :: 0 <= i < |tags| ==> r[i] == tags[i] + FIRST_CHILD
  {
    if |tags| == 0 then [] else [tags[0] + FIRST_CHILD] + FirstChildSelectors(tags[1..])
  }

  /** headlinesSelector: the `:first-child` selectors of h1 … h6, in that
      order, joined by ", ". */
  function HeadlinesSelector(): (s: string)
    ensures s == Join(["h1" + FIRST_CHILD, "h2" + FIRST_CHILD, "h3" + FIRST_CHILD,
                       "h4" + FIRST_CHILD, "h5" + FIRST_CHILD, "h6" + FIRST_CHILD], ", ")
  {
    var selectors := FirstChildSelectors(HEADLINE_TAGS);
    assert selectors[0] == "h1" + FIRST_CHILD && selectors[1] == "h2" + FIRST_CHILD;
    assert selectors[2] == "h3" + FIRST_CHILD && selectors[3] == "h4" + FIRST_CHILD;
    assert selectors[4] == "h5" + FIRST_CHILD && selectors[5] == "h6" + FIRST_CHILD;
    assert selectors == ["h1" + FIRST_CHILD, "h2" + FIRST_CHILD, "h3" + FIRST_CHILD,
                         "h4" + FIRST_CHILD, "h5" + FIRST_CHILD, "h6" + FIRST_CHILD];
    Join(selectors, ", ")
  }

  /** `nodes[i]` matches the selector: an h1 … h6 element with no element
      before it among its siblings. */
  predicate MatchesHeadline(nodes: seq<Node>, i: nat)
    requires i < |nodes|
  {
    nodes[i].Element? && nodes[i].localName in HEADLINE_TAGS &&
    forall j :: 0 <= j < i ==> !nodes[j].Element?
  }

  /** No node of the forest, at any depth, matches the selector. */
  predicate NoHeadlineIn(nodes: seq<Node>)
    decreases nodes, 1
  {
    forall i :: 0 <= i < |nodes| ==> Clear(nodes, i)
  }

  /** Neither `nodes[i]` nor anything inside it matches the selector. */
  predicate Clear(nodes: seq<Node>, i: nat)
    requires i < |nodes|
    decreases nodes, 0
  {
    !MatchesHeadline(nodes, i) && (nodes[i].Element? ==> NoHeadlineIn(nodes[i].childNodes))
  }

  /** `path` leads to the first node, in document order, that matches. */
  predicate IsFirstHeadline(nodes: seq<Node>, path: Path)
    decreases path, 1
  {
    |path| >= 1 && path[0] < |nodes| &&
    (forall j :: 0 <= j < path[0] ==> Clear(nodes, j)) &&
    HeadlineAt(nodes, path)
  }

  /** The node at `path[0]` matches, or it is an element that does not match
      and holds the first match at `path[1..]`. */
  predicate HeadlineAt(nodes: seq<Node>, path: Path)
    decreases path, 0
  {
    |path| >= 1 && path[0] < |nodes| &&
    if |path| == 1 then MatchesHeadline(nodes, path[0])
    else
      !MatchesHeadline(nodes, path[0]) && nodes[path[0]].Element? &&
      IsFirstHeadline(nodes[path[0]].childNodes, path[1..])
  }

  /** `querySelector(headlinesSelector)` on the container: the first match in
      document order, or `None` for null. */
  function FindHeadline(nodes: seq<Node>): (r: Option<Path>)
    ensures r.None? <==> NoHeadlineIn(nodes)
    ensures r.Some? ==> IsFirstHeadline(nodes, r.value) && ValidPath(nodes, r.value)
    decreases nodes, |nodes| + 1
  {
    var r := FindFrom(nodes, 0);
    if r.Some? then
      FirstHeadlineIsValidPath(nodes, r.value);
      r
    else r
  }

  /** The document-order search over `nodes[from..]` and their subtrees. */
  function FindFrom(nodes: seq<Node>, from: nat): (r: Option<Path>)
    requires from <= |nodes|
    ensures r.None? ==> forall i :: from <= i < |nodes| ==> Clear(nodes, i)
    ensures r.Some? ==> exists i :: from <= i < |nodes| && !Clear(nodes, i)
    ensures r.Some? ==>
      |r.value| >= 1 && from <= r.value[0] < |nodes| &&
      (forall j :: from <= j < r.value[0] ==> Clear(nodes, j)) &&
      HeadlineAt(nodes, r.value)
    decreases nodes, |nodes| - from
  {
    if from == |nodes| then None
    else if MatchesHeadline(nodes, from) then
      assert !Clear(nodes, from);
      assert exists i :: from <= i < |nodes| && !Clear(nodes, i);
      Some([from])
    else if nodes[from].Element? && FindHeadline(nodes[from].childNodes).Some? then
      var p := FindHeadline(nodes[from].childNodes).value;
      assert ([from] + p)[1..] == p;
      assert !Clear(nodes, from);
      assert exists i :: from <= i < |nodes| && !Clear(nodes, i);
      Some([from] + p)
    else FindFrom(nodes, from + 1)
  }

  predicate ValidPath(nodes: seq<Node>, path: Path)
    decreases path
  {
    |path| >= 1 && path[0] < |nodes| &&
    (|path| > 1 ==> nodes[path[0]].Element? && ValidPath(nodes[path[0]].childNodes, path[1..]))
  }

  function NodeAt(nodes: seq<Node>, path: Path): Node
    requires ValidPath(nodes, path)
    decreases path
  {
    if |path| == 1 then nodes[path[0]] else NodeAt(nodes[path[0]].childNodes, path[1..])
  }

  /** At every level of `path`, the node on the path is the last sibling:
      nothing follows the node at `path` in document order except its own
      descendants. */
  predicate EndsAt(nodes: seq<Node>, path: Path)
    requires ValidPath(nodes, path)
    decreases path
  {
    path[0] == |nodes| - 1 && (|path| > 1 ==> EndsAt(nodes[path[0]].childNodes, path[1..]))
  }

  /** `a` and `b` agree on everything before the node at `path` in document
      order: the earlier siblings at each level, and the ancestors' names and
      attributes. */
  predicate SamePrefix(a: seq<Node>, b: seq<Node>, path: Path)
    requires ValidPath(a, path) && ValidPath(b, path)
    decreases path
  {
    a[..path[0]] == b[..path[0]] &&
    (|path| > 1 ==>
      a[path[0]].localName == b[path[0]].localName &&
      a[path[0]].attributes == b[path[0]].attributes &&
      SamePrefix(a[path[0]].childNodes, b[path[0]].childNodes, path[1..]))
  }

  /** `range.setStartAfter(node at path); range.setEndAfter(lastChild);
      range.deleteContents()`: everything after the node at `path`, in
      document order, is removed; the ancestors on the path stay. */
  function TruncateAfter(nodes: seq<Node>, path: Path): (r: seq<Node>)
    requires ValidPath(nodes, path)
    ensures ValidPath(r, path)
    ensures SamePrefix(nodes, r, path)
    ensures NodeAt(r, path) == NodeAt(nodes, path)
    ensures EndsAt(r, path)
    decreases path
  {
    var i := path[0];
    if |path| == 1 then nodes[..i + 1]
    else
      var n := nodes[i];
      var r := nodes[..i] + [n.(childNodes := TruncateAfter(n.childNodes, path[1..]))];
      assert r[..i] == nodes[..i];
      r
  }

  lemma {:induction false} FirstHeadlineIsValidPath(nodes: seq<Node>, path: Path)
    requires IsFirstHeadline(nodes, path)
    ensures ValidPath(nodes, path)
    decreases path
  {
    if |path| > 1 {
      FirstHeadlineIsValidPath(nodes[path[0]].childNodes, path[1..]);
    }
  }

  lemma {:induction false} FirstHeadlineNotClear(nodes: seq<Node>, path: Path)
    requires IsFirstHeadline(nodes, path)
    ensures !Clear(nodes, path[0])
    decreases path
  {
    if |path| > 1 {
      var child := nodes[path[0]].childNodes;
      FirstHeadlineNotClear(child, path[1..]);
      assert !Clear(child, path[1..][0]);
    }
  }

  /** There is only one first headline. */
  lemma {:induction false} FirstHeadlineUnique(nodes: seq<Node>, p: Path, q: Path)
    requires IsFirstHeadline(nodes, p) && IsFirstHeadline(nodes, q)
    ensures p == q
    decreases p
  {
    FirstHeadlineNotClear(nodes, p);
    FirstHeadlineNotClear(nodes, q);
    assert p[0] == q[0];
    if |p| == 1 || |q| == 1 {
      assert |p| == 1 && |q| == 1;
      assert p == [p[0]] && q == [q[0]];
    } else {
      FirstHeadlineUnique(nodes[p[0]].childNodes, p[1..], q[1..]);
      assert p == [p[0]] + p[1..] && q == [q[0]] + q[1..];
    }
  }

  /** Whether `nodes[j]` is clear depends only on `nodes[..j + 1]`. */
  lemma ClearOnPrefix(a: seq<Node>, b: seq<Node>, j: nat)
    requires j < |a| && j < |b| && a[..j + 1] == b[..j + 1]
    ensures Clear(a, j) == Clear(b, j)
  {
    assert a[j] == a[..j + 1][j] == b[..j + 1][j] == b[j];
    assert forall k :: 0 <= k < j ==> a[k] == a[..j + 1][k] && b[k] == b[..j + 1][k];
  }

  /** The first headline stays the first headline when nodes are appended. */
  lemma {:induction false} FirstHeadlineExtended(nodes: seq<Node>, path: Path, more: seq<Node>)
    requires IsFirstHeadline(nodes, path)
    ensures IsFirstHeadline(nodes + more, path)
  {
    var all := nodes + more;
    var i := path[0];
    forall j | 0 <= j <= i ensures Clear(all, j) == Clear(nodes, j) {
      assert all[..j + 1] == nodes[..j + 1];
      ClearOnPrefix(all, nodes, j);
    }
    assert all[i] == nodes[i];
    assert forall k :: 0 <= k < i ==> all[k] == nodes[k];
    assert MatchesHeadline(all, i) == MatchesHeadline(nodes, i);
  }

  /** Truncating after the first headline keeps it the first headline. */
  lemma {:induction false} FirstHeadlineKept(nodes: seq<Node>, path: Path)
    requires IsFirstHeadline(nodes, path)
    ensures ValidPath(nodes, path)
    ensures IsFirstHeadline(TruncateAfter(nodes, path), path)
    decreases path
  {
    FirstHeadlineIsValidPath(nodes, path);
    var r := TruncateAfter(nodes, path);
    var i := path[0];
    assert r[..i] == nodes[..i];
    assert r[i].Element? && nodes[i].Element?;
    forall j | 0 <= j < i ensures Clear(r, j) == Clear(nodes, j) {
      assert r[..j + 1] == nodes[..j + 1] by {
        assert r[..j + 1] == r[..i][..j + 1];
        assert nodes[..j + 1] == nodes[..i][..j + 1];
      }
      ClearOnPrefix(r, nodes, j);
    }
    assert forall k :: 0 <= k < i ==> r[k] == r[..i][k] && nodes[k] == nodes[..i][k];
    if |path| == 1 {
      assert r[i] == nodes[i];
    } else {
      assert r[i].localName == nodes[i].localName;
      FirstHeadlineKept(nodes[i].childNodes, path[1..]);
    }
    assert MatchesHeadline(r, i) == MatchesHeadline(nodes, i);
  }

  /** Only what precedes the truncation point matters. */
  lemma {:induction false} TruncateAfterIgnoresLater(nodes: seq<Node>, path: Path, more: seq<Node>)
    requires ValidPath(nodes, path)
    ensures ValidPath(nodes + more, path)
    ensures TruncateAfter(nodes + more, path) == TruncateAfter(nodes, path)
  {
    var i := path[0];
    assert (nodes + more)[i] == nodes[i];
    assert (nodes + more)[..i] == nodes[..i];
    assert (nodes + more)[..i + 1] == nodes[..i + 1];
  }

  /** Truncating twice at the same place removes nothing more. */
  lemma {:induction false} TruncateAfterIdempotent(nodes: seq<Node>, path: Path)
    requires ValidPath(nodes, path)
    ensures TruncateAfter(TruncateAfter(nodes, path), path) == TruncateAfter(nodes, path)
    decreases path
  {
    var i := path[0];
    var r := TruncateAfter(nodes, path);
    if |path| == 1 {
      assert r[..i + 1] == r;
    } else {
      TruncateAfterIdempotent(nodes[i].childNodes, path[1..]);
      assert r[..i] == nodes[..i];
    }
  }

  /** The `textContent` getter: the text of every descendant text node, in
      document order. */
  function TextContent(node: Node): string
    decreases node, 1
  {
    match node
    case Text(data) => data
    case Element(_, _, childNodes) => ChildrenText(childNodes)
  }

  function ChildrenText(nodes: seq<Node>): string
    decreases nodes, 0
  {
    if |nodes| == 0 then "" else TextContent(nodes[0]) + ChildrenText(nodes[1..])
  }

  /** The children the `textContent` setter leaves: one text node, or none
      for the empty string. */
  function TextChildren(text: string): (r: seq<Node>)
    ensures ChildrenText(r) == text
  {
    if text == "" then [] else [Text(text)]
  }
}
