/** The repository file tree in a column: the root listing with its error text, one node per
    entry that fetches its children on the first expand, the indentation per depth and the
    icon chosen from a file name's extension. */
module FileTree {
  import opened Wrappers
  import opened Strings
  import TreeRoute

  type Item = TreeRoute.Entry

  /** The JSON the tree route answers with, as the component reads it: a list of entries or
      an object carrying an optional `error` text. */
  datatype Json = Array(items: seq<Item>) | Object(error: Option<string>)

  /** How a fetch of the tree route ends for the component: it throws (the network fails or
      the body is not JSON), or it yields the parsed body. */
  datatype TreeReply = Failed | Parsed(data: Json)

  /** What the component receives for each answer of the tree route: the JSON body it sends,
      or a throw from `res.json()` for the framework's 500, whose body is not JSON. */
  function Received(response: TreeRoute.TreeResponse): TreeReply
  {
    match response
    case Unauthorized => Parsed(Object(Some("Not authenticated")))
    case BadRequest => Parsed(Object(Some("repo param required")))
    case Failed(status, error) => Parsed(Object(Some(error)))
    case Entries(entries) => Parsed(Array(entries))
    case ServerError => Failed
  }

  // ----- The root listing -----

  /** `data.error || "Failed to load"`, or `"Network error"` when the fetch throws; nothing for
      a list. */
  function LoadError(reply: TreeReply): (error: Option<string>)
    ensures error.None? <==> reply.Parsed? && reply.data.Array?
    ensures error.Some? ==> error.value != ""
    ensures reply.Failed? ==> error == Some("Network error")
    ensures reply.Parsed? && reply.data.Object? && reply.data.error.Some? && reply.data.error.value != "" ==>
      error == reply.data.error
    ensures reply.Parsed? && reply.data.Object? && !(reply.data.error.Some? && reply.data.error.value != "") ==>
      error == Some("Failed to load")
  {
    match reply
    case Failed => Some("Network error")
    case Parsed(Array(_)) => None
    case Parsed(Object(e)) => if e.Some? && e.value != "" then e else Some("Failed to load")
  }

  /** Every answer of the tree route other than a listing reaches the user as an error: the
      route's own message when it has one, `"Failed to load"` for an empty one, and
      `"Network error"` for the framework's 500. */
  lemma RouteErrorsShown(response: TreeRoute.TreeResponse)
    ensures response.Entries? <==> LoadError(Received(response)).None?
    ensures response.Unauthorized? ==> LoadError(Received(response)) == Some("Not authenticated")
    ensures response.Failed? ==>
      LoadError(Received(response)) == Some(if response.error == "" then "Failed to load" else response.error)
    ensures response.ServerError? ==> LoadError(Received(response)) == Some("Network error")
  {
  }

  class Root {
    const repoName: string
    var items: seq<Item>
    var loading: bool
    var error: Option<string>

    constructor(repoName: string)
      ensures this.repoName == repoName && items == [] && loading && error.None?
    {
      this.repoName := repoName;
      items := [];
      loading := true;
      error := None;
    }

    /** The effect that loads the root listing: a list replaces the items, anything else
        leaves them and sets the error; loading ends either way. */
    method Load(reply: TreeReply)
      modifies this
      ensures error == LoadError(reply) && !loading
      ensures items == if reply.Parsed? && reply.data.Array? then reply.data.items else old(items)
    {
      loading := true;
      error := None;
      match reply {
        case Failed =>
          error := Some("Network error");
        case Parsed(data) =>
          if data.Array? {
            items := data.items;
          } else {
            error := Some(if data.error.Some? && data.error.value != "" then data.error.value else "Failed to load");
          }
      }
      loading := false;
    }
  }

  // ----- Children of a directory node -----

  /** A node's `children` as the component stores them: whatever the body parsed to, or an
      empty list when the fetch throws. */
  function ChildrenAsWritten(reply: TreeReply): Json
  {
    match reply
    case Failed => Array([])
    case Parsed(data) => data
  }

  /** `children.map(...)` only works on a list. */
  predicate Renderable(children: Json)
  {
    children.Array?
  }

  /** A subdirectory fetch the route refuses (here for a session that has expired) stores the
      error object as the children, and rendering the expanded node then fails. */
  lemma ErrorObjectStoredAsChildren()
    ensures !Renderable(ChildrenAsWritten(Received(TreeRoute.Unauthorized)))
  {
  }

  /** The children as the node's declared type means them: the listed entries, or none
      whenever the fetch does not yield a list. */
  function ChildrenOf(reply: TreeReply): (children: seq<Item>)
    ensures ChildrenAsWritten(reply).Array? ==> children == ChildrenAsWritten(reply).items
    ensures !(reply.Parsed? && reply.data.Array?) ==> children == []
  {
    match reply
    case Parsed(Array(items)) => items
    case _ => []
  }

  /** A directory whose listing the route serves gets exactly those entries as its children;
      every refused listing gives no children instead of a failed render. */
  lemma ChildrenFromRoute(response: TreeRoute.TreeResponse)
    ensures response.Entries? ==> ChildrenOf(Received(response)) == response.entries
    ensures !response.Entries? ==> ChildrenOf(Received(response)) == []
  {
  }

  /** `depth * 16 + 8` pixels of left padding. */
  function Indent(depth: nat): (px: nat)
    ensures px >= 8 && (px - 8) % 16 == 0 && (px - 8) / 16 == depth
  {
    depth * 16 + 8
  }

  class TreeNode {
    const item: Item
    const depth: nat
    var expanded: bool
    var children: Option<seq<Item>>

    /** A node is only ever expanded once its children are known. */
    predicate Valid()
      reads this
    {
      expanded ==> children.Some?
    }

    constructor(item: Item, depth: nat)
      ensures this.item == item && this.depth == depth && !expanded && children.None? && Valid()
    {
      this.item := item;
      this.depth := depth;
      expanded := false;
      children := None;
    }

    /** `handleClick`. A file is selected and nothing changes. A directory flips between
        expanded and collapsed; its children are fetched (`fetched` names the path asked for,
        `reply` is the answer) only when it is being expanded and has none yet, so at most once
        over the node's life, even after a failure. */
    method HandleClick(reply: TreeReply) returns (selected: Option<string>, fetched: Option<string>)
      requires Valid()
      modifies this
      ensures Valid()
      ensures item.kind == TreeRoute.File ==>
        selected == Some(item.path) && fetched.None? && expanded == old(expanded) && children == old(children)
      ensures item.kind == TreeRoute.Dir ==>
        selected.None? && expanded == !old(expanded) && children.Some?
        && (fetched.Some? <==> !old(expanded) && old(children).None?)
      ensures fetched.Some? ==> fetched.value == item.path && children == Some(ChildrenOf(reply))
      ensures fetched.None? ==> children == old(children)
    {
      selected, fetched := None, None;
      if item.kind == TreeRoute.Dir {
        if !expanded && children.None? {
          fetched := Some(item.path);
          children := Some(ChildrenOf(reply));
        }
        expanded := !expanded;
      } else {
        selected := Some(item.path);
      }
    }

    /** The nodes drawn under this one: its children one level deeper, while it is expanded. */
    function Shown(): (rows: seq<(Item, nat)>)
      reads this
      requires Valid()
      ensures expanded ==> (|rows| == |children.value|
        && forall i :: 0 <= i < |rows| ==> rows[i].0 == children.value[i] && Indent(rows[i].1) == Indent(depth) + 16)
      ensures !expanded ==> rows == []
    {
      if expanded then
        var kids := children.value;
        var below: nat := depth + 1;
        seq(|kids|, i requires 0 <= i < |kids| => (kids[i], below))
      else []
    }
  }

  // ----- Icons -----

  /** `name.split(".").pop()`: the last dot-separated part of the name. */
  function LastPart(name: string): string
  {
    Last(Split(name, '.'))
  }

  /** The lower-cased extension the icon table is keyed by. */
  function Extension(name: string): string
  {
    Lower(LastPart(name))
  }

  const DefaultIcon := "\U{1F4C4}"

  const Icons: map<string, string> := map[
    "ts" := "\U{1F537}",
    "tsx" := "\U{1F537}",
    "js" := "\U{1F7E1}",
    "jsx" := "\U{1F7E1}",
    "json" := "\U{1F4CB}",
    "md" := "\U{1F4DD}",
    "py" := "\U{1F40D}",
    "go" := "\U{1F535}",
    "rs" := "\U{1F980}",
    "css" := "\U{1F3A8}",
    "html" := "\U{1F310}",
    "yml" := "\U{2699}\U{FE0F}",
    "yaml" := "\U{2699}\U{FE0F}",
    "toml" := "\U{2699}\U{FE0F}",
    "lock" := "\U{1F512}",
    "env" := "\U{1F510}",
    "sh" := "\U{1F4BB}",
    "sql" := "\U{1F5C4}\U{FE0F}"
  ]

  /** `getFileIcon`: the table's icon for the extension, the page icon for any other. */
  function FileIcon(name: string): (icon: string)
    ensures Extension(name) in Icons ==> icon == Icons[Extension(name)]
    ensures Extension(name) !in Icons ==> icon == DefaultIcon
    ensures icon != ""
  {
    var ext := Extension(name);
    if ext in Icons && Icons[ext] != "" then Icons[ext] else DefaultIcon
  }

  /** The icon depends on the text after the last dot alone, whatever its case and whatever
      comes before it. */
  lemma IconFollowsExtension(a: string, b: string)
    requires Lower(LastPart(a)) == Lower(LastPart(b))
    ensures FileIcon(a) == FileIcon(b)
  {
  }

  /** No extension in the table is longer than four letters. */
  lemma LongExtensionsGetPageIcon(name: string)
    requires |LastPart(name)| > 4
    ensures FileIcon(name) == DefaultIcon
  {
    assert forall k :: k in Icons ==> |k| <= 4;
    assert |Extension(name)| > 4;
  }

  /** A name without a dot is its own extension: `Makefile` gets the page icon. */
  lemma DotlessNameIsItsOwnExtension()
    ensures FileIcon("Makefile") == DefaultIcon
  {
    SplitLastAfterLast("Makefile", '.');
    assert '.' !in "Makefile";
    assert LastPart("Makefile") == "Makefile";
    LongExtensionsGetPageIcon("Makefile");
  }

  /** A leading dot still separates an extension: `.env` gets the `.env` icon. */
  lemma DotfileUsesTextAfterDot()
    ensures FileIcon(".env") == Icons["env"]
  {
    SplitLastAfterLast(".env", '.');
    assert LastPart(".env") == "env";
    assert Lower("env") == "env";
  }

  /** The icon in front of a node: an open or closed folder for a directory, by name for a file. */
  function NodeIcon(item: Item, expanded: bool): (icon: string)
    ensures item.kind == TreeRoute.Dir ==> icon == if expanded then "\U{1F4C2}" else "\U{1F4C1}"
    ensures item.kind == TreeRoute.File ==> icon == FileIcon(item.name)
  {
    if item.kind == TreeRoute.Dir then (if expanded then "\U{1F4C2}" else "\U{1F4C1}") else FileIcon(item.name)
  }
}
