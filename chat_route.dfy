/** The chat endpoint (`POST /api/chat`): it flattens the repository's tree one level below
    the root, picks a few well-known files as context, composes the system prompt and the
    message list, and forwards the model's streamed text. GitHub and the model are oracles:
    a listing per path, a decoded content per path, and a chunk sequence per message list. */
module ChatRoute {
  import opened Wrappers
  import opened Strings
  import opened Sequences
  import opened GitHub

  // ----- The repository tree -----

  /** GitHub never lists an entry with an empty path. */
  type RepoPath = p: string | p != "" witness "."

  /** The `type` of a contents-API entry; symlinks and submodules are `Other`. */
  datatype EntryType = File | Dir | Other

  datatype Entry = Entry(kind: EntryType, path: RepoPath)

  /** The repository a request reads: the signed-in user as owner, the repository name and
      the token sent as bearer credential. */
  datatype RepoRef = RepoRef(owner: string, repo: string, token: string)

  /** The contents API of one repository: the JSON array listed at a path ("" is the root),
      or None when the response is not OK or its body is not an array. */
  type Listing = string -> Option<seq<Entry>>

  /** `fetchFileTree` recurses only from the root; below it the level is 0. */
  function Level(path: string): nat
  {
    if path == "" then 1 else 0
  }

  /** The paths `fetchFileTree` returns for `path`: a failed listing gives nothing. */
  function FileTree(listing: Listing, path: string): seq<string>
    decreases Level(path), 1, 0
  {
    match listing(path)
    case None => []
    case Some(entries) => EntriesTree(listing, path, entries)
  }

  function EntriesTree(listing: Listing, path: string, entries: seq<Entry>): seq<string>
    decreases Level(path), 0, |entries|
  {
    if entries == [] then []
    else EntriesTree(listing, path, entries[..|entries| - 1]) + EntryTree(listing, path, entries[|entries| - 1])
  }

  /** One entry's contribution: a file its path, a directory its path with a trailing `/`
      followed, at the root only, by its own tree; anything else nothing. */
  function EntryTree(listing: Listing, path: string, e: Entry): seq<string>
    decreases Level(path), 0, 0
  {
    match e.kind
    case File => [e.path]
    case Dir => [e.path + "/"] + (if path == "" then FileTree(listing, e.path) else [])
    case Other => []
  }

  /** The paths whose listing `fetchFileTree` requests, in request order. */
  function Requests(listing: Listing, path: string): seq<string>
    decreases Level(path), 1, 0
  {
    [path] + match listing(path)
             case None => []
             case Some(entries) => EntriesRequests(listing, path, entries)
  }

  function EntriesRequests(listing: Listing, path: string, entries: seq<Entry>): seq<string>
    decreases Level(path), 0, |entries|
  {
    if entries == [] then []
    else EntriesRequests(listing, path, entries[..|entries| - 1]) + EntryRequests(listing, path, entries[|entries| - 1])
  }

  function EntryRequests(listing: Listing, path: string, e: Entry): seq<string>
    decreases Level(path), 0, 0
  {
    if e.kind == Dir && path == "" then Requests(listing, e.path) else []
  }

  lemma EntriesStep(listing: Listing, path: string, entries: seq<Entry>, i: nat)
    requires i < |entries|
    ensures EntriesTree(listing, path, entries[..i + 1]) == EntriesTree(listing, path, entries[..i]) + EntryTree(listing, path, entries[i])
    ensures [path] + EntriesRequests(listing, path, entries[..i + 1])
         == [path] + EntriesRequests(listing, path, entries[..i]) + EntryRequests(listing, path, entries[i])
  {
    assert entries[..i + 1][..i] == entries[..i];
  }

  /** `fetchFileTree(username, repo, token, path)`: one listing request, then a walk over
      the entries that pushes paths and, from the root only, recurses into directories. */
  method FetchFileTree(listing: Listing, path: string) returns (paths: seq<string>, requested: seq<string>)
    ensures paths == FileTree(listing, path)
    ensures requested == Requests(listing, path)
    decreases Level(path)
  {
    requested := [path];
    var data := listing(path);
    if data.None? {
      return [], requested;
    }
    var entries := data.value;
    paths := [];
    var i := 0;
    while i < |entries|
      invariant 0 <= i <= |entries|
      invariant paths == EntriesTree(listing, path, entries[..i])
      invariant requested == [path] + EntriesRequests(listing, path, entries[..i])
    {
      var item := entries[i];
      var shown: seq<string> := [];
      var listed: seq<string> := [];
      if item.kind == File {
        shown := [item.path];
      } else if item.kind == Dir {
        shown := [item.path + "/"];
        if path == "" {
          var children, childRequests := FetchFileTree(listing, item.path);
          shown := shown + children;
          listed := childRequests;
        }
      }
      assert shown == EntryTree(listing, path, item);
      assert listed == EntryRequests(listing, path, item);
      EntriesStep(listing, path, entries, i);
      paths := paths + shown;
      requested := requested + listed;
      i := i + 1;
    }
    assert entries[..i] == entries;
  }

  /** How a listed entry shows in the flattened tree. */
  ghost predicate ShownAs(e: Entry, p: string)
  {
    (e.kind == File && p == e.path) || (e.kind == Dir && p == e.path + "/")
  }

  /** `p` shows an entry of the listing at `dir`, without looking any deeper. */
  ghost predicate ListedAt(listing: Listing, dir: string, p: string)
  {
    listing(dir).Some? && exists e :: e in listing(dir).value && ShownAs(e, p)
  }

  /** `p` shows an entry of the root or of a directory listed at the root. */
  ghost predicate InRepoTree(listing: Listing, p: string)
  {
    || ListedAt(listing, "", p)
    || (listing("").Some? && exists d :: d in listing("").value && d.kind == Dir && ListedAt(listing, d.path, p))
  }

  lemma {:induction false} EntriesTreeMembers(listing: Listing, path: string, entries: seq<Entry>, p: string)
    ensures p in EntriesTree(listing, path, entries) <==> exists e :: e in entries && p in EntryTree(listing, path, e)
    decreases |entries|
  {
    if entries != [] {
      var init, last := entries[..|entries| - 1], entries[|entries| - 1];
      EntriesTreeMembers(listing, path, init, p);
      assert entries == init + [last];
      if p in EntriesTree(listing, path, entries) {
        if p !in EntriesTree(listing, path, init) {
          assert p in EntryTree(listing, path, last);
          assert last in entries;
        }
      } else {
        forall e | e in entries ensures p !in EntryTree(listing, path, e) {
          if e != last { assert e in init; }
        }
      }
    }
  }

  /** Below the root nothing is expanded: a directory's tree shows exactly its own entries. */
  lemma NestedTreeMembers(listing: Listing, dir: RepoPath, p: string)
    ensures p in FileTree(listing, dir) <==> ListedAt(listing, dir, p)
  {
    if listing(dir).Some? {
      var entries := listing(dir).value;
      EntriesTreeMembers(listing, dir, entries, p);
      assert forall e :: p in EntryTree(listing, dir, e) <==> ShownAs(e, p);
    }
  }

  /** The flattened tree holds exactly the root's entries and the entries of each directory
      listed at the root: never anything two levels down, and a directory whose listing failed
      contributes its own `dir/` line and nothing else. */
  lemma FileTreeMembers(listing: Listing, p: string)
    ensures p in FileTree(listing, "") <==> InRepoTree(listing, p)
  {
    if listing("").Some? {
      var entries := listing("").value;
      EntriesTreeMembers(listing, "", entries, p);
      forall e | e in entries
        ensures p in EntryTree(listing, "", e) <==> ShownAs(e, p) || (e.kind == Dir && ListedAt(listing, e.path, p))
      {
        if e.kind == Dir {
          NestedTreeMembers(listing, e.path, p);
        }
      }
    }
  }

  /** Requests of the entries of one directory below the root: none at all. */
  lemma {:induction false} NestedEntriesRequestNothing(listing: Listing, path: string, entries: seq<Entry>)
    requires path != ""
    ensures EntriesRequests(listing, path, entries) == []
    decreases |entries|
  {
    if entries != [] {
      NestedEntriesRequestNothing(listing, path, entries[..|entries| - 1]);
    }
  }

  /** The directories among `entries`, in order. */
  function DirPaths(entries: seq<Entry>): seq<string>
  {
    if entries == [] then []
    else DirPaths(entries[..|entries| - 1]) + (if entries[|entries| - 1].kind == Dir then [entries[|entries| - 1].path] else [])
  }

  lemma {:induction false} RootEntriesRequests(listing: Listing, entries: seq<Entry>)
    ensures EntriesRequests(listing, "", entries) == DirPaths(entries)
    decreases |entries|
  {
    if entries != [] {
      RootEntriesRequests(listing, entries[..|entries| - 1]);
      var last := entries[|entries| - 1];
      if last.kind == Dir {
        assert listing(last.path).Some? ==> EntriesRequests(listing, last.path, listing(last.path).value) == [] by {
          if listing(last.path).Some? {
            NestedEntriesRequestNothing(listing, last.path, listing(last.path).value);
          }
        }
      }
    }
  }

  /** Listings are requested for the root and then, once each and in listing order, for the
      directories listed at the root; nothing deeper is ever requested. */
  lemma RequestsOnlyTwoLevels(listing: Listing)
    ensures Requests(listing, "") == [""] + (if listing("").Some? then DirPaths(listing("").value) else [])
  {
    if listing("").Some? {
      RootEntriesRequests(listing, listing("").value);
    }
  }

  /** The listing with `dir`'s failure replaced by an empty directory. */
  function WithEmptyDir(listing: Listing, dir: string): Listing
  {
    p => if p == dir then Some([]) else listing(p)
  }

  lemma {:induction false} FailedEntriesActEmpty(listing: Listing, dir: string, path: string, entries: seq<Entry>)
    requires listing(dir) == None
    ensures EntriesTree(listing, path, entries) == EntriesTree(WithEmptyDir(listing, dir), path, entries)
    decreases Level(path), 0, |entries|
  {
    if entries != [] {
      FailedEntriesActEmpty(listing, dir, path, entries[..|entries| - 1]);
      var e := entries[|entries| - 1];
      if e.kind == Dir && path == "" {
        FailedListingActsEmpty(listing, dir, e.path);
      }
    }
  }

  /** Soft failure: a listing that fails (non-OK, or not an array) yields exactly what an
      empty directory would, so the rest of the tree is unaffected. */
  lemma {:induction false} FailedListingActsEmpty(listing: Listing, dir: string, path: string)
    requires listing(dir) == None
    ensures FileTree(listing, path) == FileTree(WithEmptyDir(listing, dir), path)
    decreases Level(path), 1, 0
  {
    if path != dir && listing(path).Some? {
      FailedEntriesActEmpty(listing, dir, path, listing(path).value);
    }
  }

  // ----- Key files -----

  /** The manifests and readmes offered to the model, in this order. */
  const KeyFiles: seq<string> := ["package.json", "README.md", "readme.md", "Cargo.toml", "go.mod", "pyproject.toml", "requirements.txt"]

  /** Key-file contents of this many characters or more are dropped, not truncated. */
  const MaxKeyFileLength := 10000

  /** `content && content.length < 10000`: fetched, non-empty and below the cap. */
  predicate Usable(content: Option<string>)
  {
    content.Some? && content.value != "" && |content.value| < MaxKeyFileLength
  }

  /** The (name, content) pairs the key-file loop records, in `names` order: a name is
      fetched only when the tree lists it exactly, and kept only when usable. */
  function KeyFileContents(names: seq<string>, tree: seq<string>, content: string -> Option<string>): seq<(string, string)>
  {
    if names == [] then []
    else
      var kf := names[|names| - 1];
      KeyFileContents(names[..|names| - 1], tree, content)
      + (if kf in tree && Usable(content(kf)) then [(kf, content(kf).value)] else [])
  }

  /** The names whose content the loop fetches: the ones the tree lists, in `names` order. */
  function KeyFileFetches(names: seq<string>, tree: seq<string>): seq<string>
  {
    if names == [] then []
    else KeyFileFetches(names[..|names| - 1], tree) + (if names[|names| - 1] in tree then [names[|names| - 1]] else [])
  }

  /** The loop over `KEY_FILES` that fills `keyFileContents`. */
  method SelectKeyFiles(tree: seq<string>, content: string -> Option<string>)
    returns (contents: seq<(string, string)>, fetched: seq<string>)
    ensures contents == KeyFileContents(KeyFiles, tree, content)
    ensures fetched == KeyFileFetches(KeyFiles, tree)
  {
    contents, fetched := [], [];
    for i := 0 to |KeyFiles|
      invariant contents == KeyFileContents(KeyFiles[..i], tree, content)
      invariant fetched == KeyFileFetches(KeyFiles[..i], tree)
    {
      var kf := KeyFiles[i];
      assert KeyFiles[..i + 1][..i] == KeyFiles[..i];
      if kf in tree {
        var c := content(kf);
        fetched := fetched + [kf];
        if c.Some? && c.value != "" && |c.value| < MaxKeyFileLength {
          contents := contents + [(kf, c.value)];
        }
      }
    }
    assert KeyFiles[..|KeyFiles|] == KeyFiles;
  }

  /** A key file is in the prompt exactly when it is one of the names, the tree lists that
      exact name, and its content is non-empty and strictly shorter than 10000 characters. */
  lemma {:induction false} KeyFileIncluded(names: seq<string>, tree: seq<string>, content: string -> Option<string>, kf: string, c: string)
    ensures (kf, c) in KeyFileContents(names, tree, content)
            <==> kf in names && kf in tree && content(kf) == Some(c) && c != "" && |c| < MaxKeyFileLength
  {
    if names != [] {
      var init := names[..|names| - 1];
      KeyFileIncluded(init, tree, content, kf, c);
      assert names == init + [names[|names| - 1]];
    }
  }

  function KeyNames(contents: seq<(string, string)>): seq<string>
  {
    if contents == [] then [] else KeyNames(contents[..|contents| - 1]) + [contents[|contents| - 1].0]
  }

  /** Included files keep the order of the key-file list, and only listed names are fetched. */
  lemma {:induction false} KeyFilesInOrder(names: seq<string>, tree: seq<string>, content: string -> Option<string>)
    ensures Subsequence(KeyNames(KeyFileContents(names, tree, content)), names)
    ensures Subsequence(KeyFileFetches(names, tree), names)
    ensures forall kf :: kf in KeyFileFetches(names, tree) ==> kf in tree
  {
    if names != [] {
      var init, kf := names[..|names| - 1], names[|names| - 1];
      KeyFilesInOrder(init, tree, content);
      assert names == init + [kf];
      var before := KeyFileContents(init, tree, content);
      if kf in tree && Usable(content(kf)) {
        var after := before + [(kf, content(kf).value)];
        assert KeyFileContents(names, tree, content) == after;
        assert after[..|after| - 1] == before;
        assert KeyNames(after) == KeyNames(before) + [kf];
        SubsequenceSnocBoth(KeyNames(before), init, kf);
      } else {
        assert KeyFileContents(names, tree, content) == before;
        SubsequenceSnocRight(KeyNames(before), init, kf);
      }
      if kf in tree {
        assert KeyFileFetches(names, tree) == KeyFileFetches(init, tree) + [kf];
        SubsequenceSnocBoth(KeyFileFetches(init, tree), init, kf);
      } else {
        assert KeyFileFetches(names, tree) == KeyFileFetches(init, tree);
        SubsequenceSnocRight(KeyFileFetches(init, tree), init, kf);
      }
    }
  }

  // ----- System prompt and message list -----

  /** The instruction text before and after the repository's name. The characters between
      "Be concise" and "1-2" are the ones the handler's source holds: U+00E2 U+20AC U+201D, an
      em dash stored in UTF-8 and read back as Windows-1252. */
  const FrameStart := "You are a code assistant for the GitHub repo '"
  const FrameRest := "'. Given the file tree below, help the user understand the codebase. "
    + "When referencing files, always include the full path wrapped in backticks like `path/to/file.ts`. "
    + "Be concise \U{00E2}\U{20AC}\U{201D} 1-2 sentence explanations per file. Be conversational but brief."

  /** The instruction frame naming the repository. */
  function Frame(repoName: string): string
  {
    FrameStart + repoName + FrameRest
  }

  function Section(entry: (string, string)): string
  {
    "--- " + entry.0 + " ---\n" + entry.1
  }

  function Sections(contents: seq<(string, string)>): (r: seq<string>)
    ensures |r| == |contents|
  {
    seq(|contents|, i requires 0 <= i < |contents| => Section(contents[i]))
  }

  /** The `KEY FILE CONTENTS:` block, present only when some key file was kept. */
  function KeyFileBlock(contents: seq<(string, string)>): string
  {
    if |contents| > 0 then "KEY FILE CONTENTS:\n" + Join(Sections(contents), "\n\n") else ""
  }

  /** The prompt up to the key-file block: the frame, then the tree one path per line. */
  function PromptHead(repoName: string, tree: seq<string>): string
  {
    Frame(repoName) + "\n\nFILE TREE:\n" + Join(tree, "\n") + "\n\n"
  }

  /** The system prompt: the frame, the tree one path per line, then the key-file block. */
  function SystemPrompt(repoName: string, tree: seq<string>, contents: seq<(string, string)>): string
  {
    PromptHead(repoName, tree) + KeyFileBlock(contents)
  }

  /** The prompt ends with the key-file block exactly when some key file was kept, and the
      block opens with its heading. */
  lemma KeyFileBlockPresence(repoName: string, tree: seq<string>, contents: seq<(string, string)>)
    ensures contents == [] <==> SystemPrompt(repoName, tree, contents) == PromptHead(repoName, tree)
    ensures contents != [] ==> |KeyFileBlock(contents)| >= 19 && KeyFileBlock(contents)[..19] == "KEY FILE CONTENTS:\n"
  {
    BlockAfter(PromptHead(repoName, tree), contents);
  }

  lemma BlockAfter(head: string, contents: seq<(string, string)>)
    ensures contents == [] <==> head + KeyFileBlock(contents) == head
    ensures contents != [] ==> |KeyFileBlock(contents)| >= 19 && KeyFileBlock(contents)[..19] == "KEY FILE CONTENTS:\n"
  {
    var block := KeyFileBlock(contents);
    if contents != [] {
      var heading := "KEY FILE CONTENTS:\n";
      assert |heading| == 19;
      assert block == heading + Join(Sections(contents), "\n\n");
      assert block[..19] == heading;
      assert |head + block| > |head|;
    } else {
      assert block == "";
      assert head + block == head;
    }
  }

  /** Reading the tree lines back from the prompt gives the tree, as long as no path holds a
      line break. */
  lemma TreeLinesRecoverable(tree: seq<string>)
    requires tree != []
    requires forall p :: p in tree ==> '\n' !in p
    ensures Split(Join(tree, "\n"), '\n') == tree
  {
    JoinThenSplit(tree, '\n');
  }

  datatype Role = System | User | Assistant

  /** A chat message; the history the client sends is cast, not checked, so any role may
      arrive in it. */
  datatype ChatMessage = ChatMessage(role: Role, content: string)

  /** `[system prompt, ...(history || []), user message]`. */
  function ComposeMessages(prompt: string, history: Option<seq<ChatMessage>>, message: string): (r: seq<ChatMessage>)
    ensures var h := if history.Some? then history.value else [];
            && |r| == |h| + 2
            && r[0] == ChatMessage(System, prompt)
            && r[1..|r| - 1] == h
            && r[|r| - 1] == ChatMessage(User, message)
  {
    var h := if history.Some? then history.value else [];
    [ChatMessage(System, prompt)] + h + [ChatMessage(User, message)]
  }

  // ----- Streaming -----

  /** The completion stream: each chunk's `choices[0]?.delta?.content` (None when absent),
      and whether iterating throws after those chunks. */
  datatype Upstream = Upstream(deltas: seq<Option<string>>, fails: bool)

  datatype StreamEnd = Closed | Errored

  /** A delta's text, empty when absent. */
  function Text(delta: Option<string>): string
  {
    if delta.Some? then delta.value else ""
  }

  function Texts(deltas: seq<Option<string>>): (r: seq<string>)
    ensures |r| == |deltas|
  {
    seq(|deltas|, i requires 0 <= i < |deltas| => Text(deltas[i]))
  }

  /** The chunks the stream enqueues: each truthy delta, in arrival order. */
  function Forwarded(deltas: seq<Option<string>>): seq<string>
  {
    if deltas == [] then []
    else Forwarded(deltas[..|deltas| - 1]) + (if Text(deltas[|deltas| - 1]) != "" then [Text(deltas[|deltas| - 1])] else [])
  }

  /** The `start(controller)` loop: enqueue each non-empty delta, then close, or signal an
      error if iteration throws. */
  method ForwardStream(up: Upstream) returns (sent: seq<string>, end: StreamEnd)
    ensures sent == Forwarded(up.deltas)
    ensures end == (if up.fails then Errored else Closed)
  {
    sent := [];
    var i := 0;
    while i < |up.deltas|
      invariant 0 <= i <= |up.deltas|
      invariant sent == Forwarded(up.deltas[..i])
    {
      var content := up.deltas[i];
      assert up.deltas[..i + 1][..i] == up.deltas[..i];
      if content.Some? && content.value != "" {
        sent := sent + [content.value];
      }
      i := i + 1;
    }
    assert up.deltas[..i] == up.deltas;
    end := if up.fails then Errored else Closed;
  }

  lemma {:induction false} TextsSnoc(deltas: seq<Option<string>>)
    requires deltas != []
    ensures Texts(deltas) == Texts(deltas[..|deltas| - 1]) + [Text(deltas[|deltas| - 1])]
  {
  }

  /** Every chunk sent is non-empty, and the chunks keep arrival order. */
  lemma {:induction false} ForwardedInOrder(deltas: seq<Option<string>>)
    ensures forall t :: t in Forwarded(deltas) ==> t != ""
    ensures Subsequence(Forwarded(deltas), Texts(deltas))
  {
    if deltas != [] {
      var init, t := deltas[..|deltas| - 1], Text(deltas[|deltas| - 1]);
      ForwardedInOrder(init);
      TextsSnoc(deltas);
      if t != "" {
        assert Forwarded(deltas) == Forwarded(init) + [t];
        SubsequenceSnocBoth(Forwarded(init), Texts(init), t);
      } else {
        assert Forwarded(deltas) == Forwarded(init);
        SubsequenceSnocRight(Forwarded(init), Texts(init), t);
      }
    }
  }

  /** Forwarding drops only empty deltas: the chunks sent carry the whole text of the stream. */
  lemma {:induction false} ForwardedKeepsText(deltas: seq<Option<string>>)
    ensures Concat(Forwarded(deltas)) == Concat(Texts(deltas))
  {
    if deltas != [] {
      var init, t := deltas[..|deltas| - 1], Text(deltas[|deltas| - 1]);
      ForwardedKeepsText(init);
      TextsSnoc(deltas);
      ConcatSnoc(Texts(init), t);
      if t != "" {
        assert Forwarded(deltas) == Forwarded(init) + [t];
        ConcatSnoc(Forwarded(init), t);
      } else {
        assert Forwarded(deltas) == Forwarded(init);
        assert Concat(Texts(init)) + t == Concat(Texts(init));
      }
    }
  }

  // ----- The handler -----

  /** The request body after `req.json()`; None when it does not parse to an object. */
  datatype ChatBody = ChatBody(repoName: Option<string>, message: Option<string>, history: Option<seq<ChatMessage>>)

  datatype ChatResponse =
    | Unauthorized          // 401 {"error":"Not authenticated"}
    | BadRequest            // 400 {"error":"repoName and message required"}
    | ServerError           // an uncaught exception: the framework answers 500
    | Streamed(chunks: seq<string>, end: StreamEnd)

  /** What the handler does that leaves it, in order. */
  datatype Call = ReadBody | ListContents(path: string) | GetFile(path: string) | Complete(messages: seq<ChatMessage>)

  function ListCalls(paths: seq<string>): (r: seq<Call>)
    ensures |r| == |paths|
  {
    seq(|paths|, i requires 0 <= i < |paths| => ListContents(paths[i]))
  }

  function FileCalls(paths: seq<string>): (r: seq<Call>)
    ensures |r| == |paths|
  {
    seq(|paths|, i requires 0 <= i < |paths| => GetFile(paths[i]))
  }

  /** `POST`: authenticate, read and validate the body, gather the tree and key files, build
      the messages, open the completion stream and forward it. */
  method Post(auth: Option<GitHubAuth>, body: Option<ChatBody>, listingOf: RepoRef -> Listing,
              contentOf: RepoRef -> string -> Option<string>, complete: seq<ChatMessage> -> Option<Upstream>)
    returns (response: ChatResponse, calls: seq<Call>)
    ensures auth.None? ==> response == Unauthorized && calls == []
    ensures auth.Some? && body.None? ==> response == ServerError && calls == [ReadBody]
    ensures auth.Some? && body.Some? && !(Truthy(body.value.repoName) && Truthy(body.value.message))
            ==> response == BadRequest && calls == [ReadBody]
    ensures auth.Some? && body.Some? && Truthy(body.value.repoName) && Truthy(body.value.message) ==>
              var at := RepoRef(auth.value.username, body.value.repoName.value, auth.value.token);
              var tree := FileTree(listingOf(at), "");
              var prompt := SystemPrompt(at.repo, tree, KeyFileContents(KeyFiles, tree, contentOf(at)));
              var messages := ComposeMessages(prompt, body.value.history, body.value.message.value);
              && calls == [ReadBody] + ListCalls(Requests(listingOf(at), ""))
                          + FileCalls(KeyFileFetches(KeyFiles, tree)) + [Complete(messages)]
              && response == match complete(messages)
                             case None => ServerError
                             case Some(up) => Streamed(Forwarded(up.deltas), if up.fails then Errored else Closed)
  {
    if auth.None? {
      return Unauthorized, [];
    }
    calls := [ReadBody];
    if body.None? {
      return ServerError, calls;
    }
    var req := body.value;
    if !(req.repoName.Some? && req.repoName.value != "" && req.message.Some? && req.message.value != "") {
      return BadRequest, calls;
    }
    var at := RepoRef(auth.value.username, req.repoName.value, auth.value.token);
    var tree, requested := FetchFileTree(listingOf(at), "");
    calls := calls + ListCalls(requested);
    var contents, fetched := SelectKeyFiles(tree, contentOf(at));
    calls := calls + FileCalls(fetched);
    var prompt := SystemPrompt(at.repo, tree, contents);
    var messages := ComposeMessages(prompt, req.history, req.message.value);
    calls := calls + [Complete(messages)];
    var stream := complete(messages);
    if stream.None? {
      return ServerError, calls;
    }
    var sent, end := ForwardStream(stream.value);
    response := Streamed(sent, end);
  }
}
