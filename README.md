# Repoboard core, in Dafny

Repoboard is a dashboard that shows several of a user's GitHub repositories side by side,
each column with a file tree, a code viewer and a chat assistant that answers questions
about the repository. This project models the deterministic logic under that glue and
proves what it promises:

- the chat endpoint (`POST /api/chat`): the repository tree flattened to two levels, the
  choice of key files, the system prompt, the message list, the streamed answer and the
  order of its early returns (`chat_route.dfy`);
- the chat panel: the tokenizer that splits an answer on backtick spans and classifies them
  as file references or inline code, and the conversation state of `sendMessage` and Clear,
  with its loop that accumulates streamed chunks (`chat_panel.dfy`);
- the directory listing endpoint (`GET /api/tree`): validation order, wrapping a single
  object, projecting fields and the directories-first sort (`tree_route.dfy`);
- the file tree component: root load and its error text, fetch-at-most-once children,
  indentation, icons by extension (`file_tree.dfy`);
- the page's selection toggle and column close (`page.dfy`), the sidebar filter, checkboxes,
  colours and counts (`sidebar.dfy`), and the code viewer's rows and gutter
  (`code_preview.dfy`).

The JavaScript built-ins these use (`split` on one character, `join`, `includes`, `trim`,
`toLowerCase`, `String(n)`) are written out in `strings.dfy`; `sequences.dfy` defines
"in the same order" (a subsequence); `github.dfy` holds the contents-API URL.

GitHub, the model provider and the browser's `fetch` are not modelled as code: they are
parameters. A directory listing is a function from path to an optional list of entries, a
file's decoded content a function from path to an optional string, the model's stream a
sequence of optional deltas with a flag for a failure at its end, and each HTTP reply the
components see is a small datatype (`ChatPanel.Reply`, `FileTree.TreeReply`). The session is an
optional (token, username) pair.

The system prompt keeps the handler's text character for character, including the three
characters U+00E2 U+20AC U+201D that stand in it where an em dash was evidently meant (a
UTF-8 dash read back as Windows-1252).

Stateful code is modelled as state: `ChatPanel.Panel` holds `messages`, `input` and
`isLoading`; `FileTree.TreeNode` holds `expanded` and `children`; `FileTree.Root` holds
`items`, `loading` and `error`. A node's `children` are the corrected ones of the Findings
table below (`FileTree.ChildrenOf`), not the parsed body the component stores. The loops of the source (`fetchFileTree`'s entry loop, the
key-file loop, the stream-forwarding loop, the panel's chunk loop) are `while`/`for` loops
proved against specification functions, and the properties are proved about those functions.

## Model

| member | source | states |
|---|---|---|
| ChatRoute.FetchFileTree | app/api/chat/route.ts:14-46 | the paths it collects are `FileTree(listing, path)` and the listings it asks for are `Requests(listing, path)`, the functions the lemmas below are about |
| ChatRoute.EntriesTreeMembers | app/api/chat/route.ts:32-44 | a path is among those a list of entries contributes iff one entry contributes it |
| ChatRoute.FileTreeMembers | app/api/chat/route.ts:33-44 | a path is in the flattened tree iff it shows an entry of the root listing or of the listing of a directory found at the root: a file by its path unchanged, a directory by its path and `/`; other entry types never show |
| ChatRoute.NestedTreeMembers | app/api/chat/route.ts:38-42 | below the root a directory contributes exactly its own entries: nothing deeper is listed |
| ChatRoute.NestedEntriesRequestNothing | app/api/chat/route.ts:38-42 | entries listed below the root cause no further listing request |
| ChatRoute.RootEntriesRequests | app/api/chat/route.ts:32-44 | the requests the root's entries cause are the directories' paths, in listing order |
| ChatRoute.RequestsOnlyTwoLevels | app/api/chat/route.ts:38-42 | the listings requested are the root, then each top-level directory in listing order, and nothing else |
| ChatRoute.FailedEntriesActEmpty | app/api/chat/route.ts:28-30 | a list of entries contributes the same paths whether a failed listing fails or is an empty directory |
| ChatRoute.FailedListingActsEmpty | app/api/chat/route.ts:28-30 | a non-OK or non-array listing behaves exactly like an empty directory, so a failing subdirectory only loses its own children |
| ChatRoute.SelectKeyFiles | app/api/chat/route.ts:95-103 | the loop records exactly `KeyFileContents` and fetches exactly `KeyFileFetches` of the key-file names |
| ChatRoute.KeyFileIncluded | app/api/chat/route.ts:95-103 | a (name, content) pair is recorded iff the name is a key file, the tree lists that exact name, and its content is present, non-empty and strictly shorter than 10000 characters |
| ChatRoute.KeyFilesInOrder | app/api/chat/route.ts:95-103 | recorded and fetched names keep the order of the key-file list, and only names the tree lists are fetched |
| ChatRoute.KeyFileBlockPresence | app/api/chat/route.ts:105-110 | the prompt is the frame, `FILE TREE:` and the joined paths, then the key-file block, which starts with `KEY FILE CONTENTS:` and is absent iff no key file was recorded |
| ChatRoute.TreeLinesRecoverable | app/api/chat/route.ts:105-110 | when no path holds a newline, splitting the prompt's tree text on newlines gives the paths back |
| ChatRoute.ComposeMessages | app/api/chat/route.ts:112-119 | the message list is the system prompt, then the history in its order (empty when absent), then the user message last |
| ChatRoute.ForwardStream | app/api/chat/route.ts:129-143 | the chunks sent are `Forwarded(deltas)`, and the stream closes, or ends in the error state exactly when the upstream fails |
| ChatRoute.ForwardedInOrder | app/api/chat/route.ts:132-141 | only non-empty delta texts are forwarded, in arrival order |
| ChatRoute.ForwardedKeepsText | app/api/chat/route.ts:132-141 | dropping the empty deltas loses no text: the forwarded chunks concatenate to the whole completion |
| ChatRoute.Post | app/api/chat/route.ts:68-151 | no session: 401 before the body is read; an unreadable body: a server error; a missing or empty `repoName` or `message`: 400 before any GitHub call; otherwise the listings, then the key-file fetches, then one completion over the composed messages, whose stream is forwarded |
| ChatPanel.SpanLength | app/components/ChatPanel.tsx:20 | the length of the one prefix that matches `` `[^`]+` `` as a whole, or 0 when no prefix does |
| ChatPanel.SplitFromRoundTrip | app/components/ChatPanel.tsx:20 | concatenating the parts of the split reproduces the text exactly |
| ChatPanel.SplitFromAlternates | app/components/ChatPanel.tsx:20 | there is an odd number of parts and every odd-numbered part is a backtick span |
| ChatPanel.SplitFromLeavesNoSpan | app/components/ChatPanel.tsx:20 | no even-numbered part contains a stretch the pattern would match |
| ChatPanel.SplitSpansShape | app/components/ChatPanel.tsx:20 | the split of a whole message: round trip, text and spans alternating, no span left inside a text part |
| ChatPanel.HasExtension | app/components/ChatPanel.tsx:25 | true iff the text ends in a dot followed by one or more `[A-Za-z0-9_]` characters |
| ChatPanel.Classify | app/components/ChatPanel.tsx:22-51 | a part is plain text iff it does not both start and end with a backtick; otherwise its inner text (the part less its first and last character) is a file reference iff it ends in an extension or contains `/`, and inline code otherwise |
| ChatPanel.ParseMessageContent | app/components/ChatPanel.tsx:15-55 | one segment per part of the split, each the part's classification |
| ChatPanel.ClassifyKeepsPart | app/components/ChatPanel.tsx:22-23 | every part but a lone backtick is given back by its segment, backticks restored around code and references |
| ChatPanel.SpansAreNeverText | app/components/ChatPanel.tsx:20-23 | every span the split finds renders as code or as a file reference |
| ChatPanel.ParseRoundTrip | app/components/ChatPanel.tsx:20-53 | unless a part is a lone backtick, the rendered segments give the message text back |
| ChatPanel.LoneBacktickShowsAsEmptyCode | app/components/ChatPanel.tsx:22-23 | a lone backtick is not a span but starts and ends with a backtick, so it shows as empty inline code |
| ChatPanel.LoneSpanSplit | app/components/ChatPanel.tsx:20 | a message that is a single backtick span splits into that span between two empty texts |
| ChatPanel.FileLinkOpensInnerText | app/components/ChatPanel.tsx:22-30 | a message that is a single span whose inner text has an extension or a slash renders as a file reference opening that inner text, without the backticks, between two empty text parts |
| ChatPanel.SampleReferenceOpensFile | app/components/ChatPanel.tsx:22-30 | `` `a.ts` `` renders as a reference that opens `a.ts` |
| ChatPanel.ReplyAppendsOneAnswer | app/components/ChatPanel.tsx:95-124 | every reply that has a body or fails leaves the sent conversation followed by one assistant message: the chunks in order, `Error: ` and the body, or the fixed failure text |
| ChatPanel.Panel.constructor | app/components/ChatPanel.tsx:58-60 | no messages, an empty input, not loading |
| ChatPanel.Panel.EditInput | app/components/ChatPanel.tsx:207 | only the input changes |
| ChatPanel.Panel.Clear | app/components/ChatPanel.tsx:151 | the messages are emptied and nothing else changes |
| ChatPanel.Panel.Submit | app/components/ChatPanel.tsx:75-93 | a blank input or a send while loading changes nothing and sends nothing; otherwise the request carries the trimmed input and the history before it, the user message is appended, the input empties and loading starts |
| ChatPanel.Panel.Receive | app/components/ChatPanel.tsx:95-126 | the messages become `AfterReply` of the captured conversation (the streamed chunks accumulated in order by the loop), the input is untouched and loading ends on every path |
| ChatPanel.Panel.SendMessage | app/components/ChatPanel.tsx:74-128 | the whole exchange: nothing for a blank input or while loading, else the request, then the messages the reply leads to, an empty input and loading ended |
| ChatPanel.RouteSeesPanelConversation | app/components/ChatPanel.tsx:88-92 | a request for a named repository passes the route's validation, and the model sees the system prompt followed by exactly the panel's messages after the send |
| ChatPanel.StreamedCompletionShown | app/components/ChatPanel.tsx:109-118 | a completion the route streams to its end appears as one assistant message holding the whole completion text |
| TreeRoute.PrecedesTotal | app/api/tree/route.ts:33-36 | the comparator orders any two entries one way or the other |
| TreeRoute.PrecedesTransitive | app/api/tree/route.ts:33-36 | the comparator is transitive on file and directory entries |
| TreeRoute.InsertSorted | app/api/tree/route.ts:33-36 | inserting into a sorted list keeps it sorted |
| TreeRoute.SortEntries | app/api/tree/route.ts:33-36 | the result is a permutation of the input and sorted by the comparator |
| TreeRoute.Format | app/api/tree/route.ts:26-36 | same length and same multiset as the projected items, every directory before every file, each kind in ascending name order |
| TreeRoute.Get | app/api/tree/route.ts:4-39 | 401 without a session and 400 without `repo`, both before any upstream request; otherwise one request to the contents URL, a non-OK answer passed on with its status and text, an OK one formatted, and a request that throws (network failure or a body that is not JSON) left to the framework's 500 |
| TreeRoute.OmittedPathListsRoot | app/api/tree/route.ts:9-15 | a missing or empty `path` requests the root contents URL |
| TreeRoute.SingleItemWrapped | app/api/tree/route.ts:25 | a single object is answered as a one-element list of its projection |
| FileTree.LoadError | app/components/FileTree.tsx:142-151 | no error exactly for a list; the body's `error` when it is non-empty, `Failed to load` for another object, `Network error` when the fetch throws; never empty |
| FileTree.RouteErrorsShown | app/components/FileTree.tsx:142-150 | every non-listing answer of the tree route reaches the user as an error: the route's own text when it has one, `Failed to load` for an empty one, `Network error` for the framework's 500 |
| FileTree.Root.constructor | app/components/FileTree.tsx:132-134 | no items, loading, no error |
| FileTree.Root.Load | app/components/FileTree.tsx:136-153 | a list replaces the items; anything else keeps them and sets `LoadError`; loading ends |
| FileTree.ErrorObjectStoredAsChildren | app/components/FileTree.tsx:47 | a refused child listing is stored as a non-list, which the render cannot map over |
| FileTree.ChildrenOf | app/components/FileTree.tsx:40-51 | the listed entries when the fetch yields a list, no children otherwise |
| FileTree.ChildrenFromRoute | app/components/FileTree.tsx:47-50 | a served listing becomes the children exactly; a refused one gives no children |
| FileTree.Indent | app/components/FileTree.tsx:67 | the padding is 8 px plus 16 px per level, so the depth can be read back from it |
| FileTree.TreeNode.constructor | app/components/FileTree.tsx:31-32 | collapsed, children not fetched |
| FileTree.TreeNode.HandleClick | app/components/FileTree.tsx:38-57 | a file is selected and no state changes; a directory flips `expanded`, and its children are fetched iff it is being expanded and has none, so once in the node's life even after a failure; the fetched children are `ChildrenOf(reply)`, the corrected value of the Findings row |
| FileTree.TreeNode.Shown | app/components/FileTree.tsx:88-99 | while expanded, the children in order, each one level deeper (16 px more indent); nothing while collapsed |
| Strings.SplitLastAfterLast | app/components/FileTree.tsx:107 | the part `split(".").pop()` gives is the text after the last dot, or the whole name when it has none |
| FileTree.FileIcon | app/components/FileTree.tsx:106-129 | the table's icon for the lower-cased extension, the page icon for any other |
| FileTree.IconFollowsExtension | app/components/FileTree.tsx:107-128 | names whose last parts agree but for case get the same icon |
| FileTree.LongExtensionsGetPageIcon | app/components/FileTree.tsx:108-128 | an extension longer than four letters gets the page icon |
| FileTree.DotlessNameIsItsOwnExtension | app/components/FileTree.tsx:107-128 | `Makefile` gets the page icon |
| FileTree.DotfileUsesTextAfterDot | app/components/FileTree.tsx:107-128 | `.env` gets the `env` icon |
| FileTree.NodeIcon | app/components/FileTree.tsx:59 | an open or closed folder for a directory, the file icon for a file |
| Page.WithoutKeepsOthers | app/page.tsx:33 | filtering a name out removes every occurrence and keeps the other names in order |
| Page.ToggleFlips | app/page.tsx:31-35 | the toggled name's membership flips and no other name's changes; an absent name is appended at the end, a present one removed everywhere with the rest in order |
| Page.ToggleKeepsDistinct | app/page.tsx:33 | a selection without repeats stays without repeats |
| Page.ToggleTwiceRestores | app/page.tsx:31-35 | toggling an absent name twice gives the original selection back |
| Page.CloseColumn | app/page.tsx:67 | closing a column removes its name from the selection and keeps every other |
| Sidebar.FilteredKeepsMatches | app/components/Sidebar.tsx:35-37 | the filter keeps exactly the repositories whose lower-cased name contains the lower-cased search, in their order |
| Sidebar.EmptySearchShowsAll | app/components/Sidebar.tsx:35-37 | an empty search keeps every repository |
| Sidebar.SearchIgnoresCase | app/components/Sidebar.tsx:36 | the case of the search text does not matter |
| Sidebar.LanguageDot | app/components/Sidebar.tsx:115-119 | a dot only for a non-empty language, coloured from the table or with the secondary text colour for a language it lacks |
| Sidebar.Rows | app/components/Sidebar.tsx:99-107 | one row per shown repository, checked iff its name is selected |
| Sidebar.CheckboxToggles | app/components/Sidebar.tsx:106-107 | changing a row's checkbox flips that row and leaves every row of another name as it was |
| Sidebar.Render | app/components/Sidebar.tsx:39-137 | collapsed, the selected count; expanded, the rows (none while loading) and a footer with the count of all repositories, not of the shown ones, and the selected count |
| CodePreview.Rows | app/components/CodePreview.tsx:9-26 | one row more than there are newlines, numbered 1 to n, no row holding a newline |
| CodePreview.RowsRejoin | app/components/CodePreview.tsx:9 | joining the rows' lines with newlines gives the content back |
| CodePreview.Display | app/components/CodePreview.tsx:29 | an empty line shows as one space, any other as itself |
| CodePreview.GutterFitsLineNumbers | app/components/CodePreview.tsx:10-22 | the gutter is 24 px plus 8 px per decimal digit of the row count, that digit count being exact |
| Strings.Split | app/components/CodePreview.tsx:9 | at least one part and no part containing the separator |
| Strings.SplitCount | app/components/CodePreview.tsx:9 | one part more than there are separators |
| Strings.SplitThenJoin | app/components/CodePreview.tsx:9 | joining the parts with the separator gives the text back |
| Strings.Includes | app/components/Sidebar.tsx:36 | true iff the needle occurs at some position of the text |
| Strings.Trim | app/components/ChatPanel.tsx:75 | the text less its leading and trailing JavaScript whitespace, starting and ending with a non-whitespace character |
| Strings.TrimBlank | app/components/ChatPanel.tsx:75-76 | trimming gives the empty string iff the text is all whitespace |
| Strings.NatToStringLength | app/components/CodePreview.tsx:10 | a positive number's decimal text has d digits with `10^(d-1) <= n < 10^d` |

## Left out

- Authentication (`auth.ts`, `lib/github.ts`): the session is an optional (token, username) input.
- The file and repository-list endpoints and the command endpoint with its bar, the repository column and the layout: pass-through fetches and markup.
- Base64 decoding of file contents and `TextDecoder`: contents and stream chunks are already-decoded strings.
- The model client, `ReadableStream` transport, cancellation, HTTP headers and response caching.
- Network failures inside the chat route's GitHub calls: the route does not catch them and the framework would answer 500; listings and contents are oracles that always answer. (The tree route's single request is modelled with its throwing case, `TreeRoute.Upstream.Thrown`.)
- TreeRoute.NameLe: `localeCompare` is modelled as ordinal lexicographic order on characters, not a locale's collation.
- Strings.Lower: ASCII letters only; Unicode case mapping is not modelled.
- String lengths are counted in characters, not in the UTF-16 code units JavaScript counts, so the 10000 cap differs for text outside the Basic Multilingual Plane.
- TreeRoute.Format: entry types other than file and directory are not modelled, because the comparator is inconsistent for two different such types; the sort is not claimed stable.
- Inherited object keys (such as `constructor`) in the icon and colour tables are not modelled.
- FileTree.TreeNode.HandleClick: the node stores `ChildrenOf(reply)`, the corrected children of the Findings row; the component as written stores the parsed body, `ChildrenAsWritten(reply)`, which for an error object makes the expanded node's render fail (`FileTree.ErrorObjectStoredAsChildren`).
- FileTree.TreeNode.HandleClick: a second click while the first fetch is still pending (which would fetch twice) is not modelled, because each click is one atomic step; the node's `loading` flag is therefore left out.
- ChatPanel.Panel.Receive: the reply is one value, so an interleaving of other user actions with the streamed updates is modelled only through the captured conversation `sent`.
- The history the panel sends is trusted as typed; the route casts it without checking roles.
- JSX markup, styles, scrolling, focus, the "Thinking..." placeholder and the loading spinners.

## Findings

| source | as written | input that shows it | evidently intended | confidence | as-written member | corrected member |
|---|---|---|---|---|---|---|
| app/components/FileTree.tsx:47 | the parsed body of a child listing is stored as `children` whatever it is, and only `null` is guarded before `children.map` at lines 88-90 | expanding a directory after the session has expired: the tree route answers 401 with `{"error":"Not authenticated"}`, which is stored and then cannot be mapped | children are always a list of entries (their declared type), empty when the listing fails, as the catch branch already does | not executed | FileTree.ErrorObjectStoredAsChildren | FileTree.ChildrenOf |
