/** The directory-listing endpoint (`GET /api/tree?repo=&path=`): after the session and
    parameter checks it asks the contents API for one directory, keeps four fields of each
    item and sorts directories first, then by name. */
module TreeRoute {
  import opened Wrappers
  import opened GitHub
  import opened Strings

  /** The item types this endpoint is modelled for; the comparator treats every type other
      than `dir` alike, so two different non-directory types would compare inconsistently. */
  datatype ItemType = File | Dir

  /** A contents-API item; `sha` and `downloadUrl` stand for the fields the route drops. */
  datatype RawItem = RawItem(name: string, path: string, kind: ItemType, size: int, sha: string, downloadUrl: Option<string>)

  /** What the endpoint returns per item. */
  datatype Entry = Entry(name: string, path: string, kind: ItemType, size: int)

  /** A parsed OK body: an array for a directory, a single object for a file. */
  datatype Body = Many(items: seq<RawItem>) | One(item: RawItem)

  /** The upstream answer to one request; `NotOk` carries the status and the body text.
      `Thrown` is a request that does not end in a usable answer: `fetch` throws, or an OK
      body does not parse as JSON. */
  datatype Upstream = NotOk(status: int, text: string) | Ok(body: Body) | Thrown

  datatype TreeResponse =
    | Unauthorized                  // 401 {"error":"Not authenticated"}
    | BadRequest                    // 400 {"error":"repo param required"}
    | Failed(status: int, error: string)
    | Entries(entries: seq<Entry>)
    | ServerError                   // an uncaught exception: the framework answers 500

  /** The response and the upstream URLs requested on the way. */
  datatype Handled = Handled(response: TreeResponse, requested: seq<string>)

  function Project(item: RawItem): Entry
  {
    Entry(item.name, item.path, item.kind, item.size)
  }

  function Projected(items: seq<RawItem>): (r: seq<Entry>)
    ensures |r| == |items|
  {
    seq(|items|, i requires 0 <= i < |items| => Project(items[i]))
  }

  /** `Array.isArray(data) ? data : [data]`. */
  function Items(body: Body): seq<RawItem>
  {
    match body
    case Many(items) => items
    case One(item) => [item]
  }

  // ----- Order -----

  /** The name order, ordinal and lexicographic: `localeCompare(a, b) <= 0` in this model. */
  predicate NameLe(a: string, b: string)
  {
    a == [] || (b != [] && (a[0] < b[0] || (a[0] == b[0] && NameLe(a[1..], b[1..]))))
  }

  lemma {:induction false} NameLeTotal(a: string, b: string)
    ensures NameLe(a, b) || NameLe(b, a)
  {
    if a != [] && b != [] && a[0] == b[0] {
      NameLeTotal(a[1..], b[1..]);
    }
  }

  lemma {:induction false} NameLeTransitive(a: string, b: string, c: string)
    requires NameLe(a, b) && NameLe(b, c)
    ensures NameLe(a, c)
  {
    if a != [] && b != [] && c != [] && a[0] == b[0] && b[0] == c[0] {
      NameLeTransitive(a[1..], b[1..], c[1..]);
    }
  }

  /** The comparator returns at most 0: same type by name, otherwise the directory first. */
  predicate Precedes(a: Entry, b: Entry)
  {
    if a.kind == b.kind then NameLe(a.name, b.name) else a.kind == Dir
  }

  lemma PrecedesTotal(a: Entry, b: Entry)
    ensures Precedes(a, b) || Precedes(b, a)
  {
    NameLeTotal(a.name, b.name);
  }

  lemma PrecedesTransitive(a: Entry, b: Entry, c: Entry)
    requires Precedes(a, b) && Precedes(b, c)
    ensures Precedes(a, c)
  {
    if a.kind == b.kind == c.kind {
      NameLeTransitive(a.name, b.name, c.name);
    }
  }

  ghost predicate Sorted(s: seq<Entry>)
  {
    forall i, j :: 0 <= i < j < |s| ==> Precedes(s[i], s[j])
  }

  /** Insert `e` before the first element it precedes; equal elements keep their order. */
  function Insert(e: Entry, s: seq<Entry>): (r: seq<Entry>)
    ensures multiset(r) == multiset(s) + multiset{e}
  {
    if s == [] || Precedes(e, s[0]) then [e] + s
    else
      assert s == [s[0]] + s[1..];
      [s[0]] + Insert(e, s[1..])
  }

  /** An element that precedes every element of a sorted list can be put in front of it. */
  lemma PrependSorted(x: Entry, s: seq<Entry>)
    requires Sorted(s)
    requires forall j :: 0 <= j < |s| ==> Precedes(x, s[j])
    ensures Sorted([x] + s)
  {
    var r := [x] + s;
    forall i, j | 0 <= i < j < |r| ensures Precedes(r[i], r[j]) {
      assert r[j] == s[j - 1];
      if i > 0 { assert r[i] == s[i - 1]; }
    }
  }

  /** Inserting into the tail of a sorted list keeps its head in front of every element. */
  lemma HeadPrecedesInsert(e: Entry, s: seq<Entry>, rest: seq<Entry>)
    requires Sorted(s) && s != [] && Precedes(s[0], e)
    requires multiset(rest) == multiset(s[1..]) + multiset{e}
    ensures forall j :: 0 <= j < |rest| ==> Precedes(s[0], rest[j])
  {
    forall j | 0 <= j < |rest| ensures Precedes(s[0], rest[j]) {
      assert rest[j] in multiset(rest);
      if rest[j] != e {
        assert rest[j] in multiset(s[1..]);
        var k :| 0 <= k < |s[1..]| && s[1..][k] == rest[j];
        assert s[k + 1] == rest[j];
      }
    }
  }

  lemma {:induction false} InsertSorted(e: Entry, s: seq<Entry>)
    requires Sorted(s)
    ensures Sorted(Insert(e, s))
  {
    if s == [] {
    } else if Precedes(e, s[0]) {
      forall j | 0 <= j < |s| ensures Precedes(e, s[j]) {
        if j > 0 { PrecedesTransitive(e, s[0], s[j]); }
      }
      PrependSorted(e, s);
    } else {
      var rest := Insert(e, s[1..]);
      assert Sorted(s[1..]) by {
        forall i, j | 0 <= i < j < |s[1..]| ensures Precedes(s[1..][i], s[1..][j]) {
          assert s[1..][i] == s[i + 1] && s[1..][j] == s[j + 1];
        }
      }
      InsertSorted(e, s[1..]);
      PrecedesTotal(e, s[0]);
      HeadPrecedesInsert(e, s, rest);
      PrependSorted(s[0], rest);
    }
  }

  /** The engine's sort with the route's comparator. */
  function SortEntries(s: seq<Entry>): (r: seq<Entry>)
    ensures multiset(r) == multiset(s)
    ensures Sorted(r)
  {
    if s == [] then []
    else
      assert s == [s[0]] + s[1..];
      InsertSorted(s[0], SortEntries(s[1..]));
      Insert(s[0], SortEntries(s[1..]))
  }

  /** The `map` then `sort` pipeline. */
  function Format(items: seq<RawItem>): (r: seq<Entry>)
    ensures |r| == |items|
    ensures multiset(r) == multiset(Projected(items))
    ensures forall i, j :: 0 <= i < j < |r| ==> !(r[i].kind == File && r[j].kind == Dir)
    ensures forall i, j :: 0 <= i < j < |r| && r[i].kind == r[j].kind ==> NameLe(r[i].name, r[j].name)
  {
    var r := SortEntries(Projected(items));
    assert |r| == |multiset(r)| == |Projected(items)|;
    assert forall i, j :: 0 <= i < j < |r| ==> Precedes(r[i], r[j]);
    r
  }

  // ----- The handler -----

  /** `searchParams.get("path") || ""`. */
  function PathOrRoot(path: Option<string>): string
  {
    if Truthy(path) then path.value else ""
  }

  /** `GET`: the session is checked first, then `repo`; only then is the one upstream request
      made. A failed upstream answer is passed on with its status and text; a successful one
      becomes the projected items, directories first, each kind by ascending name; a request
      that throws is left to the framework's 500. */
  function Get(auth: Option<GitHubAuth>, repo: Option<string>, path: Option<string>, upstream: string -> Upstream): (h: Handled)
    ensures h.requested == [] <==> auth.None? || !Truthy(repo)
    ensures auth.None? ==> h.response == Unauthorized
    ensures auth.Some? && !Truthy(repo) ==> h.response == BadRequest
    ensures h.requested != [] ==>
              var url := ContentsUrl(auth.value.username, repo.value, PathOrRoot(path));
              && h.requested == [url]
              && (upstream(url).NotOk? ==> h.response == Failed(upstream(url).status, upstream(url).text))
              && (upstream(url).Thrown? ==> h.response == ServerError)
              && (upstream(url).Ok? ==>
                    && h.response.Entries?
                    && multiset(h.response.entries) == multiset(Projected(Items(upstream(url).body))))
    ensures h.response.Entries? ==>
              forall i, j :: 0 <= i < j < |h.response.entries| ==>
                && !(h.response.entries[i].kind == File && h.response.entries[j].kind == Dir)
                && (h.response.entries[i].kind == h.response.entries[j].kind
                    ==> NameLe(h.response.entries[i].name, h.response.entries[j].name))
  {
    if auth.None? then Handled(Unauthorized, [])
    else if !Truthy(repo) then Handled(BadRequest, [])
    else
      var url := ContentsUrl(auth.value.username, repo.value, PathOrRoot(path));
      match upstream(url)
      case NotOk(status, text) => Handled(Failed(status, text), [url])
      case Ok(body) => Handled(Entries(Format(Items(body))), [url])
      case Thrown => Handled(ServerError, [url])
  }

  /** An omitted or empty `path` lists the repository root. */
  lemma OmittedPathListsRoot(auth: GitHubAuth, repo: string, path: Option<string>, upstream: string -> Upstream)
    requires repo != "" && !Truthy(path)
    ensures Get(Some(auth), Some(repo), path, upstream).requested
            == [ApiRepos + auth.username + "/" + repo + "/contents"]
  {
    assert PathOrRoot(path) == "";
    assert ApiRepos + auth.username + "/" + repo + "/contents" + "" == ApiRepos + auth.username + "/" + repo + "/contents";
  }

  /** A single object (the answer for a file path) comes back as a one-element list. */
  lemma SingleItemWrapped(item: RawItem)
    ensures Format(Items(One(item))) == [Project(item)]
  {
    var r := Format(Items(One(item)));
    assert |r| == 1;
    assert r[0] in multiset(r);
  }
}
