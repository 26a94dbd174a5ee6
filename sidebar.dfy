/** The repository sidebar: the case-insensitive name filter, one checkbox row per shown
    repository with its language dot, and the counts in the footer and the collapsed strip. */
module Sidebar {
  import opened Wrappers
  import opened Strings
  import opened Sequences
  import Page

  datatype Repo = Repo(name: string, description: Option<string>, language: Option<string>, updatedAt: string)

  /** The filter box keeps a repository when its lower-cased name contains the lower-cased search text. */
  predicate Matches(repo: Repo, search: string)
  {
    Includes(Lower(repo.name), Lower(search))
  }

  function Filtered(repos: seq<Repo>, search: string): seq<Repo>
  {
    if repos == [] then []
    else (if Matches(repos[0], search) then [repos[0]] else []) + Filtered(repos[1..], search)
  }

  /** The filter shows exactly the matching repositories, in their original order. */
  lemma {:induction false} FilteredKeepsMatches(repos: seq<Repo>, search: string)
    ensures forall r :: r in Filtered(repos, search) <==> r in repos && Matches(r, search)
    ensures Subsequence(Filtered(repos, search), repos)
  {
    if repos != [] {
      FilteredKeepsMatches(repos[1..], search);
      assert repos == [repos[0]] + repos[1..];
      if Matches(repos[0], search) {
        assert Filtered(repos, search)[1..] == Filtered(repos[1..], search);
      } else {
        assert Filtered(repos, search) == Filtered(repos[1..], search);
      }
    }
  }

  /** An empty filter box shows every repository. */
  lemma {:induction false} EmptySearchShowsAll(repos: seq<Repo>)
    ensures Filtered(repos, "") == repos
  {
    if repos != [] {
      assert OccursAt("", Lower(repos[0].name), 0);
      EmptySearchShowsAll(repos[1..]);
      assert repos == [repos[0]] + repos[1..];
    }
  }

  /** Upper- and lower-case letters in the search text are treated alike. */
  lemma SearchIgnoresCase(repo: Repo, search: string)
    ensures Matches(repo, Lower(search)) <==> Matches(repo, search)
  {
    LowerIdempotent(search);
  }

  const LangColors: map<string, string> := map[
    "TypeScript" := "#3178c6",
    "JavaScript" := "#f1e05a",
    "Python" := "#3572A5",
    "Go" := "#00ADD8",
    "Rust" := "#dea584",
    "HTML" := "#e34c26",
    "CSS" := "#563d7c",
    "Shell" := "#89e051"
  ]

  const FallbackColor := "var(--text-secondary)"

  /** The language line under a repository's name: drawn only for a non-empty language, with
      the colour the table gives it or the fallback colour for a language the table lacks. */
  function LanguageDot(language: Option<string>): (dot: Option<string>)
    ensures dot.Some? <==> language.Some? && language.value != ""
    ensures dot.Some? && language.value in LangColors ==> dot.value == LangColors[language.value]
    ensures dot.Some? && language.value !in LangColors ==> dot.value == FallbackColor
  {
    match language
    case Some(lang) =>
      if lang == "" then None
      else if lang in LangColors && LangColors[lang] != "" then Some(LangColors[lang])
      else Some(FallbackColor)
    case None => None
  }

  datatype Row = Row(name: string, checked: bool, dot: Option<string>)

  /** The checkbox rows, one per repository the filter shows. */
  function Rows(repos: seq<Repo>, selected: seq<string>, search: string): (rows: seq<Row>)
    ensures |rows| == |Filtered(repos, search)|
    ensures forall i :: 0 <= i < |rows| ==>
      rows[i].name == Filtered(repos, search)[i].name
      && (rows[i].checked <==> rows[i].name in selected)
      && rows[i].dot == LanguageDot(Filtered(repos, search)[i].language)
  {
    var shown := Filtered(repos, search);
    seq(|shown|, i requires 0 <= i < |shown| =>
      Row(shown[i].name, shown[i].name in selected, LanguageDot(shown[i].language)))
  }

  /** Clicking a row's checkbox toggles that name in the selection: its own row flips and every
      row of another name keeps its state. */
  lemma CheckboxToggles(repos: seq<Repo>, selected: seq<string>, search: string, name: string)
    ensures var before := Rows(repos, selected, search);
      var after := Rows(repos, Page.Toggle(selected, name), search);
      |after| == |before|
      && forall i :: 0 <= i < |before| ==>
        after[i].name == before[i].name
        && after[i].dot == before[i].dot
        && (after[i].checked <==> if before[i].name == name then !before[i].checked else before[i].checked)
  {
    Page.ToggleFlips(selected, name);
  }

  datatype View =
    | Collapsed(selectedCount: nat)
    | Expanded(rows: Option<seq<Row>>, repoCount: nat, selectedCount: nat)

  /** The whole sidebar. The collapsed strip shows how many repositories are selected; the
      expanded one shows the rows (none while loading) and a footer counting every repository,
      not only the shown ones, and the selection. */
  function Render(repos: seq<Repo>, selected: seq<string>, search: string, loading: bool, collapsed: bool): (v: View)
    ensures v.Collapsed? <==> collapsed
    ensures v.selectedCount == |selected|
    ensures v.Expanded? ==> v.repoCount == |repos| && (v.rows.Some? <==> !loading)
    ensures v.Expanded? && v.rows.Some? ==> v.rows.value == Rows(repos, selected, search)
  {
    if collapsed then Collapsed(|selected|)
    else Expanded(if loading then None else Some(Rows(repos, selected, search)), |repos|, |selected|)
  }
}
