/** What both route handlers share about GitHub: the signed-in user's credentials and the
    contents-API address they build from a repository and a path. */
module GitHub {

  /** The value `getGitHubAuth` returns for a signed-in user; a handler receives
      `Option<GitHubAuth>`, None standing for no session. */
  datatype GitHubAuth = GitHubAuth(token: string, username: string)

  const ApiRepos := "https://api.github.com/repos/"

  /** The contents URL: `.../contents` for the empty path (the root), `.../contents/<path>`
      for any other path. */
  function ContentsUrl(owner: string, repo: string, path: string): string
  {
    ApiRepos + owner + "/" + repo + "/contents" + (if path == "" then "" else "/" + path)
  }
}
