/**
 * The records the aggregation pipeline produces (Repository, Commit,
 * PullRequest), the raw records the GitHub API hands it, and the small
 * wrappers used for absent values and errors.
 */
module Types {

  /** A point in time, in milliseconds since the Unix epoch. */
  type Millis = int

  datatype Option<T> = None | Some(value: T)

  /** JavaScript's `s || fallback` on an optional string: an absent or empty string falls back. */
  function OrElse(s: Option<string>, fallback: string): string
  {
    if s.Some? && s.value != "" then s.value else fallback
  }

  /** JavaScript's `n || 0` on an optional count. */
  function OrZero(n: Option<int>): int
  {
    if n.Some? then n.value else 0
  }

  /** The errors that reach a caller: a missing GITHUB_TOKEN, or an HTTP failure with its status. */
  datatype Error = MissingToken | RequestFailed(status: int)

  datatype Result<T> = Ok(value: T) | Err(error: Error)

  datatype Repository = Repository(
    name: string,
    fullName: string,
    description: Option<string>,
    isPrivate: bool,
    defaultBranch: string,
    updatedAt: string)

  datatype Commit = Commit(sha: string, message: string, author: string, date: string)

  datatype PullRequest = PullRequest(
    repo: string,
    number: int,
    title: string,
    description: Option<string>,
    author: string,
    mergedAt: Millis,
    commits: seq<Commit>,
    additions: int,
    deletions: int,
    changedFiles: int,
    url: string)

  /** A repository as the organisation and user listings return it. */
  datatype RawRepo = RawRepo(
    name: string,
    fullName: string,
    description: Option<string>,
    isPrivate: bool,
    defaultBranch: string,
    updatedAt: Option<string>)

  /** A closed pull request as the pulls listing returns it; `mergedAt` is None when it was not merged. */
  datatype RawPR = RawPR(
    number: int,
    title: string,
    body: Option<string>,
    userLogin: Option<string>,
    mergedAt: Option<Millis>,
    additions: Option<int>,
    deletions: Option<int>,
    changedFiles: Option<int>,
    htmlUrl: string)

  /** A commit of a pull request: `authorLogin` is the GitHub account, `authorName`/`authorDate` the git metadata. */
  datatype RawCommit = RawCommit(
    sha: string,
    message: string,
    authorLogin: Option<string>,
    authorName: Option<string>,
    authorDate: Option<string>)

  /** One request of a paginated listing: a page of items, or a failure with its HTTP status. */
  datatype PageResult<T> = Page(items: seq<T>) | Failed(status: int)
}
