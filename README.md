# GitHub AI Stats — the data pipeline in Dafny

GitHub AI Stats gathers the pull requests an organisation merged in a date
window and asks a language model to summarise them. This project models
the part of the service that has definite behaviour:

- **The GitHub service** (`github.dfy`).
  - The credential check: `GITHUB_TOKEN` must be non-empty.
  - The repository lister, `getOrganizationRepos`. It reads the organisation listing pages and falls back to the user listing on a 404.
  - The commit fetcher, `getPRCommits`.
  - The merged-PR aggregator, `getMergedPRs`.
  - Octokit is replaced by an `Api` value. Each paginated endpoint is the sequence of responses its iterator yields: a page of items, or a failure with an HTTP status.
  - The methods walk those sequences with the source's loops, early exits and error handling. Each is proved equal to a specification function.
  - `github_properties.dfy` proves what the service promises about those functions. It covers date filtering, the early stop, failure containment, progress reporting, the listing fallback and the commit fields.
- **The ordering of the results** (`sorting.dfy`). The final sort is stable and newest first. It is modelled as a function, and the lemmas show that it is the only stable newest-first arrangement.
- **The date and text helpers** (`utils.dfy`, `calendar.dfy`). These are `isDateInRange`, `truncateText` and `formatDate`.
  - Instants are milliseconds since the epoch.
  - The end of the `to` day is taken in local time, so the zone offset is a parameter.
  - `formatDate` is modelled by a proleptic Gregorian calendar in UTC.
- **The prompt context** (`prompt_context.dfy`, `prompt_context_properties.dfy`). This is `buildPRContext`. It groups PRs by repository in a plain object, then writes one section per repository and one block per PR.
  - The model keeps the property order `Object.entries` follows: array-index keys first, ascending, then creation order.
  - It keeps the `TypeError` raised when a repository is named after an inherited member of `Object.prototype`, such as `constructor`. `acc[repo]` is then already set, and it has no `push`.
  - `decimal.dfy` holds the decimal numerals that template literals produce and that decide which keys are array indices.
- **The repository picker's selection rules** (`selection.dfy`): "Select All / Deselect All" and the per-repository checkbox.

The aggregator's early stop relies on GitHub's listing order. The scan of
a repository ends at the first merged PR whose merge precedes `from`, even
if kept PRs come after it on the same page or on later pages.
`GitHubProperties.EarlyStop` states this, and
`GitHubProperties.ReachedPRIsReturned` states which PRs are certainly
returned.

## Model

| member | source | states |
|---|---|---|
| Utils.LocalDayMonotone | src/lib/utils.ts:21-26 | a later instant never falls on an earlier local day |
| Utils.EndOfDay | src/lib/utils.ts:23-25 | setting 23:59:59.999 gives the last millisecond of the local day of `to`: not before `to`, less than a day after it, on the same local day, and the next millisecond starts the next day |
| Utils.IsDateInRange | src/lib/utils.ts:16-27 | `d` is in range exactly when it is not before `from` and its local day is no later than that of `to`: both endpoints inclusive, the `to` day whole in local time |
| Utils.EndpointsInclusive | src/lib/utils.ts:25-26 | `from` itself is in range; for a `to` at local midnight every instant up to `to + 86 399 999` ms is in range, and the next one is not |
| Utils.UtcMidnightTo | src/lib/utils.ts:23-26 | for a `to` at UTC midnight (a parsed date field) the range ends `-offset` ms into that UTC day west of UTC and `offset` ms before its end east of UTC, so outside UTC some instant of that day is out of range |
| Utils.TruncateText | src/lib/utils.ts:29-32 | text within the limit is returned unchanged; longer text becomes its first `maxLength - 3` characters and "..." with length exactly `maxLength` (for a limit of at least 3); longer text always ends in "..." after a prefix of the text |
| Utils.TruncateIdempotent | src/lib/utils.ts:29-32 | for a limit of at least 3 the result never exceeds the limit, and truncating again changes nothing |
| Calendar.InYear | src/lib/utils.ts:8-10 | counting days from the first of a month gives a valid date of that year at the corresponding day of the year |
| Calendar.Forward | src/lib/utils.ts:8-10 | counting days forward from January 1 gives a valid date with exactly that day number |
| Calendar.Backward | src/lib/utils.ts:8-10 | counting days back from January 1 gives a valid date with exactly that day number |
| Calendar.CivilDate | src/lib/utils.ts:8-10 | every day number, before or after the epoch, has a valid Gregorian date whose day number it is |
| Calendar.DayNumberInjective | src/lib/utils.ts:8-10 | distinct valid dates have distinct day numbers |
| Calendar.CivilDateOfDayNumber | src/lib/utils.ts:8-10 | CivilDate inverts DayNumber on every valid date |
| Calendar.UtcDate | src/lib/utils.ts:8-10 | the UTC date of an instant is valid and the instant lies within that date's 86 400 000 ms |
| Calendar.EpochDates | src/lib/utils.ts:8-10 | instant 0 is 1970-01-01 and instant -1 is 1969-12-31 |
| Calendar.DateTextRoundTrip | src/lib/utils.ts:8-10 | a date of the years 0000-9999 is written as four, two and two digits separated by '-' at positions 4 and 7, and reads back as the same date |
| Calendar.FormatDate | src/lib/utils.ts:8-10 | in every year the text ends in '-', two month digits, '-' and two day digits whose values are the UTC month and day of the instant; outside the years 0000-9999 the year is a sign and digits whose value is the year's magnitude |
| Calendar.FormatDateNamesTheDay | src/lib/utils.ts:8-10 | for years 0000-9999 formatDate yields ten characters YYYY-MM-DD that name a valid date in whose UTC day the instant lies |
| Decimal.DigitChar | src/services/claude.ts:35-38 | the digit character of a value below ten has that value |
| Decimal.NatToString | src/services/claude.ts:53 | `String(n)` is a canonical numeral (no leading zero) whose value is `n` |
| Decimal.IntToString | src/services/claude.ts:35-38 | a non-negative number is written as a canonical numeral of its value; a negative one as "-" followed by a canonical numeral of its magnitude |
| Decimal.CanonicalRoundTrip | src/services/claude.ts:31 | writing the value of a canonical numeral gives the numeral back |
| Decimal.CanonicalInjective | src/services/claude.ts:31 | two canonical numerals with the same value are the same key |
| PRSort.Insert | src/services/github.ts:183-185 | inserting into a newest-first sequence keeps it newest first and adds exactly the one PR |
| PRSort.InsertMergedAtTime | src/services/github.ts:183-185 | insertion puts a PR ahead of every PR already present with the same merge instant |
| PRSort.SortNewestFirst | src/services/github.ts:183-185 | the sorted PRs are non-increasing in merge time and a permutation of the input |
| PRSort.SortIsStable | src/services/github.ts:183-185 | PRs merged at the same instant keep their input order |
| PRSort.MergedAtTimeMember | src/services/github.ts:183-185 | some PR is merged at instant `t` exactly when the PRs merged at `t` are not empty |
| PRSort.NewestFirstUnique | src/services/github.ts:183-185 | two newest-first sequences that agree at every instant are equal |
| PRSort.StableSortIsUnique | src/services/github.ts:183-185 | any newest-first arrangement that keeps the input order at every instant is the sort's result |
| GitHub.FirstLine | src/services/github.ts:99 | the message kept is a prefix of the original that holds no newline and stops at the first newline |
| GitHub.PushRepos | src/services/github.ts:35-44 | every repository of a page is appended, converted, in page order |
| GitHub.DrainRepos | src/services/github.ts:34-45 | the repositories of every page before the first failed request are appended to those already collected, and the failure status, if any, is reported |
| GitHub.GetOrganizationRepos | src/services/github.ts:21-78 | returns OrganizationRepos: a missing token is raised; the organisation listing in page order; on a 404 the user listing is appended to what was already collected; any other failure is raised with its status |
| GitHub.ToCommitsAt | src/services/github.ts:96-103 | each commit is converted individually, in order |
| GitHub.GetPRCommits | src/services/github.ts:80-109 | a missing token is raised outside the try block; a failed request yields no commits; otherwise the converted commits of the response |
| GitHub.HaltedStays | src/services/github.ts:147-176 | once the page loop has stopped, later pages change nothing |
| GitHub.ScanPage | src/services/github.ts:141-173 | the inner loop appends exactly the PRs ScanItems keeps and reports whether it met a PR merged before `from` |
| GitHub.CollectRepository | src/services/github.ts:128-179 | the try block appends the repository's contribution to the PRs and its page requests to the trace, including what was pushed before a failure |
| GitHub.GetMergedPRs | src/services/github.ts:111-188 | returns MergedPRs, the stable newest-first sort of the PRs collected over all repositories; the calls are the progress reports and page requests of Trace; a missing token is raised before any call |
| GitHubProperties.FirstOld | src/services/github.ts:147-153 | the position of the first merged PR before `from` on a page: no earlier PR is one |
| GitHubProperties.ScanItemsMeaning | src/services/github.ts:141-155 | a page contributes the kept PRs before its first PR merged before `from`, and stops exactly when it has one |
| GitHubProperties.KeptPRsMember | src/services/github.ts:143-172 | a PR is among the kept ones exactly when some listed PR is merged, inside the range, and builds it |
| GitHubProperties.ScanItemsSource | src/services/github.ts:141-172 | every PR a page contributes belongs to the repository and is built from a kept PR of the page |
| GitHubProperties.ScanItemsStopsAt | src/services/github.ts:147-153 | nothing after the first PR merged before `from` on a page is looked at, and the scan stops there |
| GitHubProperties.ScanItemsSkips | src/services/github.ts:143-155 | an unmerged PR or one merged after the `to` day is skipped and the scan goes on |
| GitHubProperties.PageRequests | src/services/github.ts:140-176 | pages are requested in order from 0; every requested page but the last lets the scan continue; the loop stopped exactly when its last page ends it; otherwise every page was requested |
| GitHubProperties.ScanPagesPrefix | src/services/github.ts:140-176 | reading more pages only extends the PRs pushed and the pages requested |
| GitHubProperties.ScanPagesSource | src/services/github.ts:140-176 | every PR a repository contributes comes from one of its pages |
| GitHubProperties.EarlyStop | src/services/github.ts:147-176 | after a PR merged before `from`, neither the rest of its page nor any later page is examined, requested or added |
| GitHubProperties.SamePageOutcome | src/services/github.ts:140-176 | two listings that differ only in one page that the scan treats alike give the same outcome |
| GitHubProperties.SkippedPRIsInvisible | src/services/github.ts:143-154 | an unmerged PR, or one merged after the end of the `to` day, changes nothing |
| GitHubProperties.FailedPage | src/services/github.ts:177-179 | a failed page request keeps what the repository already pushed, ends its scan and requests nothing more |
| GitHubProperties.CollectedAppend | src/services/github.ts:124-180 | repositories contribute independently, in the order named |
| GitHubProperties.FailureIsContained | src/services/github.ts:124-180 | a failure in one repository keeps its earlier PRs and leaves the other repositories' contributions untouched |
| GitHubProperties.CollectedSource | src/services/github.ts:124-180 | every collected PR comes from one of the named repositories |
| GitHubProperties.ResultIsInRange | src/services/github.ts:143-172 | every returned PR is merged inside the range and belongs to a named repository, and a kept listed PR built it |
| GitHubProperties.ResultIsSortedCollection | src/services/github.ts:183-185 | the result is newest first, a permutation of the collected PRs, and stable per merge instant |
| GitHubProperties.ReachedPage | src/services/github.ts:140-176 | when no earlier page ended the scan, all earlier pages were requested and the scan is still going |
| GitHubProperties.ReachedOnPage | src/services/github.ts:141-172 | a kept PR with no PR merged before `from` ahead of it on its page is contributed |
| GitHubProperties.ReachedInRepository | src/services/github.ts:140-176 | what a reached page contributes is pushed for its repository |
| GitHubProperties.CollectedIncludes | src/services/github.ts:124-180 | what a repository contributes is collected whatever the other repositories do |
| GitHubProperties.ReachedPRIsReturned | src/services/github.ts:124-188 | a kept PR on a reached page, with no PR merged before `from` ahead of it, is returned; then if its commits request failed it has no commits |
| GitHubProperties.CommitFields | src/services/github.ts:96-103 | each commit keeps its sha and the first line of its message; its author is the first non-empty of account login, git author name and "unknown"; its date is the git author date or "" |
| GitHubProperties.ReportsAppend | src/services/github.ts:121-126 | the progress reports of joined traces are the joined reports |
| GitHubProperties.RequestsOnly | src/services/github.ts:128-176 | the calls made inside a repository are page requests only |
| GitHubProperties.ProgressOncePerRepository | src/services/github.ts:121-126 | the progress callback runs once per repository, in order, with (k, total, repoNames[k-1]) |
| GitHubProperties.TracePrefix | src/services/github.ts:124-180 | the calls for the first repositories precede the calls for the rest |
| GitHubProperties.ProgressBeforeFetch | src/services/github.ts:125-129 | a repository's progress report follows all calls for earlier repositories and comes immediately before its own page requests |
| GitHubProperties.ToRepositoriesAppend | src/services/github.ts:35-44 | converting joined pages is joining the converted pages |
| GitHubProperties.ToRepositoriesAt | src/services/github.ts:36-43 | each repository is converted individually, in order |
| GitHubProperties.ListedInPageOrder | src/services/github.ts:34-45 | the repositories listed are those of every page read, converted one by one, in page order |
| GitHubProperties.NoFailure | src/services/github.ts:34-45 | a listing without a failed request reports no failure and lists every repository of every page |
| GitHubProperties.FailsAfter | src/services/github.ts:34-46 | a listing that fails after some pages reports that status and yields those pages' repositories |
| GitHubProperties.OrgListingSucceeds | src/services/github.ts:21-78 | when the organisation listing succeeds the result is all its repositories in page order |
| GitHubProperties.OrgNotFoundFallsBack | src/services/github.ts:23-71 | on a 404 the user listing is appended to the organisation repositories already pushed, which are not cleared |
| GitHubProperties.OrgNotFoundAtOnce | src/services/github.ts:46-71 | a 404 on the first organisation page gives exactly the user listing |
| GitHubProperties.OrgFailureIsRaised | src/services/github.ts:72-74 | any other failure of the organisation listing is raised with its status |
| GitHubProperties.UserFailureIsRaised | src/services/github.ts:50-71 | a failure of the user listing after a 404 is raised with its status |
| PromptContext.GroupEmptyIffAbsent | src/services/claude.ts:21-27 | a repository has PRs exactly when it got a key |
| PromptContext.InheritedStays | src/services/claude.ts:21-27 | once a PR names an inherited member, later PRs do not change which one fails |
| PromptContext.IndexKeys | src/services/claude.ts:31 | the keys listed first are array indices |
| PromptContext.OtherKeys | src/services/claude.ts:31 | the keys listed after them are not array indices |
| PromptContext.InsertByValue | src/services/claude.ts:31 | inserting an index key keeps the keys ascending and adds exactly that key |
| PromptContext.SortByValue | src/services/claude.ts:31 | index keys are listed in ascending numeric order, each as often as created |
| PromptContext.IndexKeysMember | src/services/claude.ts:31 | a key is an index key, or another key, exactly when it was created and is, or is not, an array index |
| PromptContext.EntriesMember | src/services/claude.ts:31 | Object.entries lists exactly the keys that were created |
| PromptContext.GroupByRepo | src/services/claude.ts:21-27 | the reduce fails at the first repository named after an inherited member; otherwise it creates the keys in first-appearance order and maps each to its PRs in input order |
| PromptContext.AppendCommits | src/services/claude.ts:47-55 | appends the Commits section exactly as WithCommits describes it |
| PromptContext.AppendPRBlock | src/services/claude.ts:35-56 | appends one PR's block exactly as WithPRBlock describes it |
| PromptContext.AppendBlocks | src/services/claude.ts:34-57 | appends the blocks of a repository's PRs in order |
| PromptContext.AppendSections | src/services/claude.ts:31-58 | appends, per repository in entries order, its header and its blocks |
| PromptContext.BuildPRContext | src/services/claude.ts:20-61 | returns PRContext: the TypeError for an inherited repository name, otherwise the sections of all repositories in Object.entries order |
| PromptContextProperties.FirstIndex | src/services/claude.ts:21-27 | the position of a repository's first PR: no earlier PR has it |
| PromptContextProperties.FirstAppearanceKeys | src/services/claude.ts:21-27 | each repository of the input gets exactly one key, and keys are created in order of first appearance |
| PromptContextProperties.DistinctCounts | src/services/claude.ts:31 | keys are distinct exactly when none occurs twice |
| PromptContextProperties.FiltersPartition | src/services/claude.ts:31 | the index keys and the other keys together are the created keys |
| PromptContextProperties.NoIndexKeys | src/services/claude.ts:31 | without array-index keys every key keeps its creation position |
| PromptContextProperties.EntriesOrderFacts | src/services/claude.ts:31 | Object.entries lists every key once: array indices first in ascending order, then the others; without array-index keys this is creation order |
| PromptContextProperties.RepositorySections | src/services/claude.ts:21-32 | there is one section per repository of the input, none twice; without array-index names they follow first appearance |
| PromptContextProperties.GroupFacts | src/services/claude.ts:21-27 | a repository's group holds only its own PRs, and grows with the input |
| PromptContextProperties.GroupCount | src/services/claude.ts:25 | each PR occurs in its repository's group as often as in the input |
| PromptContextProperties.EveryPRInItsSection | src/services/claude.ts:21-35 | every input PR is rendered in its repository's section as often as it occurs, in no other section, and in input order |
| PromptContextProperties.ConcatAppend | src/services/claude.ts:47-55 | the text of joined line lists is the joined text |
| PromptContextProperties.CommitLineList | src/services/claude.ts:49-51 | one commit line per commit, in order |
| PromptContextProperties.CommitLinesAsList | src/services/claude.ts:49-51 | the commit loop appends the text of those lines |
| PromptContextProperties.CommitsSectionShape | src/services/claude.ts:47-54 | no lines without commits; otherwise the heading, one line for each of the first ten commits in order, and the overflow line "... and N more commits" exactly when there are more than ten, with N = count - 10 |
| PromptContextProperties.CommitsSectionText | src/services/claude.ts:47-55 | the rendered Commits section is the text of those lines |
| PromptContextProperties.DescriptionShown | src/services/claude.ts:40-45 | a description of up to 500 characters is shown whole; a longer one as its first 500 characters and "..." |
| PromptContextProperties.CommitLinesExtend | src/services/claude.ts:49-51 | commit lines only add text |
| PromptContextProperties.BlockExtends | src/services/claude.ts:35-56 | every PR block adds text |
| PromptContextProperties.BlocksExtend | src/services/claude.ts:34-57 | blocks only add text |
| PromptContextProperties.EmptyExactlyWithoutPRs | src/services/claude.ts:29-60 | the context is "" exactly when there are no PRs |
| PromptContextProperties.FirstInheritedMeaning | src/services/claude.ts:21-27 | the failing repository is the first input repository named after an inherited member |
| PromptContextProperties.InheritedNameThrows | src/services/claude.ts:21-27 | buildPRContext throws exactly when some repository is named after an inherited member, and names the first such one |
| RepoSelector.Names | src/components/RepoSelector.tsx:20 | the names of the listed repositories, in listing order |
| RepoSelector.ToggleAll | src/components/RepoSelector.tsx:16-22 | deselects everything when as many names are selected as there are repositories, otherwise selects every repository in listing order |
| RepoSelector.Without | src/components/RepoSelector.tsx:26 | the filtered selection has no occurrence of the name and every other name as often as before |
| RepoSelector.ToggleRepo | src/components/RepoSelector.tsx:24-30 | a selected name is removed; an unselected one is appended to the unchanged selection |
| RepoSelector.WithoutKeepsOrder | src/components/RepoSelector.tsx:26 | filtering keeps the other names in their relative order |
| RepoSelector.ToggleRemoves | src/components/RepoSelector.tsx:25-26 | toggling a selected name removes every occurrence and keeps the other names, their counts and their order |
| RepoSelector.WithoutAbsent | src/components/RepoSelector.tsx:26 | filtering out a name that is not selected changes nothing |
| RepoSelector.ToggleTwice | src/components/RepoSelector.tsx:24-30 | ticking an unselected name and unticking it again restores the selection |
| RepoSelector.ToggleAllComparesLengths | src/components/RepoSelector.tsx:17-18 | a selection as long as the listing but naming another repository is deselected all the same |

## Left out

- Octokit and the Anthropic SDK. The network, pagination internals and `async`/`await` are replaced by the `Api` value, whose responses are processed in order.
- The lazy client singletons and the environment read. Only the missing-token error is modelled.
- `console.error` logging in the catch blocks. Only its effect is modelled: the error is swallowed.
- Date parsing. `fromDate`, `toDate` and `merged_at` are taken already parsed to milliseconds. Malformed dates (NaN) are not modelled; `PullRequest.mergedAt` holds the parsed instant, not the ISO string.
- Time zones. The local zone is a fixed offset, `offset`; daylight-saving changes are not modelled.
- `toLocaleDateString`. It is locale-dependent and enters `buildPRContext` as the parameter `localeDate`.
- String lengths. JavaScript measures them in UTF-16 code units; the model counts characters of `seq<char>`.
- `generateSummary`, `generateSummaryStream`, `formatMarkdown`, `cn`, `sleep` and `parseDate`. They are foreign calls, streaming, regex-driven HTML or single library calls.
- The React components' rendering, clipboard, download and state. The `LoadingState` percentage is floating point. The `PRList` grouping repeats `buildPRContext`'s. The HTTP route handlers are request plumbing.
- Calendar.FormatDate: the exact ten-character layout is proved only for years 0000-9999; for other years the contract states the sign, the value of the year digits and the month and day, not that there are exactly six year digits. An invalid Date (RangeError) is excluded by the precondition that the instant lies within 8.64e15 ms of the epoch.
- PromptContextProperties.EveryPRInItsSection: weaker than counting the "#### PR #" headers in the text. It places each PR in its repository's group, and the groups are rendered in order by Sections.
- PromptContextProperties.RepositorySections: weaker than searching the text for "### Repository:" headers. It states the order of the sections through the entries order that Sections renders.
- GitHub.ToRepositories: its own contract states only the length. The element-wise conversion is GitHubProperties.ToRepositoriesAt.
- GitHub.GetMergedPRs: the trace records the progress calls an optional `onProgress` would receive, also when none is passed (as the PR route does). The callback is taken not to throw: it runs outside the per-repository try block, so a throw would abort getMergedPRs and discard what was collected, and that path is not modelled.
