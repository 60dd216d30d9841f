/**
 * The GitHub service: the repository lister (getOrganizationRepos), the
 * commit fetcher (getPRCommits) and the merged-PR aggregator
 * (getMergedPRs), together with the credential check they all start with.
 *
 * The Octokit client is replaced by an `Api` value: every listing endpoint
 * is the sequence of responses its paginated iterator would produce, each
 * a page of items or a failure with an HTTP status; the commits endpoint is
 * a single response. The methods walk these sequences exactly as the source
 * walks the iterators, and each is proved equal to a specification function
 * about which the remaining lemmas are stated.
 */
module GitHub {
  import opened Types
  import opened Utils
  import opened PRSort

  /** What the service can see of GitHub and of its configuration. */
  datatype Api = Api(
    token: Option<string>,
    listForOrg: string -> seq<PageResult<RawRepo>>,
    listForUser: string -> seq<PageResult<RawRepo>>,
    listPulls: (string, string) -> seq<PageResult<RawPR>>,
    listCommits: (string, string, int) -> PageResult<RawCommit>)

  /** getOctokit's check: GITHUB_TOKEN must be set and non-empty. */
  predicate HasToken(api: Api)
  {
    api.token.Some? && api.token.value != ""
  }

  /** The requested window: parsed fromDate and toDate, and the local zone offset. */
  datatype DateRange = DateRange(from: Millis, to: Millis, offset: int)

  /** The calls the aggregator makes that a caller can observe: progress reports and PR page requests. */
  datatype Call = Progress(current: nat, total: nat, repo: string) | PullsPage(repo: string, page: nat)

  // ---------------------------------------------------------------------------
  // Repository lister

  function ToRepository(raw: RawRepo): Repository
  {
    Repository(raw.name, raw.fullName, raw.description, raw.isPrivate, raw.defaultBranch, OrElse(raw.updatedAt, ""))
  }

  function ToRepositories(raws: seq<RawRepo>): (r: seq<Repository>)
    ensures |r| == |raws|
  {
    if raws == [] then [] else [ToRepository(raws[0])] + ToRepositories(raws[1..])
  }

  /** The repositories of the pages read before the listing fails or ends, in page order. */
  function Listed(pages: seq<PageResult<RawRepo>>): seq<Repository>
  {
    if pages == [] then []
    else match pages[0]
      case Failed(_) => []
      case Page(items) => ToRepositories(items) + Listed(pages[1..])
  }

  /** The status of the first failed request of a listing, if any. */
  function FirstFailure<T>(pages: seq<PageResult<T>>): Option<int>
  {
    if pages == [] then None
    else match pages[0]
      case Failed(s) => Some(s)
      case Page(_) => FirstFailure(pages[1..])
  }

  /** getOrganizationRepos as a function of what GitHub answers. */
  function OrganizationRepos(api: Api, org: string): Result<seq<Repository>>
  {
    if !HasToken(api) then Err(MissingToken)
    else
      var orgPages := api.listForOrg(org);
      match FirstFailure(orgPages)
      case None => Ok(Listed(orgPages))
      case Some(status) =>
        if status != 404 then Err(RequestFailed(status))
        else
          var userPages := api.listForUser(org);
          match FirstFailure(userPages)
          case None => Ok(Listed(orgPages) + Listed(userPages))
          case Some(userStatus) => Err(RequestFailed(userStatus))
  }

  /** The `for (const repo of page.data)` loop: push every repository of one page. */
  method PushRepos(items: seq<RawRepo>, repos: seq<Repository>) returns (repos': seq<Repository>)
    ensures repos' == repos + ToRepositories(items)
  {
    repos' := repos;
    var i := 0;
    while i < |items|
      invariant 0 <= i <= |items|
      invariant repos' + ToRepositories(items[i..]) == repos + ToRepositories(items)
    {
      assert items[i..][1..] == items[i + 1..];
      repos' := repos' + [ToRepository(items[i])];
      i := i + 1;
    }
  }

  /** The `for await` over one listing: push every repository of every page until the listing ends or fails. */
  method DrainRepos(pages: seq<PageResult<RawRepo>>, repos: seq<Repository>)
    returns (repos': seq<Repository>, failure: Option<int>)
    ensures repos' == repos + Listed(pages)
    ensures failure == FirstFailure(pages)
  {
    repos' := repos;
    var p := 0;
    while p < |pages|
      invariant 0 <= p <= |pages|
      invariant repos' + Listed(pages[p..]) == repos + Listed(pages)
      invariant FirstFailure(pages[p..]) == FirstFailure(pages)
    {
      assert pages[p..][1..] == pages[p + 1..];
      if pages[p].Failed? {
        return repos', Some(pages[p].status);
      }
      ghost var stale := repos';
      repos' := PushRepos(pages[p].items, repos');
      assert repos' + Listed(pages[p + 1..]) == stale + Listed(pages[p..]);
      p := p + 1;
    }
    failure := None;
  }

  /**
   * getOrganizationRepos: the organisation listing; on a 404 the user
   * listing is appended to what was already collected (the array is not
   * cleared); any other failure, and any failure of the user listing, is
   * raised.
   */
  method GetOrganizationRepos(api: Api, org: string) returns (r: Result<seq<Repository>>)
    ensures r == OrganizationRepos(api, org)
  {
    if !HasToken(api) {
      return Err(MissingToken);
    }
    var repos, failure := DrainRepos(api.listForOrg(org), []);
    if failure.Some? {
      if failure.value != 404 {
        return Err(RequestFailed(failure.value));
      }
      var userFailure;
      repos, userFailure := DrainRepos(api.listForUser(org), repos);
      if userFailure.Some? {
        return Err(RequestFailed(userFailure.value));
      }
      assert repos == Listed(api.listForOrg(org)) + Listed(api.listForUser(org));
    } else {
      assert repos == Listed(api.listForOrg(org));
    }
    r := Ok(repos);
  }

  // ---------------------------------------------------------------------------
  // Commit fetcher

  /** `message.split("\n")[0]`: the text before the first newline. */
  function FirstLine(message: string): (r: string)
    ensures '\n' !in r
    ensures r <= message
    ensures |r| < |message| ==> message[|r|] == '\n'
  {
    if message == [] || message[0] == '\n' then [] else [message[0]] + FirstLine(message[1..])
  }

  function ToCommit(raw: RawCommit): Commit
  {
    Commit(raw.sha, FirstLine(raw.message), OrElse(raw.authorLogin, OrElse(raw.authorName, "unknown")), OrElse(raw.authorDate, ""))
  }

  function ToCommits(raws: seq<RawCommit>): (r: seq<Commit>)
    ensures |r| == |raws|
  {
    if raws == [] then [] else [ToCommit(raws[0])] + ToCommits(raws[1..])
  }

  lemma {:induction false} ToCommitsAt(raws: seq<RawCommit>, i: nat)
    requires i < |raws|
    ensures ToCommits(raws)[i] == ToCommit(raws[i])
  {
    if i > 0 {
      ToCommitsAt(raws[1..], i - 1);
    }
  }

  /** The commits getPRCommits yields once the token is known: none when the request fails. */
  function PRCommits(api: Api, owner: string, repo: string, number: int): seq<Commit>
  {
    match api.listCommits(owner, repo, number)
    case Failed(_) => []
    case Page(data) => ToCommits(data)
  }

  /**
   * getPRCommits: one request for the PR's commits; each keeps its sha, the
   * first line of its message, the first non-empty of account login, git
   * author name and "unknown", and the git author date or "". A failed
   * request is logged and yields no commits. The token is checked outside
   * the try block, so a missing token is still raised.
   */
  method GetPRCommits(api: Api, owner: string, repo: string, number: int) returns (r: Result<seq<Commit>>)
    ensures !HasToken(api) ==> r == Err(MissingToken)
    ensures HasToken(api) ==> r.Ok? && r.value == PRCommits(api, owner, repo, number)
    ensures HasToken(api) && api.listCommits(owner, repo, number).Failed? ==> r == Ok([])
  {
    if !HasToken(api) {
      return Err(MissingToken);
    }
    var commits: seq<Commit> := [];
    var response := api.listCommits(owner, repo, number);
    if response.Page? {
      var data := response.items;
      var i := 0;
      while i < |data|
        invariant 0 <= i <= |data|
        invariant commits + ToCommits(data[i..]) == ToCommits(data)
      {
        assert data[i..][1..] == data[i + 1..];
        commits := commits + [ToCommit(data[i])];
        i := i + 1;
      }
    }
    // a failed request is logged and leaves `commits` empty
    r := Ok(commits);
  }

  // ---------------------------------------------------------------------------
  // Merged-PR aggregator: specification

  /** A merged PR whose merge precedes the range start: seeing one ends the repository's scan. */
  predicate IsOld(pr: RawPR, range: DateRange)
  {
    pr.mergedAt.Some? && pr.mergedAt.value < range.from
  }

  /** A merged PR inside the range: it is kept. */
  predicate IsKept(pr: RawPR, range: DateRange)
  {
    pr.mergedAt.Some? && IsDateInRange(pr.mergedAt.value, range.from, range.to, range.offset)
  }

  /** The PullRequest record built for a kept PR, with its commits. */
  function ToPullRequest(api: Api, org: string, repo: string, pr: RawPR): PullRequest
    requires pr.mergedAt.Some?
  {
    PullRequest(repo, pr.number, pr.title, pr.body, OrElse(pr.userLogin, "unknown"), pr.mergedAt.value,
                PRCommits(api, org, repo, pr.number),
                OrZero(pr.additions), OrZero(pr.deletions), OrZero(pr.changedFiles), pr.htmlUrl)
  }

  /** What one page of a repository contributes, and whether it ended the scan. */
  datatype Scan = Scan(prs: seq<PullRequest>, stopped: bool)

  /** The inner `for (const pr of data)` loop, branch by branch. */
  function ScanItems(api: Api, org: string, range: DateRange, repo: string, items: seq<RawPR>): Scan
  {
    if items == [] then Scan([], false)
    else
      var pr := items[0];
      if pr.mergedAt.None? then ScanItems(api, org, range, repo, items[1..])
      else if !IsDateInRange(pr.mergedAt.value, range.from, range.to, range.offset) then
        if pr.mergedAt.value < range.from then Scan([], true)
        else ScanItems(api, org, range, repo, items[1..])
      else
        var rest := ScanItems(api, org, range, repo, items[1..]);
        Scan([ToPullRequest(api, org, repo, pr)] + rest.prs, rest.stopped)
  }

  /**
   * The state of a repository's page loop after the given pages: the PRs
   * pushed, the page requests made, and whether the loop has ended (a
   * request failed, or a page held a PR merged before `from`).
   */
  datatype RepoScan = RepoScan(prs: seq<PullRequest>, calls: seq<Call>, halted: bool)

  /** The `for await` over a repository's pages, one page at a time. */
  function ScanPages(api: Api, org: string, range: DateRange, repo: string, pages: seq<PageResult<RawPR>>): RepoScan
  {
    if pages == [] then RepoScan([], [], false)
    else NextPage(api, org, range, repo, ScanPages(api, org, range, repo, pages[..|pages| - 1]), |pages| - 1, pages[|pages| - 1])
  }

  /** Page number `index` of the page loop, after the pages before it gave `before`. */
  function NextPage(api: Api, org: string, range: DateRange, repo: string, before: RepoScan, index: nat,
                    page: PageResult<RawPR>): RepoScan
  {
    if before.halted then before
    else
      var calls := before.calls + [PullsPage(repo, index)];
      match page
      case Failed(_) => RepoScan(before.prs, calls, true)
      case Page(items) =>
        var scan := ScanItems(api, org, range, repo, items);
        RepoScan(before.prs + scan.prs, calls, scan.stopped)
  }

  /** What the repository loop does with `repo`'s listing. */
  function RepoOutcome(api: Api, org: string, range: DateRange, repo: string): RepoScan
  {
    ScanPages(api, org, range, repo, api.listPulls(org, repo))
  }

  /** The PRs collected across the named repositories, in discovery order (before sorting). */
  function Collected(api: Api, org: string, range: DateRange, repoNames: seq<string>): seq<PullRequest>
  {
    if repoNames == [] then []
    else
      var last := repoNames[|repoNames| - 1];
      Collected(api, org, range, repoNames[..|repoNames| - 1]) + RepoOutcome(api, org, range, last).prs
  }

  /** The calls made for the named repositories, out of `total`. */
  function Trace(api: Api, org: string, range: DateRange, repoNames: seq<string>, total: nat): seq<Call>
  {
    if repoNames == [] then []
    else
      var last := repoNames[|repoNames| - 1];
      Trace(api, org, range, repoNames[..|repoNames| - 1], total)
      + [Progress(|repoNames|, total, last)]
      + RepoOutcome(api, org, range, last).calls
  }

  /** getMergedPRs as a function of what GitHub answers. */
  function MergedPRs(api: Api, org: string, repoNames: seq<string>, range: DateRange): Result<seq<PullRequest>>
  {
    if !HasToken(api) then Err(MissingToken)
    else Ok(SortNewestFirst(Collected(api, org, range, repoNames)))
  }

  // ---------------------------------------------------------------------------
  // Merged-PR aggregator: the loop

  /** One item of the inner loop: skipped, ends the scan, or kept. */
  lemma ItemStep(api: Api, org: string, range: DateRange, repo: string, items: seq<RawPR>, i: nat)
    requires i < |items|
    ensures var pr := items[i];
      ScanItems(api, org, range, repo, items[i..]) ==
        if pr.mergedAt.None? then ScanItems(api, org, range, repo, items[i + 1..])
        else if !IsDateInRange(pr.mergedAt.value, range.from, range.to, range.offset) then
          if pr.mergedAt.value < range.from then Scan([], true) else ScanItems(api, org, range, repo, items[i + 1..])
        else
          var rest := ScanItems(api, org, range, repo, items[i + 1..]);
          Scan([ToPullRequest(api, org, repo, pr)] + rest.prs, rest.stopped)
  {
    assert items[i..][1..] == items[i + 1..];
  }

  /** Once the page loop has ended, later pages change nothing. */
  lemma {:induction false} HaltedStays(api: Api, org: string, range: DateRange, repo: string, pages: seq<PageResult<RawPR>>, k: nat)
    requires k <= |pages|
    requires ScanPages(api, org, range, repo, pages[..k]).halted
    ensures ScanPages(api, org, range, repo, pages) == ScanPages(api, org, range, repo, pages[..k])
  {
    if k < |pages| {
      var init := pages[..|pages| - 1];
      assert init[..k] == pages[..k];
      HaltedStays(api, org, range, repo, init, k);
    } else {
      assert pages[..k] == pages;
    }
  }

  /** One page of the page loop, once the loop has not ended before it. */
  lemma PageStep(api: Api, org: string, range: DateRange, repo: string, pages: seq<PageResult<RawPR>>, p: nat)
    requires p < |pages|
    requires !ScanPages(api, org, range, repo, pages[..p]).halted
    ensures var before := ScanPages(api, org, range, repo, pages[..p]);
      var after := ScanPages(api, org, range, repo, pages[..p + 1]);
      && after.calls == before.calls + [PullsPage(repo, p)]
      && (pages[p].Failed? ==> after.prs == before.prs && after.halted)
      && (pages[p].Page? ==>
            var scan := ScanItems(api, org, range, repo, pages[p].items);
            after.prs == before.prs + scan.prs && after.halted == scan.stopped)
  {
    assert pages[..p + 1][..p] == pages[..p];
  }

  /**
   * The inner `for (const pr of data)` loop over one page: skip unmerged
   * PRs and PRs outside the range, stop at the first PR merged before
   * `from`, and push every kept PR with its commits.
   */
  method ScanPage(api: Api, org: string, range: DateRange, repoName: string, data: seq<RawPR>, allPRs: seq<PullRequest>)
    returns (allPRs': seq<PullRequest>, foundOldPR: bool)
    requires HasToken(api)
    ensures allPRs' == allPRs + ScanItems(api, org, range, repoName, data).prs
    ensures foundOldPR == ScanItems(api, org, range, repoName, data).stopped
  {
    allPRs' := allPRs;
    foundOldPR := false;
    ghost var target := ScanItems(api, org, range, repoName, data);
    var i := 0;
    assert data[i..] == data;
    while i < |data|
      invariant 0 <= i <= |data|
      invariant allPRs' + ScanItems(api, org, range, repoName, data[i..]).prs == allPRs + target.prs
      invariant ScanItems(api, org, range, repoName, data[i..]).stopped == target.stopped
    {
      ItemStep(api, org, range, repoName, data, i);
      var pr := data[i];
      if pr.mergedAt.None? {
        i := i + 1;
        continue;
      }
      if !IsDateInRange(pr.mergedAt.value, range.from, range.to, range.offset) {
        if pr.mergedAt.value < range.from {
          foundOldPR := true;
          break;
        }
        i := i + 1;
        continue;
      }
      var commits := GetPRCommits(api, org, repoName, pr.number);
      var built := PullRequest(repoName, pr.number, pr.title, pr.body, OrElse(pr.userLogin, "unknown"),
                               pr.mergedAt.value, commits.value, OrZero(pr.additions),
                               OrZero(pr.deletions), OrZero(pr.changedFiles), pr.htmlUrl);
      assert built == ToPullRequest(api, org, repoName, pr);
      ghost var rest := ScanItems(api, org, range, repoName, data[i + 1..]).prs;
      assert allPRs' + ([built] + rest) == allPRs + target.prs;
      allPRs' := allPRs' + [built];
      i := i + 1;
    }
    if !foundOldPR {
      assert data[i..] == [];
    }
  }


  /**
   * The body of getMergedPRs' repository loop (its try block): request the
   * repository's closed PRs page by page and scan each, until a page
   * request fails, a scanned page found a PR merged before `from`, or the
   * listing ends. The PRs pushed before a failure stay.
   */
  method CollectRepository(api: Api, org: string, range: DateRange, repoName: string,
                           allPRs: seq<PullRequest>, calls: seq<Call>)
    returns (allPRs': seq<PullRequest>, calls': seq<Call>)
    requires HasToken(api)
    ensures allPRs' == allPRs + RepoOutcome(api, org, range, repoName).prs
    ensures calls' == calls + RepoOutcome(api, org, range, repoName).calls
  {
    allPRs', calls' := allPRs, calls;
    var pages := api.listPulls(org, repoName);
    var p := 0;
    assert pages[..p] == [];
    while p < |pages|
      invariant 0 <= p <= |pages|
      invariant !ScanPages(api, org, range, repoName, pages[..p]).halted
      invariant allPRs' == allPRs + ScanPages(api, org, range, repoName, pages[..p]).prs
      invariant calls' == calls + ScanPages(api, org, range, repoName, pages[..p]).calls
    {
      PageStep(api, org, range, repoName, pages, p);
      ghost var before := ScanPages(api, org, range, repoName, pages[..p]);
      calls' := calls' + [PullsPage(repoName, p)];
      assert calls' == calls + (before.calls + [PullsPage(repoName, p)]);
      if pages[p].Failed? {
        // the request failed: logged, and the next repository is processed
        HaltedStays(api, org, range, repoName, pages, p + 1);
        return;
      }
      var foundOldPR;
      allPRs', foundOldPR := ScanPage(api, org, range, repoName, pages[p].items, allPRs');
      assert allPRs' == allPRs + (before.prs + ScanItems(api, org, range, repoName, pages[p].items).prs);
      if foundOldPR {
        HaltedStays(api, org, range, repoName, pages, p + 1);
        return;
      }
      p := p + 1;
    }
    assert pages[..p] == pages;
  }

  /**
   * getMergedPRs: process the named repositories one at a time, reporting
   * (current, total, name) before each, then sort everything collected
   * newest first. `calls` records the progress reports and page requests in
   * the order they are made; a missing token is raised before any of them.
   */
  method GetMergedPRs(api: Api, org: string, repoNames: seq<string>, range: DateRange)
    returns (r: Result<seq<PullRequest>>, calls: seq<Call>)
    ensures r == MergedPRs(api, org, repoNames, range)
    ensures calls == if HasToken(api) then Trace(api, org, range, repoNames, |repoNames|) else []
  {
    calls := [];
    if !HasToken(api) {
      return Err(MissingToken), calls;
    }
    var allPRs: seq<PullRequest> := [];
    var current := 0;
    var total := |repoNames|;
    while current < total
      invariant 0 <= current <= total
      invariant allPRs == Collected(api, org, range, repoNames[..current])
      invariant calls == Trace(api, org, range, repoNames[..current], total)
    {
      assert repoNames[..current + 1][..current] == repoNames[..current];
      var repoName := repoNames[current];
      current := current + 1;
      calls := calls + [Progress(current, total, repoName)];
      allPRs, calls := CollectRepository(api, org, range, repoName, allPRs, calls);
    }
    assert repoNames[..current] == repoNames;
    r := Ok(SortNewestFirst(allPRs));
  }
}
