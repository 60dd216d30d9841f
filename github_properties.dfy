/**
 * What the GitHub service promises, stated over the specification
 * functions its methods are proved equal to: GetMergedPRs returns
 * MergedPRs and records Trace, GetOrganizationRepos returns
 * OrganizationRepos.
 */
module GitHubProperties {
  import opened Types
  import opened Utils
  import opened PRSort
  import opened GitHub

  // ---------------------------------------------------------------------------
  // One page of PRs

  /** The kept PRs of `items`, in order, with no early stop. */
  function KeptPRs(api: Api, org: string, range: DateRange, repo: string, items: seq<RawPR>): seq<PullRequest>
  {
    if items == [] then []
    else (if IsKept(items[0], range) then [ToPullRequest(api, org, repo, items[0])] else [])
         + KeptPRs(api, org, range, repo, items[1..])
  }

  /** The position of the first PR merged before the range, or |items| when there is none. */
  function FirstOld(items: seq<RawPR>, range: DateRange): (k: nat)
    ensures k <= |items|
    ensures forall j :: 0 <= j < k ==> !IsOld(items[j], range)
    ensures k < |items| ==> IsOld(items[k], range)
  {
    if items == [] then 0
    else if IsOld(items[0], range) then 0
    else 1 + FirstOld(items[1..], range)
  }

  /**
   * A page contributes exactly its kept PRs before the first PR merged
   * before `from`, and it ends the repository's scan exactly when it holds
   * such a PR.
   */
  lemma {:induction false} ScanItemsMeaning(api: Api, org: string, range: DateRange, repo: string, items: seq<RawPR>)
    ensures ScanItems(api, org, range, repo, items)
         == Scan(KeptPRs(api, org, range, repo, items[..FirstOld(items, range)]), FirstOld(items, range) < |items|)
  {
    if items != [] {
      ScanItemsMeaning(api, org, range, repo, items[1..]);
      if !IsOld(items[0], range) {
        var k := FirstOld(items[1..], range);
        assert items[..k + 1][1..] == items[1..][..k];
      }
    }
  }

  lemma {:induction false} KeptPRsMember(api: Api, org: string, range: DateRange, repo: string, items: seq<RawPR>, pr: PullRequest)
    ensures pr in KeptPRs(api, org, range, repo, items)
        <==> exists j :: 0 <= j < |items| && IsKept(items[j], range) && pr == ToPullRequest(api, org, repo, items[j])
  {
    if items != [] {
      KeptPRsMember(api, org, range, repo, items[1..], pr);
      if exists j :: 0 <= j < |items| && IsKept(items[j], range) && pr == ToPullRequest(api, org, repo, items[j]) {
        var j :| 0 <= j < |items| && IsKept(items[j], range) && pr == ToPullRequest(api, org, repo, items[j]);
        if j > 0 {
          assert items[1..][j - 1] == items[j];
        }
      }
      if pr in KeptPRs(api, org, range, repo, items[1..]) {
        var j :| 0 <= j < |items[1..]| && IsKept(items[1..][j], range) && pr == ToPullRequest(api, org, repo, items[1..][j]);
        assert items[j + 1] == items[1..][j];
      }
    }
  }

  /** Every PR a page contributes was listed on it, merged in range, and is built for this repository. */
  lemma ScanItemsSource(api: Api, org: string, range: DateRange, repo: string, items: seq<RawPR>, pr: PullRequest)
    requires pr in ScanItems(api, org, range, repo, items).prs
    ensures pr.repo == repo
    ensures exists raw :: raw in items && IsKept(raw, range) && pr == ToPullRequest(api, org, repo, raw)
  {
    ScanItemsMeaning(api, org, range, repo, items);
    var prefix := items[..FirstOld(items, range)];
    KeptPRsMember(api, org, range, repo, prefix, pr);
    var j :| 0 <= j < |prefix| && IsKept(prefix[j], range) && pr == ToPullRequest(api, org, repo, prefix[j]);
    assert prefix[j] in items;
  }

  /** A PR after the first PR merged before `from` is never looked at. */
  lemma {:induction false} ScanItemsStopsAt(api: Api, org: string, range: DateRange, repo: string,
                                            items: seq<RawPR>, stale: RawPR, more: seq<RawPR>)
    requires IsOld(stale, range)
    ensures ScanItems(api, org, range, repo, items + [stale] + more) == ScanItems(api, org, range, repo, items + [stale])
    ensures ScanItems(api, org, range, repo, items + [stale]).stopped
  {
    if items == [] {
      assert ([stale] + more)[0] == stale;
      assert [] + [stale] + more == [stale] + more;
    } else {
      assert (items + [stale] + more)[1..] == items[1..] + [stale] + more;
      assert (items + [stale])[1..] == items[1..] + [stale];
      ScanItemsStopsAt(api, org, range, repo, items[1..], stale, more);
    }
  }

  /** An unmerged PR, or one merged after the end of the range, is skipped and the scan goes on. */
  lemma {:induction false} ScanItemsSkips(api: Api, org: string, range: DateRange, repo: string,
                                          items: seq<RawPR>, pr: RawPR, more: seq<RawPR>)
    requires !IsKept(pr, range) && !IsOld(pr, range)
    ensures ScanItems(api, org, range, repo, items + [pr] + more) == ScanItems(api, org, range, repo, items + more)
  {
    if items == [] {
      assert ([pr] + more)[1..] == more;
      assert [] + [pr] + more == [pr] + more;
      assert [] + more == more;
    } else {
      assert (items + [pr] + more)[1..] == items[1..] + [pr] + more;
      assert (items + more)[1..] == items[1..] + more;
      ScanItemsSkips(api, org, range, repo, items[1..], pr, more);
    }
  }

  // ---------------------------------------------------------------------------
  // The pages of one repository

  /** A page that ends the repository's scan: a failed request, or a page holding a PR merged before `from`. */
  predicate EndsScan(api: Api, org: string, range: DateRange, repo: string, page: PageResult<RawPR>)
  {
    page.Failed? || ScanItems(api, org, range, repo, page.items).stopped
  }

  /**
   * The pages requested are numbered 0, 1, ... in order; every page but the
   * last one requested lets the scan go on; the scan has ended exactly when
   * that last page ends it, and otherwise every page was requested.
   */
  lemma {:induction false} PageRequests(api: Api, org: string, range: DateRange, repo: string, pages: seq<PageResult<RawPR>>)
    ensures var s := ScanPages(api, org, range, repo, pages);
      && |s.calls| <= |pages|
      && (forall j :: 0 <= j < |s.calls| ==> s.calls[j] == PullsPage(repo, j))
      && (forall j :: 0 <= j < |s.calls| - 1 ==> !EndsScan(api, org, range, repo, pages[j]))
      && (s.halted <==> 0 < |s.calls| && EndsScan(api, org, range, repo, pages[|s.calls| - 1]))
      && (!s.halted ==> |s.calls| == |pages|)
  {
    if pages != [] {
      var init := pages[..|pages| - 1];
      PageRequests(api, org, range, repo, init);
      assert forall j :: 0 <= j < |init| ==> init[j] == pages[j];
    }
  }

  /** Reading more pages only extends what was pushed and requested. */
  lemma {:induction false} ScanPagesPrefix(api: Api, org: string, range: DateRange, repo: string,
                                           pages: seq<PageResult<RawPR>>, i: nat)
    requires i <= |pages|
    ensures ScanPages(api, org, range, repo, pages[..i]).prs <= ScanPages(api, org, range, repo, pages).prs
    ensures ScanPages(api, org, range, repo, pages[..i]).calls <= ScanPages(api, org, range, repo, pages).calls
  {
    if i < |pages| {
      var init := pages[..|pages| - 1];
      assert init[..i] == pages[..i];
      ScanPagesPrefix(api, org, range, repo, init, i);
    } else {
      assert pages[..i] == pages;
    }
  }

  /** Every PR a repository contributes comes from one of its pages. */
  lemma {:induction false} ScanPagesSource(api: Api, org: string, range: DateRange, repo: string,
                                           pages: seq<PageResult<RawPR>>, pr: PullRequest)
    requires pr in ScanPages(api, org, range, repo, pages).prs
    ensures exists j :: 0 <= j < |pages| && pages[j].Page? && pr in ScanItems(api, org, range, repo, pages[j].items).prs
  {
    var init := pages[..|pages| - 1];
    var before := ScanPages(api, org, range, repo, init);
    if pr in before.prs {
      ScanPagesSource(api, org, range, repo, init, pr);
      var j :| 0 <= j < |init| && init[j].Page? && pr in ScanItems(api, org, range, repo, init[j].items).prs;
      assert pages[j] == init[j];
    }
  }

  /**
   * Early stop: once a page holds a PR merged before `from`, neither the
   * rest of that page nor any later page is examined; the PRs pushed and
   * the requests made are those up to that PR.
   */
  lemma EarlyStop(api: Api, org: string, range: DateRange, repo: string, done: seq<PageResult<RawPR>>,
                  items: seq<RawPR>, stale: RawPR, more: seq<RawPR>, later: seq<PageResult<RawPR>>)
    requires IsOld(stale, range)
    ensures ScanPages(api, org, range, repo, done + [Page(items + [stale] + more)] + later)
         == ScanPages(api, org, range, repo, done + [Page(items + [stale])])
    ensures ScanPages(api, org, range, repo, done + [Page(items + [stale])]).halted
  {
    ScanItemsStopsAt(api, org, range, repo, items, stale, more);
    var full := done + [Page(items + [stale] + more)] + later;
    var cut := done + [Page(items + [stale])];
    assert full[..|done| + 1][..|done|] == done;
    assert cut[..|done|] == done;
    HaltedStays(api, org, range, repo, full, |done| + 1);
  }

  /** Two listings that differ in one page which the scan treats alike give the same outcome. */
  lemma {:induction false} SamePageOutcome(api: Api, org: string, range: DateRange, repo: string,
                                           done: seq<PageResult<RawPR>>, a: seq<RawPR>, b: seq<RawPR>,
                                           later: seq<PageResult<RawPR>>)
    requires ScanItems(api, org, range, repo, a) == ScanItems(api, org, range, repo, b)
    ensures ScanPages(api, org, range, repo, done + [Page(a)] + later)
         == ScanPages(api, org, range, repo, done + [Page(b)] + later)
  {
    if later == [] {
      assert (done + [Page(a)] + later)[..|done|] == done;
      assert (done + [Page(b)] + later)[..|done|] == done;
    } else {
      var init := later[..|later| - 1];
      var x := later[|later| - 1];
      var withA, withB := done + [Page(a)] + init, done + [Page(b)] + init;
      assert done + [Page(a)] + later == withA + [x];
      assert done + [Page(b)] + later == withB + [x];
      assert (withA + [x])[..|withA|] == withA;
      assert (withB + [x])[..|withB|] == withB;
      SamePageOutcome(api, org, range, repo, done, a, b, init);
      assert ScanPages(api, org, range, repo, withA + [x])
          == NextPage(api, org, range, repo, ScanPages(api, org, range, repo, withA), |withA|, x);
    }
  }

  /** An unmerged PR, or one merged after the end of the `to` day, changes nothing: scanning continues past it. */
  lemma SkippedPRIsInvisible(api: Api, org: string, range: DateRange, repo: string, done: seq<PageResult<RawPR>>,
                             items: seq<RawPR>, pr: RawPR, more: seq<RawPR>, later: seq<PageResult<RawPR>>)
    requires pr.mergedAt.None? || (pr.mergedAt.value >= range.from && pr.mergedAt.value > EndOfDay(range.to, range.offset))
    ensures ScanPages(api, org, range, repo, done + [Page(items + [pr] + more)] + later)
         == ScanPages(api, org, range, repo, done + [Page(items + more)] + later)
  {
    ScanItemsSkips(api, org, range, repo, items, pr, more);
    SamePageOutcome(api, org, range, repo, done, items + [pr] + more, items + more, later);
  }

  /**
   * A failed page request ends the repository: the PRs pushed from earlier
   * pages stay, the failed request is the last one made, and later pages
   * are not requested.
   */
  lemma FailedPage(api: Api, org: string, range: DateRange, repo: string, done: seq<PageResult<RawPR>>,
                   status: int, later: seq<PageResult<RawPR>>)
    requires !ScanPages(api, org, range, repo, done).halted
    ensures var before := ScanPages(api, org, range, repo, done);
      ScanPages(api, org, range, repo, done + [Failed(status)] + later)
        == RepoScan(before.prs, before.calls + [PullsPage(repo, |done|)], true)
  {
    var full := done + [Failed(status)] + later;
    assert full[..|done| + 1][..|done|] == done;
    assert full[..|done| + 1][|done|] == Failed(status);
    HaltedStays(api, org, range, repo, full, |done| + 1);
  }

  // ---------------------------------------------------------------------------
  // All repositories

  lemma {:induction false} CollectedAppend(api: Api, org: string, range: DateRange, a: seq<string>, b: seq<string>)
    ensures Collected(api, org, range, a + b) == Collected(api, org, range, a) + Collected(api, org, range, b)
  {
    if b == [] {
      assert a + b == a;
    } else {
      var init := b[..|b| - 1];
      assert (a + b)[..|a + b| - 1] == a + init;
      CollectedAppend(api, org, range, a, init);
    }
  }

  /**
   * A repository whose page request fails keeps the PRs it already
   * contributed, and the repositories after it are processed as usual.
   */
  lemma FailureIsContained(api: Api, org: string, range: DateRange, before: seq<string>, bad: string, after: seq<string>,
                           done: seq<PageResult<RawPR>>, status: int, later: seq<PageResult<RawPR>>)
    requires api.listPulls(org, bad) == done + [Failed(status)] + later
    requires !ScanPages(api, org, range, bad, done).halted
    ensures Collected(api, org, range, before + [bad] + after)
         == Collected(api, org, range, before) + ScanPages(api, org, range, bad, done).prs + Collected(api, org, range, after)
  {
    FailedPage(api, org, range, bad, done, status, later);
    CollectedAppend(api, org, range, before + [bad], after);
    assert (before + [bad])[..|before|] == before;
  }

  lemma {:induction false} CollectedSource(api: Api, org: string, range: DateRange, repoNames: seq<string>, pr: PullRequest)
    requires pr in Collected(api, org, range, repoNames)
    ensures exists k :: 0 <= k < |repoNames| && pr in RepoOutcome(api, org, range, repoNames[k]).prs
  {
    var init := repoNames[..|repoNames| - 1];
    if pr in Collected(api, org, range, init) {
      CollectedSource(api, org, range, init, pr);
      var k :| 0 <= k < |init| && pr in RepoOutcome(api, org, range, init[k]).prs;
      assert repoNames[k] == init[k];
    }
  }

  /** A raw PR that appears on some page of a listing. */
  predicate InListing(pages: seq<PageResult<RawPR>>, raw: RawPR)
  {
    exists j :: 0 <= j < |pages| && pages[j].Page? && raw in pages[j].items
  }

  /**
   * Every PR returned was listed for one of the named repositories, was
   * merged, has its merge time in range, and is the record built from it.
   */
  lemma ResultIsInRange(api: Api, org: string, repoNames: seq<string>, range: DateRange, pr: PullRequest)
    requires HasToken(api)
    requires pr in MergedPRs(api, org, repoNames, range).value
    ensures IsDateInRange(pr.mergedAt, range.from, range.to, range.offset)
    ensures pr.repo in repoNames
    ensures exists raw :: InListing(api.listPulls(org, pr.repo), raw) && IsKept(raw, range)
                          && raw.mergedAt == Some(pr.mergedAt) && pr == ToPullRequest(api, org, pr.repo, raw)
  {
    var all := Collected(api, org, range, repoNames);
    assert pr in multiset(SortNewestFirst(all));
    CollectedSource(api, org, range, repoNames, pr);
    var k :| 0 <= k < |repoNames| && pr in RepoOutcome(api, org, range, repoNames[k]).prs;
    var pages := api.listPulls(org, repoNames[k]);
    ScanPagesSource(api, org, range, repoNames[k], pages, pr);
    var j :| 0 <= j < |pages| && pages[j].Page? && pr in ScanItems(api, org, range, repoNames[k], pages[j].items).prs;
    ScanItemsSource(api, org, range, repoNames[k], pages[j].items, pr);
    var raw :| raw in pages[j].items && IsKept(raw, range) && pr == ToPullRequest(api, org, repoNames[k], raw);
    assert InListing(pages, raw);
  }

  /**
   * The result is newest first, holds exactly the collected PRs, and PRs
   * merged at the same instant keep the order in which they were found.
   */
  lemma ResultIsSortedCollection(api: Api, org: string, repoNames: seq<string>, range: DateRange)
    requires HasToken(api)
    ensures var r := MergedPRs(api, org, repoNames, range).value;
      && NewestFirst(r)
      && multiset(r) == multiset(Collected(api, org, range, repoNames))
      && forall t :: MergedAtTime(r, t) == MergedAtTime(Collected(api, org, range, repoNames), t)
  {
    forall t ensures MergedAtTime(SortNewestFirst(Collected(api, org, range, repoNames)), t)
                  == MergedAtTime(Collected(api, org, range, repoNames), t) {
      SortIsStable(Collected(api, org, range, repoNames), t);
    }
  }

  /** When no page before page p ended the scan, pages 0..p-1 were all requested and the scan is still going. */
  lemma ReachedPage(api: Api, org: string, range: DateRange, repo: string, pages: seq<PageResult<RawPR>>, p: nat)
    requires p <= |pages|
    requires forall q :: 0 <= q < p ==> !EndsScan(api, org, range, repo, pages[q])
    ensures !ScanPages(api, org, range, repo, pages[..p]).halted
    ensures |ScanPages(api, org, range, repo, pages[..p]).calls| == p
  {
    PageRequests(api, org, range, repo, pages[..p]);
  }

  /** A kept PR with no PR merged before `from` ahead of it on its page is on that page's contribution. */
  lemma ReachedOnPage(api: Api, org: string, range: DateRange, repo: string, items: seq<RawPR>, j: nat)
    requires j < |items|
    requires forall i :: 0 <= i < j ==> !IsOld(items[i], range)
    requires IsKept(items[j], range)
    ensures ToPullRequest(api, org, repo, items[j]) in ScanItems(api, org, range, repo, items).prs
  {
    var stop := FirstOld(items, range);
    assert j < stop;
    ScanItemsMeaning(api, org, range, repo, items);
    KeptPRsMember(api, org, range, repo, items[..stop], ToPullRequest(api, org, repo, items[j]));
    assert items[..stop][j] == items[j];
  }

  /** What a requested page contributes is pushed for its repository. */
  lemma ReachedInRepository(api: Api, org: string, range: DateRange, repo: string, pages: seq<PageResult<RawPR>>,
                            p: nat, pr: PullRequest)
    requires p < |pages| && pages[p].Page?
    requires forall q :: 0 <= q < p ==> !EndsScan(api, org, range, repo, pages[q])
    requires pr in ScanItems(api, org, range, repo, pages[p].items).prs
    ensures pr in ScanPages(api, org, range, repo, pages).prs
  {
    ReachedPage(api, org, range, repo, pages, p);
    assert pages[..p + 1][..p] == pages[..p];
    assert pages[..p + 1][p] == pages[p];
    var upTo := ScanPages(api, org, range, repo, pages[..p + 1]).prs;
    assert pr in upTo;
    ScanPagesPrefix(api, org, range, repo, pages, p + 1);
    var i :| 0 <= i < |upTo| && upTo[i] == pr;
    assert ScanPages(api, org, range, repo, pages).prs[i] == pr;
  }

  /** What a repository contributes is collected, whatever the other repositories do. */
  lemma CollectedIncludes(api: Api, org: string, range: DateRange, repoNames: seq<string>, k: nat, pr: PullRequest)
    requires k < |repoNames|
    requires pr in RepoOutcome(api, org, range, repoNames[k]).prs
    ensures pr in Collected(api, org, range, repoNames)
  {
    CollectedAppend(api, org, range, repoNames[..k + 1], repoNames[k + 1..]);
    assert repoNames[..k + 1] + repoNames[k + 1..] == repoNames;
    assert repoNames[..k + 1][..k] == repoNames[..k];
  }

  /**
   * Every kept PR that the scan reaches (its page is requested and no PR
   * merged before `from` precedes it on that page) is returned, and when
   * its commit request fails it is returned with no commits.
   */
  lemma ReachedPRIsReturned(api: Api, org: string, repoNames: seq<string>, range: DateRange, k: nat, p: nat, j: nat)
    requires HasToken(api)
    requires k < |repoNames|
    requires p < |api.listPulls(org, repoNames[k])|
    requires api.listPulls(org, repoNames[k])[p].Page?
    requires j < |api.listPulls(org, repoNames[k])[p].items|
    requires forall q :: 0 <= q < p ==> !EndsScan(api, org, range, repoNames[k], api.listPulls(org, repoNames[k])[q])
    requires forall i :: 0 <= i < j ==> !IsOld(api.listPulls(org, repoNames[k])[p].items[i], range)
    requires IsKept(api.listPulls(org, repoNames[k])[p].items[j], range)
    ensures var raw := api.listPulls(org, repoNames[k])[p].items[j];
      && ToPullRequest(api, org, repoNames[k], raw) in MergedPRs(api, org, repoNames, range).value
      && (api.listCommits(org, repoNames[k], raw.number).Failed? ==> ToPullRequest(api, org, repoNames[k], raw).commits == [])
  {
    var repo := repoNames[k];
    var pages := api.listPulls(org, repo);
    var pr := ToPullRequest(api, org, repo, pages[p].items[j]);
    ReachedOnPage(api, org, range, repo, pages[p].items, j);
    ReachedInRepository(api, org, range, repo, pages, p, pr);
    CollectedIncludes(api, org, range, repoNames, k, pr);
    assert pr in multiset(SortNewestFirst(Collected(api, org, range, repoNames)));
  }

  // ---------------------------------------------------------------------------
  // Commits of a PR

  /**
   * Each commit of a successful response keeps its sha, the first line of
   * its message, the first non-empty of account login, git author name and
   * "unknown", and the git author date or "".
   */
  lemma CommitFields(api: Api, owner: string, repo: string, number: int)
    requires api.listCommits(owner, repo, number).Page?
    ensures var data := api.listCommits(owner, repo, number).items;
      var commits := PRCommits(api, owner, repo, number);
      && |commits| == |data|
      && forall i :: 0 <= i < |data| ==>
        var c := commits[i];
        && c.sha == data[i].sha
        && '\n' !in c.message && c.message <= data[i].message
        && (|c.message| < |data[i].message| ==> data[i].message[|c.message|] == '\n')
        && c.author == (if data[i].authorLogin.Some? && data[i].authorLogin.value != "" then data[i].authorLogin.value
                        else if data[i].authorName.Some? && data[i].authorName.value != "" then data[i].authorName.value
                        else "unknown")
        && c.date == (if data[i].authorDate.Some? then data[i].authorDate.value else "")
  {
    var data := api.listCommits(owner, repo, number).items;
    forall i | 0 <= i < |data|
      ensures PRCommits(api, owner, repo, number)[i] == ToCommit(data[i])
    {
      ToCommitsAt(data, i);
    }
  }

  // ---------------------------------------------------------------------------
  // Progress reports

  /** The progress reports of a trace, in order. */
  function Reports(calls: seq<Call>): seq<Call>
  {
    if calls == [] then []
    else Reports(calls[..|calls| - 1]) + (if calls[|calls| - 1].Progress? then [calls[|calls| - 1]] else [])
  }

  lemma {:induction false} ReportsAppend(a: seq<Call>, b: seq<Call>)
    ensures Reports(a + b) == Reports(a) + Reports(b)
  {
    if b == [] {
      assert a + b == a;
    } else {
      assert (a + b)[..|a + b| - 1] == a + b[..|b| - 1];
      ReportsAppend(a, b[..|b| - 1]);
    }
  }

  lemma {:induction false} NoReports(calls: seq<Call>)
    requires forall j :: 0 <= j < |calls| ==> calls[j].PullsPage?
    ensures Reports(calls) == []
  {
    if calls != [] {
      NoReports(calls[..|calls| - 1]);
    }
  }

  lemma RequestsOnly(api: Api, org: string, range: DateRange, repo: string)
    ensures Reports(RepoOutcome(api, org, range, repo).calls) == []
  {
    PageRequests(api, org, range, repo, api.listPulls(org, repo));
    NoReports(RepoOutcome(api, org, range, repo).calls);
  }

  /** The progress callback runs once per repository, in order, with (k, n, repoNames[k-1]). */
  lemma {:induction false} ProgressOncePerRepository(api: Api, org: string, range: DateRange, repoNames: seq<string>, total: nat)
    ensures |Reports(Trace(api, org, range, repoNames, total))| == |repoNames|
    ensures forall k :: 0 <= k < |repoNames| ==>
      Reports(Trace(api, org, range, repoNames, total))[k] == Progress(k + 1, total, repoNames[k])
  {
    if repoNames != [] {
      var init := repoNames[..|repoNames| - 1];
      var last := repoNames[|repoNames| - 1];
      var calls := RepoOutcome(api, org, range, last).calls;
      var before := Trace(api, org, range, init, total);
      var report := Progress(|repoNames|, total, last);
      ProgressOncePerRepository(api, org, range, init, total);
      RequestsOnly(api, org, range, last);
      ReportsAppend(before + [report], calls);
      ReportsAppend(before, [report]);
      assert [report][..0] == [];
      var reports := Reports(Trace(api, org, range, repoNames, total));
      assert reports == Reports(before) + [report];
      forall k | 0 <= k < |repoNames|
        ensures reports[k] == Progress(k + 1, total, repoNames[k])
      {
        if k < |init| {
          assert reports[k] == Reports(before)[k];
          assert repoNames[k] == init[k];
        }
      }
    }
  }

  lemma {:induction false} TracePrefix(api: Api, org: string, range: DateRange, repoNames: seq<string>, total: nat, j: nat)
    requires j <= |repoNames|
    ensures Trace(api, org, range, repoNames[..j], total) <= Trace(api, org, range, repoNames, total)
  {
    if j < |repoNames| {
      var init := repoNames[..|repoNames| - 1];
      assert init[..j] == repoNames[..j];
      TracePrefix(api, org, range, init, total, j);
    } else {
      assert repoNames[..j] == repoNames;
    }
  }

  /**
   * Repository k's progress report comes after all calls made for the
   * repositories before it and immediately before its own page requests.
   */
  lemma ProgressBeforeFetch(api: Api, org: string, range: DateRange, repoNames: seq<string>, total: nat, k: nat)
    requires k < |repoNames|
    ensures Trace(api, org, range, repoNames[..k], total)
            + [Progress(k + 1, total, repoNames[k])]
            + RepoOutcome(api, org, range, repoNames[k]).calls
         <= Trace(api, org, range, repoNames, total)
  {
    TracePrefix(api, org, range, repoNames, total, k + 1);
    assert repoNames[..k + 1][..k] == repoNames[..k];
  }

  // ---------------------------------------------------------------------------
  // Repository listing

  /** The items of all pages up to the first failure, in page order. */
  function AllItems(pages: seq<PageResult<RawRepo>>): seq<RawRepo>
  {
    if pages == [] then []
    else match pages[0]
      case Failed(_) => []
      case Page(items) => items + AllItems(pages[1..])
  }

  lemma {:induction false} ToRepositoriesAppend(a: seq<RawRepo>, b: seq<RawRepo>)
    ensures ToRepositories(a + b) == ToRepositories(a) + ToRepositories(b)
  {
    if a != [] {
      assert (a + b)[1..] == a[1..] + b;
      ToRepositoriesAppend(a[1..], b);
    } else {
      assert a + b == b;
    }
  }

  lemma {:induction false} ToRepositoriesAt(raws: seq<RawRepo>, i: nat)
    requires i < |raws|
    ensures ToRepositories(raws)[i] == ToRepository(raws[i])
  {
    if i > 0 {
      ToRepositoriesAt(raws[1..], i - 1);
    }
  }

  /** The repositories listed are those of every page read, converted one by one, in page order. */
  lemma {:induction false} ListedInPageOrder(pages: seq<PageResult<RawRepo>>)
    ensures Listed(pages) == ToRepositories(AllItems(pages))
    ensures forall i :: 0 <= i < |AllItems(pages)| ==>
      Listed(pages)[i] == ToRepository(AllItems(pages)[i]) && Listed(pages)[i].updatedAt == OrElse(AllItems(pages)[i].updatedAt, "")
  {
    if pages != [] && pages[0].Page? {
      ListedInPageOrder(pages[1..]);
      ToRepositoriesAppend(pages[0].items, AllItems(pages[1..]));
    }
    forall i | 0 <= i < |AllItems(pages)| ensures ToRepositories(AllItems(pages))[i] == ToRepository(AllItems(pages)[i]) {
      ToRepositoriesAt(AllItems(pages), i);
    }
  }

  /** A listing with no failed request: every repository of every page, in page order. */
  lemma {:induction false} NoFailure(pages: seq<PageResult<RawRepo>>)
    requires forall j :: 0 <= j < |pages| ==> pages[j].Page?
    ensures FirstFailure(pages) == None
    ensures forall j, k :: 0 <= j < |pages| && 0 <= k < |pages[j].items| ==>
      ToRepository(pages[j].items[k]) in Listed(pages)
  {
    if pages != [] {
      NoFailure(pages[1..]);
      var items := pages[0].items;
      assert Listed(pages) == ToRepositories(items) + Listed(pages[1..]);
      forall j, k | 0 <= j < |pages| && 0 <= k < |pages[j].items|
        ensures ToRepository(pages[j].items[k]) in Listed(pages)
      {
        if j == 0 {
          ToRepositoriesAt(items, k);
          assert ToRepositories(items)[k] == ToRepository(pages[j].items[k]);
        } else {
          assert pages[1..][j - 1] == pages[j];
        }
      }
    }
  }

  /** A listing whose first failure follows the pages `done`. */
  lemma {:induction false} FailsAfter(done: seq<PageResult<RawRepo>>, status: int, later: seq<PageResult<RawRepo>>)
    requires forall j :: 0 <= j < |done| ==> done[j].Page?
    ensures FirstFailure(done + [Failed(status)] + later) == Some(status)
    ensures Listed(done + [Failed(status)] + later) == Listed(done)
  {
    if done == [] {
      assert ([] + [Failed(status)] + later)[0] == Failed(status);
    } else {
      assert (done + [Failed(status)] + later)[1..] == done[1..] + [Failed(status)] + later;
      FailsAfter(done[1..], status, later);
    }
  }

  /** When the organisation listing succeeds, the result is all its repositories in page order. */
  lemma OrgListingSucceeds(api: Api, org: string)
    requires HasToken(api)
    requires forall j :: 0 <= j < |api.listForOrg(org)| ==> api.listForOrg(org)[j].Page?
    ensures OrganizationRepos(api, org) == Ok(ToRepositories(AllItems(api.listForOrg(org))))
  {
    NoFailure(api.listForOrg(org));
    ListedInPageOrder(api.listForOrg(org));
  }

  /**
   * A 404 from the organisation listing appends the user listing to the
   * repositories already collected from earlier pages.
   */
  lemma OrgNotFoundFallsBack(api: Api, org: string, done: seq<PageResult<RawRepo>>, later: seq<PageResult<RawRepo>>)
    requires HasToken(api)
    requires api.listForOrg(org) == done + [Failed(404)] + later
    requires forall j :: 0 <= j < |done| ==> done[j].Page?
    requires forall j :: 0 <= j < |api.listForUser(org)| ==> api.listForUser(org)[j].Page?
    ensures OrganizationRepos(api, org) == Ok(Listed(done) + ToRepositories(AllItems(api.listForUser(org))))
  {
    FailsAfter(done, 404, later);
    NoFailure(api.listForUser(org));
    ListedInPageOrder(api.listForUser(org));
  }

  /** A 404 before any organisation page gives exactly the user listing. */
  lemma OrgNotFoundAtOnce(api: Api, org: string, later: seq<PageResult<RawRepo>>)
    requires HasToken(api)
    requires api.listForOrg(org) == [Failed(404)] + later
    requires forall j :: 0 <= j < |api.listForUser(org)| ==> api.listForUser(org)[j].Page?
    ensures OrganizationRepos(api, org) == Ok(ToRepositories(AllItems(api.listForUser(org))))
  {
    assert [] + [Failed(404)] + later == [Failed(404)] + later;
    OrgNotFoundFallsBack(api, org, [], later);
    var users := ToRepositories(AllItems(api.listForUser(org)));
    assert Listed([]) + users == users;
  }

  /** Any other failure of the organisation listing is raised with its status. */
  lemma OrgFailureIsRaised(api: Api, org: string, done: seq<PageResult<RawRepo>>, status: int, later: seq<PageResult<RawRepo>>)
    requires HasToken(api)
    requires api.listForOrg(org) == done + [Failed(status)] + later
    requires forall j :: 0 <= j < |done| ==> done[j].Page?
    requires status != 404
    ensures OrganizationRepos(api, org) == Err(RequestFailed(status))
  {
    FailsAfter(done, status, later);
  }

  /** A failure of the user listing after a 404 is raised with its status. */
  lemma UserFailureIsRaised(api: Api, org: string, done: seq<PageResult<RawRepo>>, later: seq<PageResult<RawRepo>>,
                            userDone: seq<PageResult<RawRepo>>, status: int, userLater: seq<PageResult<RawRepo>>)
    requires HasToken(api)
    requires api.listForOrg(org) == done + [Failed(404)] + later
    requires forall j :: 0 <= j < |done| ==> done[j].Page?
    requires api.listForUser(org) == userDone + [Failed(status)] + userLater
    requires forall j :: 0 <= j < |userDone| ==> userDone[j].Page?
    ensures OrganizationRepos(api, org) == Err(RequestFailed(status))
  {
    FailsAfter(done, 404, later);
    FailsAfter(userDone, status, userLater);
  }
}
