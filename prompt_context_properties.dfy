/**
 * What buildPRContext promises, stated over PRContext, which the method
 * BuildPRContext is proved to return.
 */
module PromptContextProperties {
  import opened Types
  import opened Decimal
  import opened PromptContext

  predicate Distinct(s: seq<string>)
  {
    forall i, j :: 0 <= i < j < |s| ==> s[i] != s[j]
  }

  // ---------------------------------------------------------------------------
  // Repository sections

  /** The position of the first PR of `repo`, or |prs| when it has none. */
  function FirstIndex(prs: seq<PullRequest>, repo: string): (f: nat)
    ensures f <= |prs|
    ensures forall j :: 0 <= j < f ==> prs[j].repo != repo
    ensures f < |prs| ==> prs[f].repo == repo
  {
    if prs == [] then 0
    else
      var before := FirstIndex(prs[..|prs| - 1], repo);
      if before < |prs| - 1 then before
      else if prs[|prs| - 1].repo == repo then |prs| - 1
      else |prs|
  }

  /** Each repository of the input gets exactly one key, and keys are ordered by first appearance. */
  lemma {:induction false} FirstAppearanceKeys(prs: seq<PullRequest>)
    ensures var keys := FirstAppearance(prs);
      && Distinct(keys)
      && (forall k :: k in keys <==> FirstIndex(prs, k) < |prs|)
      && (forall i, j :: 0 <= i < j < |keys| ==> FirstIndex(prs, keys[i]) < FirstIndex(prs, keys[j]))
  {
    if prs != [] {
      var init := prs[..|prs| - 1];
      var last := prs[|prs| - 1].repo;
      FirstAppearanceKeys(init);
      assert forall j :: 0 <= j < |init| ==> init[j] == prs[j];
    }
  }

  lemma {:induction false} DistinctCounts(s: seq<string>)
    ensures Distinct(s) <==> forall x :: multiset(s)[x] <= 1
  {
    if s != [] {
      var rest := s[1..];
      DistinctCounts(rest);
      assert s == [s[0]] + rest;
      assert multiset(s) == multiset{s[0]} + multiset(rest);
      if Distinct(s) {
        assert s[0] !in rest;
        assert Distinct(rest) by {
          forall i, j | 0 <= i < j < |rest| ensures rest[i] != rest[j] {
            assert s[i + 1] != s[j + 1];
          }
        }
      }
      if forall x :: multiset(s)[x] <= 1 {
        assert forall x :: multiset(rest)[x] <= 1 by {
          forall x ensures multiset(rest)[x] <= 1 {
            assert multiset(s)[x] <= 1;
          }
        }
        assert multiset(rest)[s[0]] == 0 by {
          assert multiset(s)[s[0]] <= 1;
        }
        forall i, j | 0 <= i < j < |s| ensures s[i] != s[j] {
          if i == 0 {
            assert s[j] in rest;
          } else {
            assert rest[i - 1] != rest[j - 1];
          }
        }
      }
    }
  }

  lemma {:induction false} FiltersPartition(keys: seq<string>)
    ensures multiset(IndexKeys(keys)) + multiset(OtherKeys(keys)) == multiset(keys)
  {
    if keys != [] {
      var init := keys[..|keys| - 1];
      var last := keys[|keys| - 1];
      FiltersPartition(init);
      assert keys == init + [last];
      assert multiset(keys) == multiset(init) + multiset{last};
      if IsArrayIndex(last) {
        assert multiset(IndexKeys(keys)) == multiset(IndexKeys(init)) + multiset{last};
        assert OtherKeys(keys) == OtherKeys(init);
      } else {
        assert IndexKeys(keys) == IndexKeys(init);
        assert multiset(OtherKeys(keys)) == multiset(OtherKeys(init)) + multiset{last};
      }
    }
  }

  lemma {:induction false} NoIndexKeys(keys: seq<string>)
    requires forall i :: 0 <= i < |keys| ==> !IsArrayIndex(keys[i])
    ensures IndexKeys(keys) == [] && OtherKeys(keys) == keys
  {
    if keys != [] {
      NoIndexKeys(keys[..|keys| - 1]);
      assert keys == keys[..|keys| - 1] + [keys[|keys| - 1]];
    }
  }

  /**
   * Object.entries lists every created key once: the array-index keys
   * first, ascending by value, then the others in the order created; with
   * no array-index key that is just the creation order.
   */
  lemma EntriesOrderFacts(keys: seq<string>)
    requires Distinct(keys)
    ensures multiset(EntriesOrder(keys)) == multiset(keys)
    ensures Distinct(EntriesOrder(keys))
    ensures var n := |IndexKeys(keys)|;
      && (forall i :: 0 <= i < n ==> IsArrayIndex(EntriesOrder(keys)[i]))
      && (forall i, j :: 0 <= i < j < n ==> IndexValue(EntriesOrder(keys)[i]) <= IndexValue(EntriesOrder(keys)[j]))
      && (forall i :: n <= i < |EntriesOrder(keys)| ==> !IsArrayIndex(EntriesOrder(keys)[i]))
    ensures (forall i :: 0 <= i < |keys| ==> !IsArrayIndex(keys[i])) ==> EntriesOrder(keys) == keys
  {
    var sorted := SortByValue(IndexKeys(keys));
    FiltersPartition(keys);
    DistinctCounts(keys);
    DistinctCounts(EntriesOrder(keys));
    forall i | 0 <= i < |sorted| ensures IsArrayIndex(sorted[i]) {
      assert sorted[i] in multiset(IndexKeys(keys));
    }
    if forall i :: 0 <= i < |keys| ==> !IsArrayIndex(keys[i]) {
      NoIndexKeys(keys);
    }
  }

  /**
   * The context has one section per repository of the input, each listed
   * once; without array-index repository names the sections follow the
   * order in which each repository first appears.
   */
  lemma RepositorySections(prs: seq<PullRequest>)
    ensures var entries := EntriesOrder(FirstAppearance(prs));
      && Distinct(entries)
      && (forall k :: k in entries <==> exists i :: 0 <= i < |prs| && prs[i].repo == k)
      && ((forall i :: 0 <= i < |prs| ==> !IsArrayIndex(prs[i].repo)) ==> entries == FirstAppearance(prs))
  {
    var keys := FirstAppearance(prs);
    FirstAppearanceKeys(prs);
    EntriesOrderFacts(keys);
    forall k ensures k in EntriesOrder(keys) <==> exists i :: 0 <= i < |prs| && prs[i].repo == k {
      EntriesMember(keys, k);
      if exists i :: 0 <= i < |prs| && prs[i].repo == k {
        var i :| 0 <= i < |prs| && prs[i].repo == k;
        assert FirstIndex(prs, k) <= i;
      }
    }
    if forall i :: 0 <= i < |prs| ==> !IsArrayIndex(prs[i].repo) {
      forall i | 0 <= i < |keys| ensures !IsArrayIndex(keys[i]) {
        assert keys[i] in keys;
        assert prs[FirstIndex(prs, keys[i])].repo == keys[i];
      }
    }
  }

  // ---------------------------------------------------------------------------
  // PR blocks

  lemma {:induction false} GroupFacts(prs: seq<PullRequest>, repo: string, n: nat)
    requires n <= |prs|
    ensures forall i :: 0 <= i < |Group(prs, repo)| ==> Group(prs, repo)[i].repo == repo
    ensures Group(prs[..n], repo) <= Group(prs, repo)
  {
    if prs != [] {
      var init := prs[..|prs| - 1];
      if n < |prs| {
        assert init[..n] == prs[..n];
        GroupFacts(init, repo, n);
      } else {
        GroupFacts(init, repo, 0);
        assert prs[..n] == prs;
      }
    }
  }

  lemma {:induction false} GroupCount(prs: seq<PullRequest>, pr: PullRequest)
    ensures multiset(Group(prs, pr.repo))[pr] == multiset(prs)[pr]
  {
    if prs != [] {
      GroupCount(prs[..|prs| - 1], pr);
      assert prs == prs[..|prs| - 1] + [prs[|prs| - 1]];
    }
  }

  /**
   * Every PR of the input is rendered in the section of its repository,
   * as often as it occurs in the input, and in no other section; within a
   * section the PRs keep their input order.
   */
  lemma EveryPRInItsSection(prs: seq<PullRequest>, i: nat, n: nat)
    requires i < |prs| && n <= |prs|
    ensures prs[i].repo in EntriesOrder(FirstAppearance(prs))
    ensures multiset(Group(prs, prs[i].repo))[prs[i]] == multiset(prs)[prs[i]]
    ensures forall k :: prs[i] in Group(prs, k) ==> k == prs[i].repo
    ensures Group(prs[..n], prs[i].repo) <= Group(prs, prs[i].repo)
  {
    RepositorySections(prs);
    GroupCount(prs, prs[i]);
    GroupFacts(prs, prs[i].repo, n);
    forall k | prs[i] in Group(prs, k) ensures k == prs[i].repo {
      GroupFacts(prs, k, 0);
    }
  }

  lemma Assoc(a: string, b: string, c: string)
    ensures a + b + c == a + (b + c)
  {
  }

  /** The text of a list of lines. */
  function Concat(lines: seq<string>): string
  {
    if lines == [] then "" else Concat(lines[..|lines| - 1]) + lines[|lines| - 1]
  }

  lemma {:induction false} ConcatAppend(a: seq<string>, b: seq<string>)
    ensures Concat(a + b) == Concat(a) + Concat(b)
  {
    if b == [] {
      assert a + b == a;
    } else {
      var init := b[..|b| - 1];
      assert (a + b)[..|a + b| - 1] == a + init;
      ConcatAppend(a, init);
      Assoc(Concat(a), Concat(init), b[|b| - 1]);
    }
  }

  function CommitLine(commit: Commit): string
  {
    "  - " + commit.message + "\n"
  }

  /** One line per commit, in order. */
  function CommitLineList(commits: seq<Commit>): (lines: seq<string>)
    ensures |lines| == |commits|
    ensures forall i :: 0 <= i < |commits| ==> lines[i] == CommitLine(commits[i])
  {
    if commits == [] then [] else CommitLineList(commits[..|commits| - 1]) + [CommitLine(commits[|commits| - 1])]
  }

  lemma {:induction false} CommitLinesAsList(context: string, commits: seq<Commit>)
    ensures WithCommitLines(context, commits) == context + Concat(CommitLineList(commits))
  {
    if commits != [] {
      var init := commits[..|commits| - 1];
      var m := commits[|commits| - 1].message;
      var lines := CommitLineList(init);
      CommitLinesAsList(context, init);
      assert (lines + [CommitLine(commits[|commits| - 1])])[..|lines|] == lines;
      Assoc(context + Concat(lines), "  - ", m);
      Assoc(context + Concat(lines), "  - " + m, "\n");
      Assoc(context, Concat(lines), "  - " + m + "\n");
    }
  }

  /** The lines of the Commits section. */
  function CommitsSectionLines(commits: seq<Commit>): seq<string>
  {
    if commits == [] then []
    else ["- **Commits:**\n"] + CommitLineList(FirstTen(commits))
         + (if |commits| > 10 then ["  - ... and " + NatToString(|commits| - 10) + " more commits\n"] else [])
  }

  /**
   * The Commits section is absent without commits; otherwise it is its
   * heading, one line for each of the first ten commits in order, and the
   * overflow line exactly when there are more than ten, naming how many
   * more.
   */
  lemma CommitsSectionShape(commits: seq<Commit>)
    ensures var lines := CommitsSectionLines(commits);
      && |lines| == (if commits == [] then 0 else 1 + (if |commits| <= 10 then |commits| else 10) + (if |commits| > 10 then 1 else 0))
      && (commits != [] ==> lines[0] == "- **Commits:**\n")
      && (forall i :: 0 <= i < |commits| && i < 10 ==> lines[i + 1] == "  - " + commits[i].message + "\n")
      && (|commits| > 10 ==>
            (lines[11] == "  - ... and " + NatToString(|commits| - 10) + " more commits\n"
             && DigitsValue(NatToString(|commits| - 10)) == |commits| - 10))
  {
  }

  /** The rendered Commits section is the text of those lines. */
  lemma CommitsSectionText(context: string, commits: seq<Commit>)
    ensures WithCommits(context, commits) == context + Concat(CommitsSectionLines(commits))
  {
    if commits != [] {
      var heading := "- **Commits:**\n";
      var shown := CommitLineList(FirstTen(commits));
      var listed := WithCommitLines(context + heading, FirstTen(commits));
      CommitLinesAsList(context + heading, FirstTen(commits));
      ConcatAppend([heading], shown);
      assert Concat([heading]) == heading by {
        assert [heading][..0] == [];
      }
      Assoc(context, heading, Concat(shown));
      assert listed == context + Concat([heading] + shown);
      if |commits| > 10 {
        var overflow := "  - ... and " + NatToString(|commits| - 10) + " more commits\n";
        ConcatAppend([heading] + shown, [overflow]);
        assert Concat([overflow]) == overflow by {
          assert [overflow][..0] == [];
        }
        Assoc(context, Concat([heading] + shown), overflow);
        assert CommitsSectionLines(commits) == [heading] + shown + [overflow];
      } else {
        assert CommitsSectionLines(commits) == [heading] + shown;
      }
    }
  }

  /** A description is shown whole up to 500 characters, and as its first 500 and "..." beyond. */
  lemma DescriptionShown(d: string)
    ensures |d| <= 500 ==> ShownDescription(d) == d
    ensures |d| > 500 ==>
              (|ShownDescription(d)| == 503
               && ShownDescription(d)[..500] == d[..500]
               && ShownDescription(d)[500..] == "...")
  {
  }

  // ---------------------------------------------------------------------------
  // The whole context

  lemma {:induction false} CommitLinesExtend(context: string, commits: seq<Commit>)
    ensures |context| <= |WithCommitLines(context, commits)|
  {
    if commits != [] {
      CommitLinesExtend(context, commits[..|commits| - 1]);
    }
  }

  lemma BlockExtends(context: string, pr: PullRequest, localeDate: Millis -> string)
    ensures |context| < |WithPRBlock(context, pr, localeDate)|
  {
    var facts := context + "#### PR #" + IntToString(pr.number) + ": " + pr.title + "\n"
      + "- **Author:** " + pr.author + "\n"
      + "- **Merged:** " + localeDate(pr.mergedAt) + "\n"
      + "- **Changes:** +" + IntToString(pr.additions) + " -" + IntToString(pr.deletions)
      + " (" + IntToString(pr.changedFiles) + " files)\n";
    var described := WithDescription(facts, pr.description);
    if pr.commits != [] {
      CommitLinesExtend(described + "- **Commits:**\n", FirstTen(pr.commits));
    }
  }

  lemma {:induction false} BlocksExtend(context: string, prs: seq<PullRequest>, localeDate: Millis -> string)
    ensures |context| <= |WithBlocks(context, prs, localeDate)|
  {
    if prs != [] {
      BlocksExtend(context, prs[..|prs| - 1], localeDate);
      BlockExtends(WithBlocks(context, prs[..|prs| - 1], localeDate), prs[|prs| - 1], localeDate);
    }
  }

  /**
   * The context is empty exactly when there are no PRs; a call that throws
   * yields no context at all.
   */
  lemma EmptyExactlyWithoutPRs(prs: seq<PullRequest>, localeDate: Millis -> string)
    ensures PRContext(prs, localeDate) == Context("") <==> prs == []
  {
    if prs != [] {
      RepositorySections(prs);
      var entries := EntriesOrder(FirstAppearance(prs));
      assert prs[0].repo in entries;
      var init := entries[..|entries| - 1];
      var last := entries[|entries| - 1];
      BlocksExtend(Sections(init, prs, localeDate) + "\n### Repository: " + last + "\n\n", Group(prs, last), localeDate);
    }
  }

  // ---------------------------------------------------------------------------
  // Inherited names

  lemma {:induction false} FirstInheritedMeaning(prs: seq<PullRequest>)
    ensures FirstInherited(prs).Some? <==> exists i :: 0 <= i < |prs| && prs[i].repo in InheritedNames
    ensures FirstInherited(prs).Some? ==>
      exists i :: 0 <= i < |prs| && prs[i].repo == FirstInherited(prs).value && prs[i].repo in InheritedNames
               && forall j :: 0 <= j < i ==> prs[j].repo !in InheritedNames
  {
    if prs != [] {
      var init := prs[..|prs| - 1];
      FirstInheritedMeaning(init);
      assert forall j :: 0 <= j < |init| ==> init[j] == prs[j];
      if FirstInherited(init).Some? {
        var i :| 0 <= i < |init| && init[i].repo == FirstInherited(init).value && init[i].repo in InheritedNames
                 && forall j :: 0 <= j < i ==> init[j].repo !in InheritedNames;
        assert prs[i] == init[i];
      }
    }
  }

  /**
   * buildPRContext throws exactly when some PR's repository is named after
   * a member of Object.prototype, and the error names the first such
   * repository in input order.
   */
  lemma InheritedNameThrows(prs: seq<PullRequest>, localeDate: Millis -> string)
    ensures PRContext(prs, localeDate).NotAFunction? <==> exists i :: 0 <= i < |prs| && prs[i].repo in InheritedNames
    ensures PRContext(prs, localeDate).NotAFunction? ==>
      exists i :: 0 <= i < |prs| && prs[i].repo == PRContext(prs, localeDate).repo && prs[i].repo in InheritedNames
               && forall j :: 0 <= j < i ==> prs[j].repo !in InheritedNames
  {
    FirstInheritedMeaning(prs);
  }
}
