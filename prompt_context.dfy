/**
 * buildPRContext: the text handed to the language model, one section per
 * repository and one block per PR.
 *
 * The grouping object of the source is a JavaScript plain object. Its
 * property order, which `Object.entries` follows, puts the keys that are
 * array indices first, in ascending numeric order, and then the other keys
 * in the order they were created; the model keeps the creation order in
 * `keys` beside the map of groups and orders it that way. A plain object
 * also inherits the members of Object.prototype: for a repository named
 * after one of them `acc[pr.repo]` is already set, so no array is created
 * and `push` is not a function, and the call throws.
 *
 * `toLocaleDateString` depends on the locale and is a parameter.
 */
module PromptContext {
  import opened Types
  import opened Decimal

  /** The property names every plain object inherits from Object.prototype. */
  const InheritedNames: set<string> := {
    "constructor", "hasOwnProperty", "isPrototypeOf", "propertyIsEnumerable",
    "toString", "toLocaleString", "valueOf", "__proto__",
    "__defineGetter__", "__defineSetter__", "__lookupGetter__", "__lookupSetter__"}

  /** Either the context text, or the TypeError raised for the named repository. */
  datatype Outcome = Context(text: string) | NotAFunction(repo: string)

  // ---------------------------------------------------------------------------
  // Grouping

  /** The repositories of prs in order of first appearance: the order their keys are created. */
  function FirstAppearance(prs: seq<PullRequest>): seq<string>
  {
    if prs == [] then []
    else
      var keys := FirstAppearance(prs[..|prs| - 1]);
      var repo := prs[|prs| - 1].repo;
      if repo in keys then keys else keys + [repo]
  }

  /** The PRs of `repo`, in input order. */
  function Group(prs: seq<PullRequest>, repo: string): seq<PullRequest>
  {
    if prs == [] then []
    else Group(prs[..|prs| - 1], repo) + (if prs[|prs| - 1].repo == repo then [prs[|prs| - 1]] else [])
  }

  /** A repository has PRs exactly when it has a key. */
  lemma {:induction false} GroupEmptyIffAbsent(prs: seq<PullRequest>, repo: string)
    ensures Group(prs, repo) == [] <==> repo !in FirstAppearance(prs)
  {
    if prs != [] {
      GroupEmptyIffAbsent(prs[..|prs| - 1], repo);
    }
  }

  /** The first repository named after an inherited member, if any PR has one. */
  function FirstInherited(prs: seq<PullRequest>): Option<string>
  {
    if prs == [] then None
    else
      var before := FirstInherited(prs[..|prs| - 1]);
      if before.Some? then before
      else if prs[|prs| - 1].repo in InheritedNames then Some(prs[|prs| - 1].repo)
      else None
  }

  lemma {:induction false} InheritedStays(prs: seq<PullRequest>, k: nat)
    requires k <= |prs|
    requires FirstInherited(prs[..k]).Some?
    ensures FirstInherited(prs) == FirstInherited(prs[..k])
  {
    if k < |prs| {
      var init := prs[..|prs| - 1];
      assert init[..k] == prs[..k];
      InheritedStays(init, k);
    } else {
      assert prs[..k] == prs;
    }
  }

  // ---------------------------------------------------------------------------
  // Property order of Object.entries

  /** The number a key of digits denotes (keys with other characters are never compared). */
  function IndexValue(key: string): nat
  {
    if AllDigits(key) then DigitsValue(key) else 0
  }

  /** A key that is an array index: a canonical numeral below 2^32 - 1. */
  predicate IsArrayIndex(key: string)
  {
    Canonical(key) && IndexValue(key) < 4_294_967_295
  }

  function IndexKeys(keys: seq<string>): (r: seq<string>)
    ensures forall i :: 0 <= i < |r| ==> IsArrayIndex(r[i])
  {
    if keys == [] then []
    else IndexKeys(keys[..|keys| - 1]) + (if IsArrayIndex(keys[|keys| - 1]) then [keys[|keys| - 1]] else [])
  }

  function OtherKeys(keys: seq<string>): (r: seq<string>)
    ensures forall i :: 0 <= i < |r| ==> !IsArrayIndex(r[i])
  {
    if keys == [] then []
    else OtherKeys(keys[..|keys| - 1]) + (if IsArrayIndex(keys[|keys| - 1]) then [] else [keys[|keys| - 1]])
  }

  predicate Ascending(s: seq<string>)
  {
    forall i, j :: 0 <= i < j < |s| ==> IndexValue(s[i]) <= IndexValue(s[j])
  }

  /** Places an index key before the first key of larger value. */
  function InsertByValue(k: string, s: seq<string>): (r: seq<string>)
    requires Ascending(s)
    ensures |r| == |s| + 1 && (r[0] == k || (s != [] && r[0] == s[0]))
    ensures Ascending(r)
    ensures multiset(r) == multiset(s) + multiset{k}
  {
    if s == [] || IndexValue(k) <= IndexValue(s[0]) then [k] + s
    else
      assert s == [s[0]] + s[1..];
      [s[0]] + InsertByValue(k, s[1..])
  }

  /** The index keys in ascending numeric order. */
  function SortByValue(s: seq<string>): (r: seq<string>)
    ensures Ascending(r)
    ensures multiset(r) == multiset(s)
  {
    if s == [] then []
    else
      assert s == [s[0]] + s[1..];
      InsertByValue(s[0], SortByValue(s[1..]))
  }

  /** The order Object.entries lists the keys created in the order `keys`. */
  function EntriesOrder(keys: seq<string>): seq<string>
  {
    SortByValue(IndexKeys(keys)) + OtherKeys(keys)
  }

  // ---------------------------------------------------------------------------
  // Rendering
  //
  // Each function below extends the text built so far, in the order the
  // source appends to `context`.

  /** A description longer than 500 characters is cut to 500 and marked with "...". */
  function ShownDescription(d: string): string
  {
    if |d| > 500 then d[..500] + "..." else d
  }

  /** The Description line, appended only for a non-empty description. */
  function WithDescription(context: string, description: Option<string>): string
  {
    if description.Some? && description.value != "" then
      context + "- **Description:** " + ShownDescription(description.value) + "\n"
    else context
  }

  /** One line per commit. */
  function WithCommitLines(context: string, commits: seq<Commit>): string
  {
    if commits == [] then context
    else WithCommitLines(context, commits[..|commits| - 1]) + "  - " + commits[|commits| - 1].message + "\n"
  }

  /** `commits.slice(0, 10)`. */
  function FirstTen(commits: seq<Commit>): seq<Commit>
  {
    if |commits| <= 10 then commits else commits[..10]
  }

  /** The Commits section: omitted without commits, at most ten commit lines, then the overflow line. */
  function WithCommits(context: string, commits: seq<Commit>): string
  {
    if |commits| == 0 then context
    else
      var listed := WithCommitLines(context + "- **Commits:**\n", FirstTen(commits));
      if |commits| > 10 then listed + "  - ... and " + NatToString(|commits| - 10) + " more commits\n"
      else listed
  }

  /** The block of one PR; `localeDate` renders the merge date. */
  function WithPRBlock(context: string, pr: PullRequest, localeDate: Millis -> string): string
  {
    var facts := context + "#### PR #" + IntToString(pr.number) + ": " + pr.title + "\n"
      + "- **Author:** " + pr.author + "\n"
      + "- **Merged:** " + localeDate(pr.mergedAt) + "\n"
      + "- **Changes:** +" + IntToString(pr.additions) + " -" + IntToString(pr.deletions)
      + " (" + IntToString(pr.changedFiles) + " files)\n";
    WithCommits(WithDescription(facts, pr.description), pr.commits) + "\n"
  }

  function WithBlocks(context: string, prs: seq<PullRequest>, localeDate: Millis -> string): string
  {
    if prs == [] then context
    else WithPRBlock(WithBlocks(context, prs[..|prs| - 1], localeDate), prs[|prs| - 1], localeDate)
  }

  /** The sections of the given repositories: each header, then the blocks of that repository's PRs. */
  function Sections(repos: seq<string>, prs: seq<PullRequest>, localeDate: Millis -> string): string
  {
    if repos == [] then ""
    else
      var last := repos[|repos| - 1];
      WithBlocks(Sections(repos[..|repos| - 1], prs, localeDate) + "\n### Repository: " + last + "\n\n",
                 Group(prs, last), localeDate)
  }

  /** buildPRContext as a function of its input. */
  function PRContext(prs: seq<PullRequest>, localeDate: Millis -> string): Outcome
  {
    match FirstInherited(prs)
    case Some(name) => NotAFunction(name)
    case None => Context(Sections(EntriesOrder(FirstAppearance(prs)), prs, localeDate))
  }

  // ---------------------------------------------------------------------------
  // The method

  lemma {:induction false} IndexKeysMember(keys: seq<string>, k: string)
    ensures k in IndexKeys(keys) <==> k in keys && IsArrayIndex(k)
    ensures k in OtherKeys(keys) <==> k in keys && !IsArrayIndex(k)
  {
    if keys != [] {
      var init := keys[..|keys| - 1];
      IndexKeysMember(init, k);
      assert keys == init + [keys[|keys| - 1]];
    }
  }

  /** Object.entries lists exactly the keys that were created. */
  lemma EntriesMember(keys: seq<string>, k: string)
    ensures k in EntriesOrder(keys) <==> k in keys
  {
    IndexKeysMember(keys, k);
    var sorted := SortByValue(IndexKeys(keys));
    assert k in sorted <==> k in multiset(sorted);
  }

  /** The reduce: group the PRs by repository, creating a key at each repository's first PR. */
  method GroupByRepo(prs: seq<PullRequest>)
    returns (failure: Option<string>, keys: seq<string>, groups: map<string, seq<PullRequest>>)
    ensures failure == FirstInherited(prs)
    ensures failure.None? ==> keys == FirstAppearance(prs)
    ensures failure.None? ==> forall k :: k in groups <==> k in keys
    ensures failure.None? ==> forall k :: k in groups ==> groups[k] == Group(prs, k)
  {
    keys, groups := [], map[];
    for i := 0 to |prs|
      invariant FirstInherited(prs[..i]) == None
      invariant keys == FirstAppearance(prs[..i])
      invariant forall k :: k in groups <==> k in keys
      invariant forall k :: k in groups ==> groups[k] == Group(prs[..i], k)
    {
      assert prs[..i + 1][..i] == prs[..i];
      var repo := prs[i].repo;
      ghost var before := groups;
      if repo in InheritedNames {
        // `acc[repo]` is the inherited member, which has no `push`
        InheritedStays(prs, i + 1);
        return Some(repo), keys, groups;
      }
      if repo !in groups {
        keys := keys + [repo];
        groups := groups[repo := []];
      }
      groups := groups[repo := groups[repo] + [prs[i]]];
      GroupEmptyIffAbsent(prs[..i], repo);
      assert Group(prs[..i + 1], repo) == Group(prs[..i], repo) + [prs[i]];
    }
    assert prs[..|prs|] == prs;
    failure := None;
  }

  /** Appends the block of one PR, line by line. */
  method AppendPRBlock(context: string, pr: PullRequest, localeDate: Millis -> string) returns (context': string)
    ensures context' == WithPRBlock(context, pr, localeDate)
  {
    context' := context + "#### PR #" + IntToString(pr.number) + ": " + pr.title + "\n";
    context' := context' + "- **Author:** " + pr.author + "\n";
    context' := context' + "- **Merged:** " + localeDate(pr.mergedAt) + "\n";
    context' := context' + "- **Changes:** +" + IntToString(pr.additions) + " -" + IntToString(pr.deletions)
                + " (" + IntToString(pr.changedFiles) + " files)\n";
    if pr.description.Some? && pr.description.value != "" {
      var truncatedDesc := if |pr.description.value| > 500 then pr.description.value[..500] + "..." else pr.description.value;
      context' := context' + "- **Description:** " + truncatedDesc + "\n";
    }
    context' := AppendCommits(context', pr.commits);
    context' := context' + "\n";
  }

  /** Appends the Commits section of a PR. */
  method AppendCommits(context: string, commits: seq<Commit>) returns (context': string)
    ensures context' == WithCommits(context, commits)
  {
    context' := context;
    if |commits| > 0 {
      context' := context' + "- **Commits:**\n";
      var shown := if |commits| <= 10 then commits else commits[..10];
      for c := 0 to |shown|
        invariant context' == WithCommitLines(context + "- **Commits:**\n", shown[..c])
      {
        assert shown[..c + 1][..c] == shown[..c];
        context' := context' + "  - " + shown[c].message + "\n";
      }
      assert shown[..|shown|] == shown;
      if |commits| > 10 {
        context' := context' + "  - ... and " + NatToString(|commits| - 10) + " more commits\n";
      }
    }
  }

  /** The loop over one repository's PRs. */
  method AppendBlocks(context: string, repoPRs: seq<PullRequest>, localeDate: Millis -> string) returns (context': string)
    ensures context' == WithBlocks(context, repoPRs, localeDate)
  {
    context' := context;
    for j := 0 to |repoPRs|
      invariant context' == WithBlocks(context, repoPRs[..j], localeDate)
    {
      assert repoPRs[..j + 1][..j] == repoPRs[..j];
      context' := AppendPRBlock(context', repoPRs[j], localeDate);
    }
    assert repoPRs[..|repoPRs|] == repoPRs;
  }

  /**
   * buildPRContext: group the PRs, then for each repository in
   * Object.entries order append its header and the block of each of its
   * PRs.
   */
  method BuildPRContext(prs: seq<PullRequest>, localeDate: Millis -> string) returns (r: Outcome)
    ensures r == PRContext(prs, localeDate)
  {
    var failure, keys, groups := GroupByRepo(prs);
    if failure.Some? {
      return NotAFunction(failure.value);
    }
    var entries := EntriesOrder(keys);
    forall k | k in entries ensures k in groups && groups[k] == Group(prs, k) {
      EntriesMember(keys, k);
    }
    var context := AppendSections(entries, groups, prs, localeDate);
    r := Context(context);
  }

  /** The loop over Object.entries: each repository's header, then its PRs' blocks. */
  method AppendSections(entries: seq<string>, groups: map<string, seq<PullRequest>>, prs: seq<PullRequest>,
                        localeDate: Millis -> string) returns (context: string)
    requires forall k :: k in entries ==> k in groups && groups[k] == Group(prs, k)
    ensures context == Sections(entries, prs, localeDate)
  {
    context := "";
    for e := 0 to |entries|
      invariant context == Sections(entries[..e], prs, localeDate)
    {
      assert entries[..e + 1][..e] == entries[..e];
      var repo := entries[e];
      var repoPRs := groups[repo];
      context := context + "\n### Repository: " + repo + "\n\n";
      context := AppendBlocks(context, repoPRs, localeDate);
    }
    assert entries[..|entries|] == entries;
  }
}
