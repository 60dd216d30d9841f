/**
 * The repository picker's two selection rules: "Select All / Deselect All"
 * and the per-repository checkbox. Both compute the new list of selected
 * repository names from the current one.
 */
module RepoSelector {
  import opened Types

  /** The names of the listed repositories, in listing order. */
  function Names(repos: seq<Repository>): (names: seq<string>)
    ensures |names| == |repos|
    ensures forall i :: 0 <= i < |repos| ==> names[i] == repos[i].name
  {
    if repos == [] then [] else Names(repos[..|repos| - 1]) + [repos[|repos| - 1].name]
  }

  /**
   * Toggle-all: deselect everything when as many names are selected as
   * there are repositories, otherwise select every repository. The test
   * compares lengths only.
   */
  function ToggleAll(repos: seq<Repository>, selected: seq<string>): (r: seq<string>)
    ensures |selected| == |repos| ==> r == []
    ensures |selected| != |repos| ==> |r| == |repos| && forall i :: 0 <= i < |repos| ==> r[i] == repos[i].name
  {
    if |selected| == |repos| then [] else Names(repos)
  }

  /** The selection without any occurrence of `name`, others in their order. */
  function Without(selected: seq<string>, name: string): (r: seq<string>)
    ensures name !in r
    ensures forall x :: x != name ==> multiset(r)[x] == multiset(selected)[x]
    ensures |r| <= |selected|
  {
    if selected == [] then []
    else
      var init := selected[..|selected| - 1];
      var last := selected[|selected| - 1];
      assert selected == init + [last];
      if last == name then Without(init, name) else Without(init, name) + [last]
  }

  /** The checkbox of one repository: remove it when selected, append it otherwise. */
  function ToggleRepo(selected: seq<string>, name: string): (r: seq<string>)
    ensures name in selected ==> name !in r
    ensures name !in selected ==> r == selected + [name]
  {
    if name in selected then Without(selected, name) else selected + [name]
  }

  /** `s` occurs in `t` in order, possibly with other elements between. */
  predicate Subsequence(s: seq<string>, t: seq<string>)
  {
    if s == [] then true
    else if t == [] then false
    else if s[|s| - 1] == t[|t| - 1] then Subsequence(s[..|s| - 1], t[..|t| - 1])
    else Subsequence(s, t[..|t| - 1])
  }

  lemma {:induction false} WithoutKeepsOrder(selected: seq<string>, name: string)
    ensures Subsequence(Without(selected, name), selected)
  {
    if selected != [] {
      var init := selected[..|selected| - 1];
      WithoutKeepsOrder(init, name);
      var last := selected[|selected| - 1];
      if last != name {
        var w := Without(init, name) + [last];
        assert w[..|w| - 1] == Without(init, name);
      } else {
        SubsequenceOfInit(Without(init, name), selected);
      }
    }
  }

  lemma {:induction false} SubsequenceOfInit(s: seq<string>, t: seq<string>)
    requires t != [] && Subsequence(s, t[..|t| - 1])
    ensures Subsequence(s, t)
    decreases |s| + |t|
  {
    var init := t[..|t| - 1];
    if s != [] && s[|s| - 1] == t[|t| - 1] {
      SubsequenceDropLast(s, init);
    }
  }

  lemma {:induction false} SubsequenceDropLast(s: seq<string>, t: seq<string>)
    requires s != [] && Subsequence(s, t)
    ensures Subsequence(s[..|s| - 1], t)
    decreases |s| + |t|
  {
    if t != [] {
      var init := t[..|t| - 1];
      if s[|s| - 1] == t[|t| - 1] {
        SubsequenceOfInit(s[..|s| - 1], t);
      } else {
        SubsequenceDropLast(s, init);
        SubsequenceOfInit(s[..|s| - 1], t);
      }
    }
  }

  /**
   * Toggling a selected name removes every occurrence of it, keeps every
   * other name as often as before and in the same relative order.
   */
  lemma ToggleRemoves(selected: seq<string>, name: string)
    requires name in selected
    ensures name !in ToggleRepo(selected, name)
    ensures forall x :: x != name ==> multiset(ToggleRepo(selected, name))[x] == multiset(selected)[x]
    ensures Subsequence(ToggleRepo(selected, name), selected)
  {
    WithoutKeepsOrder(selected, name);
  }

  /** Without a name that is not there changes nothing. */
  lemma {:induction false} WithoutAbsent(selected: seq<string>, name: string)
    requires name !in selected
    ensures Without(selected, name) == selected
  {
    if selected != [] {
      var init := selected[..|selected| - 1];
      assert name !in init;
      WithoutAbsent(init, name);
      assert selected == init + [selected[|selected| - 1]];
    }
  }

  /** Ticking an unselected name and unticking it again restores the selection. */
  lemma ToggleTwice(selected: seq<string>, name: string)
    requires name !in selected
    ensures ToggleRepo(ToggleRepo(selected, name), name) == selected
  {
    var added := selected + [name];
    assert name in added;
    assert added[..|added| - 1] == selected;
    WithoutAbsent(selected, name);
  }

  /**
   * Toggle-all compares lengths, not contents: a selection as long as the
   * listing but naming other repositories is deselected all the same.
   */
  lemma ToggleAllComparesLengths(repo: Repository, other: string)
    requires other != repo.name
    ensures ToggleAll([repo], [other]) == []
    ensures repo.name !in [other]
  {
  }
}
