/**
 * The final ordering step of getMergedPRs: `allPRs.sort` with a comparator
 * that puts the later merge first. Array.prototype.sort is stable, so PRs
 * merged at the same instant keep the order in which they were collected.
 * The sort is a library call in the source; it is modelled as a function.
 */
module PRSort {
  import opened Types

  /** Non-increasing in merge time. */
  predicate NewestFirst(s: seq<PullRequest>)
  {
    forall i, j :: 0 <= i < j < |s| ==> s[i].mergedAt >= s[j].mergedAt
  }

  /** The PRs of s merged at instant t, in the order of s. */
  function MergedAtTime(s: seq<PullRequest>, t: Millis): seq<PullRequest>
  {
    if s == [] then [] else (if s[0].mergedAt == t then [s[0]] else []) + MergedAtTime(s[1..], t)
  }

  /** Places x before the first element merged no later than x. */
  function Insert(x: PullRequest, s: seq<PullRequest>): (r: seq<PullRequest>)
    requires NewestFirst(s)
    ensures |r| == |s| + 1 && (r[0] == x || (s != [] && r[0] == s[0]))
    ensures NewestFirst(r)
    ensures multiset(r) == multiset(s) + multiset{x}
  {
    if s == [] || s[0].mergedAt <= x.mergedAt then
      [x] + s
    else
      assert s == [s[0]] + s[1..];
      [s[0]] + Insert(x, s[1..])
  }

  lemma {:induction false} InsertMergedAtTime(x: PullRequest, s: seq<PullRequest>, t: Millis)
    requires NewestFirst(s)
    ensures MergedAtTime(Insert(x, s), t) == (if x.mergedAt == t then [x] else []) + MergedAtTime(s, t)
  {
    if s == [] || s[0].mergedAt <= x.mergedAt {
      assert ([x] + s)[1..] == s;
    } else {
      var rest := Insert(x, s[1..]);
      assert ([s[0]] + rest)[1..] == rest;
      InsertMergedAtTime(x, s[1..], t);
    }
  }

  /**
   * The comparator `b.mergedAt - a.mergedAt` under a stable sort: newest
   * first, a permutation of the input, and for every instant the PRs merged
   * then appear in their input order.
   */
  function SortNewestFirst(s: seq<PullRequest>): (r: seq<PullRequest>)
    ensures NewestFirst(r)
    ensures multiset(r) == multiset(s)
  {
    if s == [] then []
    else
      assert s == [s[0]] + s[1..];
      Insert(s[0], SortNewestFirst(s[1..]))
  }

  /** The sort is stable: at every instant the PRs merged then keep their input order. */
  lemma {:induction false} SortIsStable(s: seq<PullRequest>, t: Millis)
    ensures MergedAtTime(SortNewestFirst(s), t) == MergedAtTime(s, t)
  {
    if s != [] {
      SortIsStable(s[1..], t);
      InsertMergedAtTime(s[0], SortNewestFirst(s[1..]), t);
    }
  }

  lemma {:induction false} MergedAtTimeMember(s: seq<PullRequest>, t: Millis)
    ensures MergedAtTime(s, t) != [] <==> exists j :: 0 <= j < |s| && s[j].mergedAt == t
  {
    if s != [] {
      MergedAtTimeMember(s[1..], t);
      if exists j :: 0 <= j < |s[1..]| && s[1..][j].mergedAt == t {
        var j :| 0 <= j < |s[1..]| && s[1..][j].mergedAt == t;
        assert s[j + 1].mergedAt == t;
      }
      if exists j :: 0 <= j < |s| && s[j].mergedAt == t {
        var j :| 0 <= j < |s| && s[j].mergedAt == t;
        if j > 0 {
          assert s[1..][j - 1].mergedAt == t;
        }
      }
    }
  }

  lemma HeadMergedAtTime(s: seq<PullRequest>)
    requires s != []
    ensures MergedAtTime(s, s[0].mergedAt) != []
  {
  }

  /** Two sequences that are both newest first and agree instant by instant are equal. */
  lemma {:induction false} NewestFirstUnique(a: seq<PullRequest>, b: seq<PullRequest>)
    requires NewestFirst(a) && NewestFirst(b)
    requires forall t :: MergedAtTime(a, t) == MergedAtTime(b, t)
    ensures a == b
  {
    if a == [] {
      if b != [] {
        assert false;
      }
    } else if b == [] {
      HeadMergedAtTime(a);
      assert false;
    } else {
      var ta, tb := a[0].mergedAt, b[0].mergedAt;
      if ta > tb {
        assert MergedAtTime(a, ta) != [];
        MergedAtTimeMember(b, ta);
      } else if tb > ta {
        assert MergedAtTime(b, tb) != [];
        MergedAtTimeMember(a, tb);
      }
      assert ta == tb;
      assert a[0] == MergedAtTime(a, ta)[0] == MergedAtTime(b, ta)[0] == b[0];
      forall t ensures MergedAtTime(a[1..], t) == MergedAtTime(b[1..], t) {
        if t == ta {
          assert MergedAtTime(a, t) == [a[0]] + MergedAtTime(a[1..], t);
          assert MergedAtTime(b, t) == [b[0]] + MergedAtTime(b[1..], t);
          assert MergedAtTime(a[1..], t) == MergedAtTime(a, t)[1..];
          assert MergedAtTime(b[1..], t) == MergedAtTime(b, t)[1..];
        } else {
          assert MergedAtTime(a, t) == MergedAtTime(a[1..], t);
          assert MergedAtTime(b, t) == MergedAtTime(b[1..], t);
        }
      }
      NewestFirstUnique(a[1..], b[1..]);
      assert a == [a[0]] + a[1..] && b == [b[0]] + b[1..];
    }
  }

  /**
   * Any stable newest-first sort of s gives exactly SortNewestFirst(s), so
   * the model does not depend on how the engine sorts.
   */
  lemma StableSortIsUnique(s: seq<PullRequest>, r: seq<PullRequest>)
    requires NewestFirst(r)
    requires forall t :: MergedAtTime(r, t) == MergedAtTime(s, t)
    ensures r == SortNewestFirst(s)
  {
    forall t ensures MergedAtTime(r, t) == MergedAtTime(SortNewestFirst(s), t) {
      SortIsStable(s, t);
    }
    NewestFirstUnique(r, SortNewestFirst(s));
  }
}
