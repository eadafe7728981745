/**
 * Queryset filtering over a table: the positions of the rows that satisfy a
 * condition, in table order, and the newest-first slices the handlers take of
 * them (`order_by('-date_creation')[:n]`).
 */
module Selection {

  predicate Ascending(ids: seq<nat>)
  {
    forall i, j :: 0 <= i < j < |ids| ==> ids[i] < ids[j]
  }

  predicate Descending(ids: seq<nat>)
  {
    forall i, j :: 0 <= i < j < |ids| ==> ids[i] > ids[j]
  }

  /** `filter(keep)`: the ids of exactly the rows satisfying `keep`, each once, in id order. */
  function Where<T>(xs: seq<T>, keep: T -> bool): (ids: seq<nat>)
    ensures forall k: nat :: k in ids <==> k < |xs| && keep(xs[k])
    ensures Ascending(ids)
    decreases |xs|
  {
    if xs == [] then []
    else
      var n := |xs| - 1;
      var front := Where(xs[..n], keep);
      assert forall i :: 0 <= i < |front| ==> front[i] in front;
      if keep(xs[n]) then front + [n] else front
  }

  /** The OR of two conditions, as `qs1 | qs2` combines two querysets. */
  function Either<T>(p: T -> bool, q: T -> bool): T -> bool
  {
    x => p(x) || q(x)
  }

  function Both<T>(p: T -> bool, q: T -> bool): T -> bool
  {
    x => p(x) && q(x)
  }

  /** Appending a row adds its id to a filter exactly when the row satisfies it. */
  lemma WhereAppend<T>(xs: seq<T>, x: T, keep: T -> bool)
    ensures Where(xs + [x], keep) == Where(xs, keep) + (if keep(x) then [|xs|] else [])
  {
    assert (xs + [x])[..|xs|] == xs;
  }

  /** A filter depends only on the truth of its condition at each row. */
  lemma {:induction false} WhereCongruent<T>(xs: seq<T>, ys: seq<T>, p: T -> bool, q: T -> bool)
    requires |xs| == |ys|
    requires forall k :: 0 <= k < |xs| ==> p(xs[k]) == q(ys[k])
    ensures Where(xs, p) == Where(ys, q)
    decreases |xs|
  {
    if xs != [] {
      var n := |xs| - 1;
      WhereCongruent(xs[..n], ys[..n], p, q);
    }
  }

  /** A filter is empty exactly when no row satisfies its condition. */
  lemma WhereEmpty<T>(xs: seq<T>, keep: T -> bool)
    ensures Where(xs, keep) == [] <==> forall k :: 0 <= k < |xs| ==> !keep(xs[k])
  {
    var ids := Where(xs, keep);
    if ids != [] {
      assert ids[0] in ids;
    }
  }

  /** The set of positions of the rows satisfying `keep`. */
  function Positions<T>(xs: seq<T>, keep: T -> bool): set<int>
  {
    set k | 0 <= k < |xs| && keep(xs[k])
  }

  /** The size of a filter is the number of rows that satisfy its condition. */
  lemma {:induction false} WhereCount<T>(xs: seq<T>, keep: T -> bool)
    ensures |Where(xs, keep)| == |Positions(xs, keep)|
    decreases |xs|
  {
    if xs != [] {
      var n := |xs| - 1;
      var prefix := xs[..n];
      WhereCount(prefix, keep);
      var front := Positions(prefix, keep);
      var all := Positions(xs, keep);
      assert |Where(xs, keep)| == |Where(prefix, keep)| + (if keep(xs[n]) then 1 else 0);
      if keep(xs[n]) {
        assert all == front + {n};
        assert n !in front;
      } else {
        assert all == front;
      }
    }
  }

  /**
   * Counting two filters separately counts the rows satisfying both twice: the
   * two counts add up to the size of their union plus the size of their overlap.
   */
  lemma {:induction false} WhereInclusionExclusion<T>(xs: seq<T>, p: T -> bool, q: T -> bool)
    ensures |Where(xs, p)| + |Where(xs, q)| == |Where(xs, Either(p, q))| + |Where(xs, Both(p, q))|
    decreases |xs|
  {
    if xs != [] {
      WhereInclusionExclusion(xs[..|xs| - 1], p, q);
    }
  }

  /** A condition true of every row selects every row. */
  lemma {:induction false} WhereAll<T>(xs: seq<T>, keep: T -> bool)
    requires forall k :: 0 <= k < |xs| ==> keep(xs[k])
    ensures |Where(xs, keep)| == |xs|
    decreases |xs|
  {
    if xs != [] {
      WhereAll(xs[..|xs| - 1], keep);
    }
  }

  function Reverse(ids: seq<nat>): (r: seq<nat>)
    ensures |r| == |ids|
    ensures forall i :: 0 <= i < |ids| ==> r[i] == ids[|ids| - 1 - i]
  {
    if ids == [] then [] else [ids[|ids| - 1]] + Reverse(ids[..|ids| - 1])
  }

  /**
   * `filter(keep).order_by('-date_creation')[:n]`: at most `n` ids, newest
   * first, of rows satisfying `keep`; a satisfying row is left out only when
   * the slice is full of newer ones.
   */
  function Newest<T>(xs: seq<T>, keep: T -> bool, n: nat): (r: seq<nat>)
    ensures |r| <= n && Descending(r)
    ensures forall k :: k in r ==> k < |xs| && keep(xs[k])
    ensures forall k :: 0 <= k < |xs| && keep(xs[k]) && k !in r ==> |r| == n && forall j :: j in r ==> k < j
  {
    var all := Reverse(Where(xs, keep));
    var r := all[..if |all| < n then |all| else n];
    NewestSlice(Where(xs, keep), all, r);
    r
  }

  lemma NewestSlice(w: seq<nat>, all: seq<nat>, r: seq<nat>)
    requires Ascending(w)
    requires all == Reverse(w)
    requires r <= all
    ensures Descending(r)
    ensures forall k :: k in r ==> k in w
    ensures forall k :: k in w && k !in r ==> |r| < |all| && forall j :: j in r ==> k < j
  {
    forall k | k in w && k !in r
      ensures |r| < |all| && forall j :: j in r ==> k < j
    {
      var p :| 0 <= p < |w| && w[p] == k;
      var q := |w| - 1 - p;
      assert all[q] == k;
      forall j | j in r ensures k < j {
        var i :| 0 <= i < |r| && r[i] == j;
        assert all[i] == j;
      }
    }
    forall k | k in r ensures k in w {
      var i :| 0 <= i < |r| && r[i] == k;
      assert w[|w| - 1 - i] == k;
    }
  }
}
