/** Greedy cutting of a list into consecutive groups of bounded size: the rule behind both the batches of allowed IPs in
    one peer and the peers in one message. */
module Greedy {
  import opened Sequences

  /** The first group may hold `first` bytes, every later group `rest` bytes. */
  function Cap(i: nat, first: int, rest: int): int {
    if i == 0 then first else rest
  }

  /** Group `i` is not empty, and stays within its capacity unless it is a single item. */
  ghost predicate Holds<A>(groups: seq<seq<A>>, i: nat, size: A -> nat, first: int, rest: int)
    requires i < |groups|
  {
    && groups[i] != []
    && (|groups[i]| > 1 ==> Total(size, groups[i]) <= Cap(i, first, rest))
  }

  /** Group `i` has no room for the first item of the group after it. */
  ghost predicate Full<A>(groups: seq<seq<A>>, i: nat, size: A -> nat, first: int, rest: int)
    requires i + 1 < |groups|
  {
    groups[i + 1] != [] && Total(size, groups[i]) + size(groups[i + 1][0]) > Cap(i, first, rest)
  }

  /** `groups` is the greedy cut of `xs`: the groups are `xs` in order, none is empty, a group of several items stays
      within its capacity, and no group could have taken the next item as well. */
  ghost predicate IsCut<A>(groups: seq<seq<A>>, xs: seq<A>, size: A -> nat, first: int, rest: int) {
    && Flatten(groups) == xs
    && (forall i :: 0 <= i < |groups| ==> Holds(groups, i, size, first, rest))
    && (forall i :: 0 <= i < |groups| - 1 ==> Full(groups, i, size, first, rest))
  }

  /** The greedy cut, one item at a time. */
  function Cut<A>(xs: seq<A>, size: A -> nat, first: int, rest: int): (groups: seq<seq<A>>)
    ensures groups == [] <==> xs == []
  {
    if xs == [] then []
    else Place(Cut(xs[..|xs| - 1], size, first, rest), xs[|xs| - 1], size, first, rest)
  }

  function Place<A>(groups: seq<seq<A>>, x: A, size: A -> nat, first: int, rest: int): seq<seq<A>> {
    if groups == [] then [[x]]
    else
      var n := |groups| - 1;
      if Total(size, groups[n]) + size(x) > Cap(n, first, rest) then groups + [[x]]
      else groups[..n] + [groups[n] + [x]]
  }

  lemma CutSnoc<A>(xs: seq<A>, x: A, size: A -> nat, first: int, rest: int)
    ensures Cut(xs + [x], size, first, rest) == Place(Cut(xs, size, first, rest), x, size, first, rest)
  {
    assert (xs + [x])[..|xs|] == xs;
  }

  /** What holds of a group only depends on the group and the one after it. */
  lemma SameGroup<A>(groups: seq<seq<A>>, others: seq<seq<A>>, i: nat, size: A -> nat, first: int, rest: int)
    requires i < |groups| && i < |others| && groups[i] == others[i]
    ensures Holds(groups, i, size, first, rest) <==> Holds(others, i, size, first, rest)
    ensures i + 1 < |groups| && i + 1 < |others| && groups[i + 1] != [] && others[i + 1] != []
            && groups[i + 1][0] == others[i + 1][0] ==>
              (Full(groups, i, size, first, rest) <==> Full(others, i, size, first, rest))
  {
    hide Total;
  }

  lemma LastGroup<A>(groups: seq<seq<A>>, more: seq<A>, size: A -> nat, first: int, rest: int)
    requires more != [] && (|more| > 1 ==> Total(size, more) <= Cap(|groups|, first, rest))
    requires groups != [] ==>
               Total(size, groups[|groups| - 1]) + size(more[0]) > Cap(|groups| - 1, first, rest)
    ensures Holds(groups + [more], |groups|, size, first, rest)
    ensures groups != [] ==> Full(groups + [more], |groups| - 1, size, first, rest)
  {
    hide Total;
  }

  /** A greedy cut grows by a group that the last group had no room for. */
  lemma AppendIsCut<A>(groups: seq<seq<A>>, xs: seq<A>, more: seq<A>, size: A -> nat, first: int, rest: int)
    requires IsCut(groups, xs, size, first, rest)
    requires more != [] && (|more| > 1 ==> Total(size, more) <= Cap(|groups|, first, rest))
    requires groups != [] ==>
               Total(size, groups[|groups| - 1]) + size(more[0]) > Cap(|groups| - 1, first, rest)
    ensures IsCut(groups + [more], xs + more, size, first, rest)
  {
    hide Total, Flatten, Holds, Full, Cap;
    var out, n := groups + [more], |groups|;
    LastGroup(groups, more, size, first, rest);
    FlattenSnoc(groups, more);
    forall i: nat | i < |out|
      ensures Holds(out, i, size, first, rest)
    {
      if i == n {
        assert Holds(out, n, size, first, rest);
      } else {
        assert Holds(groups, i, size, first, rest);
        AppendAt(groups, more, i, size, first, rest);
      }
    }
    forall i: nat | i < |out| - 1
      ensures Full(out, i, size, first, rest)
    {
      if i == n - 1 {
        assert Full(out, n - 1, size, first, rest);
      } else {
        assert Full(groups, i, size, first, rest);
        AppendAt(groups, more, i, size, first, rest);
      }
    }
  }

  lemma AppendAt<A>(groups: seq<seq<A>>, more: seq<A>, i: nat, size: A -> nat, first: int, rest: int)
    requires i < |groups|
    ensures Holds(groups, i, size, first, rest) ==> Holds(groups + [more], i, size, first, rest)
    ensures i + 1 < |groups| ==>
              (Full(groups, i, size, first, rest) ==> Full(groups + [more], i, size, first, rest))
  {
    hide Total;
  }

  lemma NotEmpty<A>(groups: seq<seq<A>>, i: nat, size: A -> nat, first: int, rest: int)
    requires i < |groups| && Holds(groups, i, size, first, rest)
    ensures groups[i] != []
  {}

  /** A greedy cut takes one more item into its last group, if it has room for it. */
  lemma ExtendIsCut<A>(groups: seq<seq<A>>, xs: seq<A>, x: A, size: A -> nat, first: int, rest: int)
    requires IsCut(groups, xs, size, first, rest) && groups != []
    requires var n := |groups| - 1; Total(size, groups[n]) + size(x) <= Cap(n, first, rest)
    ensures var n := |groups| - 1; IsCut(groups[..n] + [groups[n] + [x]], xs + [x], size, first, rest)
  {
    var n := |groups| - 1;
    var out := groups[..n] + [groups[n] + [x]];
    TotalSnoc(size, groups[n], x);
    assert Holds(groups, n, size, first, rest) && Holds(out, n, size, first, rest) by { hide Total; }
    hide Total, Flatten, Holds, Full;
    NotEmpty(groups, n, size, first, rest);
    assert groups[..n] + [groups[n]] == groups;
    FlattenSnoc(groups[..n], groups[n]);
    FlattenSnoc(groups[..n], groups[n] + [x]);
    forall i | 0 <= i < n
      ensures Holds(out, i, size, first, rest) && Full(out, i, size, first, rest)
    {
      assert Holds(groups, i, size, first, rest) && Full(groups, i, size, first, rest);
      assert Holds(groups, i + 1, size, first, rest);
      NotEmpty(groups, i + 1, size, first, rest);
      SameGroup(groups, out, i, size, first, rest);
    }
  }

  lemma PlaceIsCut<A>(groups: seq<seq<A>>, xs: seq<A>, x: A, size: A -> nat, first: int, rest: int)
    requires IsCut(groups, xs, size, first, rest)
    ensures IsCut(Place(groups, x, size, first, rest), xs + [x], size, first, rest)
  {
    hide IsCut;
    var n := |groups| - 1;
    if groups != [] && Total(size, groups[n]) + size(x) <= Cap(n, first, rest) {
      ExtendIsCut(groups, xs, x, size, first, rest);
    } else {
      AppendIsCut(groups, xs, [x], size, first, rest);
      assert groups == [] ==> groups + [[x]] == [[x]];
    }
  }

  lemma {:induction false} CutIsCut<A>(xs: seq<A>, size: A -> nat, first: int, rest: int)
    ensures IsCut(Cut(xs, size, first, rest), xs, size, first, rest)
  {
    if xs != [] {
      var n := |xs| - 1;
      CutIsCut(xs[..n], size, first, rest);
      PlaceIsCut(Cut(xs[..n], size, first, rest), xs[..n], xs[n], size, first, rest);
      assert xs[..n] + [xs[n]] == xs;
    }
  }

  lemma TailIsCut<A>(groups: seq<seq<A>>, xs: seq<A>, size: A -> nat, first: int, rest: int)
    requires IsCut(groups, xs, size, first, rest) && groups != []
    ensures 0 < |groups[0]| <= |xs| && xs[..|groups[0]|] == groups[0]
    ensures IsCut(groups[1..], xs[|groups[0]|..], size, rest, rest)
  {
    var tail := groups[1..];
    assert Holds(groups, 0, size, first, rest);
    forall i | 0 <= i < |tail|
      ensures Holds(tail, i, size, rest, rest)
    {
      assert Holds(groups, i + 1, size, first, rest);
    }
    forall i | 0 <= i < |tail| - 1
      ensures Full(tail, i, size, rest, rest)
    {
      assert Full(groups, i + 1, size, first, rest);
    }
  }

  /** The greedy first group is the longest prefix that fits. */
  lemma FirstIsLongest<A>(groups: seq<seq<A>>, xs: seq<A>, n: nat, size: A -> nat, first: int, rest: int)
    requires IsCut(groups, xs, size, first, rest) && groups != []
    requires n <= |xs| && Total(size, xs[..n]) <= first
    ensures n <= |groups[0]|
  {
    TailIsCut(groups, xs, size, first, rest);
    var m := |groups[0]|;
    if m < n {
      assert groups[1..] != [];
      assert Full(groups, 0, size, first, rest);
      assert groups[1] == groups[1..][0] && xs[m..][0] == groups[1][0];
      TotalPrefix(size, xs[..n], m + 1);
      assert xs[..n][..m + 1] == groups[0] + [xs[m]];
      TotalSnoc(size, groups[0], xs[m]);
    }
  }

  /** There is only one greedy cut. */
  lemma {:induction false} CutIsUnique<A>(groups: seq<seq<A>>, others: seq<seq<A>>, xs: seq<A>, size: A -> nat,
                                          first: int, rest: int)
    requires IsCut(groups, xs, size, first, rest)
    requires IsCut(others, xs, size, first, rest)
    ensures groups == others
    decreases |groups|
  {
    if groups == [] || others == [] {
      assert groups != [] ==> Holds(groups, 0, size, first, rest);
      assert others != [] ==> Holds(others, 0, size, first, rest);
    } else {
      TailIsCut(groups, xs, size, first, rest);
      TailIsCut(others, xs, size, first, rest);
      var n, m := |groups[0]|, |others[0]|;
      assert Holds(groups, 0, size, first, rest) && Holds(others, 0, size, first, rest);
      if m > 1 { FirstIsLongest(groups, xs, m, size, first, rest); }
      if n > 1 { FirstIsLongest(others, xs, n, size, first, rest); }
      CutIsUnique(groups[1..], others[1..], xs[n..], size, rest, rest);
      assert groups == [groups[0]] + groups[1..] && others == [others[0]] + others[1..];
    }
  }

  /** `parts` cuts `xs` into consecutive parts within the capacities; parts may be empty. */
  ghost predicate Fits<A>(parts: seq<seq<A>>, xs: seq<A>, size: A -> nat, first: int, rest: int) {
    && Flatten(parts) == xs
    && forall i :: 0 <= i < |parts| ==> Total(size, parts[i]) <= Cap(i, first, rest)
  }

  /** The greedy cut stays ahead of every other cut, even of one that started earlier in the list. */
  lemma {:induction false} GreedyStaysAhead<A>(groups: seq<seq<A>>, xs: seq<A>, parts: seq<seq<A>>, ys: seq<A>,
                                               size: A -> nat, first: int, rest: int)
    requires IsCut(groups, xs, size, first, rest)
    requires Fits(parts, ys, size, first, rest)
    requires |xs| <= |ys| && ys[|ys| - |xs|..] == xs
    ensures |groups| <= |parts|
    decreases |parts|
  {
    if groups != [] {
      TailIsCut(groups, xs, size, first, rest);
      var lag, p, g := |ys| - |xs|, |parts[0]|, |groups[0]|;
      assert parts[0] == ys[..p];
      if p > lag {
        TotalPrefix(size, ys[..p], lag);
        assert ys[..p][lag..] == xs[..p - lag];
        assert Total(size, parts[0]) <= Cap(0, first, rest);
        FirstIsLongest(groups, xs, p - lag, size, first, rest);
      }
      var later := parts[1..];
      forall i | 0 <= i < |later|
        ensures Total(size, later[i]) <= Cap(i, rest, rest)
      {
        assert Total(size, parts[i + 1]) <= Cap(i + 1, first, rest);
      }
      assert Flatten(later) == ys[p..];
      assert ys[p..][|ys| - p - (|xs| - g)..] == xs[g..];
      GreedyStaysAhead(groups[1..], xs[g..], later, ys[p..], size, rest, rest);
    }
  }

  /** No cut of `xs` that keeps the order and the capacities has fewer groups than the greedy one. */
  lemma CutIsOptimal<A>(xs: seq<A>, parts: seq<seq<A>>, size: A -> nat, first: int, rest: int)
    requires Fits(parts, xs, size, first, rest)
    ensures |Cut(xs, size, first, rest)| <= |parts|
  {
    CutIsCut(xs, size, first, rest);
    GreedyStaysAhead(Cut(xs, size, first, rest), xs, parts, xs, size, first, rest);
  }

  /** When every single item fits, the greedy cut itself stays within the capacities. */
  lemma CutFits<A>(xs: seq<A>, size: A -> nat, first: int, rest: int)
    requires forall x :: x in xs ==> size(x) <= first && size(x) <= rest
    ensures Fits(Cut(xs, size, first, rest), xs, size, first, rest)
  {
    var groups := Cut(xs, size, first, rest);
    CutIsCut(xs, size, first, rest);
    forall i | 0 <= i < |groups|
      ensures Total(size, groups[i]) <= Cap(i, first, rest)
    {
      assert Holds(groups, i, size, first, rest);
      if |groups[i]| == 1 {
        FlattenHolds(groups, i, 0);
        assert groups[i][1..] == [];
      }
    }
  }

  lemma {:induction false} FlattenHolds<A>(xss: seq<seq<A>>, i: nat, j: nat)
    requires i < |xss| && j < |xss[i]|
    ensures xss[i][j] in Flatten(xss)
  {
    if i == 0 {
      assert Flatten(xss)[j] == xss[0][j];
    } else {
      FlattenHolds(xss[1..], i - 1, j);
    }
  }

  /** One group is enough exactly when everything fits into it. */
  lemma OneGroup<A>(xs: seq<A>, size: A -> nat, first: int, rest: int)
    requires forall x :: x in xs ==> size(x) <= first
    requires 0 <= first
    ensures |Cut(xs, size, first, rest)| <= 1 <==> Total(size, xs) <= first
  {
    var groups := Cut(xs, size, first, rest);
    CutIsCut(xs, size, first, rest);
    if groups != [] {
      TailIsCut(groups, xs, size, first, rest);
      if Total(size, xs) <= first {
        assert xs[..|xs|] == xs;
        FirstIsLongest(groups, xs, |xs|, size, first, rest);
        if |groups| > 1 { TailIsCut(groups[1..], xs[|groups[0]|..], size, rest, rest); }
      }
      if |groups| == 1 {
        assert groups[1..] == [] && xs == groups[0];
        assert Holds(groups, 0, size, first, rest);
        if |xs| == 1 { assert xs[1..] == []; }
      }
    }
  }

  /** Two neighbours never fit into one group. */
  lemma NeighboursOverflow<A>(groups: seq<seq<A>>, xs: seq<A>, i: nat, size: A -> nat, first: int, rest: int)
    requires IsCut(groups, xs, size, first, rest) && i + 1 < |groups|
    ensures Total(size, groups[i]) + Total(size, groups[i + 1]) > Cap(i, first, rest)
  {
    assert Full(groups, i, size, first, rest);
  }

  lemma PairBytes<A>(groups: seq<seq<A>>, xs: seq<A>, size: A -> nat, max: nat)
    requires IsCut(groups, xs, size, max, max) && |groups| >= 2
    ensures |groups[0]| + |groups[1]| <= |xs|
    ensures var ys := xs[|groups[0]| + |groups[1]|..];
            IsCut(groups[2..], ys, size, max, max) && Total(size, xs) >= max + 1 + Total(size, ys)
  {
    var n, m := |groups[0]|, |groups[1]|;
    TailIsCut(groups, xs, size, max, max);
    assert groups[1..][0] == groups[1] && groups[1..][1..] == groups[2..];
    TailIsCut(groups[1..], xs[n..], size, max, max);
    assert xs[n..][m..] == xs[n + m..];
    TotalPrefix(size, xs, n);
    TotalPrefix(size, xs[n..], m);
    NeighboursOverflow(groups, xs, 0, size, max, max);
  }

  /** So there are at most about twice as many groups as the bytes need. */
  lemma {:induction false} CutCount<A>(groups: seq<seq<A>>, xs: seq<A>, size: A -> nat, max: nat)
    requires IsCut(groups, xs, size, max, max)
    ensures (|groups| / 2) * (max + 1) <= Total(size, xs)
    decreases |groups|
  {
    if |groups| >= 2 {
      PairBytes(groups, xs, size, max);
      var ys := xs[|groups[0]| + |groups[1]|..];
      CutCount(groups[2..], ys, size, max);
      Distribute(|groups[2..]| / 2, max + 1);
    }
  }

  lemma Distribute(n: nat, m: nat)
    ensures (n + 1) * m == n * m + m
  {}
}
