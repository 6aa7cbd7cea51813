/** The shuffle of Python's `random`: passes from the last position down, each swapping in an element drawn from those
    not yet placed. */
module Shuffling {
  /** The draws of `random.Random(seed)` for a list of a given length: for position `i`, a position up to `i`. */
  type Draws = nat -> nat

  function Swap<T>(s: seq<T>, i: nat, j: nat): (r: seq<T>)
    requires i < |s| && j < |s|
    ensures |r| == |s|
  {
    s[i := s[j]][j := s[i]]
  }

  /** The passes over positions `i`, `i - 1`, ..., 1. */
  function Shuffled<T>(s: seq<T>, draws: Draws, i: nat): (r: seq<T>)
    requires i < |s| || i == 0
    ensures |r| == |s|
    decreases i
  {
    if i == 0 then s else Shuffled(Swap(s, i, draws(i) % (i + 1)), draws, i - 1)
  }

  lemma {:induction false} ShuffledPermutes<T>(s: seq<T>, draws: Draws, i: nat)
    requires i < |s| || i == 0
    ensures multiset(Shuffled(s, draws, i)) == multiset(s)
    decreases i
  {
    if i > 0 {
      ShuffledPermutes(Swap(s, i, draws(i) % (i + 1)), draws, i - 1);
    }
  }

  /** A pass leaves everything above its position. */
  lemma {:induction false} AboveStays<T>(s: seq<T>, draws: Draws, i: nat, k: nat)
    requires i < k < |s|
    ensures Shuffled(s, draws, i)[k] == s[k]
    decreases i
  {
    if i > 0 {
      AboveStays(Swap(s, i, draws(i) % (i + 1)), draws, i - 1, k);
    }
  }

  /** The element placed at the top is the one drawn. */
  lemma LastPlaced<T>(s: seq<T>, draws: Draws, i: nat)
    requires 0 < i < |s|
    ensures Shuffled(s, draws, i)[i] == s[draws(i) % (i + 1)]
  {
    AboveStays(Swap(s, i, draws(i) % (i + 1)), draws, i - 1, i);
  }

  lemma {:induction false} DrawsAgree<T>(s: seq<T>, draws: Draws, others: Draws, i: nat)
    requires (i < |s| || i == 0) && forall k :: 0 < k <= i ==> draws(k) % (k + 1) == others(k) % (k + 1)
    ensures Shuffled(s, draws, i) == Shuffled(s, others, i)
    decreases i
  {
    if i > 0 {
      DrawsAgree(Swap(s, i, draws(i) % (i + 1)), draws, others, i - 1);
    }
  }

  // ----- every order is reached

  lemma SplitMultiset<T>(s: seq<T>, n: nat)
    requires n <= |s|
    ensures multiset(s[..n]) == multiset(s) - multiset(s[n..])
  {
    assert s == s[..n] + s[n..];
  }

  lemma SmallRemainder(j: nat, n: nat)
    requires j < n
    ensures j % n == j
  {
  }

  /** Where the element that belongs at position `i` still is. */
  lemma Unplaced<T>(s: seq<T>, target: seq<T>, i: nat) returns (j: nat)
    requires i < |s| == |target| && multiset(s) == multiset(target) && s[i + 1..] == target[i + 1..]
    ensures j <= i && s[j] == target[i]
  {
    SplitMultiset(s, i + 1);
    SplitMultiset(target, i + 1);
    assert target[..i + 1][i] == target[i];
    assert target[i] in multiset(s[..i + 1]);
    j :| 0 <= j < i + 1 && s[..i + 1][j] == target[i];
  }

  lemma SwapPlaces<T>(s: seq<T>, target: seq<T>, i: nat, j: nat)
    requires j <= i < |s| == |target| && multiset(s) == multiset(target) && s[i + 1..] == target[i + 1..]
    requires s[j] == target[i]
    ensures multiset(Swap(s, i, j)) == multiset(target) && Swap(s, i, j)[i..] == target[i..]
  {
    forall k | i <= k < |s|
      ensures Swap(s, i, j)[k] == target[k]
    {
      if k > i {
        assert s[k] == s[i + 1..][k - i - 1] == target[i + 1..][k - i - 1];
      }
    }
  }

  /** Drawing `j` for the first pass, and then as `below` does. */
  lemma DrawFirst<T>(s: seq<T>, below: Draws, i: nat, j: nat) returns (draws: Draws)
    requires 0 < i < |s| && j <= i
    ensures Shuffled(s, draws, i) == Shuffled(Swap(s, i, j), below, i - 1)
  {
    draws := k => if k == i then j else below(k);
    SmallRemainder(j, i + 1);
    DrawsAgree(Swap(s, i, j), draws, below, i - 1);
  }

  lemma {:induction false} ReachesFrom<T>(s: seq<T>, target: seq<T>, i: nat) returns (draws: Draws)
    requires i < |s| == |target| && multiset(s) == multiset(target) && s[i + 1..] == target[i + 1..]
    ensures Shuffled(s, draws, i) == target
    decreases i
  {
    var j := Unplaced(s, target, i);
    if i == 0 {
      draws := k => 0;
      assert s == [s[0]] + s[1..] && target == [target[0]] + target[1..];
    } else {
      SwapPlaces(s, target, i, j);
      var below := ReachesFrom(Swap(s, i, j), target, i - 1);
      draws := DrawFirst(s, below, i, j);
    }
  }

  /** Every order of the elements is the result of some draws. */
  lemma ReachesAll<T>(s: seq<T>, target: seq<T>) returns (draws: Draws)
    requires s != [] && multiset(s) == multiset(target)
    ensures Shuffled(s, draws, |s| - 1) == target
  {
    assert |multiset(s)| == |multiset(target)|;
    draws := ReachesFrom(s, target, |s| - 1);
  }

  // ----- no order is favoured

  ghost predicate Distinct<T>(s: seq<T>) {
    forall i, j :: 0 <= i < j < |s| ==> s[i] != s[j]
  }

  lemma SwapKeepsDistinct<T>(s: seq<T>, i: nat, j: nat)
    requires Distinct(s) && i < |s| && j < |s|
    ensures Distinct(Swap(s, i, j))
  {
    forall a, b | 0 <= a < b < |s|
      ensures Swap(s, i, j)[a] != Swap(s, i, j)[b]
    {
      var a', b' := if a == i then j else if a == j then i else a, if b == i then j else if b == j then i else b;
      assert s[a'] != s[b'];
    }
  }

  lemma SamePosition<T>(s: seq<T>, i: nat, j: nat)
    requires Distinct(s) && i < |s| && j < |s| && s[i] == s[j]
    ensures i == j
  {
  }

  /** Draws that give distinct elements the same order are the same draws: each order has exactly one. */
  lemma {:induction false} DrawsUnique<T>(s: seq<T>, draws: Draws, others: Draws, i: nat, k: nat)
    requires Distinct(s) && 0 < k <= i < |s| && Shuffled(s, draws, i) == Shuffled(s, others, i)
    ensures draws(k) % (k + 1) == others(k) % (k + 1)
    decreases i
  {
    LastPlaced(s, draws, i);
    LastPlaced(s, others, i);
    var j := draws(i) % (i + 1);
    SamePosition(s, j, others(i) % (i + 1));
    if k < i {
      SwapKeepsDistinct(s, i, j);
      DrawsUnique(Swap(s, i, j), draws, others, i - 1, k);
    }
  }
}
