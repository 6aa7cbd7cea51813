/** The episode-level split: reject duplicates, sort by id, shuffle by seed, slice by the allocated counts. */
module DatasetSplit {
  import A = Allocation
  import opened Shuffling

  datatype Episode = Episode(id: string, path: string, frames: nat, tasks: map<string, nat>)

  // ----- ids in code-point order

  predicate Precedes(a: string, b: string) {
    if b == [] then false
    else if a == [] then true
    else a[0] < b[0] || (a[0] == b[0] && Precedes(a[1..], b[1..]))
  }

  lemma {:induction false} PrecedesTotal(a: string, b: string)
    ensures a == b || Precedes(a, b) || Precedes(b, a)
  {
    if a != [] && b != [] && a[0] == b[0] {
      PrecedesTotal(a[1..], b[1..]);
      assert a == [a[0]] + a[1..] && b == [b[0]] + b[1..];
    }
  }

  lemma {:induction false} PrecedesAsymmetric(a: string, b: string)
    requires Precedes(a, b)
    ensures !Precedes(b, a) && a != b
  {
    if a != [] && a[0] == b[0] {
      PrecedesAsymmetric(a[1..], b[1..]);
    }
  }

  lemma {:induction false} PrecedesTransitive(a: string, b: string, c: string)
    requires Precedes(a, b) && Precedes(b, c)
    ensures Precedes(a, c)
  {
    if a != [] && a[0] == b[0] && b[0] == c[0] {
      PrecedesTransitive(a[1..], b[1..], c[1..]);
    }
  }

  /** Where `a` and `b` first differ: `a` ends there, or has the smaller code point. */
  predicate FirstDifference(a: string, b: string, k: nat) {
    k <= |a| && k < |b| && a[..k] == b[..k] && (k < |a| ==> a[k] < b[k])
  }

  lemma {:induction false} PrecedesExact(a: string, b: string)
    ensures Precedes(a, b) <==> exists k: nat :: FirstDifference(a, b, k)
  {
    if b != [] && a == [] {
      assert FirstDifference(a, b, 0);
    } else if b != [] {
      PrecedesExact(a[1..], b[1..]);
      if a[0] < b[0] {
        assert FirstDifference(a, b, 0);
      }
      if k: nat :| FirstDifference(a[1..], b[1..], k) {
        if a[0] == b[0] {
          assert a[..k + 1] == [a[0]] + a[1..][..k] && b[..k + 1] == [b[0]] + b[1..][..k];
          assert FirstDifference(a, b, k + 1);
        }
      }
      if k: nat :| FirstDifference(a, b, k) {
        if k > 0 {
          assert a[0] == a[..k][0] == b[..k][0] == b[0];
          assert a[1..][..k - 1] == a[..k][1..] && b[1..][..k - 1] == b[..k][1..];
          assert FirstDifference(a[1..], b[1..], k - 1);
        }
      }
    }
  }

  // ----- sorting

  ghost predicate DistinctIds(es: seq<Episode>) {
    forall i, j :: 0 <= i < j < |es| ==> es[i].id != es[j].id
  }

  ghost predicate SortedById(es: seq<Episode>) {
    forall i, j :: 0 <= i < j < |es| ==> !Precedes(es[j].id, es[i].id)
  }

  /** A stable sort by id. */
  function Sorted(es: seq<Episode>): (r: seq<Episode>) {
    if es == [] then [] else Insert(Sorted(es[..|es| - 1]), es[|es| - 1])
  }

  function Insert(es: seq<Episode>, e: Episode): (r: seq<Episode>)
    ensures multiset(r) == multiset(es) + multiset{e}
  {
    if es == [] then [e] else
    var n := |es| - 1;
    assert es == es[..n] + [es[n]];
    if Precedes(e.id, es[n].id) then Insert(es[..n], e) + [es[n]] else es + [e]
  }

  lemma AppendKeepsSorted(es: seq<Episode>, e: Episode)
    requires SortedById(es) && forall x :: x in es ==> !Precedes(e.id, x.id)
    ensures SortedById(es + [e])
  {
  }

  /** What precedes no last element precedes none. */
  lemma LastBounds(es: seq<Episode>, e: Episode)
    requires SortedById(es) && es != [] && !Precedes(e.id, es[|es| - 1].id)
    ensures forall x :: x in es ==> !Precedes(e.id, x.id)
  {
    var last := es[|es| - 1];
    forall i | 0 <= i < |es| - 1
      ensures !Precedes(e.id, es[i].id)
    {
      if Precedes(e.id, es[i].id) {
        PrecedesTotal(es[i].id, last.id);
        if Precedes(es[i].id, last.id) {
          PrecedesTransitive(e.id, es[i].id, last.id);
        }
        assert false;
      }
    }
  }

  lemma InsertedStayBelow(es: seq<Episode>, e: Episode, last: Episode)
    requires Precedes(e.id, last.id) && forall x :: x in es ==> !Precedes(last.id, x.id)
    ensures forall x :: x in Insert(es, e) ==> !Precedes(last.id, x.id)
  {
    PrecedesAsymmetric(e.id, last.id);
    forall x | x in Insert(es, e)
      ensures x == e || x in es
    {
      assert x in multiset(Insert(es, e));
    }
  }

  lemma {:induction false} InsertKeepsSorted(es: seq<Episode>, e: Episode)
    requires SortedById(es)
    ensures SortedById(Insert(es, e))
  {
    if es != [] {
      var n := |es| - 1;
      if Precedes(e.id, es[n].id) {
        InsertKeepsSorted(es[..n], e);
        InsertedStayBelow(es[..n], e, es[n]);
        AppendKeepsSorted(Insert(es[..n], e), es[n]);
      } else {
        LastBounds(es, e);
        AppendKeepsSorted(es, e);
      }
    }
  }

  lemma {:induction false} SortedSorts(es: seq<Episode>)
    ensures SortedById(Sorted(es)) && multiset(Sorted(es)) == multiset(es)
  {
    if es != [] {
      var n := |es| - 1;
      SortedSorts(es[..n]);
      InsertKeepsSorted(Sorted(es[..n]), es[n]);
      assert es == es[..n] + [es[n]];
    }
  }

  lemma DistinctIsAMultisetFact(es: seq<Episode>, fs: seq<Episode>)
    requires DistinctIds(es) && multiset(es) == multiset(fs)
    ensures DistinctIds(fs)
  {
    forall i, j | 0 <= i < j < |fs|
      ensures fs[i].id != fs[j].id
    {
      assert fs[i] in multiset(es) && fs[j] in multiset(es);
      if fs[i] == fs[j] {
        TwiceIn(fs, i, j);
        var p :| 0 <= p < |es| && es[p] == fs[i];
        OnceIn(es, p);
        assert false;
      }
    }
  }

  lemma TwiceIn(es: seq<Episode>, i: nat, j: nat)
    requires i < j < |es| && es[i] == es[j]
    ensures multiset(es)[es[i]] >= 2
  {
    assert es == es[..j] + [es[j]] + es[j + 1..];
    assert es[..j] == es[..i] + [es[i]] + es[i + 1..j];
  }

  lemma OnceIn(es: seq<Episode>, p: nat)
    requires DistinctIds(es) && p < |es|
    ensures multiset(es)[es[p]] == 1
  {
    assert es == es[..p] + [es[p]] + es[p + 1..];
  }

  lemma LastIsGreatest(es: seq<Episode>, e: Episode)
    requires SortedById(es) && es != [] && e in multiset(es)
    ensures e == es[|es| - 1] || !Precedes(es[|es| - 1].id, e.id)
  {
    var p :| 0 <= p < |es| && es[p] == e;
  }

  lemma SameId(es: seq<Episode>, d: Episode, e: Episode)
    requires DistinctIds(es) && d in multiset(es) && e in multiset(es) && d.id == e.id
    ensures d == e
  {
    var p :| 0 <= p < |es| && es[p] == d;
    var q :| 0 <= q < |es| && es[q] == e;
  }

  lemma LastsAgree(es: seq<Episode>, fs: seq<Episode>)
    requires SortedById(es) && SortedById(fs) && DistinctIds(es) && multiset(es) == multiset(fs)
    requires es != [] && fs != []
    ensures es[|es| - 1] == fs[|fs| - 1]
  {
    var d, e := es[|es| - 1], fs[|fs| - 1];
    LastIsGreatest(es, e);
    LastIsGreatest(fs, d);
    PrecedesTotal(d.id, e.id);
    SameId(es, d, e);
  }

  lemma FrontsAgree(es: seq<Episode>, fs: seq<Episode>)
    requires multiset(es) == multiset(fs) && es != [] && fs != [] && es[|es| - 1] == fs[|fs| - 1]
    ensures multiset(es[..|es| - 1]) == multiset(fs[..|fs| - 1])
  {
    LastOut(es);
    LastOut(fs);
  }

  lemma LastOut(es: seq<Episode>)
    requires es != []
    ensures multiset(es[..|es| - 1]) == multiset(es) - multiset{es[|es| - 1]}
  {
    assert es == es[..|es| - 1] + [es[|es| - 1]];
  }

  /** Two sorted lists of the same distinct episodes are the same list. */
  lemma {:induction false} SortedUnique(es: seq<Episode>, fs: seq<Episode>)
    requires SortedById(es) && SortedById(fs) && DistinctIds(es) && multiset(es) == multiset(fs)
    ensures es == fs
  {
    assert |multiset(es)| == |multiset(fs)|;
    if es != [] {
      var n := |es| - 1;
      LastsAgree(es, fs);
      FrontsAgree(es, fs);
      SortedUnique(es[..n], fs[..n]);
    }
  }

  // ----- arranging

  function Arranged(es: seq<Episode>, draws: Draws): (r: seq<Episode>)
    ensures |r| == |es|
  {
    SortedSorts(es);
    assert |multiset(Sorted(es))| == |multiset(es)|;
    Shuffled(Sorted(es), draws, if |es| == 0 then 0 else |es| - 1)
  }

  /** The order in which the datasets are named does not matter: for the same seed the arranged list, and with it
      every split, is the same. */
  lemma OrderIndependent(es: seq<Episode>, fs: seq<Episode>, draws: Draws)
    requires DistinctIds(es) && multiset(es) == multiset(fs)
    ensures Arranged(es, draws) == Arranged(fs, draws)
  {
    SortedSorts(es);
    SortedSorts(fs);
    assert |multiset(es)| == |multiset(fs)|;
    DistinctIsAMultisetFact(es, Sorted(es));
    SortedUnique(Sorted(es), Sorted(fs));
  }

  // ----- counting

  function Frames(es: seq<Episode>): (n: nat) {
    if es == [] then 0 else Frames(es[..|es| - 1]) + es[|es| - 1].frames
  }

  function TaskFrames(e: Episode, task: string): (n: nat) {
    if task in e.tasks then e.tasks[task] else 0
  }

  function Tasks(es: seq<Episode>, task: string): (n: nat) {
    if es == [] then 0 else Tasks(es[..|es| - 1], task) + TaskFrames(es[|es| - 1], task)
  }

  lemma {:induction false} CountsAdd(es: seq<Episode>, fs: seq<Episode>, task: string)
    ensures Frames(es + fs) == Frames(es) + Frames(fs) && Tasks(es + fs, task) == Tasks(es, task) + Tasks(fs, task)
  {
    if fs == [] {
      assert es + fs == es;
    } else {
      var n := |fs| - 1;
      assert (es + fs)[..|es + fs| - 1] == es + fs[..n];
      CountsAdd(es, fs[..n], task);
    }
  }

  function Without(es: seq<Episode>, k: nat): (r: seq<Episode>)
    requires k < |es|
  {
    es[..k] + es[k + 1..]
  }

  lemma WithoutMultiset(es: seq<Episode>, k: nat)
    requires k < |es|
    ensures multiset(Without(es, k)) == multiset(es) - multiset{es[k]}
  {
    assert es == es[..k] + [es[k]] + es[k + 1..];
  }

  lemma WithoutCounts(es: seq<Episode>, k: nat, task: string)
    requires k < |es|
    ensures Frames(es) == Frames(Without(es, k)) + es[k].frames
    ensures Tasks(es, task) == Tasks(Without(es, k), task) + TaskFrames(es[k], task)
  {
    assert es == (es[..k] + [es[k]]) + es[k + 1..];
    CountsAdd(es[..k] + [es[k]], es[k + 1..], task);
    assert (es[..k] + [es[k]])[..k] == es[..k];
    CountsAdd(es[..k], es[k + 1..], task);
  }

  /** Counting does not depend on the order. */
  lemma {:induction false} CountsPermute(es: seq<Episode>, fs: seq<Episode>, task: string)
    requires multiset(es) == multiset(fs)
    ensures Frames(es) == Frames(fs) && Tasks(es, task) == Tasks(fs, task)
    decreases |es|
  {
    assert |multiset(es)| == |multiset(fs)|;
    if es != [] {
      assert es[0] in multiset(fs);
      var k :| 0 <= k < |fs| && fs[k] == es[0];
      WithoutMultiset(es, 0);
      WithoutMultiset(fs, k);
      CountsPermute(Without(es, 0), Without(fs, k), task);
      WithoutCounts(es, 0, task);
      WithoutCounts(fs, k, task);
    }
  }

  datatype Summary = Summary(episodes: nat, frames: nat, tasks: map<string, nat>)

  /** The summary counts the entries, their frames and, task by task, their task frames. */
  ghost predicate Summarizes(s: Summary, es: seq<Episode>) {
    && s.episodes == |es| && s.frames == Frames(es)
    && (forall task :: (if task in s.tasks then s.tasks[task] else 0) == Tasks(es, task))
  }

  method Summarize(entries: seq<Episode>) returns (s: Summary)
    ensures Summarizes(s, entries)
  {
    var tasks: map<string, nat> := map[];
    var frames: nat := 0;
    for k := 0 to |entries|
      invariant Summarizes(Summary(k, frames, tasks), entries[..k])
    {
      assert entries[..k + 1][..k] == entries[..k];
      var entry := entries[k];
      ghost var before := tasks;
      tasks := map t | t in tasks.Keys + entry.tasks.Keys ::
                 (if t in tasks then tasks[t] else 0) + (if t in entry.tasks then entry.tasks[t] else 0);
      frames := frames + entry.frames;
    }
    assert entries[..|entries|] == entries;
    s := Summary(|entries|, frames, tasks);
  }

  // ----- the split

  datatype Outcome = Manifest(splits: seq<seq<Episode>>, summaries: seq<Summary>, warnings: seq<int>) |
                     DuplicateIds | BadRatios(reason: A.Outcome)

  /** The three splits are consecutive slices that use up the arranged list. */
  ghost predicate SlicesOf(arranged: seq<Episode>, splits: seq<seq<Episode>>) {
    |splits| == 3 && splits[0] + splits[1] + splits[2] == arranged
  }

  function Sizes(splits: seq<seq<Episode>>): (c: A.Counts)
    requires |splits| == 3
  {
    [|splits[0]|, |splits[1]|, |splits[2]|]
  }

  lemma SlicesDetermined(all: seq<Episode>, s: seq<seq<Episode>>, t: seq<seq<Episode>>)
    requires SlicesOf(all, s) && SlicesOf(all, t) && Sizes(s) == Sizes(t)
    ensures s == t
  {
    assert Sizes(s)[0] == Sizes(t)[0] && Sizes(s)[1] == Sizes(t)[1];
    assert s[0] == all[..|s[0]|] == t[0];
    assert s[1] == all[|s[0]|..|s[0]| + |s[1]|] == t[1];
    assert s[2] == all[|s[0]| + |s[1]|..] == t[2];
  }

  /** Naming the same datasets in another order, with the same seed and ratios, gives the very same splits. */
  lemma SplitsOrderIndependent(es: seq<Episode>, fs: seq<Episode>, ratios: A.Ratios, draws: Draws,
                               s: seq<seq<Episode>>, t: seq<seq<Episode>>)
    requires DistinctIds(es) && multiset(es) == multiset(fs) && A.Usable(ratios)
    requires SlicesOf(Arranged(es, draws), s) && A.IsAllocation(|es|, ratios, Sizes(s))
    requires SlicesOf(Arranged(fs, draws), t) && A.IsAllocation(|fs|, ratios, Sizes(t))
    ensures s == t
  {
    OrderIndependent(es, fs, draws);
    assert |multiset(es)| == |multiset(fs)|;
    A.AllocationUnique(|es|, ratios, Sizes(s), Sizes(t));
    SlicesDetermined(Arranged(es, draws), s, t);
  }

  /** Every episode is in exactly one split. */
  ghost predicate Partitions(es: seq<Episode>, splits: seq<seq<Episode>>)
    requires |splits| == 3
  {
    forall e :: e in es <==> (e in splits[0] && e !in splits[1] && e !in splits[2]) ||
                             (e !in splits[0] && e in splits[1] && e !in splits[2]) ||
                             (e !in splits[0] && e !in splits[1] && e in splits[2])
  }

  lemma SlicesPartition(es: seq<Episode>, arranged: seq<Episode>, splits: seq<seq<Episode>>)
    requires DistinctIds(es) && multiset(arranged) == multiset(es) && SlicesOf(arranged, splits)
    ensures Partitions(es, splits)
    ensures forall e :: !(e in splits[0] && e in splits[1]) && !(e in splits[1] && e in splits[2]) &&
                        !(e in splits[0] && e in splits[2])
  {
    DistinctIsAMultisetFact(es, arranged);
    var a, b, c := splits[0], splits[1], splits[2];
    forall e
      ensures e in es <==> e in a || e in b || e in c
      ensures !(e in a && e in b) && !(e in b && e in c) && !(e in a && e in c)
    {
      assert e in es <==> e in multiset(arranged);
      assert multiset(arranged) == multiset(a) + multiset(b) + multiset(c);
      if e in arranged {
        var p :| 0 <= p < |arranged| && arranged[p] == e;
        OnceIn(arranged, p);
      }
    }
  }

  /** The split summaries add up to the whole input, frame by frame and task by task. */
  lemma SummariesAddUp(es: seq<Episode>, arranged: seq<Episode>, splits: seq<seq<Episode>>, task: string)
    requires multiset(arranged) == multiset(es) && SlicesOf(arranged, splits)
    ensures |splits[0]| + |splits[1]| + |splits[2]| == |es|
    ensures Frames(splits[0]) + Frames(splits[1]) + Frames(splits[2]) == Frames(es)
    ensures Tasks(splits[0], task) + Tasks(splits[1], task) + Tasks(splits[2], task) == Tasks(es, task)
  {
    assert |multiset(arranged)| == |multiset(es)|;
    CountsAdd(splits[0], splits[1], task);
    CountsAdd(splits[0] + splits[1], splits[2], task);
    CountsPermute(arranged, es, task);
  }

  method HasDuplicates(es: seq<Episode>) returns (found: bool)
    ensures found <==> !DistinctIds(es)
  {
    var seen: set<string> := {};
    for k := 0 to |es|
      invariant seen == (set i | 0 <= i < k :: es[i].id)
      invariant DistinctIds(es[..k])
    {
      if es[k].id in seen {
        ghost var i :| 0 <= i < k && es[i].id == es[k].id;
        return true;
      }
      seen := seen + {es[k].id};
    }
    assert es[..|es|] == es;
    found := false;
  }

  method Shuffle(es: seq<Episode>, draws: Draws) returns (r: seq<Episode>)
    ensures r == Shuffled(es, draws, if |es| == 0 then 0 else |es| - 1)
  {
    r := es;
    var i := |es| - 1;
    while i >= 1
      invariant |r| == |es| && (i >= 0 || |es| == 0)
      invariant Shuffled(r, draws, if i < 0 then 0 else i) ==
                Shuffled(es, draws, if |es| == 0 then 0 else |es| - 1)
    {
      var j := draws(i) % (i + 1);
      r := Swap(r, i, j);
      i := i - 1;
    }
  }

  /** The slice, summary and warning loops of `main`; a warning names a split whose ratio asked for episodes. */
  method Slice(episodes: seq<Episode>, counts: A.Counts, ratios: A.Ratios)
    returns (splits: seq<seq<Episode>>, summaries: seq<Summary>, warnings: seq<int>)
    requires (forall i :: 0 <= i < 3 ==> counts[i] >= 0) && A.Total(counts) == |episodes|
    ensures SlicesOf(episodes, splits) && forall i :: 0 <= i < 3 ==> |splits[i]| == counts[i]
    ensures |summaries| == 3 && forall i :: 0 <= i < 3 ==> Summarizes(summaries[i], splits[i])
    ensures forall i :: i in warnings <==> 1 <= i < 3 && ratios[i] > 0.0 && splits[i] == []
  {
    splits, summaries, warnings := [], [], [];
    var offset := 0;
    for name := 0 to 3
      invariant |splits| == |summaries| == name
      invariant offset == (if name > 0 then counts[0] else 0) + (if name > 1 then counts[1] else 0) +
                          (if name > 2 then counts[2] else 0)
      invariant name > 0 ==> splits[0] == episodes[..counts[0]]
      invariant name > 1 ==> splits[1] == episodes[counts[0]..counts[0] + counts[1]]
      invariant name > 2 ==> splits[2] == episodes[counts[0] + counts[1]..counts[0] + counts[1] + counts[2]]
      invariant forall i :: 0 <= i < name ==> Summarizes(summaries[i], splits[i])
      invariant forall i :: i in warnings <==> 1 <= i < name && ratios[i] > 0.0 && splits[i] == []
    {
      var entries := episodes[offset..offset + counts[name]];
      var summary := Summarize(entries);
      splits := splits + [entries];
      summaries := summaries + [summary];
      if name != A.TRAIN && ratios[name] > 0.0 && entries == [] {
        warnings := warnings + [name];
      }
      offset := offset + counts[name];
    }
  }

  /** With at least three episodes a fair allocation leaves no requested split empty, so nothing is warned about. */
  lemma FairFillsEverySplit(n: nat, ratios: A.Ratios, splits: seq<seq<Episode>>, i: nat)
    requires |splits| == 3 && n >= 3 && A.Usable(ratios) && i < 3 && ratios[i] > 0.0
    requires A.Fair(n, ratios, Sizes(splits))
    ensures splits[i] != []
  {
    assert Sizes(splits)[i] >= 1;
  }

  /** Sort and shuffle. */
  method Arrange(datasets: seq<Episode>, draws: Draws) returns (episodes: seq<Episode>)
    ensures episodes == Arranged(datasets, draws) && multiset(episodes) == multiset(datasets)
  {
    SortedSorts(datasets);
    assert |multiset(Sorted(datasets))| == |multiset(datasets)|;
    episodes := Sorted(datasets);
    ShuffledPermutes(episodes, draws, if |episodes| == 0 then 0 else |episodes| - 1);
    episodes := Shuffle(episodes, draws);
  }

  /** `main` after the allocation. */
  method Divide(datasets: seq<Episode>, counts: A.Counts, ratios: A.Ratios, draws: Draws)
    returns (splits: seq<seq<Episode>>, summaries: seq<Summary>, warnings: seq<int>)
    requires DistinctIds(datasets) && A.Total(counts) == |datasets| && forall i :: 0 <= i < 3 ==> counts[i] >= 0
    ensures SlicesOf(Arranged(datasets, draws), splits) && Partitions(datasets, splits)
    ensures Sizes(splits) == counts
    ensures |summaries| == 3 && forall i :: 0 <= i < 3 ==> Summarizes(summaries[i], splits[i])
    ensures forall i :: i in warnings <==> 1 <= i < 3 && ratios[i] > 0.0 && splits[i] == []
  {
    var episodes := Arrange(datasets, draws);
    splits, summaries, warnings := Slice(episodes, counts, ratios);
    SlicesPartition(datasets, episodes, splits);
  }

  method SplitEpisodes(datasets: seq<Episode>, ratios: A.Ratios, draws: Draws) returns (outcome: Outcome)
    ensures outcome.DuplicateIds? <==> !DistinctIds(datasets)
    ensures outcome.Manifest? <==> DistinctIds(datasets) && A.Usable(ratios)
    ensures outcome.Manifest? ==>
              && SlicesOf(Arranged(datasets, draws), outcome.splits) && Partitions(datasets, outcome.splits)
              && A.IsAllocation(|datasets|, ratios, Sizes(outcome.splits))
              && A.Fair(|datasets|, ratios, Sizes(outcome.splits))
              && |outcome.summaries| == 3
              && (forall i :: 0 <= i < 3 ==> Summarizes(outcome.summaries[i], outcome.splits[i]))
              && (forall i :: i in outcome.warnings <==> 1 <= i < 3 && ratios[i] > 0.0 && outcome.splits[i] == [])
  {
    var duplicated := HasDuplicates(datasets);
    if duplicated {
      return DuplicateIds;
    }
    var allocation := A.AllocateCounts(|datasets|, ratios);
    if !allocation.Allocated? {
      return BadRatios(allocation);
    }
    var splits, summaries, warnings := Divide(datasets, allocation.counts, ratios, draws);
    return Manifest(splits, summaries, warnings);
  }
}
