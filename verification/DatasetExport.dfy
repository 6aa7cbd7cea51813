/** The exporter's one-pass join over a recorded bag and its emission loop. */
module DatasetExport {
  import opened Common

  datatype Kind = Observation | PolicyAction | TargetAction | ExecutedAction | Comparison | Unrelated

  /** A bag message: its topic, the observation it refers to, its content and, for observations, its images. */
  datatype Message = Message(kind: Kind, id: string, data: string, stamp: int, images: nat)

  // ----- the declarative side

  predicate Matches(m: Message, kind: Kind, id: string) {
    m.kind == kind && m.id == id && id != ""
  }

  /** `m` is the last message of its kind for this observation. */
  ghost predicate IsLast(bag: seq<Message>, kind: Kind, id: string, m: Message) {
    exists k :: 0 <= k < |bag| && bag[k] == m && Matches(m, kind, id) &&
                forall j :: k < j < |bag| ==> !Matches(bag[j], kind, id)
  }

  function Last(bag: seq<Message>, kind: Kind, id: string): (found: Option<Message>) {
    if bag == [] then None
    else if Matches(bag[|bag| - 1], kind, id) then Some(bag[|bag| - 1])
    else Last(bag[..|bag| - 1], kind, id)
  }

  lemma {:induction false} LastIsLast(bag: seq<Message>, kind: Kind, id: string)
    ensures var found := Last(bag, kind, id);
            if found.Some? then IsLast(bag, kind, id, found.value)
            else forall m :: m in bag ==> !Matches(m, kind, id)
  {
    if bag != [] {
      var n := |bag| - 1;
      assert bag == bag[..n] + [bag[n]];
      if Matches(bag[n], kind, id) {
        assert IsLast(bag, kind, id, bag[n]);
      } else {
        LastIsLast(bag[..n], kind, id);
        var found := Last(bag[..n], kind, id);
        if found.Some? {
          var k :| 0 <= k < n && bag[..n][k] == found.value &&
                   forall j :: k < j < n ==> !Matches(bag[..n][j], kind, id);
          assert bag[k] == found.value;
          forall j | k < j < |bag|
            ensures !Matches(bag[j], kind, id)
          {
            assert j < n ==> bag[..n][j] == bag[j];
          }
        }
      }
    }
  }

  /** The position of the first observation carrying this id; past the end when there is none. */
  function FirstIndex(bag: seq<Message>, id: string): (k: nat)
    ensures k <= |bag| && (k < |bag| ==> Matches(bag[k], Observation, id))
    ensures forall j :: 0 <= j < k ==> !Matches(bag[j], Observation, id)
  {
    if bag == [] then 0 else
    var n := |bag| - 1;
    var k := FirstIndex(bag[..n], id);
    assert forall j :: 0 <= j < n ==> bag[..n][j] == bag[j];
    if k < n then k else if Matches(bag[n], Observation, id) then n else n + 1
  }

  /** The distinct non-empty observation ids, by first appearance. */
  function FirstSeen(bag: seq<Message>): (ids: seq<string>) {
    if bag == [] then [] else
    var before, m := FirstSeen(bag[..|bag| - 1]), bag[|bag| - 1];
    if m.kind == Observation && m.id != "" && m.id !in before then before + [m.id] else before
  }

  /** `ids` lists exactly the observed ids, each once, and earlier first appearances come first. */
  ghost predicate ListsFirstSeen(bag: seq<Message>, ids: seq<string>) {
    && (forall i :: 0 <= i < |ids| ==> FirstIndex(bag, ids[i]) < |bag|)
    && (forall i, j :: 0 <= i < j < |ids| ==> FirstIndex(bag, ids[i]) < FirstIndex(bag, ids[j]))
    && (forall k :: 0 <= k < |bag| && bag[k].kind == Observation && bag[k].id != "" ==> bag[k].id in ids)
  }

  lemma {:induction false} FirstSeenLists(bag: seq<Message>)
    ensures ListsFirstSeen(bag, FirstSeen(bag))
  {
    if bag != [] {
      var n := |bag| - 1;
      var before, ids := FirstSeen(bag[..n]), FirstSeen(bag);
      FirstSeenLists(bag[..n]);
      forall i | 0 <= i < |ids|
        ensures FirstIndex(bag, ids[i]) == if i < |before| then FirstIndex(bag[..n], before[i]) else n
      {
        if i == |before| {
          if FirstIndex(bag[..n], ids[i]) < n {
            assert false;
          }
        }
      }
      forall k | 0 <= k < |bag| && bag[k].kind == Observation && bag[k].id != ""
        ensures bag[k].id in ids
      {
        assert k < n ==> bag[..n][k] == bag[k];
      }
    }
  }

  /** An observation with something to train on. */
  predicate Complete(bag: seq<Message>, id: string) {
    Last(bag, ExecutedAction, id).Some? || Last(bag, Comparison, id).Some?
  }

  datatype Frame = Frame(index: nat, id: string, observation: Option<Message>, action: Option<Message>,
                         target: Option<Message>, executed: Option<Message>, comparison: Option<Message>)

  /** The frame an id is entitled to: the last message of every kind. */
  function FrameFor(bag: seq<Message>, id: string, index: nat): (f: Frame) {
    Frame(index, id, Last(bag, Observation, id), Last(bag, PolicyAction, id), Last(bag, TargetAction, id),
          Last(bag, ExecutedAction, id), Last(bag, Comparison, id))
  }

  /** The ids that are exported, in order. */
  function Kept(bag: seq<Message>, ids: seq<string>, includeIncomplete: bool): (kept: seq<string>) {
    if ids == [] then [] else
    var before, id := Kept(bag, ids[..|ids| - 1], includeIncomplete), ids[|ids| - 1];
    if includeIncomplete || Complete(bag, id) then before + [id] else before
  }

  function IncompleteCount(bag: seq<Message>, ids: seq<string>): (n: nat) {
    if ids == [] then 0
    else IncompleteCount(bag, ids[..|ids| - 1]) + (if Complete(bag, ids[|ids| - 1]) then 0 else 1)
  }

  function ImageCount(frames: seq<Frame>): (n: nat) {
    if frames == [] then 0 else
    var f := frames[|frames| - 1];
    ImageCount(frames[..|frames| - 1]) + (if f.observation.Some? then f.observation.value.images else 0)
  }

  /** Without incomplete observations, frames and skipped observations make up all of them. */
  lemma {:induction false} KeptAndSkipped(bag: seq<Message>, ids: seq<string>, includeIncomplete: bool)
    ensures |Kept(bag, ids, includeIncomplete)| + (if includeIncomplete then 0 else IncompleteCount(bag, ids)) == |ids|
    ensures includeIncomplete ==> Kept(bag, ids, includeIncomplete) == ids
    ensures forall id :: id in Kept(bag, ids, includeIncomplete) <==>
              id in ids && (includeIncomplete || Complete(bag, id))
  {
    if ids != [] {
      var n := |ids| - 1;
      KeptAndSkipped(bag, ids[..n], includeIncomplete);
      assert ids == ids[..n] + [ids[n]];
    }
  }

  // ----- the reading loop

  type Table = map<string, Message>

  datatype Join = Join(order: seq<string>, observations: Table, actions: Table, targets: Table, executed: Table,
                       comparisons: Table)

  ghost predicate Tabulates(table: Table, bag: seq<Message>, kind: Kind) {
    forall id :: if id in table then Last(bag, kind, id) == Some(table[id]) else Last(bag, kind, id) == None
  }

  ghost predicate IsJoin(j: Join, bag: seq<Message>) {
    && j.order == FirstSeen(bag)
    && Tabulates(j.observations, bag, Observation) && Tabulates(j.actions, bag, PolicyAction)
    && Tabulates(j.targets, bag, TargetAction) && Tabulates(j.executed, bag, ExecutedAction)
    && Tabulates(j.comparisons, bag, Comparison)
  }

  lemma TabulatesNext(table: Table, bag: seq<Message>, m: Message, kind: Kind)
    requires Tabulates(table, bag, kind)
    ensures Tabulates(if m.kind == kind && m.id != "" then table[m.id := m] else table, bag + [m], kind)
  {
    assert (bag + [m])[..|bag|] == bag;
    assert forall id :: Last(bag, kind, id) == (if id in table then Some(table[id]) else None);
  }

  lemma {:induction false} SeenIsObserved(bag: seq<Message>, id: string)
    ensures id in FirstSeen(bag) <==> Last(bag, Observation, id).Some?
  {
    if bag != [] {
      SeenIsObserved(bag[..|bag| - 1], id);
    }
  }

  method ReadBag(bag: seq<Message>) returns (j: Join)
    ensures IsJoin(j, bag)
  {
    var observations, actions, targets, executed, comparisons: Table := map[], map[], map[], map[], map[];
    var order: seq<string> := [];
    for k := 0 to |bag|
      invariant IsJoin(Join(order, observations, actions, targets, executed, comparisons), bag[..k])
    {
      var m := bag[k];
      assert bag[..k + 1] == bag[..k] + [m] && bag[..k + 1][..k] == bag[..k];
      TabulatesNext(observations, bag[..k], m, Observation);
      TabulatesNext(actions, bag[..k], m, PolicyAction);
      TabulatesNext(targets, bag[..k], m, TargetAction);
      TabulatesNext(executed, bag[..k], m, ExecutedAction);
      TabulatesNext(comparisons, bag[..k], m, Comparison);
      SeenIsObserved(bag[..k], m.id);
      match m.kind {
        case Observation =>
          if m.id != "" {
            if m.id !in observations {
              order := order + [m.id];
            }
            observations := observations[m.id := m];
          }
        case PolicyAction =>
          if m.id != "" { actions := actions[m.id := m]; }
        case TargetAction =>
          if m.id != "" { targets := targets[m.id := m]; }
        case ExecutedAction =>
          if m.id != "" { executed := executed[m.id := m]; }
        case Comparison =>
          if m.id != "" { comparisons := comparisons[m.id := m]; }
        case Unrelated =>
      }
    }
    assert bag[..|bag|] == bag;
    j := Join(order, observations, actions, targets, executed, comparisons);
  }

  // ----- the emission loop

  datatype Stats = Stats(observations: nat, frames: nat, incomplete: nat, images: nat)

  function Lookup(table: Table, id: string): (m: Option<Message>) {
    if id in table then Some(table[id]) else None
  }

  /** Frame `i` is the frame of the `i`-th kept id. */
  ghost predicate Emitted(frames: seq<Frame>, bag: seq<Message>, kept: seq<string>) {
    |frames| == |kept| && forall i :: 0 <= i < |kept| ==> frames[i] == FrameFor(bag, kept[i], i)
  }

  lemma JoinedFrame(j: Join, bag: seq<Message>, id: string, index: nat)
    requires IsJoin(j, bag) && id in j.order
    ensures id in j.observations
    ensures FrameFor(bag, id, index) ==
            Frame(index, id, Some(j.observations[id]), Lookup(j.actions, id), Lookup(j.targets, id),
                  Lookup(j.executed, id), Lookup(j.comparisons, id))
  {
    SeenIsObserved(bag, id);
  }

  lemma EmittedNext(frames: seq<Frame>, bag: seq<Message>, kept: seq<string>, id: string)
    requires Emitted(frames, bag, kept)
    ensures Emitted(frames + [FrameFor(bag, id, |frames|)], bag, kept + [id])
    ensures ImageCount(frames + [FrameFor(bag, id, |frames|)]) ==
            ImageCount(frames) + (match Last(bag, Observation, id) case Some(m) => m.images case None => 0)
  {
    assert (frames + [FrameFor(bag, id, |frames|)])[..|frames|] == frames;
  }

  lemma PrefixNext(bag: seq<Message>, order: seq<string>, k: nat, includeIncomplete: bool)
    requires k < |order|
    ensures var before, after := order[..k], order[..k + 1];
            && Kept(bag, after, includeIncomplete) ==
                 Kept(bag, before, includeIncomplete) +
                 (if includeIncomplete || Complete(bag, order[k]) then [order[k]] else [])
            && IncompleteCount(bag, after) == IncompleteCount(bag, before) + (if Complete(bag, order[k]) then 0 else 1)
  {
    assert order[..k + 1][..k] == order[..k];
  }

  method Emit(j: Join, includeIncomplete: bool, ghost bag: seq<Message>) returns (frames: seq<Frame>, stats: Stats)
    requires IsJoin(j, bag)
    ensures Emitted(frames, bag, Kept(bag, FirstSeen(bag), includeIncomplete))
    ensures stats == Stats(|FirstSeen(bag)|, |frames|, IncompleteCount(bag, FirstSeen(bag)), ImageCount(frames))
  {
    frames := [];
    stats := Stats(|j.order|, 0, 0, 0);
    for k := 0 to |j.order|
      invariant Emitted(frames, bag, Kept(bag, j.order[..k], includeIncomplete))
      invariant stats == Stats(|j.order|, |frames|, IncompleteCount(bag, j.order[..k]), ImageCount(frames))
    {
      var id := j.order[k];
      PrefixNext(bag, j.order, k, includeIncomplete);
      JoinedFrame(j, bag, id, |frames|);
      var executed, comparison := Lookup(j.executed, id), Lookup(j.comparisons, id);
      var complete := executed.Some? || comparison.Some?;
      if !complete {
        stats := stats.(incomplete := stats.incomplete + 1);
      }
      if complete || includeIncomplete {
        var frame := Frame(stats.frames, id, Some(j.observations[id]), Lookup(j.actions, id),
                           Lookup(j.targets, id), executed, comparison);
        EmittedNext(frames, bag, Kept(bag, j.order[..k], includeIncomplete), id);
        stats := stats.(images := stats.images + j.observations[id].images);
        frames := frames + [frame];
        stats := stats.(frames := stats.frames + 1);
      }
    }
    assert j.order[..|j.order|] == j.order;
  }

  /** The export of a bag is its specification: the kept ids in first-seen order, each with the last message of
      every kind, contiguously numbered; the statistics account for every observation. */
  method Export(bag: seq<Message>, includeIncomplete: bool) returns (frames: seq<Frame>, stats: Stats)
    ensures Emitted(frames, bag, Kept(bag, FirstSeen(bag), includeIncomplete))
    ensures stats.observations == |FirstSeen(bag)| && stats.frames == |frames| && stats.images == ImageCount(frames)
    ensures if includeIncomplete then stats.frames == stats.observations
            else stats.frames + stats.incomplete == stats.observations
  {
    var j := ReadBag(bag);
    frames, stats := Emit(j, includeIncomplete, bag);
    KeptAndSkipped(bag, FirstSeen(bag), includeIncomplete);
  }

  /** `field` is the last message of the kind that names the observation, or none does. */
  ghost predicate LastOf(bag: seq<Message>, kind: Kind, id: string, field: Option<Message>) {
    if field.None? then forall m :: m in bag && m.kind == kind ==> m.id != id
    else
      exists k :: 0 <= k < |bag| && bag[k] == field.value && bag[k].kind == kind && bag[k].id == id &&
                  forall j :: k < j < |bag| && bag[j].kind == kind ==> bag[j].id != id
  }

  /** An executed action or a comparison names the observation. */
  ghost predicate Trainable(bag: seq<Message>, id: string) {
    exists m :: m in bag && m.id == id && (m.kind == ExecutedAction || m.kind == Comparison)
  }

  lemma LastMeans(bag: seq<Message>, kind: Kind, id: string)
    requires id != ""
    ensures LastOf(bag, kind, id, Last(bag, kind, id))
    ensures Last(bag, kind, id).Some? <==> exists m :: m in bag && m.kind == kind && m.id == id
  {
    LastIsLast(bag, kind, id);
    var found := Last(bag, kind, id);
    if found.Some? {
      assert found.value in bag && Matches(found.value, kind, id);
    } else {
      forall m | m in bag && m.kind == kind
        ensures m.id != id
      {
        assert !Matches(m, kind, id);
      }
    }
  }

  ghost predicate Ascends(ids: seq<string>, rank: string -> int) {
    forall i, j :: 0 <= i < j < |ids| ==> rank(ids[i]) < rank(ids[j])
  }

  lemma AscendsFurther(ids: seq<string>, id: string, rank: string -> int)
    requires Ascends(ids, rank) && forall x :: x in ids ==> rank(x) < rank(id)
    ensures Ascends(ids + [id], rank)
  {
  }

  lemma LastIsAbove(ids: seq<string>, rank: string -> int)
    requires ids != [] && Ascends(ids, rank)
    ensures Ascends(ids[..|ids| - 1], rank) && forall x :: x in ids[..|ids| - 1] ==> rank(x) < rank(ids[|ids| - 1])
  {
  }

  /** Leaving ids out keeps any order they were in. */
  lemma {:induction false} KeptAscends(bag: seq<Message>, ids: seq<string>, includeIncomplete: bool, rank: string -> int)
    requires Ascends(ids, rank)
    ensures Ascends(Kept(bag, ids, includeIncomplete), rank)
  {
    if ids != [] {
      var n := |ids| - 1;
      LastIsAbove(ids, rank);
      KeptAscends(bag, ids[..n], includeIncomplete, rank);
      KeptAndSkipped(bag, ids[..n], includeIncomplete);
      AscendsFurther(Kept(bag, ids[..n], includeIncomplete), ids[n], rank);
    }
  }

  /** What every exported frame holds, in terms of the bag. */
  lemma FramesExact(bag: seq<Message>, includeIncomplete: bool, frames: seq<Frame>, i: nat)
    requires Emitted(frames, bag, Kept(bag, FirstSeen(bag), includeIncomplete)) && i < |frames|
    ensures var f := frames[i];
            && f.index == i && f.id != "" && f.observation.Some?
            && LastOf(bag, Observation, f.id, f.observation) && LastOf(bag, PolicyAction, f.id, f.action)
            && LastOf(bag, TargetAction, f.id, f.target) && LastOf(bag, ExecutedAction, f.id, f.executed)
            && LastOf(bag, Comparison, f.id, f.comparison)
  {
    var ids := FirstSeen(bag);
    FirstSeenLists(bag);
    KeptAndSkipped(bag, ids, includeIncomplete);
    var id := frames[i].id;
    assert id in Kept(bag, ids, includeIncomplete);
    var k :| 0 <= k < |ids| && ids[k] == id;
    assert Matches(bag[FirstIndex(bag, id)], Observation, id);
    SeenIsObserved(bag, id);
    LastMeans(bag, Observation, id);
    LastMeans(bag, PolicyAction, id);
    LastMeans(bag, TargetAction, id);
    LastMeans(bag, ExecutedAction, id);
    LastMeans(bag, Comparison, id);
  }

  /** Which observations are exported: each observed id, if it is trainable or incomplete ones are wanted. */
  lemma ExportedExactly(bag: seq<Message>, includeIncomplete: bool, frames: seq<Frame>, m: Message)
    requires Emitted(frames, bag, Kept(bag, FirstSeen(bag), includeIncomplete))
    requires m in bag && m.kind == Observation && m.id != ""
    ensures (exists f :: f in frames && f.id == m.id) <==> includeIncomplete || Trainable(bag, m.id)
  {
    var kept := Kept(bag, FirstSeen(bag), includeIncomplete);
    FirstSeenLists(bag);
    KeptAndSkipped(bag, FirstSeen(bag), includeIncomplete);
    CompleteMeans(bag, m.id);
    FramesCarryIds(bag, frames, kept);
    assert m.id in FirstSeen(bag);
  }

  lemma FramesCarryIds(bag: seq<Message>, frames: seq<Frame>, kept: seq<string>)
    requires Emitted(frames, bag, kept)
    ensures forall id :: id in kept <==> exists f :: f in frames && f.id == id
  {
    forall i | 0 <= i < |kept|
      ensures frames[i] in frames && frames[i].id == kept[i]
    {
    }
    forall f | f in frames
      ensures f.id in kept
    {
      var i :| 0 <= i < |frames| && frames[i] == f;
      assert kept[i] == f.id;
    }
  }

  /** And in which order: by the first appearance in the bag, so that none is exported twice. */
  lemma ExportedInOrder(bag: seq<Message>, includeIncomplete: bool, frames: seq<Frame>, i: nat, j: nat)
    requires Emitted(frames, bag, Kept(bag, FirstSeen(bag), includeIncomplete)) && i < j < |frames|
    ensures FirstIndex(bag, frames[i].id) < FirstIndex(bag, frames[j].id)
  {
    var rank: string -> int := id => FirstIndex(bag, id);
    FirstSeenLists(bag);
    assert Ascends(FirstSeen(bag), rank);
    KeptAscends(bag, FirstSeen(bag), includeIncomplete, rank);
    var kept := Kept(bag, FirstSeen(bag), includeIncomplete);
    assert rank(kept[i]) < rank(kept[j]);
  }

  lemma CompleteMeans(bag: seq<Message>, id: string)
    requires id != ""
    ensures Complete(bag, id) <==> Trainable(bag, id)
  {
    LastMeans(bag, ExecutedAction, id);
    LastMeans(bag, Comparison, id);
  }
}
