/** The action runtime: accept a chunk of policy samples, play one per tick until the chunk expires. */
module ActionRuntime {
  import opened Common

  datatype Sample = Sample(observationId: string, schema: string, schemaHash: string, names: seq<string>,
                           units: seq<string>, values: seq<Num>)

  /** `legacy` holds the planar velocities of the deprecated twist field. */
  datatype PolicyAction = PolicyAction(
    requestId: string, observationId: string, schema: string, schemaHash: string, names: seq<string>,
    units: seq<string>, generatedAt: int, validUntil: int, vectors: seq<seq<Num>>, legacy: seq<(Num, Num)>)

  /** The `MobilityAdapter` interface; `None` is any exception `convert` throws. */
  datatype Adapter = Adapter(accepts: Sample -> bool, convert: Sample -> Option<Twist>)

  const TWIST_SCHEMA := "vehicle.twist_chunk.v1"

  // ----- adapters

  predicate AcceptsTwist(sample: Sample) {
    sample.schema == TWIST_SCHEMA || sample.schema == "chitu.action.differential.v1" ||
    sample.schema == "chitu.action.mecanum.v1"
  }

  predicate AcceptsAckermann(sample: Sample) {
    sample.schema == "chitu.action.ackermann.v1"
  }

  function IndexOf(names: seq<string>, wanted: string, k: nat): (i: Option<nat>)
    requires k <= |names|
    ensures i.Some? ==> k <= i.value < |names| && names[i.value] == wanted && wanted !in names[k..i.value]
    ensures i.None? <==> wanted !in names[k..]
    decreases |names| - k
  {
    if k == |names| then None
    else if names[k] == wanted then Some(k)
    else
      assert names[k..] == [names[k]] + names[k + 1..];
      var i := IndexOf(names, wanted, k + 1);
      assert i.Some? ==> names[k..i.value] == [names[k]] + names[k + 1..i.value];
      i
  }

  /** The `a`-th accepted name is the earliest one present, and `i` is its first position. */
  ghost predicate FirstFeature(names: seq<string>, accepted: seq<string>, a: nat, i: nat) {
    && a < |accepted| && i < |names| && names[i] == accepted[a] && accepted[a] !in names[..i]
    && (forall b :: 0 <= b < a ==> accepted[b] !in names)
  }

  /** The first accepted name that is present decides; `None` is the source's exception. */
  function FindFeature(names: seq<string>, accepted: seq<string>): (i: Option<nat>)
    ensures i.Some? ==> exists a: nat :: FirstFeature(names, accepted, a, i.value)
    ensures i.None? <==> forall a :: a in accepted ==> a !in names
  {
    if accepted == [] then None else
    assert names[0..] == names && accepted == [accepted[0]] + accepted[1..];
    var first := IndexOf(names, accepted[0], 0);
    if first.Some? then
      assert FirstFeature(names, accepted, 0, first.value);
      first
    else
      var i := FindFeature(names, accepted[1..]);
      LaterFeature(names, accepted, i);
      i
  }

  lemma LaterFeature(names: seq<string>, accepted: seq<string>, i: Option<nat>)
    requires |accepted| > 0 && accepted[0] !in names
    requires i.Some? ==> exists a: nat :: FirstFeature(names, accepted[1..], a, i.value)
    ensures i.Some? ==> exists a: nat :: FirstFeature(names, accepted, a, i.value)
  {
    if i.Some? {
      var a: nat :| FirstFeature(names, accepted[1..], a, i.value);
      forall b | 0 <= b < a + 1
        ensures accepted[b] !in names
      {
        if b > 0 {
          assert accepted[b] == accepted[1..][b - 1];
        }
      }
      assert FirstFeature(names, accepted, a + 1, i.value);
    }
  }

  function FiniteValue(sample: Sample, index: Option<nat>): (v: Option<real>) {
    if index.None? || index.value >= |sample.values| || sample.values[index.value].NonFinite? then None
    else Some(sample.values[index.value].value)
  }

  /** The first lateral feature, if any. */
  function FindLateral(names: seq<string>, k: nat): (i: Option<nat>)
    requires k <= |names|
    decreases |names| - k
  {
    if k == |names| then None
    else if names[k] == "linear_y" || names[k] == "linear_y_mps" then Some(k)
    else FindLateral(names, k + 1)
  }

  function ConvertTwist(sample: Sample): (t: Option<Twist>) {
    var linear := FiniteValue(sample, FindFeature(sample.names, ["linear_x", "linear_x_mps"]));
    var angular := FiniteValue(sample, FindFeature(sample.names, ["angular_z", "angular_z_radps"]));
    var side := FindLateral(sample.names, 0);
    var lateral := if side.None? then Some(0.0) else FiniteValue(sample, side);
    if linear.None? || lateral.None? || angular.None? then None
    else Some(Twist(linear.value, lateral.value, 0.0, 0.0, 0.0, angular.value))
  }

  function ConvertAckermann(steeringAngle: bool, yawRate: (real, real) -> Num, sample: Sample): (t: Option<Twist>) {
    var speed := FiniteValue(sample, FindFeature(sample.names, ["speed_mps"]));
    var angle := FiniteValue(sample, FindFeature(sample.names, ["steering_angle_rad"]));
    if speed.None? || angle.None? then None else
    var turn := if steeringAngle then Finite(angle.value) else yawRate(speed.value, angle.value);
    if turn.NonFinite? then None else Some(Planar(speed.value, turn.value))
  }

  const TWIST_ADAPTER := Adapter(AcceptsTwist, ConvertTwist)

  /** `yawRate` is the formula `speed * tan(angle) / wheelbase`. */
  function AckermannAdapter(steeringAngle: bool, yawRate: (real, real) -> Num): (adapter: Adapter) {
    Adapter(AcceptsAckermann, sample => ConvertAckermann(steeringAngle, yawRate, sample))
  }

  // ----- the queue

  function VectorSamples(m: PolicyAction): (samples: seq<Sample>) {
    seq(|m.vectors|, i requires 0 <= i < |m.vectors| =>
      Sample(m.observationId, m.schema, m.schemaHash, m.names, m.units, m.vectors[i]))
  }

  function LegacySamples(m: PolicyAction): (samples: seq<Sample>) {
    seq(|m.legacy|, i requires 0 <= i < |m.legacy| =>
      Sample(m.observationId, m.schema, m.schemaHash, ["linear_x", "angular_z"], ["m/s", "rad/s"],
             [m.legacy[i].0, m.legacy[i].1]))
  }

  function SamplesFrom(m: PolicyAction): (samples: seq<Sample>) {
    if m.vectors != [] then VectorSamples(m)
    else if m.schema != TWIST_SCHEMA then []
    else LegacySamples(m)
  }

  /** How many samples a message carries. */
  function SampleCount(m: PolicyAction): (n: nat) {
    if |m.vectors| > 0 then |m.vectors| else if m.schema == "vehicle.twist_chunk.v1" then |m.legacy| else 0
  }

  /** The `i`-th vector under the message's own names and units, or its `i`-th legacy twist under the standard ones. */
  predicate Carries(m: PolicyAction, i: nat, sample: Sample) {
    && i < SampleCount(m)
    && sample.observationId == m.observationId && sample.schema == m.schema && sample.schemaHash == m.schemaHash
    && (if |m.vectors| > 0 then
          sample.values == m.vectors[i] && sample.names == m.names && sample.units == m.units
        else
          sample.values == [m.legacy[i].0, m.legacy[i].1] &&
          sample.names == ["linear_x", "angular_z"] && sample.units == ["m/s", "rad/s"])
  }

  lemma SamplesCarry(m: PolicyAction)
    ensures |SamplesFrom(m)| == SampleCount(m)
    ensures forall i :: 0 <= i < SampleCount(m) ==> Carries(m, i, SamplesFrom(m)[i])
  {
  }

  predicate Playable(adapter: Adapter, sample: Sample) {
    adapter.accepts(sample) && adapter.convert(sample).Some?
  }

  predicate AllPlayable(adapter: Adapter, samples: seq<Sample>) {
    forall i :: 0 <= i < |samples| ==> Playable(adapter, samples[i])
  }

  datatype QueueState = QueueState(actions: seq<Sample>, validUntil: int, lastGeneratedAt: int, requestId: string)

  const INITIAL := QueueState([], 0, 0, "")

  predicate Admits(adapter: Adapter, s: QueueState, m: PolicyAction) {
    SamplesFrom(m) != [] && AllPlayable(adapter, SamplesFrom(m)) && m.generatedAt >= s.lastGeneratedAt
  }

  function OnAction(adapter: Adapter, s: QueueState, m: PolicyAction): (s': QueueState) {
    if Admits(adapter, s, m) then QueueState(SamplesFrom(m), m.validUntil, m.generatedAt, m.requestId) else s
  }

  predicate Plays(s: QueueState, now: int) {
    now <= s.validUntil && s.actions != []
  }

  function Advance(s: QueueState, now: int): (s': QueueState) {
    s.(actions := if Plays(s, now) then s.actions[1..] else [])
  }

  /** The velocity a tick publishes; a conversion failure would publish zero. */
  function Output(adapter: Adapter, s: QueueState, now: int): (t: Twist) {
    if Plays(s, now) && adapter.convert(s.actions[0]).Some? then adapter.convert(s.actions[0]).value else ZERO
  }

  class Node {
    const adapter: Adapter
    var actions: seq<Sample>
    var validUntil: int
    var lastGeneratedAt: int
    var requestId: string

    function View(): (s: QueueState)
      reads this
    {
      QueueState(actions, validUntil, lastGeneratedAt, requestId)
    }

    constructor (adapter: Adapter)
      ensures this.adapter == adapter && View() == INITIAL
    {
      this.adapter := adapter;
      actions, validUntil, lastGeneratedAt, requestId := [], 0, 0, "";
    }

    method Samples(m: PolicyAction) returns (samples: seq<Sample>)
      ensures samples == SamplesFrom(m)
    {
      samples := [];
      if m.vectors != [] {
        for i := 0 to |m.vectors|
          invariant samples == VectorSamples(m)[..i]
        {
          samples := samples + [Sample(m.observationId, m.schema, m.schemaHash, m.names, m.units, m.vectors[i])];
        }
        return;
      }
      if m.schema != TWIST_SCHEMA {
        return;
      }
      for i := 0 to |m.legacy|
        invariant samples == LegacySamples(m)[..i]
      {
        samples := samples + [Sample(m.observationId, m.schema, m.schemaHash, ["linear_x", "angular_z"],
                                     ["m/s", "rad/s"], [m.legacy[i].0, m.legacy[i].1])];
      }
    }

    method ActionReceived(m: PolicyAction)
      modifies this
      ensures View() == OnAction(adapter, old(View()), m)
    {
      var samples := Samples(m);
      if samples == [] {
        return;
      }
      for i := 0 to |samples|
        invariant View() == old(View())
        invariant AllPlayable(adapter, samples[..i])
      {
        if !adapter.accepts(samples[i]) {
          return;
        }
        var converted := adapter.convert(samples[i]);
        if converted.None? {
          return;
        }
      }
      assert samples[..|samples|] == samples;
      if m.generatedAt < lastGeneratedAt {
        return;
      }
      actions, validUntil, lastGeneratedAt, requestId := samples, m.validUntil, m.generatedAt, m.requestId;
    }

    method Execute(now: int) returns (twist: Twist, played: Option<Sample>)
      modifies this`actions
      ensures View() == Advance(old(View()), now) && twist == Output(adapter, old(View()), now)
      ensures played == if Plays(old(View()), now) then Some(old(actions)[0]) else None
    {
      twist, played := ZERO, None;
      if now <= validUntil && actions != [] {
        played := Some(actions[0]);
        actions := actions[1..];
      } else {
        actions := [];
      }
      if played.Some? {
        var converted := adapter.convert(played.value);
        if converted.Some? {
          twist := converted.value;
        }
      }
    }
  }

  lemma TwistSampleConverts(sample: Sample, linear: real, angular: real)
    requires sample.names == ["linear_x", "angular_z"] && sample.values == [Finite(linear), Finite(angular)]
    ensures ConvertTwist(sample) == Some(Planar(linear, angular))
  {
    var names := sample.names;
    assert names[0] == "linear_x" != "angular_z";
    assert IndexOf(names, "angular_z", 1) == Some(1);
    assert FindFeature(names, ["linear_x", "linear_x_mps"]) == Some(0);
    assert FindFeature(names, ["angular_z", "angular_z_radps"]) == Some(1);
    assert FindLateral(names, 2) == None && FindLateral(names, 1) == None;
  }

  /** A legacy twist with finite components is accepted by the twist adapter and converts to that twist. */
  lemma LegacyTwistConverts(m: PolicyAction, i: nat)
    requires m.vectors == [] && m.schema == TWIST_SCHEMA && i < |m.legacy|
    requires m.legacy[i].0.Finite? && m.legacy[i].1.Finite?
    ensures i < |SamplesFrom(m)| && Playable(TWIST_ADAPTER, SamplesFrom(m)[i])
    ensures TWIST_ADAPTER.convert(SamplesFrom(m)[i]) == Some(Planar(m.legacy[i].0.value, m.legacy[i].1.value))
  {
    TwistSampleConverts(SamplesFrom(m)[i], m.legacy[i].0.value, m.legacy[i].1.value);
  }

  // ----- runs

  /** An accepted chunk, and a sample played: from which chunk, at which place, when; the tick publishes the sample as
      policy target and the twist as velocity. */
  datatype Chunk = Chunk(message: PolicyAction, samples: seq<Sample>, validUntil: int, generatedAt: int)
  datatype Played = Played(chunk: nat, index: nat, at: int, sample: Sample, twist: Twist)

  /** `position` is the number of samples of the last chunk already played. */
  datatype World = World(now: int, node: QueueState, chunks: seq<Chunk>, position: nat, played: seq<Played>)

  datatype Event = TimePassed(elapsed: nat) | ActionArrives(message: PolicyAction) | Ticks

  function Start(now: int): (w: World) {
    World(now, INITIAL, [], 0, [])
  }

  function Next(adapter: Adapter, w: World, e: Event): (w': World) {
    match e
    case TimePassed(elapsed) => w.(now := w.now + elapsed)
    case ActionArrives(m) =>
      if Admits(adapter, w.node, m) then
        w.(node := OnAction(adapter, w.node, m), position := 0,
           chunks := w.chunks + [Chunk(m, SamplesFrom(m), m.validUntil, m.generatedAt)])
      else w
    case Ticks =>
      var ticked := w.(node := Advance(w.node, w.now));
      if Plays(w.node, w.now) && |w.chunks| > 0 then
        ticked.(position := w.position + 1,
                played := w.played + [Record(adapter, w)])
      else ticked
  }

  /** What a tick that plays leaves behind. */
  function Record(adapter: Adapter, w: World): (p: Played)
    requires Plays(w.node, w.now) && |w.chunks| > 0
  {
    Played(|w.chunks| - 1, w.position, w.now, w.node.actions[0], Output(adapter, w.node, w.now))
  }

  function Run(adapter: Adapter, w: World, es: seq<Event>): (w': World) {
    if es == [] then w else Next(adapter, Run(adapter, w, es[..|es| - 1]), es[|es| - 1])
  }

  /** The sample played after `p`: the next one of the same chunk, or the first of a later chunk. */
  predicate Follows(p: Played, q: Played) {
    (q.chunk == p.chunk && q.index == p.index + 1) || (q.chunk > p.chunk && q.index == 0)
  }

  predicate Justified(adapter: Adapter, chunks: seq<Chunk>, p: Played) {
    && p.chunk < |chunks| && p.index < |chunks[p.chunk].samples|
    && p.at <= chunks[p.chunk].validUntil
    && p.sample == chunks[p.chunk].samples[p.index] && adapter.convert(p.sample) == Some(p.twist)
  }

  /** What a chunk holds is what its message carried. */
  ghost predicate FromMessage(c: Chunk) {
    && |c.samples| == SampleCount(c.message) && |c.samples| > 0
    && (forall i :: 0 <= i < |c.samples| ==> Carries(c.message, i, c.samples[i]))
    && c.validUntil == c.message.validUntil && c.generatedAt == c.message.generatedAt
  }

  ghost predicate MessageInv(w: World) {
    && (forall i :: 0 <= i < |w.chunks| ==> FromMessage(w.chunks[i]))
    && (|w.chunks| == 0 ==> w.node.lastGeneratedAt == 0 && w.position == 0)
  }

  lemma MessageStep(adapter: Adapter, w: World, e: Event)
    requires MessageInv(w) && QueueInv(adapter, w)
    ensures MessageInv(Next(adapter, w, e))
  {
    if e.ActionArrives? {
      SamplesCarry(e.message);
    }
  }

  /** The queue is empty only when the chunk is played or its deadline has passed. */
  ghost predicate EmptyInv(w: World) {
    w.node.actions == [] && |w.chunks| > 0 ==>
      var c := w.chunks[|w.chunks| - 1]; w.position == |c.samples| || w.now > c.validUntil
  }

  lemma EmptyStep(adapter: Adapter, w: World, e: Event)
    requires EmptyInv(w) && QueueInv(adapter, w)
    ensures EmptyInv(Next(adapter, w, e))
  {
    if e.Ticks? && Plays(w.node, w.now) {
      var c := w.chunks[|w.chunks| - 1];
      assert c.samples[w.position..][1..] == c.samples[w.position + 1..];
    }
  }

  ghost predicate QueueInv(adapter: Adapter, w: World) {
    && AllPlayable(adapter, w.node.actions)
    && (|w.chunks| == 0 ==> w.node.actions == [])
    && (|w.chunks| > 0 ==>
          && var c := w.chunks[|w.chunks| - 1];
          && w.node.validUntil == c.validUntil && w.node.lastGeneratedAt == c.generatedAt
          && w.position <= |c.samples|
          && (w.node.actions == [] || w.node.actions == c.samples[w.position..]))
  }

  /** The played samples are justified and follow one another, and the position continues them. */
  ghost predicate HistoryInv(adapter: Adapter, w: World) {
    && (forall i :: 0 <= i < |w.played| ==> Justified(adapter, w.chunks, w.played[i]))
    && InOrder(w.played)
    && PositionContinues(w)
  }

  ghost predicate InOrder(played: seq<Played>) {
    && (|played| > 0 ==> played[0].index == 0)
    && (forall i :: 0 <= i < |played| - 1 ==> Follows(played[i], played[i + 1]))
  }

  ghost predicate PositionContinues(w: World) {
    if |w.played| == 0 then w.position == 0 else
      var last := w.played[|w.played| - 1];
      last.chunk < |w.chunks| && if last.chunk == |w.chunks| - 1 then w.position == last.index + 1 else w.position == 0
  }

  ghost predicate StampsInv(w: World) {
    && (forall c, d :: 0 <= c < d < |w.chunks| ==> w.chunks[c].generatedAt <= w.chunks[d].generatedAt)
    && (|w.chunks| > 0 ==> w.node.lastGeneratedAt == w.chunks[|w.chunks| - 1].generatedAt)
  }

  lemma QueueStep(adapter: Adapter, w: World, e: Event)
    requires QueueInv(adapter, w)
    ensures QueueInv(adapter, Next(adapter, w, e))
  {
    if e.Ticks? && Plays(w.node, w.now) {
      var c := w.chunks[|w.chunks| - 1];
      assert c.samples[w.position..][1..] == c.samples[w.position + 1..];
    }
  }

  lemma PlayJustified(adapter: Adapter, w: World)
    requires QueueInv(adapter, w) && Plays(w.node, w.now)
    ensures |w.chunks| > 0
    ensures Justified(adapter, w.chunks, Record(adapter, w))
  {
    var c := w.chunks[|w.chunks| - 1];
    assert w.node.actions[0] == c.samples[w.position];
    assert Playable(adapter, w.node.actions[0]);
  }

  lemma OrderExtends(played: seq<Played>, p: Played)
    requires InOrder(played)
    requires if |played| == 0 then p.index == 0 else Follows(played[|played| - 1], p)
    ensures InOrder(played + [p])
  {
  }

  lemma PlayStep(adapter: Adapter, w: World)
    requires QueueInv(adapter, w) && HistoryInv(adapter, w) && Plays(w.node, w.now)
    ensures HistoryInv(adapter, Next(adapter, w, Ticks))
  {
    PlayJustified(adapter, w);
    var p := Record(adapter, w);
    OrderExtends(w.played, p);
    assert Next(adapter, w, Ticks).played == w.played + [p];
  }

  lemma ArrivalStep(adapter: Adapter, w: World, m: PolicyAction)
    requires HistoryInv(adapter, w) && StampsInv(w) && (|w.chunks| == 0 ==> w.played == [])
    ensures HistoryInv(adapter, Next(adapter, w, ActionArrives(m))) && StampsInv(Next(adapter, w, ActionArrives(m)))
  {
    var w' := Next(adapter, w, ActionArrives(m));
    if Admits(adapter, w.node, m) {
      forall i | 0 <= i < |w.played|
        ensures Justified(adapter, w'.chunks, w.played[i])
      {
        assert Justified(adapter, w.chunks, w.played[i]);
      }
      forall c, d | 0 <= c < d < |w'.chunks|
        ensures w'.chunks[c].generatedAt <= w'.chunks[d].generatedAt
      {
        if d == |w.chunks| && c < d - 1 {
          assert w.chunks[c].generatedAt <= w.chunks[d - 1].generatedAt;
        }
      }
    }
  }

  ghost predicate WorldInv(adapter: Adapter, w: World) {
    QueueInv(adapter, w) && HistoryInv(adapter, w) && StampsInv(w) && MessageInv(w) && EmptyInv(w)
  }

  lemma Step(adapter: Adapter, w: World, e: Event)
    requires WorldInv(adapter, w)
    ensures WorldInv(adapter, Next(adapter, w, e))
  {
    QueueStep(adapter, w, e);
    MessageStep(adapter, w, e);
    EmptyStep(adapter, w, e);
    match e
    case TimePassed(_) =>
    case ActionArrives(m) => ArrivalStep(adapter, w, m);
    case Ticks =>
      if Plays(w.node, w.now) {
        PlayStep(adapter, w);
      }
  }

  lemma {:induction false} RunInv(adapter: Adapter, t: int, es: seq<Event>)
    ensures WorldInv(adapter, Run(adapter, Start(t), es))
  {
    if es != [] {
      RunInv(adapter, t, es[..|es| - 1]);
      Step(adapter, Run(adapter, Start(t), es[..|es| - 1]), es[|es| - 1]);
    }
  }

  /** Every queued sample converts, so a tick with a sample to play always publishes that sample's velocity. */
  lemma QueuedSamplesConvert(adapter: Adapter, t: int, es: seq<Event>)
    ensures var w := Run(adapter, Start(t), es);
            Plays(w.node, w.now) ==> adapter.convert(w.node.actions[0]) == Some(Output(adapter, w.node, w.now))
  {
    RunInv(adapter, t, es);
    var w := Run(adapter, Start(t), es);
    if Plays(w.node, w.now) {
      assert Playable(adapter, w.node.actions[0]);
    }
  }

  lemma {:induction false} LaterIsGreater(played: seq<Played>, i: nat, j: nat)
    requires InOrder(played) && i < j < |played|
    ensures var p, q := played[i], played[j];
            p.chunk < q.chunk || (p.chunk == q.chunk && p.index < q.index)
    decreases j - i
  {
    assert Follows(played[j - 1], played[j]);
    if i < j - 1 {
      LaterIsGreater(played, i, j - 1);
    }
  }

  lemma {:induction false} EarlierPlayed(played: seq<Played>, j: nat, k: nat) returns (i: nat)
    requires InOrder(played) && j < |played| && k <= played[j].index
    ensures i <= j && played[i].chunk == played[j].chunk && played[i].index == k
    decreases j
  {
    i := j;
    if k < played[j].index {
      assert Follows(played[j - 1], played[j]);
      i := EarlierPlayed(played, j - 1, k);
    }
  }

  ghost predicate PlayedBefore(played: seq<Played>, j: nat, chunk: nat, index: nat) {
    exists i :: 0 <= i < j && i < |played| && played[i].chunk == chunk && played[i].index == index
  }

  /** Queue refinement: in every run the samples played from each accepted chunk are an in-order prefix of it, none
      twice and none after its deadline, each carrying its own vector and converted by itself, and generation stamps
      never decrease. */
  lemma PlayedIsOrderedPrefix(adapter: Adapter, t: int, es: seq<Event>, j: nat)
    requires j < |Run(adapter, Start(t), es).played|
    ensures var w := Run(adapter, Start(t), es);
            var q := w.played[j];
            && Justified(adapter, w.chunks, q) && Carries(w.chunks[q.chunk].message, q.index, q.sample)
            && (forall k: nat :: k < q.index ==> PlayedBefore(w.played, j, q.chunk, k))
            && (forall i :: 0 <= i < j ==>
                  && !(w.played[i].chunk == q.chunk && w.played[i].index == q.index)
                  && w.played[i].chunk < |w.chunks|
                  && w.chunks[w.played[i].chunk].generatedAt <= w.chunks[q.chunk].generatedAt)
  {
    RunInv(adapter, t, es);
    var w := Run(adapter, Start(t), es);
    var q := w.played[j];
    assert FromMessage(w.chunks[q.chunk]);
    forall k: nat | k < q.index
      ensures PlayedBefore(w.played, j, q.chunk, k)
    {
      var i := EarlierPlayed(w.played, j, k);
    }
    forall i | 0 <= i < j
      ensures !(w.played[i].chunk == q.chunk && w.played[i].index == q.index)
      ensures w.played[i].chunk < |w.chunks|
      ensures w.chunks[w.played[i].chunk].generatedAt <= w.chunks[q.chunk].generatedAt
    {
      LaterIsGreater(w.played, i, j);
      assert Justified(adapter, w.chunks, w.played[i]);
    }
  }

  /** A message replaces the queue exactly when it carries a sample, all its samples can be played, and no chunk
      accepted before was generated later. */
  lemma ArrivalExact(adapter: Adapter, t: int, es: seq<Event>, m: PolicyAction)
    ensures var w := Run(adapter, Start(t), es);
            var w' := Next(adapter, w, ActionArrives(m));
            if SampleCount(m) > 0 && (forall sample :: IsSample(m, sample) ==> Playable(adapter, sample)) &&
               m.generatedAt >= 0 && (forall i :: 0 <= i < |w.chunks| ==> w.chunks[i].generatedAt <= m.generatedAt)
            then |w'.chunks| == |w.chunks| + 1 && w'.chunks[|w.chunks|].message == m && w'.position == 0 &&
                 w'.node.requestId == m.requestId
            else w' == w
  {
    RunInv(adapter, t, es);
    StampsFromZero(adapter, t, es);
    AdmitsMeans(adapter, Run(adapter, Start(t), es), m);
  }

  lemma AdmitsMeans(adapter: Adapter, w: World, m: PolicyAction)
    requires MessageInv(w) && StampsInv(w) && w.node.lastGeneratedAt >= 0
    ensures Admits(adapter, w.node, m) <==>
            && SampleCount(m) > 0 && (forall sample :: IsSample(m, sample) ==> Playable(adapter, sample))
            && m.generatedAt >= 0 && (forall i :: 0 <= i < |w.chunks| ==> w.chunks[i].generatedAt <= m.generatedAt)
  {
    SamplesCarry(m);
    PlayableMeans(adapter, m);
    var n := |w.chunks|;
    assert n > 0 ==> w.chunks[n - 1].generatedAt == w.node.lastGeneratedAt;
    assert forall i :: 0 <= i < n - 1 ==> w.chunks[i].generatedAt <= w.chunks[n - 1].generatedAt;
  }

  ghost predicate IsSample(m: PolicyAction, sample: Sample) {
    exists i: nat :: Carries(m, i, sample)
  }

  lemma PlayableMeans(adapter: Adapter, m: PolicyAction)
    ensures AllPlayable(adapter, SamplesFrom(m)) <==> forall sample :: IsSample(m, sample) ==> Playable(adapter, sample)
  {
    var samples := SamplesFrom(m);
    SamplesCarry(m);
    forall i | 0 <= i < |samples|
      ensures IsSample(m, samples[i])
    {
      assert Carries(m, i, samples[i]);
    }
    forall sample | IsSample(m, sample)
      ensures sample in samples
    {
      var i: nat :| Carries(m, i, sample);
      assert samples[i] == sample;
    }
  }

  lemma {:induction false} StampsFromZero(adapter: Adapter, t: int, es: seq<Event>)
    ensures Run(adapter, Start(t), es).node.lastGeneratedAt >= 0
  {
    if es != [] {
      StampsFromZero(adapter, t, es[..|es| - 1]);
    }
  }

  /** A tick plays exactly while the last chunk has a sample left and its deadline has not passed: the next sample, with
      its own conversion. Any other tick publishes zero. */
  lemma TickExact(adapter: Adapter, t: int, es: seq<Event>)
    ensures TickFits(adapter, Run(adapter, Start(t), es))
  {
    var w := Run(adapter, Start(t), es);
    RunInv(adapter, t, es);
    PlaysMeans(adapter, w);
    if Plays(w.node, w.now) {
      PlayJustified(adapter, w);
    }
  }

  /** What the next tick does in `w`. */
  predicate TickFits(adapter: Adapter, w: World) {
    var w' := Next(adapter, w, Ticks);
    if |w.chunks| > 0 && w.position < |w.chunks[|w.chunks| - 1].samples| &&
       w.now <= w.chunks[|w.chunks| - 1].validUntil
    then |w'.played| == |w.played| + 1 && w.played <= w'.played && w'.position == w.position + 1 &&
         var p := w'.played[|w.played|];
         p.chunk == |w.chunks| - 1 && p.index == w.position && p.at == w.now &&
         p.sample == w.chunks[p.chunk].samples[p.index] && adapter.convert(p.sample) == Some(p.twist)
    else w'.played == w.played && w'.position == w.position && Output(adapter, w.node, w.now) == ZERO
  }

  lemma PlaysMeans(adapter: Adapter, w: World)
    requires QueueInv(adapter, w) && EmptyInv(w)
    ensures Plays(w.node, w.now) <==>
            |w.chunks| > 0 && w.position < |w.chunks[|w.chunks| - 1].samples| &&
            w.now <= w.chunks[|w.chunks| - 1].validUntil
  {
  }

  // ----- what the twist adapter makes of a sample

  /** Feature `i` of the sample has the finite value `v`. */
  predicate HasValue(sample: Sample, i: nat, v: real) {
    i < |sample.values| && sample.values[i] == Finite(v)
  }

  /** The first lateral feature, under either name. */
  ghost predicate FirstLateral(names: seq<string>, i: nat) {
    i < |names| && names[i] in {"linear_y", "linear_y_mps"} &&
    forall j :: 0 <= j < i ==> names[j] !in {"linear_y", "linear_y_mps"}
  }

  lemma {:induction false} LateralFound(names: seq<string>, k: nat)
    requires k <= |names| && forall j :: 0 <= j < k ==> names[j] !in {"linear_y", "linear_y_mps"}
    ensures var i := FindLateral(names, k);
            (i.Some? ==> FirstLateral(names, i.value)) &&
            (i.None? ==> forall j :: 0 <= j < |names| ==> names[j] !in {"linear_y", "linear_y_mps"})
    decreases |names| - k
  {
    if k < |names| && names[k] !in {"linear_y", "linear_y_mps"} {
      LateralFound(names, k + 1);
    }
  }

  /** A converted twist has the first forward and turn features, the first lateral one or none, and nothing else. */
  lemma ConvertTwistExact(sample: Sample, t: Twist)
    requires ConvertTwist(sample) == Some(t)
    ensures exists a: nat, i: nat ::
              FirstFeature(sample.names, ["linear_x", "linear_x_mps"], a, i) && HasValue(sample, i, t.linearX)
    ensures exists a: nat, i: nat ::
              FirstFeature(sample.names, ["angular_z", "angular_z_radps"], a, i) && HasValue(sample, i, t.angularZ)
    ensures (exists i: nat :: FirstLateral(sample.names, i) && HasValue(sample, i, t.linearY)) ||
            (t.linearY == 0.0 && forall j :: 0 <= j < |sample.names| ==> sample.names[j] !in {"linear_y", "linear_y_mps"})
    ensures t.linearZ == t.angularX == t.angularY == 0.0
  {
    LateralFound(sample.names, 0);
    var x := FindFeature(sample.names, ["linear_x", "linear_x_mps"]).value;
    var z := FindFeature(sample.names, ["angular_z", "angular_z_radps"]).value;
    var a: nat :| FirstFeature(sample.names, ["linear_x", "linear_x_mps"], a, x);
    var b: nat :| FirstFeature(sample.names, ["angular_z", "angular_z_radps"], b, z);
    assert HasValue(sample, x, t.linearX) && HasValue(sample, z, t.angularZ);
    var side := FindLateral(sample.names, 0);
    assert side.Some? ==> HasValue(sample, side.value, t.linearY);
  }
}
