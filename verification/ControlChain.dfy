/** The control chain as one distributed protocol: gateway, mux, guard, supervisor and capture node, one callback
    per event, one clock. A topic is the list of everything ever published on it; a delivery picks any entry, so
    velocity, lease, state and override messages may be lost, delayed, repeated and reordered. Safety events travel
    over reliable queues, read in order. The remaining fields record where each value came from. */
module ControlChain {
  import opened Common
  import opened Interfaces
  import G = TeleopGateway
  import L = LeaseProtocol
  import M = ControlMux
  import S = SafetyGuard
  import V = Supervisor

  datatype Config = Config(gateway: G.GatewayConfig, sourceTimeout: int, guard: S.GuardConfig)

  /** A message on the selected-command topic: the source it repeats, the mode it was selected under, and for
      teleop the index of the gateway message it repeats. */
  datatype Choice = Choice(twist: Twist, stamp: nat, source: M.Source, mode: nat, origin: Option<nat>)

  /** A chassis command, with the guard's state, its scan and its override signal when it was published. */
  datatype Final = Final(twist: Twist, at: nat, choice: Option<nat>, guard: S.GuardState, scan: Option<S.Scan>,
                         signal: Option<nat>)

  datatype World = World(
    gateway: L.World,                      // also holds the clock
    supervisor: V.SupervisorState, states: seq<nat>, supervisorSeen: nat,
    capturedRule: string, captureSeen: nat,
    mux: M.MuxState, mobileFrom: Option<nat>, choices: seq<Choice>,
    guard: S.GuardState, chosen: Option<nat>, scan: Option<S.Scan>, signal: Option<nat>,
    events: seq<SafetyEvent>, finals: seq<Final>)

  datatype Event =
    | Gateway(event: L.Event)
    | ModeRequested(mode: nat, reason: string)
    | SafeStopRequested(reason: string)
    | PolicyReported(ready: bool, model: string)
    | StatePublished
    | SupervisorReads
    | CaptureReads
    | StateDelivered(index: nat)
    | LeaseDelivered(index: nat)
    | NavDelivered(twist: Twist)
    | VlaDelivered(twist: Twist, stamp: int)
    | MobileDelivered(index: nat)
    | MuxFires(readAt: nat)
    | SelectedDelivered(index: nat)
    | ScanDelivered(newScan: S.Scan)
    | OverrideDelivered(index: nat)
    | GuardFires

  function Start(now: nat): (w: World) {
    World(L.Start(now), V.INITIAL, [MODE_MANUAL], 0, "", 0, M.INITIAL, None, [], S.INITIAL, None, None, None,
          [], [])
  }

  function Now(w: World): (t: nat) {
    w.gateway.now
  }

  function Supervised(w: World, s: V.SupervisorState): (w': World) {
    w.(supervisor := s, states := w.states + [s.mode])
  }

  function MuxFired(cfg: Config, w: World, stamp: nat): (w': World) {
    var source := M.Selected(w.mux, Now(w), cfg.sourceTimeout);
    w.(choices := w.choices + [Choice(M.CommandOf(w.mux, source), stamp, source, w.mux.mode,
                                      if source.Teleop? then w.mobileFrom else None)])
  }

  function GuardFired(cfg: Config, w: World): (w': World) {
    var verdict := S.Judge(cfg.guard, w.guard, Now(w));
    var report := S.Reported(w.guard, verdict);
    w.(guard := report.state, events := w.events + report.events,
       finals := w.finals + [Final(verdict.output, Now(w), w.chosen, w.guard, w.scan, w.signal)])
  }

  ghost function Next(cfg: Config, w: World, e: Event): (w': World)
    requires cfg.gateway.Valid()
  {
    match e
    case Gateway(event) => w.(gateway := L.Next(cfg.gateway, w.gateway, event))
    case ModeRequested(mode, reason) =>
      if V.GrantsMode(w.supervisor, mode) then Supervised(w, V.OnModeRequest(w.supervisor, mode, reason)) else w
    case SafeStopRequested(reason) => Supervised(w, V.OnSafeStop(w.supervisor, reason))
    case PolicyReported(ready, model) =>
      w.(supervisor := w.supervisor.(policyReady := ready, policy := model))
    case StatePublished => Supervised(w, w.supervisor)
    case SupervisorReads =>
      if w.supervisorSeen < |w.events| then
        Supervised(w, V.OnSafetyEvent(w.supervisor, w.events[w.supervisorSeen]))
        .(supervisorSeen := w.supervisorSeen + 1)
      else w
    case CaptureReads =>
      if w.captureSeen < |w.events| then
        w.(capturedRule := V.Mirror(w.capturedRule, w.events[w.captureSeen]), captureSeen := w.captureSeen + 1)
      else w
    case StateDelivered(i) => if i < |w.states| then w.(mux := w.mux.(mode := w.states[i])) else w
    case LeaseDelivered(i) =>
      if i < |w.gateway.leases| then
        var lease := w.gateway.leases[i];
        w.(mux := M.OnLease(w.mux, lease.active, lease.remote),
           mobileFrom := if lease.active then w.mobileFrom else None)
      else w
    case NavDelivered(twist) => w.(mux := w.mux.(navCommand := twist, navStamp := Now(w)))
    case VlaDelivered(twist, stamp) => w.(mux := w.mux.(vlaCommand := twist, vlaStamp := stamp))
    case MobileDelivered(i) =>
      if i < |w.gateway.commands| then
        var m := w.gateway.commands[i];
        w.(mux := w.mux.(mobileCommand := m.twist, mobileStamp := m.stamp), mobileFrom := Some(i))
      else w
    case MuxFires(stamp) => if 1 <= stamp <= Now(w) then MuxFired(cfg, w, stamp) else w
    case SelectedDelivered(i) =>
      if i < |w.choices| then
        w.(guard := S.OnSelected(w.guard, Now(w), w.choices[i].twist, w.choices[i].stamp), chosen := Some(i))
      else w
    case ScanDelivered(scan) => w.(guard := S.OnScan(cfg.guard, w.guard, Now(w), scan), scan := Some(scan))
    case OverrideDelivered(i) =>
      if i < |w.gateway.overrides| then
        w.(guard := w.guard.(override := w.gateway.overrides[i].data, overrideStamp := Now(w)), signal := Some(i))
      else w
    case GuardFires => GuardFired(cfg, w)
  }

  /** Some event leads from state `k` of the list to the next. */
  ghost predicate MovesAt(cfg: Config, ws: seq<World>, k: nat)
    requires cfg.gateway.Valid() && k < |ws| - 1
  {
    exists e :: ws[k + 1] == Next(cfg, ws[k], e)
  }

  /** The states of one run, from the start; the clock is past zero, a stamp the guard reads as none. */
  ghost predicate Behavior(cfg: Config, ws: seq<World>)
    requires cfg.gateway.Valid()
  {
    && |ws| > 0 && (exists t :: t >= 1 && ws[0] == Start(t))
    && (forall k: nat :: k < |ws| - 1 ==> MovesAt(cfg, ws, k))
  }

  function Last(ws: seq<World>): (w: World)
    requires |ws| > 0
  {
    ws[|ws| - 1]
  }

  ghost function Extend(cfg: Config, ws: seq<World>, e: Event): (ws': seq<World>)
    requires cfg.gateway.Valid() && |ws| > 0
    ensures ws <= ws' && |ws'| == |ws| + 1 && Last(ws') == Next(cfg, Last(ws), e)
  {
    ws + [Next(cfg, Last(ws), e)]
  }

  lemma ExtendIsBehavior(cfg: Config, ws: seq<World>, e: Event)
    requires cfg.gateway.Valid() && Behavior(cfg, ws)
    ensures Behavior(cfg, Extend(cfg, ws, e))
  {
    var all := Extend(cfg, ws, e);
    forall k: nat | k < |all| - 1
      ensures MovesAt(cfg, all, k)
    {
      if k < |ws| - 1 {
        assert MovesAt(cfg, ws, k);
        var f :| ws[k + 1] == Next(cfg, ws[k], f);
        assert all[k + 1] == Next(cfg, all[k], f);
      } else {
        assert all[k + 1] == Next(cfg, all[k], e);
      }
    }
  }

  // ----- where velocities come from

  /** Which sources a mode can ever select. */
  predicate ModeLicenses(mode: nat, source: M.Source) {
    match source
    case Nobody => true
    case Nav => mode == MODE_NAV2
    case Vla => mode == MODE_VLA_ASSISTED || mode == MODE_VLA_AUTONOMOUS
    case Teleop => mode == MODE_MOBILE_TELEOP || mode == MODE_REMOTE_TELEOP
  }

  ghost predicate MuxTraced(w: World) {
    w.mux.mobileStamp > 0 ==>
      && w.mobileFrom.Some? && w.mobileFrom.value < |w.gateway.commands|
      && var m := w.gateway.commands[w.mobileFrom.value];
         w.mux.mobileCommand == m.twist && w.mux.mobileStamp == m.stamp
  }

  ghost predicate ChoiceTraced(cfg: Config, commands: seq<L.Published>, now: nat, c: Choice) {
    && 1 <= c.stamp <= now
    && ModeLicenses(c.mode, c.source)
    && (c.source.Nobody? ==> c.twist == ZERO)
    && (c.source.Teleop? ==>
          && c.origin.Some? && c.origin.value < |commands|
          && c.twist == commands[c.origin.value].twist
          && c.stamp - commands[c.origin.value].stamp <= cfg.sourceTimeout)
  }

  ghost predicate GuardTraced(w: World) {
    w.guard.commandStamp > 0 ==>
      && w.chosen.Some? && w.chosen.value < |w.choices|
      && w.guard.selected == w.choices[w.chosen.value].twist
      && w.guard.commandStamp == w.choices[w.chosen.value].stamp
  }

  ghost predicate FinalTraced(cfg: Config, choices: seq<Choice>, f: Final) {
    f.twist != ZERO ==>
      && f.choice.Some? && f.choice.value < |choices|
      && f.at - choices[f.choice.value].stamp <= cfg.guard.commandTimeout
      && f.twist == S.Limit(cfg.guard, choices[f.choice.value].twist)
      && choices[f.choice.value].twist != ZERO
  }

  ghost predicate TraceInv(cfg: Config, w: World) {
    && Now(w) >= 1
    && L.ProvenanceInv(cfg.gateway, w.gateway)
    && MuxTraced(w)
    && (forall c :: c in w.choices ==> ChoiceTraced(cfg, w.gateway.commands, Now(w), c))
    && GuardTraced(w)
    && (forall f :: f in w.finals ==> FinalTraced(cfg, w.choices, f))
  }

  lemma GatewayGrows(cfg: Config, w: World, event: L.Event)
    requires cfg.gateway.Valid() && TraceInv(cfg, w)
    ensures TraceInv(cfg, Next(cfg, w, Gateway(event)))
  {
    L.ProvenanceStep(cfg.gateway, w.gateway, event);
    var w' := Next(cfg, w, Gateway(event));
    forall c | c in w'.choices
      ensures ChoiceTraced(cfg, w'.gateway.commands, Now(w'), c)
    {
      assert ChoiceTraced(cfg, w.gateway.commands, Now(w), c);
    }
  }

  lemma MuxFiringTraced(cfg: Config, w: World, stamp: nat)
    requires TraceInv(cfg, w) && 1 <= stamp <= Now(w)
    ensures TraceInv(cfg, MuxFired(cfg, w, stamp))
    ensures M.Licensed(w.mux) == M.Nobody ==>
              MuxFired(cfg, w, stamp).choices[|w.choices|].twist == ZERO
  {
    var w' := MuxFired(cfg, w, stamp);
    var c := w'.choices[|w.choices|];
    assert ChoiceTraced(cfg, w.gateway.commands, Now(w), c);
    forall f | f in w'.finals
      ensures FinalTraced(cfg, w'.choices, f)
    {
      assert FinalTraced(cfg, w.choices, f);
    }
  }

  lemma LimitZero(cfg: S.GuardConfig)
    ensures S.Limit(cfg, ZERO) == ZERO
  {
  }

  lemma GuardFiringTraced(cfg: Config, w: World)
    requires TraceInv(cfg, w)
    ensures TraceInv(cfg, GuardFired(cfg, w))
  {
    LimitZero(cfg.guard);
    var w' := GuardFired(cfg, w);
    var f := w'.finals[|w.finals|];
    assert FinalTraced(cfg, w.choices, f);
    assert w'.guard == w.guard.(activeRule := w'.guard.activeRule, activeSeverity := w'.guard.activeSeverity);
  }

  lemma GuardDeliveryTraced(cfg: Config, w: World, i: nat)
    requires cfg.gateway.Valid() && TraceInv(cfg, w) && i < |w.choices|
    ensures TraceInv(cfg, Next(cfg, w, SelectedDelivered(i)))
  {
    assert ChoiceTraced(cfg, w.gateway.commands, Now(w), w.choices[i]);
  }

  /** The events that touch only the mux, the supervisor or the capture node. */
  lemma OtherStepTraced(cfg: Config, w: World, e: Event)
    requires cfg.gateway.Valid() && TraceInv(cfg, w)
    requires !e.Gateway? && !e.MuxFires? && !e.GuardFires? && !e.SelectedDelivered?
    ensures TraceInv(cfg, Next(cfg, w, e))
  {
    var w' := Next(cfg, w, e);
    assert w'.choices == w.choices && w'.finals == w.finals && w'.gateway == w.gateway && w'.chosen == w.chosen;
  }

  lemma TraceStep(cfg: Config, w: World, e: Event)
    requires cfg.gateway.Valid() && TraceInv(cfg, w)
    ensures TraceInv(cfg, Next(cfg, w, e))
  {
    match e
    case Gateway(event) => GatewayGrows(cfg, w, event);
    case MuxFires(stamp) =>
      if 1 <= stamp <= Now(w) {
        MuxFiringTraced(cfg, w, stamp);
      }
    case GuardFires => GuardFiringTraced(cfg, w);
    case SelectedDelivered(i) =>
      if i < |w.choices| {
        GuardDeliveryTraced(cfg, w, i);
      }
    case _ => OtherStepTraced(cfg, w, e);
  }

  lemma {:induction false} TraceHolds(cfg: Config, ws: seq<World>, k: nat)
    requires cfg.gateway.Valid() && Behavior(cfg, ws) && k < |ws|
    ensures TraceInv(cfg, ws[k])
  {
    if k > 0 {
      TraceHolds(cfg, ws, k - 1);
      assert MovesAt(cfg, ws, k - 1);
      var e :| ws[k] == Next(cfg, ws[k - 1], e);
      TraceStep(cfg, ws[k - 1], e);
    }
  }

  /** The end-to-end budget from an accepted deadman command to the chassis. */
  function Deadline(cfg: Config): (d: int) {
    cfg.gateway.commandTimeout + cfg.sourceTimeout + cfg.guard.commandTimeout
  }

  /** The chassis velocity an accepted command is entitled to. */
  function Entitled(cfg: Config, a: L.Accepted): (t: Twist) {
    S.Limit(cfg.guard, Planar(Clamp(a.command.linear, -1.0, 1.0) * a.maxLinear,
                              Clamp(a.command.angular, -1.0, 1.0) * a.maxAngular))
  }

  /** The selection that `f` repeats, if any, was from teleop. */
  predicate FromTeleop(w: World, f: Final) {
    f.choice.Some? && f.choice.value < |w.choices| ==> w.choices[f.choice.value].source.Teleop?
  }

  /** Teleop stop deadline: in every run, under any loss, delay, repetition or reordering, each non-zero chassis
      command selected from teleop is exactly what some accepted deadman command is entitled to, and that command
      was accepted at most the sum of the three timeouts before. */
  lemma TeleopStopDeadline(cfg: Config, ws: seq<World>, k: nat, f: Final)
    requires cfg.gateway.Valid() && Behavior(cfg, ws) && k < |ws|
    requires f in ws[k].finals && f.twist != ZERO && FromTeleop(ws[k], f)
    ensures exists a :: a in ws[k].gateway.accepted && a.command.deadman && f.at <= a.at + Deadline(cfg) &&
                        f.twist == Entitled(cfg, a)
  {
    TraceHolds(cfg, ws, k);
    var o := OriginOf(cfg, ws[k], f);
    var cause := ws[k].gateway.commands[o].cause.value;
    assert ws[k].gateway.accepted[cause] in ws[k].gateway.accepted;
  }

  /** The gateway message behind a teleop chassis command, and the accepted command behind that. */
  lemma OriginOf(cfg: Config, w: World, f: Final) returns (o: nat)
    requires TraceInv(cfg, w) && f in w.finals && f.twist != ZERO && FromTeleop(w, f)
    ensures o < |w.gateway.commands| && w.gateway.commands[o].twist != ZERO
    ensures f.at <= w.gateway.commands[o].stamp + cfg.sourceTimeout + cfg.guard.commandTimeout
    ensures w.gateway.commands[o].cause.Some? && w.gateway.commands[o].cause.value < |w.gateway.accepted|
    ensures var a := w.gateway.accepted[w.gateway.commands[o].cause.value];
            a.command.deadman && f.at <= a.at + Deadline(cfg) && f.twist == Entitled(cfg, a)
  {
    assert FinalTraced(cfg, w.choices, f);
    var c := w.choices[f.choice.value];
    assert ChoiceTraced(cfg, w.gateway.commands, Now(w), c);
    o := c.origin.value;
    var m := w.gateway.commands[o];
    assert m in w.gateway.commands && L.CommandExplained(cfg.gateway, w.gateway.accepted, m);
    assert L.Explains(cfg.gateway, w.gateway.accepted[m.cause.value], m.twist, m.stamp);
  }

  // ----- the gateway inside the chain

  function Gateways(ws: seq<World>): (gs: seq<L.World>)
    ensures |gs| == |ws| && forall k :: 0 <= k < |ws| ==> gs[k] == ws[k].gateway
  {
    seq(|ws|, k requires 0 <= k < |ws| => ws[k].gateway)
  }

  lemma GatewayMoves(cfg: Config, w: World, e: Event)
    requires cfg.gateway.Valid()
    ensures exists event :: Next(cfg, w, e).gateway == L.Next(cfg.gateway, w.gateway, event)
  {
    if e.Gateway? {
      assert Next(cfg, w, e).gateway == L.Next(cfg.gateway, w.gateway, e.event);
    } else {
      assert Next(cfg, w, e).gateway == w.gateway == L.Next(cfg.gateway, w.gateway, L.TimePassed(0));
    }
  }

  /** Every run of the chain is, seen from the gateway, one of its own runs. */
  lemma GatewaysRun(cfg: Config, ws: seq<World>)
    requires cfg.gateway.Valid() && Behavior(cfg, ws)
    ensures L.Behavior(cfg.gateway, Gateways(ws))
  {
    var t :| t >= 1 && ws[0] == Start(t);
    assert Gateways(ws)[0] == L.Start(t);
    forall k: nat | k < |ws| - 1
      ensures L.MovesAt(cfg.gateway, Gateways(ws), k)
    {
      assert MovesAt(cfg, ws, k);
      var e :| ws[k + 1] == Next(cfg, ws[k], e);
      GatewayMoves(cfg, ws[k], e);
    }
  }

  /** A lease that ended moves nothing for longer than the mux and guard timeouts, even if every message about its
      end is lost: any later teleop chassis command is entitled to by a lease that had not ended by then. */
  lemma EndedLeaseStopsVehicle(cfg: Config, ws: seq<World>, i: nat, j: nat, f: Final)
    requires cfg.gateway.Valid() && Behavior(cfg, ws) && i <= j < |ws|
    requires f in ws[j].finals && f.twist != ZERO && FromTeleop(ws[j], f)
    requires f.at > Now(ws[i]) + cfg.sourceTimeout + cfg.guard.commandTimeout
    ensures exists a :: a in ws[j].gateway.accepted && a.command.deadman && f.at <= a.at + Deadline(cfg) &&
                        f.twist == Entitled(cfg, a) && !L.Retired(ws[i].gateway, a.lease)
  {
    TraceHolds(cfg, ws, i);
    TraceHolds(cfg, ws, j);
    GatewaysRun(cfg, ws);
    L.RetiredNeverPublished(cfg.gateway, Gateways(ws), i, j);
    var before, after := ws[i].gateway.commands, ws[j].gateway.commands;
    forall k | 0 <= k < |before|
      ensures after[k].stamp <= Now(ws[i])
    {
      assert before[k] in before;
    }
    var o := OriginOf(cfg, ws[j], f);
    var a := ws[j].gateway.accepted[after[o].cause.value];
    assert a in ws[j].gateway.accepted && !L.Retired(ws[i].gateway, a.lease);
  }

  /** So once the lease is revoked or expired and none is issued since, teleop is at rest after the mux and guard
      timeouts, whatever the mux has heard. */
  lemma RevocationStopsVehicle(cfg: Config, ws: seq<World>, i: nat, j: nat, f: Final)
    requires cfg.gateway.Valid() && Behavior(cfg, ws) && i <= j < |ws|
    requires !G.Live(ws[i].gateway.node, Now(ws[i])) && ws[j].gateway.issued == ws[i].gateway.issued
    requires f in ws[j].finals && FromTeleop(ws[j], f)
    requires f.at > Now(ws[i]) + cfg.sourceTimeout + cfg.guard.commandTimeout
    ensures f.twist == ZERO
  {
    if f.twist != ZERO {
      EndedLeaseStopsVehicle(cfg, ws, i, j, f);
      var a :| a in ws[j].gateway.accepted && !L.Retired(ws[i].gateway, a.lease);
      GatewaysRun(cfg, ws);
      L.IdentityHolds(cfg.gateway, Gateways(ws), j);
      assert false;
    }
  }

  /** In every run, a non-zero chassis command repeats a selection made at most the guard's timeout earlier, from
      a source that the mode at that moment licenses. */
  lemma MotionIsLicensed(cfg: Config, ws: seq<World>, k: nat, f: Final)
    requires cfg.gateway.Valid() && Behavior(cfg, ws) && k < |ws|
    requires f in ws[k].finals && f.twist != ZERO
    ensures f.choice.Some? && f.choice.value < |ws[k].choices|
    ensures var c := ws[k].choices[f.choice.value];
            !c.source.Nobody? && ModeLicenses(c.mode, c.source) &&
            f.at <= c.stamp + cfg.guard.commandTimeout && f.twist == S.Limit(cfg.guard, c.twist)
  {
    TraceHolds(cfg, ws, k);
    assert FinalTraced(cfg, ws[k].choices, f);
    assert ChoiceTraced(cfg, ws[k].gateway.commands, Now(ws[k]), ws[k].choices[f.choice.value]);
  }

  // ----- the mode gate

  /** From state `i` to state `j` the mux, by mode and lease, licenses no source. */
  ghost predicate StaysGated(ws: seq<World>, i: nat, j: nat)
    requires i <= j < |ws|
  {
    forall k :: i <= k <= j ==> M.Licensed(ws[k].mux) == M.Nobody
  }

  /** One event leaves the published choices and finals in place and adds only zero choices. */
  ghost predicate OnlyZeroChoices(w: World, w': World) {
    w.choices <= w'.choices && w.finals <= w'.finals &&
    forall i :: |w.choices| <= i < |w'.choices| ==> w'.choices[i].twist == ZERO
  }

  lemma GatedStep(cfg: Config, w: World, e: Event)
    requires cfg.gateway.Valid() && TraceInv(cfg, w) && M.Licensed(w.mux) == M.Nobody
    ensures OnlyZeroChoices(w, Next(cfg, w, e))
  {
    if e.MuxFires? && 1 <= e.readAt <= Now(w) {
      MuxFiringTraced(cfg, w, e.readAt);
    }
  }

  lemma {:induction false} GatedChoices(cfg: Config, ws: seq<World>, i: nat, j: nat)
    requires cfg.gateway.Valid() && Behavior(cfg, ws) && i <= j < |ws| && StaysGated(ws, i, j)
    ensures OnlyZeroChoices(ws[i], ws[j])
    decreases j
  {
    if i < j {
      GatedChoices(cfg, ws, i, j - 1);
      TraceHolds(cfg, ws, j - 1);
      assert MovesAt(cfg, ws, j - 1);
      var e :| ws[j] == Next(cfg, ws[j - 1], e);
      GatedStep(cfg, ws[j - 1], e);
    }
  }

  /** Gate over whole runs: if from state `i` on the mux licenses nothing, every chassis command published more
      than the guard's timeout later is zero, whatever is still in flight. */
  lemma GatedMuxStopsVehicle(cfg: Config, ws: seq<World>, i: nat, j: nat, n: nat)
    requires cfg.gateway.Valid() && Behavior(cfg, ws) && i <= j < |ws| && StaysGated(ws, i, j)
    requires |ws[i].finals| <= n < |ws[j].finals|
    requires ws[j].finals[n].at > Now(ws[i]) + cfg.guard.commandTimeout
    ensures ws[j].finals[n].twist == ZERO
  {
    var w, w' := ws[i], ws[j];
    TraceHolds(cfg, ws, i);
    TraceHolds(cfg, ws, j);
    GatedChoices(cfg, ws, i, j);
    assert FinalTraced(cfg, w'.choices, w'.finals[n]);
    forall v | 0 <= v < |w'.choices|
      ensures w'.choices[v].stamp <= Now(w) || w'.choices[v].twist == ZERO
    {
      if v < |w.choices| {
        assert ChoiceTraced(cfg, w.gateway.commands, Now(w), w.choices[v]);
      }
    }
  }

  predicate Motionless(mode: nat) {
    mode == MODE_MANUAL || mode == MODE_VLA_SHADOW || mode == MODE_SAFE_STOP || mode == MODE_FAULT
  }

  /** So in MANUAL, VLA_SHADOW, SAFE_STOP and FAULT nothing moves the vehicle; Shadow predictions never do. */
  lemma MotionlessModesStopVehicle(cfg: Config, ws: seq<World>, i: nat, j: nat, n: nat)
    requires cfg.gateway.Valid() && Behavior(cfg, ws) && i <= j < |ws|
    requires forall k :: i <= k <= j ==> Motionless(ws[k].mux.mode)
    requires |ws[i].finals| <= n < |ws[j].finals|
    requires ws[j].finals[n].at > Now(ws[i]) + cfg.guard.commandTimeout
    ensures ws[j].finals[n].twist == ZERO
  {
    GatedMuxStopsVehicle(cfg, ws, i, j, n);
  }

  /** And a teleop mode moves nothing once the mux has heard that the lease is gone. */
  lemma LostLeaseStopsVehicle(cfg: Config, ws: seq<World>, i: nat, j: nat, n: nat)
    requires cfg.gateway.Valid() && Behavior(cfg, ws) && i <= j < |ws|
    requires forall k :: i <= k <= j ==>
               && (ws[k].mux.mode == MODE_MOBILE_TELEOP || ws[k].mux.mode == MODE_REMOTE_TELEOP)
               && !ws[k].mux.leaseActive
    requires |ws[i].finals| <= n < |ws[j].finals|
    requires ws[j].finals[n].at > Now(ws[i]) + cfg.guard.commandTimeout
    ensures ws[j].finals[n].twist == ZERO
  {
    GatedMuxStopsVehicle(cfg, ws, i, j, n);
  }

  // ----- the obstacle gate

  ghost predicate ScanRemembered(cfg: Config, guard: S.GuardState, scan: Option<S.Scan>) {
    guard.scanStamp > 0 ==>
      scan.Some? && S.IsFrontMinimum(cfg.guard, scan.value, |scan.value.ranges|, guard.minimumRange)
  }

  ghost predicate ObstacleInv(cfg: Config, w: World) {
    && ScanRemembered(cfg, w.guard, w.scan)
    && (forall f :: f in w.finals ==>
          f.twist == S.Judge(cfg.guard, f.guard, f.at).output && ScanRemembered(cfg, f.guard, f.scan))
  }

  lemma ObstacleStep(cfg: Config, w: World, e: Event)
    requires cfg.gateway.Valid() && ObstacleInv(cfg, w)
    ensures ObstacleInv(cfg, Next(cfg, w, e))
  {
    var w' := Next(cfg, w, e);
    if e.GuardFires? {
      assert w'.guard.scanStamp == w.guard.scanStamp && w'.guard.minimumRange == w.guard.minimumRange;
    }
  }

  lemma {:induction false} ObstacleHolds(cfg: Config, ws: seq<World>, k: nat)
    requires cfg.gateway.Valid() && Behavior(cfg, ws) && k < |ws|
    ensures ObstacleInv(cfg, ws[k])
  {
    if k > 0 {
      ObstacleHolds(cfg, ws, k - 1);
      assert MovesAt(cfg, ws, k - 1);
      var e :| ws[k] == Next(cfg, ws[k - 1], e);
      ObstacleStep(cfg, ws[k - 1], e);
    }
  }

  /** Obstacle gate: in every run, a forward chassis command published with a fresh scan and no fresh override
      means that no front ray of the last scan was nearer than the stop distance. */
  lemma ForwardMeansClear(cfg: Config, ws: seq<World>, k: nat, f: Final)
    requires cfg.gateway.Valid() && Behavior(cfg, ws) && k < |ws| && f in ws[k].finals
    requires f.twist.linearX > 0.0 && S.ScanFresh(cfg.guard, f.guard, f.at)
    requires !S.OverrideActive(cfg.guard, f.guard, f.at)
    ensures f.scan.Some?
    ensures forall i: nat :: i < |f.scan.value.ranges| && S.InFront(cfg.guard, f.scan.value, i) ==>
              f.scan.value.ranges[i].value >= cfg.guard.stopDistance
  {
    ObstacleHolds(cfg, ws, k);
  }

  /** The escape: a fresh selected command that does not drive forward always passes, clamped, however near the
      obstacle, unless a required scan is missing. */
  lemma ReverseAlwaysPasses(cfg: Config, ws: seq<World>, k: nat, f: Final)
    requires cfg.gateway.Valid() && Behavior(cfg, ws) && k < |ws| && f in ws[k].finals
    requires Fresh(f.guard.commandStamp, f.at, cfg.guard.commandTimeout) && f.guard.selected.linearX <= 0.0
    requires cfg.guard.requireScan ==>
               S.ScanFresh(cfg.guard, f.guard, f.at) || S.OverrideActive(cfg.guard, f.guard, f.at)
    ensures f.twist == S.Limit(cfg.guard, f.guard.selected)
  {
    ObstacleHolds(cfg, ws, k);
  }

  // ----- the obstacle override

  /** A standing override is the one signalled, and was received no earlier than it was published. */
  ghost predicate SignalRemembered(overrides: seq<L.Signal>, guard: S.GuardState, signal: Option<nat>) {
    guard.override ==>
      && signal.Some? && signal.value < |overrides|
      && overrides[signal.value].data && overrides[signal.value].at <= guard.overrideStamp
  }

  ghost predicate OverrideInv(w: World) {
    && SignalRemembered(w.gateway.overrides, w.guard, w.signal)
    && (forall f :: f in w.finals ==> SignalRemembered(w.gateway.overrides, f.guard, f.signal))
  }

  lemma SignalKept(overrides: seq<L.Signal>, more: seq<L.Signal>, guard: S.GuardState, signal: Option<nat>)
    requires SignalRemembered(overrides, guard, signal) && overrides <= more
    ensures SignalRemembered(more, guard, signal)
  {
  }

  lemma OverrideStep(cfg: Config, w: World, e: Event)
    requires cfg.gateway.Valid() && OverrideInv(w) && L.ProvenanceInv(cfg.gateway, w.gateway)
    ensures OverrideInv(Next(cfg, w, e))
  {
    var w' := Next(cfg, w, e);
    match e
    case Gateway(event) =>
      L.ProvenanceStep(cfg.gateway, w.gateway, event);
      SignalKept(w.gateway.overrides, w'.gateway.overrides, w.guard, w.signal);
      forall f | f in w'.finals
        ensures SignalRemembered(w'.gateway.overrides, f.guard, f.signal)
      {
        SignalKept(w.gateway.overrides, w'.gateway.overrides, f.guard, f.signal);
      }
    case OverrideDelivered(i) =>
      if i < |w.gateway.overrides| {
        assert w.gateway.overrides[i] in w.gateway.overrides;
      }
    case GuardFires => assert w'.guard.override == w.guard.override && w'.guard.overrideStamp == w.guard.overrideStamp;
    case _ =>
      assert w'.gateway == w.gateway && w'.finals == w.finals && w'.signal == w.signal;
  }

  lemma GatewayExplained(cfg: Config, ws: seq<World>, k: nat)
    requires cfg.gateway.Valid() && Behavior(cfg, ws) && k < |ws|
    ensures L.ProvenanceInv(cfg.gateway, ws[k].gateway)
  {
    TraceHolds(cfg, ws, k);
  }

  lemma OverrideMove(cfg: Config, ws: seq<World>, k: nat)
    requires cfg.gateway.Valid() && Behavior(cfg, ws) && k < |ws| - 1 && OverrideInv(ws[k])
    ensures OverrideInv(ws[k + 1])
  {
    GatewayExplained(cfg, ws, k);
    assert MovesAt(cfg, ws, k);
    var e :| ws[k + 1] == Next(cfg, ws[k], e);
    OverrideStep(cfg, ws[k], e);
  }

  lemma {:induction false} OverridesHold(cfg: Config, ws: seq<World>, k: nat)
    requires cfg.gateway.Valid() && Behavior(cfg, ws) && k < |ws|
    ensures OverrideInv(ws[k])
  {
    if k > 0 {
      OverridesHold(cfg, ws, k - 1);
      OverrideMove(cfg, ws, k - 1);
    }
  }

  /** The override was asked for with command `a` and published in time; only its delivery may have taken long. */
  predicate AskedFor(cfg: Config, a: L.Accepted, o: L.Signal, f: Final) {
    && a.command.deadman && a.command.override
    && o.at <= a.at + cfg.gateway.commandTimeout && o.at <= f.guard.overrideStamp
    && f.at <= f.guard.overrideStamp + cfg.guard.commandTimeout
  }

  /** Every chassis command published under an active override traces to an accepted deadman command with its
      override flag set. */
  lemma OverrideIsCommanded(cfg: Config, ws: seq<World>, k: nat, f: Final)
    requires cfg.gateway.Valid() && Behavior(cfg, ws) && k < |ws| && f in ws[k].finals
    requires S.OverrideActive(cfg.guard, f.guard, f.at)
    ensures f.signal.Some? && f.signal.value < |ws[k].gateway.overrides|
    ensures exists a :: a in ws[k].gateway.accepted && AskedFor(cfg, a, ws[k].gateway.overrides[f.signal.value], f)
  {
    TraceHolds(cfg, ws, k);
    OverridesHold(cfg, ws, k);
    var g := ws[k].gateway;
    var o := g.overrides[f.signal.value];
    assert o in g.overrides && L.SignalExplained(cfg.gateway, g.accepted, o);
    var a := g.accepted[o.cause.value];
    assert a in g.accepted && AskedFor(cfg, a, o, f);
  }

  /** Some front ray of the scan is nearer than the stop distance. */
  ghost predicate Near(cfg: S.GuardConfig, scan: S.Scan) {
    exists i: nat :: i < |scan.ranges| && S.InFront(cfg, scan, i) && scan.ranges[i].value < cfg.stopDistance
  }

  /** Exactly when a forward selection passes a near obstacle: while the override is active, whatever source it was
      selected from and whatever became of the lease since. */
  lemma ObstaclePassesIffOverride(cfg: Config, ws: seq<World>, k: nat, f: Final)
    requires cfg.gateway.Valid() && Behavior(cfg, ws) && k < |ws| && f in ws[k].finals
    requires Fresh(f.guard.commandStamp, f.at, cfg.guard.commandTimeout) && S.ScanFresh(cfg.guard, f.guard, f.at)
    requires f.scan.Some? && Near(cfg.guard, f.scan.value) && S.Limit(cfg.guard, f.guard.selected).linearX > 0.0
    ensures f.twist.linearX > 0.0 <==> S.OverrideActive(cfg.guard, f.guard, f.at)
  {
    ObstacleHolds(cfg, ws, k);
  }

  // ----- safety events

  /** Event `i` raises a rule from rest or clears exactly the rule raised just before. */
  ghost predicate Alternating(events: seq<SafetyEvent>, i: nat)
    requires i < |events|
  {
    if events[i].active then events[i].rule != "" && (i > 0 ==> !events[i - 1].active)
    else i > 0 && events[i - 1].active && events[i].rule == events[i - 1].rule &&
         events[i].severity == events[i - 1].severity
  }

  ghost predicate Alternates(events: seq<SafetyEvent>) {
    forall i: nat :: i < |events| ==> Alternating(events, i)
  }

  /** The rule standing after a prefix of the event stream. */
  function Standing(events: seq<SafetyEvent>): (rule: string) {
    if |events| > 0 && events[|events| - 1].active then events[|events| - 1].rule else ""
  }

  predicate Stopping(events: seq<SafetyEvent>) {
    |events| > 0 && events[|events| - 1].active && events[|events| - 1].severity >= SEVERITY_STOP
  }

  ghost predicate EventInv(w: World) {
    && Alternates(w.events)
    && w.guard.activeRule == Standing(w.events)
    && (Standing(w.events) != "" ==> w.guard.activeSeverity == w.events[|w.events| - 1].severity)
    && w.supervisorSeen <= |w.events| && w.captureSeen <= |w.events|
    && w.supervisor.safetyStop == Stopping(w.events[..w.supervisorSeen])
    && w.capturedRule == Standing(w.events[..w.captureSeen])
  }

  lemma Appended(events: seq<SafetyEvent>, e: SafetyEvent)
    requires Alternates(events)
    requires if e.active then e.rule != "" && Standing(events) == ""
             else Standing(events) == e.rule != "" && events[|events| - 1].severity == e.severity
    ensures Alternates(events + [e])
  {
    var all := events + [e];
    if |events| > 0 {
      assert Alternating(events, |events| - 1);
    }
    forall i: nat | i < |all|
      ensures Alternating(all, i)
    {
      if i < |events| {
        assert Alternating(events, i);
      }
    }
  }

  lemma AnnouncementAlternates(s: S.GuardState, events: seq<SafetyEvent>, severity: nat, rule: string,
                               reason: string)
    requires Alternates(events) && s.activeRule == Standing(events)
    requires Standing(events) != "" ==> s.activeSeverity == events[|events| - 1].severity
    ensures var r := S.Announce(s, severity, rule, reason);
            var all := events + r.events;
            && Alternates(all) && r.state.activeRule == Standing(all) == rule
            && (Standing(all) != "" ==> r.state.activeSeverity == all[|all| - 1].severity)
  {
    if s.activeRule == rule && s.activeSeverity == severity {
      assert events + [] == events;
    } else {
      var rest := events;
      if s.activeRule != "" {
        var cleared := SafetyEvent(s.activeSeverity, s.activeRule, "Safety condition cleared", false);
        Appended(events, cleared);
        rest := events + [cleared];
      }
      if rule != "" {
        Appended(rest, SafetyEvent(severity, rule, reason, true));
      }
      assert events + S.Announce(s, severity, rule, reason).events ==
             if rule == "" then rest else rest + [SafetyEvent(severity, rule, reason, true)];
    }
  }

  lemma GuardFiringAlternates(cfg: Config, w: World)
    requires EventInv(w)
    ensures EventInv(GuardFired(cfg, w))
  {
    var w' := GuardFired(cfg, w);
    var v := S.Judge(cfg.guard, w.guard, Now(w));
    AnnouncementAlternates(w.guard, w.events, v.severity, v.rule, v.reason);
    assert w'.events[..w.supervisorSeen] == w.events[..w.supervisorSeen];
    assert w'.events[..w.captureSeen] == w.events[..w.captureSeen];
  }

  lemma CaptureMirrors(events: seq<SafetyEvent>, n: nat)
    requires Alternates(events) && n < |events|
    ensures V.Mirror(Standing(events[..n]), events[n]) == Standing(events[..n + 1])
  {
    assert Alternating(events, n);
  }

  lemma SupervisorReadingAgrees(cfg: Config, w: World)
    requires cfg.gateway.Valid() && EventInv(w) && w.supervisorSeen < |w.events|
    ensures EventInv(Next(cfg, w, SupervisorReads))
  {
    var n := w.supervisorSeen;
    assert w.events[..n + 1][|w.events[..n + 1]| - 1] == w.events[n];
  }

  /** The queue, its readers and the guard's rule are as they were. */
  ghost predicate SameQueue(w: World, w': World) {
    && w'.events == w.events && w'.supervisorSeen == w.supervisorSeen && w'.captureSeen == w.captureSeen
    && w'.guard.activeRule == w.guard.activeRule && w'.guard.activeSeverity == w.guard.activeSeverity
    && w'.supervisor.safetyStop == w.supervisor.safetyStop && w'.capturedRule == w.capturedRule
  }

  lemma OtherEventsKeepQueue(cfg: Config, w: World, e: Event)
    requires cfg.gateway.Valid() && !e.GuardFires?
    requires (e.CaptureReads? ==> w.captureSeen >= |w.events|) && (e.SupervisorReads? ==> w.supervisorSeen >= |w.events|)
    ensures SameQueue(w, Next(cfg, w, e))
  {
  }

  lemma SameQueueAgrees(w: World, w': World)
    requires EventInv(w) && SameQueue(w, w')
    ensures EventInv(w')
  {
  }

  lemma EventStep(cfg: Config, w: World, e: Event)
    requires cfg.gateway.Valid() && EventInv(w)
    ensures EventInv(Next(cfg, w, e))
  {
    if e.GuardFires? {
      GuardFiringAlternates(cfg, w);
    } else if e.CaptureReads? && w.captureSeen < |w.events| {
      CaptureMirrors(w.events, w.captureSeen);
    } else if e.SupervisorReads? && w.supervisorSeen < |w.events| {
      SupervisorReadingAgrees(cfg, w);
    } else {
      OtherEventsKeepQueue(cfg, w, e);
      SameQueueAgrees(w, Next(cfg, w, e));
    }
  }

  lemma ConsistentStep(cfg: Config, w: World, e: Event)
    requires cfg.gateway.Valid() && V.Consistent(w.supervisor)
    ensures V.Consistent(Next(cfg, w, e).supervisor)
  {
    match e
    case ModeRequested(mode, reason) => V.RequestKeepsConsistent(w.supervisor, mode, reason);
    case SafeStopRequested(reason) => V.SafeStopKeepsConsistent(w.supervisor, reason);
    case SupervisorReads =>
      if w.supervisorSeen < |w.events| {
        V.EventKeepsConsistent(w.supervisor, w.events[w.supervisorSeen]);
      }
    case _ =>
  }

  lemma {:induction false} EventsHold(cfg: Config, ws: seq<World>, k: nat)
    requires cfg.gateway.Valid() && Behavior(cfg, ws) && k < |ws|
    ensures EventInv(ws[k]) && V.Consistent(ws[k].supervisor)
  {
    if k > 0 {
      EventsHold(cfg, ws, k - 1);
      assert MovesAt(cfg, ws, k - 1);
      var e :| ws[k] == Next(cfg, ws[k - 1], e);
      EventStep(cfg, ws[k - 1], e);
      ConsistentStep(cfg, ws[k - 1], e);
    }
  }

  /** What the readers of the event queue know of the guard. */
  ghost predicate Agreement(w: World) {
    && Alternates(w.events) && V.Consistent(w.supervisor)
    && (w.supervisorSeen == |w.events| ==>
          (w.supervisor.safetyStop <==> w.guard.activeRule != "" && w.guard.activeSeverity >= SEVERITY_STOP))
    && (w.captureSeen == |w.events| ==> w.capturedRule == w.guard.activeRule)
  }

  lemma InvariantGivesAgreement(w: World)
    requires EventInv(w) && V.Consistent(w.supervisor)
    ensures Agreement(w)
  {
    assert w.events[..|w.events|] == w.events;
    if |w.events| > 0 {
      assert Alternating(w.events, |w.events| - 1);
    }
  }

  /** Safety-event agreement: in every run the guard's events alternate raising and clearing one rule; a supervisor
      that has read them all carries the stop flag exactly when the guard has a rule of at least STOP severity
      standing, and a capture node that has read them all mirrors the guard's rule. Meanwhile a set stop flag
      leaves the supervisor in SAFE_STOP or MANUAL and its published flags agree with its mode. */
  lemma SafetyEventsAgree(cfg: Config, ws: seq<World>, k: nat)
    requires cfg.gateway.Valid() && Behavior(cfg, ws) && k < |ws|
    ensures Agreement(ws[k])
  {
    EventsHold(cfg, ws, k);
    InvariantGivesAgreement(ws[k]);
  }

  /** Once the supervisor has read the guard's events and the mux has the supervisor's mode, a standing rule of
      STOP severity leaves the mux with no licensed source. */
  lemma StopReachesMux(cfg: Config, ws: seq<World>, k: nat)
    requires cfg.gateway.Valid() && Behavior(cfg, ws) && k < |ws|
    requires ws[k].supervisorSeen == |ws[k].events| && ws[k].mux.mode == ws[k].supervisor.mode
    requires ws[k].guard.activeRule != "" && ws[k].guard.activeSeverity >= SEVERITY_STOP
    ensures M.Licensed(ws[k].mux) == M.Nobody
  {
    SafetyEventsAgree(cfg, ws, k);
  }
}
