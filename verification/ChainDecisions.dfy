/** What mux, guard and supervisor decide, told from what was delivered to them alone: an observer that keeps the last
    message of each kind, next to the chain, and exact theorems about every selection, chassis command and mode change
    in its terms. */
module ChainDecisions {
  import opened Common
  import opened Interfaces
  import C = ControlChain
  import G = TeleopGateway
  import L = LeaseProtocol
  import M = ControlMux
  import S = SafetyGuard
  import V = Supervisor

  datatype Velocity = Velocity(twist: Twist, stamp: int)
  datatype LeaseNews = LeaseNews(active: bool, remote: bool)
  datatype ScanNews = ScanNews(scan: S.Scan, at: nat)
  datatype OverrideNews = OverrideNews(data: bool, at: nat)

  /** The last message of each kind; a teleop velocity is forgotten when the lease is heard to be inactive. */
  datatype Heard = Heard(
    mode: nat, lease: Option<LeaseNews>, nav: Option<Velocity>, vla: Option<Velocity>, mobile: Option<Velocity>,
    selection: Option<Velocity>, scan: Option<ScanNews>, override: Option<OverrideNews>, ready: bool)

  const NOTHING := Heard(MODE_MANUAL, None, None, None, None, None, None, None, false)

  datatype Observed = Observed(world: C.World, heard: Heard)

  function Hear(h: Heard, w: C.World, e: C.Event): (h': Heard) {
    match e
    case PolicyReported(ready, _) => h.(ready := ready)
    case StateDelivered(i) => if i < |w.states| then h.(mode := w.states[i]) else h
    case LeaseDelivered(i) =>
      if i < |w.gateway.leases| then
        var lease := w.gateway.leases[i];
        h.(lease := Some(LeaseNews(lease.active, lease.remote)), mobile := if lease.active then h.mobile else None)
      else h
    case NavDelivered(twist) => h.(nav := Some(Velocity(twist, C.Now(w))))
    case VlaDelivered(twist, stamp) => h.(vla := Some(Velocity(twist, stamp)))
    case MobileDelivered(i) =>
      if i < |w.gateway.commands| then
        h.(mobile := Some(Velocity(w.gateway.commands[i].twist, w.gateway.commands[i].stamp)))
      else h
    case SelectedDelivered(i) =>
      if i < |w.choices| then h.(selection := Some(Velocity(w.choices[i].twist, w.choices[i].stamp))) else h
    case ScanDelivered(scan) => h.(scan := Some(ScanNews(scan, C.Now(w))))
    case OverrideDelivered(i) =>
      if i < |w.gateway.overrides| then
        h.(override := Some(OverrideNews(w.gateway.overrides[i].data, C.Now(w))))
      else h
    case _ => h
  }

  ghost function Step(cfg: C.Config, o: Observed, e: C.Event): (o': Observed)
    requires cfg.gateway.Valid()
  {
    Observed(C.Next(cfg, o.world, e), Hear(o.heard, o.world, e))
  }

  ghost predicate MovesAt(cfg: C.Config, os: seq<Observed>, k: nat)
    requires cfg.gateway.Valid() && k < |os| - 1
  {
    exists e :: os[k + 1] == Step(cfg, os[k], e)
  }

  /** The states of one observed run. */
  ghost predicate Behavior(cfg: C.Config, os: seq<Observed>)
    requires cfg.gateway.Valid()
  {
    && |os| > 0 && (exists t :: t >= 1 && os[0] == Observed(C.Start(t), NOTHING))
    && (forall k: nat :: k < |os| - 1 ==> MovesAt(cfg, os, k))
  }

  // ----- the observer sees every run

  function Worlds(os: seq<Observed>): (ws: seq<C.World>)
    ensures |ws| == |os| && forall k :: 0 <= k < |os| ==> ws[k] == os[k].world
  {
    seq(|os|, k requires 0 <= k < |os| => os[k].world)
  }

  lemma ObservedRuns(cfg: C.Config, os: seq<Observed>)
    requires cfg.gateway.Valid() && Behavior(cfg, os)
    ensures C.Behavior(cfg, Worlds(os))
  {
    var t :| t >= 1 && os[0] == Observed(C.Start(t), NOTHING);
    assert Worlds(os)[0] == C.Start(t);
    forall k: nat | k < |os| - 1
      ensures C.MovesAt(cfg, Worlds(os), k)
    {
      assert MovesAt(cfg, os, k);
      var e :| os[k + 1] == Step(cfg, os[k], e);
      assert Worlds(os)[k + 1] == C.Next(cfg, Worlds(os)[k], e);
    }
  }

  lemma ObservedFurther(cfg: C.Config, os: seq<Observed>, e: C.Event)
    requires cfg.gateway.Valid() && Behavior(cfg, os)
    ensures Behavior(cfg, os + [Step(cfg, os[|os| - 1], e)])
  {
    var all := os + [Step(cfg, os[|os| - 1], e)];
    forall k: nat | k < |all| - 1
      ensures MovesAt(cfg, all, k)
    {
      if k < |os| - 1 {
        assert MovesAt(cfg, os, k);
        var f :| os[k + 1] == Step(cfg, os[k], f);
        assert all[k + 1] == Step(cfg, all[k], f);
      } else {
        assert all[k + 1] == Step(cfg, all[k], e);
      }
    }
  }

  lemma PrefixRuns(cfg: C.Config, ws: seq<C.World>, n: nat)
    requires cfg.gateway.Valid() && C.Behavior(cfg, ws) && 1 <= n <= |ws|
    ensures C.Behavior(cfg, ws[..n])
  {
    forall k: nat | k < n - 1
      ensures C.MovesAt(cfg, ws[..n], k)
    {
      assert C.MovesAt(cfg, ws, k);
    }
  }

  /** Every run of the chain can be observed. */
  lemma {:induction false} EveryRunObserved(cfg: C.Config, ws: seq<C.World>) returns (os: seq<Observed>)
    requires cfg.gateway.Valid() && C.Behavior(cfg, ws)
    ensures Behavior(cfg, os) && |os| == |ws| && forall k :: 0 <= k < |ws| ==> os[k].world == ws[k]
    decreases |ws|
  {
    var n := |ws| - 1;
    if n == 0 {
      var t :| t >= 1 && ws[0] == C.Start(t);
      os := [Observed(C.Start(t), NOTHING)];
    } else {
      PrefixRuns(cfg, ws, n);
      var before := EveryRunObserved(cfg, ws[..n]);
      assert before[n - 1].world == ws[..n][n - 1] == ws[n - 1];
      assert C.MovesAt(cfg, ws, n - 1);
      var e :| ws[n] == C.Next(cfg, ws[n - 1], e);
      ObservedFurther(cfg, before, e);
      os := before + [Step(cfg, before[n - 1], e)];
    }
  }

  // ----- the nodes hold what they heard

  predicate Keeps(v: Option<Velocity>, twist: Twist, stamp: int) {
    if v.Some? then v.value.twist == twist && v.value.stamp == stamp else stamp == 0
  }

  ghost predicate MuxInv(o: Observed) {
    var h, mux := o.heard, o.world.mux;
    && h.mode == mux.mode
    && (mux.leaseActive <==> h.lease.Some? && h.lease.value.active)
    && (h.lease.Some? ==> mux.leaseRemote == h.lease.value.remote)
    && Keeps(h.nav, mux.navCommand, mux.navStamp) && Keeps(h.vla, mux.vlaCommand, mux.vlaStamp)
    && Keeps(h.mobile, mux.mobileCommand, mux.mobileStamp)
  }

  ghost predicate GuardInv(cfg: C.Config, o: Observed) {
    var h, guard := o.heard, o.world.guard;
    && Keeps(h.selection, guard.selected, guard.commandStamp)
    && (if h.scan.Some? then
          guard.scanStamp == h.scan.value.at >= 1 &&
          S.IsFrontMinimum(cfg.guard, h.scan.value.scan, |h.scan.value.scan.ranges|, guard.minimumRange)
        else guard.scanStamp == 0)
    && (if h.override.Some? then
          guard.override == h.override.value.data && guard.overrideStamp == h.override.value.at >= 1
        else !guard.override)
  }

  lemma MuxStep(cfg: C.Config, o: Observed, e: C.Event)
    requires cfg.gateway.Valid() && MuxInv(o)
    ensures MuxInv(Step(cfg, o, e))
  {
  }

  lemma GuardStep(cfg: C.Config, o: Observed, e: C.Event)
    requires cfg.gateway.Valid() && GuardInv(cfg, o) && C.TraceInv(cfg, o.world)
    ensures GuardInv(cfg, Step(cfg, o, e))
  {
    var o' := Step(cfg, o, e);
    match e
    case SelectedDelivered(i) =>
      if i < |o.world.choices| {
        assert o.world.choices[i] in o.world.choices;
        assert C.ChoiceTraced(cfg, o.world.gateway.commands, C.Now(o.world), o.world.choices[i]);
      }
    case ScanDelivered(_) =>
    case OverrideDelivered(_) =>
    case GuardFires =>
      assert o'.world.guard == o.world.guard.(activeRule := o'.world.guard.activeRule,
                                              activeSeverity := o'.world.guard.activeSeverity);
    case _ => assert o'.world.guard == o.world.guard;
  }

  lemma {:induction false} InvHolds(cfg: C.Config, os: seq<Observed>, k: nat)
    requires cfg.gateway.Valid() && Behavior(cfg, os) && k < |os|
    ensures MuxInv(os[k]) && GuardInv(cfg, os[k]) && os[k].heard.ready == os[k].world.supervisor.policyReady
  {
    if k > 0 {
      InvHolds(cfg, os, k - 1);
      WorldInv(cfg, os, k - 1);
      assert MovesAt(cfg, os, k - 1);
      var e :| os[k] == Step(cfg, os[k - 1], e);
      MuxStep(cfg, os[k - 1], e);
      GuardStep(cfg, os[k - 1], e);
      ReadyStep(cfg, os[k - 1], e);
    }
  }

  lemma ReadyStep(cfg: C.Config, o: Observed, e: C.Event)
    requires cfg.gateway.Valid() && o.heard.ready == o.world.supervisor.policyReady
    ensures Step(cfg, o, e).heard.ready == Step(cfg, o, e).world.supervisor.policyReady
  {
  }

  lemma WorldInv(cfg: C.Config, os: seq<Observed>, k: nat)
    requires cfg.gateway.Valid() && Behavior(cfg, os) && k < |os|
    ensures C.TraceInv(cfg, os[k].world) && C.EventInv(os[k].world) && V.Consistent(os[k].world.supervisor)
  {
    ObservedRuns(cfg, os);
    C.TraceHolds(cfg, Worlds(os), k);
    C.EventsHold(cfg, Worlds(os), k);
  }

  // ----- the mux

  /** A velocity was heard whose stamp is at most `timeout` old. */
  predicate Recent(v: Option<Velocity>, now: int, timeout: int) {
    v.Some? && v.value.stamp > 0 && now - v.value.stamp <= timeout
  }

  predicate SelectsNav(cfg: C.Config, h: Heard, now: int) {
    h.mode == MODE_NAV2 && Recent(h.nav, now, cfg.sourceTimeout)
  }

  predicate SelectsVla(cfg: C.Config, h: Heard, now: int) {
    h.mode in {MODE_VLA_ASSISTED, MODE_VLA_AUTONOMOUS} && Recent(h.vla, now, cfg.sourceTimeout)
  }

  /** MOBILE_TELEOP under a local lease, REMOTE_TELEOP under a remote one. */
  predicate SelectsTeleop(cfg: C.Config, h: Heard, now: int) {
    h.lease.Some? && h.lease.value.active &&
    h.mode == (if h.lease.value.remote then MODE_REMOTE_TELEOP else MODE_MOBILE_TELEOP) &&
    Recent(h.mobile, now, cfg.sourceTimeout)
  }

  /** Every selection: each source exactly when its mode, lease and freshness are as heard, with its latest velocity,
      and zero otherwise. */
  lemma SelectionExact(cfg: C.Config, os: seq<Observed>, k: nat, stamp: nat)
    requires cfg.gateway.Valid() && Behavior(cfg, os) && k < |os| && 1 <= stamp <= C.Now(os[k].world)
    ensures var w, h, now := os[k].world, os[k].heard, C.Now(os[k].world);
            var w' := C.Next(cfg, w, C.MuxFires(stamp));
            && |w'.choices| == |w.choices| + 1 && w.choices <= w'.choices
            && var c := w'.choices[|w.choices|];
            && c.stamp == stamp && c.mode == h.mode
            && (c.source.Nav? <==> SelectsNav(cfg, h, now)) && (c.source.Nav? ==> c.twist == h.nav.value.twist)
            && (c.source.Vla? <==> SelectsVla(cfg, h, now)) && (c.source.Vla? ==> c.twist == h.vla.value.twist)
            && (c.source.Teleop? <==> SelectsTeleop(cfg, h, now))
            && (c.source.Teleop? ==> c.twist == h.mobile.value.twist)
            && (c.source.Nobody? ==> c.twist == ZERO)
  {
    InvHolds(cfg, os, k);
  }

  // ----- the guard

  predicate SelectionFresh(cfg: C.Config, h: Heard, now: int) {
    Recent(h.selection, now, cfg.guard.commandTimeout)
  }

  predicate ScanFresh(cfg: C.Config, h: Heard, now: int) {
    h.scan.Some? && now - h.scan.value.at <= cfg.guard.scanTimeout
  }

  predicate Overridden(cfg: C.Config, h: Heard, now: int) {
    h.override.Some? && h.override.value.data && now - h.override.value.at <= cfg.guard.commandTimeout
  }

  /** Ray `i`, in range and in the front sector, ends before the stop distance. */
  predicate Blocks(g: S.GuardConfig, scan: S.Scan, i: nat)
    requires i < |scan.ranges|
  {
    var angle := scan.angleMin + (i as real) * scan.angleIncrement;
    -g.halfAngle <= angle <= g.halfAngle && scan.ranges[i].Finite? &&
    scan.rangeMin <= scan.ranges[i].value <= scan.rangeMax && scan.ranges[i].value < g.stopDistance
  }

  ghost predicate Near(g: S.GuardConfig, scan: S.Scan) {
    exists i: nat :: i < |scan.ranges| && Blocks(g, scan, i)
  }

  /** `y` is `x` brought into an interval. */
  predicate Brought(x: real, lo: real, hi: real, y: real) {
    if x < lo then y == lo else if x > hi then y == hi else y == x
  }

  /** Only forward and turning velocity pass, each within its limits. */
  predicate Passed(g: S.GuardConfig, t: Twist, out: Twist) {
    && Brought(t.linearX, -Abs(g.maxReverse), Abs(g.maxLinear), out.linearX)
    && Brought(t.angularZ, -Abs(g.maxAngular), Abs(g.maxAngular), out.angularZ)
    && out.linearY == out.linearZ == out.angularX == out.angularY == 0.0
  }

  predicate Forward(g: S.GuardConfig, t: Twist) {
    t.linearX > 0.0 && g.maxLinear != 0.0
  }

  /** A scan is required and neither a fresh one nor an override is there. */
  predicate Blind(cfg: C.Config, h: Heard, now: int) {
    cfg.guard.requireScan && !ScanFresh(cfg, h, now) && !Overridden(cfg, h, now)
  }

  /** A forward selection meets an obstacle, without an override. */
  ghost predicate Obstructed(cfg: C.Config, h: Heard, now: int)
    requires h.selection.Some?
  {
    Forward(cfg.guard, h.selection.value.twist) && !Overridden(cfg, h, now) && ScanFresh(cfg, h, now) &&
    Near(cfg.guard, h.scan.value.scan)
  }

  ghost predicate Passes(cfg: C.Config, h: Heard, now: int) {
    SelectionFresh(cfg, h, now) && !Blind(cfg, h, now) && !Obstructed(cfg, h, now)
  }

  /** The rule that stands after a tick, with its severity. */
  ghost predicate RuleFits(cfg: C.Config, h: Heard, now: int, rule: string, severity: nat) {
    if !SelectionFresh(cfg, h, now) then rule == "command_timeout" && severity == 1
    else if Blind(cfg, h, now) then rule == "scan_timeout" && severity == 2
    else if Overridden(cfg, h, now) then rule == "manual_obstacle_override" && severity == 1
    else if Obstructed(cfg, h, now) then rule == "front_obstacle" && severity == 1
    else rule == "" && severity == 0
  }

  /** The guard's minimum is below the stop distance exactly when a ray blocks. */
  lemma MinimumMeansNear(g: S.GuardConfig, scan: S.Scan, m: Num)
    requires S.IsFrontMinimum(g, scan, |scan.ranges|, m)
    ensures m.Finite? && m.value < g.stopDistance <==> Near(g, scan)
  {
    if m.Finite? && m.value < g.stopDistance {
      var i: nat :| i < |scan.ranges| && S.InFront(g, scan, i) && scan.ranges[i] == m;
      assert Blocks(g, scan, i);
    }
    if Near(g, scan) {
      var i: nat :| i < |scan.ranges| && Blocks(g, scan, i);
      assert S.InFront(g, scan, i);
    }
  }

  lemma LimitPasses(g: S.GuardConfig, t: Twist)
    ensures Passed(g, t, S.Limit(g, t)) && (S.Limit(g, t).linearX > 0.0 <==> Forward(g, t))
  {
  }

  /** The guard's own tests mean what was heard. */
  lemma TestsMean(cfg: C.Config, o: Observed)
    requires GuardInv(cfg, o) && C.Now(o.world) >= 1
    ensures var g, s, h, now := cfg.guard, o.world.guard, o.heard, C.Now(o.world);
            && (Fresh(s.commandStamp, now, g.commandTimeout) <==> SelectionFresh(cfg, h, now))
            && (S.ScanFresh(g, s, now) <==> ScanFresh(cfg, h, now))
            && (S.OverrideActive(g, s, now) <==> Overridden(cfg, h, now))
            && (h.selection.Some? && !Overridden(cfg, h, now) ==> (S.Obstructed(g, s, now) <==> Obstructed(cfg, h, now)))
  {
    var h, s := o.heard, o.world.guard;
    if h.scan.Some? {
      MinimumMeansNear(cfg.guard, h.scan.value.scan, s.minimumRange);
    }
    LimitPasses(cfg.guard, s.selected);
  }

  lemma VerdictExact(cfg: C.Config, o: Observed)
    requires GuardInv(cfg, o) && C.Now(o.world) >= 1
    ensures var h, now := o.heard, C.Now(o.world);
            var v := S.Judge(cfg.guard, o.world.guard, now);
            && (if Passes(cfg, h, now) then Passed(cfg.guard, h.selection.value.twist, v.output) else v.output == ZERO)
            && RuleFits(cfg, h, now, v.rule, v.severity)
  {
    TestsMean(cfg, o);
    LimitPasses(cfg.guard, o.world.guard.selected);
  }

  lemma FiringPublishes(cfg: C.Config, w: C.World)
    requires cfg.gateway.Valid() && C.EventInv(w)
    ensures var v := S.Judge(cfg.guard, w.guard, C.Now(w));
            var w' := C.Next(cfg, w, C.GuardFires);
            && w'.finals == w.finals + [C.Final(v.output, C.Now(w), w.chosen, w.guard, w.scan, w.signal)]
            && w'.guard.activeRule == v.rule && w'.guard.activeSeverity == v.severity
            && C.Standing(w'.events) == v.rule
            && (v.rule != "" ==> w'.events[|w'.events| - 1].severity == v.severity)
            && (v.rule == w.guard.activeRule && v.severity == w.guard.activeSeverity ==> w'.events == w.events)
  {
    C.EventStep(cfg, w, C.GuardFires);
  }

  /** Every chassis command: the selection last heard, within limits, exactly when it is fresh, a required scan is not
      missing and no obstacle stands in its way; zero otherwise. After the tick, the rule that fits stands, and is the
      last thing announced; nothing is announced while it stays the same. */
  lemma ChassisExact(cfg: C.Config, os: seq<Observed>, k: nat)
    requires cfg.gateway.Valid() && Behavior(cfg, os) && k < |os|
    ensures var w, h, now := os[k].world, os[k].heard, C.Now(os[k].world);
            var w' := C.Next(cfg, w, C.GuardFires);
            && |w'.finals| == |w.finals| + 1 && w.finals <= w'.finals
            && var f := w'.finals[|w.finals|];
            && f.at == now
            && (if Passes(cfg, h, now) then Passed(cfg.guard, h.selection.value.twist, f.twist) else f.twist == ZERO)
            && RuleFits(cfg, h, now, w'.guard.activeRule, w'.guard.activeSeverity)
            && C.Standing(w'.events) == w'.guard.activeRule
            && (w'.guard.activeRule != "" ==> w'.events[|w'.events| - 1].severity == w'.guard.activeSeverity)
            && (w'.guard.activeRule == w.guard.activeRule && w'.guard.activeSeverity == w.guard.activeSeverity ==>
                  w'.events == w.events)
  {
    InvHolds(cfg, os, k);
    WorldInv(cfg, os, k);
    VerdictExact(cfg, os[k]);
    FiringPublishes(cfg, os[k].world);
  }

  // ----- the supervisor

  /** A request is granted exactly for a known mode that a standing stop permits and, to hand control to the policy,
      only while the last policy report was ready. */
  ghost predicate MayEnter(o: Observed, mode: nat) {
    && mode <= 8
    && (C.Stopping(o.world.events[..Seen(o)]) ==> mode in {MODE_SAFE_STOP, MODE_MANUAL})
    && (mode in {MODE_VLA_ASSISTED, MODE_VLA_AUTONOMOUS} ==> o.heard.ready)
  }

  /** How far the supervisor has read the safety events. */
  function Seen(o: Observed): (n: nat)
    ensures n <= |o.world.events|
  {
    if o.world.supervisorSeen <= |o.world.events| then o.world.supervisorSeen else |o.world.events|
  }

  /** The mode after an event. */
  ghost function ModeAfter(o: Observed, e: C.Event): (mode: nat) {
    match e
    case ModeRequested(mode, _) => if MayEnter(o, mode) then mode else o.world.supervisor.mode
    case SafeStopRequested(_) => MODE_SAFE_STOP
    case SupervisorReads =>
      if Seen(o) < |o.world.events| && o.world.events[Seen(o)].active && o.world.events[Seen(o)].severity >= 2
      then MODE_SAFE_STOP else o.world.supervisor.mode
    case _ => o.world.supervisor.mode
  }

  /** Every mode change, and every mode published: by a granted request, a safe-stop request or a stopping event, and
      by nothing else. */
  lemma ModeExact(cfg: C.Config, os: seq<Observed>, k: nat, e: C.Event)
    requires cfg.gateway.Valid() && Behavior(cfg, os) && k < |os|
    ensures var w, w' := os[k].world, C.Next(cfg, os[k].world, e);
            && w'.supervisor.mode == ModeAfter(os[k], e)
            && (e.ModeRequested? ==> (|w'.states| > |w.states| <==> MayEnter(os[k], e.mode)))
            && (w'.states == w.states || w'.states == w.states + [w'.supervisor.mode])
            && (w'.supervisor.mode != w.supervisor.mode ==> |w'.states| > |w.states|)
  {
    InvHolds(cfg, os, k);
    WorldInv(cfg, os, k);
  }

  /** The vehicle is declared safe to move exactly outside SAFE_STOP and FAULT. */
  lemma SafeToMoveExact(cfg: C.Config, os: seq<Observed>, k: nat)
    requires cfg.gateway.Valid() && Behavior(cfg, os) && k < |os|
    ensures os[k].world.supervisor.safeToMove <==> os[k].world.supervisor.mode !in {MODE_SAFE_STOP, MODE_FAULT}
  {
    WorldInv(cfg, os, k);
  }

  /** Control is handed to the policy only by a request made while the policy was reported ready and no stop stood. */
  lemma PolicyTakesControl(cfg: C.Config, os: seq<Observed>, k: nat)
    requires cfg.gateway.Valid() && Behavior(cfg, os) && k < |os| - 1
    requires os[k + 1].world.supervisor.mode in {MODE_VLA_ASSISTED, MODE_VLA_AUTONOMOUS}
    requires os[k].world.supervisor.mode != os[k + 1].world.supervisor.mode
    ensures os[k].heard.ready && !C.Stopping(os[k].world.events[..Seen(os[k])])
  {
    assert MovesAt(cfg, os, k);
    var e :| os[k + 1] == Step(cfg, os[k], e);
    ModeExact(cfg, os, k, e);
  }
}
