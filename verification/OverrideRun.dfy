/** One family of runs of the control chain: an obstacle override that outlives its lease and lets Nav2 pass. */
module OverrideRun {
  import opened Common
  import opened Interfaces
  import opened ControlChain
  import G = TeleopGateway
  import L = LeaseProtocol
  import M = ControlMux
  import S = SafetyGuard

  // ----- the gateway's part

  function Drive(goal: G.Goal, id: string): (m: G.TeleopCommand) {
    G.TeleopCommand(id, goal.controller, 1, G.MINIMUM_VALIDITY, true, true, 0.0, 0.0)
  }

  /** A granted holder drives with the override held and the timer fires. */
  function Signalled(cfg: G.GatewayConfig, t: nat, goal: G.Goal): (ws: seq<L.World>)
    requires cfg.Valid()
    ensures |ws| == 5
  {
    var granted := L.Granted(cfg, t, goal);
    L.Extend(cfg, L.Extend(cfg, granted, L.CommandReceived(Drive(goal, L.Last(granted).node.lease.id))), L.TimerFired(t))
  }

  /** Then the lease is released and revoked. */
  function Ended(cfg: G.GatewayConfig, t: nat, goal: G.Goal): (ws: seq<L.World>)
    requires cfg.Valid()
    ensures |ws| == 7 && Signalled(cfg, t, goal) <= ws
  {
    var fired := Signalled(cfg, t, goal);
    L.Settle(cfg, L.Extend(cfg, fired, L.ReleaseRequested(L.Last(fired).node.lease.id, goal.controller)))
  }

  /** A driving holder's override is published. */
  lemma DriveSignals(cfg: G.GatewayConfig, w: L.World, goal: G.Goal)
    requires cfg.Valid() && G.Live(w.node, w.now) && w.node.lease.controller == goal.controller
    requires w.node.lastSequence == 0 && w.closing.None? && w.now >= 1
    ensures var w1 := L.Next(cfg, w, L.CommandReceived(Drive(goal, w.node.lease.id)));
            var w2 := L.Next(cfg, w1, L.TimerFired(w.now));
            && w2.overrides == w.overrides + [L.Signal(true, w.now, Some(|w.accepted|))] && w2.now == w.now
            && w2.node.lease == w.node.lease && w2.node.leaseDeadline == w.node.leaseDeadline && w2.closing.None?
  {
    var w1 := L.Next(cfg, w, L.CommandReceived(Drive(goal, w.node.lease.id)));
    assert G.CommandValid(w1.node, w.now) && w1.now == w.now && |w1.accepted| == |w.accepted| + 1;
  }

  lemma SignalledRuns(cfg: G.GatewayConfig, t: nat, goal: G.Goal)
    requires cfg.Valid() && G.Acceptable(cfg, goal) && t >= 1
    ensures var w := L.Last(Signalled(cfg, t, goal));
            && L.Behavior(cfg, Signalled(cfg, t, goal)) && Signalled(cfg, t, goal)[0] == L.Start(t)
            && w.now == t && w.node.lease.active && w.node.lease.controller == goal.controller && w.closing.None?
            && |w.overrides| == 1 && w.overrides[0].data
  {
    var granted := L.Granted(cfg, t, goal);
    var drive := L.CommandReceived(Drive(goal, L.Last(granted).node.lease.id));
    L.GrantedRuns(cfg, t, goal);
    DriveSignals(cfg, L.Last(granted), goal);
    L.ExtendIsBehavior(cfg, granted, drive);
    L.ExtendIsBehavior(cfg, L.Extend(cfg, granted, drive), L.TimerFired(t));
  }

  lemma ReleaseEnds(cfg: G.GatewayConfig, w: L.World)
    requires cfg.Valid() && w.node.lease.active && w.closing.None?
    ensures var w1 := L.Next(cfg, w, L.ReleaseRequested(w.node.lease.id, w.node.lease.controller));
            var w2 := L.Next(cfg, w1, L.LeaseRevoked(L.CallbackThread));
            w2.now == w.now && w2.overrides == w.overrides && !w2.node.lease.active
  {
  }

  lemma EndedRuns(cfg: G.GatewayConfig, t: nat, goal: G.Goal)
    requires cfg.Valid() && G.Acceptable(cfg, goal) && t >= 1
    ensures var w := L.Last(Ended(cfg, t, goal));
            && L.Behavior(cfg, Ended(cfg, t, goal)) && Ended(cfg, t, goal)[0] == L.Start(t)
            && w.now == t && !w.node.lease.active && |w.overrides| == 1 && w.overrides[0].data
  {
    var fired := Signalled(cfg, t, goal);
    var release := L.ReleaseRequested(L.Last(fired).node.lease.id, goal.controller);
    SignalledRuns(cfg, t, goal);
    ReleaseEnds(cfg, L.Last(fired));
    L.ExtendIsBehavior(cfg, fired, release);
    L.ExtendIsBehavior(cfg, L.Extend(cfg, fired, release), L.LeaseRevoked(L.CallbackThread));
  }

  // ----- the chain's part

  /** The chain while only its gateway has moved. */
  function GatewayOnly(t: nat, gs: seq<L.World>): (ws: seq<World>)
    ensures |ws| == |gs| && forall k :: 0 <= k < |gs| ==> ws[k] == Start(t).(gateway := gs[k])
  {
    seq(|gs|, k requires 0 <= k < |gs| => Start(t).(gateway := gs[k]))
  }

  lemma GatewayOnlyRuns(cfg: Config, t: nat, gs: seq<L.World>)
    requires cfg.gateway.Valid() && t >= 1 && L.Behavior(cfg.gateway, gs) && gs[0] == L.Start(t)
    ensures Behavior(cfg, GatewayOnly(t, gs))
  {
    var ws := GatewayOnly(t, gs);
    assert ws[0] == Start(t);
    forall k: nat | k < |ws| - 1
      ensures MovesAt(cfg, ws, k)
    {
      assert L.MovesAt(cfg.gateway, gs, k);
      var e :| gs[k + 1] == L.Next(cfg.gateway, gs[k], e);
      assert ws[k + 1] == Next(cfg, ws[k], Gateway(e));
    }
  }

  /** The operator switches to Nav2; the mux hears of it and of a Nav2 velocity, and fires. */
  ghost function Navigated(cfg: Config, ws: seq<World>, drive: Twist): (more: seq<World>)
    requires cfg.gateway.Valid() && |ws| > 0
    ensures |more| > 0
  {
    var asked := Extend(cfg, ws, ModeRequested(MODE_NAV2, ""));
    var heard := Extend(cfg, Extend(cfg, asked, StateDelivered(1)), NavDelivered(drive));
    Extend(cfg, heard, MuxFires(Now(Last(ws))))
  }

  lemma NavigatedRuns(cfg: Config, ws: seq<World>, drive: Twist)
    requires cfg.gateway.Valid() && Behavior(cfg, ws)
    ensures Behavior(cfg, Navigated(cfg, ws, drive))
  {
    var asked := Extend(cfg, ws, ModeRequested(MODE_NAV2, ""));
    var switched := Extend(cfg, asked, StateDelivered(1));
    ExtendIsBehavior(cfg, ws, ModeRequested(MODE_NAV2, ""));
    ExtendIsBehavior(cfg, asked, StateDelivered(1));
    ExtendIsBehavior(cfg, switched, NavDelivered(drive));
    ExtendIsBehavior(cfg, Extend(cfg, switched, NavDelivered(drive)), MuxFires(Now(Last(ws))));
  }

  lemma NavigationSelects(cfg: Config, w: World, drive: Twist)
    requires cfg.gateway.Valid() && cfg.sourceTimeout >= 0 && Now(w) >= 1
    requires w == Start(Now(w)).(gateway := w.gateway)
    ensures var w1 := Next(cfg, w, ModeRequested(MODE_NAV2, ""));
            var w2 := Next(cfg, Next(cfg, w1, StateDelivered(1)), NavDelivered(drive));
            Next(cfg, w2, MuxFires(Now(w))) ==
            w2.(gateway := w.gateway, guard := S.INITIAL, finals := [],
                choices := [Choice(drive, Now(w), M.Nav, MODE_NAV2, None)])
  {
    var w1 := Next(cfg, w, ModeRequested(MODE_NAV2, ""));
    assert w1.states == [MODE_MANUAL, MODE_NAV2];
  }

  /** The guard hears the selection, the scan and the old signal, and fires. */
  ghost function Guarded(cfg: Config, ws: seq<World>, scan: S.Scan): (more: seq<World>)
    requires cfg.gateway.Valid() && |ws| > 0
    ensures |more| > 0
  {
    var scanned := Extend(cfg, Extend(cfg, ws, SelectedDelivered(0)), ScanDelivered(scan));
    Extend(cfg, Extend(cfg, scanned, OverrideDelivered(0)), GuardFires)
  }

  lemma GuardedRuns(cfg: Config, ws: seq<World>, scan: S.Scan)
    requires cfg.gateway.Valid() && Behavior(cfg, ws)
    ensures Behavior(cfg, Guarded(cfg, ws, scan))
  {
    var selected := Extend(cfg, ws, SelectedDelivered(0));
    var scanned := Extend(cfg, selected, ScanDelivered(scan));
    ExtendIsBehavior(cfg, ws, SelectedDelivered(0));
    ExtendIsBehavior(cfg, selected, ScanDelivered(scan));
    ExtendIsBehavior(cfg, scanned, OverrideDelivered(0));
    ExtendIsBehavior(cfg, Extend(cfg, scanned, OverrideDelivered(0)), GuardFires);
  }

  lemma SelectionHeard(cfg: Config, w: World, scan: S.Scan)
    requires cfg.gateway.Valid() && |w.choices| == 1 && w.choices[0].stamp == Now(w) >= 1
    ensures var w2 := Next(cfg, Next(cfg, w, SelectedDelivered(0)), ScanDelivered(scan));
            && w2 == w.(guard := w2.guard, chosen := Some(0), scan := Some(scan))
            && w2.guard.selected == w.choices[0].twist && w2.guard.commandStamp == Now(w)
  {
  }

  lemma SignalPasses(cfg: Config, w: World)
    requires cfg.gateway.Valid() && cfg.guard.commandTimeout >= 0 && Now(w) >= 1
    requires |w.gateway.overrides| == 1 && w.gateway.overrides[0].data && w.guard.commandStamp == Now(w)
    ensures var w' := Next(cfg, Next(cfg, w, OverrideDelivered(0)), GuardFires);
            && w'.gateway == w.gateway && w'.choices == w.choices && |w'.finals| == |w.finals| + 1
            && var f := w'.finals[|w.finals|];
               f.twist == S.Limit(cfg.guard, w.guard.selected) && f.choice == w.chosen && f.scan == w.scan
  {
    var w1 := Next(cfg, w, OverrideDelivered(0));
    assert S.OverrideActive(cfg.guard, w1.guard, Now(w1));
  }

  ghost function Escape(cfg: Config, t: nat, goal: G.Goal, drive: Twist, scan: S.Scan): (ws: seq<World>)
    requires cfg.gateway.Valid()
    ensures |ws| > 0
  {
    Guarded(cfg, Navigated(cfg, GatewayOnly(t, Ended(cfg.gateway, t, goal)), drive), scan)
  }

  /** The override is about the guard alone: for every drive and every scan, however near its obstacles, there is a
      run in which a Nav2 command passes under a signal whose lease has been revoked. */
  lemma OverrideOutlivesLease(cfg: Config, t: nat, goal: G.Goal, drive: Twist, scan: S.Scan)
    requires cfg.gateway.Valid() && G.Acceptable(cfg.gateway, goal) && t >= 1
    requires cfg.sourceTimeout >= 0 && cfg.guard.commandTimeout >= 0
    ensures Behavior(cfg, Escape(cfg, t, goal, drive, scan))
    ensures var w := Last(Escape(cfg, t, goal, drive, scan));
            && !w.gateway.node.lease.active && w.choices == [Choice(drive, t, M.Nav, MODE_NAV2, None)]
            && |w.finals| == 1 && w.finals[0].choice == Some(0) && w.finals[0].scan == Some(scan)
            && w.finals[0].twist == S.Limit(cfg.guard, drive)
  {
    var start := GatewayOnly(t, Ended(cfg.gateway, t, goal));
    var selected := Navigated(cfg, start, drive);
    EndedRuns(cfg.gateway, t, goal);
    GatewayOnlyRuns(cfg, t, Ended(cfg.gateway, t, goal));
    NavigatedRuns(cfg, start, drive);
    GuardedRuns(cfg, selected, scan);
    NavigationSelects(cfg, Last(start), drive);
    SelectionHeard(cfg, Last(selected), scan);
    SignalPasses(cfg, Next(cfg, Next(cfg, Last(selected), SelectedDelivered(0)), ScanDelivered(scan)));
  }
}
