/** The safety guard: the only publisher of the chassis command. */
module SafetyGuard {
  import opened Common
  import opened Interfaces

  datatype GuardConfig = GuardConfig(
    maxLinear: real, maxReverse: real, maxAngular: real, commandTimeout: int, scanTimeout: int,
    stopDistance: real, halfAngle: real, requireScan: bool)

  datatype Scan = Scan(angleMin: real, angleIncrement: real, rangeMin: real, rangeMax: real, ranges: seq<Num>)

  /** `minimumRange` is `NonFinite` for the source's infinity. */
  datatype GuardState = GuardState(
    selected: Twist, commandStamp: int, scanStamp: int, minimumRange: Num,
    override: bool, overrideStamp: int, activeRule: string, activeSeverity: nat)

  const INITIAL := GuardState(ZERO, 0, 0, NonFinite, false, 0, "", SEVERITY_INFO)

  // ----- the front sector

  function AngleOf(scan: Scan, i: nat): (angle: real) {
    scan.angleMin + (i as real) * scan.angleIncrement
  }

  /** Ray `i` points into the front sector and reports a distance inside the sensor's range. */
  predicate InFront(cfg: GuardConfig, scan: Scan, i: nat)
    requires i < |scan.ranges|
  {
    Abs(AngleOf(scan, i)) <= cfg.halfAngle && scan.ranges[i].Finite? &&
    scan.rangeMin <= scan.ranges[i].value <= scan.rangeMax
  }

  /** `m` is exactly the minimum over the front rays among the first `n`, infinity when there is none. */
  ghost predicate IsFrontMinimum(cfg: GuardConfig, scan: Scan, n: nat, m: Num)
    requires n <= |scan.ranges|
  {
    && (forall i: nat :: i < n && InFront(cfg, scan, i) ==> m.Finite? && m.value <= scan.ranges[i].value)
    && (m.Finite? ==> exists i: nat :: i < n && InFront(cfg, scan, i) && scan.ranges[i] == m)
  }

  /** The scan loop's fold over the first `n` rays. */
  ghost function FrontMinimum(cfg: GuardConfig, scan: Scan, n: nat): (m: Num)
    requires n <= |scan.ranges|
    ensures IsFrontMinimum(cfg, scan, n, m)
  {
    if n == 0 then NonFinite else
    var m := FrontMinimum(cfg, scan, n - 1);
    var range := scan.ranges[n - 1];
    if !InFront(cfg, scan, n - 1) then m
    else if m.Finite? && m.value < range.value then m else range
  }

  lemma FrontMinimumUnique(cfg: GuardConfig, scan: Scan, n: nat, m: Num, m': Num)
    requires n <= |scan.ranges| && IsFrontMinimum(cfg, scan, n, m) && IsFrontMinimum(cfg, scan, n, m')
    ensures m == m'
  {
    if m.Finite? {
      var i: nat :| i < n && InFront(cfg, scan, i) && scan.ranges[i] == m;
      var j: nat :| j < n && InFront(cfg, scan, j) && scan.ranges[j] == m';
    }
  }

  // ----- events

  /** What one timer tick decides: the rule to announce and the chassis command. */
  datatype Verdict = Verdict(severity: nat, rule: string, reason: string, output: Twist)

  datatype Report = Report(state: GuardState, events: seq<SafetyEvent>)

  /** `publish_event`: silent while the rule stands, otherwise clear the old rule and announce the new one. */
  function Announce(s: GuardState, severity: nat, rule: string, reason: string): (r: Report) {
    if s.activeRule == rule && s.activeSeverity == severity then Report(s, []) else
    var cleared := if s.activeRule == "" then []
                   else [SafetyEvent(s.activeSeverity, s.activeRule, "Safety condition cleared", false)];
    var raised := if rule == "" then [] else [SafetyEvent(severity, rule, reason, true)];
    Report(s.(activeRule := rule, activeSeverity := severity), cleared + raised)
  }

  function Limit(cfg: GuardConfig, t: Twist): (r: Twist) {
    Planar(Clamp(t.linearX, -Abs(cfg.maxReverse), Abs(cfg.maxLinear)),
           Clamp(t.angularZ, -Abs(cfg.maxAngular), Abs(cfg.maxAngular)))
  }

  predicate ScanFresh(cfg: GuardConfig, s: GuardState, now: int) {
    Fresh(s.scanStamp, now, cfg.scanTimeout)
  }

  predicate OverrideActive(cfg: GuardConfig, s: GuardState, now: int) {
    s.override && Fresh(s.overrideStamp, now, cfg.commandTimeout)
  }

  predicate Obstructed(cfg: GuardConfig, s: GuardState, now: int) {
    Limit(cfg, s.selected).linearX > 0.0 && ScanFresh(cfg, s, now) &&
    s.minimumRange.Finite? && s.minimumRange.value < cfg.stopDistance
  }

  function Judge(cfg: GuardConfig, s: GuardState, now: int): (v: Verdict) {
    if !Fresh(s.commandStamp, now, cfg.commandTimeout) then
      Verdict(SEVERITY_WARNING, "command_timeout", "Selected velocity command is stale", ZERO)
    else if cfg.requireScan && !ScanFresh(cfg, s, now) && !OverrideActive(cfg, s, now) then
      Verdict(SEVERITY_STOP, "scan_timeout", "Required obstacle scan is unavailable", ZERO)
    else if OverrideActive(cfg, s, now) then
      Verdict(SEVERITY_WARNING, "manual_obstacle_override",
              "Operator accepted responsibility for obstacle avoidance", Limit(cfg, s.selected))
    else if Obstructed(cfg, s, now) then
      Verdict(SEVERITY_WARNING, "front_obstacle",
              "Forward command blocked by obstacle; reverse escape remains available", ZERO)
    else
      Verdict(SEVERITY_INFO, "", "", Limit(cfg, s.selected))
  }

  function Reported(s: GuardState, v: Verdict): (r: Report) {
    Announce(s, v.severity, v.rule, v.reason)
  }

  function OnSelected(s: GuardState, now: int, twist: Twist, stamp: int): (s': GuardState) {
    s.(selected := twist, commandStamp := if stamp == 0 then now else stamp)
  }

  ghost function OnScan(cfg: GuardConfig, s: GuardState, now: int, scan: Scan): (s': GuardState) {
    s.(minimumRange := FrontMinimum(cfg, scan, |scan.ranges|), scanStamp := now)
  }

  // ----- the node

  class Guard {
    const cfg: GuardConfig
    var selected: Twist
    var commandStamp: int
    var scanStamp: int
    var minimumRange: Num
    var override: bool
    var overrideStamp: int
    var activeRule: string
    var activeSeverity: nat

    function View(): (s: GuardState)
      reads this
    {
      GuardState(selected, commandStamp, scanStamp, minimumRange, override, overrideStamp,
                 activeRule, activeSeverity)
    }

    constructor (cfg: GuardConfig)
      ensures this.cfg == cfg && View() == INITIAL
    {
      this.cfg := cfg;
      selected, commandStamp, scanStamp, minimumRange := ZERO, 0, 0, NonFinite;
      override, overrideStamp, activeRule, activeSeverity := false, 0, "", SEVERITY_INFO;
    }

    method SelectedReceived(now: int, twist: Twist, stamp: int)
      modifies this`selected, this`commandStamp
      ensures View() == OnSelected(old(View()), now, twist, stamp)
    {
      selected := twist;
      commandStamp := stamp;
      if commandStamp == 0 {
        commandStamp := now;
      }
    }

    method OverrideReceived(now: int, data: bool)
      modifies this`override, this`overrideStamp
      ensures View() == old(View()).(override := data, overrideStamp := now)
    {
      override, overrideStamp := data, now;
    }

    /** The scan loop leaves exactly the minimum over the in-range rays of the front sector. */
    method ScanReceived(now: int, scan: Scan)
      modifies this`minimumRange, this`scanStamp
      ensures IsFrontMinimum(cfg, scan, |scan.ranges|, minimumRange)
      ensures View() == OnScan(cfg, old(View()), now, scan)
    {
      minimumRange := NonFinite;
      var angle := scan.angleMin;
      for i := 0 to |scan.ranges|
        invariant angle == AngleOf(scan, i)
        invariant IsFrontMinimum(cfg, scan, i, minimumRange)
      {
        var range := scan.ranges[i];
        if Abs(angle) <= cfg.halfAngle && range.Finite? &&
           range.value >= scan.rangeMin && range.value <= scan.rangeMax
        {
          assert InFront(cfg, scan, i);
          minimumRange := if minimumRange.Finite? && minimumRange.value < range.value
                          then minimumRange else range;
        }
        angle := angle + scan.angleIncrement;
        assert angle == AngleOf(scan, i + 1);
      }
      scanStamp := now;
      FrontMinimumUnique(cfg, scan, |scan.ranges|, minimumRange, FrontMinimum(cfg, scan, |scan.ranges|));
    }

    method PublishEvent(severity: nat, rule: string, reason: string) returns (events: seq<SafetyEvent>)
      modifies this`activeRule, this`activeSeverity
      ensures Announce(old(View()), severity, rule, reason) == Report(View(), events)
    {
      events := [];
      if activeRule == rule && activeSeverity == severity {
        return;
      }
      if activeRule != "" {
        events := [SafetyEvent(activeSeverity, activeRule, "Safety condition cleared", false)];
      }
      activeRule, activeSeverity := rule, severity;
      if rule != "" {
        events := events + [SafetyEvent(severity, rule, reason, true)];
      }
    }

    method PublishSafeCommand(now: int) returns (output: Twist, events: seq<SafetyEvent>)
      modifies this`activeRule, this`activeSeverity
      ensures output == Judge(cfg, old(View()), now).output
      ensures Reported(old(View()), Judge(cfg, old(View()), now)) == Report(View(), events)
    {
      output := ZERO;
      ghost var verdict := Judge(cfg, View(), now);
      if !Fresh(commandStamp, now, cfg.commandTimeout) {
        assert verdict == Verdict(SEVERITY_WARNING, "command_timeout", "Selected velocity command is stale", ZERO);
        events := PublishEvent(SEVERITY_WARNING, "command_timeout", "Selected velocity command is stale");
        return;
      }
      var scanFresh := Fresh(scanStamp, now, cfg.scanTimeout);
      var overrideActive := override && Fresh(overrideStamp, now, cfg.commandTimeout);
      if cfg.requireScan && !scanFresh && !overrideActive {
        assert verdict == Verdict(SEVERITY_STOP, "scan_timeout", "Required obstacle scan is unavailable", ZERO);
        events := PublishEvent(SEVERITY_STOP, "scan_timeout", "Required obstacle scan is unavailable");
        return;
      }
      output := Planar(Clamp(selected.linearX, -Abs(cfg.maxReverse), Abs(cfg.maxLinear)),
                       Clamp(selected.angularZ, -Abs(cfg.maxAngular), Abs(cfg.maxAngular)));
      assert output == Limit(cfg, selected);
      if overrideActive {
        assert verdict == Verdict(SEVERITY_WARNING, "manual_obstacle_override",
                                  "Operator accepted responsibility for obstacle avoidance", output);
        events := PublishEvent(SEVERITY_WARNING, "manual_obstacle_override",
                               "Operator accepted responsibility for obstacle avoidance");
        return;
      }
      if output.linearX > 0.0 && scanFresh && minimumRange.Finite? && minimumRange.value < cfg.stopDistance {
        assert verdict == Verdict(SEVERITY_WARNING, "front_obstacle",
                                  "Forward command blocked by obstacle; reverse escape remains available", ZERO);
        events := PublishEvent(SEVERITY_WARNING, "front_obstacle",
                               "Forward command blocked by obstacle; reverse escape remains available");
        output := ZERO;
        return;
      }
      assert verdict == Verdict(SEVERITY_INFO, "", "", output);
      events := PublishEvent(SEVERITY_INFO, "", "");
    }
  }
}
