/** The teleop gateway: control leases, deadman commands and their deadlines.
    Every function is one critical section of the node's mutex. */
module TeleopGateway {
  import opened Common
  import opened Interfaces

  const MINIMUM_VALIDITY := 10_000_000

  datatype GatewayConfig = GatewayConfig(
    minimumLease: int, maximumLease: int, commandTimeout: int, maximumLinear: real, maximumAngular: real)
  {
    /** The constructor's checks; the lower bound on the command timeout is what `std::clamp` needs. */
    predicate Valid() {
      0 < minimumLease <= maximumLease && MINIMUM_VALIDITY <= commandTimeout &&
      0.0 < maximumLinear && 0.0 < maximumAngular
    }
  }

  datatype Goal = Goal(controller: string, source: string, remote: bool, duration: int,
                       maxLinear: Num, maxAngular: Num)

  datatype TeleopCommand = TeleopCommand(leaseId: string, controller: string, sequence: nat, validFor: int,
                                         deadman: bool, override: bool, linear: real, angular: real)

  /** A deadline of zero is the source's "no deadline" default time point. */
  datatype GatewayState = GatewayState(
    lease: Lease, leaseDeadline: int, commandDeadline: int, lastSequence: nat,
    linear: real, angular: real, deadman: bool, override: bool, pending: string, counter: nat)

  const NO_LEASE := Lease("", "", "", false, false, 0.0, 0.0, 0, 0)
  const INITIAL := GatewayState(NO_LEASE, 0, 0, 0, 0.0, 0.0, false, false, "", 0)

  // ----- lease identifiers

  function HexDigit(d: nat): (c: char)
    requires d < 16
  {
    "0123456789abcdef"[d]
  }

  function Hex(n: nat): (s: string)
    ensures |s| > 0 && '-' !in s
  {
    if n < 16 then [HexDigit(n)] else Hex(n / 16) + [HexDigit(n % 16)]
  }

  function MakeLeaseId(now: nat, count: nat): (id: string) {
    "teleop-" + Hex(now) + "-" + Hex(count)
  }

  lemma HexDigitInjective(c: nat, d: nat)
    requires c < 16 && d < 16 && HexDigit(c) == HexDigit(d)
    ensures c == d
  {
  }

  lemma {:induction false} HexInjective(m: nat, n: nat)
    requires Hex(m) == Hex(n)
    ensures m == n
  {
    var s, t := Hex(m), Hex(n);
    if m >= 16 && n >= 16 {
      assert s == Hex(m / 16) + [HexDigit(m % 16)] && t == Hex(n / 16) + [HexDigit(n % 16)];
      assert Hex(m / 16) == s[..|s| - 1] == t[..|t| - 1] == Hex(n / 16);
      assert HexDigit(m % 16) == s[|s| - 1] == t[|t| - 1] == HexDigit(n % 16);
      HexDigitInjective(m % 16, n % 16);
      HexInjective(m / 16, n / 16);
    }
  }

  /** The text after the last dash is determined by the whole. */
  lemma DashSuffix(a: string, h: string, b: string, k: string)
    requires '-' !in h && '-' !in k && a + "-" + h == b + "-" + k
    ensures h == k
  {
    var s := a + "-" + h;
    assert s == b + "-" + k;
    assert s[|a|] == '-' && s[|b|] == '-';
    assert h == s[|a| + 1..] && k == s[|b| + 1..];
    if |a| != |b| {
      assert false;
    }
  }

  /** Two leases with different counters never share an identifier, whatever their stamps. */
  lemma LeaseIdsDistinct(now: nat, count: nat, now': nat, count': nat)
    requires MakeLeaseId(now, count) == MakeLeaseId(now', count')
    ensures count == count'
  {
    DashSuffix("teleop-" + Hex(now), Hex(count), "teleop-" + Hex(now'), Hex(count'));
    HexInjective(count, count');
  }

  // ----- critical sections

  predicate Expired(s: GatewayState, now: int) {
    s.leaseDeadline == 0 || now >= s.leaseDeadline
  }

  /** A lease that still entitles its holder to drive. */
  predicate Live(s: GatewayState, now: int) {
    s.lease.active && !Expired(s, now)
  }

  predicate Acceptable(cfg: GatewayConfig, goal: Goal) {
    goal.controller != "" && goal.source != "" &&
    cfg.minimumLease <= goal.duration <= cfg.maximumLease &&
    goal.maxLinear.Finite? && goal.maxAngular.Finite? &&
    goal.maxLinear.value > 0.0 && goal.maxAngular.value > 0.0
  }

  predicate Admits(cfg: GatewayConfig, s: GatewayState, now: int, goal: Goal) {
    Acceptable(cfg, goal) &&
    !(Live(s, now) && s.lease.controller != goal.controller) &&
    !(s.pending != "" && s.pending != goal.controller)
  }

  function Admit(s: GatewayState, goal: Goal): (s': GatewayState) {
    s.(pending := goal.controller)
  }

  predicate Renews(s: GatewayState, now: int, goal: Goal) {
    Live(s, now) && s.lease.controller == goal.controller
  }

  /** The granting section of `execute`: renew the holder's lease or issue a fresh one. */
  function Grant(cfg: GatewayConfig, s: GatewayState, now: nat, goal: Goal): (s': GatewayState)
    requires cfg.Valid() && Acceptable(cfg, goal)
  {
    var duration := ClampInt(goal.duration, cfg.minimumLease, cfg.maximumLease);
    var renewal := Renews(s, now, goal);
    var counter := if renewal then s.counter else s.counter + 1;
    var id := if renewal then s.lease.id else MakeLeaseId(now, counter);
    GatewayState(
      Lease(id, goal.controller, goal.source, goal.remote, true,
            Min(goal.maxLinear.value, cfg.maximumLinear), Min(goal.maxAngular.value, cfg.maximumAngular),
            now, now + duration),
      now + duration, 0, if renewal then s.lastSequence else 0, 0.0, 0.0, false, false, "", counter)
  }

  predicate AcceptsCommand(s: GatewayState, now: int, m: TeleopCommand) {
    Live(s, now) && m.leaseId == s.lease.id && m.controller == s.lease.controller &&
    m.sequence > s.lastSequence
  }

  function OnCommand(cfg: GatewayConfig, s: GatewayState, now: nat, m: TeleopCommand): (s': GatewayState)
    requires cfg.Valid()
  {
    if !AcceptsCommand(s, now, m) then s else
    s.(lastSequence := m.sequence, deadman := m.deadman, override := m.deadman && m.override,
       linear := Clamp(m.linear, -1.0, 1.0), angular := Clamp(m.angular, -1.0, 1.0),
       commandDeadline := now + ClampInt(m.validFor, MINIMUM_VALIDITY, cfg.commandTimeout))
  }

  predicate CommandValid(s: GatewayState, now: int) {
    Live(s, now) && s.deadman && s.commandDeadline != 0 && now <= s.commandDeadline
  }

  function TimerTwist(s: GatewayState, now: int): (t: Twist) {
    if CommandValid(s, now) then Planar(s.linear * s.lease.maxLinear, s.angular * s.lease.maxAngular) else ZERO
  }

  predicate TimerOverride(s: GatewayState, now: int) {
    CommandValid(s, now) && s.override
  }

  /** The test of `on_release`: the request names the active lease and its holder. */
  predicate Releases(s: GatewayState, leaseId: string, controller: string) {
    s.lease.active && leaseId == s.lease.id && controller == s.lease.controller
  }

  function Revoke(s: GatewayState, now: int): (s': GatewayState) {
    if !s.lease.active then s else
    s.(lease := s.lease.(active := false, stamp := now, expiresAt := now), deadman := false, override := false,
       linear := 0.0, angular := 0.0, commandDeadline := 0)
  }

  // ----- the node

  class Gateway {
    const cfg: GatewayConfig
    var lease: Lease
    var leaseDeadline: int
    var commandDeadline: int
    var lastSequence: nat
    var linear: real
    var angular: real
    var deadman: bool
    var override: bool
    var pending: string
    var counter: nat

    function View(): (s: GatewayState)
      reads this
    {
      GatewayState(lease, leaseDeadline, commandDeadline, lastSequence, linear, angular, deadman, override,
                   pending, counter)
    }

    constructor (cfg: GatewayConfig)
      ensures this.cfg == cfg && View() == INITIAL
    {
      this.cfg := cfg;
      lease, leaseDeadline, commandDeadline, lastSequence := NO_LEASE, 0, 0, 0;
      linear, angular, deadman, override := 0.0, 0.0, false, false;
      pending, counter := "", 0;
    }

    method HandleGoal(now: nat, goal: Goal) returns (accepted: bool)
      modifies this`pending
      ensures accepted == old(Admits(cfg, View(), now, goal))
      ensures View() == if accepted then Admit(old(View()), goal) else old(View())
    {
      if goal.controller == "" || goal.source == "" ||
         goal.duration < cfg.minimumLease || goal.duration > cfg.maximumLease ||
         goal.maxLinear.NonFinite? || goal.maxAngular.NonFinite? ||
         goal.maxLinear.value <= 0.0 || goal.maxAngular.value <= 0.0
      {
        return false;
      }
      if (lease.active && !LeaseExpired(now) && lease.controller != goal.controller) ||
         (pending != "" && pending != goal.controller)
      {
        return false;
      }
      pending := goal.controller;
      return true;
    }

    /** The locked section of `execute`. */
    method Execute(now: nat, goal: Goal)
      requires cfg.Valid() && Acceptable(cfg, goal)
      modifies this
      ensures View() == Grant(cfg, old(View()), now, goal)
    {
      var requested := ClampInt(goal.duration, cfg.minimumLease, cfg.maximumLease);
      var renewal := lease.active && !LeaseExpired(now) && lease.controller == goal.controller;
      assert renewal == Renews(View(), now, goal);
      ghost var granted := Grant(cfg, View(), now, goal);
      var id := lease.id;
      if !renewal {
        counter, lastSequence := counter + 1, 0;
        id := MakeLeaseId(now, counter);
      }
      assert granted.counter == counter && granted.lastSequence == lastSequence && granted.lease.id == id;
      leaseDeadline, commandDeadline, pending := now + requested, 0, "";
      lease := Lease(id, goal.controller, goal.source, goal.remote, true,
                     Min(goal.maxLinear.value, cfg.maximumLinear),
                     Min(goal.maxAngular.value, cfg.maximumAngular), now, now + requested);
      deadman, override, linear, angular := false, false, 0.0, 0.0;
    }

    method Command(now: nat, m: TeleopCommand)
      requires cfg.Valid()
      modifies this
      ensures View() == OnCommand(cfg, old(View()), now, m)
    {
      if !lease.active || LeaseExpired(now) || m.leaseId != lease.id ||
         m.controller != lease.controller || m.sequence <= lastSequence
      {
        return;
      }
      var validFor := ClampInt(m.validFor, MINIMUM_VALIDITY, cfg.commandTimeout);
      lastSequence := m.sequence;
      deadman := m.deadman;
      override := m.deadman && m.override;
      linear := Clamp(m.linear, -1.0, 1.0);
      angular := Clamp(m.angular, -1.0, 1.0);
      commandDeadline := now + validFor;
    }

    /** `on_release` with nothing between its two sections: a matching request leaves no lease under which a command
        could be accepted, any other request leaves the state as it was. */
    method Release(now: nat, leaseId: string, controller: string) returns (released: bool)
      modifies this
      ensures released == old(Releases(View(), leaseId, controller))
      ensures View() == if released then Revoke(old(View()), now) else old(View())
      ensures released ==> forall t, m :: !AcceptsCommand(View(), t, m)
      ensures released ==> forall t :: TimerTwist(View(), t) == ZERO
    {
      if !lease.active || leaseId != lease.id || controller != lease.controller {
        return false;
      }
      RevokeLease(now);
      assert !View().lease.active;
      released := true;
    }

    /** The locked section of `on_timer`; a lease found expired is then revoked by the caller. */
    method Timer(now: nat) returns (publish: bool, twist: Twist, obstacleOverride: bool, expired: bool)
      ensures publish == lease.active && expired == (lease.active && Expired(View(), now))
      ensures twist == TimerTwist(View(), now) && obstacleOverride == TimerOverride(View(), now)
    {
      twist, obstacleOverride := ZERO, false;
      publish := lease.active;
      expired := lease.active && LeaseExpired(now);
      var valid := lease.active && !expired && deadman && commandDeadline != 0 && now <= commandDeadline;
      if valid {
        twist := Planar(linear * lease.maxLinear, angular * lease.maxAngular);
        obstacleOverride := override;
      }
    }

    method RevokeLease(now: nat)
      modifies this
      ensures View() == Revoke(old(View()), now)
    {
      if !lease.active {
        return;
      }
      lease := lease.(active := false, stamp := now, expiresAt := now);
      deadman, override, linear, angular, commandDeadline := false, false, 0.0, 0.0, 0;
    }

    predicate LeaseExpired(now: nat)
      reads this
    {
      leaseDeadline == 0 || now >= leaseDeadline
    }
  }
}
