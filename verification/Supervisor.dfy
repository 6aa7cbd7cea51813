/** The vehicle supervisor, owner of the control mode, and the capture node's mirror of the active safety rule. */
module Supervisor {
  import opened Interfaces

  datatype SupervisorState = SupervisorState(
    mode: nat, controlSource: string, safeToMove: bool, status: string, policy: string,
    policyReady: bool, safetyStop: bool)

  const INITIAL := SupervisorState(MODE_MANUAL, "manual", true, "Phase-0 supervisor ready", "", false, false)

  function ControlSourceFor(mode: nat): (source: string) {
    if mode == MODE_NAV2 then "nav2"
    else if mode == MODE_VLA_SHADOW then "vla_shadow"
    else if mode == MODE_VLA_ASSISTED || mode == MODE_VLA_AUTONOMOUS then "vla"
    else if mode == MODE_MOBILE_TELEOP then "mobile_teleop"
    else if mode == MODE_REMOTE_TELEOP then "remote_teleop"
    else if mode == MODE_SAFE_STOP then "safe_stop"
    else if mode == MODE_FAULT then "fault"
    else "manual"
  }

  /** The published source tells all modes apart, except the two in which the policy drives. */
  lemma SourceTellsMode(a: nat, b: nat)
    requires a <= MODE_FAULT && b <= MODE_FAULT
    ensures ControlSourceFor(a) == ControlSourceFor(b) <==>
            a == b || {a, b} == {MODE_VLA_ASSISTED, MODE_VLA_AUTONOMOUS}
  {
    assert {a, b} == {b, a};
    if a != b && ControlSourceFor(a) == ControlSourceFor(b) {
      assert (a == 3 && b == 4) || (a == 4 && b == 3);
    }
    if {a, b} == {MODE_VLA_ASSISTED, MODE_VLA_AUTONOMOUS} {
      assert a in {a, b} && b in {a, b} && 3 in {a, b} && 4 in {a, b};
    }
  }

  function SetMode(s: SupervisorState, mode: nat, reason: string): (s': SupervisorState) {
    s.(mode := mode, controlSource := ControlSourceFor(mode),
       safeToMove := mode != MODE_SAFE_STOP && mode != MODE_FAULT,
       status := if reason == "" then "Mode changed" else reason)
  }

  function OnSafetyEvent(s: SupervisorState, e: SafetyEvent): (s': SupervisorState) {
    var stop := e.active && e.severity >= SEVERITY_STOP;
    var s' := s.(safetyStop := stop);
    if stop then SetMode(s', MODE_SAFE_STOP, e.reason) else s'
  }

  predicate GrantsMode(s: SupervisorState, mode: nat) {
    mode <= MODE_FAULT &&
    (s.safetyStop ==> mode == MODE_SAFE_STOP || mode == MODE_MANUAL) &&
    (mode == MODE_VLA_ASSISTED || mode == MODE_VLA_AUTONOMOUS ==> s.policyReady)
  }

  function OnModeRequest(s: SupervisorState, mode: nat, reason: string): (s': SupervisorState) {
    if GrantsMode(s, mode) then SetMode(s, mode, reason) else s
  }

  function OnSafeStop(s: SupervisorState, reason: string): (s': SupervisorState) {
    SetMode(s, MODE_SAFE_STOP, if reason == "" then "Safe stop requested" else reason)
  }

  /** The published flags follow the mode, and a safety stop leaves only the two modes it permits. */
  predicate Consistent(s: SupervisorState) {
    && s.mode <= MODE_FAULT
    && s.controlSource == ControlSourceFor(s.mode)
    && s.safeToMove == (s.mode != MODE_SAFE_STOP && s.mode != MODE_FAULT)
    && (s.safetyStop ==> s.mode == MODE_SAFE_STOP || s.mode == MODE_MANUAL)
  }

  lemma RequestKeepsConsistent(s: SupervisorState, mode: nat, reason: string)
    requires Consistent(s)
    ensures Consistent(OnModeRequest(s, mode, reason))
  {
  }

  lemma SafeStopKeepsConsistent(s: SupervisorState, reason: string)
    requires Consistent(s)
    ensures Consistent(OnSafeStop(s, reason))
  {
  }

  lemma EventKeepsConsistent(s: SupervisorState, e: SafetyEvent)
    requires Consistent(s)
    ensures Consistent(OnSafetyEvent(s, e))
  {
  }

  class Node {
    var mode: nat
    var controlSource: string
    var safeToMove: bool
    var status: string
    var policy: string
    var policyReady: bool
    var safetyStop: bool

    function View(): (s: SupervisorState)
      reads this
    {
      SupervisorState(mode, controlSource, safeToMove, status, policy, policyReady, safetyStop)
    }

    constructor ()
      ensures View() == INITIAL && Consistent(View())
    {
      mode, controlSource, safeToMove, status := MODE_MANUAL, "manual", true, "Phase-0 supervisor ready";
      policy, policyReady, safetyStop := "", false, false;
    }

    method PolicyStatusReceived(ready: bool, model: string)
      modifies this`policyReady, this`policy
      ensures View() == old(View()).(policyReady := ready, policy := model)
    {
      policyReady, policy := ready, model;
    }

    method SafetyEventReceived(e: SafetyEvent)
      modifies this
      ensures View() == OnSafetyEvent(old(View()), e)
      ensures old(Consistent(View())) ==> Consistent(View())
    {
      safetyStop := e.active && e.severity >= SEVERITY_STOP;
      if safetyStop {
        SwitchTo(MODE_SAFE_STOP, e.reason);
      }
    }

    method ModeRequested(requested: nat, reason: string) returns (accepted: bool, current: nat)
      modifies this
      ensures accepted == old(GrantsMode(View(), requested)) && current == mode
      ensures View() == OnModeRequest(old(View()), requested, reason)
      ensures old(Consistent(View())) ==> Consistent(View())
    {
      accepted, current := false, mode;
      if requested > MODE_FAULT {
        return;
      }
      if safetyStop && requested != MODE_SAFE_STOP && requested != MODE_MANUAL {
        return;
      }
      var requiresPolicy := requested == MODE_VLA_ASSISTED || requested == MODE_VLA_AUTONOMOUS;
      if requiresPolicy && !policyReady {
        return;
      }
      SwitchTo(requested, reason);
      accepted, current := true, mode;
    }

    method SafeStopRequested(reason: string)
      modifies this
      ensures View() == OnSafeStop(old(View()), reason)
      ensures old(Consistent(View())) ==> Consistent(View())
    {
      SwitchTo(MODE_SAFE_STOP, if reason == "" then "Safe stop requested" else reason);
    }

    method SwitchTo(newMode: nat, reason: string)
      modifies this
      ensures View() == SetMode(old(View()), newMode, reason)
    {
      mode := newMode;
      controlSource := ControlSourceFor(newMode);
      safeToMove := newMode != MODE_SAFE_STOP && newMode != MODE_FAULT;
      status := if reason == "" then "Mode changed" else reason;
    }
  }

  // ----- the capture node's safety-event callback

  function Mirror(rule: string, e: SafetyEvent): (rule': string) {
    if e.active then e.rule else if rule == e.rule then "" else rule
  }

  class ActionCapture {
    var activeRule: string

    constructor ()
      ensures activeRule == ""
    {
      activeRule := "";
    }

    method SafetyEventReceived(e: SafetyEvent)
      modifies this
      ensures activeRule == Mirror(old(activeRule), e)
    {
      if e.active {
        activeRule := e.rule;
      } else if activeRule == e.rule {
        activeRule := "";
      }
    }
  }
}
