/** Message constants and records of the `vehicle_interfaces` package. */
module Interfaces {
  const MODE_MANUAL := 0
  const MODE_NAV2 := 1
  const MODE_VLA_SHADOW := 2
  const MODE_VLA_ASSISTED := 3
  const MODE_VLA_AUTONOMOUS := 4
  const MODE_MOBILE_TELEOP := 5
  const MODE_REMOTE_TELEOP := 6
  const MODE_SAFE_STOP := 7
  const MODE_FAULT := 8

  const SEVERITY_INFO := 0
  const SEVERITY_WARNING := 1
  const SEVERITY_STOP := 2

  datatype SafetyEvent = SafetyEvent(severity: nat, rule: string, reason: string, active: bool)

  /** The lease record the gateway owns and publishes. */
  datatype Lease = Lease(id: string, controller: string, source: string, remote: bool, active: bool,
                         maxLinear: real, maxAngular: real, stamp: int, expiresAt: int)
}
