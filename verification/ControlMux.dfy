/** The control multiplexer: selects at most one velocity source by mode, lease and freshness. */
module ControlMux {
  import opened Common
  import opened Interfaces

  datatype MuxState = MuxState(
    mode: nat, leaseActive: bool, leaseRemote: bool,
    navCommand: Twist, navStamp: int, vlaCommand: Twist, vlaStamp: int, mobileCommand: Twist, mobileStamp: int)

  const INITIAL := MuxState(MODE_MANUAL, false, false, ZERO, 0, ZERO, 0, ZERO, 0)

  datatype Source = Nobody | Nav | Vla | Teleop

  function OnLease(s: MuxState, active: bool, remote: bool): (s': MuxState) {
    var s' := s.(leaseActive := active, leaseRemote := remote);
    if active then s' else s'.(mobileCommand := ZERO, mobileStamp := 0)
  }

  /** The source that the mode and the lease license, before freshness. */
  function Licensed(s: MuxState): (source: Source) {
    if s.mode == MODE_NAV2 then Nav
    else if s.mode == MODE_VLA_ASSISTED || s.mode == MODE_VLA_AUTONOMOUS then Vla
    else if s.leaseActive && ((s.mode == MODE_MOBILE_TELEOP && !s.leaseRemote) ||
                              (s.mode == MODE_REMOTE_TELEOP && s.leaseRemote)) then Teleop
    else Nobody
  }

  function CommandOf(s: MuxState, source: Source): (t: Twist) {
    match source
    case Nobody => ZERO
    case Nav => s.navCommand
    case Vla => s.vlaCommand
    case Teleop => s.mobileCommand
  }

  function StampOf(s: MuxState, source: Source): (stamp: int) {
    match source
    case Nobody => 0
    case Nav => s.navStamp
    case Vla => s.vlaStamp
    case Teleop => s.mobileStamp
  }

  function Selected(s: MuxState, now: int, timeout: int): (source: Source) {
    if Fresh(StampOf(s, Licensed(s)), now, timeout) then Licensed(s) else Nobody
  }

  class Mux {
    const timeout: int
    var mode: nat
    var leaseActive: bool
    var leaseRemote: bool
    var navCommand: Twist
    var navStamp: int
    var vlaCommand: Twist
    var vlaStamp: int
    var mobileCommand: Twist
    var mobileStamp: int

    function View(): (s: MuxState)
      reads this
    {
      MuxState(mode, leaseActive, leaseRemote, navCommand, navStamp, vlaCommand, vlaStamp,
               mobileCommand, mobileStamp)
    }

    constructor (timeout: int)
      ensures this.timeout == timeout && View() == INITIAL
    {
      this.timeout := timeout;
      mode, leaseActive, leaseRemote := MODE_MANUAL, false, false;
      navCommand, vlaCommand, mobileCommand := ZERO, ZERO, ZERO;
      navStamp, vlaStamp, mobileStamp := 0, 0, 0;
    }

    method StateReceived(newMode: nat)
      modifies this`mode
      ensures View() == old(View()).(mode := newMode)
    {
      mode := newMode;
    }

    method LeaseReceived(active: bool, remote: bool)
      modifies this
      ensures View() == OnLease(old(View()), active, remote)
    {
      leaseActive := active;
      leaseRemote := remote;
      if !active {
        mobileCommand := ZERO;
        mobileStamp := 0;
      }
    }

    method NavReceived(now: int, twist: Twist)
      modifies this`navCommand, this`navStamp
      ensures View() == old(View()).(navCommand := twist, navStamp := now)
    {
      navCommand, navStamp := twist, now;
    }

    method VlaReceived(twist: Twist, stamp: int)
      modifies this`vlaCommand, this`vlaStamp
      ensures View() == old(View()).(vlaCommand := twist, vlaStamp := stamp)
    {
      vlaCommand, vlaStamp := twist, stamp;
    }

    method MobileReceived(twist: Twist, stamp: int)
      modifies this`mobileCommand, this`mobileStamp
      ensures View() == old(View()).(mobileCommand := twist, mobileStamp := stamp)
    {
      mobileCommand, mobileStamp := twist, stamp;
    }

    method PublishSelected(now: int) returns (twist: Twist)
      ensures twist == CommandOf(View(), Selected(View(), now, timeout))
    {
      twist := ZERO;
      if mode == MODE_NAV2 && Fresh(navStamp, now, timeout) {
        twist := navCommand;
      } else if (mode == MODE_VLA_ASSISTED || mode == MODE_VLA_AUTONOMOUS) && Fresh(vlaStamp, now, timeout) {
        twist := vlaCommand;
      } else if leaseActive && ((mode == MODE_MOBILE_TELEOP && !leaseRemote) ||
                                (mode == MODE_REMOTE_TELEOP && leaseRemote)) && Fresh(mobileStamp, now, timeout)
      {
        twist := mobileCommand;
      }
    }
  }
}
