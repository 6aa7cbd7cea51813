/** Training data round trip: the capture node encodes velocity commands as action samples, the action runtime
    converts samples back to velocities through the mobility adapter of the same vehicle. */
module ActionReplay {
  import opened Common
  import opened ActionRuntime

  datatype Vehicle = TwistDrive | SteeringAngle | YawRate(wheelbase: real)

  /** Below this speed the capture node records no steering. */
  const SLOW := 0.0001

  /** The two functions of the mathematical library that the nodes use. */
  datatype Trigonometry = Trigonometry(tan: real -> real, atan: real -> real) {
    ghost predicate Valid() {
      tan(0.0) == 0.0 && forall x :: tan(atan(x)) == x
    }
  }

  function InverseAckermann(atan: real -> real, wheelbase: real, speed: real, yawRate: real): (angle: real) {
    if Abs(speed) <= SLOW then 0.0 else atan(wheelbase * yawRate / speed)
  }

  function Steering(trig: Trigonometry, vehicle: Vehicle, command: Twist): (angle: real) {
    if vehicle.YawRate? then InverseAckermann(trig.atan, vehicle.wheelbase, command.linearX, command.angularZ)
    else command.angularZ
  }

  function Encode(trig: Trigonometry, vehicle: Vehicle, observationId: string, command: Twist): (sample: Sample) {
    if vehicle.TwistDrive? then
      Sample(observationId, TWIST_SCHEMA, "", ["linear_x", "angular_z"], ["m/s", "rad/s"],
             [Finite(command.linearX), Finite(command.angularZ)])
    else
      Sample(observationId, "chitu.action.ackermann.v1", "", ["speed_mps", "steering_angle_rad"], ["m/s", "rad"],
             [Finite(command.linearX), Finite(Steering(trig, vehicle, command))])
  }

  function AdapterOf(trig: Trigonometry, vehicle: Vehicle): (adapter: Adapter)
    requires vehicle.YawRate? ==> vehicle.wheelbase > 0.0
  {
    match vehicle
    case TwistDrive => TWIST_ADAPTER
    case SteeringAngle => AckermannAdapter(true, (speed, angle) => NonFinite)
    case YawRate(wheelbase) =>
      AckermannAdapter(false, (speed, angle) => Finite(Turn(trig.tan, wheelbase, speed, angle)))
  }

  /** The yaw rate of a steering angle. */
  function Turn(tan: real -> real, wheelbase: real, speed: real, angle: real): (yawRate: real)
    requires wheelbase > 0.0
  {
    speed * tan(angle) / wheelbase
  }

  lemma Cancels(speed: real, wheelbase: real, yawRate: real)
    requires speed != 0.0 && wheelbase > 0.0
    ensures speed * (wheelbase * yawRate / speed) / wheelbase == yawRate
  {
    var ratio := wheelbase * yawRate / speed;
    assert speed * ratio == wheelbase * yawRate;
  }

  /** Steering recorded and turned back into a yaw rate is what it was, or zero at a crawl. */
  lemma TurnRecovers(trig: Trigonometry, wheelbase: real, speed: real, yawRate: real)
    requires trig.Valid() && wheelbase > 0.0
    ensures Turn(trig.tan, wheelbase, speed, InverseAckermann(trig.atan, wheelbase, speed, yawRate)) ==
            if Abs(speed) <= SLOW then 0.0 else yawRate
  {
    if Abs(speed) > SLOW {
      Cancels(speed, wheelbase, yawRate);
    }
  }

  lemma AckermannSampleConverts(sample: Sample, steeringAngle: bool, yawRate: (real, real) -> Num, speed: real,
                                angle: real)
    requires sample.names == ["speed_mps", "steering_angle_rad"] && sample.values == [Finite(speed), Finite(angle)]
    ensures ConvertAckermann(steeringAngle, yawRate, sample) ==
            var turn := if steeringAngle then Finite(angle) else yawRate(speed, angle);
            if turn.NonFinite? then None else Some(Planar(speed, turn.value))
  {
    var names := sample.names;
    assert names[0] == "speed_mps" != "steering_angle_rad";
    assert IndexOf(names, "steering_angle_rad", 1) == Some(1);
    assert FindFeature(names, ["speed_mps"]) == Some(0);
    assert FindFeature(names, ["steering_angle_rad"]) == Some(1);
  }

  /** What a vehicle can record: no lateral or vertical part and, when it records steering for a yaw rate, no turning
      at a crawl. */
  predicate Recordable(vehicle: Vehicle, command: Twist) {
    command == Planar(command.linearX, command.angularZ) &&
    (vehicle.YawRate? ==> Abs(command.linearX) > SLOW || command.angularZ == 0.0)
  }

  /** Every captured command is playable by the vehicle's own adapter, and plays back as itself if and only if it is
      recordable. */
  lemma CaptureReplays(trig: Trigonometry, vehicle: Vehicle, observationId: string, command: Twist)
    requires trig.Valid() && (vehicle.YawRate? ==> vehicle.wheelbase > 0.0)
    ensures var adapter, sample := AdapterOf(trig, vehicle), Encode(trig, vehicle, observationId, command);
            Playable(adapter, sample) && (adapter.convert(sample) == Some(command) <==> Recordable(vehicle, command))
  {
    var sample := Encode(trig, vehicle, observationId, command);
    var angle := Steering(trig, vehicle, command);
    match vehicle
    case TwistDrive => TwistSampleConverts(sample, command.linearX, command.angularZ);
    case SteeringAngle =>
      AckermannSampleConverts(sample, true, (speed, angle) => NonFinite, command.linearX, angle);
    case YawRate(wheelbase) =>
      TurnRecovers(trig, wheelbase, command.linearX, command.angularZ);
      AckermannSampleConverts(sample, false, (speed, angle) => Finite(Turn(trig.tan, wheelbase, speed, angle)),
                              command.linearX, angle);
  }
}
