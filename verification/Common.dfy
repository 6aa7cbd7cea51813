/** Scalars, time and small helpers shared by every component of the model.
    Clocks are integer nanoseconds; velocities and angles are exact reals. */
module Common {
  datatype Option<+T> = None | Some(value: T)

  /** A floating-point field that the source tests with `isfinite`. */
  datatype Num = NonFinite | Finite(value: real)

  function Abs(x: real): (r: real)
    ensures r >= 0.0 && (r == x || r == -x)
  {
    if x < 0.0 then -x else x
  }

  /** `std::clamp` on finite arguments. */
  function Clamp(x: real, lo: real, hi: real): (r: real)
    requires lo <= hi
    ensures lo <= r <= hi
    ensures lo <= x <= hi ==> r == x
  {
    if x < lo then lo else if hi < x then hi else x
  }

  function ClampInt(x: int, lo: int, hi: int): (r: int)
    requires lo <= hi
    ensures lo <= r <= hi
    ensures lo <= x <= hi ==> r == x
  {
    if x < lo then lo else if hi < x then hi else x
  }

  function Min(x: real, y: real): (r: real)
    ensures r <= x && r <= y && (r == x || r == y)
  {
    if y < x then y else x
  }

  /** A positive stamp at most `timeout` old. Stamps ahead of the clock are fresh, as in the source. */
  predicate Fresh(stamp: int, now: int, timeout: int) {
    stamp > 0 && now - stamp <= timeout
  }

  datatype Twist = Twist(linearX: real, linearY: real, linearZ: real,
                         angularX: real, angularY: real, angularZ: real)

  const ZERO := Twist(0.0, 0.0, 0.0, 0.0, 0.0, 0.0)

  function Planar(linear: real, angular: real): (t: Twist) {
    Twist(linear, 0.0, 0.0, 0.0, 0.0, angular)
  }
}
