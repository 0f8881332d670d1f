/**
 * The pose solver: from a target (base rotation, height, distance, gripper
 * opening, wrist rotation and wrist angle) to a constrained coordinate record,
 * or nothing when the target lies outside the arm's reach.
 *
 * The floating-point primitives the solver calls are parameters of the model,
 * gathered in a `Geometry` value together with the link lengths M and N; only
 * what the decisions need is assumed of them (`Valid`).
 */
module Solver {
  import opened Options
  import opened Joints
  import Codec

  /** The gripper's length beyond the wrist pivot, in cm. */
  const GRIPPER_LENGTH: real := 1.1

  /** The wrist angle used when the caller gives none. */
  const DEFAULT_WRIST := 90

  /** The empirical calibration added to the computed shoulder angle, in degrees. */
  const SHOULDER_CORRECTION: real := 20.0

  /** The empirical calibration taken from the computed elbow angle, in degrees. */
  const ELBOW_CORRECTION: real := 5.0

  /**
   * The arm's link lengths and its floating-point primitives:
   * - `m`, `n`: the upper-arm and forearm lengths M and N;
   * - `sqrt`: `Math.sqrt`;
   * - `halfAngle(s, k, l)`: `compute_angle(s, k, l).degrees`;
   * - `asinOfRatio(a, b)`: `Math.asin(a / b.to_f).degrees`;
   * - `cosOfDegrees(t)`: `Math.cos(t.radians)`.
   */
  datatype Geometry = Geometry(
    m: real,
    n: real,
    sqrt: real -> real,
    halfAngle: (real, real, real) -> real,
    asinOfRatio: (real, real) -> real,
    cosOfDegrees: real -> real)

  /** Positive link lengths, `sqrt` the non-negative square root, cosine within [-1, 1]. */
  ghost predicate Valid(g: Geometry) {
    0.0 < g.m && 0.0 < g.n
    && (forall v :: 0.0 <= v ==> 0.0 <= g.sqrt(v) && g.sqrt(v) * g.sqrt(v) == v)
    && (forall t :: -1.0 <= g.cosOfDegrees(t) <= 1.0)
  }

  function Abs(v: real): (r: real)
    ensures 0.0 <= r && (r == v || r == -v)
  {
    if v < 0.0 then -v else v
  }

  /** `Math.sqrt((distance ** 2) + (height ** 2))`: the straight-line distance from the shoulder. */
  function Hypot(g: Geometry, distance: real, height: real): real {
    g.sqrt(distance * distance + height * height)
  }

  /** The point at `distance` and `height` from the shoulder is strictly nearer than M + N. */
  predicate Reachable(g: Geometry, distance: real, height: real) {
    distance * distance + height * height < (g.m + g.n) * (g.m + g.n)
  }

  lemma PositiveProduct(p: real, q: real)
    requires 0.0 < p && 0.0 < q
    ensures 0.0 < p * q
  {
  }

  /** Comparing a non-negative root with a positive bound is comparing the squares. */
  lemma RootComparison(x: real, v: real, b: real)
    requires 0.0 <= x && x * x == v && 0.0 < b
    ensures x >= b <==> v >= b * b
  {
    if x >= b {
      assert x * x >= b * x by { assert x * (x - b) >= 0.0; }
      assert b * x >= b * b by { assert b * (x - b) >= 0.0; }
    } else {
      PositiveProduct(b - x, b + x);
      assert b * b - x * x == (b - x) * (b + x);
    }
  }

  /** The source's test `Math.sqrt(distance ** 2 + height ** 2) >= M + N` is unreachability. */
  lemma UnreachableOnSquares(g: Geometry, distance: real, height: real)
    requires Valid(g)
    ensures Hypot(g, distance, height) >= g.m + g.n <==> !Reachable(g, distance, height)
  {
    var v := distance * distance + height * height;
    assert 0.0 <= distance * distance && 0.0 <= height * height;
    RootComparison(g.sqrt(v), v, g.m + g.n);
  }

  /** The angle `tau` between the gripper and the vertical at the wrist, in degrees. */
  function Tau(g: Geometry, distance: real, height: real, wrist: int): real {
    var x := Hypot(g, distance, height);
    var s := 0.5 * (g.m + g.n + x);
    var gamma := g.halfAngle(s, x, g.n);
    var epsilon := g.asinOfRatio(distance, x);
    var alpha := 360.0 - (wrist as real + 90.0);
    alpha - gamma - epsilon
  }

  /**
   * The height correction for the gripper's length, by the override policy:
   * the full length when `tau` is at most 0, nothing beyond a right angle,
   * and the length projected by `cos(tau)` in between; nothing when unreachable.
   */
  function Adjustment(g: Geometry, distance: real, height: real, wrist: int): Option<real> {
    if !Reachable(g, distance, height) then None
    else
      var tau := Tau(g, distance, height, wrist);
      if tau <= 0.0 then Some(GRIPPER_LENGTH)
      else if tau > 90.0 then Some(0.0)
      else Some(Abs(g.cosOfDegrees(tau) * GRIPPER_LENGTH))
  }

  /** Whenever there is an adjustment it lies in [0, GRIPPER_LENGTH]. */
  lemma AdjustmentRange(g: Geometry, distance: real, height: real, wrist: int)
    requires Valid(g)
    ensures Adjustment(g, distance, height, wrist).None? <==> !Reachable(g, distance, height)
    ensures Adjustment(g, distance, height, wrist).Some? ==>
              0.0 <= Adjustment(g, distance, height, wrist).value <= GRIPPER_LENGTH
  {
    if Reachable(g, distance, height) {
      var tau := Tau(g, distance, height, wrist);
      var c := g.cosOfDegrees(tau);
      if 0.0 < tau <= 90.0 {
        assert -1.0 <= c <= 1.0;
        assert Abs(c * GRIPPER_LENGTH) <= GRIPPER_LENGTH by {
          if c < 0.0 {
            assert -(c * GRIPPER_LENGTH) == (-c) * GRIPPER_LENGTH;
          }
        }
      }
    }
  }

  /**
   * `gripper_adjustment`: nothing when the target is out of reach; otherwise
   * the projected length, overridden first for `tau > 90` and then for `tau <= 0`.
   */
  method GripperAdjustment(g: Geometry, distance: real, height: real, wrist: int) returns (adjustment: Option<real>)
    requires Valid(g)
    ensures adjustment.None? <==> Hypot(g, distance, height) >= g.m + g.n
    ensures adjustment.Some? ==>
              var tau := Tau(g, distance, height, wrist);
              && (tau <= 0.0 ==> adjustment.value == GRIPPER_LENGTH)
              && (tau > 90.0 ==> adjustment.value == 0.0)
              && (0.0 < tau <= 90.0 ==> adjustment.value == Abs(g.cosOfDegrees(tau) * GRIPPER_LENGTH))
    ensures adjustment.Some? ==> 0.0 <= adjustment.value <= GRIPPER_LENGTH
    ensures adjustment == Adjustment(g, distance, height, wrist)
  {
    AdjustmentRange(g, distance, height, wrist);
    UnreachableOnSquares(g, distance, height);
    var x := Hypot(g, distance, height);
    if x >= g.m + g.n {
      return None;
    }
    var s := 0.5 * (g.m + g.n + x);
    var gamma := g.halfAngle(s, x, g.n);
    var epsilon := g.asinOfRatio(distance, x);
    var alpha := 360.0 - (wrist as real + 90.0);
    var tau := alpha - gamma - epsilon;
    var a := g.cosOfDegrees(tau) * GRIPPER_LENGTH;
    a := if tau > 90.0 then 0.0 else Abs(a);
    a := if tau <= 0.0 then GRIPPER_LENGTH else Abs(a);
    adjustment := Some(a);
  }

  /**
   * The integer a computed angle becomes when it is interpolated into text and
   * read back with `to_i`: its integer part, rounded toward zero.
   */
  function Truncate(v: real): (i: int)
    ensures 0.0 <= v ==> i as real <= v < i as real + 1.0
    ensures v < 0.0 ==> i as real - 1.0 < v <= i as real
  {
    if 0.0 <= v then v.Floor else -((-v).Floor)
  }

  /** The calibrated elbow angle for a target at straight-line distance `x` from the shoulder. */
  function ElbowAngle(g: Geometry, x: real): real {
    var s := 0.5 * (g.m + g.n + x);
    g.halfAngle(s, g.m, g.n) - ELBOW_CORRECTION
  }

  /** The calibrated shoulder angle for a target at straight-line distance `x` and height `h`. */
  function ShoulderAngle(g: Geometry, x: real, h: real): real {
    var s := 0.5 * (g.m + g.n + x);
    g.halfAngle(s, g.m, x) + g.asinOfRatio(h, x) + SHOULDER_CORRECTION
  }

  function WristOrDefault(wrist: Option<int>): int {
    if wrist.Some? then wrist.value else DEFAULT_WRIST
  }

  /**
   * The last step of `position_to_coords`: write the six joint values as text,
   * parse the text back and constrain the parsed record. Every entry comes
   * out as its input clamped into that joint's limits.
   */
  method Assemble(elbow: int, shoulder: int, wrist: int, rotation: int, gripper: int, wristRotate: int)
    returns (coords: Coords)
    ensures WithinLimits(coords)
    ensures coords[Elbow] == Bound(elbow, MIN_ELBOW, MAX_ELBOW)
    ensures coords[Shoulder] == Bound(shoulder, MIN_SHOULDER, MAX_SHOULDER)
    ensures coords[Wrist] == Bound(wrist, MIN_WRIST, MAX_WRIST)
    ensures coords[Base] == Bound(rotation, MIN_BASE, MAX_BASE)
    ensures coords[Gripper] == Bound(gripper, MIN_GRIPPER, MAX_GRIPPER)
    ensures coords[WristRotate] == Bound(wristRotate, MIN_WRIST_ROTATE, MAX_WRIST_ROTATE)
  {
    var raw := Pose(elbow, shoulder, wrist, rotation, gripper, wristRotate);
    var input := Codec.Format(raw);
    var parsed := Codec.CoordsParse(input);
    Codec.ParseFormatComplete(raw);
    coords := Constrain(parsed);
  }

  /**
   * `position_to_coords`: nothing when the target, before or after the gripper
   * correction, is out of reach; otherwise a record within the joint limits
   * whose wrist, base, gripper and wrist rotation are the inputs clamped and
   * whose elbow and shoulder are the calibrated angles truncated and clamped.
   */
  method PositionToCoords(g: Geometry, rotation: int, height: real, distance: real,
                          gripper: int, wristRotate: int, wrist: Option<int>)
    returns (coords: Option<Coords>)
    requires Valid(g)
    ensures var w := WristOrDefault(wrist);
            var adjustment := Adjustment(g, distance, height, w);
            coords.None? <==> adjustment.None? || !Reachable(g, distance, height + adjustment.value)
    ensures coords.Some? ==> WithinLimits(coords.value)
    ensures coords.Some? ==>
              && coords.value[Wrist] == Bound(WristOrDefault(wrist), MIN_WRIST, MAX_WRIST)
              && coords.value[Base] == Bound(rotation, MIN_BASE, MAX_BASE)
              && coords.value[Gripper] == Bound(gripper, MIN_GRIPPER, MAX_GRIPPER)
              && coords.value[WristRotate] == Bound(wristRotate, MIN_WRIST_ROTATE, MAX_WRIST_ROTATE)
    ensures coords.Some? ==>
              var h := height + Adjustment(g, distance, height, WristOrDefault(wrist)).value;
              var x := Hypot(g, distance, h);
              && coords.value[Elbow] == Bound(Truncate(ElbowAngle(g, x)), MIN_ELBOW, MAX_ELBOW)
              && coords.value[Shoulder] == Bound(Truncate(ShoulderAngle(g, x, h)), MIN_SHOULDER, MAX_SHOULDER)
  {
    var w := WristOrDefault(wrist);
    var adjustment := GripperAdjustment(g, distance, height, w);
    var h := height;
    if adjustment.Some? {
      h := h + adjustment.value;
    }
    var x := Hypot(g, distance, h);
    UnreachableOnSquares(g, distance, h);
    if x >= g.m + g.n || adjustment.None? {
      return None;
    }

    var s := 0.5 * (g.m + g.n + x);
    var elbow := g.halfAngle(s, g.m, g.n);
    var smallShoulder := g.halfAngle(s, g.m, x);
    var bigShoulder := g.asinOfRatio(h, x);
    var shoulder := smallShoulder + bigShoulder;

    // calibration correction
    shoulder := shoulder + SHOULDER_CORRECTION;
    elbow := elbow - ELBOW_CORRECTION;

    var assembled := Assemble(Truncate(elbow), Truncate(shoulder), w, rotation, gripper, wristRotate);
    coords := Some(assembled);
  }

  /**
   * With M = N = 10, a target 5 out and 5 up stays reachable after the gripper
   * correction, whatever the wrist angle: the correction adds at most 1.1.
   */
  lemma NearTargetReachable(g: Geometry, wrist: int)
    requires Valid(g) && g.m == 10.0 && g.n == 10.0
    ensures Adjustment(g, 5.0, 5.0, wrist).Some?
    ensures Reachable(g, 5.0, 5.0 + Adjustment(g, 5.0, 5.0, wrist).value)
  {
    AdjustmentRange(g, 5.0, 5.0, wrist);
    var h := 5.0 + Adjustment(g, 5.0, 5.0, wrist).value;
    assert 5.0 <= h <= 6.1;
    assert h * h <= 6.1 * 6.1 by {
      assert h * h <= 6.1 * h;
      assert 6.1 * h <= 6.1 * 6.1;
    }
  }
}
