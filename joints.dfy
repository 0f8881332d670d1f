/**
 * The joint space of the arm: the six actuated joints, their mechanical
 * limits, and the constraint layer that clamps a coordinate record into them.
 *
 * A coordinate record is a Ruby hash keyed by the symbols :elbow, :shoulder,
 * :wrist, :base, :gripper and :wrist_rotate; here it is a map keyed by `Joint`.
 */
module Joints {

  datatype Joint = Elbow | Shoulder | Wrist | Base | Gripper | WristRotate

  /** A coordinate record: joint name to integer degrees (or opening, for the gripper). */
  type Coords = map<Joint, int>

  const MIN_ELBOW := 19
  const MIN_SHOULDER := 50
  const MIN_WRIST := 0
  const MIN_BASE := 40
  const MIN_GRIPPER := 30
  const MIN_WRIST_ROTATE := 0

  const MAX_ELBOW := 90
  const MAX_SHOULDER := 170
  const MAX_WRIST := 180
  const MAX_BASE := 120
  const MAX_GRIPPER := 110
  const MAX_WRIST_ROTATE := 86

  const AllJoints: set<Joint> := {Elbow, Shoulder, Wrist, Base, Gripper, WristRotate}

  /** `AllJoints` lists every joint. */
  lemma AllJointsListed()
    ensures forall j: Joint :: j in AllJoints
  {
    forall j: Joint ensures j in AllJoints {
      match j
      case Elbow =>
      case Shoulder =>
      case Wrist =>
      case Base =>
      case Gripper =>
      case WristRotate =>
    }
  }

  /** The lower mechanical limit of each joint. */
  function MinLimit(j: Joint): int {
    match j
    case Elbow => MIN_ELBOW
    case Shoulder => MIN_SHOULDER
    case Wrist => MIN_WRIST
    case Base => MIN_BASE
    case Gripper => MIN_GRIPPER
    case WristRotate => MIN_WRIST_ROTATE
  }

  /** The upper mechanical limit of each joint. */
  function MaxLimit(j: Joint): int {
    match j
    case Elbow => MAX_ELBOW
    case Shoulder => MAX_SHOULDER
    case Wrist => MAX_WRIST
    case Base => MAX_BASE
    case Gripper => MAX_GRIPPER
    case WristRotate => MAX_WRIST_ROTATE
  }

  /** The record has an entry for every joint. */
  predicate Complete(c: Coords) {
    forall j: Joint :: j in c
  }

  /** A record with the six entries named one by one is complete. */
  lemma CompleteByName(c: Coords)
    requires Elbow in c && Shoulder in c && Wrist in c
    requires Base in c && Gripper in c && WristRotate in c
    ensures Complete(c)
  {
    forall j: Joint ensures j in c {
      match j
      case Elbow =>
      case Shoulder =>
      case Wrist =>
      case Base =>
      case Gripper =>
      case WristRotate =>
    }
  }

  /** A complete record from its six entries, in field order. */
  function Pose(elbow: int, shoulder: int, wrist: int, base: int, gripper: int, wristRotate: int): (c: Coords)
    ensures Complete(c)
    ensures c[Elbow] == elbow && c[Shoulder] == shoulder && c[Wrist] == wrist
    ensures c[Base] == base && c[Gripper] == gripper && c[WristRotate] == wristRotate
  {
    var c := map[Elbow := elbow, Shoulder := shoulder, Wrist := wrist,
                 Base := base, Gripper := gripper, WristRotate := wristRotate];
    CompleteByName(c);
    c
  }

  /** The record has an entry for every joint, each within that joint's limits. */
  predicate WithinLimits(c: Coords) {
    Complete(c) && forall j: Joint :: MinLimit(j) <= c[j] <= MaxLimit(j)
  }

  /**
   * `[[min, value].max, max].min`: clamp `value` into `[lo, hi]`. When the
   * range is empty the upper end wins, as the nested max/min order dictates.
   */
  function Bound(value: int, lo: int, hi: int): (r: int)
    ensures lo <= hi ==> lo <= r <= hi
    ensures lo <= value <= hi ==> r == value
    ensures value < lo && lo <= hi ==> r == lo
    ensures hi < value ==> r == hi
    ensures hi < lo ==> r == hi
  {
    var raised := if lo < value then value else lo;
    if raised < hi then raised else hi
  }

  /** Clamping twice is clamping once. */
  lemma BoundIdempotent(value: int, lo: int, hi: int)
    ensures Bound(Bound(value, lo, hi), lo, hi) == Bound(value, lo, hi)
  {
  }

  /** The record `constrain` builds: every joint clamped into its own limits. */
  function Constrained(c: Coords): (r: Coords)
    requires Complete(c)
    ensures WithinLimits(r)
    ensures r.Keys == AllJoints
    ensures forall j: Joint :: MinLimit(j) <= c[j] <= MaxLimit(j) ==> r[j] == c[j]
  {
    AllJointsListed();
    map j | j in AllJoints :: Bound(c[j], MinLimit(j), MaxLimit(j))
  }

  /**
   * The constraint layer, assigning the six entries of a fresh record one
   * after another. A record missing an entry is refused by the source too:
   * `bound` would compare nil with an integer and raise.
   */
  method Constrain(coords: Coords) returns (constrained: Coords)
    requires Complete(coords)
    ensures constrained == Constrained(coords)
  {
    constrained := map[];
    constrained := constrained[Elbow := Bound(coords[Elbow], MIN_ELBOW, MAX_ELBOW)];
    constrained := constrained[Shoulder := Bound(coords[Shoulder], MIN_SHOULDER, MAX_SHOULDER)];
    constrained := constrained[Wrist := Bound(coords[Wrist], MIN_WRIST, MAX_WRIST)];
    constrained := constrained[Base := Bound(coords[Base], MIN_BASE, MAX_BASE)];
    constrained := constrained[Gripper := Bound(coords[Gripper], MIN_GRIPPER, MAX_GRIPPER)];
    constrained := constrained[WristRotate := Bound(coords[WristRotate], MIN_WRIST_ROTATE, MAX_WRIST_ROTATE)];
  }

  /** A record already within the limits passes through unchanged. */
  lemma ConstrainIdentity(c: Coords)
    requires WithinLimits(c)
    ensures Constrained(c) == c
  {
    assert c.Keys == AllJoints;
  }

  /** Constraining is idempotent. */
  lemma ConstrainIdempotent(c: Coords)
    requires Complete(c)
    ensures Constrained(Constrained(c)) == Constrained(c)
  {
    ConstrainIdentity(Constrained(c));
  }

  /**
   * Each output entry depends on the same-named input entry only: two records
   * that agree on joint `j` are constrained to records that agree on `j`,
   * whatever their other entries hold.
   */
  lemma ConstrainFieldwise(c: Coords, d: Coords, j: Joint)
    requires Complete(c) && Complete(d)
    requires c[j] == d[j]
    ensures Constrained(c)[j] == Constrained(d)[j]
    ensures Constrained(c)[j] == Bound(c[j], MinLimit(j), MaxLimit(j))
  {
  }
}
