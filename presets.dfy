/**
 * The preset table: seven named poses the arm can be sent to, stored in the
 * object's `presets` field by `define_presents`.
 */
module Presets {
  import opened Joints
  import Codec

  datatype PresetName = Default | Low | High | Park | Ninety | Max | Min

  /** A pose whose six entries lie within their joints' limits is within the limits. */
  lemma PoseWithinLimits(elbow: int, shoulder: int, wrist: int, base: int, gripper: int, wristRotate: int)
    requires MIN_ELBOW <= elbow <= MAX_ELBOW && MIN_SHOULDER <= shoulder <= MAX_SHOULDER
    requires MIN_WRIST <= wrist <= MAX_WRIST && MIN_BASE <= base <= MAX_BASE
    requires MIN_GRIPPER <= gripper <= MAX_GRIPPER && MIN_WRIST_ROTATE <= wristRotate <= MAX_WRIST_ROTATE
    ensures WithinLimits(Pose(elbow, shoulder, wrist, base, gripper, wristRotate))
  {
    var c := Pose(elbow, shoulder, wrist, base, gripper, wristRotate);
    forall j: Joint ensures MinLimit(j) <= c[j] <= MaxLimit(j) {
      match j
      case Elbow =>
      case Shoulder =>
      case Wrist =>
      case Base =>
      case Gripper =>
      case WristRotate =>
    }
  }

  /** The pose whose every entry is that joint's lower limit. */
  function MinPose(): (c: Coords)
    ensures Complete(c) && forall j: Joint :: c[j] == MinLimit(j)
  {
    Pose(MIN_ELBOW, MIN_SHOULDER, MIN_WRIST, MIN_BASE, MIN_GRIPPER, MIN_WRIST_ROTATE)
  }

  /** The pose whose every entry is that joint's upper limit. */
  function MaxPose(): (c: Coords)
    ensures Complete(c) && forall j: Joint :: c[j] == MaxLimit(j)
  {
    Pose(MAX_ELBOW, MAX_SHOULDER, MAX_WRIST, MAX_BASE, MAX_GRIPPER, MAX_WRIST_ROTATE)
  }

  /** The seven preset names are distinct. */
  lemma SevenNames()
    ensures |{Default, Low, High, Park, Ninety, Max, Min}| == 7
  {
    var names := {Default};
    names := names + {Low};
    assert |names| == 2;
    names := names + {High};
    assert |names| == 3;
    names := names + {Park};
    assert |names| == 4;
    names := names + {Ninety};
    assert |names| == 5;
    names := names + {Max};
    assert |names| == 6;
    names := names + {Min};
    assert |names| == 7;
    assert names == {Default, Low, High, Park, Ninety, Max, Min};
  }

  /**
   * The table `define_presents` leaves behind: exactly seven names, with
   * `min` and `max` the joint limits themselves.
   */
  function PresetTable(): (table: map<PresetName, Coords>)
    ensures table.Keys == {Default, Low, High, Park, Ninety, Max, Min}
    ensures |table| == 7
    ensures table[Min] == MinPose() && table[Max] == MaxPose()
  {
    var table := map[Default := Pose(50, 140, 90, 70, 40, 86),
                     Low := Pose(60, 110, 120, 50, 30, 86),
                     High := Pose(40, 130, 30, 90, 90, 0),
                     Park := Pose(19, 170, 80, 75, 40, 86),
                     Ninety := Pose(85, 110, 90, 70, 40, 86),
                     Max := MaxPose(),
                     Min := MinPose()];
    assert table.Keys == {Default, Low, High, Park, Ninety, Max, Min};
    SevenNames();
    table
  }

  /** Every preset lies within the joint limits. */
  lemma PresetsWithinLimits(name: PresetName)
    ensures WithinLimits(PresetTable()[name])
  {
    match name
    case Default => PoseWithinLimits(50, 140, 90, 70, 40, 86);
    case Low => PoseWithinLimits(60, 110, 120, 50, 30, 86);
    case High => PoseWithinLimits(40, 130, 30, 90, 90, 0);
    case Park => PoseWithinLimits(19, 170, 80, 75, 40, 86);
    case Ninety => PoseWithinLimits(85, 110, 90, 70, 40, 86);
    case Max => PoseWithinLimits(MAX_ELBOW, MAX_SHOULDER, MAX_WRIST, MAX_BASE, MAX_GRIPPER, MAX_WRIST_ROTATE);
    case Min => PoseWithinLimits(MIN_ELBOW, MIN_SHOULDER, MIN_WRIST, MIN_BASE, MIN_GRIPPER, MIN_WRIST_ROTATE);
  }

  /** The constraint layer leaves every preset unchanged. */
  lemma PresetsUnconstrained(name: PresetName)
    ensures Constrained(PresetTable()[name]) == PresetTable()[name]
  {
    PresetsWithinLimits(name);
    ConstrainIdentity(PresetTable()[name]);
  }

  /** Every preset survives the text form exactly. */
  lemma PresetsRoundTrip(name: PresetName)
    ensures Codec.Parse(Codec.Format(PresetTable()[name])) == PresetTable()[name]
  {
    Codec.ParseFormatComplete(PresetTable()[name]);
  }

  /** The object the Ruby module is mixed into: it owns the `presets` field. */
  class Arm {
    var presets: map<PresetName, Coords>

    constructor ()
      ensures presets == map[]
    {
      presets := map[];
    }

    /** `define_presents`: start from an empty table and store the seven poses one by one. */
    method DefinePresets()
      modifies this
      ensures presets == PresetTable()
    {
      presets := map[];
      presets := presets[Default := Pose(50, 140, 90, 70, 40, 86)];
      presets := presets[Low := Pose(60, 110, 120, 50, 30, 86)];
      presets := presets[High := Pose(40, 130, 30, 90, 90, 0)];
      presets := presets[Park := Pose(19, 170, 80, 75, 40, 86)];
      presets := presets[Ninety := Pose(85, 110, 90, 70, 40, 86)];
      presets := presets[Max := Pose(MAX_ELBOW, MAX_SHOULDER, MAX_WRIST, MAX_BASE, MAX_GRIPPER, MAX_WRIST_ROTATE)];
      presets := presets[Min := Pose(MIN_ELBOW, MIN_SHOULDER, MIN_WRIST, MIN_BASE, MIN_GRIPPER, MIN_WRIST_ROTATE)];
    }
  }
}
