# Robot arm joint space, in Dafny

A model of the core of `Rucicka::Lib`, the library of a six-joint robot arm
(elbow, shoulder, wrist, base, gripper, wrist rotation). It covers:

- the **joint limits** and the **constraint layer** (`bound`, `constrain`), which
  clamp every entry of a coordinate record into that joint's `[MIN, MAX]`;
- the **coordinate codec** (`coords_format`/`coords_parse` and their duplicates
  `mqtt_format`/`mqtt_parse`). It writes a record as six comma-separated
  integers and reads it back with Ruby's `String#split(',')` and `String#to_i`,
  both modelled character by character;
- the **preset table** built by `define_presents` in the object's `presets` field;
- the **decision structure of the two solvers**, `gripper_adjustment` and
  `position_to_coords`: reachability, the `tau` override policy, the
  calibration offsets, and the format → parse → constrain assembly. The
  floating-point primitives they call are abstracted (see "Left out").

Files, one module each:

- `options.dfy` (`Options`): the optional value that stands for Ruby's `nil`.
- `joints.dfy` (`Joints`): the joints, the limit constants, `Bound` and
  `Constrain`, and the spec function `Constrained`. A Ruby hash keyed by joint
  symbols is a `map<Joint, int>`.
- `codec.dfy` (`Codec`): `Integer#to_s`, `String#to_i`, `String#split(',')`,
  `Format`, `Parse` and the methods `CoordsParse` and `MqttParse`.
- `presets.dfy` (`Presets`): the seven named poses, and the class `Arm` whose
  `DefinePresets` fills the `presets` field entry by entry.
- `solver.dfy` (`Solver`): `GripperAdjustment`, `PositionToCoords` and the
  functions that specify them. The arm's link lengths M and N and its
  floating-point primitives are fields of a `Geometry` value. `Valid` assumes
  only three things of them: the lengths are positive, `sqrt` is the
  non-negative square root, and the cosine lies in [-1, 1].

The methods that build a hash key by key (`Constrain`, `CoordsParse`,
`DefinePresets`) are proved equal to a function of their input (`Constrained`,
`Parse`, `PresetTable`). The properties are proved about those functions.

`coords_parse` never fails: missing fields read as 0, extra fields are
ignored, and a field with no integer at its start reads as 0. The preset table
is only built, never looked up by name: the code has no lookup, so no lookup
failure is modelled.

## Model

| member | source | states |
|---|---|---|
| `Joints.Bound` | ruby/lib.rb:122-124 | The result lies in `[lo, hi]` when `lo <= hi`. It equals `value` when `value` is already in range, `lo` below the range, `hi` above it. When `lo > hi` the result is `hi`. |
| `Joints.BoundIdempotent` | ruby/lib.rb:122-124 | Clamping twice is the same as clamping once. |
| `Joints.Constrained` | ruby/lib.rb:3-15 | The constrained record has exactly the six joints. Each entry lies within its joint's MIN/MAX constants. An entry already in range is kept. |
| `Joints.Constrain` | ruby/lib.rb:109-120 | Building the record entry by entry from an empty hash gives exactly `Constrained(coords)`. |
| `Joints.ConstrainIdentity` | ruby/lib.rb:112-117 | A record already within all limits comes back unchanged. |
| `Joints.ConstrainIdempotent` | ruby/lib.rb:109-120 | Constraining twice is the same as constraining once. |
| `Joints.ConstrainFieldwise` | ruby/lib.rb:112-117 | Each output entry is the same-named input entry clamped into that joint's bounds. Two inputs that agree on a joint give outputs that agree on it, whatever their other entries hold. |
| `Codec.IntToString` | ruby/lib.rb:102 | An interpolated integer is non-empty and holds no comma. It starts with a minus sign or a digit. |
| `Codec.DigitPrefix` | ruby/lib.rb:91 | `to_i` reads the longest prefix made only of digits. The character after it, if any, is not a digit. |
| `Codec.ToIUnsigned` | ruby/lib.rb:91-96 | A run of digits followed by a non-digit reads as the value of the digits. |
| `Codec.ToINegative` | ruby/lib.rb:91-96 | A minus sign and a run of digits followed by a non-digit reads as minus the value of the digits. |
| `Codec.ToIOfIntToString` | ruby/lib.rb:91-96 | `to_i` reads back exactly the integer `to_s` wrote, negative ones included. Text after it that does not start with a digit is ignored. |
| `Codec.ToINonNumeric` | ruby/lib.rb:91-96 | A field with no integer at its start reads as 0: after the leading whitespace and an optional sign, the text ends or the next character is not a digit (`"abc"`, `" x"`, `"-x"`, `"+"`, `"- 5"`). |
| `Codec.JoinSplitAll` | ruby/lib.rb:88 | Every payload is the comma-free pieces of its split, joined by single commas. |
| `Codec.SplitAllJoin` | ruby/lib.rb:88 | Splitting comma-free pieces after joining them with commas gives back every piece, in order. |
| `Codec.DropTrailingEmptyValues` | ruby/lib.rb:88 | Ruby dropping the empty pieces at the end of a split changes no field's value, since `"".to_i` and `nil.to_i` are both 0. |
| `Codec.Parse` | ruby/lib.rb:87-98 | Parsing is total. Any payload gives a record with exactly the six joints. |
| `Codec.CoordsParse` | ruby/lib.rb:87-98 | Splitting and assigning the six entries one by one gives exactly `Parse(payload)`. |
| `Codec.FormatPieces` | ruby/lib.rb:101-103 | The formatted text's pieces follow the order elbow, shoulder, wrist, base, gripper, wrist_rotate. Each piece is that entry's text. |
| `Codec.ParseFormat` | ruby/lib.rb:87-103 | Round trip: parsing a formatted record gives back every entry it has, and 0 for each entry it lacks (nil is written as ""). |
| `Codec.ParseFormatComplete` | ruby/lib.rb:87-103 | For a record with all six entries, `coords_parse(coords_format(r)) == r` exactly. |
| `Codec.ParseAny` | ruby/lib.rb:87-98 | For every payload, each field is the piece at its position read by `to_i`, or 0 when the payload has fewer pieces; the pieces are comma-free and join back to the payload. |
| `Codec.ParseJoin` | ruby/lib.rb:87-98 | For any comma-free pieces joined by commas, field k is piece k read by `to_i`. A field with no piece (fewer than six) is 0. Pieces after the sixth are ignored. |
| `Codec.MqttParse` | ruby/lib.rb:130-142 | `mqtt_parse` gives exactly what `coords_parse` gives. |
| `Codec.MqttRoundTrip` | ruby/lib.rb:126-142 | Round trip through `mqtt_format` and `mqtt_parse` for a complete record. |
| `Presets.PoseWithinLimits` | ruby/lib.rb:146-185 | A pose whose six values are within their joints' limits satisfies `WithinLimits`. |
| `Presets.MinPose` | ruby/lib.rb:194-201 | Every entry of the `min` pose is that joint's MIN constant. |
| `Presets.MaxPose` | ruby/lib.rb:186-193 | Every entry of the `max` pose is that joint's MAX constant. |
| `Presets.SevenNames` | ruby/lib.rb:144-201 | The seven preset names are distinct. |
| `Presets.PresetTable` | ruby/lib.rb:144-201 | The table has exactly seven keys: default, low, high, park, ninety, max, min. `min` and `max` are the limit constants. |
| `Presets.PresetsWithinLimits` | ruby/lib.rb:144-201 | Every preset is within the joint limits. |
| `Presets.PresetsUnconstrained` | ruby/lib.rb:144-201 | `constrain` leaves every preset unchanged. |
| `Presets.PresetsRoundTrip` | ruby/lib.rb:186-201 | Every preset, `min` and `max` included, survives format then parse exactly. |
| `Presets.Arm.DefinePresets` | ruby/lib.rb:144-202 | Storing the seven poses one by one into an emptied `presets` field leaves exactly `PresetTable()`. |
| `Solver.RootComparison` | ruby/lib.rb:61-62 | A non-negative root is at least a positive bound iff its square is at least the bound squared. |
| `Solver.UnreachableOnSquares` | ruby/lib.rb:61-64 | The source's test `sqrt(distance² + height²) >= M + N` holds iff `distance² + height² >= (M + N)²`. |
| `Solver.AdjustmentRange` | ruby/lib.rb:60-85 | The adjustment is missing iff the target is unreachable. When present it lies in `[0, GRIPPER_LENGTH]`. |
| `Solver.GripperAdjustment` | ruby/lib.rb:60-85 | Returns nil iff `sqrt(distance² + height²) >= M + N`. Otherwise it returns `GRIPPER_LENGTH` when `tau <= 0`, 0 when `tau > 90`, and `|cos(tau)·GRIPPER_LENGTH|` in between, always in `[0, GRIPPER_LENGTH]`. |
| `Solver.Truncate` | ruby/lib.rb:55-57 | A computed angle, written as text and read back by `to_i`, becomes its integer part rounded toward zero. |
| `Solver.Assemble` | ruby/lib.rb:55-57 | Format, parse, then constrain: the result is within the limits, and each entry is its input clamped into that joint's bounds. |
| `Solver.PositionToCoords` | ruby/lib.rb:22-58 | Returns nil iff the adjustment is nil or the adjusted target is out of reach. Otherwise the record is within the limits, with wrist = bound(wrist or 90, 0, 180), base = bound(rotation, 40, 120), gripper = bound(gripper, 30, 110) and wrist_rotate = bound(wrist_rotate, 0, 86). Elbow and shoulder are the calibrated angles (−5, +20), truncated and clamped. |
| `Solver.NearTargetReachable` | ruby/lib.rb:24-32 | With M = N = 10, the target at distance 5 and height 5 stays reachable after the gripper correction, for any wrist angle. |

## Left out

- Floating-point geometry is not modelled: `compute_angle` (ruby/lib.rb:105-107), `Math.sqrt`, `Math.asin`, `Math.cos`, and the `.degrees`/`.radians` conversions. They are fields of `Solver.Geometry`, constrained only by `Valid`. `Math.asin(a / b)` is one primitive, because a float division by zero has no real-number counterpart.
- Solver.GripperAdjustment and Solver.PositionToCoords do not model the `Math::DomainError` Ruby raises when an `asin` or `sqrt` argument is out of range. When M ≠ N that happens for targets nearer than |M − N|, the shoulder itself included. The abstract primitives are total.
- Solver.GripperAdjustment and Solver.PositionToCoords do not model NaN propagation. When M = N, a target at the shoulder itself (distance = height = 0) makes `compute_angle` and the `asin` of `distance / x` divide 0.0 by 0.0 (ruby/lib.rb:68-69, 106). The result is NaN, which `Math.sqrt` and `Math.asin` pass on without raising. Ruby then returns a NaN adjustment, outside the `[0, GRIPPER_LENGTH]` the model promises. The guard at ruby/lib.rb:29 is false for NaN, and `"NaN".to_i` is 0, so `position_to_coords` returns a record with elbow 19 and shoulder 50. The model's primitives return real numbers only.
- Solver.Truncate stands for `Float#to_s` followed by `String#to_i`. It differs from Ruby only where Ruby prints an exponent (|v| < 0.0001 or |v| >= 1e16). For angles below 0.0001 the clamp hides the difference. Angles of 1e16 cannot come out of `asin`.
- M and N are used by ruby/lib.rb but not defined there. They are the positive fields `m` and `n` of `Solver.Geometry`.
- The debug printing is not modelled: the unconditional `p` at ruby/lib.rb:28 and the `ENV['DEBUG']` blocks (ruby/lib.rb:41-49, 75-83). It is output only and changes no result.
- `WAIT_INTERVAL` and `STEP_INTERVAL` (ruby/lib.rb:17-18) are not modelled. No modelled function uses them.
- The MQTT transport that sends `mqtt_format` output is not part of this model.
- Codec.ToIOfIntToString: the model of `String#to_i` does not accept underscores between digits (`"1_000"`) or the `0d` prefix. `to_s` never writes either.
- Joints.Constrain requires a record with all six entries. Ruby raises on a missing entry, because `bound` compares nil with an integer.
- A hash with keys other than the six joints cannot be expressed. Ruby's `constrain` and `coords_format` ignore such keys anyway.
- Solver.PositionToCoords takes `rotation`, `gripper`, `wrist_rotate` and `wrist` as integers, as callers pass them. A float there would be interpolated as `"70.0"`, which `to_i` reads as 70.
- `define_presents` keys the table by Ruby symbols. Here the keys are the closed `PresetName` type, so an unknown-name lookup cannot be expressed (the code has no lookup).
