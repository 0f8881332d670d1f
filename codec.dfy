/**
 * The coordinate codec: a record is written as six decimal integers joined by
 * commas in the order elbow, shoulder, wrist, base, gripper, wrist_rotate, and
 * read back by splitting on commas and reading each piece with Ruby's
 * `String#to_i`, which never fails.
 */
module Codec {
  import opened Joints
  import opened Options

  /** The order in which the fields appear in the text form. */
  const FieldOrder: seq<Joint> := [Elbow, Shoulder, Wrist, Base, Gripper, WristRotate]

  /** Where joint `j` sits in the text form. */
  function Position(j: Joint): (k: nat)
    ensures k < |FieldOrder| && FieldOrder[k] == j
  {
    match j
    case Elbow => 0
    case Shoulder => 1
    case Wrist => 2
    case Base => 3
    case Gripper => 4
    case WristRotate => 5
  }

  // ---------------------------------------------------------------------
  // Integer#to_s

  predicate IsDigit(c: char) {
    '0' <= c <= '9'
  }

  predicate AllDigits(s: string) {
    forall i :: 0 <= i < |s| ==> IsDigit(s[i])
  }

  function DigitChar(d: nat): (c: char)
    requires d < 10
    ensures IsDigit(c)
  {
    ('0' as int + d) as char
  }

  function DigitValue(c: char): (d: nat)
    requires IsDigit(c)
    ensures d < 10 && DigitChar(d) == c
  {
    c as int - '0' as int
  }

  /** The decimal digits of `n`, most significant first, without leading zeros. */
  function NatToDigits(n: nat): (s: string)
    ensures |s| > 0 && AllDigits(s)
    decreases n
  {
    if n < 10 then [DigitChar(n)] else NatToDigits(n / 10) + [DigitChar(n % 10)]
  }

  /** `Integer#to_s`: an optional minus sign followed by the decimal digits. */
  function IntToString(i: int): (s: string)
    ensures |s| > 0 && ',' !in s
    ensures s[0] == '-' || IsDigit(s[0])
  {
    if i < 0 then "-" + NatToDigits(-i) else NatToDigits(i)
  }

  // ---------------------------------------------------------------------
  // String#to_i

  /** The whitespace `to_i` skips: space, tab, line feed, vertical tab, form feed, carriage return. */
  predicate IsSpace(c: char) {
    c == ' ' || '\t' <= c <= '\r'
  }

  /** What remains of `s` after its leading whitespace. */
  function SkipSpaces(s: string): (t: string)
    ensures |t| > 0 ==> !IsSpace(t[0])
  {
    if |s| > 0 && IsSpace(s[0]) then SkipSpaces(s[1..]) else s
  }

  /** The longest prefix of `s` made of decimal digits. */
  function DigitPrefix(s: string): (p: string)
    ensures p <= s && AllDigits(p)
    ensures |p| < |s| ==> !IsDigit(s[|p|])
  {
    if |s| > 0 && IsDigit(s[0]) then [s[0]] + DigitPrefix(s[1..]) else []
  }

  /** The value of a string of decimal digits, read left to right. */
  function DigitsToNat(s: string): nat
    requires AllDigits(s)
  {
    if s == [] then 0 else DigitsToNat(s[..|s| - 1]) * 10 + DigitValue(s[|s| - 1])
  }

  /**
   * `String#to_i`: skip leading whitespace, take an optional sign, then the
   * longest run of digits; no digits reads as 0.
   */
  function ToI(s: string): int {
    var t := SkipSpaces(s);
    if |t| > 0 && t[0] == '-' then -(DigitsToNat(DigitPrefix(t[1..])) as int)
    else if |t| > 0 && t[0] == '+' then DigitsToNat(DigitPrefix(t[1..]))
    else DigitsToNat(DigitPrefix(t))
  }

  lemma {:induction false} DigitsToNatOfNatToDigits(n: nat)
    ensures DigitsToNat(NatToDigits(n)) == n
    decreases n
  {
    var s := NatToDigits(n);
    if n >= 10 {
      DigitsToNatOfNatToDigits(n / 10);
      assert s[..|s| - 1] == NatToDigits(n / 10);
    }
  }

  lemma {:induction false} DigitPrefixOfDigits(p: string, t: string)
    requires AllDigits(p)
    requires |t| == 0 || !IsDigit(t[0])
    ensures DigitPrefix(p + t) == p
    decreases |p|
  {
    if |p| > 0 {
      DigitPrefixOfDigits(p[1..], t);
      assert (p + t)[1..] == p[1..] + t;
    } else {
      assert p + t == t;
    }
  }

  /** An unsigned run of digits, followed by anything that is not a digit, reads as its value. */
  lemma ToIUnsigned(digits: string, t: string)
    requires |digits| > 0 && AllDigits(digits)
    requires |t| == 0 || !IsDigit(t[0])
    ensures ToI(digits + t) == DigitsToNat(digits)
  {
    var s := digits + t;
    assert s[0] == digits[0];
    assert SkipSpaces(s) == s;
    DigitPrefixOfDigits(digits, t);
  }

  /** A minus sign and a run of digits, followed by anything that is not a digit, reads as minus its value. */
  lemma ToINegative(digits: string, t: string)
    requires AllDigits(digits)
    requires |t| == 0 || !IsDigit(t[0])
    ensures ToI("-" + digits + t) == -(DigitsToNat(digits) as int)
  {
    var s := "-" + digits + t;
    assert s[0] == '-';
    assert SkipSpaces(s) == s;
    assert s[1..] == digits + t;
    DigitPrefixOfDigits(digits, t);
  }

  /**
   * `to_i` reads back what `to_s` wrote, and stops at the first character
   * after it that is not a digit, so anything after a separator is ignored.
   */
  lemma ToIOfIntToString(i: int, t: string)
    requires |t| == 0 || !IsDigit(t[0])
    ensures ToI(IntToString(i) + t) == i
  {
    if i < 0 {
      ToINegative(NatToDigits(-i), t);
      DigitsToNatOfNatToDigits(-i);
    } else {
      ToIUnsigned(NatToDigits(i), t);
      DigitsToNatOfNatToDigits(i);
    }
  }

  /**
   * A piece with no integer at its start reads as 0: after the leading
   * whitespace and an optional sign there is no digit.
   */
  lemma ToINonNumeric(s: string)
    requires var t := SkipSpaces(s);
             var u := if |t| > 0 && (t[0] == '-' || t[0] == '+') then t[1..] else t;
             |u| == 0 || !IsDigit(u[0])
    ensures ToI(s) == 0
  {
  }

  // ---------------------------------------------------------------------
  // String#split(',')

  /** Every comma-separated piece of `s`, empty pieces included. */
  function SplitAll(s: string): (pieces: seq<string>)
    ensures |pieces| > 0
  {
    if |s| == 0 then [""]
    else if s[0] == ',' then [""] + SplitAll(s[1..])
    else
      var rest := SplitAll(s[1..]);
      [[s[0]] + rest[0]] + rest[1..]
  }

  /** Ruby drops the empty pieces at the end of a split. */
  function DropTrailingEmpty(pieces: seq<string>): (r: seq<string>)
    ensures r <= pieces
    ensures |r| > 0 ==> r[|r| - 1] != ""
  {
    if |pieces| > 0 && pieces[|pieces| - 1] == "" then DropTrailingEmpty(pieces[..|pieces| - 1])
    else pieces
  }

  /** `String#split(',')`. */
  function Split(s: string): seq<string> {
    DropTrailingEmpty(SplitAll(s))
  }

  /** Pieces joined with single commas. */
  function Join(pieces: seq<string>): string
    requires |pieces| > 0
  {
    if |pieces| == 1 then pieces[0] else pieces[0] + "," + Join(pieces[1..])
  }

  lemma {:induction false} SplitAllNoComma(a: string)
    requires ',' !in a
    ensures SplitAll(a) == [a]
    decreases |a|
  {
    if |a| > 0 {
      SplitAllNoComma(a[1..]);
      assert [a[0]] + a[1..] == a;
    }
  }

  lemma {:induction false} SplitAllAfterPiece(a: string, rest: string)
    requires ',' !in a
    ensures SplitAll(a + "," + rest) == [a] + SplitAll(rest)
    decreases |a|
  {
    if |a| == 0 {
      assert a + "," + rest == [','] + rest;
      assert (a + "," + rest)[1..] == rest;
    } else {
      SplitAllAfterPiece(a[1..], rest);
      assert (a + "," + rest)[1..] == a[1..] + "," + rest;
      assert [a[0]] + a[1..] == a;
    }
  }

  /** Splitting pieces that hold no comma after joining them gives back every piece. */
  lemma {:induction false} SplitAllJoin(pieces: seq<string>)
    requires |pieces| > 0
    requires forall k :: 0 <= k < |pieces| ==> ',' !in pieces[k]
    ensures SplitAll(Join(pieces)) == pieces
    decreases |pieces|
  {
    if |pieces| == 1 {
      SplitAllNoComma(pieces[0]);
    } else {
      SplitAllAfterPiece(pieces[0], Join(pieces[1..]));
      SplitAllJoin(pieces[1..]);
    }
  }

  /** Every payload is the comma-free pieces `SplitAll` finds, joined by commas. */
  lemma {:induction false} JoinSplitAll(s: string)
    ensures forall k :: 0 <= k < |SplitAll(s)| ==> ',' !in SplitAll(s)[k]
    ensures Join(SplitAll(s)) == s
    decreases |s|
  {
    if |s| > 0 {
      var rest := SplitAll(s[1..]);
      JoinSplitAll(s[1..]);
      var pieces := SplitAll(s);
      if s[0] == ',' {
        assert pieces[1..] == rest;
        assert s == "," + s[1..];
      } else {
        assert pieces[0] == [s[0]] + rest[0];
        assert pieces[1..] == rest[1..];
        assert s == [s[0]] + s[1..];
        if |rest| > 1 {
          assert Join(pieces) == pieces[0] + "," + Join(rest[1..]);
          assert Join(rest) == rest[0] + "," + Join(rest[1..]);
        }
      }
    }
  }

  // ---------------------------------------------------------------------
  // coords_parse / coords_format

  /** `values[k].to_i`: a piece past the end is nil, and `nil.to_i` is 0. */
  function FieldValue(values: seq<string>, k: nat): int {
    if k < |values| then ToI(values[k]) else 0
  }

  /** Dropping trailing empty pieces changes no field's value: "" and nil both read as 0. */
  lemma {:induction false} DropTrailingEmptyValues(pieces: seq<string>, k: nat)
    ensures FieldValue(DropTrailingEmpty(pieces), k) == FieldValue(pieces, k)
    decreases |pieces|
  {
    if |pieces| > 0 && pieces[|pieces| - 1] == "" {
      var init := pieces[..|pieces| - 1];
      DropTrailingEmptyValues(init, k);
      if k == |pieces| - 1 {
        assert ToI("") == 0;
      }
    }
  }

  /**
   * The fields a payload made of comma-free pieces parses to: the k-th field
   * is the k-th piece read by `to_i`, and 0 when there are fewer than k+1
   * pieces; pieces beyond the ones asked for play no part.
   */
  lemma SplitJoinValues(pieces: seq<string>, k: nat)
    requires |pieces| > 0
    requires forall i :: 0 <= i < |pieces| ==> ',' !in pieces[i]
    ensures FieldValue(Split(Join(pieces)), k) == FieldValue(pieces, k)
  {
    SplitAllJoin(pieces);
    DropTrailingEmptyValues(pieces, k);
  }

  /** The record `coords_parse` builds from a payload. */
  function Parse(payload: string): (coords: Coords)
    ensures coords.Keys == AllJoints && Complete(coords)
  {
    var values := Split(payload);
    AllJointsListed();
    map j | j in AllJoints :: FieldValue(values, Position(j))
  }

  /** `coords_parse`: split the payload, then assign the six entries one after another. */
  method CoordsParse(payload: string) returns (coords: Coords)
    ensures coords == Parse(payload)
  {
    var values := Split(payload);
    coords := map[];
    coords := coords[Elbow := FieldValue(values, 0)];
    coords := coords[Shoulder := FieldValue(values, 1)];
    coords := coords[Wrist := FieldValue(values, 2)];
    coords := coords[Base := FieldValue(values, 3)];
    coords := coords[Gripper := FieldValue(values, 4)];
    coords := coords[WristRotate := FieldValue(values, 5)];
  }

  /** A record entry as string interpolation writes it: a missing entry is nil, written as "". */
  function FieldText(c: Coords, j: Joint): string {
    if j in c then IntToString(c[j]) else ""
  }

  /** The text pieces of a record, in field order. */
  function FormatPieces(c: Coords): (pieces: seq<string>)
    ensures |pieces| == |FieldOrder|
    ensures forall k :: 0 <= k < |pieces| ==> pieces[k] == FieldText(c, FieldOrder[k])
  {
    [FieldText(c, Elbow), FieldText(c, Shoulder), FieldText(c, Wrist),
     FieldText(c, Base), FieldText(c, Gripper), FieldText(c, WristRotate)]
  }

  /** `coords_format`: the six entries in field order, separated by single commas. */
  function Format(c: Coords): string {
    Join(FormatPieces(c))
  }

  /**
   * Round trip: parsing a formatted record gives back every entry it has,
   * negative ones included, and 0 for every entry it lacks.
   */
  lemma ParseFormat(c: Coords)
    ensures forall j: Joint :: Parse(Format(c))[j] == if j in c then c[j] else 0
  {
    var pieces := FormatPieces(c);
    AllJointsListed();
    forall j: Joint
      ensures Parse(Format(c))[j] == if j in c then c[j] else 0
    {
      var k := Position(j);
      SplitJoinValues(pieces, k);
      if j in c {
        ToIOfIntToString(c[j], "");
        assert IntToString(c[j]) + "" == IntToString(c[j]);
      }
    }
  }

  /** For a complete record the round trip is exact. */
  lemma ParseFormatComplete(c: Coords)
    requires Complete(c)
    ensures Parse(Format(c)) == c
  {
    ParseFormat(c);
    AllJointsListed();
    assert c.Keys == AllJoints;
  }

  /**
   * `coords_parse` never fails. For any comma-free pieces joined by commas:
   * a field with a piece is that piece read by `to_i`, a field without one
   * (fewer than six pieces) is 0, and pieces beyond the sixth are ignored.
   */
  lemma ParseJoin(pieces: seq<string>)
    requires |pieces| > 0
    requires forall i :: 0 <= i < |pieces| ==> ',' !in pieces[i]
    ensures forall j: Joint :: j in Parse(Join(pieces))
    ensures forall j: Joint :: Position(j) < |pieces| ==> Parse(Join(pieces))[j] == ToI(pieces[Position(j)])
    ensures forall j: Joint :: Position(j) >= |pieces| ==> Parse(Join(pieces))[j] == 0
  {
    AllJointsListed();
    forall j: Joint
      ensures Parse(Join(pieces))[j] == FieldValue(pieces, Position(j))
    {
      SplitJoinValues(pieces, Position(j));
    }
  }

  /**
   * Every payload parses field by field: it is `Join` of the comma-free pieces
   * `SplitAll` finds, and each field is the piece at its position read by
   * `to_i`, or 0 when the payload has fewer pieces.
   */
  lemma ParseAny(payload: string)
    ensures forall k :: 0 <= k < |SplitAll(payload)| ==> ',' !in SplitAll(payload)[k]
    ensures Join(SplitAll(payload)) == payload
    ensures forall j: Joint :: Parse(payload)[j] == FieldValue(SplitAll(payload), Position(j))
  {
    JoinSplitAll(payload);
    AllJointsListed();
    forall j: Joint
      ensures Parse(payload)[j] == FieldValue(SplitAll(payload), Position(j))
    {
      DropTrailingEmptyValues(SplitAll(payload), Position(j));
    }
  }

  // ---------------------------------------------------------------------
  // mqtt_format / mqtt_parse: the same text form under a second name

  /** `mqtt_format` writes exactly what `coords_format` writes. */
  function MqttFormat(c: Coords): string {
    Format(c)
  }

  /** `mqtt_parse` reads exactly as `coords_parse` does. */
  method MqttParse(payload: string) returns (coords: Coords)
    ensures coords == Parse(payload)
  {
    coords := CoordsParse(payload);
  }

  /** Round trip through the transport form. */
  lemma MqttRoundTrip(c: Coords)
    requires Complete(c)
    ensures Parse(MqttFormat(c)) == c
  {
    ParseFormatComplete(c);
  }
}
