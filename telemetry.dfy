/**
 * The telemetry decoder of the monitor: `readParameters` turns one datagram
 * into a key/value map (empty on any failure) and `checkParameters` projects
 * that map onto the eight listener callbacks, with -1.0 for every missing key.
 *
 * Numbers stay abstract: `parse` stands for Kotlin's `String.toDouble`, so
 * no floating-point arithmetic enters the proofs.
 */
module Telemetry {
  import opened Wrappers
  import opened Text

  /** A number parser standing for `String.toDouble`: `None` where it throws. */
  type NumberParser = string -> Option<real>

  /** The sentinel reported for an absent key. */
  const UNDEFINED: real := -1.0

  const PITCH := "pitch"
  const ROLL := "roll"
  const YAW := "yaw"
  const X_SPEED := "vg" + "x"
  const Y_SPEED := "vgy"
  const Z_SPEED := "vgz"
  const LOWEST_TEMP := "templ"
  const HIGHEST_TEMP := "temph"
  const TOF := "tof"
  const HEIGHT := "h"
  const BATTERY := "bat"
  const BAROMETER := "baro"
  const X_ACCELERATION := "agx"
  const Y_ACCELERATION := "agy"
  const Z_ACCELERATION := "agz"

  // Framing: the text before the first "\n\r".

  predicate TerminatorAt(s: string, i: int) {
    0 <= i && i + 1 < |s| && s[i] == '\n' && s[i + 1] == '\r'
  }

  /** Kotlin's `indexOf("\n\r")`: the first occurrence, if there is one. */
  function FindTerminator(s: string): (r: Option<nat>)
    ensures r.Some? ==> TerminatorAt(s, r.value) && forall j :: 0 <= j < r.value ==> !TerminatorAt(s, j)
    ensures r.None? ==> forall j :: !TerminatorAt(s, j)
    decreases |s|
  {
    if |s| < 2 then None
    else if s[0] == '\n' && s[1] == '\r' then Some(0)
    else
      assert !TerminatorAt(s, 0);
      assert forall j :: 1 <= j ==> (TerminatorAt(s, j) <==> TerminatorAt(s[1..], j - 1));
      match FindTerminator(s[1..])
      case None => None
      case Some(k) => Some(k + 1)
  }

  /** A terminator at `i` with none before it is the one `FindTerminator` finds. */
  lemma FirstTerminatorIsFound(s: string, i: nat)
    requires TerminatorAt(s, i) && forall j :: 0 <= j < i ==> !TerminatorAt(s, j)
    ensures FindTerminator(s) == Some(i)
  {
    var r := FindTerminator(s);
    assert r.Some?;
    assert !(r.value < i);
  }

  /** The `;`-separated fields of the framed text, when there is a terminator. */
  function Fields(response: string): Option<seq<string>> {
    match FindTerminator(response)
    case None => None
    case Some(i) => Some(Split(response[..i], ';'))
  }

  /**
   * One field destructured as `val (left, right) = it.split(":")`: the key
   * is the text before the first ':', the value the text between the first
   * and the second ':'. A field with no ':' or an unparseable value fails.
   */
  function Entry(field: string, parse: NumberParser): (e: Option<(string, real)>)
    ensures e.Some? ==> ':' in field && ':' !in e.value.0
  {
    var parts := Split(field, ':');
    if ':' !in field then
      SplitWithoutSeparator(field, ':');
      None
    else if |parts| < 2 then None
    else
      match parse(parts[1])
      case None => None
      case Some(v) => Some((parts[0], v))
  }

  /** A field without ':' (the empty field included) always fails. */
  lemma FieldWithoutColonFails(field: string, parse: NumberParser)
    requires ':' !in field
    ensures Entry(field, parse).None?
  {
    SplitWithoutSeparator(field, ':');
  }

  /** Exactly the key before the first ':' and the value up to the next ':' are used. */
  lemma EntryOfField(key: string, value: string, rest: string, parse: NumberParser)
    requires ':' !in key && ':' !in value
    requires rest == [] || rest[0] == ':'
    ensures Entry(key + ":" + value + rest, parse) ==
      match parse(value) case Some(v) => Some((key, v)) case None => None
  {
    assert key + ":" + value + rest == key + [':'] + (value + rest);
    SplitAtFirst(key, value + rest, ':');
    if rest == [] {
      assert value + rest == value;
      SplitWithoutSeparator(value, ':');
    } else {
      assert value + rest == value + [':'] + rest[1..];
      SplitAtFirst(value, rest[1..], ':');
    }
  }

  /**
   * Kotlin's `associate` over the fields: each field adds its entry, later
   * keys overwrite earlier ones, and a failing field fails the whole map.
   */
  function Associate(fields: seq<string>, parse: NumberParser): (r: Option<map<string, real>>)
    ensures r.Some? <==> forall j :: 0 <= j < |fields| ==> Entry(fields[j], parse).Some?
    ensures r.Some? && |fields| > 0 ==> r.value != map[]
    ensures r.Some? ==> forall k :: k in r.value ==> ':' !in k
    decreases |fields|
  {
    if |fields| == 0 then Some(map[])
    else
      var prefix := fields[..|fields| - 1];
      assert forall j :: 0 <= j < |prefix| ==> prefix[j] == fields[j];
      match Associate(prefix, parse)
      case None => None
      case Some(m) =>
        match Entry(fields[|fields| - 1], parse)
        case None => None
        case Some(e) =>
          assert e.0 in m[e.0 := e.1];
          Some(m[e.0 := e.1])
  }

  /** `readParameters`: the map of one datagram, or the empty map on any failure. */
  function ReadParameters(response: string, parse: NumberParser): (m: map<string, real>)
    ensures FindTerminator(response).None? ==> m == map[]
    ensures forall k :: k in m ==> ':' !in k
  {
    match Fields(response)
    case None => map[]
    case Some(fields) =>
      match Associate(fields, parse)
      case None => map[]
      case Some(m) => m
  }

  /** A datagram that `readParameters` decodes without an exception. */
  predicate WellFormed(response: string, parse: NumberParser) {
    match Fields(response)
    case None => false
    case Some(fields) => forall j :: 0 <= j < |fields| ==> Entry(fields[j], parse).Some?
  }

  /** The independent reading of a frame: the value of the last field carrying `key`. */
  function LastValue(fields: seq<string>, key: string, parse: NumberParser): Option<real>
    decreases |fields|
  {
    if |fields| == 0 then None
    else
      var prefix := fields[..|fields| - 1];
      match Entry(fields[|fields| - 1], parse)
      case Some(e) => if e.0 == key then Some(e.1) else LastValue(prefix, key, parse)
      case None => LastValue(prefix, key, parse)
  }

  // Properties of the parser.

  /** A datagram without "\n\r" decodes to the empty map. */
  lemma NoTerminatorYieldsEmpty(response: string, parse: NumberParser)
    requires forall j :: !TerminatorAt(response, j)
    ensures ReadParameters(response, parse) == map[]
  {
  }

  /** Only the text before the first "\n\r" is read: whatever follows it never matters. */
  lemma SuffixIgnored(response: string, tail: string, parse: NumberParser)
    requires FindTerminator(response).Some?
    ensures ReadParameters(response + tail, parse) == ReadParameters(response, parse)
  {
    var i := FindTerminator(response).value;
    var s := response + tail;
    forall j | 0 <= j <= i
      ensures TerminatorAt(s, j) == TerminatorAt(response, j)
    {
    }
    FirstTerminatorIsFound(s, i);
    assert s[..i] == response[..i];
  }

  /** The decoded map is empty exactly when the datagram is malformed. */
  lemma EmptyIffMalformed(response: string, parse: NumberParser)
    ensures ReadParameters(response, parse) == map[] <==> !WellFormed(response, parse)
  {
  }

  /** Where a field with no ':' appears, the whole datagram decodes to the empty map. */
  lemma FieldWithoutColonEmptiesFrame(response: string, parse: NumberParser, j: nat)
    requires Fields(response).Some? && j < |Fields(response).value|
    requires ':' !in Fields(response).value[j]
    ensures ReadParameters(response, parse) == map[]
  {
    FieldWithoutColonFails(Fields(response).value[j], parse);
  }

  /** The map `associate` builds holds, for every key, the value of its last field. */
  lemma {:induction false} AssociateIsLastValue(fields: seq<string>, key: string, parse: NumberParser)
    requires Associate(fields, parse).Some?
    ensures key in Associate(fields, parse).value <==> LastValue(fields, key, parse).Some?
    ensures key in Associate(fields, parse).value ==>
      Associate(fields, parse).value[key] == LastValue(fields, key, parse).value
    decreases |fields|
  {
    if |fields| > 0 {
      var prefix := fields[..|fields| - 1];
      assert forall j :: 0 <= j < |prefix| ==> prefix[j] == fields[j];
      AssociateIsLastValue(prefix, key, parse);
    }
  }

  /** A field whose key does not occur again later supplies that key's value. */
  lemma {:induction false} LastValueAt(fields: seq<string>, j: nat, parse: NumberParser)
    requires j < |fields| && Entry(fields[j], parse).Some?
    requires forall k :: j < k < |fields| && Entry(fields[k], parse).Some? ==>
      Entry(fields[k], parse).value.0 != Entry(fields[j], parse).value.0
    ensures LastValue(fields, Entry(fields[j], parse).value.0, parse) == Some(Entry(fields[j], parse).value.1)
    decreases |fields|
  {
    if j < |fields| - 1 {
      var prefix := fields[..|fields| - 1];
      assert prefix[j] == fields[j];
      forall k | j < k < |prefix| && Entry(prefix[k], parse).Some?
        ensures Entry(prefix[k], parse).value.0 != Entry(prefix[j], parse).value.0
      {
        assert prefix[k] == fields[k];
      }
      LastValueAt(prefix, j, parse);
    }
  }

  /**
   * For a well-formed datagram, each key maps to the value of its last
   * field: when a key repeats, the later occurrence wins.
   */
  lemma LaterDuplicateWins(response: string, parse: NumberParser, j: nat)
    requires WellFormed(response, parse)
    requires j < |Fields(response).value|
    requires var fields := Fields(response).value;
      forall k :: j < k < |fields| ==> Entry(fields[k], parse).value.0 != Entry(fields[j], parse).value.0
    ensures var e := Entry(Fields(response).value[j], parse).value;
      e.0 in ReadParameters(response, parse) && ReadParameters(response, parse)[e.0] == e.1
  {
    var fields := Fields(response).value;
    var e := Entry(fields[j], parse).value;
    LastValueAt(fields, j, parse);
    AssociateIsLastValue(fields, e.0, parse);
  }

  // The projection onto the listener.

  /** The eight callbacks of the state listener, in the order they are invoked. */
  datatype StateChange =
    | AttitudeChanged(pitch: real, roll: real, yaw: real)
    | SpeedChanged(x: real, y: real, z: real)
    | TemperatureChanged(lowest: real, highest: real)
    | TofChanged(distance: real)
    | HeightChanged(height: real)
    | BatteryChanged(level: real)
    | BarometerChanged(distance: real)
    | AccelerationChanged(x: real, y: real, z: real)

  /** `parameters[key] ?: UNDEFINED` */
  function Reading(parameters: map<string, real>, key: string): real {
    if key in parameters then parameters[key] else UNDEFINED
  }

  /** `checkParameters`: one notification per category, every time, whatever the map holds. */
  function CheckParameters(parameters: map<string, real>): (changes: seq<StateChange>)
    ensures |changes| == 8
    ensures changes[0].AttitudeChanged? && changes[1].SpeedChanged? &&
            changes[2].TemperatureChanged? && changes[3].TofChanged? &&
            changes[4].HeightChanged? && changes[5].BatteryChanged? &&
            changes[6].BarometerChanged? && changes[7].AccelerationChanged?
  {
    [ AttitudeChanged(Reading(parameters, PITCH), Reading(parameters, ROLL), Reading(parameters, YAW)),
      SpeedChanged(Reading(parameters, X_SPEED), Reading(parameters, Y_SPEED), Reading(parameters, Z_SPEED)),
      TemperatureChanged(Reading(parameters, LOWEST_TEMP), Reading(parameters, HIGHEST_TEMP)),
      TofChanged(Reading(parameters, TOF)),
      HeightChanged(Reading(parameters, HEIGHT)),
      BatteryChanged(Reading(parameters, BATTERY)),
      BarometerChanged(Reading(parameters, BAROMETER)),
      AccelerationChanged(Reading(parameters, X_ACCELERATION), Reading(parameters, Y_ACCELERATION),
                          Reading(parameters, Z_ACCELERATION)) ]
  }

  /** The values one notification carries. */
  function ReadingsOf(c: StateChange): seq<real> {
    match c
    case AttitudeChanged(p, r, y) => [p, r, y]
    case SpeedChanged(x, y, z) => [x, y, z]
    case TemperatureChanged(lo, hi) => [lo, hi]
    case TofChanged(d) => [d]
    case HeightChanged(h) => [h]
    case BatteryChanged(l) => [l]
    case BarometerChanged(d) => [d]
    case AccelerationChanged(x, y, z) => [x, y, z]
  }

  /** The fifteen telemetry keys, in the order their values reach the listener. */
  const KEYS: seq<string> := [
    PITCH, ROLL, YAW, X_SPEED, Y_SPEED, Z_SPEED, LOWEST_TEMP, HIGHEST_TEMP,
    TOF, HEIGHT, BATTERY, BAROMETER, X_ACCELERATION, Y_ACCELERATION, Z_ACCELERATION]

  /**
   * The fifteen values the listener receives for one map: each is the map
   * entry of its key, or -1.0 when the key is absent.
   */
  function Snapshot(parameters: map<string, real>): (values: seq<real>)
    ensures |values| == |KEYS|
    ensures forall i :: 0 <= i < |KEYS| ==> values[i] == Reading(parameters, KEYS[i])
  {
    var c := CheckParameters(parameters);
    ReadingsOf(c[0]) + ReadingsOf(c[1]) + ReadingsOf(c[2]) + ReadingsOf(c[3]) +
    ReadingsOf(c[4]) + ReadingsOf(c[5]) + ReadingsOf(c[6]) + ReadingsOf(c[7])
  }

  /** When no genuine reading is -1.0, a reported -1.0 means exactly that the key was absent. */
  lemma SentinelIffAbsent(parameters: map<string, real>, i: nat)
    requires i < |KEYS| && UNDEFINED !in parameters.Values
    ensures Snapshot(parameters)[i] == UNDEFINED <==> KEYS[i] !in parameters
  {
    if KEYS[i] in parameters {
      assert parameters[KEYS[i]] in parameters.Values;
    }
  }

  /** An empty map is reported as fifteen sentinels. */
  lemma EmptyMapAllUndefined()
    ensures Snapshot(map[]) == seq(15, _ => UNDEFINED)
  {
  }

  /** A malformed datagram still reaches every callback, with sentinels only. */
  lemma MalformedDatagramAllUndefined(response: string, parse: NumberParser)
    requires !WellFormed(response, parse)
    ensures Snapshot(ReadParameters(response, parse)) == seq(15, _ => UNDEFINED)
  {
    EmptyIffMalformed(response, parse);
    EmptyMapAllUndefined();
  }

  /**
   * End to end: for a well-formed datagram, each reported value is that of
   * the last field carrying its key, or -1.0 when no field carries it.
   */
  lemma ReportedValueOfFrame(response: string, parse: NumberParser, i: nat)
    requires WellFormed(response, parse) && i < |KEYS|
    ensures Snapshot(ReadParameters(response, parse))[i] ==
      match LastValue(Fields(response).value, KEYS[i], parse)
      case Some(v) => v
      case None => UNDEFINED
  {
    AssociateIsLastValue(Fields(response).value, KEYS[i], parse);
  }

  /** Text without a line feed, then the terminator: the fields are the text split at ';'. */
  lemma FramedFields(text: string, tail: string)
    requires '\n' !in text
    ensures Fields(text + "\n\r" + tail) == Some(Split(text, ';'))
  {
    var s := text + "\n\r" + tail;
    forall j | 0 <= j < |text|
      ensures !TerminatorAt(s, j)
    {
      assert s[j] == text[j];
    }
    FirstTerminatorIsFound(s, |text|);
    assert s[..|text|] == text;
  }

  /** `associate` extends the map of the earlier fields with the entry of the last one. */
  lemma AssociateSnoc(fields: seq<string>, last: string, parse: NumberParser)
    ensures Associate(fields + [last], parse) ==
      match Associate(fields, parse)
      case None => None
      case Some(m) =>
        match Entry(last, parse)
        case None => None
        case Some(e) => Some(m[e.0 := e.1])
  {
    assert (fields + [last])[..|fields|] == fields;
  }

  lemma RepeatedBatteryEntries(parse: NumberParser)
    requires parse("80").Some? && parse("20").Some? && parse("75").Some?
    ensures Entry("bat:80", parse) == Some((BATTERY, parse("80").value))
    ensures Entry("h:20", parse) == Some((HEIGHT, parse("20").value))
    ensures Entry("bat:75", parse) == Some((BATTERY, parse("75").value))
  {
    EntryOfField(BATTERY, "80", "", parse);
    EntryOfField(HEIGHT, "20", "", parse);
    EntryOfField(BATTERY, "75", "", parse);
    assert BATTERY + ":" + "80" + "" == "bat:80";
    assert HEIGHT + ":" + "20" + "" == "h:20";
    assert BATTERY + ":" + "75" + "" == "bat:75";
  }

  lemma RepeatedBatterySplit()
    ensures Split("bat:80" + [';'] + ("h:20" + [';'] + "bat:75"), ';') == ["bat:80", "h:20", "bat:75"]
  {
    var f0, f1, f2 := "bat:80", "h:20", "bat:75";
    SplitAtFirst(f0, f1 + [';'] + f2, ';');
    SplitAtFirst(f1, f2, ';');
    SplitWithoutSeparator(f2, ';');
    assert [f0] + ([f1] + [f2]) == [f0, f1, f2];
  }

  lemma RepeatedBatteryFields(tail: string)
    ensures Fields("bat:80;h:20;bat:75\n\r" + tail) == Some(["bat:80", "h:20", "bat:75"])
  {
    var text := "bat:80" + [';'] + ("h:20" + [';'] + "bat:75");
    assert text == "bat:80;h:20;bat:75";
    FramedFields(text, tail);
    RepeatedBatterySplit();
    assert text + "\n\r" + tail == "bat:80;h:20;bat:75\n\r" + tail;
  }

  /** Three fields whose first and last share a key: the map keeps the last value. */
  lemma RepeatedKeyMap(f0: string, f1: string, f2: string, parse: NumberParser)
    requires Entry(f0, parse).Some? && Entry(f1, parse).Some? && Entry(f2, parse).Some?
    requires Entry(f0, parse).value.0 == Entry(f2, parse).value.0 != Entry(f1, parse).value.0
    ensures Associate([f0, f1, f2], parse) ==
      Some(map[Entry(f2, parse).value.0 := Entry(f2, parse).value.1,
               Entry(f1, parse).value.0 := Entry(f1, parse).value.1])
  {
    var e0, e1, e2 := Entry(f0, parse).value, Entry(f1, parse).value, Entry(f2, parse).value;
    var m0: map<string, real> := map[];
    AssociateSnoc([], f0, parse);
    assert [] + [f0] == [f0];
    AssociateSnoc([f0], f1, parse);
    assert [f0] + [f1] == [f0, f1];
    AssociateSnoc([f0, f1], f2, parse);
    assert [f0, f1] + [f2] == [f0, f1, f2];
    assert Associate([f0, f1, f2], parse) == Some(m0[e0.0 := e0.1][e1.0 := e1.1][e2.0 := e2.1]);
    assert m0[e0.0 := e0.1][e1.0 := e1.1][e2.0 := e2.1] == map[e2.0 := e2.1, e1.0 := e1.1];
  }

  /** A frame with a repeated key, whatever follows the terminator: the later battery value wins. */
  lemma RepeatedBatteryFrame(parse: NumberParser, tail: string)
    requires parse("80").Some? && parse("20").Some? && parse("75").Some?
    ensures ReadParameters("bat:80;h:20;bat:75\n\r" + tail, parse) ==
      map[BATTERY := parse("75").value, HEIGHT := parse("20").value]
  {
    RepeatedBatteryFields(tail);
    RepeatedBatteryEntries(parse);
    RepeatedKeyMap("bat:80", "h:20", "bat:75", parse);
  }
}
