/**
 * The pure half of the Tello command client: the validation ranges, the
 * metric conversion, the keyword tables and the text that each public
 * controller operation puts on the command channel (or the decision to send
 * nothing at all).
 *
 * `Render` is the wire format; `Decode` is an independent reader of that
 * format, and `DecodeRender` proves that the wire text determines the
 * request, so no two accepted requests can be confused by the vehicle.
 */
module Commands {
  import opened Wrappers
  import opened Text

  /** Kotlin's `Int`. */
  type Int32 = x: int | -0x8000_0000 <= x < 0x8000_0000

  // The closed ranges of the controller's companion object.
  const DISTANCE_MIN := 20
  const DISTANCE_MAX := 500
  const ROTATION_MIN := 1
  const ROTATION_MAX := 3600
  const SPEED_MIN := 1
  const SPEED_MAX := 100
  const RC_MIN := -100
  const RC_MAX := 100

  // Command keywords.
  const LAND := "land"
  const EMERGENCY := "emergency"
  const STREAM_ON := "streamon"
  const STREAM_OFF := "streamoff"
  const TO_LEFT := "left"
  const TO_RIGHT := "right"
  const FORWARD := "forward"
  const BACKWARD := "back"
  const UPWARD := "up"
  const DOWNWARD := "down"
  const ROTATE_CLOCKWISE := "cw"
  const ROTATE_COUNTER_CLOCKWISE := "ccw"
  const FLIP := "flip"
  const GO := "go"
  const CURVE := "curve"
  const SPEED := "speed"
  const WIFI := "wifi"
  const RC := "rc"

  /**
   * Inches to centimetres, rounded half up as `Math.round` does. The source
   * multiplies by the double 2.54 and rounds a float; this is the exact
   * rational version of that computation.
   */
  function ToMetric(x: Int32, imperial: bool): (m: int)
    ensures !imperial ==> m == x
    ensures imperial ==> m * 100 <= x * 254 + 50 < m * 100 + 100
  {
    if !imperial then x else (x * 254 + 50) / 100
  }

  predicate IsValidDistance(x: Int32, imperial: bool): (ok: bool)
    ensures ok <==> 20 <= ToMetric(x, imperial) <= 500
  {
    DISTANCE_MIN <= ToMetric(x, imperial) <= DISTANCE_MAX
  }

  predicate IsValidRotation(x: Int32): (ok: bool)
    ensures ok <==> 1 <= x <= 3600
  {
    ROTATION_MIN <= x <= ROTATION_MAX
  }

  predicate IsValidSpeed(x: Int32): (ok: bool)
    ensures ok <==> 1 <= x <= 100
  {
    SPEED_MIN <= x <= SPEED_MAX
  }

  predicate IsValidRc(x: Int32): (ok: bool)
    ensures ok <==> -100 <= x <= 100
  {
    RC_MIN <= x <= RC_MAX
  }

  /** With the metric mode the source always runs in, a distance is checked as given. */
  lemma MetricDistanceRange(d: Int32)
    ensures IsValidDistance(d, false) <==> 20 <= d <= 500
  {
  }

  /** In imperial mode the accepted inch values are exactly 8 through 197. */
  lemma ImperialDistanceRange(d: Int32)
    ensures IsValidDistance(d, true) <==> 8 <= d <= 197
  {
    var m := ToMetric(d, true);
    assert m * 100 <= d * 254 + 50 < m * 100 + 100;
    if 8 <= d <= 197 {
      assert 2082 <= d * 254 + 50 <= 50088;
    }
  }

  datatype MoveDirection = ToLeft | ToRight | Forward | Back | Upward | Downward

  datatype Rotation = Clockwise | CounterClockwise

  /** The read-only queries of enum `Info`. */
  datatype Info = Speed | Battery | Time | Height | Temp | Attitude | Baro | Acceleration | Tof | Wifi

  /** The flip codes of enum `FlipDirection`. */
  datatype FlipDirection =
    | FlipLeft | FlipRight | FlipForward | FlipBackward
    | FlipBackLeft | FlipBackRight | FlipFrontLeft | FlipFrontRight

  function MoveKeyword(d: MoveDirection): string {
    match d
    case ToLeft => TO_LEFT
    case ToRight => TO_RIGHT
    case Forward => FORWARD
    case Back => BACKWARD
    case Upward => UPWARD
    case Downward => DOWNWARD
  }

  function RotationKeyword(r: Rotation): string {
    match r
    case Clockwise => ROTATE_CLOCKWISE
    case CounterClockwise => ROTATE_COUNTER_CLOCKWISE
  }

  /** A query is one word ending in '?'. */
  function InfoQuery(i: Info): (q: string)
    ensures |q| >= 2 && q[|q| - 1] == '?' && ' ' !in q
  {
    match i
    case Speed => "speed?"
    case Battery => "battery?"
    case Time => "time?"
    case Height => "height?"
    case Temp => "temp?"
    case Attitude => "attitude?"
    case Baro => "baro?"
    case Acceleration => "acceleration?"
    case Tof => "tof?"
    case Wifi => "wifi?"
  }

  /** A flip code is one or two letters, never a space. */
  function FlipCode(f: FlipDirection): (c: string)
    ensures 1 <= |c| <= 2 && ' ' !in c
  {
    match f
    case FlipLeft => "l"
    case FlipRight => "r"
    case FlipForward => "f"
    case FlipBackward => "b"
    case FlipBackLeft => "bl"
    case FlipBackRight => "rb"
    case FlipFrontLeft => "fl"
    case FlipFrontRight => "fr"
  }

  /**
   * The public controller operations that build one command each. The
   * handshake and `takeOff` are not here: they are stateful and belong to the
   * controller class.
   */
  datatype Request =
    | Land
    | Emergency
    | StreamOn
    | StreamOff
    | Move(direction: MoveDirection, distance: Int32)
    | Rotate(rotation: Rotation, degrees: Int32)
    | Flip(flip: FlipDirection)
    | Go(x: Int32, y: Int32, z: Int32, speed: Int32)
    | Curve(x1: Int32, x2: Int32, y1: Int32, y2: Int32, z1: Int32, z2: Int32, speed: Int32)
    | SetSpeed(speed: Int32)
    | SetWifiSsidPass(ssid: string, pass: string)
    | Rc(leftRight: Int32, forwardBack: Int32, upDown: Int32, yaw: Int32)
    | Read(info: Info)

  /** The validation each operation performs before it sends anything. */
  predicate Accepted(req: Request, imperial: bool) {
    match req
    case Move(_, d) => IsValidDistance(d, imperial)
    case Rotate(_, deg) => IsValidRotation(deg)
    case Go(x, y, z, _) =>
      IsValidDistance(x, imperial) && IsValidDistance(y, imperial) && IsValidDistance(z, imperial)
    case Curve(x1, x2, y1, y2, z1, z2, s) =>
      IsValidDistance(x1, imperial) && IsValidDistance(x2, imperial) &&
      IsValidDistance(y1, imperial) && IsValidDistance(y2, imperial) &&
      IsValidDistance(z1, imperial) && IsValidDistance(z2, imperial) &&
      IsValidSpeed(s)
    case SetSpeed(s) => IsValidSpeed(s)
    case Rc(lr, fb, ud, _) => IsValidRc(lr) && IsValidRc(fb) && IsValidRc(ud)
    case _ => true
  }

  /** The space-separated words of each operation's string template. */
  function Words(req: Request): (w: seq<string>)
    ensures |w| >= 1
  {
    match req
    case Land => [LAND]
    case Emergency => [EMERGENCY]
    case StreamOn => [STREAM_ON]
    case StreamOff => [STREAM_OFF]
    case Move(d, n) => [MoveKeyword(d), IntToString(n)]
    case Rotate(r, n) => [RotationKeyword(r), IntToString(n)]
    case Flip(f) => [FLIP, FlipCode(f)]
    case Go(x, y, z, s) => [GO, IntToString(x), IntToString(y), IntToString(z), IntToString(s)]
    case Curve(x1, x2, y1, y2, z1, z2, s) =>
      [CURVE, IntToString(x1), IntToString(y1), IntToString(z1),
       IntToString(x2), IntToString(y2), IntToString(z2), IntToString(s)]
    case SetSpeed(s) => [SPEED, IntToString(s)]
    case SetWifiSsidPass(ssid, pass) => [WIFI, ssid, pass]
    case Rc(lr, fb, ud, yaw) => [RC, IntToString(lr), IntToString(fb), IntToString(ud), IntToString(yaw)]
    case Read(i) => [InfoQuery(i)]
  }

  /**
   * What the operation hands to the command channel: the command text when
   * the arguments pass validation, nothing otherwise. Every command that is
   * sent starts with a non-empty keyword, so the channel's "No command"
   * branch is never reached through a public operation.
   */
  function Render(req: Request, imperial: bool): (r: Option<string>)
    ensures r.Some? <==> Accepted(req, imperial)
    ensures r.Some? ==> |r.value| > 0 && StartsWith(r.value, Words(req)[0])
  {
    if Accepted(req, imperial) then Some(Join(Words(req), ' ')) else None
  }

  // Concrete statements of the send rules, one per operation family.

  lemma JoinTwo(a: string, b: string)
    ensures Join([a, b], ' ') == a + " " + b
  {
    assert [a, b][1..] == [b];
  }

  /** Joining one more word in front adds that word and a space. */
  lemma JoinCons(w: string, ws: seq<string>)
    requires |ws| >= 1
    ensures Join([w] + ws, ' ') == w + " " + Join(ws, ' ')
  {
    assert ([w] + ws)[1..] == ws;
  }

  lemma JoinThree(a: string, b: string, c: string)
    ensures Join([a, b, c], ' ') == a + " " + b + " " + c
  {
    JoinTwo(b, c);
    JoinCons(a, [b, c]);
    assert [a] + [b, c] == [a, b, c];
  }

  lemma JoinFour(a: string, b: string, c: string, d: string)
    ensures Join([a, b, c, d], ' ') == a + " " + b + " " + c + " " + d
  {
    JoinThree(b, c, d);
    JoinCons(a, [b, c, d]);
    assert [a] + [b, c, d] == [a, b, c, d];
  }

  lemma JoinFive(a: string, b: string, c: string, d: string, e: string)
    ensures Join([a, b, c, d, e], ' ') == a + " " + b + " " + c + " " + d + " " + e
  {
    JoinFour(b, c, d, e);
    JoinCons(a, [b, c, d, e]);
    assert [a] + [b, c, d, e] == [a, b, c, d, e];
  }

  lemma JoinSix(a: string, b: string, c: string, d: string, e: string, f: string)
    ensures Join([a, b, c, d, e, f], ' ') == a + " " + b + " " + c + " " + d + " " + e + " " + f
  {
    JoinFive(b, c, d, e, f);
    JoinCons(a, [b, c, d, e, f]);
    assert [a] + [b, c, d, e, f] == [a, b, c, d, e, f];
  }

  lemma JoinSeven(a: string, b: string, c: string, d: string, e: string, f: string, g: string)
    ensures Join([a, b, c, d, e, f, g], ' ') ==
      a + " " + b + " " + c + " " + d + " " + e + " " + f + " " + g
  {
    JoinSix(b, c, d, e, f, g);
    JoinCons(a, [b, c, d, e, f, g]);
    assert [a] + [b, c, d, e, f, g] == [a, b, c, d, e, f, g];
  }

  lemma JoinEight(a: string, b: string, c: string, d: string, e: string, f: string, g: string, h: string)
    ensures Join([a, b, c, d, e, f, g, h], ' ') ==
      a + " " + b + " " + c + " " + d + " " + e + " " + f + " " + g + " " + h
  {
    JoinSeven(b, c, d, e, f, g, h);
    JoinCons(a, [b, c, d, e, f, g, h]);
    assert [a] + [b, c, d, e, f, g, h] == [a, b, c, d, e, f, g, h];
  }

  lemma MoveSendsIff(d: MoveDirection, n: Int32)
    ensures Render(Move(d, n), false) ==
      if 20 <= n <= 500 then Some(MoveKeyword(d) + " " + IntToString(n)) else None
  {
    JoinTwo(MoveKeyword(d), IntToString(n));
  }

  lemma RotateSendsIff(r: Rotation, n: Int32)
    ensures Render(Rotate(r, n), false) ==
      if 1 <= n <= 3600 then Some(RotationKeyword(r) + " " + IntToString(n)) else None
  {
    JoinTwo(RotationKeyword(r), IntToString(n));
  }

  lemma SetSpeedSendsIff(s: Int32)
    ensures Render(SetSpeed(s), false) == if 1 <= s <= 100 then Some(SPEED + " " + IntToString(s)) else None
  {
    JoinTwo(SPEED, IntToString(s));
  }

  /** `go` checks only its three distances: the speed never decides whether it is sent. */
  lemma GoIgnoresSpeed(x: Int32, y: Int32, z: Int32, s: Int32, s': Int32)
    ensures Render(Go(x, y, z, s), false).Some? <==> (20 <= x <= 500 && 20 <= y <= 500 && 20 <= z <= 500)
    ensures Render(Go(x, y, z, s), false).Some? == Render(Go(x, y, z, s'), false).Some?
    ensures Render(Go(x, y, z, s), false).Some? ==>
      Render(Go(x, y, z, s), false).value ==
        GO + " " + IntToString(x) + " " + IntToString(y) + " " + IntToString(z) + " " + IntToString(s)
  {
    JoinFive(GO, IntToString(x), IntToString(y), IntToString(z), IntToString(s));
  }

  /** `curve` checks all six distances and the speed, and emits x1 y1 z1 x2 y2 z2. */
  lemma CurveSendsIff(x1: Int32, x2: Int32, y1: Int32, y2: Int32, z1: Int32, z2: Int32, s: Int32)
    ensures Render(Curve(x1, x2, y1, y2, z1, z2, s), false).Some? <==>
      (20 <= x1 <= 500 && 20 <= x2 <= 500 && 20 <= y1 <= 500 && 20 <= y2 <= 500 &&
       20 <= z1 <= 500 && 20 <= z2 <= 500 && 1 <= s <= 100)
    ensures Render(Curve(x1, x2, y1, y2, z1, z2, s), false).Some? ==>
      Render(Curve(x1, x2, y1, y2, z1, z2, s), false).value ==
        CURVE + " " + IntToString(x1) + " " + IntToString(y1) + " " + IntToString(z1) + " " +
        IntToString(x2) + " " + IntToString(y2) + " " + IntToString(z2) + " " + IntToString(s)
  {
    JoinEight(CURVE, IntToString(x1), IntToString(y1), IntToString(z1),
              IntToString(x2), IntToString(y2), IntToString(z2), IntToString(s));
  }

  /** `sendRc` checks three axes; the yaw is sent whatever its value. */
  lemma RcIgnoresYaw(lr: Int32, fb: Int32, ud: Int32, yaw: Int32)
    ensures Render(Rc(lr, fb, ud, yaw), false).Some? <==>
      (-100 <= lr <= 100 && -100 <= fb <= 100 && -100 <= ud <= 100)
    ensures Render(Rc(lr, fb, ud, yaw), false).Some? ==>
      Render(Rc(lr, fb, ud, yaw), false).value ==
        RC + " " + IntToString(lr) + " " + IntToString(fb) + " " + IntToString(ud) + " " + IntToString(yaw)
  {
    JoinFive(RC, IntToString(lr), IntToString(fb), IntToString(ud), IntToString(yaw));
  }

  /** Fixed-keyword commands, flips, queries and Wi-Fi settings are always sent. */
  lemma UncheckedAlwaysSent(req: Request, imperial: bool)
    requires req.Land? || req.Emergency? || req.StreamOn? || req.StreamOff? ||
             req.Flip? || req.SetWifiSsidPass? || req.Read?
    ensures Render(req, imperial).Some?
  {
  }

  /** In imperial mode the check uses the converted value but the original number is sent. */
  lemma ImperialSendsUnconverted(d: MoveDirection, n: Int32)
    requires 8 <= n <= 197
    ensures Render(Move(d, n), true) == Some(MoveKeyword(d) + " " + IntToString(n))
  {
    ImperialDistanceRange(n);
    JoinTwo(MoveKeyword(d), IntToString(n));
  }

  /** The Wi-Fi command is not sanitised: a space inside the SSID is indistinguishable from the separator. */
  lemma WifiAmbiguous()
    ensures Render(SetWifiSsidPass("a b", "c"), false) == Render(SetWifiSsidPass("a", "b c"), false)
  {
    JoinThree(WIFI, "a b", "c");
    JoinThree(WIFI, "a", "b c");
    assert WIFI + " " + "a b" + " " + "c" == WIFI + " " + "a" + " " + "b c";
  }

  // An independent reader of the wire format.

  function ParseInt32(s: string): (r: Option<Int32>)
    ensures r.Some? ==> ParseInt(s) == Some(r.value as int)
  {
    match ParseInt(s)
    case Some(n) => if -0x8000_0000 <= n < 0x8000_0000 then Some(n as Int32) else None
    case None => None
  }

  function DecodeInfo(w: string): Option<Info> {
    if w == "speed?" then Some(Speed)
    else if w == "battery?" then Some(Battery)
    else if w == "time?" then Some(Time)
    else if w == "height?" then Some(Height)
    else if w == "temp?" then Some(Temp)
    else if w == "attitude?" then Some(Attitude)
    else if w == "baro?" then Some(Baro)
    else if w == "acceleration?" then Some(Acceleration)
    else if w == "tof?" then Some(Tof)
    else if w == "wifi?" then Some(Wifi)
    else None
  }

  function DecodeFlip(w: string): Option<FlipDirection> {
    if w == "l" then Some(FlipLeft)
    else if w == "r" then Some(FlipRight)
    else if w == "f" then Some(FlipForward)
    else if w == "b" then Some(FlipBackward)
    else if w == "bl" then Some(FlipBackLeft)
    else if w == "rb" then Some(FlipBackRight)
    else if w == "fl" then Some(FlipFrontLeft)
    else if w == "fr" then Some(FlipFrontRight)
    else None
  }

  function DecodeMove(w: string): Option<MoveDirection> {
    if w == TO_LEFT then Some(ToLeft)
    else if w == TO_RIGHT then Some(ToRight)
    else if w == FORWARD then Some(Forward)
    else if w == BACKWARD then Some(Back)
    else if w == UPWARD then Some(Upward)
    else if w == DOWNWARD then Some(Downward)
    else None
  }

  /** Parses every word as an `Int`, or fails. */
  function ParseArguments(ws: seq<string>): (r: Option<seq<Int32>>)
    ensures r.Some? ==> |r.value| == |ws|
  {
    if |ws| == 0 then Some([])
    else
      match ParseInt32(ws[0])
      case None => None
      case Some(n) =>
        match ParseArguments(ws[1..])
        case None => None
        case Some(rest) => Some([n] + rest)
  }

  function DecodeWords(w: seq<string>): Option<Request>
    requires |w| >= 1
  {
    var kw := w[0];
    if |w| == 1 then
      if kw == LAND then Some(Land)
      else if kw == EMERGENCY then Some(Emergency)
      else if kw == STREAM_ON then Some(StreamOn)
      else if kw == STREAM_OFF then Some(StreamOff)
      else match DecodeInfo(kw)
        case Some(i) => Some(Read(i))
        case None => None
    else if |w| == 3 && kw == WIFI then
      Some(SetWifiSsidPass(w[1], w[2]))
    else if |w| == 2 && kw == FLIP then
      match DecodeFlip(w[1])
      case Some(f) => Some(Flip(f))
      case None => None
    else
      match ParseArguments(w[1..])
      case None => None
      case Some(a) => DecodeNumeric(kw, a)
  }

  /** A keyword followed by integer arguments. */
  function DecodeNumeric(kw: string, a: seq<Int32>): Option<Request> {
    if |a| == 1 && kw == SPEED then Some(SetSpeed(a[0]))
    else if |a| == 1 && kw == ROTATE_CLOCKWISE then Some(Rotate(Clockwise, a[0]))
    else if |a| == 1 && kw == ROTATE_COUNTER_CLOCKWISE then Some(Rotate(CounterClockwise, a[0]))
    else if |a| == 1 && DecodeMove(kw).Some? then Some(Move(DecodeMove(kw).value, a[0]))
    else if |a| == 4 && kw == GO then Some(Go(a[0], a[1], a[2], a[3]))
    else if |a| == 4 && kw == RC then Some(Rc(a[0], a[1], a[2], a[3]))
    else if |a| == 7 && kw == CURVE then Some(Curve(a[0], a[3], a[1], a[4], a[2], a[5], a[6]))
    else None
  }

  /** Reads a command back from the text on the wire. */
  function Decode(command: string): Option<Request> {
    DecodeWords(Split(command, ' '))
  }

  /** A Wi-Fi request is readable when neither credential contains the separator. */
  predicate Unambiguous(req: Request) {
    req.SetWifiSsidPass? ==> ' ' !in req.ssid && ' ' !in req.pass
  }

  /** The decimal words of a list of integers. */
  function Numerals(ns: seq<Int32>): (ws: seq<string>)
    ensures |ws| == |ns| && forall i :: 0 <= i < |ns| ==> ws[i] == IntToString(ns[i])
    decreases |ns|
  {
    if |ns| == 0 then [] else [IntToString(ns[0])] + Numerals(ns[1..])
  }

  /** A numeral parses back to its 32-bit integer. */
  lemma ParseInt32RoundTrip(n: Int32)
    ensures ParseInt32(IntToString(n)) == Some(n)
  {
    IntRoundTrip(n);
  }

  /** Parsing a list of words is parsing its head, then its tail. */
  lemma ParseArgumentsCons(w: string, ws: seq<string>, n: Int32, rest: seq<Int32>)
    requires ParseInt32(w) == Some(n) && ParseArguments(ws) == Some(rest)
    ensures ParseArguments([w] + ws) == Some([n] + rest)
  {
    assert ([w] + ws)[1..] == ws;
  }

  lemma {:induction false} ParseArgumentsRoundTrip(ns: seq<Int32>)
    ensures ParseArguments(Numerals(ns)) == Some(ns)
    decreases |ns|
  {
    if |ns| > 0 {
      ParseInt32RoundTrip(ns[0]);
      ParseArgumentsRoundTrip(ns[1..]);
      ParseArgumentsCons(IntToString(ns[0]), Numerals(ns[1..]), ns[0], ns[1..]);
      assert [ns[0]] + ns[1..] == ns;
    }
  }

  lemma NoSpaceInWords(req: Request)
    requires Unambiguous(req)
    ensures NoSeparator(Words(req), ' ')
  {
    var w := Words(req);
    forall i | 0 <= i < |w|
      ensures ' ' !in w[i]
    {
      if i == 0 {
        KeywordsWithoutSpace(req);
      } else if req.Move? || req.Rotate? || req.SetSpeed? {
        OneNumeralWithoutSpace(req, i);
      } else if req.Go? || req.Rc? {
        FourNumeralsWithoutSpace(req, i);
      } else if req.Curve? {
        SevenNumeralsWithoutSpace(req, i);
      }
    }
  }

  /** The numeral of a one-argument command has no space. */
  lemma OneNumeralWithoutSpace(req: Request, i: nat)
    requires (req.Move? || req.Rotate? || req.SetSpeed?) && 1 <= i < |Words(req)|
    ensures ' ' !in Words(req)[i]
  {
    match req
    case Move(_, n) =>
      assert Words(req)[i] == IntToString(n);
    case Rotate(_, n) =>
      assert Words(req)[i] == IntToString(n);
    case SetSpeed(n) =>
      assert Words(req)[i] == IntToString(n);
  }

  /** The numerals of `go` and `rc` have no space. */
  lemma FourNumeralsWithoutSpace(req: Request, i: nat)
    requires (req.Go? || req.Rc?) && 1 <= i < |Words(req)|
    ensures ' ' !in Words(req)[i]
  {
    match req
    case Go(x, y, z, speed) =>
      assert Words(req)[i] == IntToString([x, y, z, speed][i - 1]);
    case Rc(lr, fb, ud, yaw) =>
      assert Words(req)[i] == IntToString([lr, fb, ud, yaw][i - 1]);
  }

  /** The numerals of `curve` have no space. */
  lemma SevenNumeralsWithoutSpace(req: Request, i: nat)
    requires req.Curve? && 1 <= i < |Words(req)|
    ensures ' ' !in Words(req)[i]
  {
    var ns := [req.x1, req.y1, req.z1, req.x2, req.y2, req.z2, req.speed];
    assert Words(req)[i] == IntToString(ns[i - 1]);
  }

  /** Every keyword is a single word. */
  lemma KeywordsWithoutSpace(req: Request)
    ensures ' ' !in Words(req)[0]
  {
    match req
    case Move(d, _) =>
      assert ' ' !in MoveKeyword(d);
    case Rotate(r, _) =>
      assert ' ' !in RotationKeyword(r);
    case _ =>
  }

  /** A keyword and decimal numerals decode as the keyword applied to the numbers. */
  lemma DecodeNumerals(kw: string, ns: seq<Int32>)
    requires |ns| >= 1 && !(|ns| == 2 && kw == WIFI) && !(|ns| == 1 && kw == FLIP)
    ensures DecodeWords([kw] + Numerals(ns)) == DecodeNumeric(kw, ns)
  {
    var w := [kw] + Numerals(ns);
    assert w[0] == kw && |w| == |ns| + 1;
    assert w[1..] == Numerals(ns);
    ParseArgumentsRoundTrip(ns);
    assert ParseArguments(w[1..]) == Some(ns);
  }

  lemma DecodeOneArgument(req: Request, n: Int32)
    requires (req.Move? && req.distance == n) || (req.Rotate? && req.degrees == n) || req == SetSpeed(n)
    ensures DecodeWords(Words(req)) == Some(req)
  {
    var w := Words(req);
    assert w == [w[0]] + Numerals([n]);
    DecodeNumerals(w[0], [n]);
  }

  lemma DecodeFourArguments(req: Request, ns: seq<Int32>)
    requires |ns| == 4
    requires req == Go(ns[0], ns[1], ns[2], ns[3]) || req == Rc(ns[0], ns[1], ns[2], ns[3])
    ensures DecodeWords(Words(req)) == Some(req)
  {
    var w := Words(req);
    if req.Go? {
      assert w == [GO] + Numerals(ns);
      DecodeNumerals(GO, ns);
    } else {
      assert w == [RC] + Numerals(ns);
      DecodeNumerals(RC, ns);
    }
  }

  lemma DecodeCurve(req: Request)
    requires req.Curve?
    ensures DecodeWords(Words(req)) == Some(req)
  {
    var w := Words(req);
    var ns: seq<Int32> := [req.x1, req.y1, req.z1, req.x2, req.y2, req.z2, req.speed];
    assert w == [CURVE] + Numerals(ns);
    DecodeNumerals(CURVE, ns);
  }

  /** Decoding the words of a request gives that request back. */
  lemma DecodeWordsOfRequest(req: Request)
    ensures DecodeWords(Words(req)) == Some(req)
  {
    match req {
      case Move(_, n) => DecodeOneArgument(req, n);
      case Rotate(_, n) => DecodeOneArgument(req, n);
      case SetSpeed(n) => DecodeOneArgument(req, n);
      case Go(x, y, z, s) => DecodeFourArguments(req, [x, y, z, s]);
      case Rc(lr, fb, ud, yaw) => DecodeFourArguments(req, [lr, fb, ud, yaw]);
      case Curve(_, _, _, _, _, _, _) => DecodeCurve(req);
      case _ =>
    }
  }

  /** The wire text of every accepted request reads back as that request. */
  lemma DecodeRender(req: Request, imperial: bool)
    requires Unambiguous(req) && Render(req, imperial).Some?
    ensures Decode(Render(req, imperial).value) == Some(req)
  {
    NoSpaceInWords(req);
    SplitJoin(Words(req), ' ');
    DecodeWordsOfRequest(req);
  }

  /** Hence two different accepted requests never put the same text on the wire. */
  lemma RenderInjective(a: Request, b: Request, imperial: bool)
    requires Unambiguous(a) && Unambiguous(b)
    requires Render(a, imperial).Some? && Render(a, imperial) == Render(b, imperial)
    ensures a == b
  {
    DecodeRender(a, imperial);
    DecodeRender(b, imperial);
  }
}
