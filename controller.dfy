/**
 * The stateful half of the command client: the socket, the "initialized"
 * flag set by the `command` handshake, and `sendCommand`, whose early
 * returns and error translation decide what goes on the wire and what string
 * comes back.
 *
 * The network is not modelled: each exchange's outcome is a parameter
 * (`Exchange`), and `sent` records the datagrams put on the command channel.
 */
module Controller {
  import opened Wrappers
  import opened Text
  import opened Commands

  const START := "command"
  const TAKE_OFF := "takeoff"
  const OK := "ok"
  const ERROR := "error"

  // The strings `sendCommand` returns instead of a reply.
  const NO_COMMAND := "No command"
  const NO_CONNECTED := "No connected"
  const FAILED := "Error"

  const CONNECT_ERROR := "Unable to connect Tello"

  /** Size of the reply buffer each exchange allocates. */
  const RECEIVE_SIZE := 256

  /**
   * The `lateinit` socket field: never assigned, or a socket that may be
   * connected and may have been closed. A closed socket keeps reporting the
   * connection state it had, as Java's `DatagramSocket.isConnected` does.
   */
  datatype Socket = Unassigned | Assigned(connected: bool, closed: bool)

  /** What the network does with one request: the send raises, the receive raises, or a reply arrives. */
  datatype Exchange = SendFails | ReceiveFails | Reply(payload: string)

  /** The two callbacks of the connection listener. */
  datatype ConnectionEvent = TelloConnected | ErrorConnectingTello(message: string)

  function Zeros(n: nat): (z: string)
    ensures |z| == n && forall i :: 0 <= i < n ==> z[i] == '\0'
  {
    seq(n, _ => '\0')
  }

  /**
   * The reply as `String(receivePacket.data)` decodes it: the whole fresh
   * 256-byte buffer, so the reply truncated to 256 characters and padded
   * with NULs. Characters stand for bytes.
   */
  function Received(payload: string): (r: string)
    ensures |r| == RECEIVE_SIZE
    ensures |payload| <= RECEIVE_SIZE ==> r[..|payload|] == payload
    ensures |payload| >= RECEIVE_SIZE ==> r == payload[..RECEIVE_SIZE]
    ensures forall i :: |payload| <= i < RECEIVE_SIZE ==> r[i] == '\0'
  {
    if |payload| >= RECEIVE_SIZE then payload[..RECEIVE_SIZE]
    else payload + Zeros(RECEIVE_SIZE - |payload|)
  }

  /** Whether `sendCommand` puts the command on the wire. */
  predicate Transmits(command: string, socket: Socket, exchange: Exchange) {
    |command| > 0 && socket.Assigned? && socket.connected && !socket.closed && !exchange.SendFails?
  }

  /**
   * The string `sendCommand` returns. Because a genuine reply is always the
   * 256-character buffer, each of the three error strings is returned exactly
   * in its own situation and can never be confused with a reply.
   */
  function Response(command: string, socket: Socket, exchange: Exchange): (r: string)
    ensures r == NO_COMMAND <==> |command| == 0
    ensures r == NO_CONNECTED <==> |command| > 0 && socket.Assigned? && !socket.connected
    ensures r == FAILED <==>
      |command| > 0 &&
      (socket.Unassigned? || (socket.connected && (socket.closed || !exchange.Reply?)))
    ensures |r| == RECEIVE_SIZE <==> Transmits(command, socket, exchange) && exchange.Reply?
  {
    if |command| == 0 then NO_COMMAND
    else if socket.Unassigned? then FAILED
    else if !socket.connected then NO_CONNECTED
    else if socket.closed then FAILED
    else
      match exchange
      case Reply(p) => Received(p)
      case _ => FAILED
  }

  /** How one handshake response changes the flag. */
  function HandshakeUpdate(initialized: bool, response: string): (r: bool)
    ensures StartsWith(response, OK) ==> r
    ensures StartsWith(response, ERROR) ==> !r
    ensures !StartsWith(response, OK) && !StartsWith(response, ERROR) ==> r == initialized
  {
    if StartsWith(response, OK) then
      assert response[0] == OK[0] != ERROR[0];
      true
    else if StartsWith(response, ERROR) then false
    else initialized
  }

  /** The strings `sendCommand` substitutes for a reply never change the flag. */
  lemma ChannelErrorsKeepFlag(initialized: bool)
    ensures HandshakeUpdate(initialized, NO_COMMAND) == initialized
    ensures HandshakeUpdate(initialized, NO_CONNECTED) == initialized
    ensures HandshakeUpdate(initialized, FAILED) == initialized
  {
    assert NO_COMMAND[0] == NO_CONNECTED[0] == 'N' && FAILED[0] == 'E';
    assert OK[0] == 'o' && ERROR[0] == 'e';
    assert !StartsWith(NO_COMMAND, OK) && !StartsWith(NO_COMMAND, ERROR);
    assert !StartsWith(NO_CONNECTED, OK) && !StartsWith(NO_CONNECTED, ERROR);
    assert !StartsWith(FAILED, OK) && !StartsWith(FAILED, ERROR);
  }

  /** Padding the reply with NULs does not change which prefix it has. */
  lemma ReceivedKeepsPrefix(payload: string, prefix: string)
    requires |prefix| <= RECEIVE_SIZE && '\0' !in prefix
    ensures StartsWith(Received(payload), prefix) <==> StartsWith(payload, prefix)
  {
    var r := Received(payload);
    if |payload| < |prefix| {
      assert r[..|prefix|][|payload|] == '\0' != prefix[|payload|];
    }
    if StartsWith(payload, prefix) {
      assert r[..|prefix|] == payload[..|prefix|];
    }
    if |payload| >= |prefix| && StartsWith(r, prefix) {
      assert r[..|prefix|] == payload[..|prefix|];
    }
  }

  /**
   * The handshake in terms of the vehicle's reply: an `ok` reply sets the
   * flag, an `error` reply clears it, and everything else (no socket, an
   * unconnected or closed socket, a failed send or receive, any other reply)
   * leaves it as it was.
   */
  lemma HandshakeOutcome(initialized: bool, socket: Socket, exchange: Exchange)
    ensures HandshakeUpdate(initialized, Response(START, socket, exchange)) ==
      if Transmits(START, socket, exchange) && exchange.Reply? && StartsWith(exchange.payload, OK) then true
      else if Transmits(START, socket, exchange) && exchange.Reply? && StartsWith(exchange.payload, ERROR) then false
      else initialized
  {
    if Transmits(START, socket, exchange) && exchange.Reply? {
      ReceivedKeepsPrefix(exchange.payload, OK);
      ReceivedKeepsPrefix(exchange.payload, ERROR);
    } else {
      ChannelErrorsKeepFlag(initialized);
    }
  }

  class TelloController {
    var socket: Socket
    var isInitialized: bool
    /** Never set to true anywhere: the controller always works in centimetres. */
    var isImperial: bool
    /** The commands put on the command channel, oldest first. */
    var sent: seq<string>

    constructor ()
      ensures socket == Unassigned && !isInitialized && !isImperial && sent == []
    {
      socket := Unassigned;
      isInitialized := false;
      isImperial := false;
      sent := [];
    }

    /** One request/response exchange, with the early returns and the error translation. */
    method SendCommand(command: string, exchange: Exchange) returns (response: string)
      modifies this`sent
      ensures response == Response(command, socket, exchange)
      ensures sent == old(sent) + (if Transmits(command, socket, exchange) then [command] else [])
    {
      if |command| == 0 {
        return NO_COMMAND;
      }
      if socket.Unassigned? {
        // reading the uninitialised lateinit field throws
        return FAILED;
      }
      if !socket.connected {
        return NO_CONNECTED;
      }
      if socket.closed {
        // sending on a closed socket throws
        return FAILED;
      }
      match exchange {
        case SendFails =>
          response := FAILED;
        case ReceiveFails =>
          sent := sent + [command];
          response := FAILED;
        case Reply(p) =>
          sent := sent + [command];
          response := Received(p);
      }
    }

    /** The `command` handshake. */
    method Initialize(exchange: Exchange)
      modifies this`sent, this`isInitialized
      ensures isInitialized == HandshakeUpdate(old(isInitialized), Response(START, socket, exchange))
      ensures sent == old(sent) + (if Transmits(START, socket, exchange) then [START] else [])
    {
      var response := SendCommand(START, exchange);
      if StartsWith(response, OK) {
        isInitialized := true;
      } else if StartsWith(response, ERROR) {
        isInitialized := false;
      }
    }

    /**
     * Creates the socket (which fails when the local port cannot be bound),
     * connects it, runs the handshake and reports to the listener. A failed
     * handshake still reports a connection.
     */
    method Connect(bindOk: bool, connectOk: bool, handshake: Exchange) returns (event: ConnectionEvent)
      modifies this`socket, this`sent, this`isInitialized
      ensures event == if bindOk && connectOk then TelloConnected else ErrorConnectingTello(CONNECT_ERROR)
      ensures !bindOk ==> socket == old(socket)
      ensures bindOk ==> socket == Assigned(connectOk, false)
      ensures !(bindOk && connectOk) ==> sent == old(sent) && isInitialized == old(isInitialized)
      ensures bindOk && connectOk ==>
        sent == old(sent) + (if handshake.SendFails? then [] else [START]) &&
        isInitialized == HandshakeUpdate(old(isInitialized), Response(START, socket, handshake))
    {
      if !bindOk {
        return ErrorConnectingTello(CONNECT_ERROR);
      }
      socket := Assigned(false, false);
      if !connectOk {
        return ErrorConnectingTello(CONNECT_ERROR);
      }
      socket := Assigned(true, false);
      Initialize(handshake);
      event := TelloConnected;
    }

    /** Closes the socket; on a never-assigned socket the call throws to its caller. */
    method Disconnect() returns (thrown: bool)
      modifies this`socket
      ensures thrown <==> old(socket).Unassigned?
      ensures socket == if thrown then old(socket) else Assigned(old(socket).connected, true)
    {
      if socket.Unassigned? {
        return true;
      }
      socket := Assigned(socket.connected, true);
      thrown := false;
    }

    /**
     * Re-runs the handshake when the flag is false, then sends `takeoff`
     * whatever the handshake's outcome.
     */
    method TakeOff(handshake: Exchange, takeoff: Exchange)
      modifies this`sent, this`isInitialized
      ensures isInitialized == (old(isInitialized) || HandshakeUpdate(false, Response(START, socket, handshake)))
      ensures sent == old(sent)
        + (if !old(isInitialized) && Transmits(START, socket, handshake) then [START] else [])
        + (if Transmits(TAKE_OFF, socket, takeoff) then [TAKE_OFF] else [])
      ensures Transmits(TAKE_OFF, socket, takeoff) ==> |sent| > 0 && sent[|sent| - 1] == TAKE_OFF
    {
      if !isInitialized {
        Initialize(handshake);
      }
      var _ := SendCommand(TAKE_OFF, takeoff);
    }

    /** Every other public operation: validate, build the command, send it. */
    method Issue(req: Request, exchange: Exchange)
      modifies this`sent
      ensures Render(req, isImperial).None? ==> sent == old(sent)
      ensures Render(req, isImperial).Some? ==>
        sent == old(sent) +
          (if Transmits(Render(req, isImperial).value, socket, exchange) then [Render(req, isImperial).value] else [])
    {
      match Render(req, isImperial) {
        case None =>
        case Some(command) =>
          var _ := SendCommand(command, exchange);
      }
    }
  }

  /**
   * What a caller can rely on: once connected, a distance outside 20..500
   * sends nothing, a valid move sends exactly its command, and a second
   * takeoff after an `ok` handshake skips the handshake.
   */
  method ConnectedSession(reply: string)
  {
    var c := new TelloController();
    var event := c.Connect(true, true, Reply("ok"));
    assert event == TelloConnected;
    assert StartsWith(Response(START, c.socket, Reply("ok")), OK) by {
      ReceivedKeepsPrefix("ok", OK);
    }
    assert c.isInitialized;
    c.Issue(Move(ToLeft, 19), Reply(reply));
    assert c.sent == [START];
    assert !c.isImperial;
    c.Issue(Move(ToLeft, 20), Reply(reply));
    MoveSendsIff(ToLeft, 20);
    assert NatToString(2) == "2" && NatToString(20) == "20";
    assert IntToString(20) == "20";
    assert MoveKeyword(ToLeft) + " " + IntToString(20) == "left 20";
    assert c.sent == [START, "left 20"];
    c.TakeOff(SendFails, Reply(reply));
    assert c.sent == [START, "left 20", TAKE_OFF];
  }
}
