/**
 * The telemetry monitor: a flag that keeps the polling loop alive, the delay
 * between polls, and one 1024-byte receive buffer reused by every poll.
 *
 * The network and the coroutine are not modelled. The datagrams the socket
 * delivers are a parameter, in arrival order; the loop runs to completion
 * over them, and `notified` records what each iteration hands the listener.
 * Characters stand for bytes.
 */
module Monitor {
  import opened Wrappers
  import opened Text
  import opened Telemetry

  /** Kotlin's `Long`. */
  type Int64 = x: int | -0x8000_0000_0000_0000 <= x < 0x8000_0000_0000_0000

  const BUFFER_SIZE := 1024
  const DEFAULT_SCANNING_INTERVAL: Int64 := 2000

  /** One turn of the polling loop: the eight notifications, then the delay before the next turn. */
  datatype Iteration = Iteration(changes: seq<StateChange>, delay: Int64)

  /** A datagram as the packet keeps it: anything past the buffer's size is discarded. */
  function Truncate(datagram: string): (r: string)
    ensures |r| <= BUFFER_SIZE
    ensures |datagram| <= BUFFER_SIZE ==> r == datagram
    ensures |datagram| > BUFFER_SIZE ==> r == datagram[..BUFFER_SIZE]
  {
    if |datagram| <= BUFFER_SIZE then datagram else datagram[..BUFFER_SIZE]
  }

  /**
   * The buffer after `receive`: the datagram over its first bytes, the
   * older contents everywhere past the datagram's length.
   */
  function Overlay(buffer: seq<char>, datagram: string): (r: seq<char>)
    requires |buffer| == BUFFER_SIZE
    ensures |r| == BUFFER_SIZE
  {
    var d := Truncate(datagram);
    d + buffer[|d|..]
  }

  /** Byte by byte: the datagram's bytes first, the older contents after them. */
  lemma OverlayAt(buffer: seq<char>, datagram: string)
    requires |buffer| == BUFFER_SIZE
    ensures forall i :: 0 <= i < |Truncate(datagram)| ==> Overlay(buffer, datagram)[i] == datagram[i]
    ensures forall i :: |Truncate(datagram)| <= i < BUFFER_SIZE ==> Overlay(buffer, datagram)[i] == buffer[i]
  {
  }

  /** The buffer after receiving each datagram in turn. */
  function Overlays(buffer: seq<char>, datagrams: seq<string>): (r: seq<char>)
    requires |buffer| == BUFFER_SIZE
    ensures |r| == BUFFER_SIZE
    decreases |datagrams|
  {
    if |datagrams| == 0 then buffer
    else Overlay(Overlays(buffer, datagrams[..|datagrams| - 1]), datagrams[|datagrams| - 1])
  }

  /**
   * The text `readData` returns as written: `String(receivePacket.data)`
   * decodes the whole buffer, not just the bytes the datagram delivered.
   */
  function ReadDataAsWritten(buffer: seq<char>, datagram: string): (text: string)
    requires |buffer| == BUFFER_SIZE
    ensures |text| == BUFFER_SIZE
    ensures text[..|Truncate(datagram)|] == Truncate(datagram)
  {
    Overlay(buffer, datagram)
  }

  /** The text of the datagram alone: the first `receivePacket.length` bytes of the buffer. */
  function ReadData(buffer: seq<char>, datagram: string): (text: string)
    requires |buffer| == BUFFER_SIZE
    ensures text == Truncate(datagram)
  {
    Overlay(buffer, datagram)[..|Truncate(datagram)|]
  }

  /** What the listener receives in the iteration that reads `text`. */
  function Poll(text: string, parse: NumberParser, interval: Int64): (it: Iteration)
    ensures |it.changes| == 8 && it.delay == interval
  {
    Iteration(CheckParameters(ReadParameters(text, parse)), interval)
  }

  /** The iterations of the loop over the delivered datagrams, each read on its own. */
  function Polls(datagrams: seq<string>, parse: NumberParser, interval: Int64): (its: seq<Iteration>)
    ensures |its| == |datagrams|
    ensures forall i :: 0 <= i < |datagrams| ==> its[i] == Poll(Truncate(datagrams[i]), parse, interval)
    decreases |datagrams|
  {
    if |datagrams| == 0 then []
    else
      var prefix := datagrams[..|datagrams| - 1];
      assert forall i :: 0 <= i < |prefix| ==> prefix[i] == datagrams[i];
      Polls(prefix, parse, interval) + [Poll(Truncate(datagrams[|datagrams| - 1]), parse, interval)]
  }

  /** The buffer once datagrams 0 through `i` have been received into it. */
  function BufferAfter(buffer: seq<char>, datagrams: seq<string>, i: nat): (r: seq<char>)
    requires |buffer| == BUFFER_SIZE && i < |datagrams|
    ensures |r| == BUFFER_SIZE
  {
    Overlays(buffer, datagrams[..i + 1])
  }

  /** Datagram `i` lands on the buffer the earlier ones left. */
  lemma BufferAfterStep(buffer: seq<char>, datagrams: seq<string>, i: nat)
    requires |buffer| == BUFFER_SIZE && i < |datagrams|
    ensures BufferAfter(buffer, datagrams, i) == Overlay(Overlays(buffer, datagrams[..i]), datagrams[i])
  {
    assert datagrams[..i + 1][..i] == datagrams[..i];
  }

  /** Receiving more datagrams later does not change the buffer after the earlier ones. */
  lemma BufferAfterPrefix(buffer: seq<char>, datagrams: seq<string>, n: nat, i: nat)
    requires |buffer| == BUFFER_SIZE && i < n <= |datagrams|
    ensures BufferAfter(buffer, datagrams[..n], i) == BufferAfter(buffer, datagrams, i)
  {
    assert datagrams[..n][..i + 1] == datagrams[..i + 1];
  }

  /**
   * The iterations of the loop as written: the i-th decodes the whole buffer
   * after datagrams 0 through i have been received into it.
   */
  function PollsAsWritten(buffer: seq<char>, datagrams: seq<string>, parse: NumberParser, interval: Int64): (its: seq<Iteration>)
    requires |buffer| == BUFFER_SIZE
    ensures |its| == |datagrams|
  {
    seq(|datagrams|, i requires 0 <= i < |datagrams| => Poll(BufferAfter(buffer, datagrams, i), parse, interval))
  }

  /** The i-th iteration as written decodes the buffer left by datagrams 0 through i. */
  lemma PollsAsWrittenAt(buffer: seq<char>, datagrams: seq<string>, i: nat, parse: NumberParser, interval: Int64)
    requires |buffer| == BUFFER_SIZE && i < |datagrams|
    ensures PollsAsWritten(buffer, datagrams, parse, interval)[i] == Poll(BufferAfter(buffer, datagrams, i), parse, interval)
  {
  }

  /** Receiving more datagrams later does not change the earlier iterations. */
  lemma PollsAsWrittenPrefix(buffer: seq<char>, datagrams: seq<string>, n: nat, j: nat, parse: NumberParser, interval: Int64)
    requires |buffer| == BUFFER_SIZE && j < n <= |datagrams|
    ensures PollsAsWritten(buffer, datagrams[..n], parse, interval)[j] == PollsAsWritten(buffer, datagrams, parse, interval)[j]
  {
    BufferAfterPrefix(buffer, datagrams, n, j);
  }

  /** Whatever the old buffer held, the corrected frame is the datagram itself. */
  lemma FrameDependsOnlyOnDatagram(buffer1: seq<char>, buffer2: seq<char>, datagram: string)
    requires |buffer1| == BUFFER_SIZE && |buffer2| == BUFFER_SIZE
    ensures ReadData(buffer1, datagram) == ReadData(buffer2, datagram)
    ensures Overlays(buffer1, [datagram])[..|Truncate(datagram)|] == Truncate(datagram)
  {
    assert [datagram][..0] == [];
  }

  /**
   * On every datagram that carries its own "\n\r", decoding the whole buffer
   * gives the map the datagram alone gives: the stale bytes sit after the
   * terminator, where they are never read.
   */
  lemma TerminatedDatagramsAgree(buffer: seq<char>, datagram: string, parse: NumberParser)
    requires |buffer| == BUFFER_SIZE
    requires FindTerminator(Truncate(datagram)).Some?
    ensures ReadParameters(ReadDataAsWritten(buffer, datagram), parse) ==
            ReadParameters(ReadData(buffer, datagram), parse)
  {
    var d := Truncate(datagram);
    assert ReadDataAsWritten(buffer, datagram) == d + buffer[|d|..];
    SuffixIgnored(d, buffer[|d|..], parse);
  }

  /**
   * One more datagram lands on the buffer the earlier ones left, and adds one
   * more iteration, which decodes that buffer.
   */
  lemma PollsAsWrittenStep(buffer: seq<char>, datagrams: seq<string>, i: nat, parse: NumberParser, interval: Int64)
    requires |buffer| == BUFFER_SIZE && i < |datagrams|
    ensures Overlays(buffer, datagrams[..i + 1]) == Overlay(Overlays(buffer, datagrams[..i]), datagrams[i])
    ensures PollsAsWritten(buffer, datagrams[..i + 1], parse, interval) ==
      PollsAsWritten(buffer, datagrams[..i], parse, interval) + [Poll(Overlay(Overlays(buffer, datagrams[..i]), datagrams[i]), parse, interval)]
  {
    BufferAfterStep(buffer, datagrams, i);
    PollsAsWrittenSnoc(buffer, datagrams, i, parse, interval);
  }

  /** The iterations after datagrams 0 through i are those before it, then one decoding the buffer it leaves. */
  lemma PollsAsWrittenSnoc(buffer: seq<char>, datagrams: seq<string>, i: nat, parse: NumberParser, interval: Int64)
    requires |buffer| == BUFFER_SIZE && i < |datagrams|
    ensures PollsAsWritten(buffer, datagrams[..i + 1], parse, interval) ==
      PollsAsWritten(buffer, datagrams[..i], parse, interval) + [Poll(BufferAfter(buffer, datagrams, i), parse, interval)]
  {
    var longer := PollsAsWritten(buffer, datagrams[..i + 1], parse, interval);
    var joined := PollsAsWritten(buffer, datagrams[..i], parse, interval) + [Poll(BufferAfter(buffer, datagrams, i), parse, interval)];
    forall j | 0 <= j <= i
      ensures longer[j] == joined[j]
    {
      PollsAsWrittenPrefix(buffer, datagrams, i + 1, j, parse, interval);
      if j < i {
        PollsAsWrittenPrefix(buffer, datagrams, i, j, parse, interval);
      }
    }
    assert longer == joined;
  }

  /**
   * Over a whole run: when every delivered datagram carries its own "\n\r",
   * the loop as written notifies exactly what reading each datagram on its
   * own would.
   */
  lemma TerminatedPollsAgree(buffer: seq<char>, datagrams: seq<string>, parse: NumberParser, interval: Int64)
    requires |buffer| == BUFFER_SIZE
    requires forall i :: 0 <= i < |datagrams| ==> FindTerminator(Truncate(datagrams[i])).Some?
    ensures PollsAsWritten(buffer, datagrams, parse, interval) == Polls(datagrams, parse, interval)
  {
    var written, alone := PollsAsWritten(buffer, datagrams, parse, interval), Polls(datagrams, parse, interval);
    forall i | 0 <= i < |datagrams|
      ensures written[i] == alone[i]
    {
      PollsAsWrittenAt(buffer, datagrams, i, parse, interval);
      BufferAfterStep(buffer, datagrams, i);
      TerminatedDatagramsAgree(Overlays(buffer, datagrams[..i]), datagrams[i], parse);
    }
  }

  /** Two fields with distinct keys give a map of both. */
  lemma TwoFieldMap(f0: string, f1: string, parse: NumberParser)
    requires Entry(f0, parse).Some? && Entry(f1, parse).Some?
    requires Entry(f0, parse).value.0 != Entry(f1, parse).value.0
    ensures Associate([f0, f1], parse) ==
      Some(map[Entry(f0, parse).value.0 := Entry(f0, parse).value.1,
               Entry(f1, parse).value.0 := Entry(f1, parse).value.1])
  {
    var e0, e1 := Entry(f0, parse).value, Entry(f1, parse).value;
    var m0: map<string, real> := map[];
    AssociateSnoc([], f0, parse);
    assert [] + [f0] == [f0];
    AssociateSnoc([f0], f1, parse);
    assert [f0] + [f1] == [f0, f1];
    assert Associate([f0, f1], parse) == Some(m0[e0.0 := e0.1][e1.0 := e1.1]);
  }

  /** The buffer after "bat:80;h:20\n\r" and then "bat:7", whatever it held before. */
  lemma StaleBuffer(buffer: seq<char>)
    requires |buffer| == BUFFER_SIZE
    ensures ReadDataAsWritten(Overlay(buffer, "bat:80;h:20\n\r"), "bat:7") ==
            "bat:70;h:20" + "\n\r" + buffer[13..]
  {
    var b0 := Overlay(buffer, "bat:80;h:20\n\r");
    var b1 := Overlay(b0, "bat:7");
    OverlayAt(buffer, "bat:80;h:20\n\r");
    OverlayAt(b0, "bat:7");
    var target := "bat:70;h:20" + "\n\r" + buffer[13..];
    assert |target| == BUFFER_SIZE;
    forall i | 0 <= i < BUFFER_SIZE
      ensures b1[i] == target[i]
    {
      if i < 5 {
        assert b1[i] == "bat:7"[i];
      } else if i < 13 {
        assert b1[i] == b0[i] == "bat:80;h:20\n\r"[i];
      } else {
        assert b1[i] == b0[i] == buffer[i];
      }
    }
  }

  /** The fields the stale buffer yields: the new datagram's bytes run into the old datagram's. */
  lemma StaleFields(buffer: seq<char>)
    requires |buffer| == BUFFER_SIZE
    ensures Fields(ReadDataAsWritten(Overlay(buffer, "bat:80;h:20\n\r"), "bat:7")) == Some(["bat:70", "h:20"])
  {
    StaleBuffer(buffer);
    var f0, f1 := "bat:70", "h:20";
    var text := f0 + [';'] + f1;
    assert text == "bat:70;h:20";
    FramedFields(text, buffer[13..]);
    SplitAtFirst(f0, f1, ';');
    SplitWithoutSeparator(f1, ';');
    assert Split(text, ';') == [f0, f1];
  }

  /** The two stale fields, one entry each. */
  lemma StaleEntries(parse: NumberParser)
    requires parse("70").Some? && parse("20").Some?
    ensures Entry("bat:70", parse) == Some((BATTERY, parse("70").value))
    ensures Entry("h:20", parse) == Some((HEIGHT, parse("20").value))
  {
    EntryOfField(BATTERY, "70", "", parse);
    EntryOfField(HEIGHT, "20", "", parse);
    assert BATTERY + ":" + "70" + "" == "bat:70";
    assert HEIGHT + ":" + "20" + "" == "h:20";
  }

  /** The stale fields decode to a battery level of 70 and a height of 20. */
  lemma StaleMap(buffer: seq<char>, parse: NumberParser)
    requires |buffer| == BUFFER_SIZE
    requires parse("70").Some? && parse("20").Some?
    ensures ReadParameters(ReadDataAsWritten(Overlay(buffer, "bat:80;h:20\n\r"), "bat:7"), parse) ==
            map[BATTERY := parse("70").value, HEIGHT := parse("20").value]
  {
    StaleFields(buffer);
    StaleEntries(parse);
    TwoFieldMap("bat:70", "h:20", parse);
  }

  /** "bat:7" read on its own has no terminator and decodes to the empty map. */
  lemma UnterminatedAlone(buffer: seq<char>, parse: NumberParser)
    requires |buffer| == BUFFER_SIZE
    ensures ReadParameters(ReadData(buffer, "bat:7"), parse) == map[]
  {
    var d := "bat:7";
    assert ReadData(buffer, d) == d;
    forall j
      ensures !TerminatorAt(d, j)
    {
      if 0 <= j < |d| {
        assert d[j] != '\n';
      }
    }
    NoTerminatorYieldsEmpty(d, parse);
  }

  /**
   * As written: a datagram "bat:7" with no terminator, received after
   * "bat:80;h:20\n\r", is read together with the older datagram's tail. The
   * listener is told of a battery level of 70 and a height of 20, neither of
   * which this datagram carries; read on its own it decodes to the empty map.
   */
  lemma StaleBytesReachParser(buffer: seq<char>, parse: NumberParser)
    requires |buffer| == BUFFER_SIZE
    requires parse("70").Some? && parse("20").Some?
    ensures ReadParameters(ReadDataAsWritten(Overlay(buffer, "bat:80;h:20\n\r"), "bat:7"), parse) ==
            map[BATTERY := parse("70").value, HEIGHT := parse("20").value]
    ensures ReadParameters(ReadData(Overlay(buffer, "bat:80;h:20\n\r"), "bat:7"), parse) == map[]
  {
    StaleMap(buffer, parse);
    UnterminatedAlone(Overlay(buffer, "bat:80;h:20\n\r"), parse);
  }

  class TelloMonitor {
    var scanningInterval: Int64
    var monitoring: bool
    const buffer: array<char>
    /** What the listener has been handed, one entry per loop iteration. */
    var notified: seq<Iteration>

    predicate Valid() {
      buffer.Length == BUFFER_SIZE
    }

    constructor ()
      ensures Valid() && fresh(buffer)
      ensures forall i :: 0 <= i < BUFFER_SIZE ==> buffer[i] == '\0'
      ensures scanningInterval == DEFAULT_SCANNING_INTERVAL && !monitoring && notified == []
    {
      scanningInterval := DEFAULT_SCANNING_INTERVAL;
      monitoring := false;
      buffer := new char[BUFFER_SIZE](_ => '\0');
      notified := [];
    }

    /** `socket.receive` into the shared buffer: copies the datagram over its first bytes. */
    method Receive(datagram: string) returns (length: nat)
      requires Valid()
      modifies buffer
      ensures length == |Truncate(datagram)|
      ensures buffer[..] == Overlay(old(buffer[..]), datagram)
    {
      length := if |datagram| <= buffer.Length then |datagram| else buffer.Length;
      var i := 0;
      while i < length
        invariant 0 <= i <= length
        invariant forall j :: 0 <= j < i ==> buffer[j] == datagram[j]
        invariant forall j :: i <= j < BUFFER_SIZE ==> buffer[j] == old(buffer[j])
      {
        buffer[i] := datagram[i];
        i := i + 1;
      }
      OverlayAt(old(buffer[..]), datagram);
    }

    /**
     * Binds the telemetry socket (a failure is swallowed and leaves the
     * monitor as it was), raises the flag, then polls while the flag is up:
     * receive, decode the whole buffer, notify the eight callbacks, wait the
     * interval.
     */
    method StartMonitoring(bindOk: bool, datagrams: seq<string>, parse: NumberParser)
      requires Valid()
      modifies this`monitoring, this`notified, buffer
      ensures monitoring == (old(monitoring) || bindOk)
      ensures !bindOk ==> notified == old(notified) && buffer[..] == old(buffer[..])
      ensures bindOk ==> notified == old(notified) + PollsAsWritten(old(buffer[..]), datagrams, parse, scanningInterval)
      ensures bindOk ==> buffer[..] == Overlays(old(buffer[..]), datagrams)
    {
      if !bindOk {
        return;
      }
      ghost var start := buffer[..];
      monitoring := true;
      var i := 0;
      while monitoring && i < |datagrams|
        invariant 0 <= i <= |datagrams| && monitoring && buffer.Length == BUFFER_SIZE
        invariant notified == old(notified) + PollsAsWritten(start, datagrams[..i], parse, scanningInterval)
        invariant buffer[..] == Overlays(start, datagrams[..i])
      {
        PollsAsWrittenStep(start, datagrams, i, parse, scanningInterval);
        var _ := Receive(datagrams[i]);
        var response := buffer[..];
        var parameters := ReadParameters(response, parse);
        notified := notified + [Iteration(CheckParameters(parameters), scanningInterval)];
        i := i + 1;
      }
      assert datagrams[..i] == datagrams;
    }

    method StopMonitoring()
      modifies this`monitoring
      ensures !monitoring
    {
      monitoring := false;
    }

    method SetScanningInterval(interval: Int64)
      modifies this`scanningInterval
      ensures scanningInterval == interval
    {
      scanningInterval := interval;
    }
  }

  /**
   * What a caller can rely on: a poll of a datagram without telemetry still
   * reaches all eight callbacks with -1.0, stopping twice leaves the flag
   * down, and a new interval applies to later polls only.
   */
  method MonitorSession(parse: NumberParser)
  {
    var m := new TelloMonitor();
    m.StartMonitoring(true, ["garbage"], parse);
    assert m.monitoring;
    assert |m.notified| == 1 && m.notified[0].delay == DEFAULT_SCANNING_INTERVAL;
    assert forall j :: !TerminatorAt("garbage", j);
    assert m.notified[0].changes == CheckParameters(map[]);
    m.StopMonitoring();
    m.StopMonitoring();
    assert !m.monitoring;
    m.SetScanningInterval(500);
    m.StartMonitoring(false, ["bat:80\n\r"], parse);
    assert !m.monitoring && |m.notified| == 1;
  }
}
