/** The public operations of the TM1637 driver. Each is one transaction:
    start condition, a command byte, zero or more data bytes, stop
    condition. The first byte the chip does not acknowledge ends the
    transaction at once: no later byte is sent and no stop condition is
    driven. */
module Driver {
  import opened Bits
  import opened Pins
  import opened Seqs
  import opened Receiver
  import opened Encoding
  import opened Transport

  /** Sends `bytes` in order, returning at the first byte not acknowledged
      (the `?` after each `send`). */
  function SendAll(bytes: seq<Byte>, samples: seq<Level>, pos: nat): (r: Step)
    ensures pos <= r.next
    ensures |bytes| == 0 ==> r == Step([], Ok, pos)
    decreases |bytes|
  {
    if |bytes| == 0 then Step([], Ok, pos)
    else
      var first := Send(bytes[0], samples, pos);
      if first.status.Err? then first
      else
        var rest := SendAll(bytes[1..], samples, first.next);
        Step(first.events + rest.events, rest.status, rest.next)
  }

  /** Wraps a run of byte transfers in a start condition and, if every
      byte was acknowledged, a stop condition. */
  function Enclose(sent: Step): (r: Step)
    ensures r.status == sent.status && r.next == sent.next
    ensures |Start()| <= |r.events|
    ensures r.events[..|Start()|] == Start()
    ensures r.status.Ok? ==> |Start()| + |Stop()| <= |r.events|
    ensures r.status.Ok? ==> r.events[|r.events| - |Stop()| ..] == Stop()
  {
    Framed(sent.events);
    if sent.status.Ok? then Step(Start() + sent.events + Stop(), Ok, sent.next)
    else Step(Start() + sent.events, sent.status, sent.next)
  }

  /** One transaction: start, `command`, each byte of `payload`, stop; or,
      when a byte goes unacknowledged, start and the bytes up to that one. */
  function Transaction(command: Byte, payload: seq<Byte>, samples: seq<Level>, pos: nat): (r: Step)
    ensures pos < r.next
  {
    var bytes := [command] + payload;
    assert bytes[0] == command;
    Enclose(SendAll(bytes, samples, pos))
  }

  /** Where the start and stop conditions sit in a framed run. */
  lemma Framed(events: seq<Event>)
    ensures |Start()| <= |Start() + events| <= |Start() + events + Stop()|
    ensures (Start() + events)[..|Start()|] == Start()
    ensures (Start() + events + Stop())[..|Start()|] == Start()
    ensures (Start() + events + Stop())[|Start() + events| ..] == Stop()
  {
  }

  /** `init`: select write mode with automatic address increment. */
  function Init(samples: seq<Level>, pos: nat): Step {
    Transaction(AddressAutoIncrement1Mode, [], samples, pos)
  }

  /** `print_raw_iter`: write `bytes` to consecutive display positions
      starting at `address` (of which only the low four bits count). */
  function PrintRawIter(address: Byte, bytes: seq<Byte>, samples: seq<Level>, pos: nat): Step {
    Transaction(AddressCommand(address), bytes, samples, pos)
  }

  /** `print_raw`: `print_raw_iter` over a slice. */
  function PrintRaw(address: Byte, bytes: seq<Byte>, samples: seq<Level>, pos: nat): Step {
    PrintRawIter(address, bytes, samples, pos)
  }

  /** The segment patterns of `digits`, each reduced to its low nibble. */
  function HexPatterns(digits: seq<Byte>): (patterns: seq<Byte>)
    ensures |patterns| == |digits|
    ensures forall i :: 0 <= i < |digits| ==> patterns[i] == Digits[(digits[i] & 0x0F) as int]
  {
    seq(|digits|, i requires 0 <= i < |digits| => HexPattern(digits[i]))
  }

  /** Each pattern `print_hex` sends reads back, through the segment
      decoder, as the low nibble of its digit. */
  lemma HexPatternsDecode(digits: seq<Byte>)
    ensures forall i :: 0 <= i < |digits| ==> DecodePattern(HexPatterns(digits)[i]) == Some((digits[i] & 0x0F) as nat)
  {
    forall i | 0 <= i < |digits|
      ensures DecodePattern(HexPatterns(digits)[i]) == Some((digits[i] & 0x0F) as nat)
    {
      DecodeHexPattern(digits[i]);
    }
  }

  /** `print_hex`: show hex digits starting at `address`. */
  function PrintHex(address: Byte, digits: seq<Byte>, samples: seq<Level>, pos: nat): Step {
    PrintRawIter(address, HexPatterns(digits), samples, pos)
  }

  /** `repeat(value).take(n)`. */
  function Repeat(value: Byte, n: nat): (s: seq<Byte>)
    ensures |s| == n
    ensures forall i :: 0 <= i < n ==> s[i] == value
  {
    seq(n, _ => value)
  }

  /** The number of digit positions `clear` blanks. */
  const ClearedPositions: nat := 4

  /** `clear`: blank the four positions from address 0. */
  function Clear(samples: seq<Level>, pos: nat): Step {
    PrintRawIter(0, Repeat(0, ClearedPositions), samples, pos)
  }

  /** `set_brightness`: switch the display on at brightness `level` (of
      which only the low three bits count). */
  function SetBrightness(level: Byte, samples: seq<Level>, pos: nat): Step {
    Transaction(BrightnessCommand(level), [], samples, pos)
  }

  // ---------------------------------------------------------------------
  // What the chip receives

  /** On success every byte reaches the chip as a frame, in order; on
      failure a non-empty prefix of them does (`SendAllFailsOnWire` says
      which one). The receiver is idle again after every frame. */
  lemma {:induction false} SendAllOnWire(m: Monitor, bytes: seq<Byte>, samples: seq<Level>, pos: nat)
    requires Idle(m)
    ensures Idle(Run(m, SendAll(bytes, samples, pos).events).after)
    ensures SendAll(bytes, samples, pos).status.Ok? ==>
              Run(m, SendAll(bytes, samples, pos).events).symbols == Frames(bytes)
    ensures SendAll(bytes, samples, pos).status.Err? ==>
              exists n :: 1 <= n <= |bytes| && Run(m, SendAll(bytes, samples, pos).events).symbols == Frames(bytes[..n])
    decreases |bytes|
  {
    if |bytes| > 0 {
      var first := Send(bytes[0], samples, pos);
      var m1 := Monitor(Lines(High, High), []);
      SendOnWire(m, bytes[0], samples, pos);
      if first.status.Err? {
        assert SendAll(bytes, samples, pos) == first;
        assert Frames(bytes[..1]) == [Frame(bytes[0])];
      } else {
        var rest := SendAll(bytes[1..], samples, first.next);
        assert SendAll(bytes, samples, pos) == Step(first.events + rest.events, rest.status, rest.next);
        SendAllOnWire(m1, bytes[1..], samples, first.next);
        RunAppend(m, first.events, rest.events);
        var tail := Run(m1, rest.events).symbols;
        assert Run(m, first.events + rest.events).symbols == [Frame(bytes[0])] + tail;
        if rest.status.Ok? {
          assert bytes == [bytes[0]] + bytes[1..];
          FramesAppend([bytes[0]], bytes[1..]);
        } else {
          PrependFrame(bytes, tail);
        }
      }
    }
  }

  /** A prefix of the frames of `bytes[1..]`, preceded by the frame of
      `bytes[0]`, is a prefix of the frames of `bytes`. */
  lemma PrependFrame(bytes: seq<Byte>, tail: seq<Symbol>)
    requires |bytes| > 0
    requires exists n :: 1 <= n <= |bytes[1..]| && tail == Frames(bytes[1..][..n])
    ensures exists n :: 1 <= n <= |bytes| && [Frame(bytes[0])] + tail == Frames(bytes[..n])
  {
    var n :| 1 <= n <= |bytes[1..]| && tail == Frames(bytes[1..][..n]);
    assert bytes[..n + 1] == [bytes[0]] + bytes[1..][..n];
    FramesAppend([bytes[0]], bytes[1..][..n]);
  }

  /** The run of `bytes` fails at its `n`-th byte (counting from 1): the
      bytes before it are all acknowledged, that byte is not, and the run
      is exactly those transfers and nothing more. */
  predicate FailsAt(bytes: seq<Byte>, samples: seq<Level>, pos: nat, n: nat) {
    && 1 <= n <= |bytes|
    && var pre := SendAll(bytes[..n - 1], samples, pos);
       var last := Send(bytes[n - 1], samples, pre.next);
       && pre.status == Ok
       && last.status == Err(Ack)
       && SendAll(bytes, samples, pos) == Step(pre.events + last.events, last.status, last.next)
  }

  /** A failed run stops at its first unacknowledged byte. */
  lemma {:induction false} SendAllStopsAtFirstFailure(bytes: seq<Byte>, samples: seq<Level>, pos: nat)
    ensures SendAll(bytes, samples, pos).status.Err? ==> exists n: nat :: FailsAt(bytes, samples, pos, n)
    decreases |bytes|
  {
    if |bytes| > 0 {
      var first := Send(bytes[0], samples, pos);
      if first.status.Err? {
        FailsFirst(bytes, samples, pos);
      } else if SendAll(bytes[1..], samples, first.next).status.Err? {
        SendAllStopsAtFirstFailure(bytes[1..], samples, first.next);
        var n :| FailsAt(bytes[1..], samples, first.next, n);
        FailsLater(bytes, samples, pos, n);
      }
    }
  }

  lemma FailsFirst(bytes: seq<Byte>, samples: seq<Level>, pos: nat)
    requires |bytes| > 0 && Send(bytes[0], samples, pos).status.Err?
    ensures FailsAt(bytes, samples, pos, 1)
  {
    var first := Send(bytes[0], samples, pos);
    assert bytes[..0] == [];
    assert SendAll(bytes[..0], samples, pos) == Step([], Ok, pos);
    AppendEmpty([], first.events);
    assert SendAll(bytes, samples, pos) == first;
  }

  lemma FailsLater(bytes: seq<Byte>, samples: seq<Level>, pos: nat, n: nat)
    requires |bytes| > 0 && Send(bytes[0], samples, pos).status == Ok
    requires FailsAt(bytes[1..], samples, Send(bytes[0], samples, pos).next, n)
    ensures FailsAt(bytes, samples, pos, n + 1)
  {
    var first := Send(bytes[0], samples, pos);
    var pre := SendAll(bytes[1..][..n - 1], samples, first.next);
    var last := Send(bytes[1..][n - 1], samples, pre.next);
    SendAllCons(bytes[..n], samples, pos);
    assert bytes[..n][0] == bytes[0];
    assert bytes[..n][1..] == bytes[1..][..n - 1];
    assert SendAll(bytes[..n], samples, pos) == Step(first.events + pre.events, Ok, pre.next);
    assert bytes[n] == bytes[1..][n - 1];
    SendAllCons(bytes, samples, pos);
    Assoc(first.events, pre.events, last.events);
  }

  /** `SendAll` after an acknowledged first byte: that byte's transfer, then
      the rest of the run. */
  lemma SendAllCons(bytes: seq<Byte>, samples: seq<Level>, pos: nat)
    requires |bytes| > 0 && Send(bytes[0], samples, pos).status == Ok
    ensures var first := Send(bytes[0], samples, pos);
            var rest := SendAll(bytes[1..], samples, first.next);
            SendAll(bytes, samples, pos) == Step(first.events + rest.events, rest.status, rest.next)
  {
  }

  /** A run that fails at its `n`-th byte reaches the chip as the frames of
      its first `n` bytes: the acknowledged ones and the unacknowledged one. */
  lemma FailedRunOnWire(m: Monitor, bytes: seq<Byte>, samples: seq<Level>, pos: nat, n: nat)
    requires Idle(m) && FailsAt(bytes, samples, pos, n)
    ensures Run(m, SendAll(bytes, samples, pos).events).symbols == Frames(bytes[..n])
  {
    var pre := SendAll(bytes[..n - 1], samples, pos);
    var last := Send(bytes[n - 1], samples, pre.next);
    SendAllOnWire(m, bytes[..n - 1], samples, pos);
    var after := Run(m, pre.events).after;
    SendOnWire(after, bytes[n - 1], samples, pre.next);
    RunAppend(m, pre.events, last.events);
    PrefixSnoc(bytes, n);
    FramesAppend(bytes[..n - 1], [bytes[n - 1]]);
    assert Frames([bytes[n - 1]]) == [Frame(bytes[n - 1])];
  }

  /** A failed run on the wire: it fails at some byte, and the chip has
      received exactly the bytes up to and including that one. */
  lemma SendAllFailsOnWire(m: Monitor, bytes: seq<Byte>, samples: seq<Level>, pos: nat)
    requires Idle(m)
    ensures var r := SendAll(bytes, samples, pos);
            r.status.Err? ==> exists n: nat :: FailsAt(bytes, samples, pos, n)
                                && Run(m, r.events).symbols == Frames(bytes[..n])
  {
    if SendAll(bytes, samples, pos).status.Err? {
      SendAllStopsAtFirstFailure(bytes, samples, pos);
      var n :| FailsAt(bytes, samples, pos, n);
      FailedRunOnWire(m, bytes, samples, pos, n);
    }
  }

  /** An acknowledged transaction on the wire: a start condition, the
      command, the payload in order and a stop condition. */
  lemma TransactionOnWire(m: Monitor, command: Byte, payload: seq<Byte>, samples: seq<Level>, pos: nat)
    requires Idle(m)
    ensures var r := Transaction(command, payload, samples, pos);
            r.status.Ok? ==> Run(m, r.events).symbols == [StartCond, Frame(command)] + Frames(payload) + [StopCond]
  {
    var bytes := [command] + payload;
    var sent := SendAll(bytes, samples, pos);
    assert Transaction(command, payload, samples, pos) == Enclose(sent);
    SendAllOnWire(Monitor(Lines(High, Low), []), bytes, samples, pos);
    if sent.status.Ok? {
      EnclosedOk(m, command, payload, sent);
    }
  }

  /** A failed transaction on the wire: the run fails at some byte after
      the command, and the chip sees a start condition, the command and the
      payload bytes up to and including that one, and no stop condition. */
  lemma TransactionFailsOnWire(m: Monitor, command: Byte, payload: seq<Byte>, samples: seq<Level>, pos: nat)
    requires Idle(m)
    ensures var r := Transaction(command, payload, samples, pos);
            r.status.Err? ==> exists n :: 0 <= n <= |payload|
                                && FailsAt([command] + payload, samples, pos, n + 1)
                                && Run(m, r.events).symbols == [StartCond, Frame(command)] + Frames(payload[..n])
  {
    var bytes := [command] + payload;
    var sent := SendAll(bytes, samples, pos);
    assert Transaction(command, payload, samples, pos) == Enclose(sent);
    if sent.status.Err? {
      SendAllStopsAtFirstFailure(bytes, samples, pos);
      var n :| FailsAt(bytes, samples, pos, n);
      FailedRunOnWire(Monitor(Lines(High, Low), []), bytes, samples, pos, n);
      EnclosedErr(m, command, payload, sent, n);
    }
  }

  lemma EnclosedErr(m: Monitor, command: Byte, payload: seq<Byte>, sent: Step, n: nat)
    requires Idle(m) && sent.status.Err? && 1 <= n <= 1 + |payload|
    requires Run(Monitor(Lines(High, Low), []), sent.events).symbols == Frames(([command] + payload)[..n])
    ensures Run(m, Enclose(sent).events).symbols == [StartCond, Frame(command)] + Frames(payload[..n - 1])
  {
    var m1 := Monitor(Lines(High, Low), []);
    var afterSend := Run(m1, sent.events);
    assert Enclose(sent).events == Start() + sent.events;
    StartOnWire(m);
    RunAppend(m, Start(), sent.events);
    assert ([command] + payload)[..n] == [command] + payload[..n - 1];
    FramesAppend([command], payload[..n - 1]);
    assert Frames([command]) == [Frame(command)];
    assert Run(m, Enclose(sent).events).symbols == [StartCond] + afterSend.symbols;
    ConsCons(StartCond, Frame(command), Frames(payload[..n - 1]));
  }

  lemma EnclosedOk(m: Monitor, command: Byte, payload: seq<Byte>, sent: Step)
    requires Idle(m) && sent.status.Ok?
    requires Run(Monitor(Lines(High, Low), []), sent.events).symbols == Frames([command] + payload)
    requires Idle(Run(Monitor(Lines(High, Low), []), sent.events).after)
    ensures Run(m, Enclose(sent).events).symbols == [StartCond, Frame(command)] + Frames(payload) + [StopCond]
  {
    var m1 := Monitor(Lines(High, Low), []);
    var afterSend := Run(m1, sent.events);
    assert Enclose(sent).events == Start() + sent.events + Stop();
    StartOnWire(m);
    RunAppend(m, Start(), sent.events);
    assert Run(m, Start() + sent.events).symbols == [StartCond] + Frames([command] + payload);
    StopOnWire(afterSend.after);
    RunAppend(m, Start() + sent.events, Stop());
    FramesAppend([command], payload);
    assert Frames([command]) == [Frame(command)];
    ConsCons(StartCond, Frame(command), Frames(payload));
  }

  /** The trace ends with the 255 unsuccessful ACK polls of one byte. */
  predicate EndsWithTimeout(events: seq<Event>) {
    |events| >= 2 * AckPolls && events[|events| - 2 * AckPolls ..] == Waits(AckPolls)
  }

  lemma TimeoutAfter(prefix: seq<Event>, events: seq<Event>)
    requires EndsWithTimeout(events)
    ensures EndsWithTimeout(prefix + events)
  {
  }

  /** A run of transfers that fails ends with the 255 unsuccessful polls of
      its last byte: nothing is sent after the unacknowledged byte. */
  lemma {:induction false} SendAllEndsAtFailure(bytes: seq<Byte>, samples: seq<Level>, pos: nat)
    ensures var r := SendAll(bytes, samples, pos);
            r.status.Err? ==> EndsWithTimeout(r.events)
    decreases |bytes|
  {
    if |bytes| > 0 {
      var first := Send(bytes[0], samples, pos);
      if first.status.Err? {
        SendUnacknowledged(bytes[0], samples, pos);
        assert Waits(AckPolls)[2 * AckPolls - 2 * AckPolls ..] == Waits(AckPolls);
        assert EndsWithTimeout(Waits(AckPolls));
        TimeoutAfter(ByteEvents(bytes[0]), Waits(AckPolls));
        assert SendAll(bytes, samples, pos) == first;
      } else {
        var rest := SendAll(bytes[1..], samples, first.next);
        assert SendAll(bytes, samples, pos) == Step(first.events + rest.events, rest.status, rest.next);
        SendAllEndsAtFailure(bytes[1..], samples, first.next);
        if rest.status.Err? {
          TimeoutAfter(first.events, rest.events);
        }
      }
    }
  }

  /** An unacknowledged byte aborts the transaction: the error is `Ack`,
      and the trace ends with the failed polls, so no stop condition and no
      later byte follow. */
  lemma TransactionAborts(command: Byte, payload: seq<Byte>, samples: seq<Level>, pos: nat)
    ensures var r := Transaction(command, payload, samples, pos);
            r.status.Err? ==> r.status == Err(Ack) && EndsWithTimeout(r.events)
  {
    var bytes := [command] + payload;
    var sent := SendAll(bytes, samples, pos);
    SendAllEndsAtFailure(bytes, samples, pos);
    if sent.status.Err? {
      assert Transaction(command, payload, samples, pos).events == Start() + sent.events;
      TimeoutAfter(Start(), sent.events);
    }
  }

  /** A chip that acknowledges every byte at the first poll (the first
      `|bytes|` samples read low): each transfer reads one sample, and the
      whole run succeeds. */
  lemma {:induction false} SendAllPrompt(bytes: seq<Byte>, samples: seq<Level>, pos: nat)
    requires forall j :: pos <= j < pos + |bytes| ==> Sample(samples, j) == Low
    ensures SendAll(bytes, samples, pos).status == Ok
    ensures SendAll(bytes, samples, pos).next == pos + |bytes|
    decreases |bytes|
  {
    if |bytes| > 0 {
      assert Sample(samples, pos + 0) == Low;
      assert FirstLowAt(samples, pos, 0);
      SendAckedAt(bytes[0], samples, pos, 0);
      SendAllPrompt(bytes[1..], samples, pos + 1);
    }
  }

  /** With a chip that acknowledges every byte at once, a transaction succeeds
      after reading exactly one sample per byte: the command and the payload. */
  lemma TransactionPrompt(command: Byte, payload: seq<Byte>, samples: seq<Level>, pos: nat)
    requires forall j :: pos <= j < pos + 1 + |payload| ==> Sample(samples, j) == Low
    ensures Transaction(command, payload, samples, pos).status == Ok
    ensures Transaction(command, payload, samples, pos).next == pos + 1 + |payload|
  {
    SendAllPrompt([command] + payload, samples, pos);
  }

  /** With no chip answering, a transaction is the start condition, the
      command byte and 255 failed polls, and returns the acknowledge error. */
  lemma TransactionNoChip(command: Byte, payload: seq<Byte>, samples: seq<Level>, pos: nat)
    requires !LowWithin(samples, pos, AckPolls)
    ensures Transaction(command, payload, samples, pos)
            == Step(Start() + (ByteEvents(command) + Waits(AckPolls)), Err(Ack), pos + AckPolls)
  {
    var bytes := [command] + payload;
    assert bytes[0] == command;
    SendUnacknowledged(command, samples, pos);
    assert SendAll(bytes, samples, pos) == Send(command, samples, pos);
  }

  // ---------------------------------------------------------------------
  // The public operations

  /** A transaction carrying only its command byte: one frame, followed by
      a stop condition exactly when it was acknowledged. */
  lemma CommandOnlyOnWire(m: Monitor, command: Byte, samples: seq<Level>, pos: nat)
    requires Idle(m)
    ensures var r := Transaction(command, [], samples, pos);
            r.status.Ok? ==> Run(m, r.events).symbols == [StartCond, Frame(command), StopCond]
    ensures var r := Transaction(command, [], samples, pos);
            r.status.Err? ==> Run(m, r.events).symbols == [StartCond, Frame(command)]
  {
    TransactionOnWire(m, command, [], samples, pos);
    TransactionFailsOnWire(m, command, [], samples, pos);
    var empty: seq<Byte> := [];
    assert Frames(empty) == [];
    assert empty[..0] == empty;
  }

  /** `init` sends the single byte 0x40 between a start and a stop
      condition, or only the start and that byte if it is not acknowledged. */
  lemma InitOnWire(m: Monitor, samples: seq<Level>, pos: nat)
    requires Idle(m)
    ensures var r := Init(samples, pos);
            r.status.Ok? ==> Run(m, r.events).symbols == [StartCond, Frame(0x40), StopCond]
    ensures var r := Init(samples, pos);
            r.status.Err? ==> Run(m, r.events).symbols == [StartCond, Frame(0x40)]
  {
    CommandOnlyOnWire(m, AddressAutoIncrement1Mode, samples, pos);
  }

  /** `set_brightness` sends exactly one byte, the display-control command
      for the low three bits of `level`. */
  lemma SetBrightnessOnWire(m: Monitor, level: Byte, samples: seq<Level>, pos: nat)
    requires Idle(m)
    ensures var r := SetBrightness(level, samples, pos);
            r.status.Ok? ==> Run(m, r.events).symbols == [StartCond, Frame(BrightnessCommand(level)), StopCond]
    ensures var r := SetBrightness(level, samples, pos);
            r.status.Err? ==> Run(m, r.events).symbols == [StartCond, Frame(BrightnessCommand(level))]
  {
    CommandOnlyOnWire(m, BrightnessCommand(level), samples, pos);
  }

  /** `print_raw`: the set-address command, then the bytes in order, then a
      stop condition; with no bytes only the address command is sent. */
  lemma PrintRawOnWire(m: Monitor, address: Byte, bytes: seq<Byte>, samples: seq<Level>, pos: nat)
    requires Idle(m)
    ensures var r := PrintRaw(address, bytes, samples, pos);
            r.status.Ok? ==> Run(m, r.events).symbols
                             == [StartCond, Frame(AddressCommand(address))] + Frames(bytes) + [StopCond]
  {
    TransactionOnWire(m, AddressCommand(address), bytes, samples, pos);
  }

  /** A failed `print_raw`: the run fails at the address command or at some
      byte, and the chip has seen the command and the bytes up to and
      including that one, and no stop condition. */
  lemma PrintRawFailsOnWire(m: Monitor, address: Byte, bytes: seq<Byte>, samples: seq<Level>, pos: nat)
    requires Idle(m)
    ensures var r := PrintRaw(address, bytes, samples, pos);
            r.status.Err? ==> exists n :: 0 <= n <= |bytes|
                                && FailsAt([AddressCommand(address)] + bytes, samples, pos, n + 1)
                                && Run(m, r.events).symbols == [StartCond, Frame(AddressCommand(address))] + Frames(bytes[..n])
  {
    TransactionFailsOnWire(m, AddressCommand(address), bytes, samples, pos);
  }

  /** `print_hex`: the set-address command, then the segment pattern of the
      low nibble of each digit, in order, then a stop condition. */
  lemma PrintHexOnWire(m: Monitor, address: Byte, digits: seq<Byte>, samples: seq<Level>, pos: nat)
    requires Idle(m)
    ensures var r := PrintHex(address, digits, samples, pos);
            r.status.Ok? ==> Run(m, r.events).symbols
                             == [StartCond, Frame(AddressCommand(address))] + Frames(HexPatterns(digits)) + [StopCond]
    ensures var r := PrintHex(address, digits, samples, pos);
            r.status.Err? ==> exists n :: 0 <= n <= |digits|
                                && Run(m, r.events).symbols
                                   == [StartCond, Frame(AddressCommand(address))] + Frames(HexPatterns(digits)[..n])
  {
    TransactionOnWire(m, AddressCommand(address), HexPatterns(digits), samples, pos);
    TransactionFailsOnWire(m, AddressCommand(address), HexPatterns(digits), samples, pos);
  }

  /** `clear` is `print_raw` of four zero bytes at address 0: same trace,
      same result. */
  lemma ClearIsPrintRaw(samples: seq<Level>, pos: nat)
    ensures Clear(samples, pos) == PrintRaw(0, [0, 0, 0, 0], samples, pos)
  {
    assert Repeat(0, ClearedPositions) == [0, 0, 0, 0];
  }

  /** Only the low four bits of the address matter to `print_raw`. */
  lemma PrintRawAddressMasked(a1: Byte, a2: Byte, bytes: seq<Byte>, samples: seq<Level>, pos: nat)
    requires a1 & 0x0F == a2 & 0x0F
    ensures PrintRaw(a1, bytes, samples, pos) == PrintRaw(a2, bytes, samples, pos)
  {
    AddressCommandEqual(a1, a2);
  }

  /** Only the low nibble of each digit matters to `print_hex`: in
      particular `d` and `d + 16k` (mod 256) display the same. */
  lemma PrintHexDigitsMasked(address: Byte, d1: seq<Byte>, d2: seq<Byte>, samples: seq<Level>, pos: nat)
    requires |d1| == |d2|
    requires forall i :: 0 <= i < |d1| ==> d1[i] & 0x0F == d2[i] & 0x0F
    ensures PrintHex(address, d1, samples, pos) == PrintHex(address, d2, samples, pos)
  {
    assert HexPatterns(d1) == HexPatterns(d2);
  }

  /** Only the low three bits of the level matter to `set_brightness`. */
  lemma SetBrightnessLevelMasked(l1: Byte, l2: Byte, samples: seq<Level>, pos: nat)
    requires l1 & 0x07 == l2 & 0x07
    ensures SetBrightness(l1, samples, pos) == SetBrightness(l2, samples, pos)
  {
    BrightnessCommandEqual(l1, l2);
  }
}
