/** The bit and byte transport of the TM1637 driver: start and stop
    conditions, the LSB-first byte shift and the acknowledge poll.

    A pin action is an `Event`. The only input is the stream of levels the
    DIO pin returns when it is read: `samples`, consumed from index `pos`
    on. A read beyond the end of `samples` gives `High`, the level of the
    released, pulled-up line when no chip answers. */
module Transport {
  import opened Bits
  import opened Pins
  import opened Seqs
  import opened Receiver

  /** The driver's error kind. Pin faults panic in the driver and never
      become an error value, so acknowledge failure is the only one. */
  datatype Error = Ack

  /** Rust's `Result<(), Error>`. */
  datatype Outcome = Ok | Err(error: Error)

  /** One run of an operation: the pin actions in order, its result, and the
      index of the next unread DIO sample. */
  datatype Step = Step(events: seq<Event>, status: Outcome, next: nat)

  /** How many times the driver samples DIO while waiting for the ACK. */
  const AckPolls: nat := 255

  /** The level read by the `i`-th DIO sample. */
  function Sample(samples: seq<Level>, i: nat): Level {
    if i < |samples| then samples[i] else High
  }

  /** Sample `pos + k` is the first low one at or after `pos`. */
  predicate FirstLowAt(samples: seq<Level>, pos: nat, k: nat) {
    && Sample(samples, pos + k) == Low
    && forall j :: pos <= j < pos + k ==> Sample(samples, j) == High
  }

  /** Some sample in `pos .. pos + budget` reads low. */
  predicate LowWithin(samples: seq<Level>, pos: nat, budget: nat) {
    exists j :: pos <= j < pos + budget && Sample(samples, j) == Low
  }

  /** One clocked data bit: CLK low, DIO to the bit, CLK high, one bit period. */
  function BitEvents(bit: bool): seq<Event> {
    [ClkLow, DioFor(bit), ClkHigh, Delay]
  }

  /** The first loop of `send`: `n` bits of `rest`, each tested in bit 0
      before `rest` is shifted right by one. */
  function ShiftOut(rest: Byte, n: nat): (events: seq<Event>)
    requires n <= 8
    ensures |events| == 4 * n
  {
    if n == 0 then [] else BitEvents(rest & 1 != 0) + ShiftOut(rest >> 1, n - 1)
  }

  /** The events of `send` that release DIO for the acknowledge clock. */
  const AckClock: seq<Event> := [ClkLow, DioHigh, ClkHigh]

  /** `k` unsuccessful ACK polls: a read that gives high, then a delay. */
  function Waits(k: nat): (events: seq<Event>)
    ensures |events| == 2 * k
  {
    if k == 0 then [] else [ReadDio, Delay] + Waits(k - 1)
  }

  /** The ACK poll of `send` with `budget` reads left: return as soon as a
      read gives low, otherwise wait one bit period and read again. */
  function Poll(samples: seq<Level>, pos: nat, budget: nat): (r: Step)
    ensures AllPassive(r.events)
    ensures pos <= r.next <= pos + budget
    ensures r.status.Ok? <==> LowWithin(samples, pos, budget)
    ensures r.status.Err? ==> r.status == Err(Ack) && r.next == pos + budget
    decreases budget
  {
    if budget == 0 then Step([], Err(Ack), pos)
    else if Sample(samples, pos) == Low then Step([ReadDio], Ok, pos + 1)
    else
      var rest := Poll(samples, pos + 1, budget - 1);
      assert LowWithin(samples, pos, budget) <==> LowWithin(samples, pos + 1, budget - 1);
      Step([ReadDio, Delay] + rest.events, rest.status, rest.next)
  }

  /** The output part of `send`: the eight data bits, then DIO released for
      the acknowledge clock. */
  function ByteEvents(b: Byte): (events: seq<Event>)
    ensures |events| == 4 * 8 + |AckClock|
  {
    ShiftOut(b, 8) + AckClock
  }

  /** Transfers one byte and waits for the chip's acknowledge. */
  function Send(b: Byte, samples: seq<Level>, pos: nat): (r: Step)
    ensures |r.events| >= 4 * 8 + |AckClock|
    ensures pos <= r.next <= pos + AckPolls
    ensures r.status.Ok? <==> LowWithin(samples, pos, AckPolls)
    ensures r.status.Err? ==> r.status == Err(Ack) && r.next == pos + AckPolls
  {
    var poll := Poll(samples, pos, AckPolls);
    Step(ByteEvents(b) + poll.events, poll.status, poll.next)
  }

  /** Start condition: DIO falls while CLK is high. */
  function Start(): seq<Event> {
    [ClkLow, DioHigh, ClkHigh, Delay, DioLow]
  }

  /** Stop condition: DIO rises while CLK is high, then one bit period. */
  function Stop(): seq<Event> {
    [ClkLow, DioLow, ClkHigh, Delay, DioHigh, Delay]
  }

  // ---------------------------------------------------------------------
  // Trace shape of the byte transfer

  /** The `i`-th group of four events shifted out clocks the `i`-th bit. */
  lemma {:induction false} ShiftOutGroup(rest: Byte, n: nat, i: nat)
    requires i < n <= 8
    ensures ShiftOut(rest, n)[4 * i .. 4 * i + 4] == BitEvents(LsbBits(rest, n)[i])
  {
    if i == 0 {
      FirstGroup(rest, n);
    } else {
      ShiftOutGroup(rest >> 1, n - 1, i - 1);
      LaterGroup(rest, n, i);
      LsbBitsTail(rest, n, i);
    }
  }

  lemma FirstGroup(rest: Byte, n: nat)
    requires 0 < n <= 8
    ensures ShiftOut(rest, n)[0 .. 4] == BitEvents(LsbBits(rest, n)[0])
  {
  }

  lemma LaterGroup(rest: Byte, n: nat, i: nat)
    requires 0 < i < n <= 8
    ensures ShiftOut(rest, n)[4 * i .. 4 * i + 4] == ShiftOut(rest >> 1, n - 1)[4 * (i - 1) .. 4 * (i - 1) + 4]
  {
  }

  lemma ShiftOutUnfold(rest: Byte, n: nat)
    requires 0 < n <= 8
    ensures ShiftOut(rest, n) == BitEvents(LsbBits(rest, n)[0]) + ShiftOut(rest >> 1, n - 1)
  {
  }

  lemma LsbBitsTail(rest: Byte, n: nat, i: nat)
    requires 0 < i < n <= 8
    ensures LsbBits(rest, n)[i] == LsbBits(rest >> 1, n - 1)[i - 1]
  {
  }

  /** LSB-first bit order: the `i`-th bit of a transferred byte is clocked
      out as CLK low, DIO set to bit `i` of the byte, CLK high, one delay. */
  lemma SendBit(b: Byte, samples: seq<Level>, pos: nat, i: nat)
    requires i < 8
    ensures Send(b, samples, pos).events[4 * i .. 4 * i + 4]
            == [ClkLow, DioFor(Bit(b, i)), ClkHigh, Delay]
  {
    SendSlice(b, samples, pos, 4 * i, 4 * i + 4);
    ShiftOutBit(b, i);
  }

  lemma SendSlice(b: Byte, samples: seq<Level>, pos: nat, lo: nat, hi: nat)
    requires lo <= hi <= 32
    ensures Send(b, samples, pos).events[lo .. hi] == ShiftOut(b, 8)[lo .. hi]
  {
  }

  lemma ShiftOutBit(b: Byte, i: nat)
    requires i < 8
    ensures ShiftOut(b, 8)[4 * i .. 4 * i + 4] == [ClkLow, DioFor(Bit(b, i)), ClkHigh, Delay]
  {
    ShiftOutGroup(b, 8, i);
    LsbBitsAt(b, 8, i);
  }

  /** The chip acknowledges at the `k`-th sample (counting from 0): the poll
      stops after `k + 1` samples and `k` delays. */
  lemma {:induction false} PollAckAt(samples: seq<Level>, pos: nat, budget: nat, k: nat)
    requires k < budget
    requires FirstLowAt(samples, pos, k)
    ensures Poll(samples, pos, budget) == Step(Waits(k) + [ReadDio], Ok, pos + k + 1)
    decreases k
  {
    if k > 0 {
      assert Sample(samples, pos) == High;
      assert FirstLowAt(samples, pos + 1, k - 1);
      PollAckAt(samples, pos + 1, budget - 1, k - 1);
      assert [ReadDio, Delay] + (Waits(k - 1) + [ReadDio]) == Waits(k) + [ReadDio];
    }
  }

  /** No read gives low: the poll gives up after `budget` reads and as many
      delays. */
  lemma {:induction false} PollTimeout(samples: seq<Level>, pos: nat, budget: nat)
    requires !LowWithin(samples, pos, budget)
    ensures Poll(samples, pos, budget) == Step(Waits(budget), Err(Ack), pos + budget)
    decreases budget
  {
    if budget > 0 {
      assert Sample(samples, pos) == High;
      PollTimeout(samples, pos + 1, budget - 1);
    }
  }

  /** A poll of `k` failed samples holds `k` samples and `k` delays. */
  lemma {:induction false} WaitsCount(k: nat)
    ensures Count(Waits(k), ReadDio) == k
    ensures Count(Waits(k), Delay) == k
  {
    if k > 0 {
      WaitsCount(k - 1);
      assert multiset(Waits(k)) == multiset([ReadDio, Delay]) + multiset(Waits(k - 1));
    }
  }

  /** A byte acknowledged at sample `k`: exact trace, `k + 1` samples read
      and `k` poll delays. */
  lemma SendAckedAt(b: Byte, samples: seq<Level>, pos: nat, k: nat)
    requires k < AckPolls
    requires FirstLowAt(samples, pos, k)
    ensures Send(b, samples, pos) == Step(ByteEvents(b) + (Waits(k) + [ReadDio]), Ok, pos + k + 1)
    ensures Count(Waits(k) + [ReadDio], ReadDio) == k + 1
    ensures Count(Waits(k) + [ReadDio], Delay) == k
  {
    PollAckAt(samples, pos, AckPolls, k);
    WaitsCount(k);
    assert multiset(Waits(k) + [ReadDio]) == multiset(Waits(k)) + multiset{ReadDio};
  }

  /** A byte never acknowledged: all 255 samples are read, the trace is the
      byte followed by one failed poll per sample read, and the result is
      the acknowledge error. */
  lemma SendUnacknowledged(b: Byte, samples: seq<Level>, pos: nat)
    requires !LowWithin(samples, pos, AckPolls)
    ensures var r := Send(b, samples, pos);
            r.status == Err(Ack) && r.next == pos + AckPolls && r.events == ByteEvents(b) + Waits(r.next - pos)
  {
    PollTimeout(samples, pos, AckPolls);
  }

  // ---------------------------------------------------------------------
  // What the chip sees

  /** Shifting out bits clocks them into the receiver one by one, LSB first,
      without completing a frame or signalling a condition. */
  lemma ShiftOutOnWire(m: Monitor, rest: Byte, n: nat)
    requires n <= 8 && |m.bits| + n <= 8
    ensures Run(m, ShiftOut(rest, n)).symbols == []
    ensures Run(m, ShiftOut(rest, n)).after.bits == m.bits + LsbBits(rest, n)
  {
    ShiftOutClocks(rest, n);
    ClockOutOnWire(m, LsbBits(rest, n));
  }

  /** The events clocking out `bits` in order, one group of four per bit. */
  function ClockOut(bits: seq<bool>): (events: seq<Event>)
    ensures |events| == 4 * |bits|
  {
    if |bits| == 0 then [] else BitEvents(bits[0]) + ClockOut(bits[1..])
  }

  /** The shift loop clocks out exactly the LSB-first bits of the byte. */
  lemma {:induction false} ShiftOutClocks(rest: Byte, n: nat)
    requires n <= 8
    ensures ShiftOut(rest, n) == ClockOut(LsbBits(rest, n))
    decreases n
  {
    if n > 0 {
      ShiftOutUnfold(rest, n);
      ShiftOutClocks(rest >> 1, n - 1);
      assert LsbBits(rest, n)[1..] == LsbBits(rest >> 1, n - 1);
    }
  }

  /** Clocked bits are latched by the receiver in order, and nothing else
      is recognised. */
  lemma {:induction false} ClockOutOnWire(m: Monitor, bits: seq<bool>)
    requires |m.bits| + |bits| <= 8
    ensures Run(m, ClockOut(bits)).symbols == []
    ensures Run(m, ClockOut(bits)).after.bits == m.bits + bits
    decreases |bits|
  {
    if |bits| > 0 {
      var head, tail := BitEvents(bits[0]), ClockOut(bits[1..]);
      var m1 := Run(m, head).after;
      assert ClockOut(bits) == head + tail;
      BitOnWire(m, bits[0]);
      ClockOutOnWire(m1, bits[1..]);
      RunSilent(m, head, tail);
      SnocRest(m.bits, bits);
    } else {
      assert m.bits + bits == m.bits;
    }
  }

  /** One clocked bit is latched by the receiver, nothing else happens. */
  lemma BitOnWire(m: Monitor, bit: bool)
    requires |m.bits| < 8
    ensures Run(m, BitEvents(bit)).symbols == []
    ensures Run(m, BitEvents(bit)).after.bits == m.bits + [bit]
  {
    var o1 := Observe(m, ClkLow);
    var o2 := Observe(o1.after, DioFor(bit));
    var o3 := Observe(o2.after, ClkHigh);
    var o4 := Observe(o3.after, Delay);
    assert o3.after.bits == m.bits + [bit] && o3.symbols == [];
    RunPair(m, ClkLow, DioFor(bit));
    RunPair(o2.after, ClkHigh, Delay);
    assert BitEvents(bit) == [ClkLow, DioFor(bit)] + [ClkHigh, Delay];
    RunAppend(m, [ClkLow, DioFor(bit)], [ClkHigh, Delay]);
  }

  /** The chip sees a start condition and is then ready for a frame. */
  lemma StartOnWire(m: Monitor)
    requires Idle(m)
    ensures Run(m, Start()) == Observation(Monitor(Lines(High, Low), []), [StartCond])
  {
  }

  /** The chip sees a stop condition and nothing else. */
  lemma StopOnWire(m: Monitor)
    requires Idle(m)
    ensures Run(m, Stop()) == Observation(Monitor(Lines(High, High), []), [StopCond])
  {
  }

  /** The acknowledge clock completes a frame of the eight bits latched so far. */
  lemma AckClockOnWire(m: Monitor)
    requires |m.bits| == 8
    ensures Run(m, AckClock) == Observation(Monitor(Lines(High, High), []), [Frame(FromLsbBits(m.bits))])
  {
  }

  /** The output part of a byte transfer makes the chip receive exactly one
      frame, carrying that byte. */
  lemma ByteOnWire(m: Monitor, b: Byte)
    requires Idle(m)
    ensures Run(m, ByteEvents(b)) == Observation(Monitor(Lines(High, High), []), [Frame(b)])
  {
    var shifted := Run(m, ShiftOut(b, 8));
    ShiftOutOnWire(m, b, 8);
    assert shifted.symbols == [];
    assert shifted.after.bits == LsbBits(b, 8);
    RoundTrip(b);
    AckClockOnWire(shifted.after);
    var acked := Run(shifted.after, AckClock);
    assert acked == Observation(Monitor(Lines(High, High), []), [Frame(b)]);
    RunAppend(m, ShiftOut(b, 8), AckClock);
    assert Run(m, ByteEvents(b)).symbols == [] + [Frame(b)];
  }

  /** Whatever the acknowledge outcome, the chip receives exactly one frame
      carrying the byte that was sent. */
  lemma SendOnWire(m: Monitor, b: Byte, samples: seq<Level>, pos: nat)
    requires Idle(m)
    ensures Run(m, Send(b, samples, pos).events) == Observation(Monitor(Lines(High, High), []), [Frame(b)])
  {
    var poll := Poll(samples, pos, AckPolls);
    ByteOnWire(m, b);
    RunAppend(m, ByteEvents(b), poll.events);
    RunPassive(Monitor(Lines(High, High), []), poll.events);
  }

  // ---------------------------------------------------------------------
  // `send` as written: two loops over a mutable trace

  lemma WaitsSnoc(k: nat)
    ensures Waits(k + 1) == Waits(k) + [ReadDio, Delay]
    decreases k
  {
    if k > 0 {
      WaitsSnoc(k - 1);
    }
  }

  /** After `done`, the shift loop still has to clock out the low `n` bits
      of `rest` to complete the data phase for `b`. */
  predicate ShiftedSoFar(b: Byte, done: seq<Event>, rest: Byte, n: nat)
    requires n <= 8
  {
    done + ShiftOut(rest, n) == ShiftOut(b, 8)
  }

  /** One turn of the shift loop takes the next group of four events off
      the bits still to be sent. */
  lemma ShiftOutStep(b: Byte, done: seq<Event>, rest: Byte, n: nat, done': seq<Event>, rest': Byte)
    requires 0 < n <= 8 && ShiftedSoFar(b, done, rest, n)
    requires done' == (done + [ClkLow, if rest & 1 != 0 then DioHigh else DioLow]) + [ClkHigh, Delay]
    requires rest' == rest >> 1
    ensures ShiftedSoFar(b, done', rest', n - 1)
  {
  }

  /** The first loop of `send` as written: eight times, drive CLK low, set
      DIO to bit 0 of `rest`, shift `rest` right, drive CLK high and wait. */
  method ShiftLoop(b: Byte) returns (events: seq<Event>)
    ensures events == ShiftOut(b, 8)
  {
    events := [];
    var rest := b;
    var n := 8;
    AppendEmpty([], ShiftOut(b, 8));
    while n > 0
      invariant 0 <= n <= 8
      invariant ShiftedSoFar(b, events, rest, n)
    {
      ghost var done, unsent := events, rest;
      events := events + [ClkLow, if rest & 1 != 0 then DioHigh else DioLow];
      rest := rest >> 1;
      events := events + [ClkHigh, Delay];
      ShiftOutStep(b, done, unsent, n, events, rest);
      assert ShiftedSoFar(b, events, rest, n - 1);
      n := n - 1;
    }
    AppendEmpty(events, ShiftOut(rest, 0));
  }

  /** The second loop of `send` as written: up to 255 times, read DIO and
      return at once if it is low, otherwise wait. */
  method PollLoop(samples: seq<Level>, pos: nat) returns (r: Step)
    ensures r == Poll(samples, pos, AckPolls)
  {
    var events: seq<Event> := [];
    var next := pos;
    var polls := 0;
    while polls < AckPolls
      invariant 0 <= polls <= AckPolls && next == pos + polls
      invariant events == Waits(polls)
      invariant forall j :: pos <= j < next ==> Sample(samples, j) == High
    {
      events := events + [ReadDio];
      if Sample(samples, next) == Low {
        assert FirstLowAt(samples, pos, polls);
        PollAckAt(samples, pos, AckPolls, polls);
        return Step(events, Ok, next + 1);
      }
      events := events + [Delay];
      WaitsSnoc(polls);
      next := next + 1;
      polls := polls + 1;
    }
    PollTimeout(samples, pos, AckPolls);
    return Step(events, Err(Ack), next);
  }

  /** The byte transfer in the shape of the driver's code: the shift loop,
      the acknowledge clock, then the poll loop. It produces exactly the run
      described by `Send`. */
  method SendLoop(b: Byte, samples: seq<Level>, pos: nat) returns (r: Step)
    ensures r == Send(b, samples, pos)
  {
    var events := ShiftLoop(b);
    events := events + [ClkLow, DioHigh, ClkHigh];
    var poll := PollLoop(samples, pos);
    return Step(events + poll.events, poll.status, poll.next);
  }
}
