/** A model of the receiving chip: it watches the two lines driven by the
    trace and reports what it sees on the wire.

    - a falling DIO edge while CLK is high is a start condition;
    - a rising DIO edge while CLK is high is a stop condition;
    - every rising CLK edge latches the current DIO level as one bit;
    - nine clocked bits after a start (or after the previous byte) form one
      byte frame: eight data bits, least significant first, then the
      acknowledge clock.

    The receiver is defined independently of the driver and is the yardstick
    the transaction properties are stated against. */
module Receiver {
  import opened Bits
  import opened Pins
  import opened Seqs

  /** What the chip recognises on the bus. */
  datatype Symbol = StartCond | StopCond | Frame(value: Byte)

  /** The levels of both lines as last driven. */
  datatype Lines = Lines(clk: Level, dio: Level)

  /** The receiver state: current line levels and the bits clocked in since
      the last condition or completed frame. */
  datatype Monitor = Monitor(lines: Lines, bits: seq<bool>)

  /** The state after a run and what was recognised during it. */
  datatype Observation = Observation(after: Monitor, symbols: seq<Symbol>)

  /** A monitor that is between frames, with the lines in any state. */
  predicate Idle(m: Monitor) {
    m.bits == []
  }

  /** The receiver's reaction to one event. */
  function Observe(m: Monitor, e: Event): (o: Observation)
    requires |m.bits| < 9
    ensures |o.after.bits| < 9
    ensures |o.symbols| <= 1
  {
    var l := m.lines;
    match e
    case ClkLow => Observation(Monitor(l.(clk := Low), m.bits), [])
    case ClkHigh =>
      if l.clk == High then Observation(m, [])
      else
        var bits := m.bits + [l.dio == High];
        if |bits| == 9 then Observation(Monitor(l.(clk := High), []), [Frame(FromLsbBits(bits[..8]))])
        else Observation(Monitor(l.(clk := High), bits), [])
    case DioLow =>
      if l.clk == High && l.dio == High then Observation(Monitor(l.(dio := Low), []), [StartCond])
      else Observation(Monitor(l.(dio := Low), m.bits), [])
    case DioHigh =>
      if l.clk == High && l.dio == Low then Observation(Monitor(l.(dio := High), []), [StopCond])
      else Observation(Monitor(l.(dio := High), m.bits), [])
    case Delay => Observation(m, [])
    case ReadDio => Observation(m, [])
  }

  /** The receiver's reaction to a whole trace. */
  function Run(m: Monitor, events: seq<Event>): (o: Observation)
    requires |m.bits| < 9
    ensures |o.after.bits| < 9
    decreases |events|
  {
    if |events| == 0 then Observation(m, [])
    else
      var first := Observe(m, events[0]);
      var rest := Run(first.after, events[1..]);
      Observation(rest.after, first.symbols + rest.symbols)
  }

  /** The frames carrying `bytes`, in order. */
  function Frames(bytes: seq<Byte>): (s: seq<Symbol>)
    ensures |s| == |bytes|
  {
    if |bytes| == 0 then [] else [Frame(bytes[0])] + Frames(bytes[1..])
  }

  lemma FramesAppend(a: seq<Byte>, b: seq<Byte>)
    ensures Frames(a + b) == Frames(a) + Frames(b)
    decreases |a|
  {
    if |a| > 0 {
      TailOfAppend(a, b);
      FramesAppend(a[1..], b);
    } else {
      AppendEmpty(a, b);
    }
  }

  /** Running two traces back to back observes what each observes, in order. */
  lemma {:induction false} RunAppend(m: Monitor, a: seq<Event>, b: seq<Event>)
    requires |m.bits| < 9
    ensures Run(m, a + b).after == Run(Run(m, a).after, b).after
    ensures Run(m, a + b).symbols == Run(m, a).symbols + Run(Run(m, a).after, b).symbols
    decreases |a|
  {
    if |a| == 0 {
      AppendEmpty(a, b);
    } else {
      var first := Observe(m, a[0]);
      TailOfAppend(a, b);
      RunAppend(first.after, a[1..], b);
      var restA := Run(first.after, a[1..]);
      var restB := Run(restA.after, b);
      assert Run(m, a) == Observation(restA.after, first.symbols + restA.symbols);
      assert Run(m, a + b) == Observation(restB.after, first.symbols + (restA.symbols + restB.symbols));
      Assoc(first.symbols, restA.symbols, restB.symbols);
    }
  }

  /** Two events, one after the other. */
  lemma RunPair(m: Monitor, a: Event, b: Event)
    requires |m.bits| < 9
    ensures var first := Observe(m, a);
            var second := Observe(first.after, b);
            Run(m, [a, b]) == Observation(second.after, first.symbols + second.symbols)
  {
    var first := Observe(m, a);
    var second := Observe(first.after, b);
    assert [a, b][1..] == [b] && [b][1..] == [];
    assert Run(second.after, []) == Observation(second.after, []);
    assert second.symbols + [] == second.symbols;
    assert Run(first.after, [b]) == Observation(second.after, second.symbols);
  }

  /** Two traces in which the receiver recognises nothing, run back to back,
      end where the second ends when started from where the first ends. */
  lemma RunSilent(m: Monitor, a: seq<Event>, b: seq<Event>)
    requires |m.bits| < 9
    requires Run(m, a).symbols == [] && Run(Run(m, a).after, b).symbols == []
    ensures Run(m, a + b) == Run(Run(m, a).after, b)
  {
    RunAppend(m, a, b);
  }

  /** Delays and DIO samples go unnoticed by the chip. */
  lemma {:induction false} RunPassive(m: Monitor, events: seq<Event>)
    requires |m.bits| < 9
    requires AllPassive(events)
    ensures Run(m, events) == Observation(m, [])
    decreases |events|
  {
    if |events| > 0 {
      assert Passive(events[0]);
      RunPassive(m, events[1..]);
    }
  }
}
