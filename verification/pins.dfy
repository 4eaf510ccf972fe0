/** The two lines of the bus and the pin actions the driver performs on
    them. Every call the driver makes on its CLK pin, its DIO pin or its
    delay source becomes one `Event`; a run of the driver is a trace. */
module Pins {

  /** A digital line level. */
  datatype Level = Low | High

  /** One pin action: drive CLK, drive DIO, wait one bit period, or sample
      DIO (whose outcome comes from the input stream of reads). */
  datatype Event = ClkLow | ClkHigh | DioLow | DioHigh | Delay | ReadDio

  /** The event that drives DIO to the given bit value (1 = high). */
  function DioFor(bit: bool): (e: Event)
    ensures e == DioHigh || e == DioLow
    ensures e == DioHigh <==> bit
  {
    if bit then DioHigh else DioLow
  }

  /** An event that touches neither output line: a delay or a DIO sample. */
  predicate Passive(e: Event) {
    e == Delay || e == ReadDio
  }

  predicate AllPassive(events: seq<Event>) {
    forall i :: 0 <= i < |events| ==> Passive(events[i])
  }

  /** Number of occurrences of `e` in `events`. */
  function Count(events: seq<Event>, e: Event): nat {
    multiset(events)[e]
  }
}
