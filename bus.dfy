/**
  What a panel driver does to the hardware, as a trace of events: the data/command pin,
  SPI writes, the reset pin and delays. Both panel drivers (ST7735 and ST7789) are
  modelled as appending to such a trace.
 */
module Bus {
  import opened Bytes

  /** One effect of a driver on the hardware. */
  datatype Event =
    | Dc(high: bool)          // the data/command pin driven
    | Write(bytes: seq<u8>)   // one `spi.write`
    | Reset(high: bool)       // the reset pin driven
    | Delay(ms: nat)          // `Timer::after_millis`

  /** The bytes of all writes in a trace, in order. */
  function Written(trace: seq<Event>): (bytes: seq<u8>)
    decreases |trace|
  {
    if trace == [] then [] else (if trace[0].Write? then trace[0].bytes else []) + Written(trace[1..])
  }

  predicate AllWrites(t: seq<Event>) {
    forall i :: 0 <= i < |t| ==> t[i].Write?
  }

  lemma {:induction false} WrittenAppend(a: seq<Event>, b: seq<Event>)
    ensures Written(a + b) == Written(a) + Written(b)
    decreases |a|
  {
    if a == [] {
      assert a + b == b;
    } else {
      assert (a + b)[1..] == a[1..] + b;
      WrittenAppend(a[1..], b);
    }
  }
}
