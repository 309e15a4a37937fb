/**
 * The DMA1 channel 1 interrupt dispatch shared by the adc_dma and
 * led_from_mic examples: which flag a handler acts on, which clear bit
 * it writes and which counter it bumps.
 */
module DmaDispatch {
  import opened FixedPoint
  import opened Registers

  /** What one handler invocation acts on. */
  datatype Event = TransferError | HalfTransfer | TransferComplete | NoEvent

  /** The flag chain of `OnDma1Channel1Interrupt`: transfer error, then half transfer, then transfer complete. */
  function Pending(isr: bv32): Event {
    if isr & IsrTeif1 != 0 then TransferError
    else if isr & IsrHtif1 != 0 then HalfTransfer
    else if isr & IsrTcif1 != 0 then TransferComplete
    else NoEvent
  }

  /** The DMA_IFCR bit the handler ORs in for an event; none when no flag is set. */
  function ClearBits(e: Event): bv32 {
    match e
    case TransferError => IfcrCteif1
    case HalfTransfer => IfcrChtif1
    case TransferComplete => IfcrCtcif1
    case NoEvent => 0
  }

  /**
   * Strict priority, both ways: an event is chosen exactly when its flag is
   * set and every flag above it is clear.
   */
  lemma PendingPriority(isr: bv32)
    ensures Pending(isr) == TransferError <==> isr & IsrTeif1 != 0
    ensures Pending(isr) == HalfTransfer <==> isr & IsrTeif1 == 0 && isr & IsrHtif1 != 0
    ensures Pending(isr) == TransferComplete <==>
      isr & IsrTeif1 == 0 && isr & IsrHtif1 == 0 && isr & IsrTcif1 != 0
    ensures Pending(isr) == NoEvent <==> isr & (IsrTeif1 | IsrHtif1 | IsrTcif1) == 0
  {
  }

  /** Only the three channel 1 flags matter: the global flag and the other channels' bits are ignored. */
  lemma PendingIgnoresOtherBits(isr: bv32)
    ensures Pending(isr) == Pending(isr & (IsrTeif1 | IsrHtif1 | IsrTcif1))
  {
  }

  /** The clear bit written is the IFCR twin of a flag that is set, so the handler acknowledges what it handled. */
  lemma ClearsWhatIsPending(isr: bv32)
    ensures Pending(isr) != NoEvent ==> ClearBits(Pending(isr)) & isr == ClearBits(Pending(isr)) != 0
    ensures Pending(isr) == NoEvent ==> ClearBits(Pending(isr)) == 0
  {
  }

  /** The three int32 event counters both examples keep. */
  datatype Counters = Counters(error: int, half: int, complete: int)

  /** The counter an event bumps can take one more without leaving int32. */
  predicate CanCount(c: Counters, e: Event) {
    match e
    case TransferError => c.error < Int32Max
    case HalfTransfer => c.half < Int32Max
    case TransferComplete => c.complete < Int32Max
    case NoEvent => true
  }

  /** One event's effect on the counters. */
  function Bump(c: Counters, e: Event): Counters {
    match e
    case TransferError => c.(error := c.error + 1)
    case HalfTransfer => c.(half := c.half + 1)
    case TransferComplete => c.(complete := c.complete + 1)
    case NoEvent => c
  }

  /** The total of the counters. */
  function Total(c: Counters): int {
    c.error + c.half + c.complete
  }

  /**
   * Each invocation bumps at most one counter, by exactly one, and only
   * when a flag is set; the counters stay in int32 when CanCount held.
   */
  lemma BumpOneCounter(c: Counters, e: Event)
    ensures Total(Bump(c, e)) == Total(c) + (if e == NoEvent then 0 else 1)
    ensures Bump(c, e).error == c.error + (if e == TransferError then 1 else 0)
    ensures Bump(c, e).half == c.half + (if e == HalfTransfer then 1 else 0)
    ensures Bump(c, e).complete == c.complete + (if e == TransferComplete then 1 else 0)
    ensures CanCount(c, e) && IsInt32(c.error) && IsInt32(c.half) && IsInt32(c.complete) ==>
      var d := Bump(c, e); IsInt32(d.error) && IsInt32(d.half) && IsInt32(d.complete)
  {
  }

  /** With no flag set nothing changes: no counter and no IFCR bit. */
  lemma NoFlagNoChange(c: Counters, isr: bv32, ifcr: bv32)
    requires isr & (IsrTeif1 | IsrHtif1 | IsrTcif1) == 0
    ensures Bump(c, Pending(isr)) == c && ifcr | ClearBits(Pending(isr)) == ifcr
  {
    PendingPriority(isr);
  }
}
