/**
 * Reassembly of SHTP cargoes from transfers (shtp.c, rxAssemble).
 *
 * The code keeps one shared buffer, one cursor and a sequence number for each channel.
 * The specification keeps at most one assembly in progress, carrying the one sequence
 * number that can matter. `Receiver.RxAssemble` refines it.
 */
module ShtpReceive {
  import opened Bytes
  import opened Shtp

  // ---------- The four-byte transfer header ----------

  function HeaderLen(t: bytes): nat
    requires |t| >= HDR_LEN
  {
    (t[0] as int + 0x100 * t[1] as int) % 0x8000
  }

  predicate IsContinuation(t: bytes)
    requires |t| >= HDR_LEN
  {
    t[1] >= 0x80
  }

  /** The length is little-endian in fifteen bits, and the sixteenth marks a continuation. */
  lemma HeaderLayout(t: bytes)
    requires |t| >= 4
    ensures t[0] as int + 0x100 * t[1] as int == HeaderLen(t) + (if IsContinuation(t) then 0x8000 else 0)
    ensures HeaderLen(t) < 0x8000
  {
  }

  function Header(length: nat, continuation: bool, chan: byte, seqNo: byte): (h: bytes)
    requires length < 0x8000
    ensures |h| == HDR_LEN && h[2] == chan && h[3] == seqNo
    ensures HeaderLen(h) == length && (IsContinuation(h) <==> continuation)
  {
    [length % 0x100, length / 0x100 + (if continuation then 0x80 else 0), chan, seqNo]
  }

  // ---------- Specification: at most one assembly in progress ----------

  datatype Assembly = Assembly(chan: byte, data: bytes, remaining: nat, nextSeq: byte, started: u32)

  datatype Outcome =
    | ShortTransfer
    | ShortHeader
    | BadChannel
    | TooLarge
    | Stored
    | Completed(chan: byte, payload: bytes, timestamp: u32)

  datatype Result = Result(pending: Option<Assembly>, outcome: Outcome)

  /** The arriving transfer continues the assembly in progress. */
  predicate Joins(pending: Option<Assembly>, t: bytes)
    requires |t| >= HDR_LEN
  {
    pending.Some? && IsContinuation(t) && t[2] == pending.value.chan && t[3] == pending.value.nextSeq
  }

  predicate Accepts(listeners: nat, t: bytes) {
    |t| >= HDR_LEN && HeaderLen(t) >= HDR_LEN && t[2] < MAX_CHANS && t[2] < listeners
  }

  /** The cargo bytes of a transfer: anything beyond the header's length is ignored. */
  function Body(t: bytes): bytes
    requires |t| >= HDR_LEN && HeaderLen(t) >= HDR_LEN
  {
    t[HDR_LEN..Min(|t|, HeaderLen(t))]
  }

  function Receive(pending: Option<Assembly>, listeners: nat, t: bytes, now: u32): (r: Result)
    ensures r.outcome.Completed? ==> r.outcome.chan < MAX_CHANS
  {
    if |t| < HDR_LEN then Result(pending, ShortTransfer)
    else if HeaderLen(t) < HDR_LEN then Result(pending, ShortHeader)
    else if !Accepts(listeners, t) then Result(pending, BadChannel)
    else if !Joins(pending, t) && HeaderLen(t) > MAX_PAYLOAD_IN then Result(None, TooLarge)
    else
      var joins := Joins(pending, t);
      var data := (if joins then pending.value.data else []) + Body(t);
      var started := if joins then pending.value.started else now;
      if |t| >= HeaderLen(t) then Result(None, Completed(t[2], data, started))
      else Result(Some(Assembly(t[2], data, HeaderLen(t) - |t|, Next8(t[3]), started)), Stored)
  }

  // ---------- The code ----------

  datatype Event = SHORT_FRAGMENT | TOO_LARGE_PAYLOADS | BAD_RX_CHAN
  datatype Delivery = Delivery(chan: byte, payload: bytes, timestamp: u32)

  class Receiver {
    var nextChanListener: nat
    var listening: array<bool>      // chan[n].callback != 0
    var nextInSeq: array<byte>      // chan[n].nextInSeq
    var inRemaining: u16
    var inChan: byte
    var inPayload: array<byte>
    var inCursor: u16
    var inTimestamp: u32
    var shortFragments: u32
    var badRxChan: u32
    var tooLargePayloads: u32
    var eventCallback: bool         // an event callback is set
    var events: seq<Event>          // calls made to it
    var delivered: seq<Delivery>    // calls made to channel callbacks

    ghost predicate Valid()
      reads this, inPayload
    {
      && listening.Length == MAX_CHANS
      && nextInSeq.Length == MAX_CHANS
      && inPayload.Length == MAX_PAYLOAD_IN
      && inCursor <= MAX_PAYLOAD_IN
      && (inRemaining > 0 ==> inChan < MAX_CHANS)
    }

    ghost function Pending(): Option<Assembly>
      reads this, inPayload, nextInSeq
      requires Valid()
    {
      if inRemaining == 0 then None
      else Some(Assembly(inChan, inPayload[..inCursor], inRemaining, nextInSeq[inChan], inTimestamp))
    }

    /** The copy into inPayload stays inside the buffer. `ShtpRuns.HubRunFits` shows that a hub
        whose headers announce the remaining cargo always meets it. */
    ghost predicate Fits(t: bytes)
      reads this, inPayload, nextInSeq
      requires Valid()
    {
      Accepts(nextChanListener, t) && Joins(Pending(), t) ==> inCursor + |Body(t)| <= MAX_PAYLOAD_IN
    }

    constructor (listeners: nat)
      ensures Valid() && Pending() == None && nextChanListener == listeners
      ensures delivered == [] && events == []
    {
      nextChanListener := listeners;
      listening := new bool[MAX_CHANS](_ => false);
      nextInSeq := new byte[MAX_CHANS](_ => 0);
      inPayload := new byte[MAX_PAYLOAD_IN](_ => 0);
      inRemaining, inChan, inCursor, inTimestamp := 0, 0, 0, 0;
      shortFragments, badRxChan, tooLargePayloads := 0, 0, 0;
      eventCallback, events, delivered := false, [], [];
    }

    method Notify(e: Event)
      modifies this`events
      ensures events == if eventCallback then old(events) + [e] else old(events)
    {
      if eventCallback { events := events + [e]; }
    }

    /** Copy bytes to the cursor and advance it. */
    method Append(more: bytes)
      requires Valid() && inCursor + |more| <= MAX_PAYLOAD_IN
      modifies this`inCursor, inPayload
      ensures Valid() && inCursor == old(inCursor) + |more|
      ensures inPayload[..inCursor] == old(inPayload[..inCursor]) + more
    {
      forall i | 0 <= i < |more| {
        inPayload[inCursor + i] := more[i];
      }
      inCursor := inCursor + |more|;
    }

    /** Drop an assembly in progress that this fragment does not continue. */
    method Discard(chan: byte, seqNo: byte, continuation: bool)
      requires Valid() && chan < MAX_CHANS
      modifies this`inRemaining
      ensures Valid()
      ensures var p := old(Pending());
        Pending() == if p.Some? && continuation && chan == p.value.chan && seqNo == p.value.nextSeq then p else None
    {
      if inRemaining > 0 {
        if !continuation || chan != inChan || seqNo != nextInSeq[chan] {
          inRemaining := 0;
        }
      }
    }

    /** The second half of RxAssemble: append a fragment, deliver when nothing remains. */
    method Store(more: bytes, left: u16, chan: byte, seqNo: byte)
      requires Valid() && inCursor + |more| <= MAX_PAYLOAD_IN && chan == inChan < MAX_CHANS
      modifies this`inRemaining, this`inCursor, inPayload, nextInSeq, this`delivered
      ensures Valid()
      ensures var data := old(inPayload[..inCursor]) + more;
        && Pending() == (if left == 0 then None else Some(Assembly(chan, data, left, Next8(seqNo), inTimestamp)))
        && delivered == old(delivered) +
          (if left == 0 && listening[chan] then [Delivery(chan, data, inTimestamp)] else [])
    {
      Append(more);
      inRemaining := left;
      if inRemaining == 0 {
        if listening[chan] {
          delivered := delivered + [Delivery(chan, inPayload[..inCursor], inTimestamp)];
        }
      }
      nextInSeq[chan] := Next8(seqNo);
    }

    /** The counters, events and callbacks that go with an outcome. */
    twostate predicate Reported(outcome: Outcome)
      requires listening.Length == MAX_CHANS && (outcome.Completed? ==> outcome.chan < MAX_CHANS)
      reads this, listening
    {
      && shortFragments ==
        (if outcome.ShortTransfer? || outcome.ShortHeader? then Next32(old(shortFragments)) else old(shortFragments))
      && badRxChan == (if outcome.BadChannel? then Next32(old(badRxChan)) else old(badRxChan))
      && tooLargePayloads == (if outcome.TooLarge? then Next32(old(tooLargePayloads)) else old(tooLargePayloads))
      && events == old(events) + (if eventCallback then EventsOf(outcome) else [])
      && delivered == old(delivered) + CallsFor(listening[..], outcome)
    }

    /** RxAssemble from the point where the header has been found valid. */
    method Assemble(input: bytes, now: u32)
      requires Valid() && Accepts(nextChanListener, input) && Fits(input)
      modifies this`inRemaining, this`inChan, this`inCursor, this`inTimestamp, inPayload, nextInSeq,
               this`tooLargePayloads, this`events, this`delivered
      ensures Valid()
      ensures Pending() == Receive(old(Pending()), nextChanListener, input, now).pending
      ensures Reported(Receive(old(Pending()), nextChanListener, input, now).outcome)
    {
      Discard(input[2], input[3], IsContinuation(input));
      TakeIn(input, now);
    }

    /** And from where nothing is in progress but what the fragment continues. */
    method TakeIn(input: bytes, now: u32)
      requires Valid() && Accepts(nextChanListener, input) && Fits(input)
      requires Pending().Some? ==> Joins(Pending(), input)
      modifies this`inRemaining, this`inChan, this`inCursor, this`inTimestamp, inPayload, nextInSeq,
               this`tooLargePayloads, this`events, this`delivered
      ensures Valid()
      ensures Pending() == Receive(old(Pending()), nextChanListener, input, now).pending
      ensures Reported(Receive(old(Pending()), nextChanListener, input, now).outcome)
    {
      var payloadLen := HeaderLen(input);
      var chan, seqNo := input[2], input[3];
      if inRemaining == 0 {
        if payloadLen > MAX_PAYLOAD_IN {
          tooLargePayloads := Next32(tooLargePayloads);
          Notify(TOO_LARGE_PAYLOADS);
          return;
        }
        inTimestamp := now;
        inCursor := 0;
        inChan := chan;
      }
      var len := |input|;
      if len > payloadLen {
        len := payloadLen;
      }
      Store(input[HDR_LEN..len], payloadLen - len, chan, seqNo);
    }

    /** Each counter goes up by at most one, and each of these events is reported. */
    twostate predicate Counted(short: bool, bad: bool, large: bool, more: seq<Event>)
      reads this
    {
      && shortFragments == (if short then Next32(old(shortFragments)) else old(shortFragments))
      && badRxChan == (if bad then Next32(old(badRxChan)) else old(badRxChan))
      && tooLargePayloads == (if large then Next32(old(tooLargePayloads)) else old(tooLargePayloads))
      && events == old(events) + if eventCallback then more else []
    }

    /** The transfers that are refused: shorter than a header, announcing less than a header, on
        a channel of no listener, or beginning a payload above 384 bytes with its header. Each
        has its counter and, but for the first, its event. The first three leave an assembly in
        progress as it was, and the last ends it. */
    method RxAssemble(input: bytes, now: u32)
      requires Valid() && Fits(input)
      modifies this`inRemaining, this`inChan, this`inCursor, this`inTimestamp, inPayload, nextInSeq,
               this`shortFragments, this`badRxChan, this`tooLargePayloads, this`events, this`delivered
      ensures Valid()
      ensures Pending() == Receive(old(Pending()), nextChanListener, input, now).pending
      ensures Reported(Receive(old(Pending()), nextChanListener, input, now).outcome)
      ensures |input| < 4 || HeaderLen(input) < 4 || input[2] >= 8 || input[2] >= nextChanListener ==>
        Pending() == old(Pending()) && delivered == old(delivered)
      ensures |input| < 4 ==> Counted(true, false, false, [])
      ensures |input| >= 4 && HeaderLen(input) < 4 ==> Counted(true, false, false, [SHORT_FRAGMENT])
      ensures |input| >= 4 && HeaderLen(input) >= 4 && (input[2] >= 8 || input[2] >= nextChanListener) ==>
        Counted(false, true, false, [BAD_RX_CHAN])
      ensures Accepts(nextChanListener, input) && HeaderLen(input) > 384 && !Joins(old(Pending()), input) ==>
        Counted(false, false, true, [TOO_LARGE_PAYLOADS]) && Pending() == None && delivered == old(delivered)
      ensures Accepts(nextChanListener, input) && (HeaderLen(input) <= 384 || Joins(old(Pending()), input)) ==>
        Counted(false, false, false, [])
    {
      if |input| < HDR_LEN {
        shortFragments := Next32(shortFragments);
        return;
      }
      if HeaderLen(input) < HDR_LEN {
        shortFragments := Next32(shortFragments);
        Notify(SHORT_FRAGMENT);
        return;
      }
      if input[2] >= MAX_CHANS || input[2] >= nextChanListener {
        badRxChan := Next32(badRxChan);
        Notify(BAD_RX_CHAN);
        return;
      }
      Assemble(input, now);
    }
  }

  function CallsFor(listening: seq<bool>, o: Outcome): seq<Delivery>
    requires |listening| == MAX_CHANS && (o.Completed? ==> o.chan < MAX_CHANS)
  {
    if o.Completed? && listening[o.chan] then [Delivery(o.chan, o.payload, o.timestamp)] else []
  }

  function EventsOf(outcome: Outcome): seq<Event> {
    match outcome
    case ShortHeader => [SHORT_FRAGMENT]
    case BadChannel => [BAD_RX_CHAN]
    case TooLarge => [TOO_LARGE_PAYLOADS]
    case _ => []
  }

  /** A transfer whose length is what its header says always leaves nothing in progress:
      it is delivered whole, or dropped. */
  lemma WholeTransferLeavesNothing(pending: Option<Assembly>, listeners: nat, t: bytes, now: u32)
    requires |t| >= HDR_LEN && |t| == HeaderLen(t) && (Accepts(listeners, t) || pending == None)
    ensures Receive(pending, listeners, t, now).pending == None
  {
  }
}
