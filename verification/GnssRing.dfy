/**
 * The GNSS byte ring between cores (main.cpp, gnss_ring_push, gnss_ring_pop,
 * gnss_uart_irq_handler): one producer and one consumer, no lock. Each read or write of a
 * shared variable is one atomic step, and the two sides interleave in any order.
 */
module GnssRing {
  import opened Bytes

  const RING_SIZE := 4096

  /** The slot of the i-th byte ever accepted. */
  function Slot(i: nat): nat {
    i % RING_SIZE
  }

  function NextSlot(slot: nat): nat {
    if slot + 1 == RING_SIZE then 0 else slot + 1
  }

  lemma SlotNext(i: nat)
    ensures Slot(i) < RING_SIZE && Slot(i + 1) == NextSlot(Slot(i))
  {
  }

  /** Fewer than RING_SIZE bytes apart, two bytes never share a slot. */
  lemma SlotsApart(i: nat, j: nat)
    requires i <= j < i + RING_SIZE
    ensures Slot(i) == Slot(j) <==> i == j
  {
  }

  /** The slot after byte h - 1 is the oldest one, t, exactly when the ring is full. */
  lemma FullIff(t: nat, h: nat)
    requires t <= h < t + RING_SIZE
    ensures NextSlot(Slot(h)) == Slot(t) <==> h - t == RING_SIZE - 1
  {
    SlotNext(h);
  }

  // ---------- The shared variables and where each side is ----------

  /** The producer: idle, holding a byte, having found room for it, having stored it. */
  datatype Producer = PIdle | PHolds(c: byte) | PRoom(c: byte) | PStored(c: byte)

  /** The consumer: idle, having seen a byte, having read it. */
  datatype Consumer = CIdle | CSees | CRead(c: byte)

  datatype State = State(
    ring: seq<byte>, head: nat, tail: nat, bytesRx: u32, overflow: u32,
    producer: Producer, consumer: Consumer,
    received: nat, accepted: bytes, dropped: nat, popped: bytes)   // what has happened so far
  {
    predicate InBounds() {
      |ring| == RING_SIZE && head < RING_SIZE && tail < RING_SIZE
    }
  }

  /** Receive is the arrival of a byte in the interrupt handler, Poll the start of a pop; the
      other two let a side do its next access. */
  datatype Step = Receive(c: byte) | Produce | Poll | Consume

  function Init(): State {
    State(seq(RING_SIZE, _ => 0), 0, 0, 0, 0, PIdle, CIdle, 0, [], 0, [])
  }

  function Produces(s: State): (s': State)
    requires s.InBounds()
    ensures s'.InBounds()
  {
    match s.producer
    case PIdle => s
    case PHolds(c) =>
      if NextSlot(s.head) == s.tail then s.(overflow := Next32(s.overflow), dropped := s.dropped + 1, producer := PIdle)
      else s.(producer := PRoom(c))
    case PRoom(c) => s.(ring := s.ring[s.head := c], producer := PStored(c))
    case PStored(c) => s.(head := NextSlot(s.head), accepted := s.accepted + [c], producer := PIdle)
  }

  function Consumes(s: State): (s': State)
    requires s.InBounds()
    ensures s'.InBounds()
  {
    match s.consumer
    case CIdle => s
    case CSees => s.(consumer := CRead(s.ring[s.tail]))
    case CRead(c) => s.(tail := NextSlot(s.tail), popped := s.popped + [c], consumer := CIdle)
  }

  function Next(s: State, step: Step): (s': State)
    requires s.InBounds()
    ensures s'.InBounds()
  {
    match step
    case Receive(c) =>
      if s.producer != PIdle then s
      else s.(bytesRx := Next32(s.bytesRx), received := s.received + 1, producer := PHolds(c))
    case Produce => Produces(s)
    case Poll => if s.consumer == CIdle && s.tail != s.head then s.(consumer := CSees) else s
    case Consume => Consumes(s)
  }

  // ---------- The invariant ----------

  /** The i-th byte accepted is still in its slot. */
  predicate HeldAt(ring: seq<byte>, accepted: bytes, i: nat)
    requires |ring| == RING_SIZE && i < |accepted|
  {
    ring[Slot(i)] == accepted[i]
  }

  ghost predicate Inv(s: State) {
    && s.InBounds()
    && s.head == Slot(|s.accepted|) && s.tail == Slot(|s.popped|)
    && s.popped <= s.accepted && |s.accepted| < |s.popped| + RING_SIZE
    && (forall i :: |s.popped| <= i < |s.accepted| ==> HeldAt(s.ring, s.accepted, i))
    && (s.producer.PRoom? || s.producer.PStored? ==> |s.accepted| + 1 < |s.popped| + RING_SIZE)
    && (s.producer.PStored? ==> s.ring[s.head] == s.producer.c)
    && (s.consumer != CIdle ==> |s.popped| < |s.accepted|)
    && (s.consumer.CRead? ==> s.consumer.c == s.accepted[|s.popped|])
    && s.received == |s.accepted| + s.dropped + (if s.producer == PIdle then 0 else 1)
    && s.bytesRx == Low32(s.received) && s.overflow == Low32(s.dropped)
  }

  lemma ProduceKeeps(s: State)
    requires Inv(s)
    ensures Inv(Produces(s))
  {
    var s' := Produces(s);
    var h, t := |s.accepted|, |s.popped|;
    SlotNext(h);
    match s.producer
    case PIdle =>
    case PHolds(c) =>
      Low32Next(s.dropped);
      FullIff(t, h);
    case PRoom(c) =>
      forall i | t <= i < h ensures HeldAt(s'.ring, s'.accepted, i) {
        assert HeldAt(s.ring, s.accepted, i);
        SlotsApart(i, h);
      }
    case PStored(c) =>
      forall i | t <= i < h + 1 ensures HeldAt(s'.ring, s'.accepted, i) {
        if i < h { assert HeldAt(s.ring, s.accepted, i); }
      }
  }

  lemma ConsumeKeeps(s: State)
    requires Inv(s)
    ensures Inv(Consumes(s))
  {
    var s' := Consumes(s);
    var t := |s.popped|;
    SlotNext(t);
    if s.consumer == CSees {
      assert HeldAt(s.ring, s.accepted, t);
    } else if s.consumer.CRead? {
      assert s'.popped == s.accepted[..t + 1];
      forall i | t + 1 <= i < |s.accepted| ensures HeldAt(s'.ring, s'.accepted, i) {
        assert HeldAt(s.ring, s.accepted, i);
      }
    }
  }

  lemma NextKeeps(s: State, step: Step)
    requires Inv(s)
    ensures Inv(Next(s, step))
  {
    SlotNext(|s.accepted|);
    SlotNext(|s.popped|);
    match step
    case Receive(c) => Low32Next(s.received);
    case Produce => ProduceKeeps(s);
    case Poll =>
      if |s.popped| == |s.accepted| { assert s.tail == s.head; }
    case Consume => ConsumeKeeps(s);
  }

  /** The state after an interleaving. */
  function Run(steps: seq<Step>): (s: State)
    ensures s.InBounds()
    decreases |steps|
  {
    if steps == [] then Init() else Next(Run(steps[..|steps| - 1]), steps[|steps| - 1])
  }

  lemma {:induction false} RunInv(steps: seq<Step>)
    ensures Inv(Run(steps))
    decreases |steps|
  {
    if steps != [] {
      RunInv(steps[..|steps| - 1]);
      NextKeeps(Run(steps[..|steps| - 1]), steps[|steps| - 1]);
    }
  }

  // ---------- What every interleaving guarantees ----------

  /** Bytes come out in the order they went in, and at most 4095 are held. */
  lemma PopsArePrefix(steps: seq<Step>)
    ensures var s := Run(steps); s.popped <= s.accepted && |s.accepted| - |s.popped| <= RING_SIZE - 1
  {
    RunInv(steps);
  }

  /** What was popped or accepted stays so, whatever happens next. */
  lemma OnlyGrows(steps: seq<Step>, step: Step)
    ensures var s, s' := Run(steps), Run(steps + [step]);
      s.popped <= s'.popped && s.accepted <= s'.accepted && s.received <= s'.received && s.dropped <= s'.dropped
  {
    assert (steps + [step])[..|steps|] == steps;
  }

  /** While the consumer is at a slot, the producer is not writing that slot. */
  lemma NeverTheSameSlot(steps: seq<Step>)
    ensures var s := Run(steps);
      s.consumer != CIdle && (s.producer.PRoom? || s.producer.PStored?) ==> s.head != s.tail
  {
    var s := Run(steps);
    RunInv(steps);
    if s.consumer != CIdle && (s.producer.PRoom? || s.producer.PStored?) {
      SlotsApart(|s.popped|, |s.accepted|);
    }
  }

  /** A byte is dropped exactly when 4095 bytes are held at the moment the producer looks. */
  lemma DropsIffFull(steps: seq<Step>)
    requires Run(steps).producer.PHolds?
    ensures var s, s' := Run(steps), Run(steps + [Produce]);
      && (s'.dropped == s.dropped + 1 <==> |s.accepted| - |s.popped| == RING_SIZE - 1)
      && (s'.producer.PRoom? <==> |s.accepted| - |s.popped| < RING_SIZE - 1)
  {
    var s := Run(steps);
    RunInv(steps);
    assert (steps + [Produce])[..|steps|] == steps;
    assert Run(steps + [Produce]) == Next(s, Produce) == Produces(s);
    FullIff(|s.popped|, |s.accepted|);
  }

  /** A poll finds the ring empty exactly when every accepted byte has been popped. */
  lemma EmptyIff(steps: seq<Step>)
    requires Run(steps).consumer == CIdle
    ensures var s := Run(steps); Run(steps + [Poll]).consumer == CIdle <==> s.popped == s.accepted
  {
    var s := Run(steps);
    RunInv(steps);
    assert (steps + [Poll])[..|steps|] == steps;
    SlotsApart(|s.popped|, |s.accepted|);
    if |s.popped| == |s.accepted| {
      assert s.popped == s.accepted;
    }
  }

  /** What the indices say the ring holds. */
  function Held(s: State): (n: int)
    requires s.InBounds()
  {
    if s.head >= s.tail then s.head - s.tail else s.head + RING_SIZE - s.tail
  }

  lemma HeldBetween(s: State)
    requires Inv(s)
    ensures Held(s) == |s.accepted| - |s.popped|
  {
  }

  /** At every moment each byte received has been popped, is held between the two indices, was
      dropped, or is the one in the producer's hands, and the 32-bit counters say so modulo
      2^32. The bytes held are the accepted ones that come after those popped. */
  lemma Conservation(steps: seq<Step>)
    ensures var s := Run(steps);
      var inHand := if s.producer == PIdle then 0 else 1;
      && s.popped <= s.accepted && Held(s) == |s.accepted[|s.popped|..]|
      && s.received == |s.popped| + Held(s) + s.dropped + inHand
      && s.bytesRx == Low32(|s.popped| + Held(s) + s.overflow + inHand)
  {
    var s := Run(steps);
    RunInv(steps);
    HeldBetween(s);
    LowSum(s.dropped, s.received - s.dropped);
  }

  lemma LowSum(a: nat, b: nat)
    ensures Low32(Low32(a) + b) == Low32(a + b)
  {
  }

  // ---------- The code ----------

  /** The code on one side runs through its steps; `s` names the state it starts from. */
  class Ring {
    var ring: array<byte>
    var head: u16
    var tail: u16
    var bytesRx: u32
    var overflow: u32

    constructor ()
      ensures Holds(Init()) && fresh(ring)
    {
      ring := new byte[RING_SIZE](_ => 0);
      head, tail, bytesRx, overflow := 0, 0, 0, 0;
    }

    ghost predicate Holds(s: State)
      reads this, ring
    {
      Inv(s) && ring[..] == s.ring && head == s.head && tail == s.tail && bytesRx == s.bytesRx && overflow == s.overflow
    }

    method Push(c: byte, ghost s: State) returns (ok: bool, ghost s': State)
      requires Holds(s) && s.producer == PHolds(c)
      modifies this`head, this`overflow, ring
      ensures Holds(s') && s'.producer == PIdle && s'.consumer == s.consumer
      ensures s' == if ok then Produces(Produces(Produces(s))) else Produces(s)
      ensures ok <==> |s.accepted| - |s.popped| < RING_SIZE - 1
      ensures s'.popped == s.popped && s'.accepted == if ok then s.accepted + [c] else s.accepted
    {
      SlotNext(|s.accepted|);
      FullIff(|s.popped|, |s.accepted|);
      ProduceKeeps(s);
      s' := Produces(s);
      var next := if head + 1 == RING_SIZE then 0 else head + 1;
      if next == tail {
        overflow := Next32(overflow);
        return false, s';
      }
      ring[head] := c;
      ProduceKeeps(s');
      s' := Produces(s');
      head := next;
      ProduceKeeps(s');
      s' := Produces(s');
      ok := true;
    }

    method Pop(ghost s: State) returns (c: Option<byte>, ghost s': State)
      requires Holds(s) && s.consumer == CIdle
      modifies this`tail
      ensures Holds(s') && s'.consumer == CIdle && s'.producer == s.producer
      ensures c.None? <==> s.popped == s.accepted
      ensures c.None? ==> s' == s
      ensures c.Some? ==> s' == Consumes(Consumes(s.(consumer := CSees))) && s'.popped == s.popped + [c.value]
      ensures s'.accepted == s.accepted
    {
      SlotNext(|s.popped|);
      SlotsApart(|s.popped|, |s.accepted|);
      if tail == head {
        assert s.popped == s.accepted;
        return None, s;
      }
      NextKeeps(s, Poll);
      s' := Next(s, Poll);
      var b := ring[tail];
      ConsumeKeeps(s');
      s' := Consumes(s');
      tail := if tail + 1 == RING_SIZE then 0 else tail + 1;
      ConsumeKeeps(s');
      s' := Consumes(s');
      c := Some(b);
    }

    /** One byte of the UART: counted, and accepted if there is room. */
    method ReceiveByte(c: byte, ghost s: State) returns (ghost s': State)
      requires Holds(s) && s.producer == PIdle
      modifies this`head, this`overflow, this`bytesRx, ring
      ensures Holds(s') && s'.producer == PIdle && s'.consumer == s.consumer && s'.popped == s.popped
      ensures s'.received == s.received + 1
      ensures s'.accepted == if |s.accepted| - |s.popped| < RING_SIZE - 1 then s.accepted + [c] else s.accepted
    {
      NextKeeps(s, Receive(c));
      s' := Next(s, Receive(c));
      bytesRx := Next32(bytesRx);
      var ok;
      ok, s' := Push(c, s');
    }

    /** The interrupt handler empties the UART's buffer. */
    method UartIrqHandler(uart: bytes, ghost s: State) returns (ghost s': State)
      requires Holds(s) && s.producer == PIdle
      modifies this`head, this`overflow, this`bytesRx, ring
      ensures Holds(s') && s'.producer == PIdle && s'.consumer == s.consumer && s'.popped == s.popped
      ensures s'.received == s.received + |uart|
      ensures s.accepted <= s'.accepted
        && |s'.accepted| - |s.accepted| == Min(|uart|, RING_SIZE - 1 - (|s.accepted| - |s.popped|))
      ensures s'.accepted[|s.accepted|..] <= uart
    {
      s' := s;
      for i := 0 to |uart|
        invariant Holds(s') && s'.producer == PIdle && s'.consumer == s.consumer && s'.popped == s.popped
        invariant s'.received == s.received + i
        invariant s'.accepted == s.accepted + uart[..Min(i, RING_SIZE - 1 - (|s.accepted| - |s.popped|))]
      {
        s' := ReceiveByte(uart[i], s');
      }
    }
  }
}
