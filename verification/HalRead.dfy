/**
 * The I2C read path of the HAL (bno08x.cpp, i2chal_read and i2c_read) and the service step
 * that hands its result to the reassembler (shtp.c, shtp_service).
 */
module HalRead {
  import opened Bytes
  import opened Shtp
  import opened ShtpReceive

  // ---------- Faults ----------

  /** Whether each coming transaction fails; those after the end of the list do not. */
  type Faults = seq<bool>

  predicate Works(faults: Faults) {
    faults == [] || !faults[0]
  }

  function Later(faults: Faults): Faults {
    if faults == [] then [] else faults[1..]
  }

  /** How a read of the bus ends: whether it succeeds, how many bytes of the cargo are still in
      the hub, and the faults to come. */
  datatype Ending = Ending(ok: bool, left: nat, faults: Faults)

  /** Polls for a header, giving up after that many more. */
  function Polled(faults: Faults, left: nat, polls: nat): Ending {
    if Works(faults) then Ending(true, left, Later(faults))
    else if polls == 0 then Ending(false, left, Later(faults))
    else Polled(Later(faults), left, polls - 1)
  }

  /** Whether the i-th coming transaction works. */
  predicate WorksAt(faults: Faults, i: nat) {
    i < |faults| ==> !faults[i]
  }

  /** The faults after n transactions. */
  function Past(faults: Faults, n: nat): Faults {
    if n <= |faults| then faults[n..] else []
  }

  /** The header is read by the first transaction that works, when that is one of the first
      `polls` + 1. */
  lemma {:induction false} PolledAt(faults: Faults, left: nat, polls: nat, i: nat)
    requires WorksAt(faults, i) && forall j: nat :: j < i ==> !WorksAt(faults, j)
    ensures Polled(faults, left, polls) ==
      if i <= polls then Ending(true, left, Past(faults, i + 1)) else Ending(false, left, Past(faults, polls + 1))
    decreases polls
  {
    if i > 0 {
      assert !WorksAt(faults, 0);
      if polls > 0 {
        forall j: nat | j < i - 1 ensures !WorksAt(Later(faults), j) {
          assert !WorksAt(faults, j + 1);
        }
        PolledAt(Later(faults), left, polls - 1, i - 1);
      }
    }
  }

  const CHUNK := HAL_BUFFER - HDR_LEN

  /** With the first fault at transaction i, each of the i before it takes up to 252 bytes; the
      packet is complete exactly when these are all there are. */
  lemma {:induction false} ReadOutAt(faults: Faults, left: nat, i: nat)
    requires !WorksAt(faults, i) && forall j: nat :: j < i ==> WorksAt(faults, j)
    ensures var e := ReadOut(faults, left);
      && (e.ok <==> i > 0 && left <= 252 * i)
      && e.left == if e.ok then 0 else left - 252 * i
    decreases left
  {
    if i > 0 {
      assert WorksAt(faults, 0);
      if left > 252 {
        forall j: nat | j < i - 1 ensures WorksAt(Later(faults), j) {
          assert WorksAt(faults, j + 1);
        }
        ReadOutAt(Later(faults), left - 252, i - 1);
      }
    }
  }

  /** The chunks of a packet with `left` bytes of cargo to read. */
  function ReadOut(faults: Faults, left: nat): Ending {
    if !Works(faults) then Ending(false, left, Later(faults))
    else if left <= CHUNK then Ending(true, 0, Later(faults))
    else ReadOut(Later(faults), left - CHUNK)
  }

  /** One call of the HAL's read, with a buffer of `room` bytes. */
  function OneRead(faults: Faults, left: nat, polls: nat, room: nat): Ending {
    var header := Polled(faults, left, polls);
    if !header.ok || left + HDR_LEN > room then Ending(false, left, header.faults)
    else ReadOut(header.faults, left)
  }

  /** It reads a chunk and then fails, so that the hub no longer has the start of the cargo. */
  predicate CutsShort(faults: Faults, left: nat, polls: nat, room: nat) {
    var header := Polled(faults, left, polls);
    && header.ok && left + HDR_LEN <= room
    && Works(header.faults) && !OneRead(faults, left, polls, room).ok
  }

  /** One of so many calls does, before one succeeds. */
  predicate EverCut(faults: Faults, left: nat, polls: nat, room: nat, tries: nat)
    decreases tries
  {
    tries > 0 &&
      var e := OneRead(faults, left, polls, room);
      CutsShort(faults, left, polls, room) || (!e.ok && EverCut(e.faults, e.left, polls, room, tries - 1))
  }

  lemma {:induction false} ReadOutLeft(faults: Faults, left: nat)
    ensures var e := ReadOut(faults, left);
      e.left <= left && (e.ok <==> e.left == 0 && (left > 0 || Works(faults)))
        && (Works(faults) && !e.ok ==> e.left < left)
    decreases left
  {
    if Works(faults) && left > CHUNK {
      ReadOutLeft(Later(faults), left - CHUNK);
    }
  }

  /** A failed call leaves the hub less of the cargo exactly when it cut it short. */
  lemma CutsShortIff(faults: Faults, left: nat, polls: nat, room: nat)
    ensures var e := OneRead(faults, left, polls, room);
      e.left <= left && (CutsShort(faults, left, polls, room) <==> !e.ok && e.left < left)
  {
    var header := Polled(faults, left, polls);
    PolledLeft(faults, left, polls);
    ReadOutLeft(header.faults, left);
  }

  /** `lost` bytes have been cut off so far, out of what `cut` says about all the calls. */
  predicate CutSoFar(faults: Faults, left: nat, polls: nat, room: nat, tries: nat, lost: nat, cut: bool) {
    cut <==> lost > 0 || EverCut(faults, left, polls, room, tries)
  }

  lemma CutStep(faults: Faults, left: nat, polls: nat, room: nat, tries: nat, next: nat, lost: nat, cut: bool,
                e: Ending)
    requires tries == next + 1 && e == OneRead(faults, left, polls, room)
    requires CutSoFar(faults, left, polls, room, tries, lost, cut)
    ensures e.left <= left
    ensures if e.ok then cut <==> lost > 0
      else CutSoFar(e.faults, e.left, polls, room, next, lost + (left - e.left), cut)
  {
    CutsShortIff(faults, left, polls, room);
  }

  lemma {:induction false} PolledLeft(faults: Faults, left: nat, polls: nat)
    ensures Polled(faults, left, polls).left == left
    decreases polls
  {
    if !Works(faults) && polls > 0 {
      PolledLeft(Later(faults), left, polls - 1);
    }
  }

  /** A fault in the second chunk: of 300 bytes the hub then has the last 48, which the next
      call reads as if they were all. */
  lemma SecondChunkFails(polls: nat)
    ensures OneRead([false, false, true], 300, polls, MAX_TRANSFER_IN) == Ending(false, 48, [])
    ensures OneRead([], 48, polls, MAX_TRANSFER_IN) == Ending(true, 0, [])
    ensures EverCut([false, false, true], 300, polls, MAX_TRANSFER_IN, 2)
  {
    assert Later([false, false, true]) == [false, true] && Later([false, true]) == [true];
  }

  // ---------- The hub ----------

  /** The hub as seen over I2C. Every read transaction starts with a fresh four-byte header
      for what is left of the packet; a read of the header alone consumes nothing. While no
      packet waits, the header announces fewer bytes than it has itself. */
  class Hub {
    var idle: bool
    var idleLen: nat
    var chan: byte
    var seqNo: byte
    var started: bool         // part of the packet has been read
    var body: bytes           // cargo bytes still to be read
    var faults: Faults

    ghost predicate Valid()
      reads this
    {
      |body| + HDR_LEN < 0x8000 && idleLen < HDR_LEN
    }

    /** The length the next header announces. */
    function Announced(): nat
      reads this
    {
      if idle then idleLen else |body| + HDR_LEN
    }

    ghost function Packet(): (p: bytes)
      reads this
      requires Valid()
      ensures |p| >= HDR_LEN && HeaderLen(p) == Announced() && |p| == (if idle then HDR_LEN else Announced())
        && p[2] == chan
    {
      WithHeader(Header(Announced(), started, chan, seqNo), if idle then [] else body)
    }

    /** What a transaction never changes. */
    twostate predicate SameHub()
      reads this
    {
      chan == old(chan) && idle == old(idle) && idleLen == old(idleLen)
    }

    method I2cRead(n: nat) returns (ok: bool, data: bytes)
      requires Valid() && n <= if idle then HDR_LEN else |body| + HDR_LEN
      modifies this
      ensures Valid() && SameHub()
      ensures ok == Works(old(faults)) && faults == Later(old(faults))
      ensures ok ==> data == old(Packet())[..n] && body == if n > HDR_LEN then old(body)[n - HDR_LEN..] else old(body)
      ensures !ok ==> data == [] && body == old(body)
      ensures !ok || n <= HDR_LEN ==> seqNo == old(seqNo) && started == old(started)
    {
      var works := Works(faults);
      faults := Later(faults);
      if !works {
        return false, [];
      }
      ok, data := true, WithHeader(Header(Announced(), started, chan, seqNo), if idle then [] else body)[..n];
      if n > HDR_LEN {
        body, started, seqNo := body[n - HDR_LEN..], true, Next8(seqNo);
      }
    }
  }

  function WithHeader(header: bytes, body: bytes): (p: bytes)
    requires |header| == HDR_LEN
    ensures |p| == HDR_LEN + |body| && HeaderLen(p) == HeaderLen(header) && p[2] == header[2]
  {
    header + body
  }

  /** After `pos` bytes of `packet`, whose header is the first four, `rest` is left. */
  ghost predicate ReadUpTo(packet: bytes, pos: nat, buffer: bytes, rest: bytes) {
    && HDR_LEN <= pos <= |packet| && pos <= |buffer|
    && buffer[..pos] == packet[..pos] && rest == packet[pos..]
  }

  /** Copy bytes into the caller's buffer at `pos`. */
  method CopyOut(pBuffer: array<byte>, pos: nat, data: bytes)
    requires pos + |data| <= pBuffer.Length
    modifies pBuffer
    ensures pBuffer[..pos + |data|] == old(pBuffer[..pos]) + data
  {
    forall i | 0 <= i < |data| {
      pBuffer[pos + i] := data[i];
    }
  }

  /** One chunk after the first: skip the header that comes with it. */
  method NextChunk(hub: Hub, pBuffer: array<byte>, pos: nat, cargoRemaining: nat, ghost packet: bytes)
      returns (ok: bool, amount: nat)
    requires hub.Valid() && !hub.idle && cargoRemaining > 0 && pos + cargoRemaining == |packet| <= pBuffer.Length
    requires ReadUpTo(packet, pos, pBuffer[..], hub.body)
    modifies hub, pBuffer
    ensures hub.Valid() && hub.SameHub()
    ensures ok == Works(old(hub.faults)) && hub.faults == Later(old(hub.faults))
    ensures ok ==> amount == Min(CHUNK, cargoRemaining)
    ensures ok ==> 0 < amount <= cargoRemaining && ReadUpTo(packet, pos + amount, pBuffer[..], hub.body)
    ensures !ok ==> hub.body == old(hub.body)
  {
    var readSize := Min(HAL_BUFFER, cargoRemaining + HDR_LEN);
    var data: bytes;
    ghost var whole, rest, start := hub.Packet(), hub.body, pBuffer[..];
    ok, data := hub.I2cRead(readSize);
    if !ok { return false, 0; }
    amount := readSize - HDR_LEN;
    BehindHeader(whole, rest, readSize, data);
    assert start[..pos] == pBuffer[..pos];
    CopyOut(pBuffer, pos, data[HDR_LEN..]);
    assert pBuffer[..][..pos + amount] == pBuffer[..pos + amount];
    UpToNext(packet, pos, pos + amount, start, pBuffer[..], rest, hub.body);
  }

  /** The bytes of a chunk behind its own header. */
  lemma BehindHeader(whole: bytes, body: bytes, n: nat, data: bytes)
    requires |whole| == HDR_LEN + |body| && whole[HDR_LEN..] == body && HDR_LEN <= n <= |whole| && data == whole[..n]
    ensures data[HDR_LEN..] == body[..n - HDR_LEN]
  {
  }

  lemma UpToNext(packet: bytes, pos: nat, next: nat, buffer: bytes, buffer': bytes, rest: bytes, rest': bytes)
    requires ReadUpTo(packet, pos, buffer, rest) && pos <= next <= |packet| && next <= |buffer'|
    requires buffer'[..next] == buffer[..pos] + rest[..next - pos] && rest' == rest[next - pos..]
    ensures ReadUpTo(packet, next, buffer', rest')
  {
    assert packet[..pos] + packet[pos..][..next - pos] == packet[..next];
  }

  /** All chunks after the first; after a fault the hub keeps the bytes from some `stopped` on. */
  method RestOfPacket(hub: Hub, pBuffer: array<byte>, first: nat, ghost packet: bytes, packetSize: nat)
      returns (ok: bool, stopped: nat)
    requires hub.Valid() && !hub.idle && packetSize == |packet| <= pBuffer.Length
      && ReadUpTo(packet, first, pBuffer[..], hub.body)
    modifies hub, pBuffer
    ensures hub.Valid() && hub.SameHub()
    ensures ok ==> ReadUpTo(packet, packetSize, pBuffer[..], hub.body)
    ensures !ok ==> HDR_LEN <= stopped <= packetSize && hub.body == packet[stopped..]
    ensures first < packetSize ==>
      Ending(ok, |hub.body|, hub.faults) == ReadOut(old(hub.faults), packetSize - first)
  {
    var pos, cargoRemaining := first, packetSize - first;
    ghost var all := ReadOut(hub.faults, cargoRemaining);
    while cargoRemaining > 0
      invariant hub.Valid() && hub.SameHub() && pos + cargoRemaining == packetSize && 0 <= cargoRemaining
      invariant ReadUpTo(packet, pos, pBuffer[..], hub.body)
      invariant first == packetSize || ChunksLeft(hub.faults, cargoRemaining, all)
    {
      var amount: nat;
      ok, amount := NextChunk(hub, pBuffer, pos, cargoRemaining, packet);
      if !ok {
        return false, pos;
      }
      pos, cargoRemaining := pos + amount, cargoRemaining - amount;
    }
    return true, pos;
  }

  /** The chunks still to read end as they all do. */
  predicate ChunksLeft(faults: Faults, left: nat, all: Ending) {
    all == if left > 0 then ReadOut(faults, left) else Ending(true, 0, faults)
  }

  /** Poll for a header; give up after a number of failed reads. */
  method PollHeader(hub: Hub, polls: nat) returns (ok: bool, header: bytes)
    requires hub.Valid()
    modifies hub
    ensures hub.Valid() && hub.SameHub() && hub.body == old(hub.body) && hub.Packet() == old(hub.Packet())
    ensures Ending(ok, |hub.body|, hub.faults) == Polled(old(hub.faults), |hub.body|, polls)
    ensures ok ==> header == old(hub.Packet())[..HDR_LEN]
  {
    ghost var all := Polled(hub.faults, |hub.body|, polls);
    ok, header := hub.I2cRead(HDR_LEN);
    var tries := 0;
    while !ok && tries < polls
      invariant hub.Valid() && hub.SameHub() && hub.body == old(hub.body) && hub.Packet() == old(hub.Packet())
      invariant tries <= polls && (!ok && tries < polls ==> all == Polled(hub.faults, |hub.body|, polls - tries - 1))
      invariant ok || tries == polls ==> all == Ending(ok, |hub.body|, hub.faults)
      invariant ok ==> header == old(hub.Packet())[..HDR_LEN]
    {
      ok, header := hub.I2cRead(HDR_LEN);
      tries := tries + 1;
    }
  }

  /** `rest` is the end of `cargo`. */
  predicate EndOf(rest: bytes, cargo: bytes) {
    |rest| <= |cargo| && rest == cargo[|cargo| - |rest|..]
  }

  /** The first chunk, which is kept with its header. */
  method FirstChunk(hub: Hub, pBuffer: array<byte>, readSize: nat, ghost packet: bytes) returns (ok: bool)
    requires hub.Valid() && packet == hub.Packet() && 0 < readSize <= hub.Announced() && readSize <= pBuffer.Length
    modifies hub, pBuffer
    ensures hub.Valid() && hub.SameHub() && ok == Works(old(hub.faults)) && hub.faults == Later(old(hub.faults))
    ensures ok ==> pBuffer[..readSize] == packet[..readSize]
    ensures hub.body == if ok && readSize > HDR_LEN then old(hub.body)[readSize - HDR_LEN..] else old(hub.body)
  {
    var data;
    ok, data := hub.I2cRead(readSize);
    if ok {
      CopyOut(pBuffer, 0, data);
    }
  }

  /** The loop that reads the packet. */
  method ReadChunks(hub: Hub, pBuffer: array<byte>, packetSize: nat, ghost packet: bytes) returns (ok: bool)
    requires hub.Valid() && packet == hub.Packet() && 0 < packetSize == hub.Announced() <= pBuffer.Length
    modifies hub, pBuffer
    ensures hub.Valid() && hub.SameHub() && EndOf(hub.body, old(hub.body))
    ensures ok ==> pBuffer[..packetSize] == packet[..packetSize] && hub.body == if hub.idle then old(hub.body) else []
    ensures hub.idle ==> hub.body == old(hub.body) && ok == Works(old(hub.faults))
    ensures !hub.idle ==> Ending(ok, |hub.body|, hub.faults) == ReadOut(old(hub.faults), |old(hub.body)|)
  {
    var readSize := Min(HAL_BUFFER, packetSize);
    ok := FirstChunk(hub, pBuffer, readSize, packet);
    if ok && packetSize > readSize {
      BodyFrom(packet, old(hub.body), readSize);
      assert pBuffer[..][..readSize] == pBuffer[..readSize];
      var stopped: nat;
      ok, stopped := RestOfPacket(hub, pBuffer, readSize, packet, packetSize);
      assert pBuffer[..packetSize] == pBuffer[..][..packetSize];
      if !ok {
        BodyFrom(packet, old(hub.body), stopped);
      }
    }
  }

  lemma BodyFrom(packet: bytes, body: bytes, at: nat)
    requires HDR_LEN <= at <= |packet| && packet[HDR_LEN..] == body
    ensures packet[at..] == body[at - HDR_LEN..] && EndOf(packet[at..], body)
  {
  }

  lemma {:induction false} NoFaults(left: nat, polls: nat)
    ensures Polled([], left, polls) == Ending(true, left, []) && ReadOut([], left) == Ending(true, 0, [])
    decreases left
  {
    if left > CHUNK {
      NoFaults(left - CHUNK, polls);
    }
  }

  /** Read one packet in chunks. A positive result is the whole packet, header first, or the
      start of a header that announces less than itself; zero means nothing usable arrived,
      and the hub then keeps the end of the cargo, to be announced by its next header.
      Without faults every packet that fits is read. */
  method I2chalRead(hub: Hub, pBuffer: array<byte>, polls: nat) returns (r: nat)
    requires hub.Valid() && pBuffer.Length <= 0xFFFF
    modifies hub, pBuffer
    ensures hub.Valid() && hub.SameHub() && EndOf(hub.body, old(hub.body))
    ensures r > 0 ==> r == old(hub.Announced()) <= pBuffer.Length && pBuffer[..r] == old(hub.Packet())[..r]
    ensures r > 0 && !hub.idle ==> hub.body == []
    ensures hub.idle || old(hub.Announced()) > pBuffer.Length ==> hub.body == old(hub.body)
    ensures old(hub.Announced()) > pBuffer.Length ==> r == 0
    ensures !hub.idle ==>
      Ending(r > 0, |hub.body|, hub.faults) == OneRead(old(hub.faults), |old(hub.body)|, polls, pBuffer.Length)
    ensures old(hub.Announced()) <= pBuffer.Length && old(hub.faults) == [] ==> r == old(hub.Announced())
  {
    ghost var packet := hub.Packet();
    NoFaults(|hub.body|, polls);
    var ok, header := PollHeader(hub, polls);
    if !ok { return 0; }
    var packetSize := HeaderLen(header);
    assert packetSize == hub.Announced();
    if packetSize > pBuffer.Length {
      return 0;
    }
    if packetSize > 0 {
      ok := ReadChunks(hub, pBuffer, packetSize, packet);
      if !ok { return 0; }
    }
    r := packetSize;
  }

  /** What is called when a payload is complete. */
  ghost function CallsMade(rx: Receiver, chan: byte, payload: bytes): seq<Delivery>
    reads rx, rx.inPayload, rx.listening
    requires rx.Valid()
  {
    if chan < Min(MAX_CHANS, rx.nextChanListener) && rx.listening[chan] then [Delivery(chan, payload, 0)] else []
  }

  /** A transfer reaches the reassembler with exactly the length its header announces, or is
      shorter than a header. The HAL never writes the arrival time, which therefore stays zero. */
  method HandOver(rx: Receiver, t: bytes)
    requires rx.Valid() && rx.Pending() == None && (|t| < HDR_LEN || |t| == HeaderLen(t) <= MAX_PAYLOAD_IN)
    modifies rx, rx.inPayload, rx.nextInSeq
    ensures rx.Valid() && rx.inRemaining == 0 && SameReceiver(rx)
    ensures rx.shortFragments == if |t| < HDR_LEN then Next32(old(rx.shortFragments)) else old(rx.shortFragments)
    ensures rx.delivered == old(rx.delivered) + if |t| < HDR_LEN then [] else old(CallsMade(rx, t[2], t[HDR_LEN..]))
  {
    var arrivalTime: u32 := 0;
    if |t| >= HDR_LEN {
      WholePacket(rx.nextChanListener, t, arrivalTime);
    }
    rx.RxAssemble(t, arrivalTime);
  }

  /** The receive half of shtp_service over this HAL. Nothing is ever left in progress: what the
      hub still had of the cargo is delivered in one call or not at all. */
  method Service(rx: Receiver, hub: Hub, inTransfer: array<byte>, polls: nat) returns (r: nat)
    requires hub.Valid() && rx.Valid() && rx.Pending() == None && inTransfer.Length == MAX_PAYLOAD_IN
    requires inTransfer != rx.inPayload && inTransfer != rx.nextInSeq
    modifies hub, inTransfer, rx, rx.inPayload, rx.nextInSeq
    ensures hub.Valid() && hub.SameHub() && rx.Valid() && rx.inRemaining == 0 && SameReceiver(rx)
    ensures r == 0 || hub.idle ==> rx.delivered == old(rx.delivered)
    ensures r == 0 ==> EndOf(hub.body, old(hub.body))
    ensures hub.idle ==> hub.body == old(hub.body) && r < HDR_LEN
    ensures hub.idle ==> rx.shortFragments == if r > 0 then Next32(old(rx.shortFragments)) else old(rx.shortFragments)
    ensures r > 0 && !hub.idle ==>
      hub.body == [] && rx.delivered == old(rx.delivered) + old(CallsMade(rx, hub.chan, hub.body))
    ensures !hub.idle ==>
      Ending(r > 0, |hub.body|, hub.faults) == OneRead(old(hub.faults), |old(hub.body)|, polls, MAX_TRANSFER_IN)
  {
    ghost var packet := hub.Packet();
    r := I2chalRead(hub, inTransfer, polls);
    if r != 0 {
      var t := inTransfer[..r];
      assert !hub.idle ==> t == packet && packet[HDR_LEN..] == old(hub.body);
      HandOver(rx, t);
    }
  }

  /** What receiving never changes. */
  twostate predicate SameReceiver(rx: Receiver)
    reads rx, rx.listening
  {
    && rx.inPayload == old(rx.inPayload) && rx.nextInSeq == old(rx.nextInSeq)
      && rx.nextChanListener == old(rx.nextChanListener)
    && rx.listening == old(rx.listening) && rx.listening[..] == old(rx.listening[..])
  }

  /** After some calls, `lost` bytes of the cargo are gone and the hub holds the others. */
  ghost predicate Left(cargo: bytes, lost: nat, body: bytes, faults: Faults, polls: nat, tries: nat, cut: bool) {
    && lost <= |cargo| && body == cargo[lost..]
    && CutSoFar(faults, |body|, polls, MAX_TRANSFER_IN, tries, lost, cut)
  }

  /** What one more call does to this. */
  lemma LeftStep(cargo: bytes, lost: nat, body: bytes, faults: Faults, polls: nat, tries: nat, next: nat, cut: bool,
                 e: Ending, body': bytes, lost': nat)
    requires Left(cargo, lost, body, faults, polls, tries, cut) && tries == next + 1
    requires e == OneRead(faults, |body|, polls, MAX_TRANSFER_IN) && |body'| == e.left && EndOf(body', body)
    requires lost' == if e.ok then lost else |cargo| - |body'|
    ensures if e.ok then cut <==> lost > 0 else Left(cargo, lost', body', e.faults, polls, next, cut)
  {
    CutStep(faults, |body|, polls, MAX_TRANSFER_IN, tries, next, lost, cut, e);
  }

  /** One of the service steps. */
  method TryRead(rx: Receiver, hub: Hub, inTransfer: array<byte>, polls: nat, ghost tries: nat, ghost next: nat,
                 ghost cargo: bytes, ghost lost: nat, ghost cut: bool)
      returns (r: nat, ghost lost': nat)
    requires hub.Valid() && !hub.idle && rx.Valid() && rx.inRemaining == 0 && inTransfer.Length == MAX_PAYLOAD_IN
    requires inTransfer != rx.inPayload && inTransfer != rx.nextInSeq
    requires tries == next + 1 && Left(cargo, lost, hub.body, hub.faults, polls, tries, cut)
    modifies hub, inTransfer, rx, rx.inPayload, rx.nextInSeq
    ensures hub.Valid() && hub.SameHub() && rx.Valid() && rx.inRemaining == 0 && SameReceiver(rx)
    ensures r == 0 ==>
      rx.delivered == old(rx.delivered) && Left(cargo, lost', hub.body, hub.faults, polls, next, cut)
    ensures r > 0 ==> lost' == lost && hub.body == [] && (cut <==> lost > 0)
    ensures r > 0 ==> rx.delivered == old(rx.delivered) + old(CallsMade(rx, hub.chan, hub.body))
    ensures old(hub.faults) == [] && |old(hub.body)| + HDR_LEN <= MAX_PAYLOAD_IN ==> r > 0
  {
    ghost var e := OneRead(hub.faults, |hub.body|, polls, MAX_TRANSFER_IN);
    NoFaults(|hub.body|, polls);
    r := Service(rx, hub, inTransfer, polls);
    lost' := if e.ok then lost else |cargo| - |hub.body|;
    LeftStep(cargo, lost, old(hub.body), old(hub.faults), polls, tries, next, cut, e, hub.body, lost');
  }

  /** Service steps until one packet has been read, whatever bus faults come between: the one
      payload delivered is a suffix of the cargo the hub held, with arrival time zero, and it
      is all of the cargo exactly when no call read a chunk and then failed. */
  method ServiceUntilRead(rx: Receiver, hub: Hub, inTransfer: array<byte>, polls: nat, tries: nat)
      returns (done: bool, ghost lost: nat)
    requires hub.Valid() && !hub.idle && rx.Valid() && rx.Pending() == None && inTransfer.Length == MAX_PAYLOAD_IN
    requires inTransfer != rx.inPayload && inTransfer != rx.nextInSeq
    requires hub.chan < Min(MAX_CHANS, rx.nextChanListener) && rx.listening[hub.chan]
    modifies hub, inTransfer, rx, rx.inPayload, rx.nextInSeq
    ensures hub.Valid() && rx.Valid() && rx.inRemaining == 0
    ensures !done ==> rx.delivered == old(rx.delivered)
    ensures done ==> lost <= |old(hub.body)| && hub.body == []
    ensures done ==> rx.delivered == old(rx.delivered) + [Delivery(old(hub.chan), old(hub.body)[lost..], 0)]
    ensures lost == 0 <==> !EverCut(old(hub.faults), |old(hub.body)|, polls, MAX_TRANSFER_IN, tries)
    ensures old(hub.faults) == [] && |old(hub.body)| + HDR_LEN <= MAX_PAYLOAD_IN && tries > 0 ==> done && lost == 0
  {
    done, lost := false, 0;
    ghost var cargo, faultless, togo := hub.body, hub.faults == [], tries;
    ghost var cut := EverCut(hub.faults, |cargo|, polls, MAX_TRANSFER_IN, tries);
    for i := 0 to tries
      invariant hub.Valid() && hub.SameHub() && rx.Valid() && rx.inRemaining == 0 && SameReceiver(rx)
      invariant rx.delivered == old(rx.delivered) && !done
      invariant togo == tries - i && Left(cargo, lost, hub.body, hub.faults, polls, togo, cut)
      invariant faultless && |cargo| + HDR_LEN <= MAX_PAYLOAD_IN ==> i == 0 && hub.faults == [] && lost == 0
    {
      var r: nat;
      r, lost := TryRead(rx, hub, inTransfer, polls, togo, togo - 1, cargo, lost, cut);
      if r > 0 {
        return true, lost;
      }
      togo := togo - 1;
    }
  }

  lemma WholePacket(listeners: nat, t: bytes, now: u32)
    requires HDR_LEN <= |t| == HeaderLen(t) <= MAX_PAYLOAD_IN
    ensures Receive(None, listeners, t, now) ==
      Result(None, if t[2] < Min(MAX_CHANS, listeners) then Completed(t[2], t[HDR_LEN..], now) else BadChannel)
  {
    assert [] + Body(t) == t[HDR_LEN..];
  }
}
