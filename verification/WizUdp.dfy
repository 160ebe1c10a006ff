/**
 * Receiving datagrams (socket.c, recvfrom_IO_6, the UDP branch of the W5x00 chips): the
 * receive ring holds datagrams one after the other, each behind an 8-byte header, and a call
 * hands out the next piece of the current one.
 */
module WizUdp {
  import opened Bytes
  import opened WizRing

  const SOCK_BUSY := 0
  const SOCKERR_SOCKCLOSED := -4
  const SOCKERR_DATALEN := -14
  const PACK_FIRST: byte := 0x80
  const PACK_REMAINED: byte := 0x01
  const PACK_COMPLETED: byte := 0x00
  const HEAD := 8

  // ---------- Datagrams in the ring ----------

  datatype Peer = Peer(ip: bytes, port: u16)

  datatype Datagram = Datagram(peer: Peer, payload: bytes) {
    predicate Ok() {
      |peer.ip| == 4 && |payload| < 0x1_0000
    }
  }

  function Hi(x: u16): byte {
    x / 0x100
  }

  function Lo(x: u16): byte {
    x % 0x100
  }

  function Join(hi: byte, lo: byte): u16 {
    hi as int * 0x100 + lo as int
  }

  /** The chip's packet header, then the payload. */
  function Encode(d: Datagram): (e: bytes)
    requires d.Ok()
    ensures |e| == HEAD + |d.payload|
  {
    d.peer.ip + [Hi(d.peer.port), Lo(d.peer.port), Hi(|d.payload|), Lo(|d.payload|)] + d.payload
  }

  predicate AllOk(ds: seq<Datagram>) {
    forall i :: 0 <= i < |ds| ==> ds[i].Ok()
  }

  function EncodeAll(ds: seq<Datagram>): bytes
    requires AllOk(ds)
  {
    if ds == [] then [] else Encode(ds[0]) + EncodeAll(ds[1..])
  }

  lemma {:induction false} EncodeMore(ds: seq<Datagram>, d: Datagram)
    requires AllOk(ds) && d.Ok()
    ensures EncodeAll(ds + [d]) == EncodeAll(ds) + Encode(d)
    decreases |ds|
  {
    if ds == [] {
      assert [] + [d] == [d] && EncodeAll([d]) == Encode(d) + EncodeAll([d][1..]);
    } else {
      assert (ds + [d])[1..] == ds[1..] + [d];
      EncodeMore(ds[1..], d);
    }
  }

  // ---------- One call ----------

  /** The unread bytes of the ring, sock_remained_size and sock_pack_info. */
  datatype Sock = Sock(queue: bytes, remained: u16, info: byte)

  datatype Reply = Waiting | Refused(code: int) | Piece(data: bytes, peer: Option<Peer>)

  /** A flag set with a bitwise or. */
  function WithRemained(info: byte): byte {
    if info % 2 == 1 then info else info + 1
  }

  function ReadHead(s: Sock): Sock
    requires |s.queue| >= HEAD
  {
    Sock(s.queue[HEAD..], Join(s.queue[6], s.queue[7]), PACK_FIRST)
  }

  function PeerIn(head: bytes): Peer
    requires |head| >= HEAD
  {
    Peer(head[..4], Join(head[4], head[5]))
  }

  /** The next min(len, remained) bytes of the payload. */
  function TakePiece(s: Sock, len: u16): Sock
    requires s.remained <= |s.queue|
  {
    var n := Min(len, s.remained);
    Sock(s.queue[n..], s.remained - n, if s.remained > n then WithRemained(s.info) else PACK_COMPLETED)
  }

  /** The ring is at a header, or inside a payload that is all there. */
  predicate AtBoundary(s: Sock) {
    if s.remained > 0 then s.remained <= |s.queue|
    else s.queue == [] || (|s.queue| >= HEAD && ReadHead(s).remained <= |s.queue| - HEAD)
  }

  function Received(s: Sock, len: u16, closed: bool, nonBlocking: bool): (Sock, Reply)
    requires AtBoundary(s)
  {
    if len == 0 then (s, Refused(SOCKERR_DATALEN))
    else if s.remained > 0 then (TakePiece(s, len), Piece(s.queue[..Min(len, s.remained)], None))
    else if closed then (s, Refused(SOCKERR_SOCKCLOSED))
    else if s.queue == [] then (s, if nonBlocking then Refused(SOCK_BUSY) else Waiting)
    else
      var h := ReadHead(s);
      (TakePiece(h, len), Piece(h.queue[..Min(len, h.remained)], Some(PeerIn(s.queue))))
  }

  /** The chip's layout: four bytes of address, then port and length with the high byte first. */
  lemma HeaderLayout(d: Datagram)
    requires d.Ok()
    ensures var e := Encode(d);
      && e[..4] == d.peer.ip && e[8..] == d.payload
      && e[4] as int * 0x100 + e[5] as int == d.peer.port && e[6] as int * 0x100 + e[7] as int == |d.payload|
  {
  }

  /** The returned number: a datagram without payload gives the same 0 as "busy". */
  function Code(r: Reply): int {
    match r
    case Waiting => SOCK_BUSY
    case Refused(code) => code
    case Piece(data, _) => |data|
  }

  /** What a call answers when it hands out nothing new: a length of zero is refused first, then
      a closed socket between datagrams, and an empty ring is busy or waits; nothing changes.
      Inside a datagram even a closed socket goes on handing out the rest. */
  lemma Answers(s: Sock, len: u16, closed: bool, nonBlocking: bool, s': Sock, reply: Reply)
    requires AtBoundary(s) && (s', reply) == Received(s, len, closed, nonBlocking)
    ensures len == 0 ==> s' == s && Code(reply) == -14
    ensures len > 0 && s.remained > 0 ==> reply.Piece? && Code(reply) == Min(len, s.remained)
    ensures len > 0 && s.remained == 0 && closed ==> s' == s && Code(reply) == -4
    ensures len > 0 && s.remained == 0 && !closed && s.queue == [] ==>
      s' == s && Code(reply) == 0 && (reply.Waiting? <==> !nonBlocking)
    ensures reply.Piece? <==> len > 0 && (s.remained > 0 || (!closed && s.queue != []))
  {
  }

  /** Between datagrams, in non-blocking mode, a call returns 0 exactly when nothing waits or the
      next datagram has no payload; it then takes that datagram's header and nothing else. */
  lemma ZeroIff(s: Sock, len: u16, s': Sock, reply: Reply)
    requires AtBoundary(s) && len > 0 && s.remained == 0 && (s', reply) == Received(s, len, false, true)
    ensures Code(reply) == 0 <==> s.queue == [] || ReadHead(s).remained == 0
    ensures Code(reply) == 0 ==> s' == if s.queue == [] then s else Sock(ReadHead(s).queue, 0, PACK_COMPLETED)
  {
    if s.queue != [] {
      var head := ReadHead(s);
      assert head.queue[0..] == head.queue;
    }
  }

  // ---------- Pieces and datagrams ----------

  /** What is left to hand out: the rest of the current payload, then whole datagrams. */
  datatype Box = Box(current: bytes, pending: seq<Datagram>)

  predicate Holds(s: Sock, b: Box) {
    && AllOk(b.pending) && |b.current| < 0x1_0000
    && s.remained == |b.current| && s.queue == b.current + EncodeAll(b.pending)
    && (s.remained > 0 ==> s.info == PACK_FIRST + PACK_REMAINED)
    && (s.remained == 0 ==> s.info == PACK_COMPLETED)
  }

  /** A datagram at the front of the queue is found by its header. */
  lemma HeadFound(d: Datagram, more: bytes, queue: bytes)
    requires d.Ok() && queue == Encode(d) + more
    ensures |queue| >= HEAD && PeerIn(queue) == d.peer && Join(queue[6], queue[7]) == |d.payload|
    ensures queue[HEAD..] == d.payload + more
  {
    assert queue[..4] == d.peer.ip;
  }

  lemma HoldsAtBoundary(s: Sock, b: Box)
    requires Holds(s, b)
    ensures AtBoundary(s)
    ensures s.remained == 0 ==> (s.queue == [] <==> b.pending == [])
    ensures s.remained == 0 && b.pending != [] ==>
      var d := b.pending[0];
      && |s.queue| >= HEAD && PeerIn(s.queue) == d.peer
      && ReadHead(s) == Sock(d.payload + EncodeAll(b.pending[1..]), |d.payload|, PACK_FIRST)
  {
    if s.remained == 0 && b.pending != [] {
      HeadFound(b.pending[0], EncodeAll(b.pending[1..]), s.queue);
    }
  }

  /** Handing out n bytes of the current payload. */
  lemma TakeFrom(s: Sock, len: u16, payload: bytes, more: seq<Datagram>)
    requires len > 0 && AllOk(more) && |payload| < 0x1_0000 && s.remained == |payload|
      && s.queue == payload + EncodeAll(more)
    requires s.info == PACK_FIRST || s.info == PACK_FIRST + PACK_REMAINED
    ensures var n := Min(len, |payload|);
      s.queue[..n] == payload[..n] && Holds(TakePiece(s, len), Box(payload[n..], more))
  {
  }

  predicate AllPieces(pieces: seq<Reply>) {
    forall i :: 0 <= i < |pieces| ==> pieces[i].Piece?
  }

  /** The datagrams a list of pieces spells: a piece with an address begins one, a piece
      without continues it. */
  function Spelled(pieces: seq<Reply>): seq<Datagram>
    requires AllPieces(pieces)
  {
    if pieces == [] then []
    else
      var most, p := Spelled(pieces[..|pieces| - 1]), pieces[|pieces| - 1];
      if p.peer.Some? then most + [Datagram(p.peer.value, p.data)]
      else if most == [] then []
      else most[..|most| - 1] + [Datagram(most[|most| - 1].peer, most[|most| - 1].payload + p.data)]
  }

  /** Datagram i has been handed out in full, under its own address; of the last one, `rest`
      is still to come. */
  predicate SpelledAt(spelled: seq<Datagram>, arrived: seq<Datagram>, rest: bytes, i: nat)
    requires i < |spelled| <= |arrived|
  {
    && spelled[i].peer == arrived[i].peer
    && (if i == |spelled| - 1 then spelled[i].payload + rest == arrived[i].payload
      else spelled[i].payload == arrived[i].payload)
  }

  /** The first datagrams that arrived, but for `rest` of the last one. */
  ghost predicate Prefix(spelled: seq<Datagram>, arrived: seq<Datagram>, rest: bytes) {
    && |spelled| <= |arrived| && (spelled == [] ==> rest == [])
    && (forall i :: 0 <= i < |spelled| ==> SpelledAt(spelled, arrived, rest, i))
  }

  ghost predicate Spells(pieces: seq<Reply>, arrived: seq<Datagram>, k: nat, rest: bytes) {
    AllPieces(pieces) && |Spelled(pieces)| == k && Prefix(Spelled(pieces), arrived, rest)
  }

  function Continued(spelled: seq<Datagram>, data: bytes): seq<Datagram>
    requires spelled != []
  {
    spelled[..|spelled| - 1] + [Datagram(spelled[|spelled| - 1].peer, spelled[|spelled| - 1].payload + data)]
  }

  lemma SpelledMore(pieces: seq<Reply>, p: Reply)
    requires AllPieces(pieces) && p.Piece?
    ensures AllPieces(pieces + [p])
    ensures var most := Spelled(pieces);
      Spelled(pieces + [p]) ==
        if p.peer.Some? then most + [Datagram(p.peer.value, p.data)]
        else if most == [] then [] else Continued(most, p.data)
  {
    assert (pieces + [p])[..|pieces|] == pieces;
  }

  lemma PrefixOn(spelled: seq<Datagram>, arrived: seq<Datagram>, rest: bytes, n: nat)
    requires Prefix(spelled, arrived, rest) && spelled != [] && n <= |rest|
    ensures Prefix(Continued(spelled, rest[..n]), arrived, rest[n..])
  {
    var last, then' := |spelled| - 1, Continued(spelled, rest[..n]);
    assert SpelledAt(spelled, arrived, rest, last);
    Regroup(spelled[last].payload, rest, n);
    assert SpelledAt(then', arrived, rest[n..], last);
    forall i | 0 <= i < last ensures SpelledAt(then', arrived, rest[n..], i) {
      assert SpelledAt(spelled, arrived, rest, i);
    }
  }

  lemma Regroup(a: bytes, rest: bytes, n: nat)
    requires n <= |rest|
    ensures (a + rest[..n]) + rest[n..] == a + rest
  {
  }

  lemma PrefixNext(spelled: seq<Datagram>, arrived: seq<Datagram>, d: Datagram, n: nat)
    requires Prefix(spelled, arrived, []) && |spelled| < |arrived| && d == arrived[|spelled|] && n <= |d.payload|
    ensures Prefix(spelled + [Datagram(d.peer, d.payload[..n])], arrived, d.payload[n..])
  {
    var k, then' := |spelled|, spelled + [Datagram(d.peer, d.payload[..n])];
    assert d.payload[..n] + d.payload[n..] == d.payload;
    assert SpelledAt(then', arrived, d.payload[n..], k);
    forall i | 0 <= i < k ensures SpelledAt(then', arrived, d.payload[n..], i) {
      assert SpelledAt(spelled, arrived, [], i);
      assert spelled[i].payload + [] == spelled[i].payload;
    }
  }

  /** A piece without an address continues the current datagram. */
  lemma SpellsOn(pieces: seq<Reply>, arrived: seq<Datagram>, k: nat, rest: bytes, n: nat)
    requires Spells(pieces, arrived, k, rest) && k > 0 && n <= |rest|
    ensures Spells(pieces + [Piece(rest[..n], None)], arrived, k, rest[n..])
  {
    SpelledMore(pieces, Piece(rest[..n], None));
    PrefixOn(Spelled(pieces), arrived, rest, n);
  }

  /** A piece with an address begins the next one. */
  lemma SpellsNext(pieces: seq<Reply>, arrived: seq<Datagram>, k: nat, n: nat)
    requires Spells(pieces, arrived, k, []) && k < |arrived| && n <= |arrived[k].payload|
    ensures Spells(pieces + [Piece(arrived[k].payload[..n], Some(arrived[k].peer))], arrived, k + 1,
      arrived[k].payload[n..])
  {
    SpelledMore(pieces, Piece(arrived[k].payload[..n], Some(arrived[k].peer)));
    PrefixNext(Spelled(pieces), arrived, arrived[k], n);
  }

  lemma PrefixArrive(spelled: seq<Datagram>, arrived: seq<Datagram>, rest: bytes, d: Datagram)
    requires Prefix(spelled, arrived, rest)
    ensures Prefix(spelled, arrived + [d], rest)
  {
    forall i | 0 <= i < |spelled| ensures SpelledAt(spelled, arrived + [d], rest, i) {
      assert SpelledAt(spelled, arrived, rest, i);
    }
  }

  datatype Event = Arrive(d: Datagram) | Recv(len: u16, closed: bool, nonBlocking: bool)

  /** The socket, the datagrams that have arrived, and the pieces handed out. */
  datatype World = World(sock: Sock, arrived: seq<Datagram>, pieces: seq<Reply>)

  /** The first k datagrams have been handed out, but for `rest` of the last one, and the ring
      holds `rest` and the others. */
  ghost predicate Inv(w: World, k: nat, rest: bytes) {
    && AllOk(w.arrived) && Spells(w.pieces, w.arrived, k, rest)
    && Holds(w.sock, Box(rest, w.arrived[k..]))
  }

  /** An event: a datagram arrives whole, or a call is made. */
  function Happen(w: World, e: Event): World
    requires AtBoundary(w.sock) && (e.Arrive? ==> e.d.Ok())
  {
    match e
    case Arrive(d) => World(w.sock.(queue := w.sock.queue + Encode(d)), w.arrived + [d], w.pieces)
    case Recv(len, closed, nonBlocking) =>
      var (s, r) := Received(w.sock, len, closed, nonBlocking);
      World(s, w.arrived, if r.Piece? then w.pieces + [r] else w.pieces)
  }

  lemma ArriveKeeps(w: World, k: nat, rest: bytes, d: Datagram)
    requires Inv(w, k, rest) && d.Ok()
    ensures AtBoundary(w.sock) && Inv(Happen(w, Arrive(d)), k, rest)
  {
    HoldsAtBoundary(w.sock, Box(rest, w.arrived[k..]));
    PrefixArrive(Spelled(w.pieces), w.arrived, rest, d);
    assert (w.arrived + [d])[k..] == w.arrived[k..] + [d];
    HoldsMore(w.sock, rest, w.arrived[k..], d);
  }

  lemma HoldsMore(s: Sock, current: bytes, pending: seq<Datagram>, d: Datagram)
    requires Holds(s, Box(current, pending)) && d.Ok()
    ensures Holds(s.(queue := s.queue + Encode(d)), Box(current, pending + [d]))
  {
    EncodeMore(pending, d);
    assert s.queue + Encode(d) == current + (EncodeAll(pending) + Encode(d));
  }

  /** A call inside a datagram. */
  lemma RecvOn(w: World, k: nat, rest: bytes, len: u16, closed: bool, nonBlocking: bool)
    requires Inv(w, k, rest) && len > 0 && rest != []
    ensures AtBoundary(w.sock) && Inv(Happen(w, Recv(len, closed, nonBlocking)), k, rest[Min(len, |rest|)..])
  {
    HoldsAtBoundary(w.sock, Box(rest, w.arrived[k..]));
    TakeFrom(w.sock, len, rest, w.arrived[k..]);
    SpellsOn(w.pieces, w.arrived, k, rest, Min(len, |rest|));
  }

  /** A call between datagrams, when one is waiting. */
  lemma RecvNext(w: World, k: nat, len: u16, nonBlocking: bool)
    requires Inv(w, k, []) && len > 0 && k < |w.arrived|
    ensures AtBoundary(w.sock)
    ensures var payload := w.arrived[k].payload;
      Inv(Happen(w, Recv(len, false, nonBlocking)), k + 1, payload[Min(len, |payload|)..])
  {
    var payload, more := w.arrived[k].payload, w.arrived[k + 1..];
    HoldsAtBoundary(w.sock, Box([], w.arrived[k..]));
    assert w.arrived[k..][1..] == more;
    TakeFrom(ReadHead(w.sock), len, payload, more);
    SpellsNext(w.pieces, w.arrived, k, Min(len, |payload|));
  }

  /** Any other call is refused or finds nothing, and changes nothing. */
  lemma RecvNothing(w: World, k: nat, rest: bytes, len: u16, closed: bool, nonBlocking: bool)
    requires Inv(w, k, rest) && (len == 0 || (rest == [] && (closed || k == |w.arrived|)))
    ensures AtBoundary(w.sock) && Happen(w, Recv(len, closed, nonBlocking)) == w
  {
    HoldsAtBoundary(w.sock, Box(rest, w.arrived[k..]));
  }

  lemma RecvKeeps(w: World, k: nat, rest: bytes, len: u16, closed: bool, nonBlocking: bool)
      returns (k': nat, rest': bytes)
    requires Inv(w, k, rest)
    ensures AtBoundary(w.sock) && Inv(Happen(w, Recv(len, closed, nonBlocking)), k', rest')
  {
    k', rest' := k, rest;
    if len > 0 && rest != [] {
      RecvOn(w, k, rest, len, closed, nonBlocking);
      rest' := rest[Min(len, |rest|)..];
    } else if len > 0 && !closed && k < |w.arrived| {
      RecvNext(w, k, len, nonBlocking);
      k', rest' := k + 1, w.arrived[k].payload[Min(len, |w.arrived[k].payload|)..];
    } else {
      RecvNothing(w, k, rest, len, closed, nonBlocking);
    }
  }

  predicate AllOkEvents(es: seq<Event>) {
    forall i :: 0 <= i < |es| ==> es[i].Arrive? ==> es[i].d.Ok()
  }

  function Fresh(): World {
    World(Sock([], 0, PACK_COMPLETED), [], [])
  }

  /** A run that stays inside the calls' reach; `RunKeeps` shows that every run does. */
  function Run(es: seq<Event>): World
    requires AllOkEvents(es)
    decreases |es|
  {
    if es == [] then Fresh()
    else
      var w := Run(es[..|es| - 1]);
      if AtBoundary(w.sock) then Happen(w, es[|es| - 1]) else w
  }

  /** Over every run, whatever the lengths asked for, the pieces spell the datagrams in order
      of arrival, each under its own address and complete but for what is still in the ring. */
  lemma {:induction false} RunKeeps(es: seq<Event>) returns (k: nat, rest: bytes)
    requires AllOkEvents(es)
    ensures Inv(Run(es), k, rest) && AtBoundary(Run(es).sock)
    decreases |es|
  {
    k, rest := 0, [];
    if es != [] {
      var most, e := es[..|es| - 1], es[|es| - 1];
      k, rest := RunKeeps(most);
      match e
      case Arrive(d) => ArriveKeeps(Run(most), k, rest, d);
      case Recv(len, closed, nonBlocking) => k, rest := RecvKeeps(Run(most), k, rest, len, closed, nonBlocking);
    }
    HoldsAtBoundary(Run(es).sock, Box(rest, Run(es).arrived[k..]));
  }

  /** When nothing of the current datagram is left, the ring stands at the header of the next
      one, and what has been handed out is exactly the datagrams before it. */
  lemma BetweenDatagrams(es: seq<Event>)
    requires AllOkEvents(es) && Run(es).sock.remained == 0
    ensures var w := Run(es);
      && AllPieces(w.pieces) && Spelled(w.pieces) <= w.arrived && AllOk(w.arrived)
      && w.sock.queue == EncodeAll(w.arrived[|Spelled(w.pieces)|..]) && w.sock.info == PACK_COMPLETED
  {
    var k, rest := RunKeeps(es);
    var w := Run(es);
    forall i | 0 <= i < k ensures Spelled(w.pieces)[i] == w.arrived[i] {
      assert SpelledAt(Spelled(w.pieces), w.arrived, rest, i);
      assert Spelled(w.pieces)[i].payload + [] == Spelled(w.pieces)[i].payload;
    }
  }

  /** While something of it is left, the "first piece" flag stays set, middle pieces included. */
  lemma {:induction false} FirstStaysSet(es: seq<Event>)
    requires AllOkEvents(es)
    ensures var s := Run(es).sock; s.info == if s.remained > 0 then 0x81 else 0
  {
    var k, rest := RunKeeps(es);
  }

  /** Between datagrams a call returns 0 when nothing waits and when the next datagram is empty,
      and either way leaves the same flags and nothing remaining: the flag promised for an
      empty datagram, PACK_FIRST, never comes with a 0. */
  lemma EmptyLooksBusy(es: seq<Event>, len: u16)
    requires AllOkEvents(es) && len > 0 && Run(es).sock.remained == 0
    ensures AtBoundary(Run(es).sock) && AllPieces(Run(es).pieces)
    ensures var w := Run(es);
      var (s, reply) := Received(w.sock, len, false, true);
      var k := |Spelled(w.pieces)|;
      && k <= |w.arrived|
      && (Code(reply) == 0 <==> k == |w.arrived| || w.arrived[k].payload == [])
      && (Code(reply) == 0 ==> s.remained == 0 && s.info == PACK_COMPLETED)
  {
    var k, rest := RunKeeps(es);
    var pending := Run(es).arrived[k..];
    assert rest == [] && (k < |Run(es).arrived| ==> pending[0] == Run(es).arrived[k]);
    EmptyCall(Run(es).sock, pending, len);
  }

  lemma EmptyCall(sock: Sock, pending: seq<Datagram>, len: u16)
    requires Holds(sock, Box([], pending)) && len > 0
    ensures AtBoundary(sock)
    ensures var (s, reply) := Received(sock, len, false, true);
      && (Code(reply) == 0 <==> pending == [] || pending[0].payload == [])
      && (Code(reply) == 0 ==> s.remained == 0 && s.info == PACK_COMPLETED)
  {
    HoldsAtBoundary(sock, Box([], pending));
    var (s, reply) := Received(sock, len, false, true);
    ZeroIff(sock, len, s, reply);
  }

  // ---------- How many calls a datagram takes ----------

  function CallsFor(n: nat, len: nat): (c: nat)
    requires len > 0
    ensures c > 0
  {
    if n <= len then 1 else 1 + CallsFor(n - len, len)
  }

  /** max(1, ceil(n / len)). */
  lemma {:induction false} CallsAreCeiling(n: nat, len: nat)
    requires len > 0
    ensures var c := CallsFor(n, len); n <= c * len && (c > 1 ==> (c - 1) * len < n)
    decreases n
  {
    if n > len {
      CallsAreCeiling(n - len, len);
      var c := CallsFor(n - len, len);
      assert (1 + c) * len == len + c * len && c > 1 ==> c * len == len + (c - 1) * len;
    }
  }

  /** The socket after j calls with the same length. */
  function After(s: Sock, len: u16, j: nat): Sock
    decreases j
  {
    if j == 0 || !AtBoundary(s) then s else After(Received(s, len, false, true).0, len, j - 1)
  }

  lemma AfterStep(s: Sock, len: u16, s': Sock, j: nat)
    requires AtBoundary(s) && s' == Received(s, len, false, true).0 && j > 0
    ensures After(s, len, j) == After(s', len, j - 1)
  {
  }

  /** A call inside a datagram. */
  lemma NextCall(s: Sock, len: u16, rest: bytes, left: bytes, more: seq<Datagram>) returns (s': Sock)
    requires len > 0 && Holds(s, Box(rest, more)) && rest != [] && left == rest[Min(len, |rest|)..]
    ensures AtBoundary(s) && s' == Received(s, len, false, true).0 && Holds(s', Box(left, more))
  {
    HoldsAtBoundary(s, Box(rest, more));
    TakeFrom(s, len, rest, more);
    s' := TakePiece(s, len);
  }

  /** The calls left for the rest of a payload. */
  lemma {:induction false} RestTakes(s: Sock, len: u16, rest: bytes, more: seq<Datagram>, j: nat)
    requires len > 0 && Holds(s, Box(rest, more)) && rest != [] && j <= CallsFor(|rest|, len)
    ensures j == CallsFor(|rest|, len) ==> Holds(After(s, len, j), Box([], more))
    ensures j < CallsFor(|rest|, len) ==> After(s, len, j).remained > 0
    decreases |rest|
  {
    if j > 0 {
      var left := rest[Min(len, |rest|)..];
      var s' := NextCall(s, len, rest, left, more);
      AfterStep(s, len, s', j);
      if |rest| > len {
        RestTakes(s', len, left, more, j - 1);
      }
    }
  }

  /** The call that begins a datagram. */
  lemma FirstCall(s: Sock, len: u16, d: Datagram, more: seq<Datagram>) returns (s': Sock)
    requires len > 0 && d.Ok() && AllOk(more) && Holds(s, Box([], [d] + more))
    ensures AtBoundary(s) && s' == Received(s, len, false, true).0
    ensures Holds(s', Box(d.payload[Min(len, |d.payload|)..], more))
  {
    HoldsAtBoundary(s, Box([], [d] + more));
    assert ([d] + more)[1..] == more;
    TakeFrom(ReadHead(s), len, d.payload, more);
    s' := TakePiece(ReadHead(s), len);
  }

  /** A datagram of n bytes takes exactly max(1, ceil(n / len)) calls of length len: after
      that many it has all been handed out, after fewer there is still some left. */
  lemma DatagramTakes(s: Sock, len: u16, d: Datagram, more: seq<Datagram>, j: nat)
    requires len > 0 && d.Ok() && AllOk(more) && Holds(s, Box([], [d] + more)) && 0 < j <= CallsFor(|d.payload|, len)
    ensures j == CallsFor(|d.payload|, len) ==> Holds(After(s, len, j), Box([], more))
    ensures j < CallsFor(|d.payload|, len) ==> After(s, len, j).remained > 0
  {
    var s' := FirstCall(s, len, d, more);
    AfterStep(s, len, s', j);
    if |d.payload| > len {
      RestTakes(s', len, d.payload[len..], more, j - 1);
    } else {
      assert d.payload[Min(len, |d.payload|)..] == [];
    }
  }

  // ---------- The code ----------

  /** Sn_RX_RSR: what has been received and not yet released. */
  function ReceivedSize(r: Ring): u16 {
    if r.wr >= r.rd then r.wr - r.rd else r.wr - r.rd + 0x1_0000
  }

  lemma ReceivedIs(r: Ring, stream: bytes, done: nat)
    requires Refines(r, stream, done)
    ensures ReceivedSize(r) == |stream| - done
  {
    SlotAdd(done, |stream| - done, 0x1_0000);
  }

  class UdpSocket {
    const chip: Chip
    const sn: nat
    var remainedSize: u16    // sock_remained_size[sn]
    var packInfo: byte       // sock_pack_info[sn]

    constructor (chip: Chip, sn: nat)
      ensures this.chip == chip && this.sn == sn && remainedSize == 0 && packInfo == PACK_COMPLETED
    {
      this.chip, this.sn := chip, sn;
      remainedSize, packInfo := 0, PACK_COMPLETED;
    }

    /** The ring has received `stream` and released its first `done` bytes; `queue` is left. */
    ghost predicate At(queue: bytes, stream: bytes, done: nat)
      reads chip, chip.mem
    {
      chip.Valid() && sn < SOCK_NUM && Refines(chip.RingOf(false, sn), stream, done) && queue == stream[done..]
    }

    ghost predicate Is(s: Sock)
      reads this
    {
      remainedSize == s.remained && packInfo == s.info
    }

    method GetRxRSR(ghost queue: bytes, ghost stream: bytes, ghost done: nat) returns (size: u16)
      requires At(queue, stream, done)
      ensures size == |queue|
    {
      ReceivedIs(chip.RingOf(false, sn), stream, done);
      size := ReceivedSize(Ring(0, [], chip.rxWr[sn], chip.rxRd[sn]));
    }

    /** wiz_recv_data and the RECV command. */
    method Take(n: u16, ghost queue: bytes, ghost stream: bytes, ghost done: nat) returns (data: bytes)
      requires At(queue, stream, done) && n <= |queue|
      modifies chip`rxRd
      ensures At(queue[n..], stream, done + n) && data == queue[..n]
    {
      ReadRefines(chip.RingOf(false, sn), stream, done, n);
      data := chip.WizRecvData(sn, n);
      assert stream[done..][n..] == stream[done + n..] && stream[done..][..n] == stream[done..done + n];
    }

    method TakeHead(ghost s: Sock, ghost stream: bytes, ghost done: nat) returns (peer: Peer)
      requires At(s.queue, stream, done) && |s.queue| >= HEAD
      modifies this, chip`rxRd
      ensures At(ReadHead(s).queue, stream, done + HEAD) && Is(ReadHead(s)) && peer == PeerIn(s.queue)
    {
      var head := Take(HEAD, s.queue, stream, done);
      assert head[..4] == s.queue[..4];
      peer := PeerIn(head);
      remainedSize := Join(head[6], head[7]);
      packInfo := PACK_FIRST;
    }

    method NextPiece(len: u16, ghost s: Sock, ghost stream: bytes, ghost done: nat) returns (data: bytes)
      requires At(s.queue, stream, done) && Is(s) && s.remained <= |s.queue|
      modifies this, chip`rxRd
      ensures At(TakePiece(s, len).queue, stream, done + Min(len, s.remained)) && Is(TakePiece(s, len))
      ensures data == s.queue[..Min(len, s.remained)]
    {
      var n := Min(len, remainedSize);
      data := Take(n, s.queue, stream, done);
      remainedSize := remainedSize - n;
      packInfo := if remainedSize != 0 then WithRemained(packInfo) else PACK_COMPLETED;
    }

    method RecvFrom(len: u16, closed: bool, nonBlocking: bool, ghost s: Sock, ghost stream: bytes, ghost done: nat)
        returns (reply: Reply, ghost done': nat)
      requires At(s.queue, stream, done) && Is(s) && AtBoundary(s)
      modifies this, chip`rxRd
      ensures reply == Received(s, len, closed, nonBlocking).1
      ensures var s' := Received(s, len, closed, nonBlocking).0; At(s'.queue, stream, done') && Is(s')
    {
      done' := done;
      if len == 0 {
        return Refused(SOCKERR_DATALEN), done;
      }
      var peer: Option<Peer> := None;
      ghost var here := s;
      if remainedSize == 0 {
        var packLen := GetRxRSR(s.queue, stream, done);
        if closed {
          return Refused(SOCKERR_SOCKCLOSED), done;
        }
        if packLen == 0 {
          return if nonBlocking then Refused(SOCK_BUSY) else Waiting, done;
        }
        var p := TakeHead(s, stream, done);
        peer, here, done' := Some(p), ReadHead(s), done + HEAD;
      }
      var data := NextPiece(len, here, stream, done');
      done' := done' + Min(len, here.remained);
      reply := Piece(data, peer);
    }
  }

  // ---------- Runs on the chip ----------

  /** The events without the datagrams that arrive when there is no room for them. */
  function Admitted(es: seq<Event>, size: nat): (admitted: seq<Event>)
    requires AllOkEvents(es)
    ensures AllOkEvents(admitted)
    decreases |es|
  {
    if es == [] then []
    else
      var most, e := Admitted(es[..|es| - 1], size), es[|es| - 1];
      if e.Arrive? && |Run(most).sock.queue| + |Encode(e.d)| > size then most else most + [e]
  }

  /** The socket is where the run `es` leaves it, and these pieces have been handed out. */
  ghost predicate InStep(u: UdpSocket, es: seq<Event>, pieces: seq<Reply>, stream: bytes, done: nat)
    requires AllOkEvents(es)
    reads u, u.chip, u.chip.mem
  {
    var w := Run(es);
    u.At(w.sock.queue, stream, done) && u.Is(w.sock) && pieces == w.pieces
  }

  lemma RunMore(es: seq<Event>, e: Event)
    requires AllOkEvents(es) && (e.Arrive? ==> e.d.Ok())
    ensures AllOkEvents(es + [e]) && AtBoundary(Run(es).sock) && Run(es + [e]) == Happen(Run(es), e)
  {
    var k, rest := RunKeeps(es);
    assert (es + [e])[..|es|] == es;
  }

  lemma StillWaiting(stream: bytes, done: nat, data: bytes, stream': bytes, queue: bytes)
    requires done <= |stream| && queue == stream[done..] && stream' == stream + data
    ensures stream'[done..] == queue + data
  {
  }

  /** A datagram arrives. The chip stores it whole, behind its header, or drops it. */
  method Arrives(u: UdpSocket, d: Datagram, ghost es: seq<Event>, ghost pieces: seq<Reply>, ghost stream: bytes,
                 ghost done: nat)
      returns (taken: bool, ghost stream': bytes)
    requires AllOkEvents(es) && d.Ok() && InStep(u, es, pieces, stream, done)
    modifies u.chip`rxWr, u.chip.mem
    ensures u.chip.sizes == old(u.chip.sizes)
    ensures taken <==> |Run(es).sock.queue| + |Encode(d)| <= Size(u.chip.sizes.rx[u.sn])
    ensures if taken then AllOkEvents(es + [Arrive(d)]) && InStep(u, es + [Arrive(d)], pieces, stream', done)
            else InStep(u, es, pieces, stream', done)
  {
    ghost var queue := Run(es).sock.queue;
    var size := u.GetRxRSR(queue, stream, done);
    var data := Encode(d);
    taken := size + |data| <= Size(u.chip.sizes.rx[u.sn]);
    stream' := stream;
    RunMore(es, Arrive(d));
    if taken {
      stream' := stream + data;
      WriteRefines(u.chip.RingOf(false, u.sn), stream, done, data);
      StillWaiting(stream, done, data, stream', queue);
      u.chip.HardwareReceives(u.sn, data);
    }
  }

  /** A call, when the run has come so far. */
  method Calls(u: UdpSocket, len: u16, closed: bool, nonBlocking: bool, ghost es: seq<Event>, pieces: seq<Reply>,
               ghost stream: bytes, ghost done: nat) returns (pieces': seq<Reply>, ghost done': nat)
    requires AllOkEvents(es) && InStep(u, es, pieces, stream, done)
    modifies u, u.chip`rxRd
    ensures u.chip.sizes == old(u.chip.sizes)
    ensures AllOkEvents(es + [Recv(len, closed, nonBlocking)])
    ensures InStep(u, es + [Recv(len, closed, nonBlocking)], pieces', stream, done')
  {
    RunMore(es, Recv(len, closed, nonBlocking));
    var reply;
    reply, done' := u.RecvFrom(len, closed, nonBlocking, Run(es).sock, stream, done);
    pieces' := if reply.Piece? then pieces + [reply] else pieces;
  }

  /** Over every run of arrivals and calls, on the chip's wrapped receive region with its 16-bit
      pointers: the pieces handed out spell the datagrams that had room when they arrived, in
      order, each under its own address and complete but for what is still in the ring. */
  method RunOnChip(u: UdpSocket, es: seq<Event>, ghost stream: bytes)
      returns (pieces: seq<Reply>, ghost k: nat, ghost rest: bytes)
    requires AllOkEvents(es) && u.At([], stream, |stream|) && u.Is(Fresh().sock)
    modifies u, u.chip`rxRd, u.chip`rxWr, u.chip.mem
    ensures var w := Run(Admitted(es, Size(old(u.chip.sizes).rx[u.sn])));
      pieces == w.pieces && Inv(w, k, rest)
  {
    ghost var size, now, done: nat := Size(u.chip.sizes.rx[u.sn]), stream, |stream|;
    ghost var admitted: seq<Event> := [];
    pieces := [];
    for i := 0 to |es|
      invariant u.chip.sizes == old(u.chip.sizes)
      invariant admitted == Admitted(es[..i], size) && InStep(u, admitted, pieces, now, done)
    {
      assert es[..i + 1][..i] == es[..i];
      match es[i]
      case Arrive(d) =>
        var taken;
        taken, now := Arrives(u, d, admitted, pieces, now, done);
        admitted := if taken then admitted + [es[i]] else admitted;
      case Recv(len, closed, nonBlocking) =>
        pieces, done := Calls(u, len, closed, nonBlocking, admitted, pieces, now, done);
        admitted := admitted + [es[i]];
    }
    assert es[..|es|] == es;
    k, rest := RunKeeps(admitted);
  }
}
