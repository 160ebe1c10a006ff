/**
 * Flash records (sh2.c, setFrs and getFrs): a record is written two words at a time, each
 * pair sent when the hub asks for more, and read back from the hub's numbered responses.
 */
module Sh2Frs {
  import opened Bytes
  import opened Sh2Err

  type words = seq<u32>

  datatype Request =
    | WriteReq(length: u16, frsType: u16)
    | WriteData(offset: u16, data0: u32, data1: u32)
    | ReadReq(readOffset: u16, frsType: u16, blockSize: u16)

  /** A report handed to the operation in progress. */
  datatype Report =
    | WriteResp(status: byte)
    | ReadResp(dataLen: byte, status: byte, wordOffset: u16, data0: u32, data1: u32)
    | Unrelated(reportId: byte)

  // ---------- Writing: the host ----------

  const RECEIVED: byte := 0
  const WRITE_COMPLETED: byte := 3
  const READY: byte := 4
  const NOT_READY: byte := 6
  const RECORD_VALID: byte := 8

  predicate GoAhead(status: byte) {
    status == RECEIVED || status == READY
  }

  predicate WriteError(status: byte) {
    status in {1, 2, 5, NOT_READY, 7, 9, 10, 11}
  }

  /** A write in progress: the record, the words sent so far, and how the operation ended. */
  datatype Writer = Writer(data: words, offset: nat, busy: bool, status: int)

  /** The request that carries words o and o + 1, with a zero after an odd last word. */
  function DataAt(data: words, o: nat): Request
    requires o < |data| <= 0xFFFF
  {
    WriteData(o, data[o], if o + 1 < |data| then data[o + 1] else 0)
  }

  /** What a response does to a write in progress, and what it makes the host send. */
  function SetRx(w: Writer, r: Report): (Writer, seq<Request>)
    requires w.offset <= |w.data| <= 0xFFFF
  {
    if !r.WriteResp? then (w, [])
    else if WriteError(r.status) then (w.(busy := false, status := SH2_ERR_HUB), [])
    else if r.status == WRITE_COMPLETED then (w.(busy := false, status := SH2_OK), [])
    else if GoAhead(r.status) && w.offset < |w.data| then
      (w.(offset := Min(w.offset + 2, |w.data|)), [DataAt(w.data, w.offset)])
    else (w, [])
  }

  /** Statuses by which a hub ends a write: unrecognized type, busy, failed, not ready, invalid
      length, invalid record, device error, read only. Each of them ends it with an error and
      sends nothing; 3 ends it with success; 0 and 4 ask for the next two words, if any are
      left; no other status does anything. */
  lemma WriteStatuses(w: Writer, status: byte)
    requires w.offset <= |w.data| <= 0xFFFF
    ensures var (w', sent) := SetRx(w, WriteResp(status));
      && (status in {1, 2, 5, 6, 7, 9, 10, 11} ==> w' == w.(busy := false, status := -5) && sent == [])
      && (status == 3 ==> w' == w.(busy := false, status := 0) && sent == [])
      && (status in {0, 4} && w.offset < |w.data| ==>
            && w' == w.(offset := w'.offset)
              && w'.offset == (if w.offset + 1 < |w.data| then w.offset + 2 else |w.data|)
            && |sent| == 1 && sent[0].WriteData? && sent[0].offset == w.offset && sent[0].data0 == w.data[w.offset]
            && sent[0].data1 == if w.offset + 1 < |w.data| then w.data[w.offset + 1] else 0)
      && (status == 8 || status > 11 || (status in {0, 4} && w.offset == |w.data|) ==> w' == w && sent == [])
  {
  }

  // ---------- Writing: a hub that takes the record or rejects it ----------

  datatype Hub = Hub(records: map<u16, words>, frsType: u16, target: nat, got: words, open: bool, queue: seq<Report>)

  /** What the hub is free to choose on a request: how it asks for more, what it says before it
      reports that the write is complete, and whether it rejects the write instead. */
  datatype Choice = Choice(ready: bool, received: bool, valid: bool, error: Option<byte>) {
    predicate Rejects() {
      error.Some? && error.value in {1, 2, 5, 6, 7, 9, 10, 11}
    }
  }

  function Closing(c: Choice): seq<Report> {
    (if c.received then [WriteResp(0)] else []) + (if c.valid then [WriteResp(8)] else []) + [WriteResp(3)]
  }

  function Take(h: Hub, q: Request, c: Choice): Hub {
    match q
    case WriteReq(n, t) =>
      if c.Rejects() then h.(open := false, queue := h.queue + [WriteResp(c.error.value)])
      else if n == 0 then h.(records := h.records[t := []], open := false, queue := h.queue + Closing(c))
      else Hub(h.records, t, n, [], true, h.queue + [WriteResp(4)])
    case WriteData(o, d0, d1) =>
      if !h.open || o != |h.got| then h.(queue := h.queue + [WriteResp(6)])
      else if c.Rejects() then h.(open := false, queue := h.queue + [WriteResp(c.error.value)])
      else
        var got := h.got + (if |h.got| + 1 < h.target then [d0, d1] else [d0]);
        if |got| < h.target then h.(got := got, queue := h.queue + [WriteResp(if c.ready then 4 else 0)])
        else h.(records := h.records[h.frsType := got], got := got, open := false, queue := h.queue + Closing(c))
    case ReadReq(_, _, _) => h
  }

  // ---------- Writing: the conversation ----------

  /** One service step: nothing arrives, an unrelated report arrives, or the hub's next
      response does; `rc` is then what the transport answers if the host sends a request. */
  datatype Tick = Quiet | Noise(r: Report) | Deliver(choice: Choice, rc: int)

  /** `sent` are the requests the transport accepted; it refused `refused` others. */
  datatype Sys = Sys(host: Writer, hub: Hub, sent: seq<Request>, refused: nat) {
    predicate Ok() {
      host.offset <= |host.data| <= 0xFFFF
    }
  }

  /** A refused request does not reach the hub, and the host goes on as if it had. */
  function Hears(s: Sys, r: Report, c: Choice, rc: int): (s': Sys)
    requires s.Ok()
    ensures s'.Ok()
  {
    var (w, qs) := SetRx(s.host, r);
    if qs == [] then s.(host := w)
    else if rc == SH2_OK then Sys(w, Take(s.hub, qs[0], c), s.sent + qs, s.refused)
    else s.(host := w, refused := s.refused + 1)
  }

  function TickStep(s: Sys, t: Tick): (s': Sys)
    requires s.Ok()
    ensures s'.Ok()
  {
    if !s.host.busy then s
    else match t
      case Quiet => s
      case Noise(r) => if r.WriteResp? then s else Hears(s, r, Choice(true, true, true, None), SH2_OK)
      case Deliver(c, rc) =>
        if s.hub.queue == [] then s
        else Hears(s.(hub := s.hub.(queue := s.hub.queue[1..])), s.hub.queue[0], c, rc)
  }

  function SetRun(s: Sys, ticks: seq<Tick>): (s': Sys)
    requires s.Ok()
    ensures s'.Ok()
  {
    if ticks == [] then s else TickStep(SetRun(s, ticks[..|ticks| - 1]), ticks[|ticks| - 1])
  }

  /** The write request has just been sent. */
  function Started(data: words, recordId: u16, hub: Hub, c: Choice): Sys
    requires |data| <= 0xFFFF
  {
    var q := WriteReq(|data|, recordId);
    Sys(Writer(data, 0, true, SH2_OK), Take(hub, q, c), [q], 0)
  }

  predicate PairAt(sent: seq<Request>, data: words, i: nat)
    requires 0 < i < |sent|
  {
    2 * i - 2 < |data| <= 0xFFFF && sent[i] == DataAt(data, 2 * i - 2)
  }

  /** The requests so far: the write request, then the words in order, two by two, each once. */
  ghost predicate InOrder(sent: seq<Request>, data: words, recordId: u16, offset: nat) {
    && |data| <= 0xFFFF && |sent| > 0 && sent[0] == WriteReq(|data|, recordId)
    && offset == Min(2 * |sent| - 2, |data|)
    && (forall i :: 0 < i < |sent| ==> PairAt(sent, data, i))
  }

  /** Harmless remarks, then the completion. */
  ghost predicate Ending(queue: seq<Report>) {
    && 0 < |queue| <= 3 && queue[|queue| - 1] == WriteResp(3)
    && (forall i :: 0 <= i < |queue| - 1 ==> queue[i] == WriteResp(0) || queue[i] == WriteResp(8))
  }

  /** What every step of the conversation keeps while no request has been refused. */
  ghost predicate Inv(s: Sys, data: words, recordId: u16, records: map<u16, words>) {
    && s.Ok() && s.host.data == data && InOrder(s.sent, data, recordId, s.host.offset)
    && s.host.status == SH2_OK && s.refused == 0
    && (s.host.busy && s.hub.open ==>
          && s.hub.records == records && s.hub.frsType == recordId && s.hub.target == |data|
          && s.host.offset < |data| && s.hub.got == data[..s.host.offset]
          && (s.hub.queue == [WriteResp(0)] || s.hub.queue == [WriteResp(4)]))
    && (!s.host.busy || !s.hub.open ==>
          s.hub.records == records[recordId := data] && s.host.offset == |data| && !s.hub.open)
    && (s.host.busy && !s.hub.open ==> Ending(s.hub.queue))
  }

  lemma StartedInv(data: words, recordId: u16, hub: Hub, c: Choice)
    requires |data| <= 0xFFFF && hub.queue == []
    ensures var s := Started(data, recordId, hub, c);
      if c.Rejects() then Rejected(s, hub.records) else Inv(s, data, recordId, hub.records)
  {
  }

  /** Once a request has been refused: the write is in progress, the hub owes no response and
      its records are what they were. */
  ghost predicate Stalled(s: Sys, records: map<u16, words>) {
    s.Ok() && s.refused == 1 && s.host.busy && s.hub.queue == [] && s.hub.records == records
  }

  /** Once the hub has rejected the write: its records are what they were, and the host has heard
      of it or is about to. */
  ghost predicate Rejected(s: Sys, records: map<u16, words>) {
    && s.Ok() && s.refused == 0 && s.hub.records == records && !s.hub.open
    && if s.host.busy then |s.hub.queue| == 1 && s.hub.queue[0].WriteResp?
      && s.hub.queue[0].status in {1, 2, 5, 6, 7, 9, 10, 11}
       else s.host.status == SH2_ERR_HUB
  }

  ghost predicate Known(s: Sys, data: words, recordId: u16, records: map<u16, words>) {
    Inv(s, data, recordId, records) || Stalled(s, records) || Rejected(s, records)
  }

  lemma OrderMore(sent: seq<Request>, data: words, recordId: u16, offset: nat)
    requires InOrder(sent, data, recordId, offset) && offset < |data|
    ensures InOrder(sent + [DataAt(data, offset)], data, recordId, Min(offset + 2, |data|))
  {
    var more := sent + [DataAt(data, offset)];
    forall i | 0 < i < |more| ensures PairAt(more, data, i) {
      assert i < |sent| ==> PairAt(sent, data, i);
    }
  }

  /** The go-ahead makes the host send the next pair and the hub store it. */
  lemma PairStep(s: Sys, c: Choice, data: words, recordId: u16, records: map<u16, words>)
    requires Inv(s, data, recordId, records) && s.host.busy && s.hub.open && !c.Rejects()
    ensures var s' := TickStep(s, Deliver(c, SH2_OK));
      Inv(s', data, recordId, records) && s'.host.busy && s.host.offset < s'.host.offset
  {
    var o, s' := s.host.offset, TickStep(s, Deliver(c, SH2_OK));
    var q := DataAt(data, o);
    assert s'.sent == s.sent + [q] && s'.hub == Take(s.hub.(queue := []), q, c);
    PairTaken(s.hub.(queue := []), q, c, data, o);
    OrderMore(s.sent, data, recordId, o);
  }

  /** What the hub makes of the pair. */
  lemma PairTaken(h: Hub, q: Request, c: Choice, data: words, o: nat)
    requires o < |data| <= 0xFFFF && q == DataAt(data, o) && !c.Rejects()
    requires h.open && h.queue == [] && h.target == |data| && h.got == data[..o]
    ensures var h', next := Take(h, q, c), Min(o + 2, |data|);
      if next < |data| then
        && h' == h.(got := data[..next], queue := h'.queue)
        && (h'.queue == [WriteResp(0)] || h'.queue == [WriteResp(4)])
      else !h'.open && h'.records == h.records[h.frsType := data] && Ending(h'.queue)
  {
    assert data[..o] + [data[o]] == data[..o + 1] && data[..|data|] == data;
    assert o + 1 < |data| ==> data[..o] + [data[o], data[o + 1]] == data[..o + 2];
  }

  lemma RejectStep(s: Sys, c: Choice, data: words, recordId: u16, records: map<u16, words>)
    requires Inv(s, data, recordId, records) && s.host.busy && s.hub.open && c.Rejects()
    ensures var s' := TickStep(s, Deliver(c, SH2_OK)); Rejected(s', records) && s'.host.busy
  {
  }

  /** A go-ahead whose request is refused is used up for nothing. */
  lemma RefusedStep(s: Sys, c: Choice, rc: int, data: words, recordId: u16, records: map<u16, words>)
    requires Inv(s, data, recordId, records) && s.host.busy && s.hub.open && rc != SH2_OK
    ensures Stalled(TickStep(s, Deliver(c, rc)), records)
  {
  }

  lemma EndStep(s: Sys, c: Choice, rc: int, data: words, recordId: u16, records: map<u16, words>)
    requires Inv(s, data, recordId, records) && s.host.busy && !s.hub.open
    ensures var s' := TickStep(s, Deliver(c, rc));
      Inv(s', data, recordId, records) && (s'.host.busy ==> !s'.hub.open && |s'.hub.queue| < |s.hub.queue|)
  {
  }

  /** Responses the hub still has to give before the operation is over, at most. */
  ghost function Left(s: Sys): nat
    requires s.Ok()
  {
    if !s.host.busy then 0 else if s.hub.open then |s.host.data| - s.host.offset + 3 else |s.hub.queue|
  }

  ghost predicate Nearer(s: Sys, t: Tick, s': Sys)
    requires s.Ok() && s'.Ok()
  {
    s'.refused == 0 ==> Left(s') <= (if t.Deliver? && Left(s) > 0 then Left(s) - 1 else Left(s))
  }

  lemma TickKeeps(s: Sys, t: Tick, data: words, recordId: u16, records: map<u16, words>)
    requires Known(s, data, recordId, records)
    ensures Known(TickStep(s, t), data, recordId, records) && Nearer(s, t, TickStep(s, t))
    ensures Rejected(s, records) ==> Rejected(TickStep(s, t), records)
    ensures s.refused <= TickStep(s, t).refused
  {
    if Inv(s, data, recordId, records) && s.host.busy && t.Deliver? {
      if !s.hub.open {
        EndStep(s, t.choice, t.rc, data, recordId, records);
      } else if t.rc == SH2_OK {
        if t.choice.Rejects() {
          RejectStep(s, t.choice, data, recordId, records);
        } else {
          PairStep(s, t.choice, data, recordId, records);
        }
      } else {
        RefusedStep(s, t.choice, t.rc, data, recordId, records);
      }
    }
  }

  ghost function Deliveries(ticks: seq<Tick>): nat {
    if ticks == [] then 0
    else Deliveries(ticks[..|ticks| - 1]) + if ticks[|ticks| - 1].Deliver? then 1 else 0
  }

  /** Whatever is interleaved, whatever the hub chooses and whatever the transport refuses,
      every step keeps the invariant, or the write is stalled or rejected; without a refusal it
      is over after at most |data| + 3 responses. */
  lemma {:induction false} WriteRun(data: words, recordId: u16, hub: Hub, c: Choice, ticks: seq<Tick>)
    requires |data| <= 0xFFFF && hub.queue == []
    ensures var s := SetRun(Started(data, recordId, hub, c), ticks);
      && Known(s, data, recordId, hub.records)
      && (s.refused == 0 ==> Left(s) <= (if Deliveries(ticks) < |data| + 3 then |data| + 3 - Deliveries(ticks) else 0))
  {
    if ticks == [] {
      StartedInv(data, recordId, hub, c);
    } else {
      var before, t := ticks[..|ticks| - 1], ticks[|ticks| - 1];
      WriteRun(data, recordId, hub, c, before);
      TickKeeps(SetRun(Started(data, recordId, hub, c), before), t, data, recordId, hub.records);
    }
  }

  /** Data requests that a record takes. */
  function Pairs(data: words): nat {
    (|data| + 1) / 2
  }

  /** The hub rejects the write request, or one of the requests for the first `pairs` pairs. */
  ghost predicate Rejects(c: Choice, ticks: seq<Tick>, pairs: nat) {
    if ticks == [] then c.Rejects()
    else
      var before, t := ticks[..|ticks| - 1], ticks[|ticks| - 1];
      Rejects(c, before, pairs) || (t.Deliver? && Deliveries(before) < pairs && t.choice.Rejects())
  }

  /** The transport accepts the request made at each of the first `pairs` responses, as far as
      they ask for words: until the hub rejects the write. */
  ghost predicate FirstAccepted(c: Choice, ticks: seq<Tick>, pairs: nat) {
    ticks == [] ||
    var before, t := ticks[..|ticks| - 1], ticks[|ticks| - 1];
    && FirstAccepted(c, before, pairs)
    && (t.Deliver? && Deliveries(before) < pairs && !Rejects(c, before, pairs) ==> t.rc == SH2_OK)
  }

  /** Without a refusal the first responses are the go-aheads, one for each pair, until the hub
      rejects the write. */
  ghost predicate InPace(s: Sys, data: words, recordId: u16, records: map<u16, words>, deliveries: nat, rejects: bool) {
    if rejects then Rejected(s, records)
    else
      && Inv(s, data, recordId, records) && s.hub.open == (deliveries < Pairs(data))
      && (s.hub.open ==> s.host.busy && |s.sent| - 1 == deliveries)
  }

  lemma PaceKept(s: Sys, t: Tick, data: words, recordId: u16, records: map<u16, words>, deliveries: nat, rejects: bool)
    requires InPace(s, data, recordId, records, deliveries, rejects)
    requires t.Deliver? && deliveries < Pairs(data) && !rejects ==> t.rc == SH2_OK
    ensures var s' := TickStep(s, t);
      && s'.refused == 0
      && InPace(s', data, recordId, records, if t.Deliver? then deliveries + 1 else deliveries,
                rejects || (t.Deliver? && deliveries < Pairs(data) && t.choice.Rejects()))
  {
    TickKeeps(s, t, data, recordId, records);
    if t.Deliver? && !rejects {
      if s.hub.open && t.choice.Rejects() {
        RejectStep(s, t.choice, data, recordId, records);
      } else if s.hub.open {
        PairStep(s, t.choice, data, recordId, records);
        assert |TickStep(s, t).sent| == |s.sent| + 1;
      } else if s.host.busy {
        EndStep(s, t.choice, t.rc, data, recordId, records);
      }
    }
  }

  /** A data request is refused exactly when the transport refuses one of the first
      (n + 1) / 2 times the hub asks for words. */
  lemma {:induction false} RefusedIff(data: words, recordId: u16, hub: Hub, c: Choice, ticks: seq<Tick>)
    requires |data| <= 0xFFFF && hub.queue == []
    ensures var s := SetRun(Started(data, recordId, hub, c), ticks);
      && (s.refused == 0 <==> FirstAccepted(c, ticks, Pairs(data)))
      && (s.refused == 0 ==>
            InPace(s, data, recordId, hub.records, Deliveries(ticks), Rejects(c, ticks, Pairs(data))))
    decreases |ticks|
  {
    if ticks == [] {
      StartedInv(data, recordId, hub, c);
    } else {
      var before, t := ticks[..|ticks| - 1], ticks[|ticks| - 1];
      var s, rejects := SetRun(Started(data, recordId, hub, c), before), Rejects(c, before, Pairs(data));
      RefusedIff(data, recordId, hub, c, before);
      WriteRun(data, recordId, hub, c, before);
      TickKeeps(s, t, data, recordId, hub.records);
      if s.refused == 0 {
        if t.Deliver? && Deliveries(before) < Pairs(data) && !rejects && t.rc != SH2_OK {
          RefusedStep(s, t.choice, t.rc, data, recordId, hub.records);
        } else {
          PaceKept(s, t, data, recordId, hub.records, Deliveries(before), rejects);
        }
      }
    }
  }

  /** The operation has no timeout, and nothing in it looks at the transport's answer: given
      enough service steps a write ends, with success or with the hub's rejection, exactly when
      the transport has accepted the request each time the hub asked for words. */
  lemma WriteEndsIff(data: words, recordId: u16, hub: Hub, c: Choice, ticks: seq<Tick>)
    requires |data| <= 0xFFFF && hub.queue == []
    ensures var s := SetRun(Started(data, recordId, hub, c), ticks);
      && (!FirstAccepted(c, ticks, Pairs(data)) ==> s.host.busy && s.hub.records == hub.records)
      && (Deliveries(ticks) >= |data| + 3 ==> (!s.host.busy <==> FirstAccepted(c, ticks, Pairs(data))))
  {
    WriteRun(data, recordId, hub, c, ticks);
    RefusedIff(data, recordId, hub, c, ticks);
  }

  /** If the very first data request is refused, no further service step ends the write or
      gives the hub a word of it, whatever the transport answers from then on. */
  lemma RefusedPairNeverEnds(data: words, recordId: u16, hub: Hub, c: Choice, c': Choice, rc: int, more: seq<Tick>)
    requires 0 < |data| <= 0xFFFF && hub.queue == [] && rc != SH2_OK && !c.Rejects()
    ensures var s := SetRun(Started(data, recordId, hub, c), [Deliver(c', rc)] + more);
      s.refused == 1 && s.host.busy && s.hub.got == [] && s.hub.records == hub.records
  {
    var s0, first := Started(data, recordId, hub, c), [Deliver(c', rc)];
    assert first[..0] == [] && SetRun(s0, first) == TickStep(SetRun(s0, []), first[0]);
    var s := SetRun(s0, first);
    assert s.host.busy && s.hub.queue == [];
    NothingOwed(s0, first, more);
  }

  /** Once the hub owes no response nothing changes any more. */
  lemma {:induction false} NothingOwed(s: Sys, ticks: seq<Tick>, more: seq<Tick>)
    requires s.Ok() && SetRun(s, ticks).host.busy && SetRun(s, ticks).hub.queue == []
    ensures SetRun(s, ticks + more) == SetRun(s, ticks)
    decreases |more|
  {
    if more == [] {
      assert ticks + more == ticks;
    } else {
      var all := ticks + more;
      assert all[..|all| - 1] == ticks + more[..|more| - 1];
      NothingOwed(s, ticks, more[..|more| - 1]);
    }
  }

  /** Once the operation is over nothing changes either. */
  lemma {:induction false} StaysOver(s: Sys, ticks: seq<Tick>, k: nat)
    requires s.Ok() && k <= |ticks| && !SetRun(s, ticks[..k]).host.busy
    ensures SetRun(s, ticks) == SetRun(s, ticks[..k])
    decreases |ticks|
  {
    if k == |ticks| {
      assert ticks[..k] == ticks;
    } else {
      var before := ticks[..|ticks| - 1];
      assert before[..k] == ticks[..k];
      StaysOver(s, before, k);
    }
  }

  /** A finished write that the hub did not reject has succeeded: the hub holds exactly the record,
      no other record has changed, and the data requests covered every word once, in order, two
      at a time, with a zero after an odd last word. One that it did reject has failed with the
      hub's error and changed no record. */
  lemma WriteCompletes(data: words, recordId: u16, hub: Hub, c: Choice, ticks: seq<Tick>)
    requires |data| <= 0xFFFF && hub.queue == []
    requires !SetRun(Started(data, recordId, hub, c), ticks).host.busy
    ensures var s := SetRun(Started(data, recordId, hub, c), ticks);
      if Rejects(c, ticks, Pairs(data)) then s.host.status == SH2_ERR_HUB && s.hub.records == hub.records
      else
        && s.host.status == SH2_OK && s.hub.records == hub.records[recordId := data]
        && InOrder(s.sent, data, recordId, |data|) && |s.sent| - 1 == Pairs(data)
  {
    WriteRun(data, recordId, hub, c, ticks);
    RefusedIff(data, recordId, hub, c, ticks);
    var s := SetRun(Started(data, recordId, hub, c), ticks);
    if |s.sent| > 1 && !Rejects(c, ticks, Pairs(data)) {
      assert PairAt(s.sent, data, |s.sent| - 1);
    }
  }

  // ---------- Reading: the host ----------

  predicate ReadError(status: byte) {
    status in {1, 2, 4, 8}
  }

  predicate Completing(status: byte) {
    status in {3, 6, 7}
  }

  const RECORD_EMPTY: byte := 5

  /** A read in progress: the caller's buffer and its word count, the next offset expected. */
  datatype Reader = Reader(buf: words, count: u16, next: u16, busy: bool, status: int) {
    function Done(status: int): Reader {
      this.(busy := false, status := status)
    }
    predicate HasRoom(offset: u16) {
      count == 0 || offset <= count
    }
    function Store(at: nat, word: u32): Reader
      requires at <= 0x1_0000
    {
      this.(buf := if at < |buf| then buf[at := word] else buf, next := Low16(at + 1))
    }
  }

  function Low16(x: int): u16
    requires 0 <= x <= 0x1_0001
  {
    if x < 0x1_0000 then x else x - 0x1_0000
  }

  /** What a response does to a read in progress. Neither an empty record nor a missed
      offset ends the handler: it goes on to store the words. */
  function GetRx(g: Reader, r: Report): Reader {
    if !r.ReadResp? then g
    else if ReadError(r.status) then g.Done(SH2_ERR_HUB)
    else
      var a := if r.status == RECORD_EMPTY then g.(count := 0).Done(SH2_OK) else g;
      var b := if r.wordOffset != a.next then a.(count := 0).Done(SH2_ERR_IO) else a;
      var c := if b.HasRoom(r.wordOffset) then b.Store(r.wordOffset, r.data0) else b;
      var d := if r.dataLen == 2 && c.HasRoom(r.wordOffset) then c.Store(r.wordOffset + 1, r.data1) else c;
      if Completing(r.status) then d.(count := d.next).Done(SH2_OK) else d
  }

  /** Every store the handler makes is inside the buffer. */
  predicate Fits(g: Reader, r: Report) {
    r.ReadResp? && !ReadError(r.status) ==>
      && r.wordOffset < |g.buf|
      && (r.dataLen == 2 ==> r.wordOffset + 1 < |g.buf|)
  }

  /** By status: 1, 2, 4 and 8 (unrecognized type, busy, out of range, device error) end the read
      with an error and store nothing. On any other status the words are stored where they
      belong, if the count of words is 0 or the offset is at most the count, and then 3, 6 and 7
      end the read with success; a wrong offset ends it with an input error otherwise, and 5
      with success and no words. */
  lemma ReadStatuses(g: Reader, dataLen: byte, status: byte, offset: u16, data0: u32, data1: u32)
    ensures var h := GetRx(g, ReadResp(dataLen, status, offset, data0, data1));
      var room := g.count == 0 || status == 5 || offset != g.next || offset <= g.count;
      && |h.buf| == |g.buf|
      && (status in {1, 2, 4, 8} ==> h == g.(busy := false, status := -5))
      && (status !in {1, 2, 4, 8} ==>
            && h.buf == Put(Put(g.buf, offset, data0, room), offset + 1, data1, room && dataLen == 2)
            && h.next == (if !room then g.next else (offset + if dataLen == 2 then 2 else 1) % 0x1_0000)
            && h.count == (if status in {3, 6, 7} then h.next else if status == 5 || offset != g.next then 0
              else g.count)
            && (status in {3, 6, 7} ==> !h.busy && h.status == 0)
            && (status !in {3, 6, 7} && offset != g.next ==> !h.busy && h.status == -4)
            && (status == 5 && offset == g.next ==> !h.busy && h.status == 0)
            && (status !in {3, 5, 6, 7} && offset == g.next ==> h.busy == g.busy && h.status == g.status))
  {
  }

  function Put(buf: words, at: nat, word: u32, stored: bool): words {
    if stored && at < |buf| then buf[at := word] else buf
  }

  // ---------- Reading: a faithful hub ----------

  /** The next one or two words of the record. */
  predicate Piece(r: Report, record: words, from: nat)
    requires r.ReadResp?
  {
    && (r.dataLen == 1 || r.dataLen == 2) && from + r.dataLen <= |record| && r.wordOffset == from
    && r.data0 == record[from] && (r.dataLen == 2 ==> r.data1 == record[from + 1])
  }

  /** The arrivals from word `from` on: in order, a word or two at a time, only the last
      response announcing the end; other reports may come between. */
  ghost predicate Answers(arrivals: seq<Report>, record: words, from: nat)
    decreases |arrivals|
  {
    && arrivals != []
    && var r, rest := arrivals[0], arrivals[1..];
       if !r.ReadResp? then Answers(rest, record, from)
       else if record == [] then r.status == 5 && r.wordOffset == 0 && r.dataLen == 0
       else
         && Piece(r, record, from)
         && if from + r.dataLen == |record| then r.status in {3, 6, 7}
            else r.status == 0 && Answers(rest, record, from + r.dataLen)
  }

  /** Instead of an answer, after some of the words perhaps, the hub reports an error. */
  ghost predicate Refusal(arrivals: seq<Report>, record: words, from: nat)
    decreases |arrivals|
  {
    && arrivals != []
    && var r, rest := arrivals[0], arrivals[1..];
       if !r.ReadResp? then Refusal(rest, record, from)
       else
         || r.status in {1, 2, 4, 8}
         || (Piece(r, record, from) && from + r.dataLen < |record| && r.status == 0
             && Refusal(rest, record, from + r.dataLen))
  }

  /** Once the operation is over, opRx hands nothing more to it. */
  function GetStep(g: Reader, r: Report): Reader {
    if g.busy then GetRx(g, r) else g
  }

  function GetRun(g: Reader, arrivals: seq<Report>): Reader
    decreases |arrivals|
  {
    if arrivals == [] then g else GetRun(GetStep(g, arrivals[0]), arrivals[1..])
  }

  /** Words 0..from of the record have been stored, and nothing else has been touched. */
  predicate ReadTo(g: Reader, buf: words, count: u16, record: words, from: nat) {
    && from <= |record| <= |buf| && |record| <= 0xFFFF && (count == 0 || |record| <= count)
    && g == Reader(record[..from] + buf[from..], count, from, true, SH2_OK)
  }

  /** The caller's buffer after a successful read. */
  function ReadBack(buf: words, record: words): Reader
    requires |record| <= |buf| && |record| <= 0xFFFF
  {
    Reader(record + buf[|record|..], |record|, |record|, false, SH2_OK)
  }

  lemma PieceStored(g: Reader, buf: words, count: u16, record: words, from: nat, r: Report)
    requires ReadTo(g, buf, count, record, from) && r.ReadResp? && Piece(r, record, from)
    requires r.status == 0 || Completing(r.status)
    ensures Fits(g, r)
    ensures var to := from + r.dataLen;
      GetRx(g, r) == var h := Reader(record[..to] + buf[to..], count, to, true, SH2_OK);
                     if r.status == 0 then h else h.(count := h.next).Done(SH2_OK)
  {
    var to := from + r.dataLen;
    var one := g.buf[from := r.data0];
    var two := if r.dataLen == 2 then one[from + 1 := r.data1] else one;
    assert two == record[..to] + buf[to..];
  }

  /** Read back: a faithful hub's answer, however it is cut and interleaved, fills exactly
      the front of the buffer with exactly the record. */
  lemma {:induction false} ReadRun(g: Reader, buf: words, count: u16, record: words, from: nat, arrivals: seq<Report>)
    requires ReadTo(g, buf, count, record, from) && from < |record| && Answers(arrivals, record, from)
    ensures GetRun(g, arrivals) == ReadBack(buf, record)
    decreases |arrivals|
  {
    var r, rest := arrivals[0], arrivals[1..];
    var h := GetStep(g, r);
    if !r.ReadResp? {
      ReadRun(g, buf, count, record, from, rest);
    } else {
      PieceStored(g, buf, count, record, from, r);
      if from + r.dataLen == |record| {
        assert record[..|record|] == record;
        Over(h, rest);
      } else {
        ReadRun(h, buf, count, record, from + r.dataLen, rest);
      }
    }
  }

  lemma {:induction false} Over(g: Reader, arrivals: seq<Report>)
    requires !g.busy
    ensures GetRun(g, arrivals) == g
    decreases |arrivals|
  {
    if arrivals != [] {
      Over(g, arrivals[1..]);
    }
  }

  /** An empty record reads as zero words, but the response's first word has been stored in
      the caller's buffer all the same. */
  lemma EmptyRecord(g: Reader, r: Report)
    requires g.busy && |g.buf| > 0 && g.next == 0 && r.ReadResp? && r.status == RECORD_EMPTY && r.wordOffset == 0
      && r.dataLen == 0
    ensures GetRx(g, r) == Reader(g.buf[0 := r.data0], 0, 1, false, SH2_OK)
  {
  }

  lemma {:induction false} ReadEmpty(g: Reader, arrivals: seq<Report>)
    requires g.busy && |g.buf| > 0 && g.next == 0 && Answers(arrivals, [], 0)
    ensures var h := GetRun(g, arrivals);
      h.count == 0 && !h.busy && h.status == SH2_OK && |h.buf| == |g.buf| && h.buf[1..] == g.buf[1..]
    decreases |arrivals|
  {
    var r, rest := arrivals[0], arrivals[1..];
    if r.ReadResp? {
      EmptyRecord(g, r);
      Over(GetRx(g, r), rest);
    } else {
      ReadEmpty(g, rest);
    }
  }

  /** A response at the wrong offset always ends the read, but it is reported as an error
      exactly when it does not also announce the end of the record: then the error is
      overwritten, and the words count from the wrong offset on. */
  lemma GapMaskedByCompletion(g: Reader, r: Report)
    requires g.busy && r.ReadResp? && !ReadError(r.status) && r.wordOffset != g.next
    ensures !GetRx(g, r).busy
    ensures GetRx(g, r).status == SH2_ERR_IO <==> !Completing(r.status)
    ensures Completing(r.status) ==>
      GetRx(g, r).status == SH2_OK && GetRx(g, r).count == Low16(r.wordOffset + if r.dataLen == 2 then 2 else 1)
  {
  }

  /** Such a read ends with the hub's error; the words before it have been stored, the count is
      what the caller passed. */
  lemma {:induction false} ReadRefused(g: Reader, buf: words, count: u16, record: words, from: nat,
                                       arrivals: seq<Report>) returns (to: nat)
    requires ReadTo(g, buf, count, record, from) && Refusal(arrivals, record, from)
    ensures to <= |record| && GetRun(g, arrivals) == Reader(record[..to] + buf[to..], count, to, false, SH2_ERR_HUB)
    decreases |arrivals|
  {
    var r, rest := arrivals[0], arrivals[1..];
    to := from;
    if r.ReadResp? && r.status in {1, 2, 4, 8} {
      Over(GetRx(g, r), rest);
    } else if r.ReadResp? {
      PieceStored(g, buf, count, record, from, r);
      to := ReadRefused(GetRx(g, r), buf, count, record, from + r.dataLen, rest);
    } else {
      to := ReadRefused(g, buf, count, record, from, rest);
    }
  }

  // ---------- Reading: responses lost on the way ----------

  /** As `Answers`, with nothing after the response that announces the end. */
  predicate OnlyAnswers(answers: seq<Report>, record: words, from: nat)
    decreases |answers|
  {
    && answers != []
    && var r, rest := answers[0], answers[1..];
       if !r.ReadResp? then OnlyAnswers(rest, record, from)
       else
         && Piece(r, record, from)
         && if from + r.dataLen == |record| then r.status in {3, 6, 7} && rest == []
            else r.status == 0 && OnlyAnswers(rest, record, from + r.dataLen)
  }

  /** The responses that get through. */
  function Kept(answers: seq<Report>, lost: seq<bool>): seq<Report>
    requires |answers| == |lost|
  {
    if answers == [] then [] else (if lost[0] then [] else [answers[0]]) + Kept(answers[1..], lost[1..])
  }

  predicate LosesWords(answers: seq<Report>, lost: seq<bool>, i: nat)
    requires i < |answers| == |lost|
  {
    answers[i].ReadResp? && lost[i]
  }

  /** The last response gets through, and none with words before it. */
  predicate OnlyLastKept(answers: seq<Report>, lost: seq<bool>)
    requires 0 < |answers| == |lost|
  {
    && !lost[|lost| - 1]
    && (forall j: nat :: j < |answers| - 1 && answers[j].ReadResp? ==> LosesWords(answers, lost, j))
  }

  /** The last response gets through, and once a response with words is lost all others before
      the last are lost, too. */
  predicate LossesAtEnd(answers: seq<Report>, lost: seq<bool>)
    requires 0 < |answers| == |lost|
  {
    && !lost[|lost| - 1]
    && (forall i: nat, j: nat :: i < j < |answers| - 1 && LosesWords(answers, lost, i) && answers[j].ReadResp? ==>
          LosesWords(answers, lost, j))
  }

  /** The buffer with the record in it, but for words lo..hi, which are what they were. */
  function Patched(record: words, buf: words, lo: nat, hi: nat): words
    requires lo <= hi <= |record| <= |buf|
  {
    record[..lo] + buf[lo..hi] + record[hi..] + buf[|record|..]
  }

  predicate Succeeds(g: Reader) {
    !g.busy && g.status == SH2_OK
  }

  lemma LossStep(answers: seq<Report>, lost: seq<bool>)
    requires 1 < |answers| == |lost|
    ensures var rest, lost' := answers[1..], lost[1..];
      && (OnlyLastKept(answers, lost) <==> OnlyLastKept(rest, lost') && (answers[0].ReadResp? ==> lost[0]))
      && (LossesAtEnd(answers, lost) <==>
            if LosesWords(answers, lost, 0) then OnlyLastKept(rest, lost') else LossesAtEnd(rest, lost'))
  {
    var rest, lost' := answers[1..], lost[1..];
    forall j: nat | j < |rest|
      ensures LosesWords(rest, lost', j) == LosesWords(answers, lost, j + 1) && rest[j] == answers[j + 1]
    {
    }
    if OnlyLastKept(rest, lost') {
      forall j: nat | 0 < j < |answers| - 1 && answers[j].ReadResp?
        ensures LosesWords(answers, lost, j)
      {
        assert rest[j - 1] == answers[j] && LosesWords(rest, lost', j - 1);
      }
    }
    if LossesAtEnd(rest, lost') {
      forall i: nat, j: nat | 0 < i < j < |answers| - 1 && LosesWords(answers, lost, i) && answers[j].ReadResp?
        ensures LosesWords(answers, lost, j)
      {
        assert LosesWords(rest, lost', i - 1) && rest[j - 1] == answers[j] && LosesWords(rest, lost', j - 1);
      }
    }
  }

  lemma KeptStep(g: Reader, answers: seq<Report>, lost: seq<bool>)
    requires 0 < |answers| == |lost|
    ensures var rest := Kept(answers[1..], lost[1..]);
      GetRun(g, Kept(answers, lost)) == if lost[0] then GetRun(g, rest) else GetRun(GetStep(g, answers[0]), rest)
  {
    var rest := Kept(answers[1..], lost[1..]);
    if lost[0] {
      assert Kept(answers, lost) == rest;
    } else {
      assert Kept(answers, lost)[0] == answers[0] && Kept(answers, lost)[1..] == rest;
    }
  }

  /** After a gap only the last response helps. */
  lemma {:induction false} AfterGap(g: Reader, buf: words, count: u16, record: words, next: nat, from: nat,
                                    answers: seq<Report>, lost: seq<bool>) returns (hi: nat)
    requires ReadTo(g, buf, count, record, next) && next < from < |record| && |answers| == |lost|
    requires OnlyAnswers(answers, record, from)
    ensures var h := GetRun(g, Kept(answers, lost));
      && (Succeeds(h) <==> OnlyLastKept(answers, lost))
      && (Succeeds(h) ==> next < hi <= |record| && h.count == |record| && h.buf == Patched(record, buf, next, hi))
    decreases |answers|
  {
    var r, rest, lost' := answers[0], answers[1..], lost[1..];
    var from' := if r.ReadResp? then from + r.dataLen else from;
    hi := from;
    KeptStep(g, answers, lost);
    if rest != [] {
      LossStep(answers, lost);
    }
    if !lost[0] && r.ReadResp? {
      GapFilled(g, buf, count, record, next, from, r);
      Over(GetRx(g, r), Kept(rest, lost'));
    } else if rest != [] {
      hi := AfterGap(g, buf, count, record, next, from', rest, lost');
    }
  }

  lemma GapFilled(g: Reader, buf: words, count: u16, record: words, next: nat, from: nat, r: Report)
    requires ReadTo(g, buf, count, record, next) && next < from < |record| && r.ReadResp? && Piece(r, record, from)
    requires if from + r.dataLen == |record| then Completing(r.status) else r.status == 0
    ensures var h := GetRx(g, r);
      && !h.busy && (Succeeds(h) <==> Completing(r.status))
      && (Succeeds(h) ==> h.count == |record| && h.buf == Patched(record, buf, next, from))
  {
    GapMaskedByCompletion(g, r);
    if Completing(r.status) {
      var one := g.buf[from := r.data0];
      var two := if r.dataLen == 2 then one[from + 1 := r.data1] else one;
      assert two == Patched(record, buf, next, from);
    }
  }

  /** Over a read whose responses may be lost: it ends with success exactly when the last one
      gets through and the losses, if any, are all of those just before it. The count is then
      right, but the words lost are what they were in the caller's buffer. */
  lemma {:induction false} LossyRead(g: Reader, buf: words, count: u16, record: words, from: nat,
                                     answers: seq<Report>, lost: seq<bool>) returns (lo: nat, hi: nat)
    requires ReadTo(g, buf, count, record, from) && from < |record| && |answers| == |lost|
    requires OnlyAnswers(answers, record, from)
    ensures Outcome(GetRun(g, Kept(answers, lost)), buf, record, answers, lost, lo, hi)
    decreases |answers|
  {
    var r, rest, lost' := answers[0], answers[1..], lost[1..];
    lo, hi := from, from;
    KeptStep(g, answers, lost);
    if !r.ReadResp? {
      lo, hi := LossyRead(g, buf, count, record, from, rest, lost');
      OutcomeMore(GetRun(g, Kept(answers, lost)), buf, record, answers, lost, lo, hi);
    } else if lost[0] {
      if rest != [] {
        hi := AfterGap(g, buf, count, record, from, from + r.dataLen, rest, lost');
        LossStep(answers, lost);
        assert LosesWords(answers, lost, 0);
      }
    } else if rest == [] {
      lo, hi := |record|, |record|;
      LastStored(g, buf, count, record, from, r);
    } else {
      PieceStored(g, buf, count, record, from, r);
      lo, hi := LossyRead(GetRx(g, r), buf, count, record, from + r.dataLen, rest, lost');
      OutcomeMore(GetRun(g, Kept(answers, lost)), buf, record, answers, lost, lo, hi);
    }
  }

  /** How such a read ends: words lo..hi of the record are missing, if any were lost. */
  ghost predicate Outcome(h: Reader, buf: words, record: words, answers: seq<Report>, lost: seq<bool>, lo: nat, hi: nat)
    requires 0 < |answers| == |lost| && |record| <= |buf|
  {
    && (Succeeds(h) <==> LossesAtEnd(answers, lost))
    && (Succeeds(h) ==>
          && lo <= hi <= |record| && h.count == |record| && h.buf == Patched(record, buf, lo, hi)
          && (lo < hi <==> AnyLost(answers, lost)))
  }

  ghost predicate AnyLost(answers: seq<Report>, lost: seq<bool>)
    requires |answers| == |lost|
  {
    exists i: nat :: i < |answers| && LosesWords(answers, lost, i)
  }

  /** A response in front that loses no words changes nothing. */
  lemma OutcomeMore(h: Reader, buf: words, record: words, answers: seq<Report>, lost: seq<bool>, lo: nat, hi: nat)
    requires 1 < |answers| == |lost| && |record| <= |buf| && !LosesWords(answers, lost, 0)
    requires Outcome(h, buf, record, answers[1..], lost[1..], lo, hi)
    ensures Outcome(h, buf, record, answers, lost, lo, hi)
  {
    LossStep(answers, lost);
    LosesMore(answers, lost);
  }

  lemma LastStored(g: Reader, buf: words, count: u16, record: words, from: nat, r: Report)
    requires ReadTo(g, buf, count, record, from) && r.ReadResp? && Piece(r, record, from) && Completing(r.status)
    requires from + r.dataLen == |record|
    ensures var h := GetRx(g, r);
      Succeeds(h) && h.count == |record| && h.buf == Patched(record, buf, |record|, |record|)
  {
    PieceStored(g, buf, count, record, from, r);
    assert record[..|record|] == record && Patched(record, buf, |record|, |record|) == record + buf[|record|..];
  }

  lemma LosesMore(answers: seq<Report>, lost: seq<bool>)
    requires 0 < |answers| == |lost| && !LosesWords(answers, lost, 0)
    ensures AnyLost(answers, lost) <==> AnyLost(answers[1..], lost[1..])
  {
    if i: nat :| i < |answers| && LosesWords(answers, lost, i) {
      assert LosesWords(answers[1..], lost[1..], i - 1);
    }
    if i: nat :| i < |answers| - 1 && LosesWords(answers[1..], lost[1..], i) {
      assert LosesWords(answers, lost, i + 1);
    }
  }

  /** So it ends with success and a wrong record exactly when some of the words lost differ
      from what was in the buffer before. */
  lemma WrongRecordIff(buf: words, count: u16, record: words, answers: seq<Report>, lost: seq<bool>)
      returns (lo: nat, hi: nat)
    requires record != [] && |record| <= |buf| && |record| <= 0xFFFF && (count == 0 || |record| <= count)
    requires |answers| == |lost| && OnlyAnswers(answers, record, 0)
    ensures lo <= hi <= |record|
    ensures var h := GetRun(Reader(buf, count, 0, true, SH2_OK), Kept(answers, lost));
      Succeeds(h) && !(record <= h.buf) <==> LossesAtEnd(answers, lost) && buf[lo..hi] != record[lo..hi]
    ensures LossesAtEnd(answers, lost) ==> (lo < hi <==> AnyLost(answers, lost))
  {
    var g := Reader(buf, count, 0, true, SH2_OK);
    assert buf[0..] == buf;
    lo, hi := LossyRead(g, buf, count, record, 0, answers, lost);
    var h := GetRun(g, Kept(answers, lost));
    if Succeeds(h) {
      PatchedRight(record, buf, lo, hi);
    } else {
      lo, hi := 0, 0;
    }
  }

  lemma PatchedRight(record: words, buf: words, lo: nat, hi: nat)
    requires lo <= hi <= |record| <= |buf|
    ensures record <= Patched(record, buf, lo, hi) <==> buf[lo..hi] == record[lo..hi]
  {
    var p := Patched(record, buf, lo, hi)[..|record|];
    assert p == record[..lo] + buf[lo..hi] + record[hi..];
    assert record == record[..lo] + record[lo..hi] + record[hi..];
    assert p[lo..hi] == buf[lo..hi];
  }

  // ---------- Reading whole records ----------

  /** The record is at the front of the buffer and the rest is as it was, except that reading
      an empty record may change the first word. */
  predicate HasRead(buf: words, before: words, record: words)
    requires |before| > 0 && |record| <= |before|
  {
    if record == [] then |buf| == |before| && buf[1..] == before[1..] else buf == record + before[|record|..]
  }

  /** The read of any record, empty or not. */
  lemma ReadAll(g: Reader, record: words, arrivals: seq<Report>)
    requires g.busy && g.next == 0 && g.status == SH2_OK && Answers(arrivals, record, 0)
    requires 0 < |g.buf| && |record| <= |g.buf| && |record| <= 0xFFFF && (g.count == 0 || |record| <= g.count)
    ensures var h := GetRun(g, arrivals);
      !h.busy && h.status == SH2_OK && h.count == |record| && HasRead(h.buf, g.buf, record)
  {
    if record == [] {
      ReadEmpty(g, arrivals);
    } else {
      assert g.buf[0..] == g.buf;
      ReadRun(g, g.buf, g.count, record, 0, arrivals);
    }
  }

  /** Write, then read: whatever the hub chooses and whatever is interleaved, the read
      returns the words and the count that were written, and touches nothing after them. */
  lemma RoundTrip(data: words, recordId: u16, hub: Hub, c: Choice, ticks: seq<Tick>, buf: words, count: u16,
                  arrivals: seq<Report>)
    requires |data| <= 0xFFFF && hub.queue == []
    requires var w := SetRun(Started(data, recordId, hub, c), ticks).host; !w.busy && w.status == SH2_OK
    requires |data| <= |buf| && 0 < |buf| && (count == 0 || |data| <= count)
    requires var h := SetRun(Started(data, recordId, hub, c), ticks).hub;
      recordId in h.records && Answers(arrivals, h.records[recordId], 0)
    ensures var g := GetRun(Reader(buf, count, 0, true, SH2_OK), arrivals);
      !g.busy && g.status == SH2_OK && g.count == |data| && HasRead(g.buf, buf, data)
  {
    WriteCompletes(data, recordId, hub, c, ticks);
    ReadAll(Reader(buf, count, 0, true, SH2_OK), data, arrivals);
  }

  // ---------- The code ----------

  /** The words a caller passes by pointer and count; a null pointer passes none. */
  ghost function Given(data: array?<u32>, count: u16): words
    requires data != null ==> count <= data.Length
    reads data
  {
    if data == null then [] else data[..count]
  }

  /** A read that is still on its way, with these responses to come. */
  ghost predicate OnItsWay(g: Reader, buf: words, count: u16, record: words, from: nat, arrivals: seq<Report>) {
    && ReadTo(g, buf, count, record, from)
    && (Refusal(arrivals, record, from) ||
        (Answers(arrivals, record, from) && if record == [] then |buf| > 0 else from < |record|))
  }

  /** No store of a faithful conversation leaves the buffer, at any step. */
  lemma WayStep(g: Reader, buf: words, count: u16, record: words, from: nat, arrivals: seq<Report>) returns (from': nat)
    requires OnItsWay(g, buf, count, record, from, arrivals)
    ensures Fits(g, arrivals[0])
    ensures var h := GetStep(g, arrivals[0]); h.busy ==> OnItsWay(h, buf, count, record, from', arrivals[1..])
  {
    var r := arrivals[0];
    from' := from;
    if r.ReadResp? && record != [] && r.status !in {1, 2, 4, 8} {
      PieceStored(g, buf, count, record, from, r);
      from' := from + r.dataLen;
    }
  }

  /** The part of _sh2 these operations use: one operation at a time, its data in a union. */
  class Session {
    var busy: bool            // pOp != 0
    var opStatus: int
    var frsType: u16
    var pData: array<u32>
    var words: u16            // opData.setFrs
    var offset: u16
    var pWords: u16           // opData.getFrs: *pWords, nextOffset
    var nextOffset: u16
    var sent: seq<Request>    // requests the transport accepted

    ghost predicate Valid()
      reads this
    {
      offset <= words <= pData.Length
    }

    ghost function Writing(): Writer
      reads this, pData
      requires Valid()
    {
      Writer(pData[..words], offset, busy, opStatus)
    }

    ghost function Reading(): Reader
      reads this, pData
    {
      Reader(pData[..], pWords, nextOffset, busy, opStatus)
    }

    method OpCompleted(status: int)
      modifies this`busy, this`opStatus
      ensures !busy && opStatus == status
    {
      opStatus := status;
      busy := false;
    }

    /** `rc` is what the transport answers; a request that fails is not sent. */
    method SendCtrl(q: Request, rc: int)
      modifies this`sent
      ensures sent == if rc == SH2_OK then old(sent) + [q] else old(sent)
    {
      if rc == SH2_OK {
        sent := sent + [q];
      }
    }

    /** The answer of the transport changes nothing but what has been sent: after a failure
        the write goes on, and those words are not sent again. */
    method SetFrsRx(resp: Report, rc: int)
      requires Valid()
      modifies this`busy, this`opStatus, this`offset, this`sent
      ensures Valid() && Writing() == SetRx(old(Writing()), resp).0
      ensures sent == if rc == SH2_OK then old(sent) + SetRx(old(Writing()), resp).1 else old(sent)
      ensures resp.WriteResp? && resp.status in {1, 2, 5, 6, 7, 9, 10, 11} ==>
        !busy && opStatus == SH2_ERR_HUB && offset == old(offset) && sent == old(sent)
      ensures resp == WriteResp(3) ==> !busy && opStatus == SH2_OK && offset == old(offset) && sent == old(sent)
      ensures !resp.WriteResp? || resp.status == 8 || resp.status > 11 ==>
        busy == old(busy) && opStatus == old(opStatus) && offset == old(offset) && sent == old(sent)
    {
      if !resp.WriteResp? {
        return;
      }
      var status := resp.status;
      if GoAhead(status) {
        if offset < words {
          var o := offset;
          var data0, data1 := pData[o], 0;
          o := o + 1;
          if o < words {
            data1 := pData[o];
            o := o + 1;
          }
          SendCtrl(WriteData(offset, data0, data1), rc);
          offset := o;
        }
      } else if WriteError(status) {
        OpCompleted(SH2_ERR_HUB);
      } else if status == WRITE_COMPLETED {
        OpCompleted(SH2_OK);
      }
    }

    method StoreWord(at: nat, word: u32)
      requires at < pData.Length && at <= 0x1_0000
      modifies this`nextOffset, pData
      ensures Reading() == old(Reading()).Store(at, word)
    {
      pData[at] := word;
      nextOffset := Low16(at + 1);
    }

    method GetFrsRx(resp: Report)
      requires Fits(Reading(), resp)
      modifies this`busy, this`opStatus, this`pWords, this`nextOffset, pData
      ensures Reading() == GetRx(old(Reading()), resp)
      ensures resp.ReadResp? && resp.status in {1, 2, 4, 8} ==>
        !busy && opStatus == SH2_ERR_HUB && pData[..] == old(pData[..]) && pWords == old(pWords)
    {
      if !resp.ReadResp? {
        return;
      }
      if ReadError(resp.status) {
        OpCompleted(SH2_ERR_HUB);
        return;
      }
      if resp.status == RECORD_EMPTY {
        pWords := 0;
        OpCompleted(SH2_OK);
      }
      var o := resp.wordOffset;
      if o != nextOffset {
        pWords := 0;
        OpCompleted(SH2_ERR_IO);
      }
      if pWords == 0 || o <= pWords {
        StoreWord(o, resp.data0);
      }
      if resp.dataLen == 2 && (pWords == 0 || o <= pWords) {
        StoreWord(o + 1, resp.data1);
      }
      if Completing(resp.status) {
        pWords := nextOffset;
        OpCompleted(SH2_OK);
      }
    }

    /** Session and hub are in state `s`, `before` having been sent by earlier operations. */
    ghost predicate At(s: Sys, hub: Hub, before: seq<Request>)
      reads this, pData
    {
      Valid() && s.Ok() && Writing() == s.host && hub == s.hub && sent == before + s.sent
    }

    /** One round of opProcess's loop. */
    method ServiceWrite(hub: Hub, t: Tick, ghost s: Sys, ghost before: seq<Request>) returns (hub': Hub)
      requires busy && At(s, hub, before)
      modifies this`busy, this`opStatus, this`offset, this`sent
      ensures At(TickStep(s, t), hub', before)
    {
      hub' := hub;
      var was := sent;
      match t
      case Quiet =>
      case Noise(r) =>
        if !r.WriteResp? {
          SetFrsRx(r, SH2_OK);
        }
      case Deliver(c, rc) =>
        if hub.queue != [] {
          hub' := hub.(queue := hub.queue[1..]);
          SetFrsRx(hub.queue[0], rc);
          if |sent| > |was| {
            hub' := Take(hub', sent[|was|], c);
          }
        }
    }

    /** The loop of opProcess over a script of service steps: it stops when the operation is
        over or the script ends. */
    method PollWrite(hub: Hub, ticks: seq<Tick>, ghost s: Sys, ghost before: seq<Request>) returns (hub': Hub)
      requires At(s, hub, before)
      modifies this`busy, this`opStatus, this`offset, this`sent
      ensures At(SetRun(s, ticks), hub', before)
    {
      hub' := hub;
      var i := 0;
      while busy && i < |ticks|
        invariant i <= |ticks| && At(SetRun(s, ticks[..i]), hub', before)
      {
        hub' := ServiceWrite(hub', ticks[i], SetRun(s, ticks[..i]), before);
        assert ticks[..i + 1][..i] == ticks[..i];
        i := i + 1;
      }
      if i == |ticks| {
        assert ticks[..i] == ticks;
      } else {
        StaysOver(s, ticks, i);
      }
    }

    /** sh2_setFrs over a script of service steps; `startRc` is what the transport answers to
        the write request. Called during another operation it is refused, but by then it has
        replaced that operation's data. */
    method SetFrs(recordId: u16, data: array?<u32>, count: u16, startRc: int, hub: Hub, c: Choice, ticks: seq<Tick>)
        returns (rc: int, hub': Hub)
      requires data != null ==> count <= data.Length
      requires hub.queue == []
      modifies this
      ensures data == null && count != 0 ==> rc == SH2_ERR_BAD_PARAM && hub' == hub && sent == old(sent)
      ensures (data != null || count == 0) && old(busy) ==>
        && rc == SH2_ERR_OP_IN_PROGRESS && hub' == hub && sent == old(sent)
        && Valid() && Writing() == Writer(old(Given(data, count)), 0, true, old(opStatus))
      ensures (data != null || count == 0) && !old(busy) && startRc != SH2_OK ==>
        rc == startRc && !busy && hub' == hub && sent == old(sent)
      ensures (data != null || count == 0) && !old(busy) && startRc == SH2_OK ==>
        var given := old(Given(data, count));
        && (Deliveries(ticks) >= count + 3 ==> (!busy <==> FirstAccepted(c, ticks, Pairs(given))))
        && (!FirstAccepted(c, ticks, Pairs(given)) ==> busy && hub'.records == hub.records)
        && (!busy && Rejects(c, ticks, Pairs(given)) ==> rc == SH2_ERR_HUB && hub'.records == hub.records)
        && (!busy && !Rejects(c, ticks, Pairs(given)) ==>
              && rc == SH2_OK && hub'.records == hub.records[recordId := given]
              && old(sent) <= sent && InOrder(sent[|old(sent)|..], given, recordId, count))
    {
      hub' := hub;
      if data == null && count != 0 {
        return SH2_ERR_BAD_PARAM, hub;
      }
      if data == null {
        pData := new u32[0];
      } else {
        pData := data;
      }
      frsType, words, offset := recordId, count, 0;
      if busy {
        return SH2_ERR_OP_IN_PROGRESS, hub;
      }
      busy, opStatus := true, SH2_OK;
      ghost var before, all := sent, pData[..words];
      SendCtrl(WriteReq(words, frsType), startRc);
      if startRc != SH2_OK {
        OpCompleted(startRc);
        return startRc, hub;
      }
      hub' := Take(hub', WriteReq(words, frsType), c);
      ghost var s := Started(all, recordId, hub, c);
      hub' := PollWrite(hub', ticks, s, before);
      WriteEndsIff(all, recordId, hub, c, ticks);
      if !busy {
        WriteCompletes(all, recordId, hub, c, ticks);
      }
      rc := opStatus;
    }

    /** sh2_getFrs: the caller passes a buffer and its size in words, and gets the count back.
        Called during another operation it is refused, but by then it has replaced that
        operation's data. */
    method GetFrs(recordId: u16, data: array?<u32>, capacity: Option<u16>, arrivals: seq<Report>, ghost record: words)
        returns (rc: int, count: u16)
      requires Answers(arrivals, record, 0) || Refusal(arrivals, record, 0)
      requires data != null && capacity.Some? ==>
        0 < data.Length && |record| <= data.Length && |record| <= 0xFFFF
          && (capacity.value == 0 || |record| <= capacity.value)
      modifies this, data
      ensures data == null || capacity.None? ==> rc == SH2_ERR_BAD_PARAM && sent == old(sent)
      ensures data != null && capacity.Some? && old(busy) ==>
        && rc == SH2_ERR_OP_IN_PROGRESS && count == capacity.value && sent == old(sent)
        && frsType == recordId && Reading() == Reader(old(data[..]), capacity.value, 0, true, old(opStatus))
      ensures data != null && capacity.Some? && !old(busy) ==>
        && !busy && sent == old(sent) + [ReadReq(0, recordId, 0)]
        && (Answers(arrivals, record, 0) ==>
              rc == SH2_OK && count == |record| && HasRead(data[..], old(data[..]), record))
        && (Refusal(arrivals, record, 0) ==> rc == SH2_ERR_HUB && count == capacity.value)
    {
      if data == null || capacity.None? {
        return SH2_ERR_BAD_PARAM, 0;
      }
      frsType, pData, pWords, nextOffset := recordId, data, capacity.value, 0;
      if busy {
        return SH2_ERR_OP_IN_PROGRESS, capacity.value;
      }
      busy, opStatus := true, SH2_OK;
      SendCtrl(ReadReq(0, frsType, 0), SH2_OK);
      ghost var buf, from := data[..], 0;
      ghost var g := Reading();
      assert buf[0..] == buf;
      if Refusal(arrivals, record, 0) {
        ghost var to := ReadRefused(g, buf, capacity.value, record, 0, arrivals);
      }
      if Answers(arrivals, record, 0) {
        ReadAll(g, record, arrivals);
      }
      var i := 0;
      while busy
        invariant i <= |arrivals| && pData == data && sent == old(sent) + [ReadReq(0, recordId, 0)]
        invariant GetRun(Reading(), arrivals[i..]) == GetRun(g, arrivals)
        invariant busy ==> OnItsWay(Reading(), buf, capacity.value, record, from, arrivals[i..])
        decreases |arrivals| - i
      {
        from := WayStep(Reading(), buf, capacity.value, record, from, arrivals[i..]);
        assert arrivals[i..][1..] == arrivals[i + 1..];
        GetFrsRx(arrivals[i]);
        i := i + 1;
      }
      Over(Reading(), arrivals[i..]);
      rc, count := opStatus, pWords;
    }
  }
}
