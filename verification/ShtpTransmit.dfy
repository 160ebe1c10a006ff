/**
 * Sending a payload as a sequence of transfers (shtp.c, txProcess and shtp_send, with
 * i2chal_write of bno08x.cpp underneath).
 */
module ShtpTransmit {
  import opened Bytes
  import opened Sh2Err
  import opened Shtp
  import opened ShtpReceive

  // ---------- Specification ----------

  /** One staged transfer: its header announces the transfer's own length. */
  function Transfer(chan: byte, seqNo: byte, continuation: bool, piece: bytes): (t: bytes)
    requires |piece| + HDR_LEN <= MAX_TRANSFER_OUT
    ensures |t| == |piece| + HDR_LEN == HeaderLen(t) && (IsContinuation(t) <==> continuation)
    ensures t[2] == chan && t[3] == seqNo && t[HDR_LEN..] == piece
  {
    var h := Header(|piece| + HDR_LEN, continuation, chan, seqNo);
    var t := h + piece;
    assert HeaderLen(t) == HeaderLen(h);
    t
  }

  /** The cargo bytes of a sequence of transfers, headers stripped. */
  function Carried(ts: seq<bytes>): bytes
    requires Framed(ts)
  {
    if ts == [] then [] else Carried(ts[..|ts| - 1]) + ts[|ts| - 1][HDR_LEN..]
  }

  predicate Framed(ts: seq<bytes>) {
    forall t <- ts :: |t| >= HDR_LEN
  }

  lemma CarriedMore(ts: seq<bytes>, t: bytes)
    requires Framed(ts) && |t| >= HDR_LEN
    ensures Framed(ts + [t]) && Carried(ts + [t]) == Carried(ts) + t[HDR_LEN..]
  {
    assert (ts + [t])[..|ts|] == ts;
  }

  /** What has gone through the HAL and through the out buffer. */
  datatype Log = Log(accepted: seq<bytes>, staged: seq<bytes>, errors: seq<int>)

  /** One call of txProcess: the state it starts from and its arguments. */
  datatype SendOf = SendOf(before: Log, next0: seq<byte>, chan: byte, payload: bytes, cap: nat) {
    ghost predicate Valid() {
      |next0| == MAX_CHANS && chan < MAX_CHANS && Min(|payload|, cap) + HDR_LEN <= MAX_TRANSFER_OUT
    }

    /** Transfer i announces its own length; only the first is no continuation; numbers go
        up by one mod 256; all but the last are full. */
    ghost predicate ShapeAt(ts: seq<bytes>, i: nat)
      requires Valid() && Framed(ts) && i < |ts|
    {
      var t := ts[i];
      && HDR_LEN <= |t| == HeaderLen(t) <= Min(cap + HDR_LEN, MAX_TRANSFER_OUT)
      && (cap > 0 ==> |t| > HDR_LEN) && (i < |ts| - 1 ==> |t| == cap + HDR_LEN)
      && t[2] == chan && t[3] == (if i == 0 then next0[chan] else Next8(ts[i - 1][3])) && IsContinuation(t) == (i > 0)
    }

    /** The channel's next number after the transfers `ts`. */
    ghost function NextNo(ts: seq<bytes>): byte
      requires Valid() && Framed(ts)
    {
      if ts == [] then next0[chan] else Next8(ts[|ts| - 1][3])
    }

    /** The transfers that carry the first `cursor` bytes of the payload. */
    ghost predicate Splits(ts: seq<bytes>, cursor: nat) {
      && Valid() && Framed(ts) && cursor <= |payload|
      && (forall i :: 0 <= i < |ts| ==> ShapeAt(ts, i))
      && Carried(ts) == payload[..cursor]
      && (cursor < |payload| && ts != [] ==> |ts[|ts| - 1]| == cap + HDR_LEN)
    }

    /** `done` transfers are staged and accepted, carrying the payload up to `cursor`. */
    ghost predicate Under(done: seq<bytes>, now: Log, next: seq<byte>, cursor: nat) {
      && Splits(done, cursor) && now.accepted == before.accepted + done && now.staged == before.staged + done
      && now.errors == before.errors && next == next0[chan := NextNo(done)]
    }

    /** The call returns `status`. Either `sent` was accepted and carries the payload, or the
        HAL refused the last of `sent` with that status; its number stays used up. */
    ghost predicate EndedWith(sent: seq<bytes>, cursor: nat, now: Log, next: seq<byte>, status: int) {
      && Splits(sent, cursor) && now.staged == before.staged + sent
      && next == next0[chan := NextNo(sent)]
      && status <= SH2_OK
      && (status == SH2_OK ==>
            cursor == |payload| && now.accepted == before.accepted + sent && now.errors == before.errors)
      && (status < SH2_OK ==>
            sent != [] && now.accepted == before.accepted + sent[..|sent| - 1]
              && now.errors == before.errors + [status])
    }

    /** More rounds are to come: every transfer so far was accepted. */
    ghost predicate Unfinished(now: Log, next: seq<byte>) {
      exists sent: seq<bytes>, cursor: nat :: cursor < |payload| && Under(sent, now, next, cursor)
    }

    ghost predicate Ended(now: Log, next: seq<byte>, status: int) {
      exists sent: seq<bytes>, cursor: nat :: EndedWith(sent, cursor, now, next, status)
    }

    lemma Starts()
      requires Valid()
      ensures Under([], before, next0, 0)
    {
    }

    lemma Stops(sent: seq<bytes>, now: Log, next: seq<byte>, cursor: nat)
      requires Under(sent, now, next, cursor)
      ensures if cursor == |payload| then Ended(now, next, SH2_OK) else Unfinished(now, next)
    {
      if cursor == |payload| {
        assert EndedWith(sent, cursor, now, next, SH2_OK);
      }
    }

    ghost function NextCursor(cursor: nat): nat
      requires cursor <= |payload|
    {
      cursor + Min(cap, |payload| - cursor)
    }

    lemma SplitsMore(done: seq<bytes>, cursor: nat, t: bytes)
      requires Splits(done, cursor) && cursor < |payload|
      requires t == Transfer(chan, NextNo(done), done != [], payload[cursor..NextCursor(cursor)])
      ensures Splits(done + [t], NextCursor(cursor))
    {
      var ts, next := done + [t], NextCursor(cursor);
      forall i | 0 <= i < |ts|
        ensures ShapeAt(ts, i)
      {
        if i < |done| {
          assert ShapeAt(done, i);
        }
      }
      CarriedMore(done, t);
      assert payload[..cursor] + payload[cursor..next] == payload[..next];
    }

    /** The sequence numbers after one more transfer. */
    lemma NextStep(done: seq<bytes>, next: seq<byte>, t: bytes)
      requires Valid() && Framed(done + [t]) && next == next0[chan := NextNo(done)] && t[3] == next[chan]
      ensures next[chan := Next8(next[chan])] == next0[chan := NextNo(done + [t])]
    {
    }

    lemma StepAccepted(done: seq<bytes>, now: Log, next: seq<byte>, cursor: nat, t: bytes, now': Log, next': seq<byte>)
      requires Under(done, now, next, cursor) && Splits(done + [t], NextCursor(cursor))
      requires now' == Log(now.accepted + [t], now.staged + [t], now.errors)
        && next' == next0[chan := NextNo(done + [t])]
      ensures Under(done + [t], now', next', NextCursor(cursor))
    {
    }

    lemma StepRefused(done: seq<bytes>, now: Log, next: seq<byte>, cursor: nat, t: bytes, status: int, now': Log,
                      next': seq<byte>)
      requires Under(done, now, next, cursor) && Splits(done + [t], NextCursor(cursor)) && status < 0
      requires now' == Log(now.accepted, now.staged + [t], now.errors + [status])
        && next' == next0[chan := NextNo(done + [t])]
      ensures Ended(now', next', status)
    {
      var sent := done + [t];
      assert sent[..|sent| - 1] == done;
      assert EndedWith(sent, NextCursor(cursor), now', next', status);
    }

    lemma Step(done: seq<bytes>, now: Log, next: seq<byte>, cursor: nat, t: bytes, status: int, now': Log)
      requires Under(done, now, next, cursor) && cursor < |payload| && status != 0
      requires t == Transfer(chan, next[chan], done != [], payload[cursor..NextCursor(cursor)])
      requires now'.staged == now.staged + [t]
      requires now'.accepted == if status > 0 then now.accepted + [t] else now.accepted
      requires now'.errors == if status < 0 then now.errors + [status] else now.errors
      ensures var next' := next[chan := Next8(next[chan])];
        if status < 0 then Ended(now', next', status)
        else Under(done + [t], now', next', NextCursor(cursor))
    {
      SplitsMore(done, cursor, t);
      NextStep(done, next, t);
      var next' := next[chan := Next8(next[chan])];
      if status < 0 {
        StepRefused(done, now, next, cursor, t, status, now', next');
      } else {
        StepAccepted(done, now, next, cursor, t, now', next');
      }
    }
  }

  // ---------- The code ----------

  class Hal {
    var script: seq<int>        // answers still to come: 0 busy, negative error, positive accepted
    var accepted: seq<bytes>    // what went out on the bus
    var errors: seq<int>        // negative answers given
    var zeros: nat              // times it answered 0

    /** i2chal_write; once its script is used up this HAL accepts everything. */
    method Write(buf: array<byte>, len: nat) returns (status: int)
      requires 0 < len <= buf.Length
      modifies this
      ensures status == if old(script) == [] then len else old(script)[0]
      ensures script == if old(script) == [] then [] else old(script)[1..]
      ensures accepted == if status > 0 then old(accepted) + [buf[..Min(HAL_BUFFER, len)]] else old(accepted)
      ensures errors == if status < 0 then old(errors) + [status] else old(errors)
      ensures zeros == if status == 0 then old(zeros) + 1 else old(zeros)
    {
      if script == [] {
        status := len;
      } else {
        status, script := script[0], script[1..];
      }
      if status > 0 {
        accepted := accepted + [buf[..Min(HAL_BUFFER, len)]];
      } else if status < 0 {
        errors := errors + [status];
      } else {
        zeros := zeros + 1;
      }
    }
  }

  /** After n rounds at least n bytes have gone out, unless there is no room for any. */
  predicate Pace(outMaxTransfer: u16, cursor: int, remaining: int, n: int) {
    if outMaxTransfer == HDR_LEN then cursor == 0 else remaining == 0 || n <= cursor
  }

  lemma PaceKept(outMaxTransfer: u16, cursor: int, remaining: int, n: int, transferLen: int)
    requires remaining > 0 && transferLen == Min(remaining, LessHeader(outMaxTransfer))
    requires Pace(outMaxTransfer, cursor, remaining, n)
    ensures 0 <= transferLen <= remaining && Pace(outMaxTransfer, cursor + transferLen, remaining - transferLen, n + 1)
  {
  }

  class Transmitter {
    const hal: Hal
    var outMaxPayload: u16
    var outMaxTransfer: u16
    const outTransfer: array<byte>
    var nextOutSeq: seq<byte>   // chan[n].nextOutSeq
    var txDiscards: u32
    var badTxChan: u32
    var staged: seq<bytes>      // every transfer put in the out buffer
    var services: nat           // service steps made while the HAL was busy

    ghost predicate Valid()
      reads this
    {
      outTransfer.Length == MAX_TRANSFER_OUT && |nextOutSeq| == MAX_CHANS && outMaxTransfer <= MAX_TRANSFER_OUT
    }

    constructor (hal: Hal)
      ensures Valid() && this.hal == hal && staged == [] && fresh(outTransfer)
      ensures outMaxTransfer == MAX_TRANSFER_OUT && outMaxPayload == MAX_PAYLOAD_OUT
      ensures nextOutSeq == seq(MAX_CHANS, _ => 0)
    {
      this.hal := hal;
      outMaxPayload, outMaxTransfer := MAX_PAYLOAD_OUT, MAX_TRANSFER_OUT;
      outTransfer := new byte[MAX_TRANSFER_OUT](_ => 0);
      nextOutSeq := seq(MAX_CHANS, _ => 0);
      txDiscards, badTxChan, staged, services := 0, 0, [], 0;
    }

    /** Build the next transfer in the out buffer and take its sequence number. */
    method Stage(chan: byte, continuation: bool, piece: bytes)
      requires Valid() && chan < MAX_CHANS && |piece| + HDR_LEN <= MAX_TRANSFER_OUT
      modifies outTransfer, this`nextOutSeq, this`staged
      ensures var t := Transfer(chan, old(nextOutSeq[chan]), continuation, piece);
        outTransfer[..|t|] == t && staged == old(staged) + [t]
      ensures nextOutSeq == old(nextOutSeq)[chan := Next8(old(nextOutSeq[chan]))]
    {
      var lenField := |piece| + HDR_LEN;
      outTransfer[0] := lenField % 0x100;
      outTransfer[1] := lenField / 0x100;
      if continuation {
        outTransfer[1] := outTransfer[1] + 0x80;
      }
      outTransfer[2] := chan;
      outTransfer[3] := nextOutSeq[chan];
      assert outTransfer[..HDR_LEN] == Header(lenField, continuation, chan, nextOutSeq[chan]);
      nextOutSeq := nextOutSeq[chan := Next8(nextOutSeq[chan])];
      forall i | 0 <= i < |piece| {
        outTransfer[HDR_LEN + i] := piece[i];
      }
      assert outTransfer[..lenField] == outTransfer[..HDR_LEN] + piece;
      staged := staged + [outTransfer[..lenField]];
    }

    /** Write the out buffer, again and again while the HAL answers 0, with one service step
        after each 0. */
    method Transmit(lenField: nat) returns (status: int)
      requires 0 < lenField <= outTransfer.Length <= HAL_BUFFER
      modifies hal, this`services
      ensures status != 0
      ensures hal.accepted == if status > 0 then old(hal.accepted) + [outTransfer[..lenField]] else old(hal.accepted)
      ensures hal.errors == if status < 0 then old(hal.errors) + [status] else old(hal.errors)
      ensures services - old(services) == hal.zeros - old(hal.zeros)
    {
      status := hal.Write(outTransfer, lenField);
      while status == 0
        invariant hal.accepted == if status > 0 then old(hal.accepted) + [outTransfer[..lenField]]
          else old(hal.accepted)
        invariant hal.errors == if status < 0 then old(hal.errors) + [status] else old(hal.errors)
        invariant services - old(services) == hal.zeros - old(hal.zeros) - if status == 0 then 1 else 0
        decreases |hal.script|, status == 0
      {
        services := services + 1;
        status := hal.Write(outTransfer, lenField);
      }
    }

    ghost function Logs(): Log
      reads this`staged, hal
    {
      Log(hal.accepted, staged, hal.errors)
    }

    /** One round of the loop: stage and transmit the next piece of what remains. */
    method SendNext(chan: byte, pData: bytes, cursor: nat, remaining: nat, continuation: bool,
                    ghost send: SendOf, ghost done: seq<bytes>)
        returns (status: int, transferLen: nat, ghost sent: seq<bytes>)
      requires remaining > 0 && chan == send.chan && pData == send.payload
      requires Sending(send, done, cursor, remaining, continuation)
      modifies this`staged, outTransfer, this`nextOutSeq, this`services, hal
      ensures Valid() && transferLen == Min(remaining, LessHeader(outMaxTransfer))
      ensures status < 0 ==> send.Ended(Logs(), nextOutSeq, status)
      ensures status >= 0 ==> Sending(send, sent, cursor + transferLen, remaining - transferLen, true)
    {
      transferLen := Min(remaining, LessHeader(outMaxTransfer));
      ghost var t;
      status, t := SendPiece(chan, continuation, pData[cursor..cursor + transferLen], cursor, send, done);
      sent := done + [t];
    }

    method SendPiece(chan: byte, continuation: bool, piece: bytes, ghost cursor: nat, ghost send: SendOf,
                     ghost done: seq<bytes>)
        returns (status: int, ghost t: bytes)
      requires Valid() && chan == send.chan && send.Under(done, Logs(), nextOutSeq, cursor)
      requires cursor < |send.payload| && continuation == (done != [])
      requires piece == send.payload[cursor..send.NextCursor(cursor)]
      modifies this`staged, outTransfer, this`nextOutSeq, this`services, hal
      ensures Valid()
      ensures status < 0 ==> send.Ended(Logs(), nextOutSeq, status)
      ensures status >= 0 ==> send.Under(done + [t], Logs(), nextOutSeq, send.NextCursor(cursor))
    {
      ghost var now, next := Logs(), nextOutSeq;
      t := Transfer(chan, nextOutSeq[chan], continuation, piece);
      Stage(chan, continuation, piece);
      status := Transmit(|piece| + HDR_LEN);
      send.Step(done, now, next, cursor, t, status, Logs());
    }

    /** What this transmitter has to send. */
    ghost function Send(chan: byte, payload: bytes): SendOf
      reads this, hal
    {
      SendOf(Logs(), nextOutSeq, chan, payload, LessHeader(outMaxTransfer))
    }

    /** So much of the payload is out, in the transfers `sent`, and so much is left. */
    ghost predicate Sending(send: SendOf, sent: seq<bytes>, cursor: nat, remaining: int, continuation: bool)
      reads this, outTransfer, hal
    {
      && Valid() && send.cap == LessHeader(outMaxTransfer) && cursor + remaining == |send.payload| && 0 <= remaining
      && continuation == (sent != []) && send.Under(sent, Logs(), nextOutSeq, cursor)
    }


    /** Send a cargo; a payload without bytes sends nothing. `rounds` is how many rounds of the
        loop are looked at: as many as there are bytes are enough exactly when the transfer
        limit is not the header's length; with that limit no number of rounds is. */
    method TxProcess(chan: byte, pData: bytes, rounds: nat) returns (status: int, done: bool)
      requires Valid() && chan < MAX_CHANS && |pData| < 0x1_0000 && FitsBuffer(|pData|, outMaxTransfer)
      modifies this`txDiscards, this`staged, outTransfer, this`nextOutSeq, this`services, hal
      ensures Valid()
      ensures done ==> old(Send(chan, pData)).Ended(Logs(), nextOutSeq, status)
      ensures !done ==> old(Send(chan, pData)).Unfinished(Logs(), nextOutSeq)
      ensures outMaxTransfer != HDR_LEN && rounds >= |pData| ==> done
      ensures outMaxTransfer == HDR_LEN && pData != [] ==> !done || status < 0
      ensures txDiscards == if done && status < 0 then Next32(old(txDiscards)) else old(txDiscards)
    {
      ghost var send, sent: seq<bytes> := Send(chan, pData), [];
      send.Starts();
      var continuation, n := false, 0;
      var cursor, remaining := 0, |pData|;
      while remaining > 0 && n < rounds
        invariant 0 <= cursor && Sending(send, sent, cursor, remaining, continuation)
        invariant n <= rounds && txDiscards == old(txDiscards) && Pace(outMaxTransfer, cursor, remaining, n)
        decreases rounds - n
      {
        var transferLen: nat;
        status, transferLen, sent := SendNext(chan, pData, cursor, remaining, continuation, send, sent);
        PaceKept(outMaxTransfer, cursor, remaining, n, transferLen);
        if status < 0 {
          txDiscards := Next32(txDiscards);
          return status, true;
        }
        remaining, cursor := remaining - transferLen, cursor + transferLen;
        continuation, n := true, n + 1;
      }
      status, done := SH2_OK, remaining == 0;
      send.Stops(sent, Logs(), nextOutSeq, cursor);
    }

    method ShtpSend(channel: byte, payload: bytes, rounds: nat) returns (ret: int, done: bool)
      requires Valid() && |payload| < 0x1_0000
      requires |payload| <= outMaxPayload && channel < MAX_CHANS ==> FitsBuffer(|payload|, outMaxTransfer)
      modifies this`txDiscards, this`badTxChan, this`staged, outTransfer, this`nextOutSeq, this`services, hal
      ensures Valid()
      ensures |payload| > outMaxPayload || channel >= MAX_CHANS ==>
        && ret == -2 && done && Logs() == old(Logs()) && nextOutSeq == old(nextOutSeq)
        && badTxChan == if |payload| > outMaxPayload then old(badTxChan) else Next32(old(badTxChan))
      ensures |payload| <= outMaxPayload && channel < MAX_CHANS ==>
        && (done ==> old(Send(channel, payload)).Ended(Logs(), nextOutSeq, ret))
        && (!done ==> old(Send(channel, payload)).Unfinished(Logs(), nextOutSeq))
        && (outMaxTransfer != HDR_LEN && rounds >= |payload| ==> done)
        && badTxChan == old(badTxChan)
    {
      if |payload| > outMaxPayload {
        return SH2_ERR_BAD_PARAM, true;
      }
      if channel >= MAX_CHANS {
        badTxChan := Next32(badTxChan);
        return SH2_ERR_BAD_PARAM, true;
      }
      ret, done := TxProcess(channel, payload, rounds);
    }

    /** What addChannel does to a channel's outgoing numbers. */
    method Renumber(chan: byte)
      requires Valid() && chan < MAX_CHANS
      modifies this`nextOutSeq
      ensures Valid() && nextOutSeq == old(nextOutSeq)[chan := 0]
    {
      nextOutSeq := nextOutSeq[chan := 0];
    }
  }

  // ---------- Sequence numbers over a whole run ----------

  /** What bears on the numbers: a transfer is staged, or its channel is defined anew, which
      starts its numbers from zero. */
  datatype Item = Staged(t: bytes) | Renumbered(chan: byte)

  predicate WellFormed(log: seq<Item>) {
    forall k :: 0 <= k < |log| ==> log[k].Staged? ==> |log[k].t| >= HDR_LEN
  }

  /** Transfers staged on channel c since its numbers last started from zero. */
  ghost function SinceStart(log: seq<Item>, c: byte): nat
    requires WellFormed(log)
  {
    if log == [] then 0
    else
      var most, item := SinceStart(log[..|log| - 1], c), log[|log| - 1];
      match item
      case Staged(t) => if t[2] == c then most + 1 else most
      case Renumbered(d) => if d == c then 0 else most
  }

  ghost predicate NumberedAt(log: seq<Item>, k: nat)
    requires k < |log| && WellFormed(log)
  {
    log[k].Staged? ==> log[k].t[3] == Mod8(SinceStart(log[..k], log[k].t[2]))
  }

  /** Every transfer carries the number of transfers before it on its channel, mod 256, and
      `next` holds the number each channel will use next. */
  ghost predicate Numbered(log: seq<Item>, next: seq<byte>) {
    && WellFormed(log) && |next| == MAX_CHANS
    && (forall k :: 0 <= k < |log| ==> NumberedAt(log, k))
    && (forall c: byte :: c < MAX_CHANS ==> next[c] == Mod8(SinceStart(log, c)))
  }

  lemma SinceMore(log: seq<Item>, item: Item, c: byte)
    requires WellFormed(log) && (item.Staged? ==> |item.t| >= HDR_LEN)
    ensures WellFormed(log + [item])
    ensures SinceStart(log + [item], c) ==
      match item
      case Staged(t) => if t[2] == c then SinceStart(log, c) + 1 else SinceStart(log, c)
      case Renumbered(d) => if d == c then 0 else SinceStart(log, c)
  {
    assert (log + [item])[..|log|] == log;
  }

  lemma NumberedAppend(log: seq<Item>, next: seq<byte>, item: Item, next': seq<byte>)
    requires Numbered(log, next)
    requires match item
      case Staged(t) => |t| >= HDR_LEN && t[2] < MAX_CHANS && t[3] == next[t[2]] && next' == next[t[2] := Next8(t[3])]
      case Renumbered(c) => c < MAX_CHANS && next' == next[c := 0]
    ensures Numbered(log + [item], next')
  {
    var more := log + [item];
    SinceMore(log, item, 0);
    forall k | 0 <= k < |more| ensures NumberedAt(more, k) {
      assert more[..k] == log[..k];
      assert k < |log| ==> NumberedAt(log, k);
      assert log[..|log|] == log;
    }
    forall c: byte | c < MAX_CHANS ensures next'[c] == Mod8(SinceStart(more, c)) {
      SinceMore(log, item, c);
      Mod8Next(SinceStart(log, c));
    }
  }

  function Items(ts: seq<bytes>): seq<Item> {
    if ts == [] then [] else Items(ts[..|ts| - 1]) + [Staged(ts[|ts| - 1])]
  }

  /** The transfers of a log, in order. */
  function Transfers(log: seq<Item>): seq<bytes> {
    if log == [] then []
    else Transfers(log[..|log| - 1]) + if log[|log| - 1].Staged? then [log[|log| - 1].t] else []
  }

  lemma {:induction false} TransfersOfItems(log: seq<Item>, ts: seq<bytes>)
    ensures Transfers(log + Items(ts)) == Transfers(log) + ts
    decreases |ts|
  {
    if ts == [] {
      assert log + Items(ts) == log;
    } else {
      var most, more := log + Items(ts[..|ts| - 1]), log + Items(ts);
      TransfersOfItems(log, ts[..|ts| - 1]);
      assert more[..|more| - 1] == most;
      assert ts[..|ts| - 1] + [ts[|ts| - 1]] == ts;
    }
  }

  /** A send, finished or not, with or without a HAL error, has staged `sent` and moved the
      channel's number on accordingly. */
  ghost predicate Staging(send: SendOf, sent: seq<bytes>, cursor: nat, now: Log, next: seq<byte>) {
    && send.Splits(sent, cursor) && now.staged == send.before.staged + sent
    && next == send.next0[send.chan := send.NextNo(sent)]
  }

  /** One more send keeps every channel numbered consecutively. */
  lemma NumberedAcrossSends(log: seq<Item>, send: SendOf, sent: seq<bytes>, cursor: nat, now: Log, next: seq<byte>)
    requires Staging(send, sent, cursor, now, next) && Numbered(log, send.next0)
    ensures Numbered(log + Items(sent), next)
  {
    NumberedMore(log, send, sent, cursor, |sent|);
    assert sent[..|sent|] == sent;
  }

  lemma {:induction false} NumberedMore(log: seq<Item>, send: SendOf, sent: seq<bytes>, cursor: nat, k: nat)
    requires send.Splits(sent, cursor) && k <= |sent| && Numbered(log, send.next0)
    ensures Numbered(log + Items(sent[..k]), send.next0[send.chan := send.NextNo(sent[..k])])
  {
    if k == 0 {
      assert log + Items(sent[..k]) == log;
      assert send.next0[send.chan := send.next0[send.chan]] == send.next0;
    } else {
      NumberedMore(log, send, sent, cursor, k - 1);
      assert send.ShapeAt(sent, k - 1);
      var most, t := sent[..k - 1], sent[k - 1];
      assert sent[..k][..k - 1] == most && sent[..k][k - 1] == t;
      var next, next' := send.next0[send.chan := send.NextNo(most)], send.next0[send.chan := send.NextNo(sent[..k])];
      NumberedAppend(log + Items(most), next, Staged(t), next');
      assert log + Items(sent[..k]) == log + Items(most) + [Staged(t)];
    }
  }

  datatype Request = Send(chan: byte, payload: bytes) | Define(channel: byte)

  /** A whole run of sends and channel definitions, whatever the HAL answers, whatever is
      refused and whether or not a send is cut short after `rounds` rounds: every transfer
      staged carries the number of transfers before it on its channel, mod 256. */
  method SendAll(tx: Transmitter, requests: seq<Request>, rounds: nat, ghost log: seq<Item>)
      returns (ghost log': seq<Item>)
    requires tx.Valid() && Numbered(log, tx.nextOutSeq) && Transfers(log) == tx.staged
    requires forall q <- requests :: q.Send? ==> |q.payload| < 0x1_0000 && FitsBuffer(|q.payload|, tx.outMaxTransfer)
    modifies tx, tx.outTransfer, tx.hal
    ensures tx.Valid() && Numbered(log', tx.nextOutSeq) && Transfers(log') == tx.staged
  {
    log' := log;
    for i := 0 to |requests|
      invariant tx.Valid() && tx.outMaxTransfer == old(tx.outMaxTransfer)
      invariant Numbered(log', tx.nextOutSeq) && Transfers(log') == tx.staged
    {
      match requests[i]
      case Send(c, payload) =>
        log' := SendNumbered(tx, c, payload, rounds, log');
      case Define(c) =>
        if c < MAX_CHANS {
          NumberedAppend(log', tx.nextOutSeq, Renumbered(c), tx.nextOutSeq[c := 0]);
          assert (log' + [Renumbered(c)])[..|log'|] == log';
          log' := log' + [Renumbered(c)];
          tx.Renumber(c);
        }
    }
  }

  method SendNumbered(tx: Transmitter, chan: byte, payload: bytes, rounds: nat, ghost log: seq<Item>)
      returns (ghost log': seq<Item>)
    requires tx.Valid() && Numbered(log, tx.nextOutSeq) && Transfers(log) == tx.staged
    requires |payload| < 0x1_0000 && FitsBuffer(|payload|, tx.outMaxTransfer)
    modifies tx, tx.outTransfer, tx.hal
    ensures tx.Valid() && tx.outMaxTransfer == old(tx.outMaxTransfer)
    ensures Numbered(log', tx.nextOutSeq) && Transfers(log') == tx.staged
  {
    ghost var send, taken := tx.Send(chan, payload), |payload| <= tx.outMaxPayload && chan < MAX_CHANS;
    var ret, done := tx.ShtpSend(chan, payload, rounds);
    log' := log;
    if taken {
      ghost var sent: seq<bytes>, cursor: nat := SentBy(send, tx.Logs(), tx.nextOutSeq, ret, done);
      NumberedAcrossSends(log, send, sent, cursor, tx.Logs(), tx.nextOutSeq);
      TransfersOfItems(log, sent);
      log' := log + Items(sent);
    }
  }

  lemma SentBy(send: SendOf, now: Log, next: seq<byte>, ret: int, done: bool) returns (sent: seq<bytes>, cursor: nat)
    requires if done then send.Ended(now, next, ret) else send.Unfinished(now, next)
    ensures Staging(send, sent, cursor, now, next)
  {
    if done {
      sent, cursor :| send.EndedWith(sent, cursor, now, next, ret);
    } else {
      sent, cursor :| cursor < |send.payload| && send.Under(sent, now, next, cursor);
    }
  }

  // ---------- Sending into a receiver ----------

  datatype Hearing = Hearing(pending: Option<Assembly>, payloads: seq<bytes>)

  /** What a receiver makes of a sequence of transfers. */
  ghost function Hear(pending: Option<Assembly>, listeners: nat, ts: seq<bytes>, now: u32): Hearing {
    if ts == [] then Hearing(pending, [])
    else
      var h := Hear(pending, listeners, ts[..|ts| - 1], now);
      var r := Receive(h.pending, listeners, ts[|ts| - 1], now);
      Hearing(r.pending, h.payloads + if r.outcome.Completed? then [r.outcome.payload] else [])
  }

  lemma WholeHeard(pending: Option<Assembly>, listeners: nat, t: bytes, now: u32)
    requires HDR_LEN <= |t| == HeaderLen(t) <= MAX_PAYLOAD_IN && t[2] < Min(listeners, MAX_CHANS)
    requires pending.None? || !IsContinuation(t)
    ensures Receive(pending, listeners, t, now) == Result(None, Completed(t[2], t[HDR_LEN..], now))
  {
    assert [] + Body(t) == t[HDR_LEN..];
  }

  lemma HearWhole(pending: Option<Assembly>, listeners: nat, ts: seq<bytes>, t: bytes, now: u32, h: Hearing)
    requires HDR_LEN <= |t| == HeaderLen(t) <= MAX_PAYLOAD_IN && t[2] < Min(listeners, MAX_CHANS)
    requires h == Hear(pending, listeners, ts, now) && (h.pending.None? || !IsContinuation(t))
    ensures Hear(pending, listeners, ts + [t], now) == Hearing(None, h.payloads + [t[HDR_LEN..]])
  {
    assert (ts + [t])[..|ts|] == ts;
    WholeHeard(h.pending, listeners, t, now);
  }

  /** Each of the transfers was handed over by itself. */
  ghost predicate HeardEach(h: Hearing, ts: seq<bytes>) {
    && Framed(ts) && Concat(h.payloads) == Carried(ts) && |h.payloads| == |ts|
    && (ts != [] ==> h.pending == None && h.payloads[0] == ts[0][HDR_LEN..])
  }

  lemma HeardOneMore(h: Hearing, ts: seq<bytes>, t: bytes)
    requires HeardEach(h, ts) && |t| >= HDR_LEN
    ensures HeardEach(Hearing(None, h.payloads + [t[HDR_LEN..]]), ts + [t])
  {
    ConcatAppend(h.payloads, t[HDR_LEN..]);
    CarriedMore(ts, t);
  }

  lemma HearsOneMore(pending: Option<Assembly>, listeners: nat, ts: seq<bytes>, t: bytes, now: u32, more: seq<bytes>)
    requires HDR_LEN <= |t| == HeaderLen(t) <= MAX_PAYLOAD_IN && t[2] < Min(listeners, MAX_CHANS)
    requires HeardEach(Hear(pending, listeners, ts, now), ts) && more == ts + [t] && (IsContinuation(t) ==> ts != [])
    ensures HeardEach(Hear(pending, listeners, more, now), more)
  {
    var h := Hear(pending, listeners, ts, now);
    HearWhole(pending, listeners, ts, t, now, h);
    HeardOneMore(h, ts, t);
  }

  lemma {:induction false} EachHeard(pending: Option<Assembly>, listeners: nat, send: SendOf, sent: seq<bytes>,
                                     cursor: nat,
                                     k: nat, now: u32)
    requires send.Splits(sent, cursor) && k <= |sent| && send.chan < listeners
    ensures HeardEach(Hear(pending, listeners, sent[..k], now), sent[..k])
  {
    if k > 0 {
      var ts, t := sent[..k - 1], sent[k - 1];
      EachHeard(pending, listeners, send, sent, cursor, k - 1, now);
      assert send.ShapeAt(sent, k - 1);
      HearsOneMore(pending, listeners, ts, t, now, sent[..k]);
    }
  }

  /** Transmit then receive: a transfer announces only its own length, so the receiver hands
      over every piece by itself, in order, whatever it was assembling before, and the
      pieces make up the payload. */
  lemma SendThenReceive(pending: Option<Assembly>, listeners: nat, send: SendOf, sent: seq<bytes>, now: u32)
    requires send.Splits(sent, |send.payload|) && send.chan < listeners
    ensures var heard := Hear(pending, listeners, sent, now);
      && Concat(heard.payloads) == send.payload && |heard.payloads| == |sent|
      && (send.payload != [] ==> heard.pending == None)
  {
    assert sent[..|sent|] == sent && send.payload[..|send.payload|] == send.payload;
    EachHeard(pending, listeners, send, sent, |send.payload|, |sent|, now);
  }

  /** Pieces without room for a byte carry nothing. */
  lemma {:induction false} EmptyPieces(send: SendOf, sent: seq<bytes>, cursor: nat, k: nat)
    requires send.Splits(sent, cursor) && send.cap == 0 && k <= |sent|
    ensures Carried(sent[..k]) == []
  {
    if k > 0 {
      EmptyPieces(send, sent, cursor, k - 1);
      assert sent[..k][..k - 1] == sent[..k - 1];
      assert send.ShapeAt(sent, k - 1);
    }
  }

  /** So a payload that has been sent left room in each transfer. */
  lemma HasRoom(send: SendOf, sent: seq<bytes>)
    requires send.Splits(sent, |send.payload|) && send.payload != []
    ensures send.cap > 0
  {
    assert sent[..|sent|] == sent;
    if send.cap == 0 {
      EmptyPieces(send, sent, |send.payload|, |sent|);
    }
  }

  /** The peer's callback sees the payload whole exactly when it fits one transfer. */
  lemma OneCallbackIffOneTransfer(pending: Option<Assembly>, listeners: nat, send: SendOf, sent: seq<bytes>, now: u32)
    requires send.Splits(sent, |send.payload|) && send.chan < listeners && send.payload != []
    ensures Hear(pending, listeners, sent, now).payloads == [send.payload] <==> |send.payload| <= send.cap
  {
    var heard := Hear(pending, listeners, sent, now);
    SendThenReceive(pending, listeners, send, sent, now);
    assert send.payload[..|send.payload|] == send.payload;
    HasRoom(send, sent);
    assert send.ShapeAt(sent, 0) && send.ShapeAt(sent, |sent| - 1);
    if |sent| == 1 {
      assert sent[..0] == [];
      assert heard.payloads == [heard.payloads[0]] && heard.payloads[1..] == [];
    } else {
      FirstPieceShorter(sent);
    }
  }

  lemma FirstPieceShorter(ts: seq<bytes>)
    requires Framed(ts) && |ts| > 1 && |ts[|ts| - 1]| > HDR_LEN
    ensures |Carried(ts)| > |ts[0]| - HDR_LEN
  {
    var most := ts[..|ts| - 1];
    assert most[0] == ts[0];
    if |most| == 1 {
      assert most[..0] == [];
    }
    CarriedFirst(most);
  }

  lemma CarriedFirst(ts: seq<bytes>)
    requires Framed(ts) && |ts| > 0
    ensures |Carried(ts)| >= |ts[0]| - HDR_LEN
  {
    if |ts| == 1 {
      assert ts[..0] == [];
    } else {
      CarriedFirst(ts[..|ts| - 1]);
    }
  }
}
