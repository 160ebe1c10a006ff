/**
 * The servo bus (SCS.cpp): checksummed frames out, a bounded search for the header of the
 * reply, and the checks each kind of reply gets.
 */
module Servo {
  import opened Bytes

  const FF: byte := 0xFF
  const BROADCAST: byte := 0xFE
  const INST_PING: byte := 0x01
  const INST_READ: byte := 0x02
  const INST_WRITE: byte := 0x03
  const INST_SYNC_READ: byte := 0x82
  const INST_SYNC_WRITE: byte := 0x83

  // ---------- Checksums ----------

  /** Addition in a byte. */
  function Add8(a: byte, b: byte): byte {
    if a + b < 0x100 then a + b else a + b - 0x100
  }

  function Not8(a: byte): byte {
    0xFF - a
  }

  /** A sum cut down to a byte. */
  function Low8(n: nat): byte {
    if n < 0x100 then n else Low8(n - 0x100)
  }

  function Sum(s: bytes): nat {
    if s == [] then 0 else Sum(s[..|s| - 1]) + s[|s| - 1]
  }

  /** The running checksum over a string. */
  function Sum8(s: bytes): byte {
    if s == [] then 0 else Add8(Sum8(s[..|s| - 1]), s[|s| - 1])
  }

  lemma {:induction false} Low8Add(n: nat, b: byte)
    ensures Low8(n + b) == Add8(Low8(n), b)
    decreases n
  {
    if n >= 0x100 {
      Low8Add(n - 0x100, b);
    } else {
      assert n + b >= 0x100 ==> Low8(n + b) == Low8(n + b - 0x100);
    }
  }

  /** It is the sum modulo 256. */
  lemma {:induction false} SumMod256(s: bytes)
    ensures Sum8(s) == Sum(s) % 0x100
    decreases |s|
  {
    if s != [] {
      SumMod256(s[..|s| - 1]);
    }
  }

  lemma SumMore(s: bytes, b: byte)
    ensures Sum(s + [b]) == Sum(s) + b && Sum8(s + [b]) == Add8(Sum8(s), b)
  {
    assert (s + [b])[..|s|] == s;
  }

  /** Changing one byte always changes the sum. */
  lemma {:induction false} OneByteChanges(s: bytes, i: nat, b: byte)
    requires i < |s| && b != s[i]
    ensures Sum8(s[i := b]) != Sum8(s)
    decreases |s|
  {
    var t, n := s[i := b], |s| - 1;
    if i < n {
      OneByteChanges(s[..n], i, b);
      assert t[..n] == s[..n][i := b];
    } else {
      assert t[..n] == s[..n];
    }
  }

  // ---------- Frames ----------

  /** Two header bytes, the body, and the complement of the body's sum. */
  function Frame(body: bytes): bytes {
    [FF, FF] + body + [Not8(Sum8(body))]
  }

  /** The sum from the id through the checksum. */
  predicate SumOk(f: bytes) {
    |f| >= 6 && Sum8(f[2..]) == 0xFF
  }

  /** The length field counts the bytes after it. */
  predicate LengthOk(f: bytes) {
    |f| >= 6 && f[3] == |f| - 4
  }

  lemma FrameSums(body: bytes)
    requires |body| >= 3
    ensures SumOk(Frame(body)) && Frame(body)[..2] == [FF, FF]
  {
    assert Frame(body)[2..] == body + [Not8(Sum8(body))];
    SumMore(body, Not8(Sum8(body)));
  }

  /** What writeBuf sends: without data the address is left out of the frame, but not out of
      the checksum. */
  function WriteFrame(id: byte, memAddr: byte, data: Option<bytes>, fun: byte): bytes {
    match data
    case Some(d) => Frame([id, Low8(2 + |d| + 1), fun, memAddr] + d)
    case None => [FF, FF, id, 2, fun, Not8(Low8(id + 2 + fun + memAddr))]
  }

  function SyncBlocks(ids: bytes, blocks: seq<bytes>, n: nat): bytes
    requires n <= |ids| == |blocks|
  {
    if n == 0 then [] else SyncBlocks(ids, blocks, n - 1) + [ids[n - 1]] + blocks[n - 1]
  }

  function SyncWriteFrame(ids: bytes, memAddr: byte, blocks: seq<bytes>, nLen: byte): bytes
    requires |ids| == |blocks|
  {
    Frame([BROADCAST, Low8((nLen + 1) * |ids| + 4), INST_SYNC_WRITE, memAddr, nLen] + SyncBlocks(ids, blocks, |ids|))
  }

  function SyncReadFrame(ids: bytes, memAddr: byte, nLen: byte): bytes {
    Frame([BROADCAST, Low8(|ids| + 4), INST_SYNC_READ, memAddr, nLen] + ids)
  }

  lemma {:induction false} Low8Fits(n: nat)
    ensures Low8(n) == n <==> n <= 0xFF
    decreases n
  {
  }

  /** A write frame's length field is right exactly when it fits a byte, and its sum is right
      unless there is no data and the address is not zero. */
  lemma WriteFrameIff(id: byte, memAddr: byte, data: Option<bytes>, fun: byte)
    ensures var f := WriteFrame(id, memAddr, data, fun);
      && (LengthOk(f) <==> data.None? || |data.value| <= 252)
      && (SumOk(f) <==> data.Some? || memAddr == 0)
  {
    match data
    case Some(d) =>
      FrameSums([id, Low8(2 + |d| + 1), fun, memAddr] + d);
      Low8Fits(2 + |d| + 1);
    case None =>
      var f := WriteFrame(id, memAddr, data, fun);
      var head := [id, 2, fun];
      assert f[2..] == head + [f[5]];
      SumMore(head, f[5]);
      SumThree(id, 2, fun);
      Low8Add(id + 2 + fun, memAddr);
  }

  lemma SumThree(a: byte, b: byte, c: byte)
    ensures Sum8([a, b, c]) == Low8(a + b + c)
  {
    SumMore([], a);
    SumMore([a], b);
    SumMore([a, b], c);
    assert [] + [a] == [a] && [a] + [b] == [a, b] && [a, b] + [c] == [a, b, c];
    Low8Add(a as int, b);
    Low8Add(a + b, c);
  }

  /** What a servo makes of a frame: nothing, unless header, length and sum are right; else the
      id, the instruction and the parameters. */
  function Decode(f: bytes): Option<(byte, byte, bytes)> {
    if |f| >= 6 && f[..2] == [FF, FF] && LengthOk(f) && SumOk(f) then Some((f[2], f[4], f[5..|f| - 1])) else None
  }

  /** A servo decodes from a write frame exactly what was asked for, or nothing when the length
      does not fit or a frame without data carries an address in its sum. */
  lemma WriteDecodes(id: byte, memAddr: byte, data: Option<bytes>, fun: byte)
    ensures Decode(WriteFrame(id, memAddr, data, fun)) ==
      if (if data.Some? then |data.value| <= 252 else memAddr == 0)
      then Some((id, fun, if data.Some? then [memAddr] + data.value else [])) else None
  {
    WriteFrameIff(id, memAddr, data, fun);
    var f := WriteFrame(id, memAddr, data, fun);
    assert f[..2] == [FF, FF];
    if data.Some? {
      assert f[5..|f| - 1] == [memAddr] + data.value;
    } else {
      assert f[5..|f| - 1] == [];
    }
  }

  lemma SyncReadDecodes(ids: bytes, memAddr: byte, nLen: byte)
    requires |ids| <= 251
    ensures Decode(SyncReadFrame(ids, memAddr, nLen)) == Some((0xFE, 0x82, [memAddr, nLen] + ids))
  {
    SyncReadFrameIff(ids, memAddr, nLen);
    var f := SyncReadFrame(ids, memAddr, nLen);
    assert f[..2] == [FF, FF] && f[5..|f| - 1] == [memAddr, nLen] + ids;
  }

  /** In a sync write every servo finds its id followed by its own block, at a fixed place. */
  lemma SyncWriteDecodes(ids: bytes, memAddr: byte, blocks: seq<bytes>, nLen: byte, k: nat)
    requires |ids| == |blocks| && (forall i :: 0 <= i < |blocks| ==> |blocks[i]| == nLen)
    requires (nLen + 1) * |ids| + 4 <= 0xFF && k < |ids|
    ensures var p := [memAddr, nLen] + SyncBlocks(ids, blocks, |ids|);
      && Decode(SyncWriteFrame(ids, memAddr, blocks, nLen)) == Some((0xFE, 0x83, p))
      && 0 <= 2 + (nLen + 1) * k <= 2 + (nLen + 1) * k + nLen + 1 <= |p|
      && p[2 + (nLen + 1) * k..2 + (nLen + 1) * k + nLen + 1] == [ids[k]] + blocks[k]
  {
    SyncWriteFrameIff(ids, memAddr, blocks, nLen);
    var f, s := SyncWriteFrame(ids, memAddr, blocks, nLen), SyncBlocks(ids, blocks, |ids|);
    assert f[..2] == [FF, FF] && f[5..|f| - 1] == [memAddr, nLen] + s;
    BlockAt(ids, blocks, nLen, |ids|, k);
    var at := (nLen + 1) * k;
    assert ([memAddr, nLen] + s)[2 + at..2 + at + nLen + 1] == s[at..at + nLen + 1];
  }

  lemma {:induction false} BlockAt(ids: bytes, blocks: seq<bytes>, nLen: byte, n: nat, k: nat)
    requires k < n <= |ids| == |blocks| && (forall i :: 0 <= i < |blocks| ==> |blocks[i]| == nLen)
    ensures var s, at := SyncBlocks(ids, blocks, n), (nLen + 1) * k;
      0 <= at <= at + nLen + 1 <= |s| && s[at..at + nLen + 1] == [ids[k]] + blocks[k]
    decreases n
  {
    SyncBlocksLength(ids, blocks, nLen, n - 1);
    var s, at := SyncBlocks(ids, blocks, n - 1), (nLen + 1) * k;
    if k < n - 1 {
      BlockAt(ids, blocks, nLen, n - 1, k);
      assert SyncBlocks(ids, blocks, n)[at..at + nLen + 1] == s[at..at + nLen + 1];
    } else {
      assert at == |s|;
    }
  }

  lemma SyncBlocksStep(head: bytes, ids: bytes, blocks: seq<bytes>, i: nat, next: nat)
    requires i < |ids| == |blocks| && next == i + 1
    ensures head + SyncBlocks(ids, blocks, i) + [ids[i]] + blocks[i] == head + SyncBlocks(ids, blocks, next)
  {
  }

  lemma {:induction false} SyncBlocksLength(ids: bytes, blocks: seq<bytes>, nLen: byte, n: nat)
    requires n <= |ids| == |blocks| && (forall i :: 0 <= i < |blocks| ==> |blocks[i]| == nLen)
    ensures |SyncBlocks(ids, blocks, n)| == (nLen + 1) * n
    decreases n
  {
    if n > 0 {
      SyncBlocksLength(ids, blocks, nLen, n - 1);
      assert (nLen + 1) * n == (nLen + 1) * (n - 1) + nLen + 1;
    }
  }

  lemma SyncWriteFrameIff(ids: bytes, memAddr: byte, blocks: seq<bytes>, nLen: byte)
    requires |ids| == |blocks| && (forall i :: 0 <= i < |blocks| ==> |blocks[i]| == nLen)
    ensures var f := SyncWriteFrame(ids, memAddr, blocks, nLen);
      SumOk(f) && (LengthOk(f) <==> (nLen + 1) * |ids| + 4 <= 0xFF)
  {
    var m := (nLen + 1) * |ids| + 4;
    SyncBlocksLength(ids, blocks, nLen, |ids|);
    FrameSums([BROADCAST, Low8(m), INST_SYNC_WRITE, memAddr, nLen] + SyncBlocks(ids, blocks, |ids|));
    Low8Fits(m);
  }

  lemma SyncReadFrameIff(ids: bytes, memAddr: byte, nLen: byte)
    ensures var f := SyncReadFrame(ids, memAddr, nLen); SumOk(f) && (LengthOk(f) <==> |ids| <= 251)
  {
    FrameSums([BROADCAST, Low8(|ids| + 4), INST_SYNC_READ, memAddr, nLen] + ids);
    Low8Fits(|ids| + 4);
  }

  // ---------- Replies ----------

  predicate PairAt(s: bytes, i: nat) {
    1 <= i < |s| && s[i - 1] == FF && s[i] == FF
  }

  /** Where the first pair of header bytes completing at index i or later, but within 11
      bytes, ends. */
  function HeadEnd(s: bytes, i: nat): (h: Option<nat>)
    ensures h.Some? ==> i < h.value <= |s|
    decreases |s| - i
  {
    if i > 10 || i >= |s| then None else if PairAt(s, i) then Some(i + 1) else HeadEnd(s, i + 1)
  }

  lemma {:induction false} HeadEndIff(s: bytes, i: nat, e: nat)
    requires i < e
    ensures HeadEnd(s, i) == Some(e)
      <==> e <= 11 && PairAt(s, e - 1) && forall j: nat :: i <= j < e - 1 ==> !PairAt(s, j)
    decreases |s| - i
  {
    if i <= 10 && i < |s| && !PairAt(s, i) && i + 1 < e {
      HeadEndIff(s, i + 1, e);
    }
  }

  /** What follows the header of a reply to Read: the error byte and the data. Nothing but the
      sum is looked at, neither the id nor the length. */
  function DataIn(s: bytes, n: nat): Option<(byte, bytes)> {
    if n + 4 <= |s| && Sum8(s[..n + 4]) == 0xFF then Some((s[2], s[3..3 + n])) else None
  }

  function ReadReply(s: bytes, n: nat): Option<(byte, bytes)> {
    match HeadEnd(s, 0)
    case None => None
    case Some(h) => DataIn(s[h..], n)
  }

  /** For Ack and Ping the id and the length are checked too: the id and the error byte. */
  function StatusIn(s: bytes, id: byte, any: bool): Option<(byte, byte)> {
    if 4 <= |s| && (any || s[0] == id) && s[1] == 2 && Sum8(s[..4]) == 0xFF then Some((s[0], s[2])) else None
  }

  function StatusReply(s: bytes, id: byte, any: bool): Option<(byte, byte)> {
    match HeadEnd(s, 0)
    case None => None
    case Some(h) => StatusIn(s[h..], id, any)
  }

  /** A servo's reply. */
  function Reply(id: byte, error: byte, data: bytes): bytes
    requires |data| <= 253
  {
    Frame([id, |data| + 2, error] + data)
  }

  /** Bytes before a reply that do not hide its header. */
  predicate Noise(g: bytes) {
    |g| <= 9 && (forall i: nat :: i < |g| ==> !PairAt(g, i)) && (g != [] ==> g[|g| - 1] != FF)
  }

  lemma HeadFound(g: bytes, body: bytes, more: bytes)
    requires Noise(g)
    ensures HeadEnd(g + Frame(body) + more, 0) == Some(|g| + 2)
  {
    var s := g + Frame(body) + more;
    assert PairAt(s, |g| + 1);
    forall j: nat | j < |g| + 1 ensures !PairAt(s, j) {
      assert j < |g| ==> !PairAt(g, j);
    }
    HeadEndIff(s, 0, |g| + 2);
  }

  /** What follows the header of a reply. */
  lemma Behind(g: bytes, body: bytes, more: bytes)
    requires |body| >= 3
    ensures var s, tail := g + Frame(body) + more, body + [Not8(Sum8(body))];
      |g| + 2 <= |s| && s[|g| + 2..] == tail + more && Sum8(tail) == 0xFF
  {
    var s, tail := g + Frame(body) + more, body + [Not8(Sum8(body))];
    FrameSums(body);
    assert Frame(body)[2..] == tail;
    assert s == (g + [FF, FF]) + (tail + more);
  }

  /** A well-formed reply is read back unchanged, with its error byte. */
  lemma ReadReturnsData(g: bytes, id: byte, error: byte, data: bytes, more: bytes)
    requires Noise(g) && |data| <= 253
    ensures ReadReply(g + Reply(id, error, data) + more, |data|) == Some((error, data))
  {
    var body := [id, |data| + 2, error] + data;
    HeadFound(g, body, more);
    Behind(g, body, more);
    DataAlone(body + [Not8(Sum8(body))], more, error, data);
  }

  /** Bytes after a reply do not matter. */
  lemma DataAlone(tail: bytes, more: bytes, error: byte, data: bytes)
    requires |tail| == |data| + 4 && tail[2] == error && tail[3..3 + |data|] == data && Sum8(tail) == 0xFF
    ensures DataIn(tail + more, |data|) == Some((error, data))
  {
    var s := tail + more;
    assert s[..|data| + 4] == tail;
    assert s[3..3 + |data|] == tail[3..3 + |data|];
  }

  /** Of well-formed replies, a status request accepts exactly those without data, from the
      servo asked unless any may answer; they give the id and the error byte. */
  lemma StatusReplyIff(g: bytes, id: byte, any: bool, from: byte, error: byte, data: bytes, more: bytes)
    requires Noise(g) && |data| <= 253
    ensures StatusReply(g + Reply(from, error, data) + more, id, any) ==
      if data == [] && (any || from == id) then Some((from, error)) else None
  {
    var body := [from, |data| + 2, error] + data;
    HeadFound(g, body, more);
    Behind(g, body, more);
    StatusAlone(body + [Not8(Sum8(body))], more, id, any, from, error, data);
  }

  lemma StatusAlone(tail: bytes, more: bytes, id: byte, any: bool, from: byte, error: byte, data: bytes)
    requires |data| <= 253 && |tail| == |data| + 4 && Sum8(tail) == 0xFF
    requires tail[0] == from && tail[1] == |data| + 2 && tail[2] == error
    ensures StatusIn(tail + more, id, any) == if data == [] && (any || from == id) then Some((from, error)) else None
  {
    assert data == [] ==> (tail + more)[..4] == tail;
  }

  /** A reply with any one byte changed behind its header is refused. */
  lemma CorruptionRefused(s: bytes, n: nat, i: nat, b: byte)
    requires ReadReply(s, n).Some? && b != (if i < |s| then s[i] else 0)
    requires var h := HeadEnd(s, 0).value; h <= i < h + n + 4
    ensures i < |s| && ReadReply(s[i := b], n) == None
  {
    var t, h := s[i := b], HeadEnd(s, 0).value;
    HeadStays(s, t, h);
    OneByteChanges(s[h..][..n + 4], i - h, b);
    assert t[h..][..n + 4] == s[h..][..n + 4][i - h := b];
  }

  lemma StatusCorruptionRefused(s: bytes, id: byte, any: bool, i: nat, b: byte)
    requires StatusReply(s, id, any).Some? && b != (if i < |s| then s[i] else 0)
    requires var h := HeadEnd(s, 0).value; h <= i < h + 4
    ensures i < |s| && StatusReply(s[i := b], id, any) == None
  {
    var t, h := s[i := b], HeadEnd(s, 0).value;
    HeadStays(s, t, h);
    OneByteChanges(s[h..][..4], i - h, b);
    assert t[h..][..4] == s[h..][..4][i - h := b];
  }

  lemma HeadStays(s: bytes, t: bytes, h: nat)
    requires HeadEnd(s, 0) == Some(h) && |t| == |s| && 0 < h <= |s| && t[..h] == s[..h]
    ensures HeadEnd(t, 0) == Some(h)
  {
    HeadEndIff(s, 0, h);
    HeadEndIff(t, 0, h);
    forall j: nat | j < h ensures PairAt(t, j) == PairAt(s, j) {
      assert forall k :: 0 <= k < h ==> t[k] == t[..h][k] && s[k] == s[..h][k];
    }
  }

  // ---------- Replies to a sync read ----------

  /** One call of syncReadPacketRx: what it returns, the error byte it stores, if any, and what
      is left to read. */
  datatype SyncReading = SyncReading(data: Option<bytes>, error: Option<byte>, rest: bytes)

  /** The id and the length are checked, the sum is not, and its byte is left unread. */
  function SyncRead(s: bytes, id: byte, n: byte): SyncReading {
    match HeadEnd(s, 0)
    case None => SyncReading(None, None, s[Min(|s|, 11)..])
    case Some(h) => SyncBody(s[h..], id, n)
  }

  function SyncBody(t: bytes, id: byte, n: byte): SyncReading {
    if |t| < 3 then SyncReading(None, None, [])
    else if t[0] != id || t[1] != n + 2 then SyncReading(None, None, t[3..])
    else if |t| < 3 + n then SyncReading(None, Some(t[2]), [])
    else SyncReading(Some(t[3..3 + n]), Some(t[2]), t[3 + n..])
  }

  datatype ServoReply = ServoReply(id: byte, error: byte, data: bytes) {
    predicate Ok() {
      |data| <= 253 && id != FF
    }

    function Bytes(): bytes
      requires Ok()
    {
      Reply(id, error, data)
    }

    /** Its checksum. */
    function Sum(): byte
      requires Ok()
    {
      Not8(Sum8([id, |data| + 2, error] + data))
    }
  }

  predicate AllOk(rs: seq<ServoReply>) {
    forall r <- rs :: r.Ok()
  }

  /** The replies of several servos, one after the other. */
  function Sent(rs: seq<ServoReply>): bytes
    requires AllOk(rs)
  {
    if rs == [] then [] else rs[0].Bytes() + Sent(rs[1..])
  }

  /** Calls for these servos in turn return all their data. */
  predicate AllRead(s: bytes, rs: seq<ServoReply>)
    requires AllOk(rs)
  {
    rs != [] ==>
      assert rs[0].Ok();
      var p := SyncRead(s, rs[0].id, |rs[0].data|);
      p.data == Some(rs[0].data) && p.error == Some(rs[0].error) && AllRead(p.rest, rs[1..])
  }

  /** No reply but the last has the checksum 0xFF. */
  predicate NoSumLikeHeader(rs: seq<ServoReply>)
    requires AllOk(rs)
  {
    |rs| > 1 ==> rs[0].Sum() != FF && NoSumLikeHeader(rs[1..])
  }

  lemma SyncSlices(t: bytes, rest: bytes, n: nat)
    requires |t| >= 3 && rest == t[3..]
    ensures n <= |rest| ==> rest[..n] == t[3..3 + n] && rest[n..] == t[3 + n..]
    ensures n > |rest| ==> rest[|rest|..] == []
  {
  }

  /** After a byte left over that is no header byte, a reply is read, up to its checksum, when
      its servo is asked for as many bytes as it has; any other call refuses it. */
  lemma SyncReadIff(lead: bytes, r: ServoReply, more: bytes, id: byte, n: byte)
    requires r.Ok() && |lead| <= 1 && lead != [FF]
    ensures SyncRead(lead + r.Bytes() + more, id, n) ==
      if id == r.id && n == |r.data| then SyncReading(Some(r.data), Some(r.error), [r.Sum()] + more)
      else SyncReading(None, None, r.data + ([r.Sum()] + more))
  {
    var body := [r.id, |r.data| + 2, r.error] + r.data;
    HeadFound(lead, body, more);
    Behind(lead, body, more);
    SyncBodyAlone(body + [r.Sum()] + more, r, [r.Sum()] + more, id, n);
    assert (body + [r.Sum()]) + more == body + ([r.Sum()] + more);
  }

  lemma SyncBodyAlone(t: bytes, r: ServoReply, rest: bytes, id: byte, n: byte)
    requires r.Ok() && t == [r.id, |r.data| + 2, r.error] + r.data + rest
    ensures SyncBody(t, id, n) ==
      if id == r.id && n == |r.data| then SyncReading(Some(r.data), Some(r.error), rest)
      else SyncReading(None, None, r.data + rest)
  {
    assert t[3..3 + |r.data|] == r.data && t[3 + |r.data|..] == rest;
    assert t[3..] == r.data + rest;
  }

  /** After a byte left over that looks like a header byte the header is found one byte early,
      and the reply is refused on its id. */
  lemma SyncRefusesReply(r: ServoReply, more: bytes)
    requires r.Ok()
    ensures SyncRead([FF] + r.Bytes() + more, r.id, |r.data|).data == None
  {
    var s := [FF] + r.Bytes() + more;
    assert PairAt(s, 1) && !PairAt(s, 0);
    HeadEndIff(s, 0, 2);
    assert s[2..][0] == FF;
  }

  /** The checksum byte that each call leaves is in the way of the next one: replies of any
      number of servos, read back to back, are all returned exactly when no reply before the
      last has the checksum 0xFF. */
  lemma SyncRepliesIff(rs: seq<ServoReply>)
    requires AllOk(rs)
    ensures AllRead(Sent(rs), rs) <==> NoSumLikeHeader(rs)
  {
    assert [] + Sent(rs) == Sent(rs);
    SyncRepliesAfter([], rs);
  }

  lemma {:induction false} SyncRepliesAfter(lead: bytes, rs: seq<ServoReply>)
    requires AllOk(rs) && |lead| <= 1
    ensures AllRead(lead + Sent(rs), rs) <==> rs == [] || (lead != [FF] && NoSumLikeHeader(rs))
    decreases |rs|
  {
    if rs != [] {
      var r, rest := rs[0], rs[1..];
      assert lead + Sent(rs) == lead + r.Bytes() + Sent(rest);
      if lead == [FF] {
        SyncRefusesReply(r, Sent(rest));
      } else {
        SyncReadIff(lead, r, Sent(rest), r.id, |r.data|);
        SyncRepliesAfter([r.Sum()], rest);
      }
    }
  }

  /** Such a checksum is nothing special: a servo that reports no error and two bytes of data
      can have it. */
  lemma SumLikeHeader()
    ensures exists r: ServoReply :: r.Ok() && |r.data| == 2 && r.error == 0 && r.Sum() == FF
  {
    var r := ServoReply(1, 0, [0xFB, 0]);
    SumThree(1, 4, 0);
    SumMore([1, 4, 0], 0xFB);
    SumMore([1, 4, 0, 0xFB], 0);
    assert [1, 4, 0] + [0xFB, 0] == ([1, 4, 0] + [0xFB]) + [0];
    assert r.Sum() == FF;
  }

  // ---------- 16-bit values ----------

  /** The low and high byte of a memory word, in the order the servo's `end` asks for. */
  function Host2SCS(end: bool, data: u16): (byte, byte) {
    if end then (data / 0x100, data % 0x100) else (data % 0x100, data / 0x100)
  }

  function SCS2Host(end: bool, dataL: byte, dataH: byte): u16 {
    if end then dataL as int * 0x100 + dataH as int else dataH as int * 0x100 + dataL as int
  }

  lemma WordRoundTrip(end: bool, data: u16, dataL: byte, dataH: byte)
    ensures var (l, h) := Host2SCS(end, data);
      SCS2Host(end, l, h) == data == if end then 0x100 * l + h else 0x100 * h + l
    ensures Host2SCS(end, SCS2Host(end, dataL, dataH)) == (dataL, dataH)
  {
  }

  // ---------- The code ----------

  /** The bus: what has been sent, and what is still to be read. Reads end early when no more
      bytes come. */
  class SCS {
    const end: bool
    const level: byte
    var error: byte
    var output: bytes
    var input: bytes

    constructor (end: bool, level: byte)
      ensures this.end == end && this.level == level && error == 0 && output == [] && input == []
    {
      this.end, this.level := end, level;
      error, output, input := 0, [], [];
    }

    method WriteSCS(data: bytes)
      modifies this`output
      ensures output == old(output) + data
    {
      output := output + data;
    }

    /** Whatever was left over is dropped; `reply` is what comes after this request. */
    method RFlushSCS(reply: bytes)
      modifies this`input
      ensures input == reply
    {
      input := reply;
    }

    method ReadSCS(n: nat) returns (data: bytes)
      modifies this`input
      ensures data == old(input)[..Min(n, |old(input)|)] && input == old(input)[Min(n, |old(input)|)..]
    {
      var m := Min(n, |input|);
      data := input[..m];
      input := input[m..];
    }

    method WriteBuf(id: byte, memAddr: byte, data: Option<bytes>, fun: byte)
      requires data.Some? ==> |data.value| <= 0xFF
      modifies this`output
      ensures output == old(output) + WriteFrame(id, memAddr, data, fun)
    {
      var msgLen: byte := 2;
      if data.Some? {
        msgLen := Low8(msgLen + |data.value| + 1);
        WriteSCS([FF, FF, id, msgLen, fun, memAddr]);
      } else {
        WriteSCS([FF, FF, id, msgLen, fun]);
      }
      var checkSum := Low8(id + msgLen + fun + memAddr);
      if data.Some? {
        ghost var head := [id, msgLen, fun, memAddr];
        SumFour(id, msgLen, fun, memAddr);
        checkSum := SumOn(checkSum, data.value, head);
        WriteSCS(data.value);
        assert old(output) + [FF, FF, id, msgLen, fun, memAddr] + data.value ==
          old(output) + ([FF, FF] + (head + data.value));
      }
      WriteSCS([Not8(checkSum)]);
    }

    /** Add bytes to a running sum. */
    method SumOn(sum: byte, data: bytes, ghost before: bytes) returns (sum': byte)
      requires sum == Sum8(before)
      ensures sum' == Sum8(before + data)
    {
      sum' := sum;
      assert before + data[..0] == before;
      for i := 0 to |data|
        invariant sum' == Sum8(before + data[..i])
      {
        SumMore(before + data[..i], data[i]);
        assert before + data[..i + 1] == before + data[..i] + [data[i]];
        sum' := Add8(sum', data[i]);
      }
      assert data[..|data|] == data;
    }

    /** Each servo's id goes before its block of the data. */
    method SyncWrite(ids: bytes, memAddr: byte, blocks: seq<bytes>, nLen: byte)
      requires |ids| == |blocks| <= 0xFF && (forall i :: 0 <= i < |blocks| ==> |blocks[i]| == nLen)
      modifies this`output, this`input
      ensures output == old(output) + SyncWriteFrame(ids, memAddr, blocks, nLen)
    {
      RFlushSCS([]);
      var mesLen := Low8((nLen + 1) * |ids| + 4);
      ghost var head := [BROADCAST, mesLen, INST_SYNC_WRITE, memAddr, nLen];
      WriteSCS([FF, FF, BROADCAST, mesLen, INST_SYNC_WRITE, memAddr, nLen]);
      var sum := Low8(BROADCAST + mesLen + INST_SYNC_WRITE + memAddr + nLen);
      SumFive(BROADCAST, mesLen, INST_SYNC_WRITE, memAddr, nLen);
      ghost var before := old(output) + [FF, FF] + head;
      assert output == before + SyncBlocks(ids, blocks, 0) && head + SyncBlocks(ids, blocks, 0) == head;
      for i := 0 to |ids|
        invariant output == before + SyncBlocks(ids, blocks, i)
        invariant sum == Sum8(head + SyncBlocks(ids, blocks, i))
      {
        sum := SyncBlock(ids[i], blocks[i], sum, head + SyncBlocks(ids, blocks, i));
        SyncBlocksStep(head, ids, blocks, i, i + 1);
        SyncBlocksStep(before, ids, blocks, i, i + 1);
      }
      WriteSCS([Not8(sum)]);
    }

    /** One servo's part, sent and summed. */
    method SyncBlock(id: byte, block: bytes, sum: byte, ghost sent: bytes) returns (sum': byte)
      requires sum == Sum8(sent)
      modifies this`output
      ensures output == old(output) + [id] + block && sum' == Sum8(sent + [id] + block)
    {
      WriteSCS([id]);
      WriteSCS(block);
      SumMore(sent, id);
      sum' := SumOn(Add8(sum, id), block, sent + [id]);
    }

    method SyncReadPacketTx(ids: bytes, memAddr: byte, nLen: byte)
      requires |ids| <= 0xFF
      modifies this`output
      ensures output == old(output) + SyncReadFrame(ids, memAddr, nLen)
    {
      var checkSum := Low8(4 + BROADCAST + |ids| + memAddr + nLen + INST_SYNC_READ);
      ghost var head := [BROADCAST, Low8(|ids| + 4), INST_SYNC_READ, memAddr, nLen];
      SumFive(BROADCAST, Low8(|ids| + 4), INST_SYNC_READ, memAddr, nLen);
      Low8Inside(|ids| + 4, BROADCAST + INST_SYNC_READ + memAddr + nLen);
      SyncReadHead(|ids|, memAddr, nLen);
      checkSum := SendSummed(ids, checkSum, head);
      checkSum := Not8(checkSum);
      WriteSCS([checkSum]);
      assert old(output) + [FF, FF] + head + ids + [checkSum] == old(output) + ([FF, FF] + (head + ids) + [checkSum]);
    }

    method SyncReadHead(idn: byte, memAddr: byte, nLen: byte)
      modifies this`output
      ensures output == old(output) + [FF, FF] + [BROADCAST, Low8(idn + 4), INST_SYNC_READ, memAddr, nLen]
    {
      WriteSCS([FF]);
      WriteSCS([FF]);
      WriteSCS([BROADCAST]);
      WriteSCS([Low8(idn + 4)]);
      WriteSCS([INST_SYNC_READ]);
      WriteSCS([memAddr]);
      WriteSCS([nLen]);
    }

    /** Send bytes one by one and add them to a running sum. */
    method SendSummed(data: bytes, sum: byte, ghost before: bytes) returns (sum': byte)
      requires sum == Sum8(before)
      modifies this`output
      ensures output == old(output) + data && sum' == Sum8(before + data)
    {
      sum' := sum;
      assert before + data[..0] == before && output + data[..0] == output;
      for i := 0 to |data|
        invariant sum' == Sum8(before + data[..i]) && output == old(output) + data[..i]
      {
        SumMore(before + data[..i], data[i]);
        assert before + data[..i + 1] == before + data[..i] + [data[i]];
        WriteSCS([data[i]]);
        sum' := Add8(sum', data[i]);
      }
      assert data[..|data|] == data;
    }

    /** The search consumes exactly through the first pair completing within 11 bytes, and
        fails when there is none: then all of the 11 bytes, or as many as came, are gone. */
    method CheckHead() returns (ok: bool)
      modifies this`input
      ensures var h, s := HeadEnd(old(input), 0), old(input);
        ok == h.Some? && input == if ok then s[h.value..] else s[Min(|s|, 11)..]
    {
      var older: byte, newer: byte := 0, 0;
      var cnt := 0;
      ghost var s := input;
      while true
        invariant cnt <= 10 && cnt <= |s| && input == s[cnt..]
        invariant newer == (if cnt > 0 then s[cnt - 1] else 0)
        invariant HeadEnd(s, 0) == HeadEnd(s, cnt)
        decreases 11 - cnt
      {
        var b := ReadSCS(1);
        if b == [] {
          return false;
        }
        older, newer := newer, b[0];
        if newer == FF && older == FF {
          return true;
        }
        cnt := cnt + 1;
        if cnt > 10 {
          return false;
        }
      }
    }

    /** What follows the header: id, length and error, then the data, then the checksum. */
    method ReadData(nLen: byte) returns (r: Option<(byte, bytes)>)
      modifies this`input
      ensures r == DataIn(old(input), nLen)
    {
      ghost var s := input;
      var head := ReadSCS(3);
      if |head| != 3 {
        return None;
      }
      var data := ReadSCS(nLen);
      if |data| != nLen {
        return None;
      }
      var chk := ReadSCS(1);
      if |chk| != 1 {
        return None;
      }
      ghost var whole := s[..nLen + 4];
      assert whole == head + data + [chk[0]];
      SumMore(head + data, chk[0]);
      SumThree(head[0], head[1], head[2]);
      assert head == [head[0], head[1], head[2]] && data == s[3..3 + nLen];
      var calSum := SumOn(Low8(head[0] as int + head[1] as int + head[2] as int), data, head);
      r := if Not8(calSum) != chk[0] then None else Some((head[2], data));
    }

    /** `reply` is what comes after the request. */
    method Read(id: byte, memAddr: byte, nLen: byte, reply: bytes) returns (r: Option<bytes>)
      modifies this
      ensures output == old(output) + WriteFrame(id, memAddr, Some([nLen]), 2)
      ensures var p := ReadReply(reply, nLen);
        && r == (if p.Some? then Some(p.value.1) else None)
        && error == if p.Some? then p.value.0 else if HeadEnd(reply, 0).Some? then 0 else old(error)
    {
      RFlushSCS(reply);
      WriteBuf(id, memAddr, Some([nLen]), INST_READ);
      var found := CheckHead();
      if !found {
        return None;
      }
      error := 0;
      var p := ReadData(nLen);
      if p.None? {
        return None;
      }
      error := p.value.0;
      r := Some(p.value.1);
    }

    /** The next servo's reply to a sync read for `nLen` bytes. */
    method SyncReadPacketRx(id: byte, nLen: byte) returns (data: Option<bytes>)
      modifies this`error, this`input
      ensures var p := SyncRead(old(input), id, nLen);
        && data == p.data && input == p.rest && error == if p.error.Some? then p.error.value else old(error)
    {
      var found := CheckHead();
      data := None;
      if found {
        data := SyncData(id, nLen);
      }
    }

    /** What follows its header. */
    method SyncData(id: byte, nLen: byte) returns (data: Option<bytes>)
      modifies this`error, this`input
      ensures var p := SyncBody(old(input), id, nLen);
        && data == p.data && input == p.rest && error == if p.error.Some? then p.error.value else old(error)
    {
      ghost var t := input;
      var bBuf := ReadSCS(3);
      if |bBuf| != 3 || bBuf[0] != id || bBuf[1] != nLen + 2 {
        return None;
      }
      error := bBuf[2];
      SyncSlices(t, input, nLen);
      var nDat := ReadSCS(nLen);
      if |nDat| != nLen {
        return None;
      }
      data := Some(nDat);
    }

    /** What follows the header in the replies to Ack and Ping. */
    method ReadStatus(id: byte, any: bool) returns (r: Option<(byte, byte)>)
      modifies this`input
      ensures r == StatusIn(old(input), id, any)
    {
      ghost var s := input;
      var b := ReadSCS(4);
      if |b| != 4 {
        return None;
      }
      if b[0] != id && !any {
        return None;
      }
      if b[1] != 2 {
        return None;
      }
      SumThree(b[0], b[1], b[2]);
      SumMore([b[0], b[1], b[2]], b[3]);
      assert s[..4] == b == [b[0], b[1], b[2]] + [b[3]];
      r := if Not8(Low8(b[0] as int + b[1] as int + b[2] as int)) != b[3] then None else Some((b[0], b[2]));
    }

    /** Broadcasts and bus level 0 get no reply, and always succeed. */
    method Ack(id: byte) returns (ok: bool)
      modifies this`error, this`input
      ensures var p := StatusReply(old(input), id, false);
        if id == BROADCAST || level == 0 then ok && error == 0 && input == old(input)
        else ok == p.Some? && error == if ok then p.value.1 else 0
    {
      error := 0;
      if id != BROADCAST && level != 0 {
        var found := CheckHead();
        if !found {
          return false;
        }
        var r := ReadStatus(id, false);
        if r.None? {
          return false;
        }
        error := r.value.1;
      }
      ok := true;
    }

    method Ping(id: byte, reply: bytes) returns (r: int)
      modifies this
      ensures output == old(output) + WriteFrame(id, 0, None, 1)
      ensures var p := StatusReply(reply, id, id == BROADCAST);
        if p.Some? then r == p.value.0 && error == p.value.1 else r == -1 && error == 0
    {
      RFlushSCS(reply);
      WriteBuf(id, 0, None, INST_PING);
      error := 0;
      var found := CheckHead();
      if !found {
        return -1;
      }
      var p := ReadStatus(id, id == BROADCAST);
      if p.None? {
        return -1;
      }
      error := p.value.1;
      r := p.value.0;
    }

    method GenWrite(id: byte, memAddr: byte, data: bytes, reply: bytes) returns (ok: bool)
      requires |data| <= 0xFF
      modifies this
      ensures output == old(output) + WriteFrame(id, memAddr, Some(data), 3)
      ensures var p, silent := StatusReply(reply, id, false), id == BROADCAST || level == 0;
        (ok <==> silent || p.Some?) && error == if ok && !silent then p.value.1 else 0
    {
      RFlushSCS(reply);
      WriteBuf(id, memAddr, Some(data), INST_WRITE);
      ok := Ack(id);
    }
  }

  lemma SumFour(a: byte, b: byte, c: byte, d: byte)
    ensures Sum8([a, b, c, d]) == Low8(a + b + c + d)
  {
    SumThree(a, b, c);
    assert [a, b, c] + [d] == [a, b, c, d];
    SumMore([a, b, c], d);
    Low8Add(a + b + c, d);
  }

  lemma SumFive(a: byte, b: byte, c: byte, d: byte, e: byte)
    ensures Sum8([a, b, c, d, e]) == Low8(a + b + c + d + e)
  {
    SumFour(a, b, c, d);
    assert [a, b, c, d] + [e] == [a, b, c, d, e];
    SumMore([a, b, c, d], e);
    Low8Add(a + b + c + d, e);
  }

  /** Cutting a part of a sum down to a byte first changes nothing. */
  lemma {:induction false} Low8Inside(n: nat, m: nat)
    ensures Low8(Low8(n) + m) == Low8(n + m)
    decreases n
  {
    if n >= 0x100 {
      Low8Inside(n - 0x100, m);
    }
  }
}
