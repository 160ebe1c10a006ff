/**
 * Whole runs of reassembly against a hub that numbers its fragments, with any loss and any
 * interleaving of channels: when what is delivered is whole, and when it is the whole cargo.
 */
module ShtpRuns {
  import opened Bytes
  import opened Shtp
  import opened ShtpReceive

  // ---------- A hub that numbers its fragments ----------

  /** `n` bytes of a cargo, starting at `off`. */
  datatype Frag = Frag(cargoNo: nat, cargo: bytes, off: nat, n: nat, first: bool) {
    predicate Good() {
      off + n <= |cargo| && |cargo| + HDR_LEN < 0x8000 && (first ==> off == 0)
    }
    predicate Last() {
      off + n == |cargo|
    }
  }

  /** The fragment after `f` is the next piece of the same cargo or opens the next cargo. */
  predicate Follows(f: Frag, g: Frag) {
    if f.Last() then g.cargoNo == f.cargoNo + 1 && g.first
    else g.cargoNo == f.cargoNo && g.cargo == f.cargo && g.off == f.off + f.n && !g.first
  }

  ghost predicate Stream(s: seq<Frag>) {
    && (forall i :: 0 <= i < |s| ==> s[i].Good())
    && (|s| > 0 ==> s[0].first)
    && (forall i :: 0 <= i < |s| - 1 ==> FollowsAt(s, i))
  }

  predicate FollowsAt(s: seq<Frag>, i: nat)
    requires i + 1 < |s|
  {
    Follows(s[i], s[i + 1])
  }

  /** Transfer `t` carries fragment `f`: its header announces this fragment and all that is
      still to come of the cargo. After the end of a cargo `t` may hold bus padding. */
  ghost predicate Carries(t: bytes, chan: byte, seqNo: byte, f: Frag) {
    && |t| >= HDR_LEN + f.n && (|t| > HDR_LEN + f.n ==> f.Last())
    && f.off + f.n <= |f.cargo|
    && HeaderLen(t) == |f.cargo| - f.off + HDR_LEN && (IsContinuation(t) <==> !f.first)
    && t[2] == chan && t[3] == seqNo
    && t[HDR_LEN..HDR_LEN + f.n] == FragBytes(f)
  }

  // ---------- Runs with loss and interleaving ----------

  /** One transfer that got through, carrying fragment `idx` of its channel's stream. */
  datatype Arrival = Arrival(chan: byte, idx: nat, transfer: bytes, time: u32)

  /** Each channel has its own stream and its own starting sequence number. */
  datatype Hub = Hub(streams: map<byte, seq<Frag>>, base: map<byte, byte>) {
    ghost predicate Valid() {
      && base.Keys == streams.Keys
      && (forall c <- streams.Keys :: Stream(streams[c]))
    }
    ghost predicate Sends(a: Arrival) {
      && a.chan in streams && a.chan in base && a.idx < |streams[a.chan]|
      && Carries(a.transfer, a.chan, Mod8(base[a.chan] + a.idx), streams[a.chan][a.idx])
    }
  }

  /** No arrival between `j` and `k` is on channel `c`. */
  ghost predicate QuietBetween(run: seq<Arrival>, c: byte, j: int, k: int)
    requires k <= |run|
  {
    forall m :: 0 <= m && j < m < k ==> run[m].chan != c
  }

  /** Each channel's arrivals keep its order; any of its fragments may be lost. Channels
      interleave freely. */
  ghost predicate Orderly(hub: Hub, run: seq<Arrival>) {
    && hub.Valid()
    && (forall k :: 0 <= k < |run| ==> hub.Sends(run[k]))
    && (forall j, k :: 0 <= j < k < |run| && run[j].chan == run[k].chan ==> Precedes(run[j], run[k]))
  }

  predicate Precedes(x: Arrival, y: Arrival) {
    x.idx < y.idx
  }

  /** Not any number of fragments is lost, but never a positive multiple of 256 in a row when
      both neighbours are inside a cargo. */
  ghost predicate Lossy(hub: Hub, run: seq<Arrival>) {
    Orderly(hub, run) && forall j, k :: 0 <= j < k < |run| ==> GapTold(hub, run, j, k)
  }

  /** The loss between two consecutive arrivals of a channel shows in their numbers, or need
      not: nothing was lost, or the first ended a cargo, or the second begins one. */
  ghost predicate GapTold(hub: Hub, run: seq<Arrival>, j: nat, k: nat)
    requires j < k < |run| && hub.Sends(run[j]) && hub.Sends(run[k])
  {
    run[j].chan == run[k].chan && QuietBetween(run, run[k].chan, j, k) ==>
      || LossTold(run[k].idx - run[j].idx - 1)
      || hub.streams[run[j].chan][run[j].idx].Last() || hub.streams[run[k].chan][run[k].idx].first
  }

  predicate LossTold(lost: int) {
    lost == 0 || lost % 0x100 != 0
  }

  /** The assembly in progress after the first `k` arrivals, starting from none. */
  ghost function After(listeners: nat, run: seq<Arrival>, k: nat): Option<Assembly>
    requires k <= |run|
  {
    if k == 0 then None
    else Receive(After(listeners, run, k - 1), listeners, run[k - 1].transfer, run[k - 1].time).pending
  }

  ghost function OutcomeAt(listeners: nat, run: seq<Arrival>, k: nat): Outcome
    requires k < |run|
  {
    Receive(After(listeners, run, k), listeners, run[k].transfer, run[k].time).outcome
  }

  /** The calls made to channel callbacks during the first `k` arrivals. */
  ghost function Deliveries(listeners: nat, listening: seq<bool>, run: seq<Arrival>, k: nat): seq<Delivery>
    requires k <= |run| && |listening| == MAX_CHANS
  {
    if k == 0 then []
    else
      Deliveries(listeners, listening, run, k - 1) + CallsFor(listening, OutcomeAt(listeners, run, k - 1))
  }

  /** Arrival `k` does not make the copy into the buffer overrun. */
  ghost predicate FitsAt(listeners: nat, run: seq<Arrival>, k: nat)
    requires k < |run|
  {
    var p, t := After(listeners, run, k), run[k].transfer;
    Accepts(listeners, t) && Joins(p, t) ==> |p.value.data| + |Body(t)| <= MAX_PAYLOAD_IN
  }

  ghost predicate RunFits(listeners: nat, run: seq<Arrival>) {
    forall k :: 0 <= k < |run| ==> FitsAt(listeners, run, k)
  }

  /** Fragment `q` of channel `c` got through among the first `k` arrivals. */
  ghost predicate Arrived(run: seq<Arrival>, k: nat, c: byte, q: int)
    requires k <= |run|
  {
    exists m :: 0 <= m < k && run[m].chan == c && run[m].idx == q
  }

  ghost predicate AllArrived(run: seq<Arrival>, k: nat, c: byte, s: nat, e: nat)
    requires k <= |run|
  {
    forall q :: s <= q <= e ==> Arrived(run, k, c, q)
  }

  // ---------- How an assembly came about ----------

  /** What the joins of an assembly have done to it: every fragment followed the one before; or
      one did not, but nothing was held yet, so that only the time is that of an earlier
      fragment; or bytes were held, and those that joined do not follow them. */
  datatype History = Intact | Misdated | Mixed

  /** The fragment before arrival `k` never got through. */
  ghost predicate Skips(run: seq<Arrival>, k: nat)
    requires k < |run|
  {
    !Arrived(run, k, run[k].chan, run[k].idx - 1)
  }

  ghost function HistoryAfter(listeners: nat, run: seq<Arrival>, k: nat): History
    requires k <= |run|
  {
    if k == 0 then Intact
    else NextHistory(HistoryAfter(listeners, run, k - 1), After(listeners, run, k - 1), listeners, run, k - 1)
  }

  /** The history once arrival `k` has been processed. */
  ghost function NextHistory(h: History, p: Option<Assembly>, listeners: nat, run: seq<Arrival>, k: nat): History
    requires k < |run|
  {
    var t := run[k].transfer;
    if !Accepts(listeners, t) then h
    else if !Joins(p, t) then Intact
    else if !Skips(run, k) then h
    else if p.value.data == [] then Misdated
    else Mixed
  }

  ghost predicate JoinsAt(listeners: nat, run: seq<Arrival>, k: nat)
    requires k < |run|
  {
    |run[k].transfer| >= HDR_LEN && Joins(After(listeners, run, k), run[k].transfer)
  }

  /** Arrival k joins bytes it does not follow. */
  ghost predicate Mixes(listeners: nat, run: seq<Arrival>, k: nat)
    requires k < |run|
  {
    && Accepts(listeners, run[k].transfer) && JoinsAt(listeners, run, k)
    && Skips(run, k) && After(listeners, run, k).value.data != []
  }

  /** Arrival i does, and everything accepted from there to k joins the same assembly. */
  ghost predicate MixedFrom(listeners: nat, run: seq<Arrival>, i: nat, k: nat)
    requires k < |run|
  {
    && i <= k && Mixes(listeners, run, i)
    && (forall m :: i < m <= k && Accepts(listeners, run[m].transfer) ==> JoinsAt(listeners, run, m))
  }

  lemma {:induction false} StaysMixed(listeners: nat, run: seq<Arrival>, i: nat, k: nat)
    requires k < |run| && MixedFrom(listeners, run, i, k)
    ensures HistoryAfter(listeners, run, k + 1) == Mixed
    ensures After(listeners, run, k + 1).Some? ==> After(listeners, run, k + 1).value.data != []
    decreases k
  {
    if i < k {
      StaysMixed(listeners, run, i, k - 1);
    }
  }

  lemma {:induction false} MixedSince(listeners: nat, run: seq<Arrival>, k: nat) returns (i: nat)
    requires k < |run| && HistoryAfter(listeners, run, k + 1) == Mixed
    ensures MixedFrom(listeners, run, i, k)
    decreases k
  {
    if Mixes(listeners, run, k) {
      i := k;
    } else {
      i := MixedSince(listeners, run, k - 1);
    }
  }

  // ---------- What an assembly knows about the run ----------

  /** `data` is what fragments s..e of channel c carry: consecutive pieces of one cargo,
      all of which arrived. */
  ghost predicate Piece(hub: Hub, run: seq<Arrival>, k: nat, c: byte, s: nat, e: nat, data: bytes)
    requires k <= |run|
  {
    && c in hub.streams && s <= e < |hub.streams[c]|
    && AllArrived(run, k, c, s, e)
    && var f, g := hub.streams[c][s], hub.streams[c][e];
       && f.cargoNo == g.cargoNo && f.cargo == g.cargo
       && 0 <= f.off <= g.off + g.n <= |g.cargo|
       && data == g.cargo[f.off..g.off + g.n]
  }

  function FragBytes(f: Frag): bytes
    requires f.off + f.n <= |f.cargo|
  {
    f.cargo[f.off..f.off + f.n]
  }

  ghost function Rest(f: Frag): int {
    |f.cargo| - f.off
  }

  /** Fragment e of the assembly's channel was the latest arrival there, at position j. */
  ghost predicate Expects(hub: Hub, run: seq<Arrival>, k: nat, a: Assembly, j: nat)
    requires k <= |run|
  {
    && j < k && run[j].chan == a.chan && QuietBetween(run, a.chan, j, k) && hub.Sends(run[j])
    && !hub.streams[a.chan][run[j].idx].Last()
    && a.nextSeq == Next8(Mod8(hub.base[a.chan] + run[j].idx))
  }

  /** The assembly holds fragments s..e of its channel. */
  ghost predicate Tracks(hub: Hub, run: seq<Arrival>, k: nat, a: Assembly, s: nat, j: nat)
    requires k <= |run|
  {
    && Expects(hub, run, k, a, j)
    && Piece(hub, run, k, a.chan, s, run[j].idx, a.data)
    && |a.data| + a.remaining == Rest(hub.streams[a.chan][s])
  }

  /** Nothing but channel c was accepted between arrivals i and k. */
  ghost predicate Calm(listeners: nat, run: seq<Arrival>, c: byte, i: nat, k: nat)
    requires k <= |run|
  {
    forall m :: i < m < k && Accepts(listeners, run[m].transfer) ==> run[m].chan == c
  }

  /** Fragment s of channel c was arrival i, at the time `started`, and the channel has not been
      disturbed since. */
  ghost predicate Dated(listeners: nat, run: seq<Arrival>, k: nat, c: byte, s: nat, started: u32, i: nat)
    requires k <= |run|
  {
    i < k && run[i].chan == c && run[i].idx == s && run[i].time == started && Calm(listeners, run, c, i, k)
  }

  /** Fragments m..e are of one cargo, fragment m - 1 never arrived, and yet the assembly is
      longer than m..e: it starts with bytes that fragment m does not follow. */
  ghost predicate Broken(hub: Hub, run: seq<Arrival>, k: nat, a: Assembly, m: nat, j: nat)
    requires k <= |run|
  {
    && Expects(hub, run, k, a, j) && 0 < m <= run[j].idx && !Arrived(run, k, a.chan, m - 1)
    && Within(hub.streams[a.chan], m, run[j].idx)
    && |a.data| > Span(hub.streams[a.chan], m, run[j].idx)
  }

  /** No fragment from m to e begins before m does, in the same cargo. */
  ghost predicate Within(stream: seq<Frag>, m: nat, e: nat)
    requires e < |stream|
  {
    forall q :: m <= q <= e ==> stream[q].cargo == stream[e].cargo && stream[m].off <= stream[q].off
  }

  /** The bytes from the start of fragment m to the end of fragment e. */
  ghost function Span(stream: seq<Frag>, m: nat, e: nat): int
    requires m <= e < |stream|
  {
    stream[e].off + stream[e].n - stream[m].off
  }

  /** The assembly after `k` arrivals is what its history says. */
  ghost predicate Tracked(hub: Hub, listeners: nat, run: seq<Arrival>, k: nat, p: Option<Assembly>, h: History)
    requires k <= |run|
  {
    p.Some? ==>
      var a := p.value;
      && a.chan < Min(listeners, MAX_CHANS)
      && match h
         case Intact => exists s: nat, j: nat, i: nat :: TracksFrom(hub, listeners, run, k, a, s, j, i)
         case Misdated => exists s: nat, j: nat :: Tracks(hub, run, k, a, s, j)
         case Mixed => exists m: nat, j: nat :: Broken(hub, run, k, a, m, j)
  }

  ghost predicate TracksFrom(hub: Hub, listeners: nat, run: seq<Arrival>, k: nat, a: Assembly, s: nat, j: nat, i: nat)
    requires k <= |run|
  {
    && Tracks(hub, run, k, a, s, j) && Dated(listeners, run, k, a.chan, s, a.started, i)
    && Rest(hub.streams[a.chan][s]) <= MAX_PAYLOAD_IN - HDR_LEN
  }

  // ---------- What is delivered ----------

  /** The outcome at step k hands over whole fragments of one cargo, to its end. */
  ghost predicate Whole(hub: Hub, run: seq<Arrival>, k: nat, o: Outcome)
    requires k <= |run| && o.Completed?
  {
    exists s: nat, e: nat :: WholeFrom(hub, run, k, o, s, e)
  }

  ghost predicate WholeFrom(hub: Hub, run: seq<Arrival>, k: nat, o: Outcome, s: nat, e: nat)
    requires k <= |run| && o.Completed?
  {
    && Piece(hub, run, k, o.chan, s, e, o.payload)
    && hub.streams[o.chan][e].Last()
    && k > 0 && run[k - 1].chan == o.chan && run[k - 1].idx == e
  }

  /** It also has the arrival time of the first of them, has the size of a cargo, and no other
      channel came between. */
  ghost predicate Delivers(hub: Hub, listeners: nat, run: seq<Arrival>, k: nat, o: Outcome)
    requires k <= |run| && o.Completed?
  {
    exists s: nat, e: nat, i: nat :: DeliversFrom(hub, listeners, run, k, o, s, e, i)
  }

  ghost predicate DeliversFrom(hub: Hub, listeners: nat, run: seq<Arrival>, k: nat, o: Outcome, s: nat, e: nat, i: nat)
    requires k <= |run| && o.Completed?
  {
    && WholeFrom(hub, run, k, o, s, e) && Dated(listeners, run, k, o.chan, s, o.timestamp, i)
    && |o.payload| <= MAX_PAYLOAD_IN - HDR_LEN
  }

  /** What a completed outcome is, by the history of its assembly. */
  ghost predicate AsHistory(hub: Hub, listeners: nat, run: seq<Arrival>, k: nat, o: Outcome, h: History)
    requires k <= |run| && o.Completed?
  {
    (Whole(hub, run, k, o) <==> h != Mixed) && (h == Intact ==> Delivers(hub, listeners, run, k, o))
  }

  // ---------- One arrival at a time: k have been processed, run[k] is next ----------

  /** A continuation joins the assembly exactly when the number of fragments lost since
      the last one is a multiple of 256: this is where the limit on loss comes from. */
  lemma JoinIff(hub: Hub, run: seq<Arrival>, k: nat, a: Assembly, j: nat, x: Arrival)
    requires k <= |run| && Expects(hub, run, k, a, j)
    requires hub.Sends(x) && x.chan == a.chan && !hub.streams[x.chan][x.idx].first && x.idx > run[j].idx
    ensures Joins(Some(a), x.transfer) <==> (x.idx - run[j].idx - 1) % 0x100 == 0
  {
    Mod8Next(hub.base[a.chan] + run[j].idx);
    SeqGap(hub.base[a.chan] + run[j].idx + 1, x.idx - run[j].idx - 1);
  }

  /** What a transfer that carries `f` does to an assembly. */
  lemma ReceiveFrag(p: Option<Assembly>, listeners: nat, t: bytes, now: u32, c: byte, seqNo: byte, f: Frag)
    requires Carries(t, c, seqNo, f) && Accepts(listeners, t)
    requires Joins(p, t) || |f.cargo| - f.off <= MAX_PAYLOAD_IN - HDR_LEN
    ensures var data := (if Joins(p, t) then p.value.data else []) + FragBytes(f);
      var started := if Joins(p, t) then p.value.started else now;
      Receive(p, listeners, t, now) ==
        if f.Last() then Result(None, Completed(c, data, started))
        else Result(Some(Assembly(c, data, |f.cargo| - f.off - f.n, Next8(seqNo), started)), Stored)
  {
    assert Body(t) == FragBytes(f);
  }

  lemma ArrivedGrows(run: seq<Arrival>, k: nat, next: nat, c: byte, q: int)
    requires next == k + 1 <= |run|
    ensures Arrived(run, next, c, q) <==> Arrived(run, k, c, q) || (run[k].chan == c && run[k].idx == q)
  {
    if Arrived(run, k, c, q) {
      var m :| 0 <= m < k && run[m].chan == c && run[m].idx == q;
    }
  }

  lemma PieceGrows(hub: Hub, run: seq<Arrival>, k: nat, next: nat, c: byte, s: nat, e: nat, data: bytes)
    requires next == k + 1 <= |run| && Piece(hub, run, k, c, s, e, data)
    ensures Piece(hub, run, next, c, s, e, data)
  {
    forall q | s <= q <= e
      ensures Arrived(run, next, c, q)
    {
      ArrivedGrows(run, k, next, c, q);
    }
  }

  lemma PieceJoins(hub: Hub, run: seq<Arrival>, k: nat, next: nat, c: byte, s: nat, e: nat, data: bytes)
    requires hub.Valid() && k < |run| && hub.Sends(run[k]) && Piece(hub, run, k, c, s, e, data) && next == k + 1
    requires run[k].chan == c && run[k].idx == e + 1 && !hub.streams[c][e].Last()
    ensures Piece(hub, run, next, c, s, e + 1, data + FragBytes(hub.streams[c][e + 1]))
    ensures Rest(hub.streams[c][s]) == |data| + Rest(hub.streams[c][e + 1])
  {
    PieceGrows(hub, run, k, next, c, s, e, data);
    assert FollowsAt(hub.streams[c], e);
    ArrivedGrows(run, k, next, c, e + 1);
  }

  lemma PieceStarts(hub: Hub, run: seq<Arrival>, k: nat, next: nat)
    requires k < |run| && hub.Sends(run[k]) && next == k + 1
    ensures var x := run[k]; Piece(hub, run, next, x.chan, x.idx, x.idx, FragBytes(hub.streams[x.chan][x.idx]))
  {
    ArrivedGrows(run, k, next, run[k].chan, run[k].idx);
  }

  /** The arrival before on the same channel is the fragment before exactly when that fragment
      got through. */
  lemma SkipsIff(hub: Hub, run: seq<Arrival>, k: nat, a: Assembly, j: nat)
    requires Orderly(hub, run) && k < |run| && Expects(hub, run, k, a, j) && run[k].chan == a.chan
    ensures run[j].idx < run[k].idx && (Skips(run, k) <==> run[k].idx > run[j].idx + 1)
  {
    assert Precedes(run[j], run[k]);
    if Arrived(run, k, a.chan, run[k].idx - 1) {
      var m :| 0 <= m < k && run[m].chan == a.chan && run[m].idx == run[k].idx - 1;
    }
  }

  /** A stored fragment is expected to be followed. */
  lemma ExpectsNow(hub: Hub, run: seq<Arrival>, k: nat, next: nat, a: Assembly)
    requires k < |run| && hub.Sends(run[k]) && next == k + 1 && a.chan == run[k].chan
    requires a.nextSeq == Next8(run[k].transfer[3]) && !hub.streams[a.chan][run[k].idx].Last()
    ensures Expects(hub, run, next, a, k)
  {
  }

  lemma TracksOn(hub: Hub, run: seq<Arrival>, k: nat, next: nat, a: Assembly, s: nat, j: nat)
    requires k < |run| && next == k + 1 && run[k].chan != a.chan && Tracks(hub, run, k, a, s, j)
    ensures Tracks(hub, run, next, a, s, j)
  {
    PieceGrows(hub, run, k, next, a.chan, s, run[j].idx, a.data);
  }

  lemma BrokenOn(hub: Hub, run: seq<Arrival>, k: nat, next: nat, a: Assembly, m: nat, j: nat)
    requires k < |run| && next == k + 1 && run[k].chan != a.chan && Broken(hub, run, k, a, m, j)
    ensures Broken(hub, run, next, a, m, j)
  {
    ArrivedGrows(run, k, next, a.chan, m - 1);
  }

  /** Arrivals that are not accepted change nothing. */
  lemma StepIgnored(hub: Hub, listeners: nat, run: seq<Arrival>, k: nat, next: nat, a: Assembly, h: History)
    requires Orderly(hub, run) && k < |run| && next == k + 1 && Tracked(hub, listeners, run, k, Some(a), h)
    requires !Accepts(listeners, run[k].transfer)
    ensures Tracked(hub, listeners, run, next, Some(a), h)
  {
    match h
    case Intact =>
      var s: nat, j: nat, i: nat :| TracksFrom(hub, listeners, run, k, a, s, j, i);
      TracksOn(hub, run, k, next, a, s, j);
      assert TracksFrom(hub, listeners, run, next, a, s, j, i);
    case Misdated =>
      var s: nat, j: nat :| Tracks(hub, run, k, a, s, j);
      TracksOn(hub, run, k, next, a, s, j);
    case Mixed =>
      var m: nat, j: nat :| Broken(hub, run, k, a, m, j);
      BrokenOn(hub, run, k, next, a, m, j);
  }

  /** A fragment that does not join begins an assembly of its own, or is too large for one. */
  lemma StepStart(hub: Hub, listeners: nat, run: seq<Arrival>, k: nat, next: nat, p: Option<Assembly>)
    requires Orderly(hub, run) && k < |run| && next == k + 1
    requires Accepts(listeners, run[k].transfer) && !Joins(p, run[k].transfer)
    ensures var r := Receive(p, listeners, run[k].transfer, run[k].time);
      && Tracked(hub, listeners, run, next, r.pending, Intact)
      && (r.outcome.Completed? ==> AsHistory(hub, listeners, run, next, r.outcome, Intact))
  {
    var x := run[k];
    PieceStarts(hub, run, k, next);
    var r := Receive(p, listeners, x.transfer, x.time);
    if r.outcome.TooLarge? { return; }
    ReceiveFrag(p, listeners, x.transfer, x.time, x.chan, x.transfer[3], hub.streams[x.chan][x.idx]);
    if r.outcome.Completed? {
      assert DeliversFrom(hub, listeners, run, next, r.outcome, x.idx, x.idx, k);
    } else {
      ExpectsNow(hub, run, k, next, r.pending.value);
      assert TracksFrom(hub, listeners, run, next, r.pending.value, x.idx, k, k);
    }
  }

  /** A fragment that joins and follows the one before extends what is held. */
  lemma StepFollows(hub: Hub, listeners: nat, run: seq<Arrival>, k: nat, next: nat, a: Assembly, s: nat, j: nat)
      returns (r: Result)
    requires Orderly(hub, run) && k < |run| && next == k + 1 && Tracks(hub, run, k, a, s, j)
    requires Accepts(listeners, run[k].transfer) && Joins(Some(a), run[k].transfer) && !Skips(run, k)
    ensures r == Receive(Some(a), listeners, run[k].transfer, run[k].time)
    ensures r.pending.Some? ==>
      var b := r.pending.value; b.chan == a.chan && b.started == a.started && Tracks(hub, run, next, b, s, k)
    ensures r.outcome.Completed? ==>
      && r.outcome.chan == a.chan && r.outcome.timestamp == a.started
      && WholeFrom(hub, run, next, r.outcome, s, run[k].idx) && |r.outcome.payload| == Rest(hub.streams[a.chan][s])
  {
    SkipsIff(hub, run, k, a, j);
    var x, e := run[k], run[j].idx;
    var g := hub.streams[a.chan][e + 1];
    PieceJoins(hub, run, k, next, a.chan, s, e, a.data);
    ReceiveFrag(Some(a), listeners, x.transfer, x.time, a.chan, x.transfer[3], g);
    r := Receive(Some(a), listeners, x.transfer, x.time);
    if r.pending.Some? {
      ExpectsNow(hub, run, k, next, r.pending.value);
    }
  }

  /** A fragment that joins although nothing is held yet is where what is held begins. */
  lemma StepOntoNothing(hub: Hub, listeners: nat, run: seq<Arrival>, k: nat, next: nat, a: Assembly)
    requires Orderly(hub, run) && k < |run| && next == k + 1 && a.chan == run[k].chan && a.data == []
    requires a.chan < Min(listeners, MAX_CHANS)
    requires Accepts(listeners, run[k].transfer) && Joins(Some(a), run[k].transfer)
    ensures var r := Receive(Some(a), listeners, run[k].transfer, run[k].time);
      && Tracked(hub, listeners, run, next, r.pending, Misdated)
      && (r.outcome.Completed? ==> AsHistory(hub, listeners, run, next, r.outcome, Misdated))
  {
    var x := run[k];
    PieceStarts(hub, run, k, next);
    ReceiveFrag(Some(a), listeners, x.transfer, x.time, x.chan, x.transfer[3], hub.streams[x.chan][x.idx]);
    var r := Receive(Some(a), listeners, x.transfer, x.time);
    assert [] + FragBytes(hub.streams[x.chan][x.idx]) == FragBytes(hub.streams[x.chan][x.idx]);
    if r.outcome.Completed? {
      assert WholeFrom(hub, run, next, r.outcome, x.idx, x.idx);
    } else {
      ExpectsNow(hub, run, k, next, r.pending.value);
      assert Tracks(hub, run, next, r.pending.value, x.idx, k);
    }
  }

  /** The fragments m..e and the one before them: what a mixed assembly is about. */
  ghost predicate Alien(hub: Hub, run: seq<Arrival>, k: nat, c: byte, m: nat, e: nat, data: bytes)
    requires k <= |run|
  {
    && c in hub.streams && 0 < m <= e < |hub.streams[c]| && !Arrived(run, k, c, m - 1)
    && Within(hub.streams[c], m, e) && |data| > Span(hub.streams[c], m, e)
  }

  /** Bytes that start with ones fragment m does not follow are no whole fragments up to e: the
      fragments would have to start at m or later, and those are shorter. */
  lemma AlienNotWhole(hub: Hub, run: seq<Arrival>, k: nat, o: Outcome, m: nat, e: nat)
    requires k <= |run| && o.Completed? && Alien(hub, run, k, o.chan, m, e, o.payload)
    requires k > 0 && run[k - 1].chan == o.chan && run[k - 1].idx == e
    ensures !Whole(hub, run, k, o)
  {
  }

  /** One more fragment, which follows or does not, leaves bytes of that kind. */
  lemma AlienJoins(hub: Hub, run: seq<Arrival>, k: nat, next: nat, c: byte, m: nat, e: nat, data: bytes)
      returns (m': nat)
    requires Orderly(hub, run) && k < |run| && next == k + 1 && run[k].chan == c && e < run[k].idx
    requires Skips(run, k) ==> data != []
    requires !Skips(run, k) ==> run[k].idx == e + 1 && Alien(hub, run, k, c, m, e, data) && !hub.streams[c][e].Last()
    ensures Alien(hub, run, next, c, m', run[k].idx, data + FragBytes(hub.streams[c][run[k].idx]))
  {
    var x := run[k].idx;
    var stream := hub.streams[c];
    if Skips(run, k) {
      m' := x;
      ArrivedGrows(run, k, next, c, x - 1);
    } else {
      m' := m;
      assert FollowsAt(stream, e);
      ArrivedGrows(run, k, next, c, m - 1);
    }
  }

  /** A join onto bytes it does not follow, and every join after it, leaves a mixed assembly. */
  lemma StepMixed(hub: Hub, listeners: nat, run: seq<Arrival>, k: nat, next: nat, a: Assembly, j: nat, m: nat)
    requires Orderly(hub, run) && k < |run| && next == k + 1 && a.chan < Min(listeners, MAX_CHANS)
    requires Accepts(listeners, run[k].transfer) && Joins(Some(a), run[k].transfer)
    requires if Skips(run, k) then Expects(hub, run, k, a, j) && a.data != [] else Broken(hub, run, k, a, m, j)
    ensures var r := Receive(Some(a), listeners, run[k].transfer, run[k].time);
      && Tracked(hub, listeners, run, next, r.pending, Mixed)
      && (r.outcome.Completed? ==> AsHistory(hub, listeners, run, next, r.outcome, Mixed))
  {
    SkipsIff(hub, run, k, a, j);
    var x := run[k];
    var g := hub.streams[a.chan][x.idx];
    ReceiveFrag(Some(a), listeners, x.transfer, x.time, a.chan, x.transfer[3], g);
    var r := Receive(Some(a), listeners, x.transfer, x.time);
    var m' := AlienJoins(hub, run, k, next, a.chan, m, run[j].idx, a.data);
    if r.outcome.Completed? {
      AlienNotWhole(hub, run, next, r.outcome, m', x.idx);
    } else {
      ExpectsNow(hub, run, k, next, r.pending.value);
      assert Broken(hub, run, next, r.pending.value, m', k);
    }
  }

  lemma StepIntact(hub: Hub, listeners: nat, run: seq<Arrival>, k: nat, next: nat, a: Assembly, s: nat, j: nat, i: nat)
    requires Orderly(hub, run) && k < |run| && next == k + 1 && TracksFrom(hub, listeners, run, k, a, s, j, i)
    requires a.chan < Min(listeners, MAX_CHANS)
    requires Accepts(listeners, run[k].transfer) && Joins(Some(a), run[k].transfer) && !Skips(run, k)
    ensures var r := Receive(Some(a), listeners, run[k].transfer, run[k].time);
      && Tracked(hub, listeners, run, next, r.pending, Intact)
      && (r.outcome.Completed? ==> AsHistory(hub, listeners, run, next, r.outcome, Intact))
  {
    var r := StepFollows(hub, listeners, run, k, next, a, s, j);
    assert Dated(listeners, run, next, a.chan, s, a.started, i);
    if r.outcome.Completed? {
      assert DeliversFrom(hub, listeners, run, next, r.outcome, s, run[k].idx, i);
    } else {
      assert TracksFrom(hub, listeners, run, next, r.pending.value, s, k, i);
    }
  }

  lemma StepMisdated(hub: Hub, listeners: nat, run: seq<Arrival>, k: nat, next: nat, a: Assembly, s: nat, j: nat)
    requires Orderly(hub, run) && k < |run| && next == k + 1 && Tracks(hub, run, k, a, s, j)
    requires a.chan < Min(listeners, MAX_CHANS)
    requires Accepts(listeners, run[k].transfer) && Joins(Some(a), run[k].transfer) && !Skips(run, k)
    ensures var r := Receive(Some(a), listeners, run[k].transfer, run[k].time);
      && Tracked(hub, listeners, run, next, r.pending, Misdated)
      && (r.outcome.Completed? ==> AsHistory(hub, listeners, run, next, r.outcome, Misdated))
  {
    var r := StepFollows(hub, listeners, run, k, next, a, s, j);
  }

  lemma StepJoin(hub: Hub, listeners: nat, run: seq<Arrival>, k: nat, next: nat, a: Assembly, h: History)
    requires Orderly(hub, run) && k < |run| && next == k + 1 && Tracked(hub, listeners, run, k, Some(a), h)
    requires Accepts(listeners, run[k].transfer) && Joins(Some(a), run[k].transfer)
    ensures var r, h' := Receive(Some(a), listeners, run[k].transfer, run[k].time),
        NextHistory(h, Some(a), listeners, run, k);
      && Tracked(hub, listeners, run, next, r.pending, h')
      && (r.outcome.Completed? ==> AsHistory(hub, listeners, run, next, r.outcome, h'))
  {
    if Skips(run, k) && a.data == [] {
      StepOntoNothing(hub, listeners, run, k, next, a);
    } else if Skips(run, k) {
      var j := LatestOf(hub, listeners, run, k, a, h);
      StepMixed(hub, listeners, run, k, next, a, j, 0);
    } else {
      match h
      case Intact =>
        var s: nat, j: nat, i: nat :| TracksFrom(hub, listeners, run, k, a, s, j, i);
        StepIntact(hub, listeners, run, k, next, a, s, j, i);
      case Misdated =>
        var s: nat, j: nat :| Tracks(hub, run, k, a, s, j);
        StepMisdated(hub, listeners, run, k, next, a, s, j);
      case Mixed =>
        var m: nat, j: nat :| Broken(hub, run, k, a, m, j);
        StepMixed(hub, listeners, run, k, next, a, j, m);
    }
  }

  /** Whatever its history, an assembly knows its latest fragment. */
  lemma LatestOf(hub: Hub, listeners: nat, run: seq<Arrival>, k: nat, a: Assembly, h: History) returns (j: nat)
    requires k <= |run| && Tracked(hub, listeners, run, k, Some(a), h)
    ensures Expects(hub, run, k, a, j)
  {
    match h
    case Intact =>
      var s: nat, j0: nat, i: nat :| TracksFrom(hub, listeners, run, k, a, s, j0, i);
      j := j0;
    case Misdated =>
      var s: nat, j0: nat :| Tracks(hub, run, k, a, s, j0);
      j := j0;
    case Mixed =>
      var m: nat, j0: nat :| Broken(hub, run, k, a, m, j0);
      j := j0;
  }

  lemma Step(hub: Hub, listeners: nat, run: seq<Arrival>, k: nat, next: nat, p: Option<Assembly>, h: History)
    requires Orderly(hub, run) && k < |run| && next == k + 1 && Tracked(hub, listeners, run, k, p, h)
    ensures var r, h' := Receive(p, listeners, run[k].transfer, run[k].time), NextHistory(h, p, listeners, run, k);
      && Tracked(hub, listeners, run, next, r.pending, h')
      && (r.outcome.Completed? ==> AsHistory(hub, listeners, run, next, r.outcome, h'))
  {
    var t := run[k].transfer;
    if Accepts(listeners, t) && !Joins(p, t) {
      StepStart(hub, listeners, run, k, next, p);
    } else if p.Some? {
      if Accepts(listeners, t) {
        StepJoin(hub, listeners, run, k, next, p.value, h);
      } else {
        StepIgnored(hub, listeners, run, k, next, p.value, h);
      }
    }
  }

  // ---------- Theorems about every run ----------

  lemma AfterNext(listeners: nat, run: seq<Arrival>, k: nat, next: nat)
    requires next == k + 1 <= |run|
    ensures After(listeners, run, next)
      == Receive(After(listeners, run, k), listeners, run[k].transfer, run[k].time).pending
    ensures HistoryAfter(listeners, run, next)
      == NextHistory(HistoryAfter(listeners, run, k), After(listeners, run, k), listeners, run, k)
  {
  }

  lemma {:induction false} TrackedAlways(hub: Hub, listeners: nat, run: seq<Arrival>, k: nat)
    requires Orderly(hub, run) && k <= |run|
    ensures Tracked(hub, listeners, run, k, After(listeners, run, k), HistoryAfter(listeners, run, k))
  {
    if k > 0 {
      var before := k - 1;
      TrackedAlways(hub, listeners, run, before);
      Step(hub, listeners, run, before, k, After(listeners, run, before), HistoryAfter(listeners, run, before));
      AfterNext(listeners, run, before, k);
    }
  }

  /** Over every run, whatever is interleaved or lost, a payload is whole fragments of one cargo,
      to its end, exactly when in its assembly no fragment joined bytes it did not follow. One
      such join is enough, however many more fragments join after it. */
  lemma WholeIff(hub: Hub, listeners: nat, run: seq<Arrival>, k: nat)
    requires Orderly(hub, run) && k < |run|
    ensures var o := OutcomeAt(listeners, run, k);
      o.Completed? ==> (Whole(hub, run, k + 1, o) <==> forall i: nat :: !MixedFrom(listeners, run, i, k))
  {
    TrackedAlways(hub, listeners, run, k);
    Step(hub, listeners, run, k, k + 1, After(listeners, run, k), HistoryAfter(listeners, run, k));
    if HistoryAfter(listeners, run, k + 1) == Mixed {
      var i := MixedSince(listeners, run, k);
    } else {
      forall i: nat | MixedFrom(listeners, run, i, k)
        ensures false
      {
        StaysMixed(listeners, run, i, k);
      }
    }
  }

  /** A join skips exactly when a positive multiple of 256 fragments was lost since the latest
      arrival j of the channel, whose cargo was not at its end, and the arrival begins none. */
  lemma UntoldIff(hub: Hub, listeners: nat, run: seq<Arrival>, k: nat, a: Assembly) returns (j: nat)
    requires Orderly(hub, run) && k < |run| && After(listeners, run, k) == Some(a) && run[k].chan == a.chan
    ensures Expects(hub, run, k, a, j)
    ensures Joins(Some(a), run[k].transfer) && Skips(run, k) <==>
      !hub.streams[run[k].chan][run[k].idx].first && !LossTold(run[k].idx - run[j].idx - 1)
  {
    TrackedAlways(hub, listeners, run, k);
    j := LatestOf(hub, listeners, run, k, a, HistoryAfter(listeners, run, k));
    UntoldJoinIff(hub, run, k, a, j);
  }

  lemma UntoldJoinIff(hub: Hub, run: seq<Arrival>, k: nat, a: Assembly, j: nat)
    requires Orderly(hub, run) && k < |run| && run[k].chan == a.chan && Expects(hub, run, k, a, j)
    ensures Joins(Some(a), run[k].transfer) && Skips(run, k) <==>
      !hub.streams[run[k].chan][run[k].idx].first && !LossTold(run[k].idx - run[j].idx - 1)
  {
    SkipsIff(hub, run, k, a, j);
    if !hub.streams[run[k].chan][run[k].idx].first {
      JoinIff(hub, run, k, a, j, run[k]);
    }
  }

  /** When every loss that matters shows in the numbers, no join skips anything. */
  lemma {:induction false} LossyIntact(hub: Hub, listeners: nat, run: seq<Arrival>, k: nat)
    requires Lossy(hub, run) && k <= |run|
    ensures HistoryAfter(listeners, run, k) == Intact
  {
    if k > 0 {
      LossyIntact(hub, listeners, run, k - 1);
      if Accepts(listeners, run[k - 1].transfer) && Joins(After(listeners, run, k - 1), run[k - 1].transfer) {
        LossyFollows(hub, listeners, run, k - 1);
      }
    }
  }

  lemma LossyFollows(hub: Hub, listeners: nat, run: seq<Arrival>, k: nat)
    requires Lossy(hub, run) && k < |run| && Accepts(listeners, run[k].transfer)
    requires Joins(After(listeners, run, k), run[k].transfer)
    ensures !Skips(run, k)
  {
    var a := After(listeners, run, k).value;
    TrackedAlways(hub, listeners, run, k);
    var j := LatestOf(hub, listeners, run, k, a, HistoryAfter(listeners, run, k));
    ToldFollows(hub, run, k, a, j);
  }

  lemma ToldFollows(hub: Hub, run: seq<Arrival>, k: nat, a: Assembly, j: nat)
    requires Lossy(hub, run) && k < |run| && run[k].chan == a.chan && Expects(hub, run, k, a, j)
    ensures !(Joins(Some(a), run[k].transfer) && Skips(run, k))
  {
    assert GapTold(hub, run, j, k);
    UntoldJoinIff(hub, run, k, a, j);
  }

  /** Safety over every such run: a delivered payload is the end of exactly one cargo of its
      channel, whole fragments s..e in order, with the arrival time of the first of them. */
  lemma ReassemblySafety(hub: Hub, listeners: nat, run: seq<Arrival>, k: nat)
    requires Lossy(hub, run) && k < |run|
    ensures var o := OutcomeAt(listeners, run, k); o.Completed? ==> Delivers(hub, listeners, run, k + 1, o)
  {
    TrackedAlways(hub, listeners, run, k);
    LossyIntact(hub, listeners, run, k + 1);
    Step(hub, listeners, run, k, k + 1, After(listeners, run, k), HistoryAfter(listeners, run, k));
  }

  /** A delivered payload ends with the last byte of its cargo: it is a suffix. */
  lemma DeliveredIsSuffix(hub: Hub, run: seq<Arrival>, k: nat, o: Outcome)
    requires k <= |run| && o.Completed? && Whole(hub, run, k, o)
    ensures exists s: nat, e: nat {:trigger hub.streams[o.chan][s], hub.streams[o.chan][e]} ::
      && o.chan in hub.streams && s <= e < |hub.streams[o.chan]|
      && var f, g := hub.streams[o.chan][s], hub.streams[o.chan][e];
         f.cargoNo == g.cargoNo && 0 <= f.off <= |g.cargo| && o.payload == g.cargo[f.off..]
  {
    var s: nat, e: nat :| WholeFrom(hub, run, k, o, s, e);
    var f, g := hub.streams[o.chan][s], hub.streams[o.chan][e];
    assert g.cargo[f.off..g.off + g.n] == g.cargo[f.off..];
  }

  /** A hub whose headers announce the remaining cargo never makes the copy into the buffer
      overrun, at any step of such a run. */
  lemma HubRunFits(hub: Hub, listeners: nat, run: seq<Arrival>)
    requires Lossy(hub, run)
    ensures RunFits(listeners, run)
  {
    forall k | 0 <= k < |run|
      ensures FitsAt(listeners, run, k)
    {
      JoinFits(hub, listeners, run, k);
    }
  }

  lemma JoinFits(hub: Hub, listeners: nat, run: seq<Arrival>, k: nat)
    requires Lossy(hub, run) && k < |run|
    ensures FitsAt(listeners, run, k)
  {
    var p, t := After(listeners, run, k), run[k].transfer;
    if Accepts(listeners, t) && Joins(p, t) {
      TrackedAlways(hub, listeners, run, k);
      LossyIntact(hub, listeners, run, k);
      LossyFollows(hub, listeners, run, k);
      var s: nat, j: nat, i: nat :| TracksFrom(hub, listeners, run, k, p.value, s, j, i);
      JoinSmall(hub, listeners, run, k, k + 1, p.value, s, j);
    }
  }

  lemma JoinSmall(hub: Hub, listeners: nat, run: seq<Arrival>, k: nat, next: nat, a: Assembly, s: nat, j: nat)
    requires Orderly(hub, run) && k < |run| && next == k + 1 && Tracks(hub, run, k, a, s, j) && !Skips(run, k)
    requires Accepts(listeners, run[k].transfer) && Joins(Some(a), run[k].transfer)
    ensures |a.data| + |Body(run[k].transfer)| <= Rest(hub.streams[a.chan][s])
  {
    SkipsIff(hub, run, k, a, j);
    PieceJoins(hub, run, k, next, a.chan, s, run[j].idx, a.data);
  }

  // ---------- Cargoes that arrive whole ----------

  /** Arrivals i to k bring fragments first..e of channel c, which are a whole cargo, each after
      the one before; nothing else is accepted between. */
  ghost predicate Brings(hub: Hub, listeners: nat, run: seq<Arrival>, i: nat, k: nat, c: byte, first: nat, e: nat)
    requires i <= k < |run|
  {
    && CargoOf(hub, c, first, e) && Calm(listeners, run, c, i, k)
    && run[i].chan == c && run[i].idx == first && run[k].chan == c && run[k].idx == e
    && (forall m :: i <= m <= k ==> Partial(hub, run, c, e, m, k))
    && (forall j, m :: i <= j < m <= k ==> InTurn(run, c, j, m))
  }

  ghost predicate Partial(hub: Hub, run: seq<Arrival>, c: byte, e: nat, m: nat, k: nat)
    requires m <= k < |run|
  {
    run[m].chan == c ==> hub.Sends(run[m]) && (m < k ==> run[m].idx < e)
  }

  /** Fragments first..e of channel c are one cargo. */
  ghost predicate CargoOf(hub: Hub, c: byte, first: nat, e: nat) {
    && hub.Valid() && c in hub.streams && first <= e < |hub.streams[c]|
    && hub.streams[c][first].first && hub.streams[c][e].Last()
    && (forall q :: first <= q < e ==> !hub.streams[c][q].Last())
  }

  ghost predicate InTurn(run: seq<Arrival>, c: byte, j: nat, m: nat)
    requires j < m < |run|
  {
    run[j].chan == c && run[m].chan == c && QuietBetween(run, c, j, m) ==> run[m].idx == run[j].idx + 1
  }

  /** The assembly of the cargo of `f`, up to and including fragment number q. */
  ghost predicate Gathered(hub: Hub, p: Option<Assembly>, c: byte, f: Frag, q: nat, started: u32)
    requires hub.Valid() && c in hub.streams && q < |hub.streams[c]|
  {
    var g := hub.streams[c][q];
    && g.cargo == f.cargo && !g.Last() && g.Good()
    && p == Some(Assembly(c, g.cargo[..g.off + g.n], |g.cargo| - g.off - g.n, Next8(Mod8(hub.base[c] + q)), started))
  }

  /** Between the fragments, the latest of which was arrival j. */
  ghost predicate Holding(hub: Hub, run: seq<Arrival>, p: Option<Assembly>, i: nat, m: nat, c: byte, first: nat, j: nat)
    requires m <= |run| && i < |run| && hub.Valid() && c in hub.streams
  {
    && i <= j < m && run[j].chan == c && QuietBetween(run, c, j, m) && first <= run[j].idx < |hub.streams[c]|
    && Gathered(hub, p, c, hub.streams[c][first], run[j].idx, run[i].time)
  }

  lemma PrefixGrows(g: Frag)
    requires g.Good()
    ensures g.cargo[..g.off] + FragBytes(g) == g.cargo[..g.off + g.n]
    ensures g.first ==> [] + FragBytes(g) == g.cargo[..g.off + g.n]
    ensures g.Last() ==> g.cargo[..g.off + g.n] == g.cargo
  {
  }

  /** What fragment q does when it is the first of its cargo, or follows what is gathered. */
  lemma Gathers(hub: Hub, listeners: nat, p: Option<Assembly>, x: Arrival, c: byte, f: Frag, q: nat, started: u32)
    requires hub.Valid() && hub.Sends(x) && x.chan == c && x.idx == q && c < Min(listeners, MAX_CHANS)
    requires var g := hub.streams[c][q];
      if g.first then g == f && started == x.time && |f.cargo| <= MAX_PAYLOAD_IN - HDR_LEN
      else q > 0 && Gathered(hub, p, c, f, q - 1, started)
    ensures var r, g := Receive(p, listeners, x.transfer, x.time), hub.streams[c][q];
      if g.Last() then r == Result(None, Completed(c, f.cargo, started))
      else r.outcome == Stored && Gathered(hub, r.pending, c, f, q, started)
  {
    var g := hub.streams[c][q];
    PrefixGrows(g);
    if !g.first {
      assert FollowsAt(hub.streams[c], q - 1);
      Mod8Next(hub.base[c] + q - 1);
    }
    ReceiveFrag(p, listeners, x.transfer, x.time, c, x.transfer[3], g);
  }

  /** One arrival while the cargo is being brought: the first one, or a later one. */
  lemma CargoStep(hub: Hub, listeners: nat, run: seq<Arrival>, i: nat, k: nat, c: byte, first: nat, e: nat,
                  m: nat, next: nat, j: nat) returns (j': nat)
    requires i <= m <= k < |run| && next == m + 1 && Brings(hub, listeners, run, i, k, c, first, e)
    requires c < Min(listeners, MAX_CHANS) && |hub.streams[c][first].cargo| <= MAX_PAYLOAD_IN - HDR_LEN
    requires m > i ==> Holding(hub, run, After(listeners, run, m), i, m, c, first, j)
    ensures m == k ==>
      && OutcomeAt(listeners, run, k) == Completed(c, hub.streams[c][first].cargo, run[i].time)
      && After(listeners, run, next) == None
    ensures m < k ==>
      && !OutcomeAt(listeners, run, m).Completed?
      && Holding(hub, run, After(listeners, run, next), i, next, c, first, j')
  {
    if run[m].chan == c {
      j' := m;
      CargoFragment(hub, listeners, run, i, k, c, first, e, m, j);
      Gathers(hub, listeners, After(listeners, run, m), run[m], c, hub.streams[c][first], run[m].idx, run[i].time);
    } else {
      j' := j;
      assert !Accepts(listeners, run[m].transfer);
    }
  }

  /** The fragment that arrives is the first, or the one after the latest. */
  lemma CargoFragment(hub: Hub, listeners: nat, run: seq<Arrival>, i: nat, k: nat, c: byte, first: nat, e: nat,
                      m: nat, j: nat)
    requires i <= m <= k < |run| && Brings(hub, listeners, run, i, k, c, first, e) && run[m].chan == c
    requires m > i ==> Holding(hub, run, After(listeners, run, m), i, m, c, first, j)
    ensures hub.Sends(run[m])
    ensures var q, stream := run[m].idx, hub.streams[c];
      && (stream[q].Last() <==> m == k)
      && if m == i then q == first else q == run[j].idx + 1 && !stream[q].first
  {
    assert Partial(hub, run, c, e, m, k);
    if m > i {
      assert InTurn(run, c, j, m);
      assert FollowsAt(hub.streams[c], run[j].idx);
    }
  }

  /** What is held before arrival m. */
  lemma {:induction false} HoldingAt(hub: Hub, listeners: nat, run: seq<Arrival>, i: nat, k: nat, c: byte,
                                     first: nat, e: nat, m: nat) returns (j: nat)
    requires i < m <= k < |run| && Brings(hub, listeners, run, i, k, c, first, e)
    requires c < Min(listeners, MAX_CHANS) && |hub.streams[c][first].cargo| <= MAX_PAYLOAD_IN - HDR_LEN
    ensures Holding(hub, run, After(listeners, run, m), i, m, c, first, j)
    decreases m
  {
    j := i;
    if m > i + 1 {
      j := HoldingAt(hub, listeners, run, i, k, c, first, e, m - 1);
    }
    j := CargoStep(hub, listeners, run, i, k, c, first, e, m - 1, m, j);
  }

  /** However a cargo of at most 380 bytes is cut, whatever came before, and whatever is refused
      in between, its last fragment delivers exactly that cargo and nothing is delivered
      before; meanwhile bytes held plus bytes remaining stay equal to its length. */
  lemma LosslessExact(hub: Hub, listeners: nat, run: seq<Arrival>, i: nat, k: nat, c: byte, first: nat, e: nat)
    requires i <= k < |run| && Brings(hub, listeners, run, i, k, c, first, e)
    requires c < Min(listeners, MAX_CHANS) && |hub.streams[c][first].cargo| <= MAX_PAYLOAD_IN - HDR_LEN
    ensures OutcomeAt(listeners, run, k) == Completed(c, hub.streams[c][first].cargo, run[i].time)
    ensures After(listeners, run, k + 1) == None
    ensures forall m :: i <= m < k ==> !OutcomeAt(listeners, run, m).Completed?
    ensures forall m :: i < m <= k ==>
      var p := After(listeners, run, m);
      p.Some? && |p.value.data| + p.value.remaining == |hub.streams[c][first].cargo|
  {
    forall m | i <= m <= k
      ensures m < k ==> !OutcomeAt(listeners, run, m).Completed?
      ensures m > i ==> var p := After(listeners, run, m);
        p.Some? && |p.value.data| + p.value.remaining == |hub.streams[c][first].cargo|
    {
      var j := i;
      if m > i {
        j := HoldingAt(hub, listeners, run, i, k, c, first, e, m);
      }
      j := CargoStep(hub, listeners, run, i, k, c, first, e, m, m + 1, j);
    }
    var j := i;
    if i < k {
      j := HoldingAt(hub, listeners, run, i, k, c, first, e, k);
    }
    j := CargoStep(hub, listeners, run, i, k, c, first, e, k, k + 1, j);
  }

  /** The numbers of cargoes only rise. */
  lemma {:induction false} CargoNosRise(stream: seq<Frag>, s: nat, q: nat)
    requires Stream(stream) && s < q < |stream|
    ensures stream[s].cargoNo <= stream[q].cargoNo && (stream[q].first ==> stream[s].cargoNo < stream[q].cargoNo)
    decreases q
  {
    assert FollowsAt(stream, q - 1);
    if s < q - 1 {
      CargoNosRise(stream, s, q - 1);
    }
  }

  /** Within a cargo every later fragment starts after the bytes of the first. */
  lemma {:induction false} OffsetsRise(stream: seq<Frag>, first: nat, q: nat)
    requires Stream(stream) && first < q < |stream| && (forall r :: first <= r < q ==> !stream[r].Last())
    requires stream[first].first
    ensures stream[q].off >= stream[first].n && stream[q].cargo == stream[first].cargo
      && stream[q].cargoNo == stream[first].cargoNo
    decreases q
  {
    assert FollowsAt(stream, q - 1);
    if first < q - 1 {
      OffsetsRise(stream, first, q - 1);
    }
  }

  /** In a lossy run, between the arrivals of a cargo's first and last fragment, the cargo is
      delivered whole exactly when all its fragments arrive and nothing of another channel is
      accepted in between. */
  lemma WholeCargoIff(hub: Hub, listeners: nat, run: seq<Arrival>, i: nat, k: nat, c: byte, first: nat, e: nat)
    requires Lossy(hub, run) && i <= k < |run| && CargoOf(hub, c, first, e) && c < Min(listeners, MAX_CHANS)
    requires run[i].chan == c && run[i].idx == first && run[k].chan == c && run[k].idx == e
    requires |hub.streams[c][first].cargo| <= MAX_PAYLOAD_IN - HDR_LEN && (first < e ==> hub.streams[c][first].n > 0)
    ensures var o := OutcomeAt(listeners, run, k);
      o.Completed? && o.payload == hub.streams[c][first].cargo <==>
        AllArrived(run, k + 1, c, first, e) && Calm(listeners, run, c, i, k)
  {
    var o := OutcomeAt(listeners, run, k);
    if o.Completed? && o.payload == hub.streams[c][first].cargo {
      WholeNeeds(hub, listeners, run, i, k, c, first, e);
    }
    if AllArrived(run, k + 1, c, first, e) && Calm(listeners, run, c, i, k) {
      AllBring(hub, listeners, run, i, k, c, first, e);
      LosslessExact(hub, listeners, run, i, k, c, first, e);
    }
  }

  lemma WholeNeeds(hub: Hub, listeners: nat, run: seq<Arrival>, i: nat, k: nat, c: byte, first: nat, e: nat)
    requires Lossy(hub, run) && i <= k < |run| && CargoOf(hub, c, first, e) && c < Min(listeners, MAX_CHANS)
    requires run[i].chan == c && run[i].idx == first && run[k].chan == c && run[k].idx == e
    requires first < e ==> hub.streams[c][first].n > 0
    requires OutcomeAt(listeners, run, k).Completed?
    requires OutcomeAt(listeners, run, k).payload == hub.streams[c][first].cargo
    ensures AllArrived(run, k + 1, c, first, e) && Calm(listeners, run, c, i, k)
  {
    var o, stream := OutcomeAt(listeners, run, k), hub.streams[c];
    ReassemblySafety(hub, listeners, run, k);
    var s: nat, e': nat, i': nat :| DeliversFrom(hub, listeners, run, k + 1, o, s, e', i');
    if first < e {
      OffsetsRise(stream, first, e);
    }
    if s < first {
      CargoNosRise(stream, s, first);
    }
    if first < s {
      OffsetsRise(stream, first, s);
    }
  }

  lemma AllBring(hub: Hub, listeners: nat, run: seq<Arrival>, i: nat, k: nat, c: byte, first: nat, e: nat)
    requires Orderly(hub, run) && i <= k < |run| && CargoOf(hub, c, first, e) && Calm(listeners, run, c, i, k)
    requires run[i].chan == c && run[i].idx == first && run[k].chan == c && run[k].idx == e
    requires AllArrived(run, k + 1, c, first, e)
    ensures Brings(hub, listeners, run, i, k, c, first, e)
  {
    forall m | i <= m <= k
      ensures Partial(hub, run, c, e, m, k)
    {
      assert m < k && run[m].chan == c ==> Precedes(run[m], run[k]);
    }
    forall j, m | i <= j < m <= k
      ensures InTurn(run, c, j, m)
    {
      if run[j].chan == c && run[m].chan == c {
        TurnOf(hub, run, k, k + 1, c, first, e, i, j, m);
      }
    }
  }

  /** The fragment after j's has arrived, and not before j or after m. */
  lemma TurnOf(hub: Hub, run: seq<Arrival>, k: nat, next: nat, c: byte, first: nat, e: nat, i: nat, j: nat, m: nat)
    requires Orderly(hub, run) && i <= j < m <= k < |run| && next == k + 1
    requires run[i].chan == c && run[i].idx == first && run[k].chan == c && run[k].idx == e
    requires run[j].chan == c && run[m].chan == c && AllArrived(run, next, c, first, e)
    ensures InTurn(run, c, j, m)
  {
    assert Precedes(run[j], run[m]) && (i < j ==> Precedes(run[i], run[j])) && (m < k ==> Precedes(run[m], run[k]));
    var q := run[j].idx + 1;
    assert Arrived(run, next, c, q);
    var at :| 0 <= at < next && run[at].chan == c && run[at].idx == q;
    assert QuietBetween(run, c, j, m) ==> at == m;
  }

  // ---------- A loss the numbers do not show ----------

  /** A hub sending two-byte cargoes [x, x] in one-byte fragments. */
  ghost function TwoByteCargoes(): Hub {
    Hub(map[0 := seq(258, i requires 0 <= i => Frag(i / 2, [Mod8(i / 2), Mod8(i / 2)], i % 2, 1, i % 2 == 0))],
        map[0 := 0])
  }

  /** Of that hub's stream only fragments 0 and 257 arrive. */
  ghost function LongLoss(t0: u32, t1: u32): seq<Arrival> {
    [Arrival(0, 0, [6, 0x00, 0, 0, 0], t0), Arrival(0, 257, [5, 0x80, 0, 1, 128], t1)]
  }

  lemma LongLossOrderly(t0: u32, t1: u32)
    ensures var hub := TwoByteCargoes();
      Orderly(hub, LongLoss(t0, t1)) && FragBytes(hub.streams[0][0]) == [0] && FragBytes(hub.streams[0][257]) == [128]
  {
    var hub, run := TwoByteCargoes(), LongLoss(t0, t1);
    var f, g := hub.streams[0][0], hub.streams[0][257];
    assert f == Frag(0, [0, 0], 0, 1, true) && g == Frag(128, [128, 128], 1, 1, false);
    assert run[0].transfer[HDR_LEN..HDR_LEN + 1] == [0] == f.cargo[0..1];
    assert run[1].transfer[HDR_LEN..HDR_LEN + 1] == [128] == g.cargo[1..2];
    assert hub.Sends(run[0]) && hub.Sends(run[1]);
  }

  /** With exactly 256 fragments lost in a row the sequence number comes round again: the
      payload mixes cargoes 0 and 128. */
  lemma WrapMixesCargoes(t0: u32, t1: u32)
    ensures var hub, run := TwoByteCargoes(), LongLoss(t0, t1);
      && Orderly(hub, run) && OutcomeAt(1, run, 1) == Completed(0, [0, 128], t0)
      && !Whole(hub, run, 2, OutcomeAt(1, run, 1))
  {
    var hub, run := TwoByteCargoes(), LongLoss(t0, t1);
    LongLossOrderly(t0, t1);
    var f, g := hub.streams[0][0], hub.streams[0][257];
    ReceiveFrag(None, 1, run[0].transfer, t0, 0, 0, f);
    assert After(1, run, 0) == None;
    assert After(1, run, 1) == Some(Assembly(0, [] + [0], 1, 1, t0));
    ReceiveFrag(After(1, run, 1), 1, run[1].transfer, t1, 0, 1, g);
    assert !Arrived(run, 1, 0, 256);
    assert MixedFrom(1, run, 1, 1);
    WholeIff(hub, 1, run, 1);
  }

  // ---------- The code over a run ----------

  /** The receiver has caught up with the first k arrivals; `calls` were made before. */
  ghost predicate CaughtUp(rx: Receiver, run: seq<Arrival>, k: nat, calls: seq<Delivery>)
    reads rx, rx.inPayload, rx.nextInSeq, rx.listening
    requires k <= |run|
  {
    && rx.Valid() && rx.Pending() == After(rx.nextChanListener, run, k)
    && rx.delivered == calls + Deliveries(rx.nextChanListener, rx.listening[..], run, k)
  }

  /** The receive half of shtp_service: arrival k of a run. */
  method ServiceOne(rx: Receiver, run: seq<Arrival>, k: nat, ghost calls: seq<Delivery>)
    requires k < |run| && FitsAt(rx.nextChanListener, run, k) && CaughtUp(rx, run, k, calls)
    modifies rx`inRemaining, rx`inChan, rx`inCursor, rx`inTimestamp, rx.inPayload, rx.nextInSeq,
             rx`shortFragments, rx`badRxChan, rx`tooLargePayloads, rx`events, rx`delivered
    ensures CaughtUp(rx, run, k + 1, calls)
  {
    rx.RxAssemble(run[k].transfer, run[k].time);
  }

  /** A whole run of arrivals whose copies fit makes exactly the callbacks the specification
      predicts. */
  method ServiceRun(rx: Receiver, run: seq<Arrival>)
    requires rx.Valid() && rx.Pending() == None && RunFits(rx.nextChanListener, run)
    modifies rx`inRemaining, rx`inChan, rx`inCursor, rx`inTimestamp, rx.inPayload, rx.nextInSeq,
             rx`shortFragments, rx`badRxChan, rx`tooLargePayloads, rx`events, rx`delivered
    ensures rx.Valid() && rx.Pending() == After(rx.nextChanListener, run, |run|)
    ensures rx.delivered == old(rx.delivered) + Deliveries(rx.nextChanListener, rx.listening[..], run, |run|)
  {
    ghost var calls := rx.delivered;
    for k := 0 to |run|
      invariant CaughtUp(rx, run, k, calls)
    {
      ServiceOne(rx, run, k, calls);
    }
  }
}
