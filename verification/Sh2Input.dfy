/**
 * Sensor input (sh2.c, sensorhubInputHdlr, getReportLen, touSTimestamp): cutting a payload
 * into reports by a table of lengths, keeping the time reference, and widening 32-bit
 * arrival times to 64 bits.
 */
module Sh2Input {
  import opened Bytes

  const WORD := 0x1_0000_0000
  const BASE_TIMESTAMP_REF: byte := 0xFB
  const TIMESTAMP_REBASE: byte := 0xFA
  const FLUSH_COMPLETED: byte := 0xEF
  const SH2_MAX_SENSOR_EVENT_LEN := 16
  const SH2_MAX_REPORT_IDS := 64

  function Mod32(x: int): u32 {
    x % WORD
  }

  // ---------- 64-bit timestamps ----------

  /** touSTimestamp and its two static variables. */
  class Clock {
    var lastHostInt: u32
    var rollovers: u32

    constructor ()
      ensures lastHostInt == 0 && rollovers == 0
    {
      lastHostInt, rollovers := 0, 0;
    }

    /** The clock has followed the 64-bit time `t`. */
    ghost predicate Follows(t: nat)
      reads this
    {
      t == rollovers * WORD + lastHostInt
    }

    /** The correction is added in 32 bits, so a carry out of the low word is lost. */
    method ToUs(hostInt: u32, referenceDelta: u32, delay: u16) returns (timestamp: nat)
      modifies this
      ensures lastHostInt == hostInt
      ensures rollovers == Rolled(old(rollovers), old(lastHostInt), hostInt)
      ensures timestamp == rollovers * WORD + Mod32(hostInt + (referenceDelta + delay) * 100)
    {
      if hostInt < lastHostInt {
        rollovers := Next32(rollovers);
      }
      lastHostInt := hostInt;
      timestamp := rollovers * WORD;
      timestamp := timestamp + Mod32(hostInt + (referenceDelta + delay) * 100);
    }
  }

  function Rolled(rollovers: u32, last: u32, hostInt: u32): u32 {
    if hostInt < last then Next32(rollovers) else rollovers
  }

  /** One step of less than 2^32 microseconds is reconstructed exactly. */
  lemma StepReconstructed(t: nat, t': nat, rollovers: u32, last: u32)
    requires t == rollovers * WORD + last && t <= t' < t + WORD && t' < WORD * WORD
    ensures t' == Rolled(rollovers, last, t' % WORD) * WORD + t' % WORD
  {
    assert t' / WORD == rollovers || t' / WORD == rollovers + 1 by {
      assert t' == (t' / WORD) * WORD + t' % WORD;
    }
  }

  /** A stamp is the true time plus the correction exactly when the corrected low word
      stays inside 32 bits. */
  lemma StampExactIff(t: nat, rollovers: u32, hostInt: u32, correction: int)
    requires t == rollovers * WORD + hostInt
    ensures rollovers * WORD + Mod32(hostInt + correction) == t + correction <==> 0 <= hostInt + correction < WORD
  {
  }

  /** Just after a rollover a report 100 microseconds old is stamped 2^32 microseconds late. */
  lemma BorrowIsLost(rollovers: u32)
    ensures var hostInt, reference := 0, -1;
      rollovers * WORD + Mod32(hostInt + reference * 100) == rollovers * WORD + hostInt + reference * 100 + WORD
  {
  }

  /** A 32-bit word read as a signed number. */
  function Signed(x: u32): int {
    if x < 0x8000_0000 then x else x - WORD
  }

  /** It is the number from -2^31 up to 2^31 that differs by a multiple of 2^32. */
  lemma SignedIff(x: u32, y: int)
    ensures y == Signed(x) <==> -0x8000_0000 <= y < 0x8000_0000 && (x - y) % 0x1_0000_0000 == 0
  {
  }

  // ---------- Reports ----------

  /** One line of the table of report lengths; unused lines are zero. */
  datatype Length = Length(id: byte, len: byte)

  /** getReportLen: the first line for the id, 0 when there is none. */
  function TableLen(table: seq<Length>, id: byte): byte {
    if table == [] then 0 else if table[0].id == id then table[0].len else TableLen(table[1..], id)
  }

  /** The table after the hub has advertised report lengths: lines beyond the table are dropped,
      and lines it does not mention stay. */
  function Stored(table: seq<Length>, value: bytes): (t: seq<Length>)
    ensures |t| == |table|
  {
    seq(|table|, n requires 0 <= n < |table| =>
      if 2 * n + 1 < |value| then Length(value[2 * n], value[2 * n + 1]) else table[n])
  }

  function EncodeLengths(lines: seq<Length>): (value: bytes)
    ensures |value| == 2 * |lines|
  {
    if lines == [] then [] else EncodeLengths(lines[..|lines| - 1]) + [lines[|lines| - 1].id, lines[|lines| - 1].len]
  }

  lemma {:induction false} EncodedAt(lines: seq<Length>, n: nat)
    requires n < |lines|
    ensures EncodeLengths(lines)[2 * n] == lines[n].id && EncodeLengths(lines)[2 * n + 1] == lines[n].len
    decreases |lines|
  {
    if n < |lines| - 1 {
      EncodedAt(lines[..|lines| - 1], n);
    }
  }

  /** Any number of lines, up to 127: the first 64 of them replace as many lines of the table, and
      the lines behind those stay. */
  lemma LinesStored(table: seq<Length>, lines: seq<Length>, n: nat)
    requires |table| == 64 && |lines| <= 127 && n < 64
    ensures Stored(table, EncodeLengths(lines))[n] == if n < |lines| then lines[n] else table[n]
  {
    if n < |lines| {
      EncodedAt(lines, n);
    }
  }

  /** The length of an id is that of the first line with this id, and 0 without one. */
  lemma {:induction false} LengthIs(table: seq<Length>, id: byte, k: nat)
    requires k <= |table| && forall j :: 0 <= j < k ==> table[j].id != id
    requires k < |table| ==> table[k].id == id
    ensures TableLen(table, id) == if k < |table| then table[k].len else 0
    decreases k
  {
    if k > 0 {
      LengthIs(table[1..], id, k - 1);
    }
  }

  /** So the length in force for an advertised id is the one its first line gives. */
  lemma AdvertisedLength(table: seq<Length>, lines: seq<Length>, k: nat)
    requires |table| == 64 && |lines| <= 127 && k < |lines| && k < 64
    requires forall j :: 0 <= j < k ==> lines[j].id != lines[k].id
    ensures TableLen(Stored(table, EncodeLengths(lines)), lines[k].id) == lines[k].len
  {
    var stored := Stored(table, EncodeLengths(lines));
    forall j | 0 <= j <= k
      ensures stored[j] == lines[j]
    {
      LinesStored(table, lines, j);
    }
    LengthIs(stored, lines[k].id, k);
  }

  /** A hub can advertise any table it likes. */
  lemma AnyTableStored(table: seq<Length>, lines: seq<Length>)
    requires |table| == |lines| == SH2_MAX_REPORT_IDS
    ensures Stored(table, EncodeLengths(lines)) == lines
  {
    forall n | 0 <= n < |lines|
      ensures Stored(table, EncodeLengths(lines))[n] == lines[n]
    {
      LinesStored(table, lines, n);
    }
  }

  method GetReportLen(table: seq<Length>, reportId: byte) returns (len: byte)
    ensures len == TableLen(table, reportId)
  {
    for n := 0 to |table|
      invariant TableLen(table, reportId) == TableLen(table[n..], reportId)
    {
      if table[n].id == reportId {
        return table[n].len;
      }
    }
    return 0;
  }

  predicate IsSensor(id: byte) {
    id != BASE_TIMESTAMP_REF && id != TIMESTAMP_REBASE && id != FLUSH_COMPLETED
  }

  datatype Event = Event(timestamp: nat, report: bytes)

  /** A report of n bytes has room in an event, if it goes there at all. */
  predicate HasRoom(id: byte, n: nat) {
    IsSensor(id) ==> n <= SH2_MAX_SENSOR_EVENT_LEN
  }

  /** What a payload produces: sensor events, reports routed to the operation in progress,
      and whether every report id was known. */
  datatype Output = Output(events: seq<Event>, flushes: seq<bytes>, known: bool) {
    /** This output followed by another. */
    function Then(o: Output): Output {
      Output(events + o.events, flushes + o.flushes, o.known)
    }
  }

  /** The time reference after the report at the start of `p`. */
  function NextDelta(delta: u32, p: bytes): u32
    requires |p| >= 5
  {
    var timebase: int := ReadU32(p[1..5]);
    if p[0] == BASE_TIMESTAMP_REF then Mod32(-timebase)
    else if p[0] == TIMESTAMP_REBASE then Mod32(delta + timebase)
    else delta
  }

  /** The 14-bit delay of a sensor report: ((p[2] & 0xFC) << 6) + p[3]. */
  function Delay(p: bytes): u16
    requires |p| >= 4
  {
    p[2] as int / 4 * 0x100 + p[3] as int
  }

  /** It is the upper six bits of byte 2, above its two status bits, and all of byte 3. */
  lemma DelayIsFourteenBits(p: bytes, delay: nat, status: byte)
    requires |p| >= 4 && delay < 0x4000 && status < 4
    requires p[2] == delay / 0x100 * 4 + status && p[3] == delay % 0x100
    ensures Delay(p) == delay
  {
    assert (delay / 0x100 * 4 + status) / 4 == delay / 0x100;
  }

  /** What one report of n bytes at the start of `p` produces. */
  function Emit(p: bytes, n: nat, delta: u32, hi: u32, hostInt: u32): Output
    requires |p| >= 5 && n <= |p|
  {
    if IsSensor(p[0]) then Output([Event(hi * WORD + Mod32(hostInt + (delta + Delay(p)) * 100), p[..n])], [], true)
    else if p[0] == FLUSH_COMPLETED then Output([], [p[..n]], true)
    else Output([], [], true)
  }

  /** Walk from `cursor` to `len`. When the last report is cut short the code reads on in
      memory, so `buf` goes further than the payload. */
  ghost function Walk(table: seq<Length>, buf: bytes, cursor: nat, len: nat, delta: u32, hi: u32, hostInt: u32): Output
    requires len + 0x100 <= |buf|
    decreases len - cursor
  {
    if cursor >= len then Output([], [], true)
    else
      var p := buf[cursor..];
      var n: nat := TableLen(table, p[0]);
      if n == 0 then Output([], [], false)
      else Emit(p, n, delta, hi, hostInt).Then(Walk(table, buf, cursor + n, len, NextDelta(delta, p), hi, hostInt))
  }

  /** One report of the walk. */
  lemma WalkStep(table: seq<Length>, buf: bytes, cursor: nat, len: nat, delta: u32, hi: u32, hostInt: u32, n: nat,
                 next: nat, delta': u32)
    requires len + 0x100 <= |buf| && cursor < len && n == TableLen(table, buf[cursor]) && next == cursor + n
    requires delta' == NextDelta(delta, buf[cursor..])
    ensures Walk(table, buf, cursor, len, delta, hi, hostInt) ==
      if n == 0 then Output([], [], false)
      else Emit(buf[cursor..], n, delta, hi, hostInt).Then(Walk(table, buf, next, len, delta', hi, hostInt))
  {
  }

  /** Every copy of a report into an event, from `cursor` on, stays inside the event. */
  ghost predicate CopiesFit(table: seq<Length>, buf: bytes, cursor: nat, len: nat)
    requires len + 0x100 <= |buf|
    decreases len - cursor
  {
    cursor < len ==>
      var n: nat := TableLen(table, buf[cursor]);
      n > 0 ==> HasRoom(buf[cursor], n) && CopiesFit(table, buf, cursor + n, len)
  }

  predicate AllShort(events: seq<Event>) {
    forall e <- events :: |e.report| <= SH2_MAX_SENSOR_EVENT_LEN
  }

  lemma ShortMore(a: Output, b: Output, all: Output)
    requires all == a.Then(b)
    ensures AllShort(all.events) <==> AllShort(a.events) && AllShort(b.events)
  {
    assert forall e <- a.events :: e in all.events;
    assert forall e <- b.events :: e in all.events;
  }

  lemma EmitShort(p: bytes, n: nat, delta: u32, hi: u32, hostInt: u32)
    requires |p| >= 5 && n <= |p|
    ensures AllShort(Emit(p, n, delta, hi, hostInt).events) <==> HasRoom(p[0], n)
  {
    if IsSensor(p[0]) {
      assert Emit(p, n, delta, hi, hostInt).events[0].report == p[..n];
    }
  }

  lemma CopiesFitStep(table: seq<Length>, buf: bytes, cursor: nat, len: nat, n: nat, next: nat)
    requires len + 0x100 <= |buf| && cursor < len && n == TableLen(table, buf[cursor]) && next == cursor + n
    ensures CopiesFit(table, buf, cursor, len) <==>
      (n > 0 ==> HasRoom(buf[cursor], n) && CopiesFit(table, buf, next, len))
  {
  }

  /** They do exactly when every event of the walk is a report of at most 16 bytes. */
  lemma {:induction false} CopiesFitIff(table: seq<Length>, buf: bytes, cursor: nat, len: nat, delta: u32, hi: u32,
                                        hostInt: u32)
    requires len + 0x100 <= |buf|
    ensures CopiesFit(table, buf, cursor, len) <==>
      AllShort(Walk(table, buf, cursor, len, delta, hi, hostInt).events)
    decreases len - cursor
  {
    if cursor < len {
      var p := buf[cursor..];
      var n: nat := TableLen(table, p[0]);
      var delta', next := NextDelta(delta, p), cursor + n;
      WalkStep(table, buf, cursor, len, delta, hi, hostInt, n, next, delta');
      CopiesFitStep(table, buf, cursor, len, n, next);
      if n > 0 {
        CopiesFitIff(table, buf, next, len, delta', hi, hostInt);
        EmitShort(p, n, delta, hi, hostInt);
        ShortMore(Emit(p, n, delta, hi, hostInt), Walk(table, buf, next, len, delta', hi, hostInt),
          Walk(table, buf, cursor, len, delta, hi, hostInt));
      }
    }
  }

  /** The table gives no sensor more than 16 bytes. */
  predicate SafeTable(table: seq<Length>) {
    forall id: byte :: HasRoom(id, TableLen(table, id))
  }

  /** The table comes from the hub unchecked: no payload overruns an event exactly when it gives
      no sensor more than 16 bytes. */
  lemma SafeTableIff(table: seq<Length>)
    ensures SafeTable(table) <==> forall buf: bytes, len: nat :: len + 0x100 <= |buf| ==> CopiesFit(table, buf, 0, len)
  {
    if SafeTable(table) {
      forall buf: bytes, len: nat | len + 0x100 <= |buf|
        ensures CopiesFit(table, buf, 0, len)
      {
        SafeTableFits(table, buf, 0, len);
      }
    } else {
      var id: byte :| !HasRoom(id, TableLen(table, id));
      var buf := seq(0x101, _ => id);
      assert !CopiesFit(table, buf, 0, 1);
    }
  }

  lemma {:induction false} SafeTableFits(table: seq<Length>, buf: bytes, cursor: nat, len: nat)
    requires SafeTable(table) && len + 0x100 <= |buf|
    ensures CopiesFit(table, buf, cursor, len)
    decreases len - cursor
  {
    if cursor < len && TableLen(table, buf[cursor]) > 0 {
      SafeTableFits(table, buf, cursor + TableLen(table, buf[cursor]) as int, len);
    }
  }

  /** A single report of 17 bytes is already too long. */
  lemma LongReportOverruns(after: bytes)
    requires |after| >= 0x100
    ensures !CopiesFit([Length(5, 17)], seq(17, _ => 5) + after, 0, 17)
  {
  }

  /** `all` is what has been produced, followed by what the walk from `cursor` produces, and the
      copies still to come stay inside the event. */
  ghost predicate LeftToDo(table: seq<Length>, buf: bytes, cursor: nat, len: nat, delta: u32, hi: u32, hostInt: u32,
                           done: Output, all: Output)
    requires len + 0x100 <= |buf|
  {
    CopiesFit(table, buf, cursor, len) && all == done.Then(Walk(table, buf, cursor, len, delta, hi, hostInt))
  }

  /** One report moves from what is left to what is done; an unknown id ends the walk. */
  lemma LeftStep(table: seq<Length>, buf: bytes, cursor: nat, len: nat, delta: u32, hi: u32, hostInt: u32,
                 done: Output, all: Output, n: nat, next: nat, delta': u32)
    requires len + 0x100 <= |buf| && cursor < len && n == TableLen(table, buf[cursor]) && next == cursor + n
    requires delta' == NextDelta(delta, buf[cursor..])
      && LeftToDo(table, buf, cursor, len, delta, hi, hostInt, done, all)
    ensures n == 0 ==> all == done.Then(Output([], [], false))
    ensures n > 0 ==> HasRoom(buf[cursor], n)
    ensures n > 0 ==> LeftToDo(table, buf, next, len, delta', hi, hostInt,
      done.Then(Emit(buf[cursor..], n, delta, hi, hostInt)), all)
  {
    var w := Walk(table, buf, cursor, len, delta, hi, hostInt);
    assert all == done.Then(w);
    WalkStep(table, buf, cursor, len, delta, hi, hostInt, n, next, delta');
    if n > 0 {
      ThenAssociates(all, done, w, Emit(buf[cursor..], n, delta, hi, hostInt),
        Walk(table, buf, next, len, delta', hi, hostInt));
    }
  }

  lemma ThenAssociates(all: Output, a: Output, bc: Output, b: Output, c: Output)
    requires all == a.Then(bc) && bc == b.Then(c)
    ensures all == a.Then(b).Then(c)
  {
  }

  /** The callbacks made and the clock, at one moment; `heard` says whether there is a sensor
      callback. */
  datatype Snap = Snap(heard: bool, events: seq<Event>, flushes: seq<bytes>, last: u32, rollovers: u32) {
    /** `now` is this snapshot after `out` of a payload that arrived at `timestamp`: the clock
        moves when there is a sensor event, heard or not. */
    predicate Produced(out: Output, timestamp: u32, now: Snap) {
      && now.heard == heard && now.events == events + (if heard then out.events else [])
        && now.flushes == flushes + out.flushes
      && now.last == (if out.events == [] then last else timestamp)
      && now.rollovers == if out.events == [] then rollovers else Rolled(rollovers, last, timestamp)
    }
  }

  /** The memcpy into the report of an event. */
  method CopyReport(report: array<byte>, pReport: bytes, reportLen: nat)
    requires reportLen <= report.Length && reportLen <= |pReport|
    modifies report
    ensures report[..reportLen] == pReport[..reportLen]
  {
    forall i | 0 <= i < reportLen {
      report[i] := pReport[i];
    }
  }

  class Input {
    var table: seq<Length>          // report[0..64]
    var unknownReportIds: u32
    const clock: Clock
    var sensorCallback: bool        // a sensor callback is set
    var events: seq<Event>          // sensor callbacks made
    var flushes: seq<bytes>         // reports handed to opRx

    constructor (table: seq<Length>)
      ensures this.table == table && !sensorCallback && events == [] && flushes == [] && fresh(clock)
      ensures clock.lastHostInt == 0 && clock.rollovers == 0
    {
      this.table := table;
      unknownReportIds := 0;
      clock := new Clock();
      sensorCallback, events, flushes := false, [], [];
    }

    /** The report-lengths tag of sensorhubAdvertHdlr. */
    method StoreLengths(value: bytes)
      requires |table| == SH2_MAX_REPORT_IDS && |value| <= 0xFF
      modifies this`table
      ensures table == Stored(old(table), value)
      ensures |table| == 64 && forall n :: 0 <= n < 64 ==>
        table[n] == if 2 * n + 1 < |value| then Length(value[2 * n], value[2 * n + 1]) else old(table)[n]
    {
      var reports := |value| / 2;
      if reports > SH2_MAX_REPORT_IDS {
        // More lengths than there are lines.
        reports := SH2_MAX_REPORT_IDS;
      }
      for n := 0 to reports
        invariant |table| == SH2_MAX_REPORT_IDS
        invariant forall k :: 0 <= k < n ==> table[k] == Stored(old(table), value)[k]
        invariant forall k :: n <= k < |table| ==> table[k] == old(table)[k]
      {
        table := table[n := Length(value[n * 2], value[n * 2 + 1])];
      }
    }

    ghost function Now(): Snap
      reads this`sensorCallback, this`events, this`flushes, clock
    {
      Snap(sensorCallback, events, flushes, clock.lastHostInt, clock.rollovers)
    }

    /** One report of known length at the start of `p`. */
    method HandleReport(p: bytes, reportLen: nat, delta: u32, timestamp: u32, ghost before: Snap, ghost done: Output)
        returns (referenceDelta: u32)
      requires |p| >= 5 && reportLen <= |p| && HasRoom(p[0], reportLen) && before.Produced(done, timestamp, Now())
      modifies this`events, this`flushes, clock
      ensures referenceDelta == NextDelta(delta, p)
      ensures var hi := Rolled(before.rollovers, before.last, timestamp);
        before.Produced(done.Then(Emit(p, reportLen, delta, hi, timestamp)), timestamp, Now())
    {
      referenceDelta := delta;
      var reportId := p[0];
      if reportId == BASE_TIMESTAMP_REF {
        var timebase: int := ReadU32(p[1..5]);
        referenceDelta := Mod32(-timebase);
      } else if reportId == TIMESTAMP_REBASE {
        var timebase: int := ReadU32(p[1..5]);
        referenceDelta := Mod32(referenceDelta + timebase);
      } else if reportId == FLUSH_COMPLETED {
        flushes := flushes + [p[..reportLen]];
      } else {
        var stamp := clock.ToUs(timestamp, referenceDelta, Delay(p));
        var report := new byte[SH2_MAX_SENSOR_EVENT_LEN];
        CopyReport(report, p, reportLen);
        if sensorCallback {
          events := events + [Event(stamp, report[..reportLen])];
        }
      }
    }

    /** One round of the loop. */
    method NextReportIn(buf: bytes, cursor: nat, len: nat, delta: u32, timestamp: u32, ghost before: Snap,
                        ghost done: Output, ghost hi: u32, ghost all: Output)
        returns (known: bool, next: nat, referenceDelta: u32, ghost done': Output)
      requires len + 0x100 <= |buf| && cursor < len && hi == Rolled(before.rollovers, before.last, timestamp)
      requires before.Produced(done, timestamp, Now())
        && LeftToDo(table, buf, cursor, len, delta, hi, timestamp, done, all)
      modifies this`events, this`flushes, clock
      ensures before.Produced(done', timestamp, Now())
      ensures known ==> cursor < next < cursor + 0x100
      ensures known ==> LeftToDo(table, buf, next, len, referenceDelta, hi, timestamp, done', all)
      ensures !known ==> all == done'.Then(Output([], [], false))
    {
      var reportLen := GetReportLen(table, buf[cursor]);
      known, next, referenceDelta, done' := reportLen != 0, cursor + reportLen, delta, done;
      LeftStep(table, buf, cursor, len, delta, hi, timestamp, done, all, reportLen, next,
        NextDelta(delta, buf[cursor..]));
      if known {
        done' := done.Then(Emit(buf[cursor..], reportLen, delta, hi, timestamp));
        referenceDelta := HandleReport(buf[cursor..], reportLen, delta, timestamp, before, done);
      }
    }

    /** `buf` is the memory from the start of the payload on; the payload is its first `len`
        bytes. The loop ends because a known report has at least one byte. */
    method InputHdlr(buf: bytes, len: nat, timestamp: u32) returns (ghost out: Output)
      requires len + 0x100 <= |buf| <= 0xFFFF && CopiesFit(table, buf, 0, len)
      modifies this`events, this`flushes, this`unknownReportIds, clock
      ensures var hi := Rolled(old(clock.rollovers), old(clock.lastHostInt), timestamp);
        out == Walk(table, buf, 0, len, 0, hi, timestamp)
      ensures old(Now()).Produced(out, timestamp, Now())
      ensures unknownReportIds == if out.known then old(unknownReportIds) else Next32(old(unknownReportIds))
    {
      ghost var before := Now();
      ghost var hi := Rolled(before.rollovers, before.last, timestamp);
      out := Walk(table, buf, 0, len, 0, hi, timestamp);
      var known := WalkReports(buf, len, timestamp, before, hi, out);
      if !known {
        unknownReportIds := Next32(unknownReportIds);
      }
    }

    /** Its loop: an unknown id ends it. */
    method WalkReports(buf: bytes, len: nat, timestamp: u32, ghost before: Snap, ghost hi: u32, ghost out: Output)
        returns (known: bool)
      requires len + 0x100 <= |buf| <= 0xFFFF && CopiesFit(table, buf, 0, len) && before == Now()
      requires hi == Rolled(before.rollovers, before.last, timestamp)
      requires out == Walk(table, buf, 0, len, 0, hi, timestamp)
      modifies this`events, this`flushes, clock
      ensures before.Produced(out, timestamp, Now()) && known == out.known
    {
      ghost var done := Output([], [], true);
      var cursor, referenceDelta: u32 := 0, 0;
      known := true;
      while cursor < len
        invariant 0 <= cursor <= len + 0xFF && known
        invariant LeftToDo(table, buf, cursor, len, referenceDelta, hi, timestamp, done, out)
        invariant before.Produced(done, timestamp, Now())
        decreases len - cursor
      {
        known, cursor, referenceDelta, done :=
          NextReportIn(buf, cursor, len, referenceDelta, timestamp, before, done, hi, out);
        if !known {
          return;
        }
      }
    }
  }

  // ---------- The parser inverts concatenation ----------

  /** A report as the hub sends it: of the table's length, with its fields present. */
  predicate WholeReport(table: seq<Length>, r: bytes) {
    && r != [] && |r| == TableLen(table, r[0])
    && (r[0] == 0xFB || r[0] == 0xFA ==> |r| >= 5)
    && (OfSensor(r) ==> |r| >= 4)
  }

  predicate AllWhole(table: seq<Length>, reports: seq<bytes>) {
    forall i :: 0 <= i < |reports| ==> WholeReport(table, reports[i])
  }

  predicate HasId(r: bytes, id: byte) {
    |r| >= 5 && r[0] == id
  }

  /** Every report is one of a sensor but a base reference (0xFB), a rebase (0xFA) and a flush
      report (0xEF). */
  predicate OfSensor(r: bytes) {
    r != [] && r[0] != 0xFB && r[0] != 0xFA && r[0] != 0xEF
  }

  /** The time reference in signed, unbounded arithmetic: minus the latest base reference
      plus every rebase after it. */
  ghost function Reference(reports: seq<bytes>): int {
    if reports == [] then 0
    else
      var most, r := reports[..|reports| - 1], reports[|reports| - 1];
      if HasId(r, 0xFB) then -(ReadU32(r[1..5]) as int)
      else if HasId(r, 0xFA) then Reference(most) + Signed(ReadU32(r[1..5]))
      else Reference(most)
  }

  /** A sensor report that arrived at `time`, a 64-bit time, and how much later than that the
      hub says it was taken, in microseconds. */
  datatype Due = Due(time: nat, offset: int, report: bytes)

  /** The sensor reports of `reports` when they follow `before`, in order, each with the
      reference in force when it is reached and its own delay. */
  ghost function DueOf(table: seq<Length>, before: seq<bytes>, reports: seq<bytes>, time: nat): (dues: seq<Due>)
    requires AllWhole(table, reports)
    ensures forall d <- dues :: d.time == time
    decreases |reports|
  {
    if reports == [] then []
    else
      var r := reports[0];
      (if OfSensor(r) then [Due(time, (Reference(before) + Delay(r)) * 100, r)] else [])
        + DueOf(table, before + [r], reports[1..], time)
  }

  /** The reports routed to the operation in progress. */
  ghost function FlushesOf(table: seq<Length>, reports: seq<bytes>): seq<bytes>
    requires AllWhole(table, reports)
  {
    if reports == [] then []
    else (if reports[0][0] == 0xEF then [reports[0]] else []) + FlushesOf(table, reports[1..])
  }

  /** The event carries the report, and its stamp is the arrival time plus the offset exactly
      when that leaves the upper 32 bits alone; otherwise it is off by a multiple of 2^32. */
  predicate Stamped(e: Event, d: Due) {
    var low := d.time % WORD;
    && e.report == d.report && e.timestamp == d.time - low + Mod32(low + d.offset)
    && (e.timestamp == d.time + d.offset <==> 0 <= low + d.offset < WORD)
  }

  predicate AllStamped(events: seq<Event>, dues: seq<Due>) {
    |events| == |dues| && forall i :: 0 <= i < |events| ==> Stamped(events[i], dues[i])
  }

  lemma ReferenceStep(table: seq<Length>, before: seq<bytes>, r: bytes, delta: u32, p: bytes)
    requires WholeReport(table, r) && delta == Mod32(Reference(before)) && |p| >= 5 && r <= p
    ensures NextDelta(delta, p) == Mod32(Reference(before + [r]))
  {
    assert (before + [r])[..|before|] == before;
    assert r[0] == p[0];
    if r[0] == BASE_TIMESTAMP_REF || r[0] == TIMESTAMP_REBASE {
      assert r[1..5] == p[1..5];
      ModAdd(Reference(before), ReadU32(r[1..5]));
    }
  }

  /** What one whole report produces. */
  lemma EmitWhole(table: seq<Length>, before: seq<bytes>, r: bytes, delta: u32, p: bytes, hi: u32, hostInt: u32,
                  time: nat)
    requires WholeReport(table, r) && delta == Mod32(Reference(before)) && |p| >= 5 && r <= p
      && time == hi * WORD + hostInt
    ensures var out := Emit(p, |r|, delta, hi, hostInt);
      && out.known && out.flushes == (if r[0] == 0xEF then [r] else [])
      && AllStamped(out.events, if OfSensor(r) then [Due(time, (Reference(before) + Delay(r)) * 100, r)] else [])
  {
    assert p[..|r|] == r && r[0] == p[0];
    if IsSensor(r[0]) {
      assert Delay(p) == Delay(r);
      StampExact(time, hi, hostInt, Reference(before), Delay(r), r);
    }
  }

  lemma StampExact(time: nat, hi: u32, hostInt: u32, reference: int, delay: u16, r: bytes)
    requires time == hi * WORD + hostInt
    ensures Stamped(Event(hi * WORD + Mod32(hostInt + (Mod32(reference) + delay) * 100), r),
      Due(time, (reference + delay) * 100, r))
  {
    LowWord(time, hi, hostInt);
    ModScale(reference, hostInt, delay);
    StampExactIff(time, hi, hostInt, (reference + delay) * 100);
  }

  lemma LowWord(time: nat, hi: u32, hostInt: u32)
    requires time == hi * WORD + hostInt
    ensures time % WORD == hostInt
  {
  }

  lemma ModAdd(a: int, b: u32)
    ensures Mod32(Mod32(a) + b) == Mod32(a + Signed(b))
  {
  }

  lemma ModScale(a: int, hostInt: u32, delay: u16)
    ensures Mod32(hostInt + (Mod32(a) + delay) * 100) == Mod32(hostInt + (a + delay) * 100)
  {
    var q := a / WORD;
    assert a == q * WORD + Mod32(a);
    ModShift(hostInt + (Mod32(a) + delay) * 100, q * 100);
  }

  lemma ModShift(x: int, k: int)
    ensures (x + k * WORD) % WORD == x % WORD
  {
  }

  /** `buf` from `cursor` to `len` starts with report r, and the rest follows. */
  lemma NextReport(buf: bytes, cursor: nat, len: nat, reports: seq<bytes>, tail: bytes)
    requires cursor <= len <= |buf| && buf[cursor..len] == Concat(reports) + tail && reports != []
    ensures var n := |reports[0]|;
      && cursor + n <= len && reports[0] <= buf[cursor..] && buf[cursor + n..len] == Concat(reports[1..]) + tail
  {
    var here, n := buf[cursor..len], |reports[0]|;
    assert here == reports[0] + (Concat(reports[1..]) + tail);
    assert here[..n] == reports[0] && here[n..] == Concat(reports[1..]) + tail;
    assert buf[cursor + n..len] == here[n..] && buf[cursor..][..n] == here[..n];
  }

  /** `out` is what reading `reports` after `before` must produce, when `tail` follows them. */
  ghost predicate Reads(out: Output, table: seq<Length>, before: seq<bytes>, reports: seq<bytes>, tail: bytes,
                        time: nat)
    requires AllWhole(table, reports)
  {
    out.known == (tail == []) && out.flushes == FlushesOf(table, reports)
      && AllStamped(out.events, DueOf(table, before, reports, time))
  }

  lemma ReadsMore(table: seq<Length>, before: seq<bytes>, reports: seq<bytes>, first: Output, rest: Output,
                  tail: bytes, time: nat)
    requires AllWhole(table, reports) && reports != []
    requires Reads(rest, table, before + [reports[0]], reports[1..], tail, time)
    requires var r := reports[0];
      && first.known && first.flushes == (if r[0] == 0xEF then [r] else [])
      && AllStamped(first.events, if OfSensor(r) then [Due(time, (Reference(before) + Delay(r)) * 100, r)] else [])
    ensures Reads(first.Then(rest), table, before, reports, tail, time)
  {
  }

  /** Reports laid end to end are read back one by one: the events are exactly the sensor
      reports, in order, the reports routed are the flush reports, and an unknown report behind
      them ends the walk. */
  lemma {:induction false} WalkConcat(table: seq<Length>, before: seq<bytes>, reports: seq<bytes>, tail: bytes,
                                      buf: bytes, cursor: nat, len: nat, delta: u32, hi: u32, hostInt: u32, time: nat)
    requires len + 0x100 <= |buf| && cursor <= len && buf[cursor..len] == Concat(reports) + tail
    requires tail != [] ==> TableLen(table, tail[0]) == 0
    requires AllWhole(table, reports) && delta == Mod32(Reference(before)) && time == hi * WORD + hostInt
    ensures Reads(Walk(table, buf, cursor, len, delta, hi, hostInt), table, before, reports, tail, time)
    decreases |reports|
  {
    if reports == [] {
      assert buf[cursor..len] == tail;
    } else {
      var r, p := reports[0], buf[cursor..];
      NextReport(buf, cursor, len, reports, tail);
      var delta', next := NextDelta(delta, p), cursor + |r|;
      ReferenceStep(table, before, r, delta, p);
      WalkConcat(table, before + [r], reports[1..], tail, buf, next, len, delta', hi, hostInt, time);
      WalkStep(table, buf, cursor, len, delta, hi, hostInt, |r|, next, delta');
      ReadsFirst(table, before, reports, tail, p, delta, hi, hostInt, time,
        Walk(table, buf, next, len, delta', hi, hostInt));
    }
  }

  /** The first report and then the others. */
  lemma ReadsFirst(table: seq<Length>, before: seq<bytes>, reports: seq<bytes>, tail: bytes, p: bytes, delta: u32,
                   hi: u32, hostInt: u32, time: nat, rest: Output)
    requires AllWhole(table, reports) && reports != [] && |p| >= 5 && reports[0] <= p
    requires delta == Mod32(Reference(before)) && time == hi * WORD + hostInt
    requires Reads(rest, table, before + [reports[0]], reports[1..], tail, time)
    ensures Reads(Emit(p, |reports[0]|, delta, hi, hostInt).Then(rest), table, before, reports, tail, time)
  {
    var first := Emit(p, |reports[0]|, delta, hi, hostInt);
    EmitWhole(table, before, reports[0], delta, p, hi, hostInt, time);
    ReadsMore(table, before, reports, first, rest, tail, time);
  }

  /** Each report that goes into an event has room there. */
  predicate AllHaveRoom(reports: seq<bytes>) {
    reports != [] ==> (OfSensor(reports[0]) ==> |reports[0]| <= 16) && AllHaveRoom(reports[1..])
  }

  lemma {:induction false} CopiesFitConcat(table: seq<Length>, reports: seq<bytes>, tail: bytes, buf: bytes,
                                           cursor: nat, len: nat)
    requires len + 0x100 <= |buf| && cursor <= len && buf[cursor..len] == Concat(reports) + tail
    requires AllWhole(table, reports) && (tail != [] ==> TableLen(table, tail[0]) == 0)
    ensures CopiesFit(table, buf, cursor, len) <==> AllHaveRoom(reports)
    decreases |reports|
  {
    if reports == [] {
      assert buf[cursor..len] == tail;
    } else {
      var r, rest := reports[0], reports[1..];
      NextReport(buf, cursor, len, reports, tail);
      assert WholeReport(table, r) && buf[cursor..][0] == r[0];
      CopiesFitConcat(table, rest, tail, buf, cursor + |r|, len);
    }
  }

  /** The handler on a payload made of whole reports, whatever follows it in memory: it reads
      them all back, and its copies stay inside the event exactly when no sensor report is
      longer than 16 bytes. Behind them there may be a report with an unknown id, which ends it. */
  lemma ParserInvertsConcat(table: seq<Length>, reports: seq<bytes>, tail: bytes, after: bytes, hi: u32, hostInt: u32)
    requires |after| >= 0x100 && AllWhole(table, reports) && (tail != [] ==> TableLen(table, tail[0]) == 0)
    ensures var payload := Concat(reports) + tail;
      && Reads(Walk(table, payload + after, 0, |payload|, 0, hi, hostInt), table, [], reports, tail,
        hi * WORD + hostInt)
      && (CopiesFit(table, payload + after, 0, |payload|) <==> AllHaveRoom(reports))
  {
    var payload := Concat(reports) + tail;
    assert (payload + after)[0..|payload|] == payload;
    WalkConcat(table, [], reports, tail, payload + after, 0, |payload|, 0, hi, hostInt, hi * WORD + hostInt);
    CopiesFitConcat(table, reports, tail, payload + after, 0, |payload|);
  }

  // ---------- Runs ----------

  /** A payload of whole reports, and perhaps an unknown one, what follows it in memory, and when
      it arrived. */
  datatype Payload = Payload(reports: seq<bytes>, tail: bytes, after: bytes, time: nat) {
    function Bytes(): bytes {
      Concat(reports) + tail
    }

    predicate Whole(table: seq<Length>) {
      && AllWhole(table, reports) && AllHaveRoom(reports)
      && (tail != [] ==> TableLen(table, tail[0]) == 0)
      && |after| >= 0x100 && |Bytes()| + |after| <= 0xFFFF
    }

    predicate HasSensor() {
      exists r <- reports :: OfSensor(r)
    }
  }

  predicate AllPayloads(table: seq<Length>, payloads: seq<Payload>) {
    forall p <- payloads :: p.Whole(table)
  }

  /** The time of the last payload with a sensor report, or `last` when there is none. */
  function LastTime(last: nat, p: Payload): nat {
    if p.HasSensor() then p.time else last
  }

  /** Payloads with sensor reports follow each other by less than 2^32 microseconds; `last` is
      the time of the one before. */
  predicate Paced(payloads: seq<Payload>, last: nat) {
    payloads != [] ==>
      && (payloads[0].HasSensor() ==> last <= payloads[0].time < Min(last + WORD, WORD * WORD))
      && Paced(payloads[1..], LastTime(last, payloads[0]))
  }

  ghost function AllDue(table: seq<Length>, payloads: seq<Payload>): seq<Due>
    requires AllPayloads(table, payloads)
  {
    if payloads == [] then []
    else
      assert payloads[0].Whole(table);
      DueOf(table, [], payloads[0].reports, payloads[0].time) + AllDue(table, payloads[1..])
  }

  ghost function AllFlushes(table: seq<Length>, payloads: seq<Payload>): seq<bytes>
    requires AllPayloads(table, payloads)
  {
    if payloads == [] then []
    else
      assert payloads[0].Whole(table);
      FlushesOf(table, payloads[0].reports) + AllFlushes(table, payloads[1..])
  }

  lemma {:induction false} NoneDue(table: seq<Length>, before: seq<bytes>, reports: seq<bytes>, t: nat, t': nat)
    requires AllWhole(table, reports)
    ensures DueOf(table, before, reports, t) == [] <==> !Payload(reports, [], [], t).HasSensor()
    ensures |DueOf(table, before, reports, t)| == |DueOf(table, before, reports, t')|
    decreases |reports|
  {
    if reports != [] {
      assert WholeReport(table, reports[0]) && reports == [reports[0]] + reports[1..];
      NoneDue(table, before + [reports[0]], reports[1..], t, t');
    }
  }

  /** The clock has caught up with the payload's arrival time when there is anything to stamp. */
  lemma PayloadStamped(table: seq<Length>, p: Payload, last: nat, rollovers: u32, lastHost: u32, low: u32, hi: u32,
                       time: nat)
    requires p.Whole(table) && last == rollovers * WORD + lastHost && Paced([p], last)
    requires low == p.time % WORD && hi == Rolled(rollovers, lastHost, low) && time == hi * WORD + low
    ensures var payload := p.Bytes();
      var out := Walk(table, payload + p.after, 0, |payload|, 0, hi, low);
      && Reads(out, table, [], p.reports, p.tail, p.time) && (out.events == [] <==> !p.HasSensor())
      && CopiesFit(table, payload + p.after, 0, |payload|)
    ensures p.HasSensor() ==> time == p.time
  {
    ParserInvertsConcat(table, p.reports, p.tail, p.after, hi, low);
    NoneDue(table, [], p.reports, p.time, time);
    assert p.HasSensor() == Payload(p.reports, [], [], p.time).HasSensor();
    if p.HasSensor() {
      StepReconstructed(last, p.time, rollovers, lastHost);
    }
  }

  /** One payload through the handler. */
  method InputOne(input: Input, p: Payload, ghost last: nat) returns (ghost made: seq<Event>)
    requires p.Whole(input.table) && input.clock.Follows(last) && Paced([p], last)
    modifies input`events, input`flushes, input`unknownReportIds, input.clock
    ensures input.clock.Follows(LastTime(last, p))
    ensures input.unknownReportIds == if p.tail == [] then old(input.unknownReportIds)
      else Next32(old(input.unknownReportIds))
    ensures AllStamped(made, DueOf(input.table, [], p.reports, p.time))
    ensures input.events == old(input.events) + (if input.sensorCallback then made else [])
    ensures input.flushes == old(input.flushes) + FlushesOf(input.table, p.reports)
  {
    ghost var low: u32 := p.time % WORD;
    ghost var hi := Rolled(input.clock.rollovers, input.clock.lastHostInt, low);
    PayloadStamped(input.table, p, last, input.clock.rollovers, input.clock.lastHostInt, low, hi, hi * WORD + low);
    ghost var out := input.InputHdlr(p.Bytes() + p.after, |p.Bytes()|, p.time % WORD);
    made := out.events;
  }

  /** The counter of unknown ids: one more for each payload that ends in one. */
  function AfterUnknown(payloads: seq<Payload>, count: u32): u32 {
    if payloads == [] then count
    else AfterUnknown(payloads[1..], if payloads[0].tail == [] then count else Next32(count))
  }

  lemma DueFirst(table: seq<Length>, payloads: seq<Payload>, p: Payload, rest: seq<Payload>, first: seq<Event>,
                 more: seq<Event>)
    requires AllPayloads(table, payloads) && payloads != [] && p == payloads[0] && rest == payloads[1..]
      && p.Whole(table)
    requires AllStamped(first, DueOf(table, [], p.reports, p.time)) && AllStamped(more, AllDue(table, rest))
    ensures AllStamped(first + more, AllDue(table, payloads))
  {
  }

  /** Over a whole run of payloads, given only the low words of their arrival times: the events
      are the sensor reports in order, each stamped with its true time exactly when that leaves
      the upper word alone, and the flush reports go to the operation, in order. */
  method InputRun(input: Input, payloads: seq<Payload>, ghost last: nat) returns (ghost made: seq<Event>)
    requires AllPayloads(input.table, payloads) && input.clock.Follows(last) && Paced(payloads, last)
    modifies input`events, input`flushes, input`unknownReportIds, input.clock
    ensures AllStamped(made, AllDue(input.table, payloads))
    ensures input.events == old(input.events) + (if input.sensorCallback then made else [])
    ensures input.flushes == old(input.flushes) + AllFlushes(input.table, payloads)
    ensures input.unknownReportIds == AfterUnknown(payloads, old(input.unknownReportIds))
    decreases |payloads|
  {
    made := [];
    if payloads != [] {
      var p, rest := payloads[0], payloads[1..];
      assert p.Whole(input.table) && Paced([p], last);
      ghost var first := InputOne(input, p, last);
      ghost var more := InputRun(input, rest, LastTime(last, p));
      DueFirst(input.table, payloads, p, rest, first, more);
      made := first + more;
    }
  }

  /** Without arrival times, which are then all zero, a stamp is the bare offset modulo 2^32:
      right when the offset is not negative, and otherwise 2^32 late. */
  lemma WithoutArrivalTimes(e: Event, d: Due)
    requires Stamped(e, d) && d.time == 0
    ensures e.timestamp == Mod32(d.offset)
    ensures e.timestamp == d.offset <==> 0 <= d.offset < WORD
    ensures -WORD <= d.offset < 0 ==> e.timestamp == d.offset + WORD
  {
  }
}
