/**
 * The operation engine (sh2.c, opStart, opRx, opCompleted, opProcess), the two handlers that
 * feed it, and the numbering of commands (sendCmd, wrongResponse).
 */
module Sh2Ops {
  import opened Bytes
  import opened Sh2Err
  import opened Sh2Input
  import opened Sh2Config

  // ---------- Operations ----------

  /** An operation as the engine sees it: what its start method returns and whether start has
      completed it by then, and its receive handler. What a handler decides depends on the
      reports it has been handed: Some(status) when the latest one completes the operation. */
  datatype Op = Op(timeout: u32, startRc: int, startCompletes: Option<int>, rx: Option<seq<bytes> -> Option<int>>)

  /** How far an operation has come. */
  datatype Progress = Progress(handed: seq<bytes>, done: Option<int>)

  function Begun(op: Op): Progress {
    Progress([], op.startCompletes)
  }

  function Hand(op: Op, p: Progress, report: bytes): Progress {
    if p.done.Some? || op.rx.None? then p
    else var handed := p.handed + [report]; Progress(handed, op.rx.value(handed))
  }

  function HandAll(op: Op, p: Progress, reports: seq<bytes>): Progress {
    if reports == [] then p else Hand(op, HandAll(op, p, reports[..|reports| - 1]), reports[|reports| - 1])
  }

  lemma HandMore(op: Op, p: Progress, most: seq<bytes>, r: bytes)
    ensures HandAll(op, p, most + [r]) == Hand(op, HandAll(op, p, most), r)
  {
    assert (most + [r])[..|most|] == most;
  }

  lemma {:induction false} HandConcat(op: Op, p: Progress, a: seq<bytes>, b: seq<bytes>)
    ensures HandAll(op, p, a + b) == HandAll(op, HandAll(op, p, a), b)
    decreases |b|
  {
    if b == [] {
      assert a + b == a;
    } else {
      assert (a + b)[..|a + b| - 1] == a + b[..|b| - 1];
      HandConcat(op, p, a, b[..|b| - 1]);
    }
  }

  predicate Undecided(op: Op, handed: seq<bytes>, k: nat)
    requires op.rx.Some? && k <= |handed|
  {
    op.rx.value(handed[..k]).None?
  }

  /** The handler has been given every report, in order, up to the one that completed the
      operation, and none after it. */
  ghost predicate HandedUntilDone(op: Op, p: Progress, reports: seq<bytes>)
    requires op.rx.Some?
  {
    && p.handed <= reports
    && (forall k :: 0 < k < |p.handed| ==> Undecided(op, p.handed, k))
    && (if p.done.Some? then p.handed != [] && op.rx.value(p.handed) == p.done
        else p.handed == reports && (reports != [] ==> op.rx.value(reports).None?))
  }

  lemma HandKeeps(op: Op, p: Progress, most: seq<bytes>, r: bytes)
    requires op.rx.Some? && HandedUntilDone(op, p, most)
    ensures HandedUntilDone(op, Hand(op, p, r), most + [r])
  {
    if p.done.None? {
      var handed := most + [r];
      forall k | 0 < k < |handed| ensures Undecided(op, handed, k) {
        if k < |most| {
          assert Undecided(op, most, k);
        }
        assert handed[..k] == most[..k];
        assert most[..|most|] == most;
      }
    }
  }

  lemma {:induction false} HandAllUntilDone(op: Op, reports: seq<bytes>)
    requires op.rx.Some? && op.startCompletes.None?
    ensures HandedUntilDone(op, HandAll(op, Begun(op), reports), reports)
    decreases |reports|
  {
    if reports != [] {
      var most, r := reports[..|reports| - 1], reports[|reports| - 1];
      HandAllUntilDone(op, most);
      HandKeeps(op, HandAll(op, Begun(op), most), most, r);
      assert most + [r] == reports;
    }
  }

  // ---------- Cutting a payload ----------

  /** The channel a payload comes in on: everything on the control channel goes to the
      operation, and of the sensor reports only the flush reports. */
  datatype Source = Control | SensorInput

  /** Bytes of memory from the start of a payload of `len` bytes. */
  datatype Cargo = Cargo(source: Source, buf: bytes, len: nat) {
    predicate Valid() {
      len + 0x100 <= |buf| <= 0xFFFF
    }
  }

  /** The reports of a payload, the features that the feature responses among them announce,
      and whether every id was known. */
  datatype Cut = Cut(reports: seq<bytes>, features: seq<Feature>, known: bool) {
    function Then(c: Cut): Cut {
      Cut(reports + c.reports, features + c.features, c.known)
    }
  }

  /** One report of n bytes at the start of `p`. */
  function One(p: bytes, n: nat): Cut
    requires |p| >= FEATURE_LEN && n <= |p|
  {
    Cut([p[..n]], FeatureAt(p), true)
  }

  /** The feature that the report at the start of `p` announces, if it is a feature response. */
  function FeatureAt(p: bytes): seq<Feature> {
    if |p| >= FEATURE_LEN && p[0] == SENSORHUB_GET_FEATURE_RESP then [FeatureIn(p)] else []
  }

  /** The reports from `cursor` on; an unknown id ends the cut. */
  ghost function CutFrom(table: seq<Length>, c: Cargo, cursor: nat): Cut
    requires c.Valid()
    decreases c.len - cursor
  {
    if cursor >= c.len then Cut([], [], true)
    else
      var n: nat := TableLen(table, c.buf[cursor]);
      if n == 0 then Cut([], [], false) else One(c.buf[cursor..], n).Then(CutFrom(table, c, cursor + n))
  }

  /** `all` is what has been cut so far, followed by the cut from `cursor` on. */
  ghost predicate CutLeft(table: seq<Length>, c: Cargo, cursor: nat, done: Cut, all: Cut)
    requires c.Valid()
  {
    all == done.Then(CutFrom(table, c, cursor))
  }

  /** The first report and then the others make the whole. */
  lemma CutFirst(table: seq<Length>, c: Cargo, cursor: nat, n: nat, next: nat)
    requires c.Valid() && cursor < c.len && 0 < n == TableLen(table, c.buf[cursor]) && next == cursor + n
    ensures CutFrom(table, c, cursor) == One(c.buf[cursor..], n).Then(CutFrom(table, c, next))
  {
  }

  lemma CutStep(table: seq<Length>, c: Cargo, cursor: nat, done: Cut, all: Cut, n: nat, next: nat)
    requires c.Valid() && cursor < c.len && CutLeft(table, c, cursor, done, all)
    requires n == TableLen(table, c.buf[cursor]) && next == cursor + n
    ensures if n == 0 then all == Cut(done.reports, done.features, false)
            else CutLeft(table, c, next, done.Then(One(c.buf[cursor..], n)), all)
  {
    if n > 0 {
      CutFirst(table, c, cursor, n, next);
      CutAssociates(done, One(c.buf[cursor..], n), CutFrom(table, c, next), CutFrom(table, c, cursor), all);
    }
  }

  lemma CutEnd(table: seq<Length>, c: Cargo, cursor: nat, done: Cut, all: Cut)
    requires c.Valid() && cursor >= c.len && CutLeft(table, c, cursor, done, all)
    ensures all == Cut(done.reports, done.features, true)
  {
  }

  lemma CutAssociates(a: Cut, b: Cut, c: Cut, bc: Cut, all: Cut)
    requires all == a.Then(bc) && bc == b.Then(c)
    ensures all == a.Then(b).Then(c)
  {
  }

  /** A report with id 0xFC and all its fields announces one feature, no other announces any. */
  lemma FeatureAnnounced(p: bytes)
    ensures |p| >= 17 && p[0] == 0xFC ==> FeatureAt(p) == [FeatureIn(p)]
    ensures |p| < 17 || p[0] != 0xFC ==> FeatureAt(p) == []
  {
  }

  function FeaturesOf(reports: seq<bytes>): seq<Feature> {
    if reports == [] then [] else FeatureAt(reports[0]) + FeaturesOf(reports[1..])
  }

  /** A report of the table's length; a feature response has all its fields. */
  predicate WholeControl(table: seq<Length>, r: bytes) {
    r != [] && |r| == TableLen(table, r[0]) && (r[0] == SENSORHUB_GET_FEATURE_RESP ==> |r| >= FEATURE_LEN)
  }

  predicate AllWholeControl(table: seq<Length>, reports: seq<bytes>) {
    forall r <- reports :: WholeControl(table, r)
  }

  lemma FeatureInFront(r: bytes, p: bytes)
    requires FEATURE_LEN <= |r| && r <= p
    ensures FeatureIn(p) == FeatureIn(r)
  {
    assert forall i :: 0 <= i < FEATURE_LEN ==> p[i] == r[i];
  }

  lemma OneWhole(table: seq<Length>, r: bytes, p: bytes)
    requires WholeControl(table, r) && |p| >= FEATURE_LEN && r <= p
    ensures One(p, |r|) == Cut([r], FeatureAt(r), true)
  {
    assert p[..|r|] == r && r[0] == p[0];
    if r[0] == SENSORHUB_GET_FEATURE_RESP {
      FeatureInFront(r, p);
    }
  }

  /** Reports laid end to end, perhaps with an unknown one behind them, are cut exactly where they
      were joined, the features announced are those of the feature responses, in order, and an
      unknown report ends the cut. */
  lemma {:induction false} CutInvertsConcat(table: seq<Length>, reports: seq<bytes>, tail: bytes, c: Cargo, cursor: nat)
    requires c.Valid() && cursor <= c.len && c.buf[cursor..c.len] == Concat(reports) + tail
    requires AllWholeControl(table, reports) && (tail != [] ==> TableLen(table, tail[0]) == 0)
    ensures CutFrom(table, c, cursor) == Cut(reports, FeaturesOf(reports), tail == [])
    decreases |reports|
  {
    if reports == [] {
      assert c.buf[cursor..c.len] == tail;
    } else {
      var r, rest, p := reports[0], reports[1..], c.buf[cursor..];
      var next := cursor + |r|;
      NextReport(c.buf, cursor, c.len, reports, tail);
      assert WholeControl(table, r) && r[0] == p[0];
      CutInvertsConcat(table, rest, tail, c, next);
      CutFirst(table, c, cursor, |r|, next);
      OneWhole(table, r, p);
      CutMore(reports, tail == []);
    }
  }

  lemma CutMore(reports: seq<bytes>, known: bool)
    requires reports != []
    ensures var r, rest := reports[0], reports[1..];
      Cut([r], FeatureAt(r), true).Then(Cut(rest, FeaturesOf(rest), known)) == Cut(reports, FeaturesOf(reports), known)
  {
  }

  // ---------- What goes to the operation ----------

  function OnlyFlushes(reports: seq<bytes>): seq<bytes> {
    if reports == [] then []
    else (if reports[0] != [] && reports[0][0] == FLUSH_COMPLETED then [reports[0]] else []) + OnlyFlushes(reports[1..])
  }

  function Routed(source: Source, reports: seq<bytes>): seq<bytes> {
    if source == Control then reports else OnlyFlushes(reports)
  }

  lemma {:induction false} OnlyFlushesMore(reports: seq<bytes>, r: bytes)
    requires r != []
    ensures OnlyFlushes(reports + [r]) == if r[0] == FLUSH_COMPLETED then OnlyFlushes(reports) + [r]
      else OnlyFlushes(reports)
  {
    if reports == [] {
      assert [] + [r] == [r] && [r][1..] == [];
    } else {
      assert (reports + [r])[1..] == reports[1..] + [r];
      OnlyFlushesMore(reports[1..], r);
    }
  }

  /** They are the ones that sensor input, walking the same payload, sets aside. */
  lemma {:induction false} FlushesAreWalked(table: seq<Length>, c: Cargo, cursor: nat, delta: u32, hi: u32,
                                            hostInt: u32)
    requires c.Valid()
    ensures var out := Walk(table, c.buf, cursor, c.len, delta, hi, hostInt);
      out.flushes == OnlyFlushes(CutFrom(table, c, cursor).reports) && out.known == CutFrom(table, c, cursor).known
    decreases c.len - cursor
  {
    if cursor < c.len {
      var p := c.buf[cursor..];
      var n: nat := TableLen(table, p[0]);
      var delta', next := NextDelta(delta, p), cursor + n;
      WalkStep(table, c.buf, cursor, c.len, delta, hi, hostInt, n, next, delta');
      if n > 0 {
        CutFirst(table, c, cursor, n, next);
        FlushesAreWalked(table, c, next, delta', hi, hostInt);
        FirstFlush(p[..n], CutFrom(table, c, next).reports);
      }
    }
  }

  lemma FirstFlush(r: bytes, more: seq<bytes>)
    requires r != []
    ensures OnlyFlushes([r] + more) == (if r[0] == FLUSH_COMPLETED then [r] else []) + OnlyFlushes(more)
  {
    assert ([r] + more)[1..] == more;
  }

  // ---------- The engine ----------

  /** One pass of opProcess's loop: what the transport delivers, and the time read afterwards. */
  datatype Step = Step(cargo: Option<Cargo>, now: u32) {
    predicate Valid() {
      cargo.Some? ==> cargo.value.Valid()
    }
  }

  ghost function ReportsOf(table: seq<Length>, step: Step): seq<bytes>
    requires step.Valid()
  {
    if step.cargo.None? then [] else Routed(step.cargo.value.source, CutFrom(table, step.cargo.value, 0).reports)
  }

  /** Sensor input stays inside its events. */
  ghost predicate InputFits(table: seq<Length>, step: Step)
    requires step.Valid()
  {
    step.cargo.Some? && step.cargo.value.source == SensorInput ==>
      CopiesFit(table, step.cargo.value.buf, 0, step.cargo.value.len)
  }

  ghost predicate AllFit(table: seq<Length>, steps: seq<Step>)
    requires AllValid(steps)
  {
    forall i :: 0 <= i < |steps| ==> InputFits(table, steps[i])
  }

  ghost predicate AllValid(steps: seq<Step>) {
    forall i :: 0 <= i < |steps| ==> steps[i].Valid()
  }

  /** Every report routed to the operation in the first k steps, in order. */
  ghost function Arrived(table: seq<Length>, steps: seq<Step>, k: nat): seq<bytes>
    requires AllValid(steps) && k <= |steps|
  {
    if k == 0 then [] else Arrived(table, steps, k - 1) + ReportsOf(table, steps[k - 1])
  }

  /** An operation's progress after the first k steps. */
  ghost function After(table: seq<Length>, op: Op, steps: seq<Step>, k: nat): Progress
    requires AllValid(steps) && k <= |steps|
  {
    HandAll(op, Begun(op), Arrived(table, steps, k))
  }

  /** Over any number of service steps the handler has been given what arrived, up to the
      report that completed the operation and no further. */
  lemma AfterUntilDone(table: seq<Length>, op: Op, steps: seq<Step>, k: nat)
    requires AllValid(steps) && k <= |steps| && op.rx.Some? && op.startCompletes.None?
    ensures HandedUntilDone(op, After(table, op, steps, k), Arrived(table, steps, k))
  {
    HandAllUntilDone(op, Arrived(table, steps, k));
  }

  /** Time between two readings of a 32-bit microsecond clock. */
  function Elapsed(start: u32, now: u32): u32 {
    if now >= start then now - start else now + WORD - start
  }

  /** The difference of two readings is the true elapsed time exactly when less than 2^32
      microseconds have passed, rollover or not. */
  lemma ElapsedIff(t0: nat, t: nat)
    requires t0 <= t
    ensures Elapsed(t0 % WORD, t % WORD) == t - t0 <==> t - t0 < WORD
  {
    assert t0 == t0 / WORD * WORD + t0 % WORD && t == t / WORD * WORD + t % WORD;
  }

  ghost predicate TimedOut(op: Op, start: u32, steps: seq<Step>, k: nat)
    requires k <= |steps|
  {
    op.timeout != 0 && k > 0 && Elapsed(start, steps[k - 1].now) >= op.timeout
  }

  /** After k steps the operation is over. */
  ghost predicate Over(table: seq<Length>, op: Op, start: u32, steps: seq<Step>, k: nat)
    requires AllValid(steps) && k <= |steps|
  {
    After(table, op, steps, k).done.Some? || TimedOut(op, start, steps, k)
  }

  /** The loop of opProcess after k steps: not over before, progress p, clock read as `now`. */
  ghost predicate Polling(table: seq<Length>, op: Op, start: u32, steps: seq<Step>, k: nat, p: Progress, now: u32)
    requires AllValid(steps) && k <= |steps|
  {
    && p == After(table, op, steps, k) && now == (if k == 0 then start else steps[k - 1].now)
    && NotBefore(table, op, start, steps, k)
  }

  /** The operation is not over after any smaller number of steps. */
  ghost predicate NotBefore(table: seq<Length>, op: Op, start: u32, steps: seq<Step>, k: nat)
    requires AllValid(steps) && k <= |steps|
  {
    k == 0 || (NotBefore(table, op, start, steps, k - 1) && !Over(table, op, start, steps, k - 1))
  }

  /** The loop's own exit test says whether the operation is over. */
  lemma OverIff(table: seq<Length>, op: Op, start: u32, steps: seq<Step>, k: nat, p: Progress, now: u32)
    requires AllValid(steps) && k <= |steps| && Polling(table, op, start, steps, k, p, now)
    ensures Over(table, op, start, steps, k) <==> p.done.Some? || (op.timeout != 0 && Elapsed(start, now) >= op.timeout)
  {
  }

  lemma PollStep(table: seq<Length>, op: Op, start: u32, steps: seq<Step>, k: nat, next: nat, p: Progress, now: u32)
    requires AllValid(steps) && k < |steps| && next == k + 1 && Polling(table, op, start, steps, k, p, now)
    requires !Over(table, op, start, steps, k)
    ensures Polling(table, op, start, steps, next, HandAll(op, p, ReportsOf(table, steps[k])), steps[k].now)
  {
    HandConcat(op, Begun(op), Arrived(table, steps, k), ReportsOf(table, steps[k]));
  }

  /** How a call ends after k steps. */
  ghost predicate Ended(table: seq<Length>, op: Op, start: u32, steps: seq<Step>, k: nat, rc: int)
    requires AllValid(steps) && k <= |steps|
  {
    && Over(table, op, start, steps, k) && NotBefore(table, op, start, steps, k)
    && var p := After(table, op, steps, k);
       rc == if p.done.Some? then p.done.value else SH2_ERR_TIMEOUT
  }

  /** So the step at which a call ends is the first one after which the operation is over. */
  lemma {:induction false} EndsAtFirst(table: seq<Length>, op: Op, start: u32, steps: seq<Step>, k: nat, i: nat)
    requires AllValid(steps) && i < k <= |steps| && NotBefore(table, op, start, steps, k)
    ensures !Over(table, op, start, steps, i)
  {
    if i < k - 1 {
      EndsAtFirst(table, op, start, steps, k - 1, i);
    }
  }

  class Engine {
    var table: seq<Length>
    var pOp: Option<Op>
    var opStatus: int
    var handed: seq<bytes>        // reports given to the handler of the latest operation
    var emptyPayloads: u32
    var unknownReportIds: u32
    var eventCallback: bool       // an event callback is set
    var asyncEvents: seq<Feature> // Get Feature events reported to it

    constructor (table: seq<Length>)
      ensures this.table == table && pOp == None && !eventCallback && asyncEvents == []
    {
      this.table := table;
      pOp, opStatus, handed := None, SH2_OK, [];
      emptyPayloads, unknownReportIds := 0, 0;
      eventCallback, asyncEvents := false, [];
    }

    /** Operation `op` has come as far as `p`: registered until it is done. */
    ghost predicate At(op: Op, p: Progress)
      reads this
    {
      handed == p.handed && if p.done.Some? then pOp == None && opStatus == p.done.value else pOp == Some(op)
    }

    method OpCompleted(status: int)
      modifies this`opStatus, this`pOp
      ensures opStatus == status && pOp == None
    {
      opStatus := status;
      pOp := None;
    }

    /** Refused while another operation is registered; a start that fails leaves none. */
    method OpStart(op: Op) returns (rc: int)
      modifies this`opStatus, this`pOp, this`handed
      ensures old(pOp).Some? ==>
        rc == -3 && pOp == old(pOp) && opStatus == old(opStatus) && handed == old(handed)
      ensures old(pOp).None? ==> rc == op.startRc
      ensures old(pOp).None? && rc != SH2_OK ==> pOp == None && opStatus == rc
      ensures old(pOp).None? && rc == SH2_OK ==> At(op, Begun(op))
    {
      if pOp.Some? {
        return SH2_ERR_OP_IN_PROGRESS;
      }
      pOp := Some(op);
      opStatus, handed := SH2_OK, [];
      if op.startCompletes.Some? {
        OpCompleted(op.startCompletes.value);
      }
      rc := op.startRc;
      if rc != SH2_OK {
        opStatus := rc;
        pOp := None;
      }
    }

    /** An idle engine is `At` any operation that is done with the current status, so the
        precondition only names where the engine is. */
    method OpRx(payload: bytes, ghost op: Op, ghost p: Progress)
      requires At(op, p)
      modifies this`opStatus, this`pOp, this`handed
      ensures At(op, Hand(op, p, payload))
    {
      if pOp.Some? && pOp.value.rx.Some? {
        handed := handed + [payload];
        var done := pOp.value.rx.value(handed);
        if done.Some? {
          OpCompleted(done.value);
        }
      }
    }

    /** The events reported since there were only those in `before`. */
    ghost predicate Announced(before: seq<Feature>, features: seq<Feature>)
      reads this
    {
      asyncEvents == before + if eventCallback then features else []
    }

    /** The operation has been handed these reports, and these events were reported. */
    ghost predicate Took(op: Op, p: Progress, cut: Cut, before: seq<Feature>)
      reads this
    {
      At(op, HandAll(op, p, cut.reports)) && Announced(before, cut.features)
    }

    /** A feature response is reported to the event callback, if there is one. */
    method Announce(here: bytes, ghost before: seq<Feature>, ghost features: seq<Feature>)
      requires |here| >= FEATURE_LEN && Announced(before, features)
      modifies this`asyncEvents
      ensures Announced(before, features + FeatureAt(here))
    {
      if here[0] == SENSORHUB_GET_FEATURE_RESP {
        if eventCallback {
          asyncEvents := asyncEvents + [FeatureIn(here)];
        }
      }
    }

    /** sensorhubControlHdlr: every report of the payload goes to the operation in progress, and
        each feature response is an event of its own. */
    method ControlHdlr(c: Cargo, ghost op: Op, ghost p: Progress)
      requires c.Valid() && At(op, p)
      modifies this`opStatus, this`pOp, this`handed, this`emptyPayloads, this`unknownReportIds, this`asyncEvents
      ensures Took(op, p, CutFrom(table, c, 0), old(asyncEvents))
      ensures unknownReportIds == if CutFrom(table, c, 0).known then old(unknownReportIds)
        else Next32(old(unknownReportIds))
      ensures emptyPayloads == if c.len == 0 then Next32(old(emptyPayloads)) else old(emptyPayloads)
    {
      if c.len == 0 {
        emptyPayloads := Next32(emptyPayloads);
        return;
      }
      var known := ControlReports(c, op, p);
      if !known {
        unknownReportIds := Next32(unknownReportIds);
      }
    }

    /** Its loop: an unknown id ends it. */
    method ControlReports(c: Cargo, ghost op: Op, ghost p: Progress) returns (known: bool)
      requires c.Valid() && At(op, p)
      modifies this`opStatus, this`pOp, this`handed, this`asyncEvents
      ensures Took(op, p, CutFrom(table, c, 0), old(asyncEvents)) && known == CutFrom(table, c, 0).known
    {
      ghost var all, done := CutFrom(table, c, 0), Cut([], [], true);
      var cursor := 0;
      known := true;
      while cursor < c.len
        invariant CutLeft(table, c, cursor, done, all) && Took(op, p, done, old(asyncEvents)) && known
        decreases c.len - cursor
      {
        known, cursor, done := NextControl(c, cursor, op, p, done, all, old(asyncEvents));
        if !known {
          return;
        }
      }
      CutEnd(table, c, cursor, done, all);
    }

    /** One round of it. */
    method NextControl(c: Cargo, cursor: nat, ghost op: Op, ghost p: Progress, ghost done: Cut, ghost all: Cut,
                       ghost before: seq<Feature>)
        returns (known: bool, next: nat, ghost done': Cut)
      requires c.Valid() && cursor < c.len && CutLeft(table, c, cursor, done, all) && Took(op, p, done, before)
      modifies this`opStatus, this`pOp, this`handed, this`asyncEvents
      ensures Took(op, p, done', before)
      ensures known ==> cursor < next && CutLeft(table, c, next, done', all)
      ensures !known ==> all == Cut(done'.reports, done'.features, false)
    {
      var here := c.buf[cursor..];
      var reportLen := GetReportLen(table, c.buf[cursor]);
      known, next, done' := reportLen != 0, cursor + reportLen, done;
      CutStep(table, c, cursor, done, all, reportLen, next);
      if known {
        done' := done.Then(One(here, reportLen));
        HandMore(op, p, done.reports, here[..reportLen]);
        Announce(here, before, done.features);
        OpRx(here[..reportLen], op, HandAll(op, p, done.reports));
      }
    }

    /** sensorhubInputHdlr as far as it concerns the operation; Sh2Input has the rest of it. */
    method RouteFlushes(c: Cargo, ghost op: Op, ghost p: Progress)
      requires c.Valid() && CopiesFit(table, c.buf, 0, c.len) && At(op, p)
      modifies this`opStatus, this`pOp, this`handed, this`unknownReportIds
      ensures At(op, HandAll(op, p, OnlyFlushes(CutFrom(table, c, 0).reports)))
      ensures unknownReportIds == if CutFrom(table, c, 0).known then old(unknownReportIds)
        else Next32(old(unknownReportIds))
    {
      ghost var all, done := CutFrom(table, c, 0), Cut([], [], true);
      var cursor, known := 0, true;
      while cursor < c.len
        invariant unknownReportIds == old(unknownReportIds)
        invariant CutLeft(table, c, cursor, done, all) && At(op, HandAll(op, p, OnlyFlushes(done.reports)))
        decreases c.len - cursor
      {
        known, cursor, done := NextInput(c, cursor, op, p, done, all);
        if !known {
          unknownReportIds := Next32(unknownReportIds);
          return;
        }
      }
      CutEnd(table, c, cursor, done, all);
    }

    method NextInput(c: Cargo, cursor: nat, ghost op: Op, ghost p: Progress, ghost done: Cut, ghost all: Cut)
        returns (known: bool, next: nat, ghost done': Cut)
      requires c.Valid() && cursor < c.len && CutLeft(table, c, cursor, done, all)
      requires At(op, HandAll(op, p, OnlyFlushes(done.reports)))
      modifies this`opStatus, this`pOp, this`handed
      ensures At(op, HandAll(op, p, OnlyFlushes(done'.reports)))
      ensures known ==> cursor < next && CutLeft(table, c, next, done', all)
      ensures !known ==> all == Cut(done'.reports, done'.features, false)
    {
      var here := c.buf[cursor..];
      var reportLen := GetReportLen(table, c.buf[cursor]);
      known, next, done' := reportLen != 0, cursor + reportLen, done;
      CutStep(table, c, cursor, done, all, reportLen, next);
      if known {
        done' := done.Then(One(here, reportLen));
        OnlyFlushesMore(done.reports, here[..reportLen]);
        if here[0] == FLUSH_COMPLETED {
          // Routed as if it had come on the control channel.
          HandMore(op, p, OnlyFlushes(done.reports), here[..reportLen]);
          OpRx(here[..reportLen], op, HandAll(op, p, OnlyFlushes(done.reports)));
        }
      }
    }

    /** shtp_service delivers at most one cargo to one of the handlers. */
    method Service(step: Step, ghost op: Op, ghost p: Progress)
      requires step.Valid() && InputFits(table, step) && At(op, p)
      modifies this`opStatus, this`pOp, this`handed, this`emptyPayloads, this`unknownReportIds, this`asyncEvents
      ensures At(op, HandAll(op, p, ReportsOf(table, step)))
    {
      if step.cargo.Some? {
        match step.cargo.value.source
        case Control => ControlHdlr(step.cargo.value, op, p);
        case SensorInput => RouteFlushes(step.cargo.value, op, p);
      }
    }

    /** The body of opProcess's loop. */
    method Poll(op: Op, start: u32, steps: seq<Step>, k: nat, last: u32, ghost p: Progress)
        returns (next: nat, now: u32, ghost p': Progress)
      requires AllValid(steps) && AllFit(table, steps) && k < |steps| && At(op, p)
      requires Polling(table, op, start, steps, k, p, last)
      requires pOp.Some? && (op.timeout == 0 || Elapsed(start, last) < op.timeout)
      modifies this`opStatus, this`pOp, this`handed, this`emptyPayloads, this`unknownReportIds, this`asyncEvents
      ensures next == k + 1 && At(op, p') && Polling(table, op, start, steps, next, p', now)
    {
      next, now, p' := k + 1, steps[k].now, HandAll(op, p, ReportsOf(table, steps[k]));
      OverIff(table, op, start, steps, k, p, last);
      PollStep(table, op, start, steps, k, next, p, last);
      Service(steps[k], op, p);
    }

    /** Over a script of service steps. Unless the script ends first, the operation stops at
        the first step that completes it or finds it timed out, with that status, and no
        operation is registered; a call made while one is registered changes nothing. */
    method OpProcess(op: Op, start: u32, steps: seq<Step>) returns (rc: int, used: nat)
      requires AllValid(steps) && AllFit(table, steps)
      modifies this`opStatus, this`pOp, this`handed, this`emptyPayloads, this`unknownReportIds, this`asyncEvents
      ensures old(pOp).Some? ==>
        rc == -3 && pOp == old(pOp) && opStatus == old(opStatus) && handed == old(handed)
      ensures old(pOp).None? && op.startRc != SH2_OK ==> rc == op.startRc == opStatus && pOp == None
      ensures old(pOp).None? && op.startRc == SH2_OK ==>
        used <= |steps| &&
        if pOp == None then Ended(table, op, start, steps, used, rc) && rc == opStatus
        else used == |steps| && At(op, After(table, op, steps, used)) && !Over(table, op, start, steps, used)
    {
      used := 0;
      rc := OpStart(op);
      if rc != SH2_OK {
        return;
      }
      var now := start;
      ghost var p := Begun(op);
      while pOp.Some? && (op.timeout == 0 || Elapsed(start, now) < op.timeout) && used < |steps|
        invariant used <= |steps| && At(op, p) && Polling(table, op, start, steps, used, p, now)
      {
        used, now, p := Poll(op, start, steps, used, now, p);
      }
      OverIff(table, op, start, steps, used, p, now);
      if pOp.Some? && op.timeout != 0 && Elapsed(start, now) >= op.timeout {
        pOp := None;
        opStatus := SH2_ERR_TIMEOUT;
      }
      rc := opStatus;
    }
  }

  // ---------- What an operation is told, and how it ends ----------

  /** A payload as the hub sends it: whole reports end to end, and perhaps an unknown one. */
  datatype Load = Load(source: Source, reports: seq<bytes>, tail: bytes)

  /** The step delivers this payload, whatever follows it in memory, or none. */
  ghost predicate Bears(table: seq<Length>, step: Step, load: Option<Load>) {
    if load.None? then step.cargo == None
    else
      && step.cargo.Some? && step.cargo.value.Valid() && step.cargo.value.source == load.value.source
      && step.cargo.value.buf[..step.cargo.value.len] == Concat(load.value.reports) + load.value.tail
      && AllWholeControl(table, load.value.reports)
      && (load.value.tail != [] ==> TableLen(table, load.value.tail[0]) == 0)
  }

  /** Of these reports the ones with id 0xEF. */
  function FlushReports(reports: seq<bytes>): seq<bytes> {
    if reports == [] then []
    else
      var most, r := reports[..|reports| - 1], reports[|reports| - 1];
      FlushReports(most) + if r != [] && r[0] == 0xEF then [r] else []
  }

  /** What the operation is to hear: all reports of the control channel, and of the sensor
      channels the flush reports. */
  function Told(load: Option<Load>): seq<bytes> {
    match load
    case None => []
    case Some(Load(Control, reports, _)) => reports
    case Some(Load(SensorInput, reports, _)) => FlushReports(reports)
  }

  function AllTold(loads: seq<Option<Load>>): seq<bytes> {
    if loads == [] then [] else AllTold(loads[..|loads| - 1]) + Told(loads[|loads| - 1])
  }

  ghost predicate AllBear(table: seq<Length>, steps: seq<Step>, loads: seq<Option<Load>>) {
    |steps| == |loads| && forall i :: 0 <= i < |steps| ==> Bears(table, steps[i], loads[i])
  }

  lemma {:induction false} SameFlushes(reports: seq<bytes>)
    ensures OnlyFlushes(reports) == FlushReports(reports)
    decreases |reports|
  {
    if reports != [] {
      var most, r := reports[..|reports| - 1], reports[|reports| - 1];
      SameFlushes(most);
      assert reports == most + [r];
      if r != [] {
        OnlyFlushesMore(most, r);
      } else {
        OnlyFlushesNone(most, r);
      }
    }
  }

  lemma {:induction false} OnlyFlushesNone(reports: seq<bytes>, r: bytes)
    requires r == []
    ensures OnlyFlushes(reports + [r]) == OnlyFlushes(reports)
  {
    if reports == [] {
      assert [] + [r] == [r] && [r][1..] == [];
    } else {
      assert (reports + [r])[1..] == reports[1..] + [r];
      OnlyFlushesNone(reports[1..], r);
    }
  }

  /** What arrives is exactly that. */
  lemma ArrivesTold(table: seq<Length>, step: Step, load: Option<Load>)
    requires Bears(table, step, load)
    ensures step.Valid() && ReportsOf(table, step) == Told(load)
  {
    if load.Some? {
      var c := step.cargo.value;
      assert c.buf[0..c.len] == c.buf[..c.len];
      CutInvertsConcat(table, load.value.reports, load.value.tail, c, 0);
      SameFlushes(load.value.reports);
    }
  }

  lemma {:induction false} ArrivedTold(table: seq<Length>, steps: seq<Step>, loads: seq<Option<Load>>, k: nat)
    requires AllBear(table, steps, loads) && k <= |steps|
    ensures AllValid(steps) && Arrived(table, steps, k) == AllTold(loads[..k])
    decreases k
  {
    forall i | 0 <= i < |steps|
      ensures steps[i].Valid()
    {
      assert Bears(table, steps[i], loads[i]);
    }
    if k > 0 {
      ArrivedTold(table, steps, loads, k - 1);
      assert loads[..k][..k - 1] == loads[..k - 1] && Bears(table, steps[k - 1], loads[k - 1]);
      ArrivesTold(table, steps[k - 1], loads[k - 1]);
    }
  }

  /** The handler, given these reports one by one, completes for the first time with this
      status. */
  ghost predicate FirstCompletes(rx: seq<bytes> -> Option<int>, told: seq<bytes>, status: int) {
    exists m: nat :: m <= |told| && CompletesAt(rx, told, m, status)
  }

  ghost predicate CompletesAt(rx: seq<bytes> -> Option<int>, told: seq<bytes>, m: nat, status: int)
    requires m <= |told|
  {
    0 < m && rx(told[..m]) == Some(status) && forall i :: 0 < i < m ==> GoesOn(rx, told, i)
  }

  predicate GoesOn(rx: seq<bytes> -> Option<int>, told: seq<bytes>, i: nat)
    requires i <= |told|
  {
    rx(told[..i]) == None
  }

  ghost predicate NeverCompletes(rx: seq<bytes> -> Option<int>, told: seq<bytes>) {
    forall i :: 0 < i <= |told| ==> GoesOn(rx, told, i)
  }

  /** The 32-bit clock has moved on by the timeout since the start. */
  predicate Late(op: Op, start: u32, now: u32) {
    op.timeout != 0 && (now - start) % 0x1_0000_0000 >= op.timeout
  }

  lemma ProgressTold(table: seq<Length>, op: Op, steps: seq<Step>, loads: seq<Option<Load>>, k: nat)
    requires AllBear(table, steps, loads) && AllValid(steps) && k <= |steps| && op.rx.Some? && op.startCompletes.None?
    ensures var p := After(table, op, steps, k);
      if p.done.Some? then FirstCompletes(op.rx.value, AllTold(loads[..k]), p.done.value)
      else NeverCompletes(op.rx.value, AllTold(loads[..k]))
  {
    ArrivedTold(table, steps, loads, k);
    AfterUntilDone(table, op, steps, k);
    DoneTold(op, After(table, op, steps, k), AllTold(loads[..k]));
  }

  lemma DoneTold(op: Op, p: Progress, told: seq<bytes>)
    requires op.rx.Some? && HandedUntilDone(op, p, told)
    ensures if p.done.Some? then FirstCompletes(op.rx.value, told, p.done.value) else NeverCompletes(op.rx.value, told)
  {
    var m := |p.handed|;
    assert told[..m] == p.handed;
    forall i | 0 < i < m
      ensures GoesOn(op.rx.value, told, i)
    {
      assert Undecided(op, p.handed, i) && told[..i] == p.handed[..i];
    }
    if p.done.Some? {
      assert CompletesAt(op.rx.value, told, m, p.done.value);
    } else if told != [] {
      assert told[..|told|] == told;
    }
  }

  /** The operation ends at the first step by which its handler has completed it or its time is
      over, with the handler's status at the first completing report, or with a timeout. */
  lemma EndsTold(table: seq<Length>, op: Op, start: u32, steps: seq<Step>, loads: seq<Option<Load>>, k: nat, rc: int)
    requires AllBear(table, steps, loads) && AllValid(steps) && k <= |steps| && op.rx.Some? && op.startCompletes.None?
    requires Ended(table, op, start, steps, k, rc)
    ensures
      || FirstCompletes(op.rx.value, AllTold(loads[..k]), rc)
      || (rc == -6 && k > 0 && Late(op, start, steps[k - 1].now)
          && NeverCompletes(op.rx.value, AllTold(loads[..k])))
    ensures forall i: nat :: i < k ==> StillGoing(op, start, steps, loads, i)
  {
    OverTold(table, op, start, steps, loads, k);
    forall i: nat | i < k
      ensures StillGoing(op, start, steps, loads, i)
    {
      EndsAtFirst(table, op, start, steps, k, i);
      OverTold(table, op, start, steps, loads, i);
    }
  }

  lemma OverTold(table: seq<Length>, op: Op, start: u32, steps: seq<Step>, loads: seq<Option<Load>>, k: nat)
    requires AllBear(table, steps, loads) && AllValid(steps) && k <= |steps| && op.rx.Some? && op.startCompletes.None?
    ensures var p := After(table, op, steps, k);
      if p.done.Some? then FirstCompletes(op.rx.value, AllTold(loads[..k]), p.done.value)
      else NeverCompletes(op.rx.value, AllTold(loads[..k]))
    ensures TimedOut(op, start, steps, k) <==> k > 0 && Late(op, start, steps[k - 1].now)
  {
    ProgressTold(table, op, steps, loads, k);
    TimedOutIff(op, start, steps, k);
  }

  lemma TimedOutIff(op: Op, start: u32, steps: seq<Step>, k: nat)
    requires k <= |steps|
    ensures TimedOut(op, start, steps, k) <==> k > 0 && Late(op, start, steps[k - 1].now)
  {
    if k > 0 {
      ElapsedMod(start, steps[k - 1].now);
    }
  }

  ghost predicate StillGoing(op: Op, start: u32, steps: seq<Step>, loads: seq<Option<Load>>, i: nat)
    requires i <= |steps| == |loads| && op.rx.Some?
  {
    NeverCompletes(op.rx.value, AllTold(loads[..i])) && (i > 0 ==> !Late(op, start, steps[i - 1].now))
  }

  lemma ElapsedMod(start: u32, now: u32)
    ensures Elapsed(start, now) == (now - start) % 0x1_0000_0000
  {
  }

  /** opProcess over steps that deliver these payloads. An operation that its start completes
      ends with that status at once; any other ends with the status its handler gives at the
      first completing report of all that it is told, or with a timeout; without a handler it can
      only time out. */
  method RunOperation(e: Engine, op: Op, start: u32, steps: seq<Step>, ghost loads: seq<Option<Load>>)
      returns (rc: int, used: nat)
    requires AllBear(e.table, steps, loads) && AllValid(steps) && AllFit(e.table, steps)
    requires e.pOp == None && op.startRc == SH2_OK
    modifies e`opStatus, e`pOp, e`handed, e`emptyPayloads, e`unknownReportIds, e`asyncEvents
    ensures used <= |steps|
    ensures op.startCompletes.Some? ==> rc == op.startCompletes.value && used == 0 && e.pOp == None
    ensures op.startCompletes.None? && op.rx.Some? && e.pOp == None ==>
      && (FirstCompletes(op.rx.value, AllTold(loads[..used]), rc) ||
          (rc == -6 && used > 0 && Late(op, start, steps[used - 1].now)
           && NeverCompletes(op.rx.value, AllTold(loads[..used]))))
      && (forall i: nat :: i < used ==> StillGoing(op, start, steps, loads, i))
    ensures op.startCompletes.None? && op.rx.None? && e.pOp == None ==>
      rc == -6 && used > 0 && Late(op, start, steps[used - 1].now)
    ensures op.startCompletes.None? && op.rx.Some? && e.pOp != None ==>
      used == |steps| && NeverCompletes(op.rx.value, AllTold(loads))
        && (used > 0 ==> !Late(op, start, steps[used - 1].now))
  {
    ghost var table := e.table;
    rc, used := e.OpProcess(op, start, steps);
    assert loads[..|loads|] == loads;
    if op.startCompletes.Some? {
      DoneByStart(table, op, steps, used);
      StartEnds(table, op, start, steps, used, rc);
    } else if op.rx.Some? && e.pOp == None {
      EndsTold(table, op, start, steps, loads, used, rc);
    } else if op.rx.Some? {
      OverTold(table, op, start, steps, loads, used);
    } else {
      OnlyTimesOut(table, op, start, steps, used);
    }
  }

  lemma OnlyTimesOut(table: seq<Length>, op: Op, start: u32, steps: seq<Step>, k: nat)
    requires AllValid(steps) && k <= |steps| && op.rx.None? && op.startCompletes.None?
    ensures After(table, op, steps, k).done == None
    ensures Over(table, op, start, steps, k) ==> k > 0 && Late(op, start, steps[k - 1].now)
  {
    NoHandler(op, Begun(op), Arrived(table, steps, k));
    TimedOutIff(op, start, steps, k);
  }

  lemma {:induction false} NoHandler(op: Op, p: Progress, reports: seq<bytes>)
    requires op.rx.None?
    ensures HandAll(op, p, reports) == p
    decreases |reports|
  {
    if reports != [] {
      NoHandler(op, p, reports[..|reports| - 1]);
    }
  }

  lemma DoneByStart(table: seq<Length>, op: Op, steps: seq<Step>, k: nat)
    requires AllValid(steps) && k <= |steps| && op.startCompletes.Some?
    ensures After(table, op, steps, k).done == op.startCompletes
  {
    StaysDone(op, Begun(op), Arrived(table, steps, k));
  }

  lemma StartEnds(table: seq<Length>, op: Op, start: u32, steps: seq<Step>, k: nat, rc: int)
    requires AllValid(steps) && k <= |steps| && op.startCompletes.Some? && Ended(table, op, start, steps, k, rc)
    ensures k == 0 && rc == op.startCompletes.value
  {
    DoneByStart(table, op, steps, k);
    if k > 0 {
      DoneByStart(table, op, steps, 0);
      EndsAtFirst(table, op, start, steps, k, 0);
    }
  }

  lemma {:induction false} StaysDone(op: Op, p: Progress, reports: seq<bytes>)
    requires p.done.Some?
    ensures HandAll(op, p, reports) == p
    decreases |reports|
  {
    if reports != [] {
      StaysDone(op, p, reports[..|reports| - 1]);
    }
  }

  // ---------- Command numbering ----------

  const SENSORHUB_COMMAND_REQ: byte := 0xF2
  const SENSORHUB_COMMAND_RESP: byte := 0xF1
  const COMMAND_PARAMS := 9

  /** The sequence number of command i when the first one is numbered `base`. */
  function SeqOf(base: byte, i: nat): byte {
    Mod8(base + i)
  }

  class Commander {
    var lastCmdId: byte
    var cmdSeq: byte
    var nextCmdSeq: byte
    ghost var base: byte
    ghost var history: seq<byte>    // commands sent so far

    ghost predicate Valid()
      reads this
    {
      && nextCmdSeq == SeqOf(base, |history|)
      && (history != [] ==> lastCmdId == history[|history| - 1] && cmdSeq == SeqOf(base, |history| - 1))
    }

    constructor (nextCmdSeq: byte)
      ensures Valid() && history == [] && base == nextCmdSeq
    {
      lastCmdId, cmdSeq := 0, 0;
      this.nextCmdSeq := nextCmdSeq;
      base, history := nextCmdSeq, [];
    }

    /** The number is used up whether or not the transport accepts the request. */
    method SendCmd(cmd: byte, p: bytes) returns (req: bytes)
      requires Valid() && |p| == COMMAND_PARAMS
      modifies this
      ensures Valid() && base == old(base) && history == old(history) + [cmd]
      ensures req == [0xF2, SeqOf(base, |old(history)|), cmd] + p
    {
      lastCmdId := cmd;
      cmdSeq := nextCmdSeq;
      nextCmdSeq := Next8(nextCmdSeq);
      req := [SENSORHUB_COMMAND_REQ, cmdSeq, cmd] + p;
      SeqNext(base, |history|);
      history := history + [cmd];
    }

    method WrongResponse(resp: bytes) returns (wrong: bool)
      requires Valid() && |resp| >= 4
      ensures !wrong <==> resp[0] == 0xF1 && resp[2] == lastCmdId && resp[3] == cmdSeq
      ensures history != [] ==> (!wrong <==> Accepts(base, history, resp))
    {
      if resp[0] != SENSORHUB_COMMAND_RESP {
        return true;
      }
      if resp[2] != lastCmdId {
        return true;
      }
      if resp[3] != cmdSeq {
        return true;
      }
      return false;
    }
  }

  /** The response names the latest command and its number. */
  predicate Accepts(base: byte, history: seq<byte>, resp: bytes)
    requires |resp| >= 4 && history != []
  {
    resp[0] == SENSORHUB_COMMAND_RESP && resp[2] == history[|history| - 1] && resp[3] == SeqOf(base, |history| - 1)
  }

  lemma SeqNext(base: byte, i: nat)
    ensures SeqOf(base, i + 1) == Next8(SeqOf(base, i))
  {
  }

  /** A response to the command sent k commands ago is accepted exactly when it was the same
      command and k is a multiple of 256. */
  lemma AcceptedIff(base: byte, history: seq<byte>, k: nat, resp: bytes)
    requires k < |history| && |resp| >= 4
    requires var i := |history| - 1 - k;
      resp[0] == SENSORHUB_COMMAND_RESP && resp[2] == history[i] && resp[3] == SeqOf(base, i)
    ensures Accepts(base, history, resp) <==> history[|history| - 1 - k] == history[|history| - 1] && k % 0x100 == 0
  {
    var i := |history| - 1 - k;
    SeqGap(base + i, k);
  }

  /** So a response to any of the previous 255 commands is refused. */
  lemma StaleRefused(base: byte, history: seq<byte>, k: nat, resp: bytes)
    requires 0 < k < 0x100 && k < |history| && |resp| >= 4
    requires var i := |history| - 1 - k;
      resp[0] == SENSORHUB_COMMAND_RESP && resp[2] == history[i] && resp[3] == SeqOf(base, i)
    ensures !Accepts(base, history, resp)
  {
    AcceptedIff(base, history, k, resp);
  }
}
