/**
 * The GNSS byte loop of core 1 (main.cpp, core1_entry): bytes to lines with an overlong
 * rule, lines to three kinds of update, and the three-flag publication cycle.
 *
 * The specification keeps the history of lines; every flag, counter and snapshot of the
 * code is a function of it. The parsers are left uninterpreted: a part of the snapshot is
 * represented by the lines its parser has been given, in order.
 */
module GnssLines {
  import opened Bytes

  const LINE_SIZE := 220
  const NEWLINE := '\n'
  const RETURN := '\r'

  // ---------- Bytes to lines ----------

  datatype Event = Line(text: string) | Overlong

  datatype Spec = Spec(held: string, events: seq<Event>)

  function Feed(s: Spec, c: char): Spec {
    if c == RETURN then s
    else if c == NEWLINE then Spec("", s.events + [Line(s.held)])
    else if |s.held| < LINE_SIZE - 1 then s.(held := s.held + [c])
    else Spec("", s.events + [Overlong])
  }

  function FeedAll(s: Spec, stream: string): Spec
    decreases |stream|
  {
    if stream == "" then s else FeedAll(Feed(s, stream[0]), stream[1..])
  }

  function NoCr(t: string): string {
    if t == "" then "" else (if t[0] == RETURN then "" else [t[0]]) + NoCr(t[1..])
  }

  /** The last |t| mod 220 characters. */
  function Tail(t: string): string {
    t[|t| - |t| % LINE_SIZE..]
  }

  function Overlongs(n: nat): seq<Event> {
    if n == 0 then [] else Overlongs(n - 1) + [Overlong]
  }

  /** What a line of text that ends in a newline does to the history. */
  function LineEvents(seg: string): seq<Event> {
    Overlongs(|NoCr(seg)| / LINE_SIZE) + [Line(Tail(NoCr(seg)))]
  }

  lemma {:induction false} FeedConcat(s: Spec, a: string, b: string)
    ensures FeedAll(s, a + b) == FeedAll(FeedAll(s, a), b)
    decreases |a|
  {
    if a == "" {
      assert a + b == b;
    } else {
      assert (a + b)[1..] == a[1..] + b;
      FeedConcat(Feed(s, a[0]), a[1..], b);
    }
  }

  /** One pass of the core's loop takes whatever the ring holds. */
  function FeedChunks(s: Spec, chunks: seq<string>): Spec
    decreases |chunks|
  {
    if chunks == [] then s else FeedChunks(FeedAll(s, chunks[0]), chunks[1..])
  }

  /** However the stream is cut into passes, the result is that of the whole stream. */
  lemma {:induction false} ChunkingIrrelevant(s: Spec, chunks: seq<string>)
    ensures FeedChunks(s, chunks) == FeedAll(s, Concat(chunks))
    decreases |chunks|
  {
    if chunks != [] {
      ChunkingIrrelevant(FeedAll(s, chunks[0]), chunks[1..]);
      FeedConcat(s, chunks[0], Concat(chunks[1..]));
    }
  }

  /** Text without a newline, from the start of a line: the characters held are the last
      L mod 220, and every 220 characters have been thrown away once. */
  lemma {:induction false} FeedText(es: seq<Event>, t: string)
    requires NEWLINE !in t
    ensures FeedAll(Spec("", es), t) == Spec(Tail(NoCr(t)), es + Overlongs(|NoCr(t)| / LINE_SIZE))
    decreases |t|
  {
    if t == "" {
      assert es + Overlongs(0) == es;
    } else {
      var most, c := t[..|t| - 1], t[|t| - 1];
      FeedText(es, most);
      assert most + [c] == t;
      FeedConcat(Spec("", es), most, [c]);
      NoCrAppend(most, c);
      if c != RETURN {
        TailAppend(NoCr(most), c);
        assert es + Overlongs(|NoCr(most)| / LINE_SIZE) + [Overlong] ==
          es + (Overlongs(|NoCr(most)| / LINE_SIZE) + [Overlong]);
      }
    }
  }

  lemma {:induction false} NoCrAppend(t: string, c: char)
    ensures NoCr(t + [c]) == NoCr(t) + (if c == RETURN then "" else [c])
  {
    if t == "" {
      assert NoCr([c][1..]) == "";
    } else {
      var rest := t[1..];
      NoCrAppend(rest, c);
      NoCrFirst(t + [c], t[0], rest + [c]);
    }
  }

  lemma NoCrFirst(t: string, c: char, rest: string)
    requires t == [c] + rest
    ensures NoCr(t) == (if c == RETURN then "" else [c]) + NoCr(rest)
  {
    assert t[1..] == rest;
  }

  lemma TailAppend(t: string, c: char)
    ensures if |Tail(t)| < LINE_SIZE - 1 then Tail(t + [c]) == Tail(t) + [c] && |t + [c]| / LINE_SIZE == |t| / LINE_SIZE
            else Tail(t + [c]) == "" && |t + [c]| / LINE_SIZE == |t| / LINE_SIZE + 1
  {
    DivStep(|t|);
    assert |t + [c]| == |t| + 1;
  }

  lemma DivStep(n: nat)
    ensures if n % LINE_SIZE < LINE_SIZE - 1
      then (n + 1) / LINE_SIZE == n / LINE_SIZE && (n + 1) % LINE_SIZE == n % LINE_SIZE + 1
      else (n + 1) / LINE_SIZE == n / LINE_SIZE + 1 && (n + 1) % LINE_SIZE == 0
  {
    assert n == n / LINE_SIZE * LINE_SIZE + n % LINE_SIZE;
  }

  lemma FeedNewline(s: Spec, more: string)
    ensures FeedAll(s, [NEWLINE] + more) == FeedAll(Spec("", s.events + [Line(s.held)]), more)
  {
    assert ([NEWLINE] + more)[1..] == more;
  }

  lemma LineEnds(es: seq<Event>, seg: string)
    ensures es + Overlongs(|NoCr(seg)| / LINE_SIZE) + [Line(Tail(NoCr(seg)))] == es + LineEvents(seg)
  {
  }

  /** One line, its newline included. */
  lemma FeedLine(es: seq<Event>, seg: string, more: string)
    requires NEWLINE !in seg
    ensures FeedAll(Spec("", es), seg + ([NEWLINE] + more)) == FeedAll(Spec("", es + LineEvents(seg)), more)
  {
    var held, events := Tail(NoCr(seg)), es + Overlongs(|NoCr(seg)| / LINE_SIZE);
    FeedText(es, seg);
    FeedAfter(Spec("", es), seg, Spec(held, events), [NEWLINE] + more);
    FeedNewline(Spec(held, events), more);
    LineEnds(es, seg);
  }

  lemma FeedAfter(s: Spec, a: string, s': Spec, b: string)
    requires FeedAll(s, a) == s'
    ensures FeedAll(s, a + b) == FeedAll(s', b)
  {
    FeedConcat(s, a, b);
  }

  lemma JoinedFirst(segs: seq<string>, rest: string)
    requires segs != []
    ensures Joined(segs) + rest == segs[0] + ([NEWLINE] + (Joined(segs[1..]) + rest))
  {
  }

  lemma EventsFirst(es: seq<Event>, segs: seq<string>, last: seq<Event>)
    requires segs != []
    ensures es + LineEvents(segs[0]) + AllLineEvents(segs[1..]) + last == es + AllLineEvents(segs) + last
  {
  }

  /** Refinement: each line of L characters, carriage returns aside, emits exactly its last
      L mod 220 characters and is counted overlong L / 220 times. */
  lemma {:induction false} Assembles(es: seq<Event>, segs: seq<string>, rest: string)
    requires (forall i :: 0 <= i < |segs| ==> NEWLINE !in segs[i]) && NEWLINE !in rest
    ensures FeedAll(Spec("", es), Joined(segs) + rest)
      == Spec(Tail(NoCr(rest)), es + AllLineEvents(segs) + Overlongs(|NoCr(rest)| / LINE_SIZE))
    decreases |segs|
  {
    if segs == [] {
      assert Joined(segs) + rest == rest && es + [] == es;
      FeedText(es, rest);
    } else {
      JoinedFirst(segs, rest);
      FeedLine(es, segs[0], Joined(segs[1..]) + rest);
      Assembles(es + LineEvents(segs[0]), segs[1..], rest);
      EventsFirst(es, segs, Overlongs(|NoCr(rest)| / LINE_SIZE));
    }
  }

  function Joined(segs: seq<string>): string {
    if segs == [] then "" else segs[0] + [NEWLINE] + Joined(segs[1..])
  }

  function AllLineEvents(segs: seq<string>): seq<Event> {
    if segs == [] then [] else LineEvents(segs[0]) + AllLineEvents(segs[1..])
  }

  // ---------- Lines to updates ----------

  datatype Kind = Gga | Gst | Heading | Other

  predicate StartsWith(text: string, prefix: string) {
    prefix <= text
  }

  /** The heading tests compare one character fewer than their prefixes have, so the comma
      is not required. */
  function KindOf(text: string): Kind {
    if StartsWith(text, "$GNGGA,") || StartsWith(text, "$GPGGA,") then Gga
    else if StartsWith(text, "$GNGST,") || StartsWith(text, "$GPGST,") then Gst
    else if StartsWith(text, "#UNIHEADINGA") || StartsWith(text, "#HEADINGA") then Heading
    else Other
  }

  /** The lines of one kind, in order. */
  function Lines(es: seq<Event>, k: Kind): seq<string> {
    if es == [] then []
    else
      var e := es[|es| - 1];
      Lines(es[..|es| - 1], k) + if IsLine(e, k) then [e.text] else []
  }

  function Total(es: seq<Event>): nat {
    if es == [] then 0 else Total(es[..|es| - 1]) + if es[|es| - 1].Line? then 1 else 0
  }

  function OverlongCount(es: seq<Event>): nat {
    if es == [] then 0 else OverlongCount(es[..|es| - 1]) + if es[|es| - 1].Line? then 0 else 1
  }

  function Longest(es: seq<Event>): nat {
    if es == [] then 0
    else
      var e, most := es[|es| - 1], Longest(es[..|es| - 1]);
      if e.Line? && |e.text| > most then |e.text| else most
  }

  /** Every line is counted in exactly one of the four counters. */
  lemma {:induction false} TotalIsSum(es: seq<Event>)
    ensures Total(es) == |Lines(es, Gga)| + |Lines(es, Gst)| + |Lines(es, Heading)| + |Lines(es, Other)|
    decreases |es|
  {
    if es != [] {
      TotalIsSum(es[..|es| - 1]);
    }
  }

  // ---------- The publication cycle ----------

  /** The snapshot: for each part, the lines its parser has been given. */
  datatype Snap = Snap(gga: seq<string>, gst: seq<string>, heading: seq<string>)

  function SnapOf(es: seq<Event>): Snap {
    Snap(Lines(es, Gga), Lines(es, Gst), Lines(es, Heading))
  }

  predicate IsLine(e: Event, k: Kind) {
    e.Line? && KindOf(e.text) == k
  }

  predicate Has(w: seq<Event>, k: Kind) {
    exists n :: 0 <= n < |w| && IsLine(w[n], k)
  }

  lemma HasMore(w: seq<Event>, e: Event, k: Kind)
    ensures Has(w + [e], k) <==> Has(w, k) || IsLine(e, k)
  {
    var v := w + [e];
    if Has(w, k) {
      var n :| 0 <= n < |w| && IsLine(w[n], k);
      assert v[n] == w[n];
    } else if IsLine(e, k) {
      assert v[|w|] == e;
    }
  }

  predicate Complete(w: seq<Event>) {
    Has(w, Gga) && Has(w, Gst) && Has(w, Heading)
  }

  /** The events since the last publication or overlong line. */
  function Window(es: seq<Event>): seq<Event> {
    if es == [] then []
    else
      var most, e := es[..|es| - 1], es[|es| - 1];
      if e == Overlong || Complete(Window(most) + [e]) then [] else Window(most) + [e]
  }

  /** The event makes the window complete. */
  predicate Publishes(most: seq<Event>, e: Event) {
    e.Line? && Complete(Window(most) + [e])
  }

  /** The lengths of the histories that ended with a publication. */
  function PublishedAfter(es: seq<Event>): seq<nat> {
    if es == [] then []
    else
      var most, e := es[..|es| - 1], es[|es| - 1];
      PublishedAfter(most) + if Publishes(most, e) then [|es|] else []
  }

  /** The snapshots published. */
  function Published(es: seq<Event>): seq<Snap> {
    if es == [] then []
    else
      var most, e := es[..|es| - 1], es[|es| - 1];
      Published(most) + if Publishes(most, e) then [SnapOf(es)] else []
  }

  /** Between `from` and j there are events i..j without an overlong line and with at least one
      line of each kind. */
  ghost predicate Earned(es: seq<Event>, from: nat, i: nat, j: nat) {
    from <= i < j <= |es| && Overlong !in es[i..j] && Complete(es[i..j])
  }

  /** The publication before the k-th, or the start. */
  function Since(at: seq<nat>, k: nat): nat
    requires k <= |at|
  {
    if k == 0 then 0 else at[k - 1]
  }

  /** The window is the end of the history, since any overlong line and any publication. */
  lemma {:induction false} WindowIsRecent(es: seq<Event>)
    ensures |Window(es)| <= |es| && Overlong !in Window(es)
    ensures var i, at := |es| - |Window(es)|, PublishedAfter(es);
      Window(es) == es[i..] && (at != [] ==> at[|at| - 1] <= i)
    decreases |es|
  {
    if es != [] {
      var most, e := es[..|es| - 1], es[|es| - 1];
      WindowIsRecent(most);
      var i := |most| - |Window(most)|;
      assert es[i..] == most[i..] + [e];
      assert e == Overlong ==> !Publishes(most, e);
    }
  }

  /** It reaches back to the last of them, or to the start. */
  lemma {:induction false} WindowIsLongest(es: seq<Event>)
    ensures |Window(es)| <= |es|
    ensures var i, at := |es| - |Window(es)|, PublishedAfter(es);
      i > 0 ==> es[i - 1] == Overlong || (at != [] && at[|at| - 1] == i)
    decreases |es|
  {
    if es != [] {
      WindowIsLongest(es[..|es| - 1]);
    }
  }

  lemma SliceStays(most: seq<Event>, e: Event, i: nat, j: nat)
    requires i <= j <= |most|
    ensures (most + [e])[i..j] == most[i..j]
  {
  }

  lemma EarnedStays(most: seq<Event>, e: Event, from: nat, i: nat, j: nat)
    requires Earned(most, from, i, j)
    ensures Earned(most + [e], from, i, j)
  {
    SliceStays(most, e, i, j);
  }

  lemma EarnedNow(most: seq<Event>, e: Event) returns (i: nat)
    requires Publishes(most, e)
    ensures Earned(most + [e], Since(PublishedAfter(most), |PublishedAfter(most)|), i, |most| + 1)
  {
    WindowIsRecent(most);
    i := |most| - |Window(most)|;
    assert (most + [e])[i..|most| + 1] == Window(most) + [e];
  }

  /** Every publication, over every history: since the one before it, and since the last
      overlong line, at least one line of each kind has come. */
  lemma {:induction false} EachPublication(es: seq<Event>, k: nat) returns (i: nat)
    requires k < |PublishedAfter(es)|
    ensures Earned(es, Since(PublishedAfter(es), k), i, PublishedAfter(es)[k])
    decreases |es|
  {
    var most, e := es[..|es| - 1], es[|es| - 1];
    assert most + [e] == es;
    var at, at' := PublishedAfter(most), PublishedAfter(es);
    assert at <= at';
    if k < |at| {
      i := EachPublication(most, k);
      EarnedStays(most, e, Since(at, k), i, at[k]);
    } else {
      i := EarnedNow(most, e);
    }
  }

  /** What a publication combines: for each kind, every line so far, the latest one last. */
  lemma {:induction false} PublishedSnapshot(es: seq<Event>, k: nat)
    requires k < |PublishedAfter(es)|
    ensures |Published(es)| == |PublishedAfter(es)| && PublishedAfter(es)[k] <= |es|
    ensures Published(es)[k] == SnapOf(es[..PublishedAfter(es)[k]])
    decreases |es|
  {
    var most, j := es[..|es| - 1], PublishedAfter(es)[k];
    assert es[..|es|] == es;
    SameLength(es);
    SameLength(most);
    if k < |PublishedAfter(most)| {
      PublishedSnapshot(most, k);
      assert most[..j] == es[..j];
    }
  }

  lemma {:induction false} SameLength(es: seq<Event>)
    ensures |Published(es)| == |PublishedAfter(es)|
    decreases |es|
  {
    if es != [] {
      SameLength(es[..|es| - 1]);
    }
  }

  /** A line of the kind in the window is one not yet paid for by a publication. */
  function Pending(es: seq<Event>, k: Kind): nat {
    if Has(Window(es), k) then 1 else 0
  }

  /** There are never more publications than lines of any of the three kinds. */
  lemma {:induction false} PublicationsBounded(es: seq<Event>, k: Kind)
    requires k != Other
    ensures |Published(es)| + Pending(es, k) <= |Lines(es, k)|
    decreases |es|
  {
    if es != [] {
      var most, e := es[..|es| - 1], es[|es| - 1];
      PublicationsBounded(most, k);
      HasMore(Window(most), e, k);
    }
  }

  // ---------- The code ----------

  /** The flags, counters, snapshot and publications at one moment. */
  datatype Tally = Tally(total: u32, ggas: u32, gsts: u32, headings: u32, others: u32, overlong: u32, longest: nat,
                         hasGga: bool, hasGst: bool, hasHeading: bool, gnss: Snap, published: seq<Snap>)

  /** What they are after a history. */
  function TallyOf(es: seq<Event>): Tally {
    Tally(Low32(Total(es)), Low32(|Lines(es, Gga)|), Low32(|Lines(es, Gst)|), Low32(|Lines(es, Heading)|),
          Low32(|Lines(es, Other)|), Low32(OverlongCount(es)), Longest(es),
          Has(Window(es), Gga), Has(Window(es), Gst), Has(Window(es), Heading), SnapOf(es), Published(es))
  }

  function SnapWith(s: Snap, text: string): Snap {
    match KindOf(text)
    case Gga => s.(gga := s.gga + [text])
    case Gst => s.(gst := s.gst + [text])
    case Heading => s.(heading := s.heading + [text])
    case Other => s
  }

  /** The line goes to its counter and parser, and raises its flag. */
  function Counted(t: Tally, text: string): Tally {
    var longest := if |text| > t.longest then |text| else t.longest;
    Sorted(t.(total := Next32(t.total), longest := longest), text)
  }

  function Sorted(t: Tally, text: string): Tally {
    var gnss := SnapWith(t.gnss, text);
    match KindOf(text)
    case Gga => t.(ggas := Next32(t.ggas), gnss := gnss, hasGga := true)
    case Gst => t.(gsts := Next32(t.gsts), gnss := gnss, hasGst := true)
    case Heading => t.(headings := Next32(t.headings), gnss := gnss, hasHeading := true)
    case Other => t.(others := Next32(t.others))
  }

  function Cycled(t: Tally): Tally {
    if t.hasGga && t.hasGst && t.hasHeading then
      t.(published := t.published + [t.gnss], hasGga := false, hasGst := false, hasHeading := false)
    else t
  }

  function CountOverlong(t: Tally): Tally {
    t.(overlong := Next32(t.overlong), hasGga := false, hasGst := false, hasHeading := false)
  }

  // One more event, field by field.

  lemma MoreLines(es: seq<Event>, e: Event, k: Kind)
    ensures Lines(es + [e], k) == Lines(es, k) + (if IsLine(e, k) then [e.text] else [])
    ensures Low32(|Lines(es + [e], k)|) == if IsLine(e, k) then Next32(Low32(|Lines(es, k)|)) else Low32(|Lines(es, k)|)
  {
    assert (es + [e])[..|es|] == es;
    Low32Next(|Lines(es, k)|);
  }

  lemma MoreSnap(es: seq<Event>, e: Event)
    ensures SnapOf(es + [e]) == if e.Line? then SnapWith(SnapOf(es), e.text) else SnapOf(es)
  {
    MoreLines(es, e, Gga);
    MoreLines(es, e, Gst);
    MoreLines(es, e, Heading);
  }

  lemma MoreWindow(es: seq<Event>, e: Event, k: Kind)
    ensures Has(Window(es + [e]), k) <==> e.Line? && !Publishes(es, e) && (Has(Window(es), k) || IsLine(e, k))
  {
    assert (es + [e])[..|es|] == es;
    HasMore(Window(es), e, k);
  }

  lemma MorePublished(es: seq<Event>, e: Event)
    ensures Published(es + [e]) == Published(es) + (if Publishes(es, e) then [SnapOf(es + [e])] else [])
  {
    assert (es + [e])[..|es|] == es;
  }

  lemma PublishesIff(es: seq<Event>, e: Event)
    ensures Publishes(es, e) <==>
      && e.Line? && (Has(Window(es), Gga) || IsLine(e, Gga))
      && (Has(Window(es), Gst) || IsLine(e, Gst))
      && (Has(Window(es), Heading) || IsLine(e, Heading))
  {
    HasMore(Window(es), e, Gga);
    HasMore(Window(es), e, Gst);
    HasMore(Window(es), e, Heading);
  }

  lemma MoreCounts(es: seq<Event>, e: Event)
    ensures Low32(Total(es + [e])) == if e.Line? then Next32(Low32(Total(es))) else Low32(Total(es))
    ensures Low32(OverlongCount(es + [e])) == if e.Line? then Low32(OverlongCount(es))
      else Next32(Low32(OverlongCount(es)))
    ensures Longest(es + [e]) == if e.Line? && |e.text| > Longest(es) then |e.text| else Longest(es)
  {
    assert (es + [e])[..|es|] == es;
    Low32Next(Total(es));
    Low32Next(OverlongCount(es));
  }

  /** The code's updates at a line or an overlong line. */
  function NextTally(t: Tally, e: Event): Tally {
    if e.Line? then Cycled(Counted(t, e.text)) else CountOverlong(t)
  }

  predicate FlagAfter(flag: bool, complete: bool, e: Event, k: Kind, flag': bool) {
    flag' <==> e.Line? && !complete && (flag || IsLine(e, k))
  }

  predicate CounterAfter(n: u32, counts: bool, n': u32) {
    n' == if counts then Next32(n) else n
  }

  /** What one event does to each field, `complete` telling whether it completes the cycle. */
  predicate Follows(t: Tally, e: Event, complete: bool, t': Tally) {
    && CounterAfter(t.total, e.Line?, t'.total) && CounterAfter(t.overlong, !e.Line?, t'.overlong)
    && CounterAfter(t.ggas, IsLine(e, Gga), t'.ggas) && CounterAfter(t.gsts, IsLine(e, Gst), t'.gsts)
    && CounterAfter(t.headings, IsLine(e, Heading), t'.headings) && CounterAfter(t.others, IsLine(e, Other), t'.others)
    && t'.longest == (if e.Line? && |e.text| > t.longest then |e.text| else t.longest)
    && FlagAfter(t.hasGga, complete, e, Gga, t'.hasGga) && FlagAfter(t.hasGst, complete, e, Gst, t'.hasGst)
    && FlagAfter(t.hasHeading, complete, e, Heading, t'.hasHeading)
    && t'.gnss == (if e.Line? then SnapWith(t.gnss, e.text) else t.gnss)
    && t'.published == t.published + (if complete then [t'.gnss] else [])
    && (complete <==>
          && e.Line? && (t.hasGga || IsLine(e, Gga)) && (t.hasGst || IsLine(e, Gst))
          && (t.hasHeading || IsLine(e, Heading)))
  }

  lemma FollowsIsNext(t: Tally, e: Event, complete: bool, t': Tally)
    requires Follows(t, e, complete, t')
    ensures t' == NextTally(t, e)
  {
  }

  /** The code's updates, at one line or overlong line, keep the tally that of the history. */
  lemma TallyStep(es: seq<Event>, e: Event, es': seq<Event>, t: Tally, t': Tally)
    requires t == TallyOf(es) && es' == es + [e] && t' == NextTally(t, e)
    ensures t' == TallyOf(es')
  {
    MoreCounts(es, e);
    MoreSnap(es, e);
    MorePublished(es, e);
    PublishesIff(es, e);
    MoreLines(es, e, Gga);
    MoreLines(es, e, Gst);
    MoreLines(es, e, Heading);
    MoreLines(es, e, Other);
    MoreWindow(es, e, Gga);
    MoreWindow(es, e, Gst);
    MoreWindow(es, e, Heading);
    FollowsIsNext(TallyOf(es), e, Publishes(es, e), TallyOf(es + [e]));
  }

  /** Only the code's first test can send a line to its kind. */
  lemma KindByFirst(text: string)
    ensures KindOf(text) == Gga || KindOf(text) == Gst ==> StartsWith(text, "$")
    ensures KindOf(text) == Heading ==> StartsWith(text, "#")
    ensures !(StartsWith(text, "$") && StartsWith(text, "#"))
  {
    if StartsWith(text, "$") {
      assert text[0] == '$';
    }
    if StartsWith(text, "#") {
      assert text[0] == '#';
    }
  }

  /** The line begins with this name, but no comma follows it. */
  predicate BareName(text: string, name: string) {
    StartsWith(text, name) && (|text| == |name| || text[|name|] != ',')
  }

  lemma CommaOrBare(text: string, name: string)
    ensures StartsWith(text, name) <==> StartsWith(text, name + ",") || BareName(text, name)
    ensures !(StartsWith(text, name + ",") && BareName(text, name))
  {
    if StartsWith(text, name) && |text| > |name| && text[|name|] == ',' {
      assert text[..|name| + 1] == name + ",";
    }
    if StartsWith(text, name + ",") {
      assert text[|name|] == (name + ",")[|name|] && text[..|name|] == (name + ",")[..|name|] == name;
    }
  }

  /** A line is taken for a heading although neither of the full prefixes, comma included, is
      there exactly when a bare name is. */
  lemma HeadingWithoutComma(text: string)
    ensures KindOf(text) == Heading && !StartsWith(text, "#UNIHEADINGA" + ",") && !StartsWith(text, "#HEADINGA" + ",")
      <==> BareName(text, "#UNIHEADINGA") || BareName(text, "#HEADINGA")
  {
    CommaOrBare(text, "#UNIHEADINGA");
    CommaOrBare(text, "#HEADINGA");
    KindByFirst(text);
    assert StartsWith(text, "#UNIHEADINGA") ==> text[1] == 'U';
  }

  /** `$`, `GN` or `GP`, three letters and a comma. */
  predicate Sentence(t: string, letters: string) {
    |t| >= 7 && t[0] == '$' && t[1] == 'G' && (t[2] == 'N' || t[2] == 'P') && t[3..6] == letters && t[6] == ','
  }

  predicate GgaLine(t: string) {
    Sentence(t, "GGA")
  }

  predicate GstLine(t: string) {
    Sentence(t, "GST")
  }

  predicate HeadingLine(t: string) {
    (|t| >= 12 && t[..12] == "#UNIHEADINGA") || (|t| >= 9 && t[..9] == "#HEADINGA")
  }

  lemma SentenceIs(t: string, letters: string)
    requires |letters| == 3
    ensures Sentence(t, letters) <==> "$GN" + letters + "," <= t || "$GP" + letters + "," <= t
  {
    if Sentence(t, letters) {
      assert t[..7] == ['$', 'G', t[2]] + letters + ",";
    }
  }

  /** The kinds in terms of the characters received: no line is of two. */
  lemma KindIs(text: string)
    ensures KindOf(text) == Gga <==> GgaLine(text)
    ensures KindOf(text) == Gst <==> GstLine(text)
    ensures KindOf(text) == Heading <==> HeadingLine(text)
    ensures !(GgaLine(text) && GstLine(text)) && !(GgaLine(text) && HeadingLine(text))
      && !(GstLine(text) && HeadingLine(text))
  {
    SentenceIs(text, "GGA");
    SentenceIs(text, "GST");
    assert "$GN" + "GGA" + "," == "$GNGGA," && "$GP" + "GGA" + "," == "$GPGGA,";
    assert "$GN" + "GST" + "," == "$GNGST," && "$GP" + "GST" + "," == "$GPGST,";
    assert |text| >= 12 && text[..12] == "#UNIHEADINGA" ==> text[0] == '#';
    assert |text| >= 9 && text[..9] == "#HEADINGA" ==> text[0] == '#';
  }

  /** What a line changes, in terms of its characters: the counter, the flag and the part of the
      snapshot of its own kind, the total and the longest; and when now all three flags are
      set, the snapshot is published and they are cleared. */
  predicate LineDone(t: Tally, text: string, t': Tally) {
    var gga, gst, heading := GgaLine(text), GstLine(text), HeadingLine(text);
    var all := (t.hasGga || gga) && (t.hasGst || gst) && (t.hasHeading || heading);
    && t'.total == Next32(t.total) && t'.overlong == t.overlong
    && t'.ggas == (if gga then Next32(t.ggas) else t.ggas)
    && t'.gsts == (if gst then Next32(t.gsts) else t.gsts)
    && t'.headings == (if heading then Next32(t.headings) else t.headings)
    && t'.others == (if gga || gst || heading then t.others else Next32(t.others))
    && t'.longest == (if |text| > t.longest then |text| else t.longest)
    && t'.gnss.gga == t.gnss.gga + (if gga then [text] else [])
    && t'.gnss.gst == t.gnss.gst + (if gst then [text] else [])
    && t'.gnss.heading == t.gnss.heading + (if heading then [text] else [])
    && t'.published == t.published + (if all then [t'.gnss] else [])
    && t'.hasGga == (!all && (t.hasGga || gga)) && t'.hasGst == (!all && (t.hasGst || gst))
    && t'.hasHeading == (!all && (t.hasHeading || heading))
  }

  lemma LineTally(t: Tally, text: string, t': Tally)
    requires t' == NextTally(t, Line(text))
    ensures LineDone(t, text, t')
  {
    KindIs(text);
  }

  /** After an overlong line the cycle starts anew. */
  predicate OverlongDone(t: Tally, t': Tally) {
    t' == t.(overlong := Next32(t.overlong), hasGga := false, hasGst := false, hasHeading := false)
  }

  class LineReader {
    var line: array<char>
    var idx: nat
    var hasGga: bool
    var hasGst: bool
    var hasHeading: bool
    var linesTotal: u32
    var ggaLines: u32
    var gstLines: u32
    var headingLines: u32
    var otherLines: u32
    var lineOverlong: u32
    var maxLineLen: nat
    var gnss: Snap
    var published: seq<Snap>       // snapshots pushed to the queue
    ghost var events: seq<Event>   // the history so far

    ghost function Now(): Tally
      reads this
    {
      Tally(linesTotal, ggaLines, gstLines, headingLines, otherLines, lineOverlong, maxLineLen, hasGga, hasGst,
        hasHeading, gnss, published)
    }

    ghost predicate Valid()
      reads this
    {
      line.Length == LINE_SIZE && idx < LINE_SIZE && Now() == TallyOf(events)
    }

    ghost function State(): Spec
      reads this, line
      requires Valid()
    {
      Spec(line[..idx], events)
    }

    constructor ()
      ensures Valid() && fresh(line) && State() == Spec("", [])
    {
      line := new char[LINE_SIZE](_ => '\0');
      idx, hasGga, hasGst, hasHeading := 0, false, false, false;
      linesTotal, ggaLines, gstLines, headingLines, otherLines, lineOverlong, maxLineLen := 0, 0, 0, 0, 0, 0, 0;
      gnss, published, events := Snap([], [], []), [], [];
    }

    /** The counters, parser and flag of a line. */
    method Count(text: string)
      modifies this`linesTotal, this`ggaLines, this`gstLines, this`headingLines, this`otherLines, this`maxLineLen,
               this`gnss, this`hasGga, this`hasGst, this`hasHeading
      ensures Now() == Counted(old(Now()), text)
    {
      KindByFirst(text);
      linesTotal := Next32(linesTotal);
      if |text| > maxLineLen {
        maxLineLen := |text|;
      }
      if StartsWith(text, "$") {
        CountNmea(text);
      } else if StartsWith(text, "#") {
        CountHeading(text);
      } else {
        otherLines := Next32(otherLines);
      }
    }

    /** A line that begins with a dollar sign. */
    method CountNmea(text: string)
      requires KindOf(text) != Heading
      modifies this`ggaLines, this`gstLines, this`otherLines, this`gnss, this`hasGga, this`hasGst
      ensures Now() == Sorted(old(Now()), text)
    {
      if StartsWith(text, "$GNGGA,") || StartsWith(text, "$GPGGA,") {
        ggaLines := Next32(ggaLines);
        gnss := gnss.(gga := gnss.gga + [text]);
        hasGga := true;
      } else if StartsWith(text, "$GNGST,") || StartsWith(text, "$GPGST,") {
        gstLines := Next32(gstLines);
        gnss := gnss.(gst := gnss.gst + [text]);
        hasGst := true;
      } else {
        otherLines := Next32(otherLines);
      }
    }

    /** A line that begins with a hash sign. */
    method CountHeading(text: string)
      requires KindOf(text) == Heading || KindOf(text) == Other
      modifies this`headingLines, this`otherLines, this`gnss, this`hasHeading
      ensures Now() == Sorted(old(Now()), text)
    {
      if StartsWith(text, "#UNIHEADINGA") || StartsWith(text, "#HEADINGA") {
        headingLines := Next32(headingLines);
        gnss := gnss.(heading := gnss.heading + [text]);
        hasHeading := true;
      } else {
        otherLines := Next32(otherLines);
      }
    }

    method PublishWhenComplete()
      modifies this`hasGga, this`hasGst, this`hasHeading, this`published
      ensures Now() == Cycled(old(Now()))
    {
      if hasGga && hasGst && hasHeading {
        published := published + [gnss];
        hasGga, hasGst, hasHeading := false, false, false;
      }
    }

    method ClearCycle()
      modifies this`lineOverlong, this`hasGga, this`hasGst, this`hasHeading
      ensures Now() == CountOverlong(old(Now()))
    {
      lineOverlong := Next32(lineOverlong);
      hasGga, hasGst, hasHeading := false, false, false;
    }

    /** Count a line and publish when it completes the cycle. */
    method TakeLine(text: string)
      modifies this`linesTotal, this`ggaLines, this`gstLines, this`headingLines, this`otherLines, this`maxLineLen,
               this`gnss, this`hasGga, this`hasGst, this`hasHeading, this`published
      ensures Now() == NextTally(old(Now()), Line(text)) && LineDone(old(Now()), text, Now())
    {
      ghost var was := Now();
      Count(text);
      PublishWhenComplete();
      LineTally(was, text, Now());
    }

    /** A newline ends the line held, which is counted, parsed and may complete the cycle. */
    method EndLine()
      requires Valid()
      modifies this, line
      ensures Valid() && line == old(line) && State() == Spec("", old(events) + [Line(old(line[..idx]))])
      ensures LineDone(old(Now()), old(line[..idx]), Now())
    {
      var text := line[..idx];
      line[idx] := '\0';
      idx := 0;
      ghost var was, es := Now(), events + [Line(text)];
      TakeLine(text);
      TallyStep(events, Line(text), es, was, Now());
      events := es;
    }

    method DropLine()
      requires Valid()
      modifies this`idx, this`lineOverlong, this`hasGga, this`hasGst, this`hasHeading, this`events
      ensures Valid() && State() == Spec("", old(events) + [Overlong])
      ensures OverlongDone(old(Now()), Now())
    {
      ghost var was, es := Now(), events + [Overlong];
      ClearCycle();
      idx := 0;
      TallyStep(events, Overlong, es, was, Now());
      events := es;
    }

    method Byte(c: char)
      requires Valid()
      modifies this, line
      ensures Valid() && line == old(line) && State() == Feed(old(State()), c)
    {
      if c == RETURN {
        return;
      }
      if c == NEWLINE {
        EndLine();
      } else if idx < LINE_SIZE - 1 {
        line[idx] := c;
        idx := idx + 1;
      } else {
        DropLine();
      }
    }

    /** One pass: every byte the ring holds. */
    method Pass(chunk: string)
      requires Valid()
      modifies this, line
      ensures Valid() && line == old(line) && State() == FeedAll(old(State()), chunk)
    {
      assert chunk[0..] == chunk;
      for i := 0 to |chunk|
        invariant Valid() && line == old(line)
        invariant FeedAll(State(), chunk[i..]) == FeedAll(old(State()), chunk)
      {
        assert chunk[i..][1..] == chunk[i + 1..];
        Byte(chunk[i]);
      }
    }

    /** Any number of passes. */
    method Passes(chunks: seq<string>)
      requires Valid()
      modifies this, line
      ensures Valid() && State() == FeedAll(old(State()), Concat(chunks))
    {
      ChunkingIrrelevant(State(), chunks);
      assert chunks[0..] == chunks;
      for i := 0 to |chunks|
        invariant Valid() && line == old(line)
        invariant FeedChunks(State(), chunks[i..]) == FeedChunks(old(State()), chunks)
      {
        assert chunks[i..][1..] == chunks[i + 1..];
        Pass(chunks[i]);
      }
    }
  }
}
