/**
 * SHTP channels, apps and listeners (shtp.c). Each channel caches the callback of its
 * listener; `Coherent` says the cache always equals a search of the tables, and the
 * advertisement parser is shown to apply exactly the entries that were encoded.
 */
module ShtpRegistry {
  import opened Bytes
  import opened Sh2Err
  import opened Shtp

  const MAX_APPS := 5
  const NAME_LEN := 32
  const UNUSED_GUID: u32 := 0xFFFF_FFFF

  datatype Handler = Handler(fn: nat, cookie: nat)
  datatype Listener = Listener(guid: u16, name: bytes, callback: Option<Handler>)
  datatype ChanDecl = ChanDecl(guid: u32, name: bytes, wake: bool)
  datatype App = App(guid: u32, name: bytes)
  datatype AppListener = AppListener(guid: u16, callback: Option<Handler>)

  // ---------- What the cache must hold ----------

  predicate Matches(l: Listener, d: ChanDecl) {
    l.callback.Some? && l.guid == d.guid && l.name == d.name
  }

  /** The first registered listener for a channel, if any. */
  function Lookup(ls: seq<Listener>, d: ChanDecl): (h: Option<Handler>)
    ensures h.None? <==> d.guid == UNUSED_GUID || forall l <- ls :: !Matches(l, d)
    ensures h.Some? ==> exists n :: 0 <= n < |ls| && Matches(ls[n], d) && h == ls[n].callback && FirstAt(ls, d, n)
  {
    if d.guid == UNUSED_GUID || ls == [] then None
    else if Matches(ls[0], d) then
      assert FirstAt(ls, d, 0);
      ls[0].callback
    else
      var h := Lookup(ls[1..], d);
      assert h.Some? ==> exists n :: 0 <= n < |ls| && Matches(ls[n], d) && h == ls[n].callback && FirstAt(ls, d, n) by {
        if h.Some? {
          var n :| 0 <= n < |ls[1..]| && Matches(ls[1..][n], d) && h == ls[1..][n].callback && FirstAt(ls[1..], d, n);
          assert FirstAt(ls, d, n + 1);
        }
      }
      h
  }

  predicate FirstAt(ls: seq<Listener>, d: ChanDecl, n: nat) {
    n <= |ls| && forall m :: 0 <= m < n ==> !Matches(ls[m], d)
  }

  lemma LookupAt(ls: seq<Listener>, d: ChanDecl, n: nat)
    requires d.guid != UNUSED_GUID && FirstAt(ls, d, n)
    requires n == |ls| || Matches(ls[n], d)
    ensures Lookup(ls, d) == if n == |ls| then None else ls[n].callback
    decreases n
  {
    if n > 0 {
      forall m | 0 <= m < n - 1
        ensures !Matches(ls[1..][m], d)
      {
        assert !Matches(ls[m + 1], d);
      }
      LookupAt(ls[1..], d, n - 1);
    }
  }

  /** A later registration never takes a channel away from its listener. */
  lemma {:induction false} FirstRegistrationWins(ls: seq<Listener>, l: Listener, d: ChanDecl)
    ensures Lookup(ls, d).Some? ==> Lookup(ls + [l], d) == Lookup(ls, d)
    ensures Lookup(ls, d).None? && d.guid != UNUSED_GUID ==>
      Lookup(ls + [l], d) == if Matches(l, d) then l.callback else None
  {
    if ls != [] {
      assert (ls + [l])[1..] == ls[1..] + [l];
      FirstRegistrationWins(ls[1..], l, d);
    }
  }

  // ---------- Advertisements ----------

  const TAG_NULL: byte := 0
  const TAG_GUID: byte := 1
  const TAG_MAX_CARGO_PLUS_HEADER_WRITE: byte := 2
  const TAG_MAX_CARGO_PLUS_HEADER_READ: byte := 3
  const TAG_MAX_TRANSFER_WRITE: byte := 4
  const TAG_MAX_TRANSFER_READ: byte := 5
  const TAG_NORMAL_CHANNEL: byte := 6
  const TAG_WAKE_CHANNEL: byte := 7
  const TAG_APP_NAME: byte := 8
  const TAG_CHANNEL_NAME: byte := 9

  /** The bytes of a C string up to its terminator. */
  function CString(p: bytes): bytes {
    if p == [] || p[0] == 0 then [] else [p[0]] + CString(p[1..])
  }

  /** One entry as the parser finds it: `mem` is the memory from its value on, of which the
      entry itself claims the first `len` bytes. */
  datatype Entry = Entry(tag: byte, len: byte, mem: bytes) {
    /** What the parser reads is there, and a name fits its buffer with its terminator. */
    predicate Readable() {
      && len <= |mem|
      && (tag == TAG_GUID ==> |mem| >= 4)
      && (TAG_MAX_CARGO_PLUS_HEADER_WRITE <= tag <= TAG_MAX_TRANSFER_READ ==> |mem| >= 2)
      && (tag in {TAG_NORMAL_CHANNEL, TAG_WAKE_CHANNEL} ==> |mem| >= 1)
      && (tag in {TAG_APP_NAME, TAG_CHANNEL_NAME} ==> |CString(mem)| < Min(|mem|, NAME_LEN))
    }

    /** It does so within the entry itself. */
    predicate Whole() {
      |mem| == len && Readable()
    }

    /** The same entry with other memory after it. */
    function Before(more: bytes): Entry {
      this.(mem := mem + more)
    }
  }

  predicate AllReadable(es: seq<Entry>) {
    forall e <- es :: e.Readable()
  }

  predicate AllWhole(es: seq<Entry>) {
    forall e <- es :: e.Whole()
  }

  /** The entries of a payload of `len` bytes at the start of `buf`. When the last one is cut
      short the parser reads on in memory, so `buf` goes further than the payload. */
  ghost function EntriesFrom(buf: bytes, cursor: nat, len: nat): seq<Entry>
    requires len + 0x101 <= |buf|
    decreases len - cursor
  {
    if cursor >= len then []
    else
      [Entry(buf[cursor], buf[cursor + 1], buf[cursor + 2..])]
        + EntriesFrom(buf, cursor + 2 + buf[cursor + 1] as int, len)
  }

  function Encode(es: seq<Entry>): bytes
    requires AllWhole(es)
  {
    if es == [] then [] else [es[0].tag, es[0].len] + es[0].mem + Encode(es[1..])
  }

  // ---------- What an entry changes ----------

  /** A call to the handler an application has registered for its advertisement. */
  datatype AdvertCall = AdvertCall(handler: Handler, tag: byte, val: bytes)

  /** The tables and limits an advertisement can change. */
  datatype Tables = Tables(decls: seq<ChanDecl>, nextOutSeq: seq<byte>, nextInSeq: seq<byte>, apps: seq<App>,
                           outMaxPayload: u16, outMaxTransfer: u16, inMaxTransfer: u16)

  /** The parser's own variables. */
  datatype Place = Place(guid: u32, chanNo: byte, wake: bool)

  datatype Advert = Advert(tables: Tables, place: Place, appListeners: seq<AppListener>, calls: seq<AdvertCall>)

  function WithApp(apps: seq<App>, guid: u32): seq<App> {
    if (exists a <- apps :: a.guid == guid) || |apps| >= MAX_APPS then apps else apps + [App(guid, [])]
  }

  /** Guids are unique, so at most one app is renamed. */
  function WithAppName(apps: seq<App>, guid: u32, name: bytes): seq<App> {
    seq(|apps|, i requires 0 <= i < |apps| => if apps[i].guid == guid then App(guid, name) else apps[i])
  }

  /** Replace the value of one channel, if there is such a channel. */
  function SetAt<T>(s: seq<T>, chanNo: byte, v: T): seq<T> {
    if chanNo < |s| then s[chanNo := v] else s
  }

  /** A channel defined anew starts its numbers from zero, both ways. */
  function Declare(t: Tables, chanNo: byte, d: ChanDecl): Tables {
    t.(decls := SetAt(t.decls, chanNo, d), nextOutSeq := SetAt(t.nextOutSeq, chanNo, 0),
      nextInSeq := SetAt(t.nextInSeq, chanNo, 0))
  }

  /** The first handler registered for an application, if any. */
  function AppHandler(ls: seq<AppListener>, guid: u32): Option<Handler> {
    if ls == [] then None
    else if ls[0].guid == guid && ls[0].callback.Some? then ls[0].callback
    else AppHandler(ls[1..], guid)
  }

  /** The calls after an application has been told of an entry. */
  function Told(calls: seq<AdvertCall>, h: Option<Handler>, tag: byte, val: bytes): seq<AdvertCall> {
    if h.Some? then calls + [AdvertCall(h.value, tag, val)] else calls
  }

  /** What an entry stores in the tables. */
  function Stored(t: Tables, p: Place, e: Entry): Tables
    requires e.Readable()
  {
    if e.tag == TAG_GUID then t.(apps := WithApp(t.apps, ReadU32(e.mem)))
    else if e.tag == TAG_MAX_CARGO_PLUS_HEADER_WRITE then
      var x := LessHeader(ReadU16(e.mem));
      if x < MAX_PAYLOAD_OUT then t.(outMaxPayload := x) else t
    else if e.tag == TAG_MAX_TRANSFER_WRITE then t.(outMaxTransfer := Min(LessHeader(ReadU16(e.mem)), MAX_TRANSFER_OUT))
    else if e.tag == TAG_MAX_TRANSFER_READ then
      var x := LessHeader(ReadU16(e.mem));
      if x < MAX_TRANSFER_IN then t.(inMaxTransfer := x) else t
    else if e.tag == TAG_APP_NAME then t.(apps := WithAppName(t.apps, p.guid, CString(e.mem)))
    else if e.tag == TAG_CHANNEL_NAME then Declare(t, p.chanNo, ChanDecl(p.guid, CString(e.mem), p.wake))
    else t
  }

  /** Where it leaves the parser. */
  function Moved(p: Place, e: Entry): Place
    requires e.Readable()
  {
    if e.tag == TAG_GUID then p.(guid := ReadU32(e.mem))
    else if e.tag == TAG_NORMAL_CHANNEL then p.(chanNo := e.mem[0], wake := false)
    else if e.tag == TAG_WAKE_CHANNEL then p.(chanNo := e.mem[0], wake := true)
    else p
  }

  /** A new application ends the previous one's entries; every entry is passed on. */
  function Heard(ls: seq<AppListener>, calls: seq<AdvertCall>, p: Place, e: Entry): seq<AdvertCall>
    requires e.Readable()
  {
    var ended := if e.tag == TAG_GUID then Told(calls, AppHandler(ls, p.guid), TAG_NULL, []) else calls;
    Told(ended, AppHandler(ls, Moved(p, e).guid), e.tag, e.mem[..e.len])
  }

  function Apply(a: Advert, e: Entry): Advert
    requires e.Readable()
  {
    Advert(Stored(a.tables, a.place, e), Moved(a.place, e), a.appListeners, Heard(a.appListeners, a.calls, a.place, e))
  }

  function ApplyAll(a: Advert, es: seq<Entry>): Advert
    requires AllReadable(es)
    decreases |es|
  {
    if es == [] then a else ApplyAll(Apply(a, es[0]), es[1..])
  }

  const START := Place(0, 0, false)

  /** A whole advertisement: the parser's own variables start from zero, and the end of it ends
      the last application's entries. */
  function Advertised(a: Advert, es: seq<Entry>): Advert
    requires AllReadable(es)
  {
    var b := ApplyAll(a.(place := START), es);
    Advert(b.tables, START, b.appListeners, Told(b.calls, AppHandler(b.appListeners, b.place.guid), TAG_NULL, []))
  }

  // ---------- Encoded advertisements ----------

  lemma {:induction false} CStringStops(p: bytes, more: bytes)
    requires |CString(p)| < |p|
    ensures CString(p + more) == CString(p)
    decreases |p|
  {
    if p[0] != 0 {
      assert (p + more)[1..] == p[1..] + more;
      CStringStops(p[1..], more);
    }
  }

  /** What follows an entry in memory does not matter when the entry is whole. */
  lemma ApplySame(a: Advert, e: Entry, more: bytes)
    requires e.Whole()
    ensures e.Before(more).Readable() && Apply(a, e.Before(more)) == Apply(a, e)
  {
    assert (e.mem + more)[..e.len] == e.mem == e.mem[..e.len];
    if e.tag in {TAG_APP_NAME, TAG_CHANNEL_NAME} {
      CStringStops(e.mem, more);
    }
  }

  /** Where an entry stands in memory, its value `val` comes next and then the rest. */
  lemma CutEntry(buf: bytes, cursor: nat, at: nat, n: nat, len: nat, val: bytes, rest: bytes)
    requires at == cursor + 2 && n == at + |val| && len == n + |rest| && len <= |buf|
    requires buf[cursor + 2..len] == val + rest
    ensures buf[at..] == val + buf[n..] && buf[n..len] == rest
  {
    forall i | 0 <= i < |val|
      ensures buf[at + i] == val[i]
    {
      assert buf[at..len][i] == (val + rest)[i];
    }
    forall i | 0 <= i < |rest|
      ensures buf[n + i] == rest[i]
    {
      assert buf[at..len][|val| + i] == (val + rest)[|val| + i];
    }
  }

  lemma TailOf(buf: bytes, cursor: nat, len: nat, tag: byte, n: byte, tail: bytes)
    requires cursor <= len <= |buf| && buf[cursor..len] == [tag, n] + tail
    ensures len == cursor + 2 + |tail| && buf[cursor] == tag && buf[cursor + 1] == n && buf[cursor + 2..len] == tail
  {
    var here := buf[cursor..len];
    assert here[0] == tag && here[1] == n && here[2..] == tail;
  }

  /** The parser's reads at `cursor` find the first entry, and the others follow it at `n`. */
  lemma NextEntry(buf: bytes, cursor: nat, n: nat, len: nat, es: seq<Entry>)
    requires cursor <= len <= |buf| && AllWhole(es) && es != [] && buf[cursor..len] == Encode(es)
    requires n == cursor + 2 + es[0].len as int
    ensures n <= len && buf[cursor] == es[0].tag && buf[cursor + 1] == es[0].len
    ensures buf[cursor + 2..] == es[0].mem + buf[n..] && buf[n..len] == Encode(es[1..])
  {
    var e := es[0];
    assert e.Whole();
    TailOf(buf, cursor, len, e.tag, e.len, e.mem + Encode(es[1..]));
    CutEntry(buf, cursor, cursor + 2, n, len, e.mem, Encode(es[1..]));
  }

  lemma FirstFound(buf: bytes, cursor: nat, n: nat, len: nat, e: Entry)
    requires cursor < len && len + 0x101 <= |buf| && n == cursor + 2 + e.len as int && n <= len
    requires buf[cursor] == e.tag && buf[cursor + 1] == e.len && buf[cursor + 2..] == e.mem + buf[n..]
    ensures EntriesFrom(buf, cursor, len) == [e.Before(buf[n..])] + EntriesFrom(buf, n, len)
  {
  }

  /** Applying a list of entries is applying the first and then the others. */
  lemma ApplyFirst(a: Advert, es: seq<Entry>, first: Entry, rest: seq<Entry>)
    requires es == [first] + rest && first.Readable() && AllReadable(rest)
    ensures AllReadable(es) && ApplyAll(a, es) == ApplyAll(Apply(a, first), rest)
  {
    assert es[1..] == rest;
  }

  /** Parsing an encoded advertisement applies exactly the entries that were encoded, in order,
      whatever follows it in memory. */
  lemma {:induction false} ParserInvertsEncoding(a: Advert, es: seq<Entry>, buf: bytes, cursor: nat, len: nat)
    requires cursor <= len && len + 0x101 <= |buf| && AllWhole(es) && buf[cursor..len] == Encode(es)
    ensures AllReadable(EntriesFrom(buf, cursor, len)) && AllReadable(es)
    ensures ApplyAll(a, EntriesFrom(buf, cursor, len)) == ApplyAll(a, es)
    decreases |es|
  {
    if es != [] {
      var first, rest := es[0], es[1..];
      assert first.Whole() && es == [first] + rest;
      var n := cursor + 2 + first.len as int;
      NextEntry(buf, cursor, n, len, es);
      FirstFound(buf, cursor, n, len, first);
      ParserInvertsEncoding(Apply(a, first), rest, buf, n, len);
      ApplySame(a, first, buf[n..]);
      ApplyFirst(a, es, first, rest);
      ApplyFirst(a, EntriesFrom(buf, cursor, len), first.Before(buf[n..]), EntriesFrom(buf, n, len));
    }
  }

  // ---------- What an application hears ----------

  function CallsOf(h: Option<Handler>, es: seq<Entry>): seq<AdvertCall>
    requires AllReadable(es)
  {
    if h.None? || es == [] then []
    else
      assert es[0].Readable();
      [AdvertCall(h.value, es[0].tag, es[0].mem[..es[0].len])] + CallsOf(h, es[1..])
  }

  lemma {:induction false} BodyHeard(a: Advert, es: seq<Entry>)
    requires AllReadable(es) && forall e <- es :: e.tag != TAG_GUID
    ensures var b := ApplyAll(a, es);
      && b.place.guid == a.place.guid && b.appListeners == a.appListeners
      && b.calls == a.calls + CallsOf(AppHandler(a.appListeners, a.place.guid), es)
    decreases |es|
  {
    if es != [] {
      assert es[0].tag != TAG_GUID && es[0].Readable();
      BodyHeard(Apply(a, es[0]), es[1..]);
    }
  }

  /** An application's entries, from its guid up to the next one, go to its own handler, each
      once and in order, after the previous application's handler has been told of the end. */
  lemma SectionHeard(a: Advert, g: Entry, es: seq<Entry>)
    requires g.tag == TAG_GUID && g.Readable() && AllReadable(es) && forall e <- es :: e.tag != TAG_GUID
    ensures AllReadable([g] + es)
    ensures ApplyAll(a, [g] + es).calls ==
      Told(a.calls, AppHandler(a.appListeners, a.place.guid), TAG_NULL, [])
        + CallsOf(AppHandler(a.appListeners, ReadU32(g.mem)), [g] + es)
  {
    assert ([g] + es)[1..] == es;
    BodyHeard(Apply(a, g), es);
  }

  // ---------- The code ----------

  class Registry {
    var decls: seq<ChanDecl>              // chan[n].guid, chanName, wake
    const callback: array<Option<Handler>>  // chan[n].callback and cookie
    var listeners: seq<Listener>          // chanListener[0..nextChanListener]
    var apps: seq<App>
    var nextOutSeq: seq<byte>             // chan[n].nextOutSeq, nextInSeq
    var nextInSeq: seq<byte>
    var appListeners: seq<AppListener>    // appListener[0..nextAppListener]
    var calls: seq<AdvertCall>            // calls made to advertisement handlers
    var outMaxPayload: u16
    var outMaxTransfer: u16
    var inMaxTransfer: u16
    var advertIdle: bool

    ghost predicate Valid()
      reads this
    {
      && callback.Length == MAX_CHANS && |decls| == |nextOutSeq| == |nextInSeq| == MAX_CHANS
      && |listeners| <= MAX_CHANS && |appListeners| <= MAX_APPS
      && |apps| <= MAX_APPS && (forall i, j :: 0 <= i < j < |apps| ==> apps[i].guid != apps[j].guid)
    }

    ghost predicate Coherent()
      reads this, callback
    {
      Valid() && forall c :: 0 <= c < MAX_CHANS ==> callback[c] == Lookup(listeners, decls[c])
    }

    /** The instance after shtp_open has cleared it: every entry is zero. */
    constructor ()
      ensures Coherent() && fresh(callback)
      ensures listeners == [] && apps == [] && appListeners == []
        && decls == seq(MAX_CHANS, _ => ChanDecl(0, [], false))
      ensures outMaxPayload == MAX_PAYLOAD_OUT && outMaxTransfer == MAX_TRANSFER_OUT
    {
      decls := seq(MAX_CHANS, _ => ChanDecl(0, [], false));
      callback := new Option<Handler>[MAX_CHANS](_ => None);
      nextOutSeq, nextInSeq := seq(MAX_CHANS, _ => 0), seq(MAX_CHANS, _ => 0);
      listeners, apps, appListeners, calls := [], [], [], [];
      outMaxPayload, outMaxTransfer, inMaxTransfer := MAX_PAYLOAD_OUT, MAX_TRANSFER_OUT, 0;
      advertIdle := false;
    }

    /** Search the listeners for one channel. */
    method FindCallback(d: ChanDecl) returns (h: Option<Handler>)
      ensures h == Lookup(listeners, d)
    {
      h := None;
      if d.guid == UNUSED_GUID {
        return;
      }
      for n := 0 to |listeners|
        invariant h == None && FirstAt(listeners, d, n)
      {
        if Matches(listeners[n], d) {
          LookupAt(listeners, d, n);
          return listeners[n].callback;
        }
      }
      LookupAt(listeners, d, |listeners|);
    }

    method UpdateCallbacks()
      requires Valid()
      modifies callback
      ensures Coherent()
    {
      for chanNo := 0 to MAX_CHANS
        invariant Valid()
        invariant forall c :: 0 <= c < chanNo ==> callback[c] == Lookup(listeners, decls[c])
      {
        callback[chanNo] := None;
        callback[chanNo] := FindCallback(decls[chanNo]);
      }
    }

    method AddChanListener(guid: u16, name: bytes, h: Option<Handler>) returns (rc: int)
      requires Coherent() && |name| < NAME_LEN
      modifies this`listeners, callback
      ensures Coherent()
      ensures rc == if |old(listeners)| >= 8 then -1 else 0
      ensures listeners == if rc == SH2_OK then old(listeners) + [Listener(guid, name, h)] else old(listeners)
    {
      if |listeners| >= MAX_CHANS {
        return SH2_ERR;
      }
      listeners := listeners + [Listener(guid, name, h)];
      UpdateCallbacks();
      rc := SH2_OK;
    }

    method ListenChan(guid: u16, name: bytes, h: Option<Handler>) returns (rc: int)
      requires Coherent() && |name| < NAME_LEN
      modifies this`listeners, callback
      ensures Coherent()
      ensures rc == if name == [] then -2 else if |old(listeners)| >= 8 then -1 else 0
      ensures listeners == if rc == SH2_OK then old(listeners) + [Listener(guid, name, h)] else old(listeners)
    {
      if name == [] {
        return SH2_ERR_BAD_PARAM;
      }
      rc := AddChanListener(guid, name, h);
    }

    method AddApp(guid: u32)
      requires Coherent()
      modifies this`apps, callback
      ensures Coherent() && apps == WithApp(old(apps), guid)
    {
      for n := 0 to |apps|
        invariant apps == old(apps) && Coherent()
        invariant forall m :: 0 <= m < n ==> apps[m].guid != guid
      {
        if apps[n].guid == guid {
          return;
        }
      }
      if |apps| >= MAX_APPS {
        return;
      }
      apps := apps + [App(guid, [])];
      UpdateCallbacks();
    }

    method SetAppName(guid: u32, name: bytes)
      requires Coherent() && |name| < NAME_LEN
      modifies this`apps
      ensures Coherent() && apps == WithAppName(old(apps), guid, name)
    {
      for n := 0 to |apps|
        invariant apps == old(apps) && Coherent()
        invariant forall m :: 0 <= m < n ==> apps[m].guid != guid
      {
        if apps[n].guid == guid {
          apps := apps[n := App(guid, name)];
          return;
        }
      }
    }

    method AddChannel(chanNo: byte, guid: u32, name: bytes, wake: bool)
      requires Coherent() && |name| < NAME_LEN
      modifies this`decls, this`nextOutSeq, this`nextInSeq, callback
      ensures Coherent() && decls == SetAt(old(decls), chanNo, ChanDecl(guid, name, wake))
      ensures nextOutSeq == SetAt(old(nextOutSeq), chanNo, 0) && nextInSeq == SetAt(old(nextInSeq), chanNo, 0)
    {
      if chanNo >= MAX_CHANS {
        return;
      }
      decls := decls[chanNo := ChanDecl(guid, name, wake)];
      nextOutSeq, nextInSeq := nextOutSeq[chanNo := 0], nextInSeq[chanNo := 0];
      callback[chanNo] := None;
      UpdateCallbacks();
    }

    method AddAdvertListener(guid: u16, h: Option<Handler>)
      requires Coherent()
      modifies this`appListeners
      ensures Coherent()
      ensures appListeners == if |old(appListeners)| < 5 then old(appListeners) + [AppListener(guid, h)]
        else old(appListeners)
    {
      if |appListeners| < MAX_APPS {
        appListeners := appListeners + [AppListener(guid, h)];
      }
    }

    ghost function Content(): Tables
      reads this
    {
      Tables(decls, nextOutSeq, nextInSeq, apps, outMaxPayload, outMaxTransfer, inMaxTransfer)
    }

    ghost function State(place: Place): Advert
      reads this
    {
      Advert(Content(), place, appListeners, calls)
    }

    method CallAdvertHandler(guid: u32, tag: byte, val: bytes)
      modifies this`calls
      ensures calls == Told(old(calls), AppHandler(appListeners, guid), tag, val)
    {
      for n := 0 to |appListeners|
        invariant calls == old(calls) && AppHandler(appListeners, guid) == AppHandler(appListeners[n..], guid)
      {
        if appListeners[n].guid == guid {
          if appListeners[n].callback.Some? {
            calls := calls + [AdvertCall(appListeners[n].callback.value, tag, val)];
            return;
          }
        }
      }
    }

    /** The body of the parser's switch. */
    method StoreEntry(e: Entry, place: Place) returns (place': Place)
      requires Coherent() && e.Readable()
      modifies this`decls, this`nextOutSeq, this`nextInSeq, this`apps, callback
      modifies this`outMaxPayload, this`outMaxTransfer, this`inMaxTransfer
      ensures Coherent() && Content() == Stored(old(Content()), place, e) && place' == Moved(place, e)
    {
      var guid, chanNo, wake := place.guid, place.chanNo, place.wake;
      var tag, val := e.tag, e.mem;
      if tag == TAG_GUID {
        guid := ReadU32(val);
        AddApp(guid);
      } else if tag == TAG_MAX_CARGO_PLUS_HEADER_WRITE {
        var x := LessHeader(ReadU16(val));
        if x < MAX_PAYLOAD_OUT {
          outMaxPayload := x;
        }
      } else if tag == TAG_MAX_TRANSFER_WRITE {
        var x := LessHeader(ReadU16(val));
        if x < MAX_TRANSFER_OUT {
          outMaxTransfer := x;
        } else {
          outMaxTransfer := MAX_TRANSFER_OUT;
        }
      } else if tag == TAG_MAX_TRANSFER_READ {
        var x := LessHeader(ReadU16(val));
        if x < MAX_TRANSFER_IN {
          inMaxTransfer := x;
        }
      } else if tag == TAG_NORMAL_CHANNEL {
        chanNo, wake := val[0], false;
      } else if tag == TAG_WAKE_CHANNEL {
        chanNo, wake := val[0], true;
      } else if tag == TAG_APP_NAME {
        SetAppName(guid, CString(val));
      } else if tag == TAG_CHANNEL_NAME {
        AddChannel(chanNo, guid, CString(val), wake);
        if chanNo < MAX_CHANS {
          // The code stores the definition a second time, after the cache was refreshed.
          decls := decls[chanNo := ChanDecl(guid, CString(val), wake)];
        }
      }
      place' := Place(guid, chanNo, wake);
    }

    /** One entry of an advertisement, stored and passed on to the application's handler. */
    method ProcessTag(e: Entry, place: Place) returns (place': Place)
      requires Coherent() && e.Readable()
      modifies this`decls, this`nextOutSeq, this`nextInSeq, this`apps, this`calls, callback
      modifies this`outMaxPayload, this`outMaxTransfer, this`inMaxTransfer
      ensures Coherent() && State(place') == Apply(old(State(place)), e)
    {
      if e.tag == TAG_GUID {
        CallAdvertHandler(place.guid, TAG_NULL, []);
      }
      place' := StoreEntry(e, place);
      CallAdvertHandler(place'.guid, e.tag, e.mem[..e.len]);
    }

    /** One round of the parser's loop. */
    method NextOne(buf: bytes, cursor: nat, len: nat, place: Place, ghost all: Advert)
        returns (next: nat, place': Place)
      requires Coherent() && len + 0x101 <= |buf| && cursor < len && ToApply(State(place), buf, cursor, len, all)
      modifies this`decls, this`nextOutSeq, this`nextInSeq, this`apps, this`calls, callback
      modifies this`outMaxPayload, this`outMaxTransfer, this`inMaxTransfer
      ensures Coherent() && cursor < next <= cursor + 0x101 && ToApply(State(place'), buf, next, len, all)
    {
      var e := Entry(buf[cursor], buf[cursor + 1], buf[cursor + 2..]);
      next := cursor + 2 + e.len;
      ApplyNext(State(place), buf, cursor, len, all, e, next);
      place' := ProcessTag(e, place);
    }

    /** Parsing a payload of `len` bytes applies its entries, in order, ends, and leaves the
        cache coherent. Byte 0 is the response code. The cursor has 16 bits, which is enough for
        a payload that fits the receive buffer. */
    method ProcessAdvertisement(buf: bytes, len: nat)
      requires Coherent() && len <= MAX_PAYLOAD_IN && len + 0x101 <= |buf| && AllReadable(EntriesFrom(buf, 1, len))
      modifies this
      modifies callback
      ensures Coherent() && listeners == old(listeners) && advertIdle
      ensures State(START) == Advertised(old(State(START)), EntriesFrom(buf, 1, len))
    {
      advertIdle := true;
      var cursor, place := 1, START;
      ghost var all := ApplyAll(State(START), EntriesFrom(buf, 1, len));
      while cursor < len
        invariant cursor <= len + 0x101 <= 0xFFFF
        invariant Coherent() && listeners == old(listeners) && advertIdle
        invariant ToApply(State(place), buf, cursor, len, all)
        decreases len - cursor
      {
        cursor, place := NextOne(buf, cursor, len, place, all);
      }
      CallAdvertHandler(place.guid, TAG_NULL, []);
    }
  }

  /** `all` is what the entries from `cursor` on make of `a`. */
  ghost predicate ToApply(a: Advert, buf: bytes, cursor: nat, len: nat, all: Advert)
    requires len + 0x101 <= |buf|
  {
    AllReadable(EntriesFrom(buf, cursor, len)) && ApplyAll(a, EntriesFrom(buf, cursor, len)) == all
  }

  lemma ApplyNext(a: Advert, buf: bytes, cursor: nat, len: nat, all: Advert, e: Entry, next: nat)
    requires len + 0x101 <= |buf| && cursor < len && ToApply(a, buf, cursor, len, all)
    requires e == Entry(buf[cursor], buf[cursor + 1], buf[cursor + 2..]) && next == cursor + 2 + e.len
    ensures e.Readable() && ToApply(Apply(a, e), buf, next, len, all)
  {
    var es := EntriesFrom(buf, cursor, len);
    assert es[0] == e && es[1..] == EntriesFrom(buf, next, len);
  }

  // ---------- Whole runs ----------

  datatype Op =
    | Listen(guid: u16, name: bytes, handler: Option<Handler>)
    | Channel(chanNo: byte, decl: ChanDecl)
    | NewApp(appGuid: u32)
    | ListenAdvert(app: u16, advertHandler: Option<Handler>)
    | Advertise(entries: seq<Entry>)
  {
    predicate Ok() {
      match this
      case Listen(_, n, _) => |n| < NAME_LEN
      case Channel(_, d) => |d.name| < NAME_LEN
      case NewApp(_) => true
      case ListenAdvert(_, _) => true
      case Advertise(es) => AllWhole(es) && |Encode(es)| < MAX_PAYLOAD_IN
    }
  }

  predicate AllOk(ops: seq<Op>) {
    forall op <- ops :: op.Ok()
  }

  /** The listeners accepted during a run, in order. */
  function Registered(ls: seq<Listener>, ops: seq<Op>): seq<Listener>
    decreases |ops|
  {
    if ops == [] then ls
    else if ops[0].Listen? && |ls| < MAX_CHANS then
      Registered(ls + [Listener(ops[0].guid, ops[0].name, ops[0].handler)], ops[1..])
    else Registered(ls, ops[1..])
  }

  function Step(a: Advert, op: Op): Advert
    requires op.Ok()
  {
    match op
    case Listen(_, _, _) => a
    case Channel(n, d) => a.(tables := Declare(a.tables, n, d))
    case NewApp(g) => a.(tables := a.tables.(apps := WithApp(a.tables.apps, g)))
    case ListenAdvert(g, h) =>
      a.(appListeners := if |a.appListeners| < MAX_APPS then a.appListeners + [AppListener(g, h)] else a.appListeners)
    case Advertise(es) =>
      assert AllReadable(es) by {
        forall e <- es ensures e.Readable() {
          assert e.Whole();
        }
      }
      Advertised(a, es)
  }

  /** Everything at the end of a run. */
  function AfterAll(a: Advert, ops: seq<Op>): Advert
    requires AllOk(ops)
    decreases |ops|
  {
    if ops == [] then a else AfterAll(Step(a, ops[0]), ops[1..])
  }

  lemma {:induction false} ChannelsStay(a: Advert, es: seq<Entry>)
    requires AllReadable(es)
    ensures |ApplyAll(a, es).tables.decls| == |a.tables.decls|
    decreases |es|
  {
    if es != [] {
      ChannelsStay(Apply(a, es[0]), es[1..]);
    }
  }

  lemma {:induction false} TablesChannels(a: Advert, ops: seq<Op>)
    requires AllOk(ops)
    ensures |AfterAll(a, ops).tables.decls| == |a.tables.decls|
    decreases |ops|
  {
    if ops != [] {
      assert ops[0].Ok();
      if ops[0].Advertise? {
        ChannelsStay(a.(place := START), ops[0].entries);
      }
      TablesChannels(Step(a, ops[0]), ops[1..]);
    }
  }

  /** One operation of a run. */
  method RunOne(r: Registry, op: Op)
    requires r.Coherent() && op.Ok()
    modifies r, r.callback
    ensures r.Coherent() && r.State(START) == Step(old(r.State(START)), op)
    ensures r.listeners == Registered(old(r.listeners), [op])
  {
    match op
    case Listen(guid, name, h) => var rc := r.AddChanListener(guid, name, h);
    case Channel(n, d) => r.AddChannel(n, d.guid, d.name, d.wake);
    case NewApp(g) => r.AddApp(g);
    case ListenAdvert(g, h) => r.AddAdvertListener(g, h);
    case Advertise(es) =>
      var payload, after := [0] + Encode(es), seq(0x101, _ => 0);
      assert (payload + after)[1..|payload|] == Encode(es);
      ParserInvertsEncoding(r.State(START), es, payload + after, 1, |payload|);
      r.ProcessAdvertisement(payload + after, |payload|);
  }

  /** After any run of registrations, channel and app additions and advertisements, every
      cached callback is the first accepted listener for the channel's latest definition, and
      null when there is none. */
  method RunAll(r: Registry, ops: seq<Op>)
    requires r.Coherent() && AllOk(ops)
    modifies r, r.callback
    ensures r.Coherent() && |AfterAll(old(r.State(START)), ops).tables.decls| == MAX_CHANS
    ensures forall c :: 0 <= c < MAX_CHANS ==>
      r.callback[c] == Lookup(Registered(old(r.listeners), ops), AfterAll(old(r.State(START)), ops).tables.decls[c])
  {
    TablesChannels(r.State(START), ops);
    for i := 0 to |ops|
      invariant r.Coherent()
      invariant Registered(r.listeners, ops[i..]) == Registered(old(r.listeners), ops)
      invariant AfterAll(r.State(START), ops[i..]) == AfterAll(old(r.State(START)), ops)
    {
      assert ops[i..][0] == ops[i] && ops[i..][1..] == ops[i + 1..];
      RunOne(r, ops[i]);
    }
    assert ops[|ops|..] == [];
  }

  function Listens(ops: seq<Op>): seq<Op> {
    if ops == [] then [] else (if ops[0].Listen? then [ops[0]] else []) + Listens(ops[1..])
  }

  function Others(ops: seq<Op>): (r: seq<Op>)
    ensures AllOk(ops) ==> AllOk(r)
  {
    if ops == [] then [] else (if ops[0].Listen? then [] else [ops[0]]) + Others(ops[1..])
  }

  /** How registrations interleave with changes to the tables does not matter: only the order
      within each kind does. */
  lemma {:induction false} InterleavingIrrelevant(ls: seq<Listener>, a: Advert, ops: seq<Op>)
    requires AllOk(ops)
    ensures Registered(ls, ops) == Registered(ls, Listens(ops))
    ensures AfterAll(a, ops) == AfterAll(a, Others(ops))
    decreases |ops|
  {
    if ops != [] {
      var op, rest := ops[0], ops[1..];
      if op.Listen? {
        assert Listens(ops)[1..] == Listens(rest);
        assert Others(ops) == Others(rest);
        InterleavingIrrelevant(if |ls| < MAX_CHANS then ls + [Listener(op.guid, op.name, op.handler)] else ls, a, rest);
      } else {
        assert Others(ops)[1..] == Others(rest);
        assert Listens(ops) == Listens(rest);
        InterleavingIrrelevant(ls, Step(a, op), rest);
      }
    }
  }

  /** What an advertised write limit does to txProcess. It leaves no room for a byte, so that
      no payload is ever sent, exactly when it is 8. From 4 to 7 it is no limit at all: n bytes
      go out as one transfer, which stays inside the out buffer exactly when n is at most 252.
      A limit above 8 is kept to; one below 4 is taken for 256. */
  lemma TransferLimitEffect(a: Advert, val: bytes, n: nat)
    requires 2 <= |val| < 0x100 && n <= 0x1_0000 - HDR_LEN
    ensures var limit, m := ReadU16(val), Apply(a, Entry(TAG_MAX_TRANSFER_WRITE, |val|, val)).tables.outMaxTransfer;
      && m <= MAX_TRANSFER_OUT && (m == HDR_LEN <==> limit == 8) && (LessHeader(m) == 0 <==> limit == 8)
      && (4 <= limit < 8 ==> Min(n, LessHeader(m)) == n)
      && m == (if limit < 4 then MAX_TRANSFER_OUT else Min(limit - HDR_LEN, MAX_TRANSFER_OUT))
      && (limit > 8 ==> Min(n, LessHeader(m)) + HDR_LEN <= limit)
      && (limit < 8 ==> (Min(n, LessHeader(m)) + HDR_LEN > limit <==> limit < 4 || n + HDR_LEN > limit))
      && (FitsBuffer(n, m) <==> !(4 <= limit < 8) || n <= MAX_TRANSFER_OUT - HDR_LEN)
  {
    var m := Apply(a, Entry(TAG_MAX_TRANSFER_WRITE, |val|, val)).tables.outMaxTransfer;
    assert m == Min(LessHeader(ReadU16(val)), MAX_TRANSFER_OUT);
    FitsBufferIff(n, m);
  }
}
