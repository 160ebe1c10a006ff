/**
 * What an advertisement means: which channels, applications and limits it leaves behind, said
 * of its entries and their tags, and what its handlers are told (shtp.c, processAdvertisement).
 */
module ShtpAdvert {
  import opened Bytes
  import opened Shtp
  import opened ShtpRegistry

  // ---------- What the entries say ----------

  /** The guid in force at entry i: that of the latest guid entry, 0 before the first. */
  function GuidAt(es: seq<Entry>, i: nat): u32
    requires i <= |es| && AllReadable(es)
  {
    if i == 0 then 0 else if es[i - 1].tag == 1 then assert es[i - 1].Readable(); ReadU32(es[i - 1].mem)
      else GuidAt(es, i - 1)
  }

  /** The channel number of the latest normal or wake channel entry, 0 before the first. */
  function ChannelAt(es: seq<Entry>, i: nat): byte
    requires i <= |es| && AllReadable(es)
  {
    if i == 0 then 0
    else if es[i - 1].tag == 6 || es[i - 1].tag == 7 then assert es[i - 1].Readable(); es[i - 1].mem[0]
    else ChannelAt(es, i - 1)
  }

  /** Whether it was a wake channel entry. */
  function WakeAt(es: seq<Entry>, i: nat): bool
    requires i <= |es|
  {
    i > 0 && (es[i - 1].tag == 7 || (es[i - 1].tag != 6 && WakeAt(es, i - 1)))
  }

  /** The bytes of `mem` up to its first zero byte. */
  predicate IsCString(name: bytes, mem: bytes) {
    |name| < |mem| && name == mem[..|name|] && 0 !in name && mem[|name|] == 0
  }

  lemma {:induction false} CStringIs(mem: bytes)
    requires |CString(mem)| < |mem|
    ensures IsCString(CString(mem), mem)
    decreases |mem|
  {
    if mem[0] != 0 {
      CStringIs(mem[1..]);
      assert mem == [mem[0]] + mem[1..];
    }
  }

  // ---------- Entry by entry ----------

  /** Everything before entry i, the parser's own variables starting from zero. */
  function Before(a: Advert, es: seq<Entry>, i: nat): Advert
    requires i <= |es| && AllReadable(es)
  {
    ApplyAll(a.(place := START), es[..i])
  }

  lemma {:induction false} ApplyMore(a: Advert, es: seq<Entry>, e: Entry)
    requires AllReadable(es) && e.Readable()
    ensures AllReadable(es + [e]) && ApplyAll(a, es + [e]) == Apply(ApplyAll(a, es), e)
    decreases |es|
  {
    if es == [] {
      assert [] + [e] == [e] && [e][1..] == [];
    } else {
      assert (es + [e])[1..] == es[1..] + [e];
      ApplyMore(Apply(a, es[0]), es[1..], e);
    }
  }

  lemma BeforeNext(a: Advert, es: seq<Entry>, i: nat, next: nat)
    requires next == i + 1 <= |es| && AllReadable(es)
    ensures es[i].Readable() && Before(a, es, next) == Apply(Before(a, es, i), es[i])
  {
    assert es[i].Readable() && es[..next] == es[..i] + [es[i]];
    ApplyMore(a.(place := START), es[..i], es[i]);
  }

  /** The parser's variables are what the entries say. */
  lemma {:induction false} PlaceAt(a: Advert, es: seq<Entry>, i: nat)
    requires i <= |es| && AllReadable(es)
    ensures Before(a, es, i).place == Place(GuidAt(es, i), ChannelAt(es, i), WakeAt(es, i))
    ensures Before(a, es, i).appListeners == a.appListeners
    decreases i
  {
    if i > 0 {
      PlaceAt(a, es, i - 1);
      BeforeNext(a, es, i - 1, i);
    }
  }

  // ---------- Channels ----------

  /** Entry i is the name of channel n. */
  predicate Names(es: seq<Entry>, i: nat, n: nat)
    requires i < |es| && AllReadable(es)
  {
    es[i].tag == 9 && ChannelAt(es, i) == n
  }

  /** It is the last one, of those before entry `end`. */
  ghost predicate LastName(es: seq<Entry>, end: nat, i: nat, n: nat)
    requires end <= |es| && AllReadable(es)
  {
    i < end && Names(es, i, n) && forall j :: i < j < end ==> !Names(es, j, n)
  }

  ghost predicate Unnamed(es: seq<Entry>, end: nat, n: nat)
    requires end <= |es| && AllReadable(es)
  {
    forall i :: 0 <= i < end ==> !Names(es, i, n)
  }

  /** Channel n is as entry i defines it: its guid, its name up to the terminator, its wake flag,
      and both numbers zero. */
  predicate DefinedBy(t: Tables, es: seq<Entry>, i: nat, n: nat)
    requires i < |es| && AllReadable(es)
  {
    && n < |t.decls| == |t.nextOutSeq| == |t.nextInSeq|
    && t.decls[n].guid == GuidAt(es, i) && t.decls[n].wake == WakeAt(es, i) && IsCString(t.decls[n].name, es[i].mem)
    && t.nextOutSeq[n] == 0 && t.nextInSeq[n] == 0
  }

  predicate SameChannel(t: Tables, t': Tables, n: nat) {
    && |t.decls| == |t.nextOutSeq| == |t.nextInSeq| == |t'.decls| == |t'.nextOutSeq| == |t'.nextInSeq|
    && (n < |t.decls| ==>
          t'.decls[n] == t.decls[n] && t'.nextOutSeq[n] == t.nextOutSeq[n] && t'.nextInSeq[n] == t.nextInSeq[n])
  }

  lemma ChannelStep(t: Tables, p: Place, e: Entry, n: nat)
    requires e.Readable() && n < |t.decls| == |t.nextOutSeq| == |t.nextInSeq|
    ensures var t' := Stored(t, p, e);
      if e.tag == 9 && p.chanNo == n then
        && n < |t'.decls| == |t'.nextOutSeq| == |t'.nextInSeq|
        && t'.decls[n].guid == p.guid && t'.decls[n].wake == p.wake && IsCString(t'.decls[n].name, e.mem)
        && t'.nextOutSeq[n] == 0 && t'.nextInSeq[n] == 0
      else SameChannel(t, t', n)
  {
    if e.tag == 9 {
      CStringIs(e.mem);
    }
  }

  lemma {:induction false} ChannelsBefore(a: Advert, es: seq<Entry>, end: nat, n: nat)
    requires end <= |es| && AllReadable(es) && n < |a.tables.decls| == |a.tables.nextOutSeq| == |a.tables.nextInSeq|
    ensures forall i: nat :: LastName(es, end, i, n) ==> DefinedBy(Before(a, es, end).tables, es, i, n)
    ensures Unnamed(es, end, n) ==> SameChannel(a.tables, Before(a, es, end).tables, n)
    ensures var t := Before(a, es, end).tables; n < |t.decls| == |t.nextOutSeq| == |t.nextInSeq|
    decreases end
  {
    if end > 0 {
      var last := end - 1;
      ChannelsBefore(a, es, last, n);
      PlaceAt(a, es, last);
      BeforeNext(a, es, last, end);
      ChannelStep(Before(a, es, last).tables, Before(a, es, last).place, es[last], n);
      assert Unnamed(es, end, n) ==> Unnamed(es, last, n) && !Names(es, last, n);
      forall i: nat | LastName(es, end, i, n)
        ensures DefinedBy(Before(a, es, end).tables, es, i, n)
      {
        if i < last {
          assert LastName(es, last, i, n) && !Names(es, last, n);
        }
      }
    }
  }

  /** After any advertisement, channel n is exactly as the last entry that names it says, with
      both numbers zero, and as it was when no entry names it. */
  lemma ChannelsAdvertised(a: Advert, es: seq<Entry>, n: nat)
    requires AllReadable(es) && n < |a.tables.decls| == |a.tables.nextOutSeq| == |a.tables.nextInSeq|
    ensures forall i: nat :: LastName(es, |es|, i, n) ==> DefinedBy(Advertised(a, es).tables, es, i, n)
    ensures Unnamed(es, |es|, n) ==> SameChannel(a.tables, Advertised(a, es).tables, n)
  {
    assert es[..|es|] == es;
    ChannelsBefore(a, es, |es|, n);
  }

  // ---------- Applications ----------

  predicate HasApp(apps: seq<App>, guid: u32) {
    exists j :: 0 <= j < |apps| && apps[j].guid == guid
  }

  predicate UniqueApps(apps: seq<App>) {
    forall j, k :: 0 <= j < k < |apps| ==> apps[j].guid != apps[k].guid
  }

  /** Entry i is a guid entry for `guid`. */
  predicate Introduces(es: seq<Entry>, i: nat, guid: u32)
    requires i < |es| && AllReadable(es)
  {
    es[i].tag == 1 && assert es[i].Readable(); ReadU32(es[i].mem) == guid
  }

  /** One of the first `end` entries introduces this guid. */
  ghost predicate Introduced(es: seq<Entry>, end: nat, guid: u32)
    requires end <= |es| && AllReadable(es)
  {
    exists k: nat :: k < end && Introduces(es, k, guid)
  }

  lemma IntroducedMore(es: seq<Entry>, end: nat, next: nat, guid: u32)
    requires next == end + 1 <= |es| && AllReadable(es)
    ensures Introduced(es, next, guid) <==> Introduced(es, end, guid) || Introduces(es, end, guid)
  {
  }

  /** Entry i is the name of an application that is there by then. */
  ghost predicate NamesApp(apps: seq<App>, es: seq<Entry>, i: nat, guid: u32)
    requires i < |es| && AllReadable(es)
  {
    es[i].tag == 8 && GuidAt(es, i) == guid && (HasApp(apps, guid) || Introduced(es, i, guid))
  }

  ghost predicate LastAppName(apps: seq<App>, es: seq<Entry>, end: nat, i: nat, guid: u32)
    requires end <= |es| && AllReadable(es)
  {
    i < end && NamesApp(apps, es, i, guid) && forall j :: i < j < end ==> !NamesApp(apps, es, j, guid)
  }

  ghost predicate UnnamedApp(apps: seq<App>, es: seq<Entry>, end: nat, guid: u32)
    requires end <= |es| && AllReadable(es)
  {
    forall i :: 0 <= i < end ==> !NamesApp(apps, es, i, guid)
  }

  /** Application j of `apps'`, which were `apps` before the first `end` entries. */
  ghost predicate AppIs(apps: seq<App>, es: seq<Entry>, end: nat, apps': seq<App>, j: nat)
    requires end <= |es| && AllReadable(es) && j < |apps'|
  {
    var guid, name := apps'[j].guid, apps'[j].name;
    && (if j < |apps| then guid == apps[j].guid else !HasApp(apps, guid) && Introduced(es, end, guid))
    && (forall i: nat :: LastAppName(apps, es, end, i, guid) ==> IsCString(name, es[i].mem))
    && (UnnamedApp(apps, es, end, guid) ==> name == if j < |apps| then apps[j].name else [])
  }

  ghost predicate EachAppIs(apps: seq<App>, es: seq<Entry>, end: nat, apps': seq<App>)
    requires end <= |es| && AllReadable(es)
  {
    forall j: nat :: j < |apps'| ==> AppIs(apps, es, end, apps', j)
  }

  /** Whatever is introduced is there, while there is room. */
  ghost predicate AllIntroduced(es: seq<Entry>, end: nat, apps': seq<App>)
    requires end <= |es| && AllReadable(es)
  {
    forall guid: u32 :: Introduced(es, end, guid) ==> HasApp(apps', guid) || |apps'| >= 5
  }

  ghost predicate AppsAre(apps: seq<App>, es: seq<Entry>, end: nat, apps': seq<App>)
    requires end <= |es| && AllReadable(es)
  {
    && |apps| <= |apps'| && UniqueApps(apps') && (|apps'| > |apps| ==> |apps'| <= 5)
    && EachAppIs(apps, es, end, apps') && AllIntroduced(es, end, apps')
  }

  /** An entry that does not name an application leaves what names it. */
  lemma AppIsMore(apps: seq<App>, es: seq<Entry>, end: nat, next: nat, apps': seq<App>, apps'': seq<App>, j: nat)
    requires next == end + 1 <= |es| && AllReadable(es) && j < |apps'| && AppIs(apps, es, end, apps', j)
    requires j < |apps''| && apps''[j] == apps'[j] && !NamesApp(apps, es, end, apps'[j].guid)
    ensures AppIs(apps, es, next, apps'', j)
  {
    var guid := apps'[j].guid;
    forall i: nat | LastAppName(apps, es, next, i, guid)
      ensures LastAppName(apps, es, end, i, guid)
    {
    }
    assert UnnamedApp(apps, es, next, guid) ==> UnnamedApp(apps, es, end, guid);
  }

  lemma AppsKept(apps: seq<App>, es: seq<Entry>, end: nat, apps': seq<App>, guid: u32)
    requires end <= |es| && AllReadable(es) && AppsAre(apps, es, end, apps')
    ensures HasApp(apps, guid) ==> HasApp(apps', guid)
  {
    if HasApp(apps, guid) {
      var j :| 0 <= j < |apps| && apps[j].guid == guid;
      assert AppIs(apps, es, end, apps', j);
    }
  }

  /** `apps''` has the guids of `apps'`, and perhaps more behind them. */
  predicate Grows(apps': seq<App>, apps'': seq<App>) {
    |apps'| <= |apps''| && forall j :: 0 <= j < |apps'| ==> apps''[j].guid == apps'[j].guid
  }

  lemma StillThere(apps': seq<App>, apps'': seq<App>, guid: u32)
    requires Grows(apps', apps'')
    ensures HasApp(apps', guid) ==> HasApp(apps'', guid)
  {
    if HasApp(apps', guid) {
      var j :| 0 <= j < |apps'| && apps'[j].guid == guid;
      assert apps''[j].guid == guid;
    }
  }

  lemma AllStillThere(es: seq<Entry>, end: nat, next: nat, apps': seq<App>, apps'': seq<App>)
    requires next == end + 1 <= |es| && AllReadable(es) && AllIntroduced(es, end, apps') && Grows(apps', apps'')
    requires forall guid: u32 :: Introduces(es, end, guid) ==> HasApp(apps'', guid) || |apps''| >= 5
    ensures AllIntroduced(es, next, apps'')
  {
    forall guid: u32 | Introduced(es, next, guid)
      ensures HasApp(apps'', guid) || |apps''| >= 5
    {
      IntroducedMore(es, end, next, guid);
      StillThere(apps', apps'', guid);
    }
  }

  lemma AppIsNew(apps: seq<App>, es: seq<Entry>, end: nat, next: nat, apps': seq<App>, guid: u32)
    requires next == end + 1 <= |es| && AllReadable(es) && AppsAre(apps, es, end, apps') && Introduces(es, end, guid)
    requires !HasApp(apps', guid) && |apps'| < 5
    ensures AppsAre(apps, es, next, apps' + [App(guid, [])])
  {
    var apps'' := apps' + [App(guid, [])];
    AppsKept(apps, es, end, apps', guid);
    forall i: nat | i < next
      ensures !NamesApp(apps, es, i, guid)
    {
      assert Introduced(es, i, guid) ==> Introduced(es, end, guid);
    }
    forall j: nat | j < |apps''|
      ensures AppIs(apps, es, next, apps'', j)
    {
      if j < |apps'| {
        AppIsMore(apps, es, end, next, apps', apps'', j);
      }
    }
    assert apps''[|apps'|].guid == guid;
    AllStillThere(es, end, next, apps', apps'');
  }

  lemma AppsSame(apps: seq<App>, es: seq<Entry>, end: nat, next: nat, apps': seq<App>)
    requires next == end + 1 <= |es| && AllReadable(es) && AppsAre(apps, es, end, apps') && es[end].tag != 8
    requires forall guid: u32 :: Introduces(es, end, guid) ==> HasApp(apps', guid) || |apps'| >= 5
    ensures AppsAre(apps, es, next, apps')
  {
    forall j: nat | j < |apps'|
      ensures AppIs(apps, es, next, apps', j)
    {
      AppIsMore(apps, es, end, next, apps', apps', j);
    }
    AllStillThere(es, end, next, apps', apps');
  }

  lemma AppsNamed(apps: seq<App>, es: seq<Entry>, end: nat, next: nat, apps': seq<App>, name: bytes)
    requires next == end + 1 <= |es| && AllReadable(es) && AppsAre(apps, es, end, apps') && es[end].tag == 8
    requires IsCString(name, es[end].mem)
    ensures AppsAre(apps, es, next, WithAppName(apps', GuidAt(es, end), name))
  {
    var apps'' := WithAppName(apps', GuidAt(es, end), name);
    StillUnique(apps', GuidAt(es, end), name);
    forall j: nat | j < |apps''|
      ensures AppIs(apps, es, next, apps'', j)
    {
      AppNamed(apps, es, end, next, apps', apps'', j, name);
    }
    AllStillThere(es, end, next, apps', apps'');
  }

  lemma StillUnique(apps: seq<App>, guid: u32, name: bytes)
    requires UniqueApps(apps)
    ensures UniqueApps(WithAppName(apps, guid, name)) && Grows(apps, WithAppName(apps, guid, name))
  {
  }

  lemma AppNamed(apps: seq<App>, es: seq<Entry>, end: nat, next: nat, apps': seq<App>, apps'': seq<App>, j: nat,
                 name: bytes)
    requires next == end + 1 <= |es| && AllReadable(es) && es[end].tag == 8 && IsCString(name, es[end].mem)
    requires apps'' == WithAppName(apps', GuidAt(es, end), name)
    requires j < |apps'| && AppIs(apps, es, end, apps', j)
    ensures AppIs(apps, es, next, apps'', j)
  {
    if apps'[j].guid == GuidAt(es, end) {
      AppIsNamed(apps, es, end, next, apps', apps'', j, name);
    } else {
      AppIsMore(apps, es, end, next, apps', apps'', j);
    }
  }

  lemma AppIsNamed(apps: seq<App>, es: seq<Entry>, end: nat, next: nat, apps': seq<App>, apps'': seq<App>, j: nat,
                   name: bytes)
    requires next == end + 1 <= |es| && AllReadable(es) && es[end].tag == 8 && IsCString(name, es[end].mem)
    requires j < |apps'| && AppIs(apps, es, end, apps', j) && apps'[j].guid == GuidAt(es, end)
    requires j < |apps''| && apps''[j] == App(apps'[j].guid, name)
    ensures AppIs(apps, es, next, apps'', j)
  {
    var guid := apps'[j].guid;
    assert j < |apps| ==> HasApp(apps, guid);
    assert NamesApp(apps, es, end, guid);
    IntroducedMore(es, end, next, guid);
    NamedLast(apps, es, end, next, guid);
  }

  /** The newest entry that names an application is the last one. */
  lemma NamedLast(apps: seq<App>, es: seq<Entry>, end: nat, next: nat, guid: u32)
    requires next == end + 1 <= |es| && AllReadable(es) && NamesApp(apps, es, end, guid)
    ensures !UnnamedApp(apps, es, next, guid) && forall i: nat :: LastAppName(apps, es, next, i, guid) ==> i == end
  {
  }

  lemma {:induction false} AppsBefore(a: Advert, es: seq<Entry>, end: nat)
    requires end <= |es| && AllReadable(es) && UniqueApps(a.tables.apps)
    ensures AppsAre(a.tables.apps, es, end, Before(a, es, end).tables.apps)
    decreases end
  {
    if end > 0 {
      var last := end - 1;
      var e, apps, apps' := es[last], a.tables.apps, Before(a, es, last).tables.apps;
      AppsBefore(a, es, last);
      PlaceAt(a, es, last);
      BeforeNext(a, es, last, end);
      if e.tag == 8 {
        CStringIs(e.mem);
        AppsNamed(apps, es, last, end, apps', CString(e.mem));
      } else if e.tag == 1 && !HasApp(apps', ReadU32(e.mem)) && |apps'| < 5 {
        AppIsNew(apps, es, last, end, apps', ReadU32(e.mem));
      } else {
        AppsSame(apps, es, last, end, apps');
      }
    }
  }

  /** After any advertisement the applications are those there were and the new ones it
      introduces, up to five in all, each with the name the last entry that names it gives. */
  lemma AppsAdvertised(a: Advert, es: seq<Entry>)
    requires AllReadable(es) && UniqueApps(a.tables.apps)
    ensures AppsAre(a.tables.apps, es, |es|, Advertised(a, es).tables.apps)
  {
    assert es[..|es|] == es;
    AppsBefore(a, es, |es|);
  }

  // ---------- Limits ----------

  /** The value of entry i, if it has this tag and a value from 4 up to `bound`. */
  predicate Limits(es: seq<Entry>, i: nat, tag: byte, bound: nat)
    requires i < |es| && AllReadable(es) && 2 <= tag <= 5
  {
    es[i].tag == tag && assert es[i].Readable(); 4 <= ReadU16(es[i].mem) < bound
  }

  ghost predicate LastLimit(es: seq<Entry>, end: nat, i: nat, tag: byte, bound: nat)
    requires end <= |es| && AllReadable(es) && 2 <= tag <= 5
  {
    i < end && Limits(es, i, tag, bound) && forall j :: i < j < end ==> !Limits(es, j, tag, bound)
  }

  ghost predicate Unlimited(es: seq<Entry>, end: nat, tag: byte, bound: nat)
    requires end <= |es| && AllReadable(es) && 2 <= tag <= 5
  {
    forall i :: 0 <= i < end ==> !Limits(es, i, tag, bound)
  }

  /** The last write-transfer entry, of whatever value. */
  ghost predicate LastTransfer(es: seq<Entry>, end: nat, i: nat)
    requires end <= |es|
  {
    i < end && es[i].tag == 4 && forall j :: i < j < end ==> es[j].tag != 4
  }

  ghost predicate LimitsAre(t: Tables, es: seq<Entry>, end: nat, t': Tables)
    requires end <= |es| && AllReadable(es)
  {
    && (forall i: nat :: LastLimit(es, end, i, 2, 260) ==> t'.outMaxPayload == ValueAt(es, i) - 4)
    && (Unlimited(es, end, 2, 260) ==> t'.outMaxPayload == t.outMaxPayload)
    && (forall i: nat :: LastLimit(es, end, i, 5, 388) ==> t'.inMaxTransfer == ValueAt(es, i) - 4)
    && (Unlimited(es, end, 5, 388) ==> t'.inMaxTransfer == t.inMaxTransfer)
    && (forall i: nat :: LastTransfer(es, end, i) ==>
          t'.outMaxTransfer == if 4 <= ValueAt(es, i) < 260 then ValueAt(es, i) - 4 else 256)
    && ((forall i: nat :: i < end ==> es[i].tag != 4) ==> t'.outMaxTransfer == t.outMaxTransfer)
  }

  function ValueAt(es: seq<Entry>, i: nat): u16
    requires i < |es| && AllReadable(es) && 2 <= es[i].tag <= 5
  {
    assert es[i].Readable();
    ReadU16(es[i].mem)
  }

  lemma {:induction false} LimitsBefore(a: Advert, es: seq<Entry>, end: nat)
    requires end <= |es| && AllReadable(es)
    ensures LimitsAre(a.tables, es, end, Before(a, es, end).tables)
    decreases end
  {
    if end > 0 {
      var last := end - 1;
      LimitsBefore(a, es, last);
      BeforeNext(a, es, last, end);
      LimitStep(a.tables, es, last, end, Before(a, es, last).tables, Before(a, es, last).place);
    }
  }

  lemma LimitStep(t: Tables, es: seq<Entry>, end: nat, next: nat, t': Tables, p: Place)
    requires next == end + 1 <= |es| && AllReadable(es) && LimitsAre(t, es, end, t') && es[end].Readable()
    ensures LimitsAre(t, es, next, Stored(t', p, es[end]))
  {
    forall i: nat, tag: byte, bound: nat | i < end && 2 <= tag <= 5 && LastLimit(es, next, i, tag, bound)
      ensures LastLimit(es, end, i, tag, bound) && !Limits(es, end, tag, bound)
    {
    }
    forall tag: byte, bound: nat | 2 <= tag <= 5 && Unlimited(es, next, tag, bound)
      ensures Unlimited(es, end, tag, bound) && !Limits(es, end, tag, bound)
    {
    }
    forall i: nat | i < end && LastTransfer(es, next, i)
      ensures LastTransfer(es, end, i) && es[end].tag != 4
    {
    }
  }

  /** After any advertisement each limit is what the last entry for it says, less the header; for
      payloads out and transfers in, the last one with a value that is accepted. */
  lemma LimitsAdvertised(a: Advert, es: seq<Entry>)
    requires AllReadable(es)
    ensures LimitsAre(a.tables, es, |es|, Advertised(a, es).tables)
  {
    assert es[..|es|] == es;
    LimitsBefore(a, es, |es|);
  }

  // ---------- What the handlers are told ----------

  /** The first registered handler for an application. */
  lemma {:induction false} HandlerIs(ls: seq<AppListener>, guid: u32)
    ensures var h := AppHandler(ls, guid);
      && (h.None? <==> forall l <- ls :: l.guid != guid || l.callback.None?)
      && (h.Some? ==> exists n: nat :: n < |ls| && FirstFor(ls, guid, n) && h == ls[n].callback)
  {
    if ls != [] {
      HandlerIs(ls[1..], guid);
      var h := AppHandler(ls, guid);
      if ls[0].guid == guid && ls[0].callback.Some? {
        assert FirstFor(ls, guid, 0);
      } else {
        assert ls == [ls[0]] + ls[1..];
        if h.Some? {
          var n: nat :| n < |ls[1..]| && FirstFor(ls[1..], guid, n) && h == ls[1..][n].callback;
          assert FirstFor(ls, guid, n + 1);
        }
      }
    }
  }

  ghost predicate FirstFor(ls: seq<AppListener>, guid: u32, n: nat)
    requires n < |ls|
  {
    && ls[n].guid == guid && ls[n].callback.Some?
    && forall m :: 0 <= m < n ==> ls[m].guid != guid || ls[m].callback.None?
  }

  /** An application's part of an advertisement: its guid entry and what follows up to the next. */
  datatype Section = Section(guid: Entry, body: seq<Entry>) {
    predicate Ok() {
      guid.tag == 1 && guid.Readable() && AllReadable(body) && forall e <- body :: e.tag != 1
    }
  }

  predicate AllSections(ss: seq<Section>) {
    forall s <- ss :: s.Ok()
  }

  function Entries(ss: seq<Section>): seq<Entry> {
    if ss == [] then [] else Entries(ss[..|ss| - 1]) + ([ss[|ss| - 1].guid] + ss[|ss| - 1].body)
  }

  /** The end of an application's entries: a call with tag 0 and no value. */
  function EndOf(h: Option<Handler>): seq<AdvertCall> {
    if h.Some? then [AdvertCall(h.value, 0, [])] else []
  }

  /** What is said to the handlers by the sections: to each its own entries, then the end. */
  function Said(ls: seq<AppListener>, ss: seq<Section>): seq<AdvertCall>
    requires AllSections(ss)
  {
    if ss == [] then []
    else
      var s := ss[|ss| - 1];
      assert s.Ok();
      var h := AppHandler(ls, ReadU32(s.guid.mem));
      Said(ls, ss[..|ss| - 1]) + CallsOf(h, [s.guid] + s.body) + EndOf(h)
  }

  lemma {:induction false} ApplyConcat(a: Advert, es: seq<Entry>, more: seq<Entry>)
    requires AllReadable(es) && AllReadable(more)
    ensures AllReadable(es + more) && ApplyAll(a, es + more) == ApplyAll(ApplyAll(a, es), more)
    decreases |more|
  {
    if more == [] {
      assert es + more == es;
    } else {
      var most, e := more[..|more| - 1], more[|more| - 1];
      assert es + more == (es + most) + [e] && most + [e] == more && e.Readable();
      ApplyConcat(a, es, most);
      ApplyMore(a, es + most, e);
      ApplyMore(ApplyAll(a, es), most, e);
    }
  }

  /** The calls once the application in force has been told of its end. */
  function Finished(b: Advert): seq<AdvertCall> {
    b.calls + EndOf(AppHandler(b.appListeners, b.place.guid))
  }

  lemma SectionSaid(b: Advert, s: Section)
    requires s.Ok()
    ensures AllReadable([s.guid] + s.body)
    ensures var c, h := ApplyAll(b, [s.guid] + s.body), AppHandler(b.appListeners, ReadU32(s.guid.mem));
      c.appListeners == b.appListeners && Finished(c) == Finished(b) + CallsOf(h, [s.guid] + s.body) + EndOf(h)
  {
    var h := AppHandler(b.appListeners, ReadU32(s.guid.mem));
    ApplyFirst(b, [s.guid] + s.body, s.guid, s.body);
    BodyHeard(Apply(b, s.guid), s.body);
    SectionHeard(b, s.guid, s.body);
    ToldEnd(b.calls, AppHandler(b.appListeners, b.place.guid));
  }

  lemma ToldEnd(calls: seq<AdvertCall>, h: Option<Handler>)
    ensures Told(calls, h, 0, []) == calls + EndOf(h)
  {
  }

  /** Section by section. */
  lemma {:induction false} SaidSoFar(a: Advert, ss: seq<Section>)
    requires AllSections(ss)
    ensures AllReadable(Entries(ss)) && ApplyAll(a, Entries(ss)).appListeners == a.appListeners
    ensures Finished(ApplyAll(a, Entries(ss))) == Finished(a) + Said(a.appListeners, ss)
    decreases |ss|
  {
    if ss == [] {
      assert Finished(a) + [] == Finished(a);
    } else {
      var most, s := ss[..|ss| - 1], ss[|ss| - 1];
      assert s.Ok();
      SaidSoFar(a, most);
      var b, h := ApplyAll(a, Entries(most)), AppHandler(a.appListeners, ReadU32(s.guid.mem));
      SectionSaid(b, s);
      ApplyConcat(a, Entries(most), [s.guid] + s.body);
      Regroup(Finished(a), Said(a.appListeners, most), CallsOf(h, [s.guid] + s.body), EndOf(h));
    }
  }

  lemma Regroup(a: seq<AdvertCall>, b: seq<AdvertCall>, c: seq<AdvertCall>, d: seq<AdvertCall>)
    ensures (a + b) + c + d == a + (b + c + d)
  {
  }

  /** Over a whole advertisement of any number of applications: first the listener for guid 0 is
      told of an end, and then each application's own handler is told of its entries, each once
      and in order, and of their end. */
  lemma AdvertisementHeard(a: Advert, ss: seq<Section>)
    requires AllSections(ss)
    ensures AllReadable(Entries(ss))
    ensures Advertised(a, Entries(ss)).calls
      == a.calls + EndOf(AppHandler(a.appListeners, 0)) + Said(a.appListeners, ss)
  {
    SaidSoFar(a.(place := START), ss);
  }

  // ---------- On the registry ----------

  /** Parsing an encoded advertisement leaves every channel as the last entry that names it says,
      the others as they were, and in the cache of each the callback of the first listener for
      its guid and name. */
  method AdvertiseChannels(r: Registry, es: seq<Entry>)
    requires r.Coherent() && AllWhole(es) && AllReadable(es) && |Encode(es)| < MAX_PAYLOAD_IN
    modifies r, r.callback
    ensures r.Coherent() && r.listeners == old(r.listeners)
    ensures forall n: nat, i: nat :: n < MAX_CHANS && LastName(es, |es|, i, n) ==> DefinedBy(r.Content(), es, i, n)
    ensures forall n: nat :: n < MAX_CHANS && Unnamed(es, |es|, n) ==> SameChannel(old(r.Content()), r.Content(), n)
    ensures forall n: nat :: n < MAX_CHANS ==> CallbackIs(r.callback[n], r.listeners, r.decls[n])
  {
    ghost var a := r.State(START);
    RunOne(r, Advertise(es));
    forall n: nat, i: nat | n < MAX_CHANS && LastName(es, |es|, i, n)
      ensures DefinedBy(r.Content(), es, i, n)
    {
      ChannelsAdvertised(a, es, n);
    }
    forall n: nat | n < MAX_CHANS && Unnamed(es, |es|, n)
      ensures SameChannel(a.tables, r.Content(), n)
    {
      ChannelsAdvertised(a, es, n);
    }
  }

  /** None for an unused channel (all guid bits set) or one that no listener with a callback
      matches in guid and name; otherwise that of the first such listener. */
  ghost predicate CallbackIs(h: Option<Handler>, ls: seq<Listener>, d: ChanDecl) {
    && (h.None? <==> d.guid == 0xFFFF_FFFF || forall l <- ls :: !ListensTo(l, d))
    && (h.Some? ==> exists n: nat :: n < |ls| && FirstListener(ls, d, n) && h == ls[n].callback)
  }

  predicate FirstListener(ls: seq<Listener>, d: ChanDecl, n: nat)
    requires n < |ls|
  {
    ListensTo(ls[n], d) && forall m :: 0 <= m < n ==> !ListensTo(ls[m], d)
  }

  predicate ListensTo(l: Listener, d: ChanDecl) {
    l.callback != None && l.guid == d.guid && l.name == d.name
  }
}
