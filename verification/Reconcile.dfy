/**
 The reconciliation of open MTP handles with what the bus lists, as values: one listed device at
 a time, then the sweep of stale handles, then the hiding of shadow ADB entries.
 A handle is known by `uid`, the number of the Open call that produced it; `closed` counts Close calls.
 */
module Reconcile {
  import opened Wrappers

  datatype Handle = Handle(uid: nat, id: string, bus: nat, dev: nat)

  datatype Controller = Adb(serial: string, authorized: bool) | Mtp(handle: Handle) | Usb(volume: string)

  datatype AdbDevice = AdbDevice(serial: string, authorized: bool)

  /**
   A device the bus lists, and how it would behave in this refresh: whether its classification
   walk is still running, whether it answers a ping, and the identifier Open reports, if it opens.
   */
  datatype Listed = Listed(bus: nat, dev: nat, locating: bool, answers: bool, open: Option<string>)

  /** What the transports say in one refresh; `None` is a failed (or absent) listing. */
  datatype Scan = Scan(adb: Option<seq<AdbDevice>>, mtp: Option<seq<Listed>>)

  datatype Links = Links(devices: map<string, Controller>, open: map<string, Handle>,
                         ctls: map<string, Handle>, next: nat, closed: multiset<nat>, seen: set<string>)

  const NO_LINKS := Links(map[], map[], map[], 0, multiset{}, {})

  predicate At(h: Handle, bus: nat, dev: nat) {
    h.bus == bus && h.dev == dev
  }

  ghost function FindOpen(open: map<string, Handle>, bus: nat, dev: nat): Option<Handle> {
    if exists id :: id in open && At(open[id], bus, dev) then
      var id :| id in open && At(open[id], bus, dev);
      Some(open[id])
    else None
  }

  /** The cached controller of a handle's identifier, or a new one around the handle. */
  function ControllerFor(ctls: map<string, Handle>, h: Handle): map<string, Handle> {
    if h.id in ctls then ctls else ctls[h.id := h]
  }

  function Register(st: Links, h: Handle): Links {
    var ctls := ControllerFor(st.ctls, h);
    st.(ctls := ctls, devices := st.devices[h.id := Mtp(ctls[h.id])], seen := st.seen + {h.id})
  }

  function Close(st: Links, h: Handle): Links {
    st.(open := st.open - {h.id}, ctls := st.ctls - {h.id}, closed := st.closed + multiset{h.uid})
  }

  function OpenNew(st: Links, md: Listed): Links {
    if md.open.None? then st
    else
      var h := Handle(st.next, md.open.value, md.bus, md.dev);
      Register(st.(open := st.open[h.id := h], next := st.next + 1), h)
  }

  ghost function Step(st: Links, md: Listed): Links {
    match FindOpen(st.open, md.bus, md.dev)
    case None => OpenNew(st, md)
    case Some(h) =>
      if (h.id in st.ctls && md.locating) || md.answers then Register(st, h)
      else OpenNew(Close(st, h), md)
  }

  ghost function Steps(st: Links, mds: seq<Listed>): Links {
    if mds == [] then st else Step(Steps(st, mds[..|mds| - 1]), mds[|mds| - 1])
  }

  function Uids(open: map<string, Handle>): set<nat> {
    set id | id in open :: open[id].uid
  }

  function Stale(st: Links): map<string, Handle> {
    map id | id in st.open && id !in st.seen :: st.open[id]
  }

  /** Every handle not met in this refresh is dropped, with its controller, and handed over to be closed. */
  function Sweep(st: Links): Links {
    var stale := Stale(st);
    st.(open := st.open - stale.Keys, ctls := st.ctls - stale.Keys, closed := st.closed + multiset(Uids(stale)))
  }

  predicate IsShadow(c: Controller) {
    c.Adb? && !c.authorized
  }

  function Unshadow(st: Links): Links {
    if |st.open| == 0 then st
    else st.(devices := map id | id in st.devices && !IsShadow(st.devices[id]) :: st.devices[id])
  }

  function AdbDevices(devs: seq<AdbDevice>): map<string, Controller> {
    if devs == [] then map[]
    else
      var d := devs[|devs| - 1];
      AdbDevices(devs[..|devs| - 1])[d.serial := Adb(d.serial, d.authorized)]
  }

  function Begin(st: Links, scan: Scan): Links {
    st.(devices := if scan.adb.Some? then AdbDevices(scan.adb.value) else map[], seen := {})
  }

  /** A failed listing is treated as an empty one. */
  function Listing(scan: Scan): seq<Listed> {
    if scan.mtp.Some? then scan.mtp.value else []
  }

  ghost function Refresh(st: Links, scan: Scan): Links {
    Unshadow(Sweep(Steps(Begin(st, scan), Listing(scan))))
  }

  ghost function Run(scans: seq<Scan>): Links {
    if scans == [] then NO_LINKS else Refresh(Run(scans[..|scans| - 1]), scans[|scans| - 1])
  }

  // ---- What every refresh keeps -----------------------------------------------------------

  ghost predicate DistinctAddresses(open: map<string, Handle>) {
    forall i, j :: i in open && j in open && At(open[i], open[j].bus, open[j].dev) ==> i == j
  }

  ghost predicate DistinctUids(open: map<string, Handle>) {
    forall i, j :: i in open && j in open && open[i].uid == open[j].uid ==> i == j
  }

  /**
   Handles are filed under their own identifier, no two share a bus address, the controller cache
   has the same identifiers, and no handle is closed twice or closed while still in use.
   */
  ghost predicate Inv(st: Links) {
    && (forall id :: id in st.open ==> st.open[id].id == id && st.open[id].uid < st.next)
    && (forall id :: id in st.ctls ==> st.ctls[id].id == id && st.ctls[id].uid < st.next)
    && DistinctAddresses(st.open)
    && DistinctUids(st.open)
    && st.ctls.Keys == st.open.Keys
    && (forall id :: id in st.open ==> st.closed[st.open[id].uid] == 0)
    && (forall u :: u in st.closed ==> st.closed[u] == 1 && u < st.next)
  }

  lemma OpenNewKeepsInv(st: Links, md: Listed)
    requires Inv(st) && FindOpen(st.open, md.bus, md.dev).None?
    ensures Inv(OpenNew(st, md))
  {
    hide DistinctAddresses, DistinctUids;
    if md.open.Some? {
      NewAddress(st, Handle(st.next, md.open.value, md.bus, md.dev));
    }
  }

  lemma NewAddress(st: Links, h: Handle)
    requires Inv(st) && FindOpen(st.open, h.bus, h.dev).None? && h.uid == st.next
    ensures DistinctAddresses(st.open[h.id := h]) && DistinctUids(st.open[h.id := h])
  {
  }

  lemma CloseKeepsInv(st: Links, h: Handle)
    requires Inv(st) && h.id in st.open && st.open[h.id] == h
    ensures Inv(Close(st, h))
    ensures FindOpen(Close(st, h).open, h.bus, h.dev).None?
  {
  }

  lemma StepKeepsInv(st: Links, md: Listed)
    requires Inv(st)
    ensures Inv(Step(st, md))
  {
    var found := FindOpen(st.open, md.bus, md.dev);
    if found.None? {
      OpenNewKeepsInv(st, md);
    } else if !((found.value.id in st.ctls && md.locating) || md.answers) {
      CloseKeepsInv(st, found.value);
      OpenNewKeepsInv(Close(st, found.value), md);
    }
  }

  lemma {:induction false} StepsKeepInv(st: Links, mds: seq<Listed>)
    requires Inv(st)
    ensures Inv(Steps(st, mds))
  {
    if mds != [] {
      StepsKeepInv(st, mds[..|mds| - 1]);
      StepKeepsInv(Steps(st, mds[..|mds| - 1]), mds[|mds| - 1]);
    }
  }

  lemma SweepKeepsInv(st: Links)
    requires Inv(st)
    ensures Inv(Sweep(st))
  {
  }

  lemma BeginKeeps(st: Links, scan: Scan)
    ensures Inv(st) ==> Inv(Begin(st, scan))
    ensures Begin(st, scan).ctls == st.ctls && Begin(st, scan).open == st.open && Leaked(Begin(st, scan)) == Leaked(st)
  {
  }

  lemma SweepKeepsTight(st: Links)
    requires Inv(st)
    ensures st.ctls == st.open ==> Sweep(st).ctls == Sweep(st).open
    ensures Leaked(Sweep(st)) == Leaked(st)
    ensures Leaked(Unshadow(Sweep(st))) == Leaked(st)
  {
    SweepLeaksNothing(st);
  }

  lemma RefreshKeepsInv(st: Links, scan: Scan)
    requires Inv(st)
    ensures Inv(Refresh(st, scan))
  {
    StepsKeepInv(Begin(st, scan), Listing(scan));
    SweepKeepsInv(Steps(Begin(st, scan), Listing(scan)));
  }

  lemma {:induction false} RunKeepsInv(scans: seq<Scan>)
    ensures Inv(Run(scans))
  {
    if scans != [] {
      RunKeepsInv(scans[..|scans| - 1]);
      RefreshKeepsInv(Run(scans[..|scans| - 1]), scans[|scans| - 1]);
    }
  }

  // ---- Controllers and closed handles ---------------------------------------------------------

  /** No cached controller wraps a closed handle, and one that wraps a filed handle has its identifier. */
  ghost predicate Usable(st: Links) {
    && (forall id :: id in st.ctls ==> st.closed[st.ctls[id].uid] == 0)
    && (forall i, j :: i in st.ctls && j in st.open && st.ctls[i].uid == st.open[j].uid ==> i == j)
  }

  lemma OpenNewKeepsUsable(st: Links, md: Listed)
    requires Inv(st) && Usable(st)
    ensures Usable(OpenNew(st, md))
  {
    hide DistinctAddresses, DistinctUids;
    assert st.closed[st.next] == 0 by {
      assert st.next !in st.closed;
    }
  }

  lemma CloseKeepsUsable(st: Links, h: Handle)
    requires Inv(st) && Usable(st) && h.id in st.open && st.open[h.id] == h
    ensures Usable(Close(st, h))
  {
    hide DistinctAddresses, DistinctUids;
  }

  lemma StepKeepsUsable(st: Links, md: Listed)
    requires Inv(st) && Usable(st)
    ensures Usable(Step(st, md))
  {
    hide Usable, DistinctAddresses, DistinctUids;
    var found := FindOpen(st.open, md.bus, md.dev);
    if found.None? {
      OpenNewKeepsUsable(st, md);
    } else if (found.value.id in st.ctls && md.locating) || md.answers {
      RegisterKeepsUsable(st, found.value);
    } else {
      CloseKeepsInv(st, found.value);
      CloseKeepsUsable(st, found.value);
      OpenNewKeepsUsable(Close(st, found.value), md);
    }
  }

  lemma RegisterKeepsUsable(st: Links, h: Handle)
    requires Inv(st) && Usable(st) && h.id in st.open && st.open[h.id] == h
    ensures Usable(Register(st, h))
  {
    hide DistinctAddresses, DistinctUids;
  }

  lemma {:induction false} StepsKeepUsable(st: Links, mds: seq<Listed>)
    requires Inv(st) && Usable(st)
    ensures Usable(Steps(st, mds))
  {
    hide Inv, Usable, Step;
    if mds != [] {
      StepsKeepInv(st, mds[..|mds| - 1]);
      StepsKeepUsable(st, mds[..|mds| - 1]);
      StepKeepsUsable(Steps(st, mds[..|mds| - 1]), mds[|mds| - 1]);
    }
  }

  lemma SweepKeepsUsable(st: Links)
    requires Inv(st) && Usable(st)
    ensures Usable(Sweep(st))
  {
    hide DistinctAddresses, DistinctUids;
    forall id | id in Sweep(st).ctls
      ensures st.ctls[id].uid !in Uids(Stale(st))
    {
    }
  }

  lemma RefreshKeepsUsable(st: Links, scan: Scan)
    requires Inv(st) && Usable(st)
    ensures Usable(Refresh(st, scan))
  {
    hide Inv, Steps, Sweep, Stale;
    BeginKeeps(st, scan);
    StepsKeepInv(Begin(st, scan), Listing(scan));
    StepsKeepUsable(Begin(st, scan), Listing(scan));
    SweepKeepsUsable(Steps(Begin(st, scan), Listing(scan)));
  }

  /**
   In every run, whether or not identifiers collide, no cached controller wraps a closed handle. Nor does one
   that the device map serves, if the last listing names each bus address once.
   */
  lemma {:induction false} RunNeverServesClosed(scans: seq<Scan>)
    ensures Usable(Run(scans))
    ensures scans != [] && NamedOnce(Listing(scans[|scans| - 1])) ==>
              forall id :: id in Run(scans).devices && Run(scans).devices[id].Mtp? ==>
                Run(scans).closed[Run(scans).devices[id].handle.uid] == 0
  {
    hide Inv, Refresh, NamedOnce, Listing;
    if scans != [] {
      var init, scan := scans[..|scans| - 1], scans[|scans| - 1];
      RunNeverServesClosed(init);
      RunKeepsInv(init);
      RefreshKeepsUsable(Run(init), scan);
      if NamedOnce(Listing(scan)) {
        RefreshAligns(Run(init), scan);
      }
    }
  }

  // ---- The device map agrees with the open handles ----------------------------------------

  /** The listing names each bus address once. */
  ghost predicate NamedOnce(mds: seq<Listed>) {
    forall i, j :: 0 <= i < j < |mds| ==> mds[i].bus != mds[j].bus || mds[i].dev != mds[j].dev
  }

  ghost predicate Met(mds: seq<Listed>, h: Handle) {
    exists k :: 0 <= k < |mds| && At(h, mds[k].bus, mds[k].dev)
  }

  /** After part of a listing: the MTP devices are those seen, each still open at a listed address. */
  ghost predicate Aligned(st: Links, mds: seq<Listed>) {
    && (forall id :: id in st.seen ==> id in st.open && Met(mds, st.open[id]))
    && (forall id :: id in st.seen ==> id in st.ctls && id in st.devices && st.devices[id] == Mtp(st.ctls[id]))
    && (forall id :: id in st.devices && st.devices[id].Mtp? ==> id in st.seen)
    && (forall id :: id in st.devices ==> !st.devices[id].Usb?)
  }

  lemma Widen(st: Links, mds: seq<Listed>, md: Listed)
    requires Aligned(st, mds)
    ensures Aligned(st, mds + [md])
  {
    forall h | Met(mds, h)
      ensures Met(mds + [md], h)
    {
      var k :| 0 <= k < |mds| && At(h, mds[k].bus, mds[k].dev);
      assert (mds + [md])[k] == mds[k];
    }
  }

  lemma RegisterAligns(st: Links, mds: seq<Listed>, h: Handle)
    requires Aligned(st, mds) && h.id in st.open && Met(mds, st.open[h.id])
    ensures Aligned(Register(st, h), mds)
  {
  }

  lemma CloseAligns(st: Links, mds: seq<Listed>, h: Handle)
    requires Aligned(st, mds) && h.id !in st.seen
    ensures Aligned(Close(st, h), mds)
  {
  }

  lemma OpenNewAligns(st: Links, mds: seq<Listed>, md: Listed)
    requires Aligned(st, mds) && mds != [] && mds[|mds| - 1] == md
    ensures Aligned(OpenNew(st, md), mds)
  {
    if md.open.Some? {
      var h := Handle(st.next, md.open.value, md.bus, md.dev);
      assert At(h, mds[|mds| - 1].bus, mds[|mds| - 1].dev);
      var filed := st.(open := st.open[h.id := h], next := st.next + 1);
      assert Aligned(filed, mds);
      RegisterAligns(filed, mds, h);
    }
  }

  lemma StepAligns(st: Links, mds: seq<Listed>, md: Listed)
    requires Inv(st) && Aligned(st, mds)
    requires forall k :: 0 <= k < |mds| ==> mds[k].bus != md.bus || mds[k].dev != md.dev
    ensures Aligned(Step(st, md), mds + [md])
  {
    var all := mds + [md];
    assert all[|mds|] == md;
    Widen(st, mds, md);
    var found := FindOpen(st.open, md.bus, md.dev);
    if found.None? {
      OpenNewAligns(st, all, md);
    } else {
      var h := found.value;
      assert At(h, all[|mds|].bus, all[|mds|].dev);
      assert h.id !in st.seen by { assert !Met(mds, h); }
      if (h.id in st.ctls && md.locating) || md.answers {
        RegisterAligns(st, all, h);
      } else {
        CloseAligns(st, all, h);
        OpenNewAligns(Close(st, h), all, md);
      }
    }
  }

  lemma {:induction false} StepsAlign(st: Links, mds: seq<Listed>)
    requires Inv(st) && Aligned(st, []) && NamedOnce(mds)
    ensures Aligned(Steps(st, mds), mds)
  {
    if mds != [] {
      var init, md := mds[..|mds| - 1], mds[|mds| - 1];
      assert mds == init + [md];
      StepsAlign(st, init);
      StepsKeepInv(st, init);
      StepAligns(Steps(st, init), init, md);
    }
  }

  lemma {:induction false} AdbOnly(devs: seq<AdbDevice>)
    ensures forall id :: id in AdbDevices(devs) ==> AdbDevices(devs)[id].Adb? && AdbDevices(devs)[id].serial == id
  {
    if devs != [] {
      AdbOnly(devs[..|devs| - 1]);
    }
  }

  /**
   After a refresh whose listing names each address once, the MTP entries of the device map are
   exactly the open handles' identifiers, each served by its cached controller.
   */
  lemma RefreshAligns(st: Links, scan: Scan)
    requires Inv(st) && NamedOnce(Listing(scan))
    ensures var after := Refresh(st, scan);
            && after.ctls.Keys == after.open.Keys
            && (forall id :: id in after.open <==> id in after.devices && after.devices[id].Mtp?)
            && (forall id :: id in after.open ==> after.devices[id] == Mtp(after.ctls[id]))
            && (forall id :: id in after.devices ==> !after.devices[id].Usb?)
  {
    hide Steps, Inv, Unshadow, Sweep, AdbDevices, Begin, Aligned, NamedOnce;
    var begun := Begin(st, scan);
    BeginKeeps(st, scan);
    BeginDevices(st, scan);
    StepsAlign(begun, Listing(scan));
    StepsKeepInv(begun, Listing(scan));
    var swept := Sweep(Steps(begun, Listing(scan)));
    SweepKeepsInv(Steps(begun, Listing(scan)));
    UnshadowKeeps(swept);
    forall id
      ensures MtpEntry(Unshadow(swept), id)
    {
      SweptEntry(Steps(begun, Listing(scan)), Listing(scan), id);
      UnshadowEntry(swept, id);
    }
    assert forall id :: id in Unshadow(swept).open ==> MtpEntry(Unshadow(swept), id);
    assert forall id :: id in Unshadow(swept).devices ==> MtpEntry(Unshadow(swept), id);
  }

  /** The device map's MTP entry of this identifier, if it has one, is that of its open handle. */
  predicate MtpEntry(st: Links, id: string) {
    && (id in st.open <==> id in st.devices && st.devices[id].Mtp?)
    && (id in st.open ==> id in st.ctls && st.devices[id] == Mtp(st.ctls[id]))
    && (id in st.devices ==> !st.devices[id].Usb?)
  }

  lemma SweptEntry(st: Links, mds: seq<Listed>, id: string)
    requires Aligned(st, mds)
    ensures MtpEntry(Sweep(st), id)
  {
    hide Met;
  }

  lemma UnshadowKeeps(st: Links)
    requires Inv(st)
    ensures Unshadow(st).open == st.open && Unshadow(st).ctls == st.ctls
    ensures Unshadow(st).ctls.Keys == Unshadow(st).open.Keys
  {
  }

  /** An identifier reported by both transports ends up served over MTP. */
  lemma MtpWins(st: Links, scan: Scan, id: string)
    requires Inv(st) && NamedOnce(Listing(scan))
    requires (exists d :: d in AdbListing(scan) && d.serial == id) && id in Refresh(st, scan).open
    ensures var after := Refresh(st, scan);
            id in after.devices && after.devices[id].Mtp?
  {
    hide Refresh, Inv;
    RefreshAligns(st, scan);
  }

  /** The devices ADB lists; a failed listing counts as an empty one. */
  function AdbListing(scan: Scan): seq<AdbDevice> {
    if scan.adb.Some? then scan.adb.value else []
  }

  /** Number k is the last listed device with this serial. */
  ghost predicate LastListed(devs: seq<AdbDevice>, serial: string, k: int) {
    0 <= k < |devs| && devs[k].serial == serial && forall j :: k < j < |devs| ==> devs[j].serial != serial
  }

  /** The table of a listing holds the last device of each serial, as it was listed. */
  lemma {:induction false} AdbLast(devs: seq<AdbDevice>, id: string)
    ensures (forall k :: 0 <= k < |devs| ==> devs[k].serial != id) ==> id !in AdbDevices(devs)
    ensures forall k :: LastListed(devs, id, k) ==>
              id in AdbDevices(devs) && AdbDevices(devs)[id] == Adb(id, devs[k].authorized)
  {
    if devs != [] {
      var n := |devs| - 1;
      var init := devs[..n];
      AdbLast(init, id);
      assert forall k :: 0 <= k < n ==> init[k] == devs[k];
      forall k | LastListed(devs, id, k)
        ensures id in AdbDevices(devs) && AdbDevices(devs)[id] == Adb(id, devs[k].authorized)
      {
        if k < n {
          assert LastListed(init, id, k);
        }
      }
    }
  }

  /**
   ADB entries, by what ADB listed last under their serial: all of them that are not served over MTP while no
   MTP handle is open, and only the authorized ones otherwise; each says whether that device is authorized.
   */
  lemma AdbEntries(st: Links, scan: Scan, id: string)
    requires Inv(st) && NamedOnce(Listing(scan))
    ensures var after, devs := Refresh(st, scan), AdbListing(scan);
            var isAdb := id in after.devices && after.devices[id].Adb?;
            && ((forall k :: 0 <= k < |devs| ==> devs[k].serial != id) ==> !isAdb)
            && (forall k :: LastListed(devs, id, k) ==>
                  && (isAdb <==> id !in after.open && (after.open == map[] || devs[k].authorized))
                  && (isAdb ==> after.devices[id] == Adb(id, devs[k].authorized)))
  {
    hide Refresh, Inv, NamedOnce, AdbDevices, LastListed;
    AdbLeft(st, scan, id);
    AdbLast(AdbListing(scan), id);
  }

  /** What becomes of the table's entries. */
  lemma AdbLeft(st: Links, scan: Scan, id: string)
    requires Inv(st) && NamedOnce(Listing(scan))
    ensures var after := Refresh(st, scan);
            var adb := if scan.adb.Some? then AdbDevices(scan.adb.value) else map[];
            && (id in after.devices && after.devices[id].Adb?
                <==> id in adb && id !in after.open && (after.open == map[] || !IsShadow(adb[id])))
            && (id in after.devices && after.devices[id].Adb? ==> after.devices[id] == adb[id])
  {
    hide Steps, Inv, Unshadow, Sweep, AdbDevices, Begin, Aligned, NamedOnce;
    var begun := Begin(st, scan);
    var adb := if scan.adb.Some? then AdbDevices(scan.adb.value) else map[];
    if scan.adb.Some? { AdbOnly(scan.adb.value); }
    BeginKeeps(st, scan);
    BeginDevices(st, scan);
    StepsAlign(begun, Listing(scan));
    StepsTouch(begun, Listing(scan), id);
    var stepped := Steps(begun, Listing(scan));
    SweptTo(stepped, Listing(scan));
    AlignedEntry(stepped, Listing(scan), id);
    UnshadowEntry(Sweep(stepped), id);
  }

  lemma BeginDevices(st: Links, scan: Scan)
    ensures Begin(st, scan).devices == (if scan.adb.Some? then AdbDevices(scan.adb.value) else map[])
    ensures Begin(st, scan).seen == {}
    ensures Aligned(Begin(st, scan), [])
  {
    if scan.adb.Some? { AdbOnly(scan.adb.value); }
  }

  lemma AlignedEntry(st: Links, mds: seq<Listed>, id: string)
    requires Aligned(st, mds)
    ensures id in st.seen <==> id in st.devices && st.devices[id].Mtp?
  {
  }

  lemma SweptTo(st: Links, mds: seq<Listed>)
    requires Aligned(st, mds)
    ensures Sweep(st).open.Keys == st.seen && Sweep(st).devices == st.devices
  {
  }

  lemma UnshadowEntry(st: Links, id: string)
    ensures Unshadow(st).open == st.open
    ensures id in Unshadow(st).devices <==> id in st.devices && (st.open == map[] || !IsShadow(st.devices[id]))
    ensures id in Unshadow(st).devices ==> Unshadow(st).devices[id] == st.devices[id]
  {
    assert |st.open| == 0 <==> st.open == map[];
  }

  /** Only identifiers that are seen change their device entry. */
  lemma {:induction false} StepsTouch(st: Links, mds: seq<Listed>, id: string)
    ensures st.seen <= Steps(st, mds).seen
    ensures id !in Steps(st, mds).seen ==>
              && (id in Steps(st, mds).devices <==> id in st.devices)
              && (id in st.devices ==> Steps(st, mds).devices[id] == st.devices[id])
  {
    if mds != [] {
      StepsTouch(st, mds[..|mds| - 1], id);
    }
  }

  /** A failed listing drops and closes every open handle. */
  lemma FailedListingDropsAll(st: Links, scan: Scan)
    requires Inv(st) && scan.mtp.None?
    ensures Refresh(st, scan).open == map[] && Refresh(st, scan).ctls == map[]
    ensures forall id :: id in st.open ==> Refresh(st, scan).closed[st.open[id].uid] == 1
  {
    var swept := Sweep(Begin(st, scan));
    assert Steps(Begin(st, scan), []) == Begin(st, scan);
    assert Stale(Begin(st, scan)) == st.open;
    assert forall id :: id in st.open ==> st.open[id].uid in Uids(st.open);
  }

  // ---- Leaks ------------------------------------------------------------------------------

  /** Handles that were opened, never closed, and are no longer filed anywhere. */
  function Leaked(st: Links): set<nat> {
    set u | 0 <= u < st.next && u !in st.closed && u !in Uids(st.open)
  }

  /** Controllers wrap exactly the filed handles, and every handle ever opened is filed or closed. */
  ghost predicate Tight(st: Links) {
    st.ctls == st.open && Leaked(st) == {}
  }

  /** Open reports an identifier that is still filed, under another bus address. */
  ghost predicate Collides(st: Links, md: Listed) {
    var found := FindOpen(st.open, md.bus, md.dev);
    && md.open.Some?
    && md.open.value in st.open
    && (found.None? || (!md.answers && !(found.value.id in st.ctls && md.locating) && md.open.value != found.value.id))
  }

  lemma OpenNewLeaks(st: Links, md: Listed)
    requires Inv(st)
    ensures Leaked(OpenNew(st, md)) == Leaked(st) +
              if md.open.Some? && md.open.value in st.open then {st.open[md.open.value].uid} else {}
  {
    if md.open.Some? {
      var id := md.open.value;
      var h := Handle(st.next, id, md.bus, md.dev);
      var open := st.open[id := h];
      UidsOfUpdate(st.open, id, h);
      var gone := if id in st.open then {st.open[id].uid} else {};
      assert OpenNew(st, md).open == open;
      forall u
        ensures u in Leaked(OpenNew(st, md)) <==> u in Leaked(st) + gone
      {
      }
    }
  }

  lemma UidsOfUpdate(open: map<string, Handle>, id: string, h: Handle)
    requires DistinctUids(open)
    ensures Uids(open[id := h]) == (if id in open then Uids(open) - {open[id].uid} else Uids(open)) + {h.uid}
  {
    var after := open[id := h];
    var rest := if id in open then Uids(open) - {open[id].uid} else Uids(open);
    forall u | u in rest
      ensures u in Uids(after)
    {
      var i :| i in open && open[i].uid == u;
      assert i in after && after[i].uid == u;
    }
    assert id in after && after[id].uid == h.uid;
  }

  lemma CloseLeaksNothing(st: Links, h: Handle)
    requires Inv(st) && h.id in st.open && st.open[h.id] == h
    ensures Leaked(Close(st, h)) == Leaked(st)
  {
    var after := Close(st, h).open;
    forall u
      ensures u in Uids(st.open) <==> u in Uids(after) || u == h.uid
    {
      if u in Uids(st.open) {
        var i :| i in st.open && st.open[i].uid == u;
        assert i == h.id || (i in after && after[i].uid == u);
      }
      if u in Uids(after) {
        var i :| i in after && after[i].uid == u;
        assert i in st.open && st.open[i].uid == u;
      }
    }
  }

  lemma StepLeaks(st: Links, md: Listed)
    requires Inv(st)
    ensures Leaked(st) <= Leaked(Step(st, md))
    ensures Leaked(Step(st, md)) == Leaked(st) <==> !Collides(st, md)
    ensures st.ctls == st.open && !Collides(st, md) ==> Step(st, md).ctls == Step(st, md).open
  {
    var found := FindOpen(st.open, md.bus, md.dev);
    if found.None? {
      OpenNewLeaks(st, md);
    } else {
      var h := found.value;
      if !((h.id in st.ctls && md.locating) || md.answers) {
        CloseKeepsInv(st, h);
        CloseLeaksNothing(st, h);
        OpenNewLeaks(Close(st, h), md);
        if md.open.Some? && md.open.value in st.open && md.open.value != h.id {
          assert st.open[md.open.value].uid in Uids(st.open);
        }
      }
    }
  }

  /** Some device of the listing collides when its turn comes. */
  ghost predicate Collision(st: Links, mds: seq<Listed>) {
    && mds != []
    && (Collision(st, mds[..|mds| - 1]) || Collides(Steps(st, mds[..|mds| - 1]), mds[|mds| - 1]))
  }

  lemma {:induction false} StepsLeak(st: Links, mds: seq<Listed>)
    requires Inv(st)
    ensures Leaked(st) <= Leaked(Steps(st, mds))
    ensures Leaked(Steps(st, mds)) == Leaked(st) <==> !Collision(st, mds)
    ensures st.ctls == st.open && !Collision(st, mds) ==> Steps(st, mds).ctls == Steps(st, mds).open
  {
    if mds != [] {
      var init := mds[..|mds| - 1];
      StepsLeak(st, init);
      StepsKeepInv(st, init);
      StepLeaks(Steps(st, init), mds[|mds| - 1]);
    }
  }

  lemma SweepLeaksNothing(st: Links)
    requires Inv(st)
    ensures Leaked(Sweep(st)) == Leaked(st)
  {
    var stale, after := Stale(st), Sweep(st).open;
    forall u
      ensures u in Uids(st.open) <==> u in Uids(after) || u in Uids(stale)
    {
      if u in Uids(st.open) {
        var i :| i in st.open && st.open[i].uid == u;
        if i in st.seen { assert after[i].uid == u; } else { assert stale[i].uid == u; }
      }
      if u in Uids(after) {
        var i :| i in after && after[i].uid == u;
        assert st.open[i].uid == u;
      }
      if u in Uids(stale) {
        var i :| i in stale && stale[i].uid == u;
        assert st.open[i].uid == u;
      }
    }
  }

  lemma RefreshLeaks(st: Links, scan: Scan)
    requires Inv(st)
    ensures Leaked(st) <= Leaked(Refresh(st, scan))
    ensures Collision(Begin(st, scan), Listing(scan)) ==> Leaked(Refresh(st, scan)) != {}
    ensures Tight(st) ==> (Tight(Refresh(st, scan)) <==> !Collision(Begin(st, scan), Listing(scan)))
  {
    hide Inv, Steps, Collision, Sweep, Begin, Leaked;
    var begun := Begin(st, scan);
    var stepped := Steps(begun, Listing(scan));
    BeginKeeps(st, scan);
    StepsLeak(begun, Listing(scan));
    StepsKeepInv(begun, Listing(scan));
    SweepKeepsTight(stepped);
  }

  /** Some refresh of the run meets a colliding identifier. */
  ghost predicate RunCollides(scans: seq<Scan>) {
    && scans != []
    && var init, scan := scans[..|scans| - 1], scans[|scans| - 1];
       RunCollides(init) || Collision(Begin(Run(init), scan), Listing(scan))
  }

  /**
   Over any run of refreshes, controllers wrap the filed handles and no handle is lost, exactly
   when Open never reports an identifier that is still filed.
   */
  lemma {:induction false} RunTight(scans: seq<Scan>)
    ensures Tight(Run(scans)) <==> !RunCollides(scans)
    ensures RunCollides(scans) ==> Leaked(Run(scans)) != {}
  {
    if scans != [] {
      var init := scans[..|scans| - 1];
      RunTight(init);
      RunKeepsInv(init);
      RefreshLeaks(Run(init), scans[|scans| - 1]);
    }
  }

  // ---- Which handles survive a refresh ----------------------------------------------------

  ghost predicate Filed(st: Links, h: Handle) {
    h.id in st.open && st.open[h.id] == h
  }

  /** The device would be kept: its walk is still running, or it answers. */
  predicate Alive(md: Listed) {
    md.locating || md.answers
  }

  ghost predicate MetAlive(mds: seq<Listed>, h: Handle) {
    exists k :: 0 <= k < |mds| && At(h, mds[k].bus, mds[k].dev) && Alive(mds[k])
  }

  /** Handling this device opens it, under this identifier. */
  ghost predicate Opens(st: Links, md: Listed, id: string) {
    var found := FindOpen(st.open, md.bus, md.dev);
    md.open == Some(id) && (found.None? || (!md.answers && !(found.value.id in st.ctls && md.locating)))
  }

  /** A device at another address is opened under the handle's identifier. */
  ghost predicate Overwritten(st: Links, mds: seq<Listed>, h: Handle) {
    && mds != []
    && var init, md := mds[..|mds| - 1], mds[|mds| - 1];
       Overwritten(st, init, h) || (!At(h, md.bus, md.dev) && Opens(Steps(st, init), md, h.id))
  }

  /** After part of a listing, seen from one handle: filed unless met dead or overwritten, and seen if it was met. */
  ghost predicate Survival(st: Links, mds: seq<Listed>, h: Handle, overwritten: bool) {
    && h.uid < st.next
    && (Filed(st, h) <==> (Met(mds, h) ==> MetAlive(mds, h)) && !overwritten)
    && (Filed(st, h) ==> (h.id in st.seen <==> Met(mds, h)))
  }

  /** A device at the handle's own address decides about it. */
  lemma StepDecides(st: Links, md: Listed, h: Handle)
    requires Inv(st) && Filed(st, h) && At(h, md.bus, md.dev) && h.uid < st.next
    ensures var after := Step(st, md);
            && h.uid < after.next && (Filed(after, h) <==> Alive(md)) && (Alive(md) ==> h.id in after.seen)
  {
    assert FindOpen(st.open, md.bus, md.dev) == Some(h);
  }

  /** A device elsewhere leaves it alone, unless it is opened under its identifier. */
  lemma StepSpares(st: Links, md: Listed, h: Handle)
    requires Inv(st) && Filed(st, h) && !At(h, md.bus, md.dev) && h.uid < st.next
    ensures var after := Step(st, md);
            && h.uid < after.next && (Filed(after, h) <==> !Opens(st, md, h.id))
            && (Filed(after, h) ==> (h.id in after.seen <==> h.id in st.seen))
  {
    hide DistinctAddresses, DistinctUids;
    var found := FindOpen(st.open, md.bus, md.dev);
    if found.Some? {
      assert At(found.value, md.bus, md.dev) && found.value.id in st.open && st.open[found.value.id] == found.value;
    }
  }

  /** A handle that is not filed any more never is again: new ones have new numbers. */
  lemma StepNeverRefiles(st: Links, md: Listed, h: Handle)
    requires Inv(st) && !Filed(st, h) && h.uid < st.next
    ensures !Filed(Step(st, md), h) && h.uid < Step(st, md).next
  {
    hide DistinctAddresses, DistinctUids;
  }

  lemma MetOneMore(mds: seq<Listed>, md: Listed, h: Handle)
    ensures Met(mds + [md], h) <==> Met(mds, h) || At(h, md.bus, md.dev)
    ensures MetAlive(mds + [md], h) <==> MetAlive(mds, h) || (At(h, md.bus, md.dev) && Alive(md))
  {
    var all := mds + [md];
    assert all[|mds|] == md && forall k :: 0 <= k < |mds| ==> all[k] == mds[k];
  }

  lemma NamedOnceInit(mds: seq<Listed>, md: Listed, h: Handle)
    requires NamedOnce(mds + [md])
    ensures NamedOnce(mds) && (At(h, md.bus, md.dev) ==> !Met(mds, h))
  {
    var all := mds + [md];
    assert all[|mds|] == md && forall k :: 0 <= k < |mds| ==> all[k] == mds[k];
  }

  lemma {:induction false} StepsSurvival(st: Links, mds: seq<Listed>, h: Handle)
    requires Inv(st) && Survival(st, [], h, false) && Filed(st, h) && NamedOnce(mds)
    ensures Survival(Steps(st, mds), mds, h, Overwritten(st, mds, h))
  {
    hide Inv, Step, Opens, NamedOnce, Filed, At, Met, MetAlive, Alive;
    if mds != [] {
      var init, md := mds[..|mds| - 1], mds[|mds| - 1];
      assert mds == init + [md];
      NamedOnceInit(init, md, h);
      StepsSurvival(st, init, h);
      StepsKeepInv(st, init);
      MetOneMore(init, md, h);
      AliveIsMet(init, h);
      if !Filed(Steps(st, init), h) {
        StepNeverRefiles(Steps(st, init), md, h);
      } else if At(h, md.bus, md.dev) {
        StepDecides(Steps(st, init), md, h);
      } else {
        StepSpares(Steps(st, init), md, h);
      }
    }
  }

  /**
   With each bus address named once, an open handle is still filed after a refresh exactly when the listing
   has a device at its address that is locating or answers, and none elsewhere is opened under its identifier.
   */
  lemma SurvivesIffMetAlive(st: Links, scan: Scan, h: Handle)
    requires Inv(st) && Filed(st, h) && NamedOnce(Listing(scan))
    ensures Filed(Refresh(st, scan), h) <==>
              MetAlive(Listing(scan), h) && !Overwritten(Begin(st, scan), Listing(scan), h)
  {
    hide Inv, Steps, Overwritten, Begin, NamedOnce, Met, MetAlive, Sweep, Unshadow;
    var begun := Begin(st, scan);
    BeginKeeps(st, scan);
    BeginDevices(st, scan);
    NothingMet(st, h);
    StepsSurvival(begun, Listing(scan), h);
    var stepped := Steps(begun, Listing(scan));
    SweepFiles(stepped, h);
    UnshadowEntry(Sweep(stepped), h.id);
    AliveIsMet(Listing(scan), h);
  }

  /** In particular a failed listing, or an empty one, leaves none. */
  lemma NoneSurvives(st: Links, scan: Scan, h: Handle)
    requires Inv(st) && Filed(st, h) && Listing(scan) == []
    ensures !Filed(Refresh(st, scan), h)
  {
    hide Inv, Refresh, Filed, Begin;
    SurvivesIffMetAlive(st, scan, h);
  }

  lemma NothingMet(st: Links, h: Handle)
    requires Inv(st) && Filed(st, h)
    ensures !Met([], h) && h.uid < st.next
  {
  }

  lemma AliveIsMet(mds: seq<Listed>, h: Handle)
    ensures MetAlive(mds, h) ==> Met(mds, h)
  {
  }

  lemma SweepFiles(st: Links, h: Handle)
    ensures Filed(Sweep(st), h) <==> Filed(st, h) && h.id in st.seen
  {
  }

  /** A replug between two refreshes: same serial, new bus address. The first handle is lost, its controller stays. */
  lemma ReplugLeaks()
    ensures var plugged := Scan(None, Some([Listed(1, 5, false, true, Some("serial"))]));
            var replugged := Scan(None, Some([Listed(1, 6, false, true, Some("serial"))]));
            var after := Run([plugged, replugged]);
            && after.open == map["serial" := Handle(1, "serial", 1, 6)]
            && after.ctls == map["serial" := Handle(0, "serial", 1, 5)]
            && after.devices == map["serial" := Mtp(Handle(0, "serial", 1, 5))]
            && after.closed == multiset{} && Leaked(after) == {0}
  {
    hide Refresh;
    var md1, md2 := Listed(1, 5, false, true, Some("serial")), Listed(1, 6, false, true, Some("serial"));
    var plugged, replugged := Scan(None, Some([md1])), Scan(None, Some([md2]));
    var h0, h1 := Handle(0, "serial", 1, 5), Handle(1, "serial", 1, 6);
    OneDevice(NO_LINKS, None, md1);
    var one := Refresh(NO_LINKS, plugged);
    assert [plugged][..0] == [];
    assert Run([plugged]) == one;
    OneDevice(one, None, md2);
    assert [plugged, replugged][..1] == [plugged];
    assert Uids(map["serial" := h1]) == {1};
  }

  /** A controller that both transports report as "serial": ADB has it, and it is served over MTP. */
  lemma BothReport()
    ensures var scan := Scan(Some([AdbDevice("serial", true)]), Some([Listed(1, 5, false, true, Some("serial"))]));
            && AdbDevices(scan.adb.value) == map["serial" := Adb("serial", true)]
            && Run([scan]).devices == map["serial" := Mtp(Handle(0, "serial", 1, 5))]
  {
    hide Refresh;
    var adb, md := [AdbDevice("serial", true)], Listed(1, 5, false, true, Some("serial"));
    assert adb[..0] == [] && AdbDevices([]) == map[];
    OneDevice(NO_LINKS, Some(adb), md);
    assert [Scan(Some(adb), Some([md]))][..0] == [];
  }

  /** A refresh that lists one device, at an address no open handle has. */
  lemma OneDevice(st: Links, adb: Option<seq<AdbDevice>>, md: Listed)
    requires md.open.Some? && st.open.Keys <= {md.open.value} && st.ctls.Keys <= {md.open.value}
    requires forall id :: id in st.open ==> !At(st.open[id], md.bus, md.dev)
    requires adb.Some? ==> AdbDevices(adb.value).Keys <= {md.open.value}
    ensures var id := md.open.value;
            var h := Handle(st.next, id, md.bus, md.dev);
            var ctl := if id in st.ctls then st.ctls[id] else h;
            Refresh(st, Scan(adb, Some([md])))
            == Links(map[id := Mtp(ctl)], map[id := h], map[id := ctl], st.next + 1, st.closed, {id})
  {
    hide Refresh, Sweep, Unshadow;
    var begun := Begin(st, Scan(adb, Some([md])));
    assert [md][..0] == [];
    assert FindOpen(begun.open, md.bus, md.dev).None?;
    assert Steps(begun, []) == begun;
    var id := md.open.value;
    var h := Handle(st.next, id, md.bus, md.dev);
    var ctl := if id in st.ctls then st.ctls[id] else h;
    var stepped := Links(map[id := Mtp(ctl)], map[id := h], map[id := ctl], st.next + 1, st.closed, {id});
    assert OpenNew(begun, md) == stepped;
    assert Steps(begun, [md]) == stepped;
    OneDeviceEnds(st, adb, md, stepped, id);
  }

  lemma OneDeviceEnds(st: Links, adb: Option<seq<AdbDevice>>, md: Listed, stepped: Links, id: string)
    requires stepped.open.Keys == stepped.seen == stepped.devices.Keys == {id} && stepped.devices[id].Mtp?
    requires Steps(Begin(st, Scan(adb, Some([md]))), [md]) == stepped
    ensures Refresh(st, Scan(adb, Some([md]))) == stepped
  {
    hide Steps, Begin, Sweep, Unshadow;
    SweepNothing(stepped);
    UnshadowNothing(stepped);
  }

  lemma SweepNothing(st: Links)
    requires st.open.Keys == st.seen
    ensures Sweep(st) == st
  {
    assert Stale(st) == map[] && Uids(map[]) == {};
  }

  lemma UnshadowNothing(st: Links)
    requires forall id :: id in st.devices ==> !IsShadow(st.devices[id])
    ensures Unshadow(st) == st
  {
    assert |st.open| != 0 ==> Unshadow(st).devices == st.devices;
  }
}
