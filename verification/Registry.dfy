/** The device registry: its maps, updated in place by a refresh. */
module Registry {
  import opened Wrappers
  import opened Reconcile
  import Volumes

  class Registry {
    var devices: map<string, Controller>
    var openMtp: map<string, Handle>
    var mtpControllers: map<string, Handle>
    var opens: nat                      // Open calls that succeeded so far
    ghost var closed: multiset<nat>     // Close calls, by handle
    const volumes: Volumes.VolumeTable

    /** The registry's maps as one value, with the identifiers a running refresh has met. */
    ghost function Snapshot(seen: set<string>): Links
      reads this
    {
      Links(devices, openMtp, mtpControllers, opens, closed, seen)
    }

    ghost predicate Valid()
      reads this, volumes
    {
      Inv(Snapshot({})) && volumes.Valid()
    }

    constructor (mountRoot: string)
      ensures Valid() && fresh(volumes)
      ensures Snapshot({}) == NO_LINKS && volumes.known == map[]
    {
      devices, openMtp, mtpControllers, opens, closed := map[], map[], map[], 0, multiset{};
      volumes := new Volumes.VolumeTable(mountRoot);
    }

    method FindOpenByBusDev(bus: nat, dev: nat) returns (h: Option<Handle>)
      requires Inv(Snapshot({}))
      ensures h == FindOpen(openMtp, bus, dev)
    {
      var todo := openMtp.Keys;
      while todo != {}
        invariant todo <= openMtp.Keys
        invariant forall id :: id in openMtp && id !in todo ==> !At(openMtp[id], bus, dev)
      {
        var id :| id in todo;
        if At(openMtp[id], bus, dev) {
          return Some(openMtp[id]);
        }
        todo := todo - {id};
      }
      h := None;
    }

    method ControllerFor(h: Handle) returns (c: Handle)
      modifies this`mtpControllers
      ensures mtpControllers == Reconcile.ControllerFor(old(mtpControllers), h)
      ensures h.id in mtpControllers && c == mtpControllers[h.id]
    {
      if h.id in mtpControllers {
        return mtpControllers[h.id];
      }
      mtpControllers := mtpControllers[h.id := h];
      c := h;
    }

    /** Opens a listed device and files the handle, replacing any handle with its identifier. */
    method Open(md: Listed, met: set<string>) returns (seen: set<string>)
      modifies this
      ensures Snapshot(seen) == OpenNew(old(Snapshot(met)), md)
    {
      seen := met;
      if md.open.None? { return; }
      var h := Handle(opens, md.open.value, md.bus, md.dev);
      opens := opens + 1;
      openMtp := openMtp[h.id := h];
      seen := Reuse(h, seen);
    }

    /** Keeps serving a handle through its cached controller, or a new one. */
    method Reuse(h: Handle, met: set<string>) returns (seen: set<string>)
      modifies this`devices, this`mtpControllers
      ensures Snapshot(seen) == Register(old(Snapshot(met)), h)
    {
      seen := met + {h.id};
      var c := ControllerFor(h);
      devices := devices[h.id := Mtp(c)];
    }

    /** One device of the listing. */
    method Visit(md: Listed, met: set<string>) returns (seen: set<string>)
      requires Inv(Snapshot({}))
      modifies this
      ensures Inv(Snapshot({}))
      ensures Snapshot(seen) == Step(old(Snapshot(met)), md)
    {
      hide Inv, FindOpen, Register, OpenNew;
      InvIgnoresSeen(Snapshot({}), met);
      StepKeepsInv(Snapshot(met), md);
      InvIgnoresSeen(Step(Snapshot(met), md), {});
      var existing := FindOpenByBusDev(md.bus, md.dev);
      if existing.Some? {
        var h := existing.value;
        if (h.id in mtpControllers && md.locating) || md.answers {
          seen := Reuse(h, met);
          return;
        }
        closed := closed + multiset{h.uid};
        openMtp := openMtp - {h.id};
        mtpControllers := mtpControllers - {h.id};
      }
      seen := Open(md, met);
    }

    /** Drops the handles that were not met and hands them over to be closed. */
    method CloseStale(seen: set<string>)
      requires Inv(Snapshot({}))
      modifies this`openMtp, this`mtpControllers, this`closed
      ensures Snapshot(seen) == Sweep(old(Snapshot(seen)))
      ensures Inv(Snapshot({}))
    {
      hide Inv, Sweep, SweptBy;
      ghost var before := Snapshot(seen);
      ghost var gone: set<string> := {};
      InvIgnoresSeen(Snapshot({}), seen);
      var todo := openMtp.Keys - seen;
      SweptNone(before);
      while todo != {}
        invariant gone + todo == before.open.Keys - seen && gone !! todo
        invariant Snapshot(seen) == SweptBy(before, gone)
      {
        var id :| id in todo;
        SweptOne(before, gone, id);
        closed := closed + multiset{openMtp[id].uid};
        openMtp := openMtp - {id};
        mtpControllers := mtpControllers - {id};
        todo, gone := todo - {id}, gone + {id};
      }
      SweptAll(before, gone);
      SweepKeepsInv(before);
      InvIgnoresSeen(Snapshot(seen), {});
    }

    /** Hides unauthorized ADB entries while some MTP handle is open. */
    method HideShadows(seen: set<string>)
      modifies this`devices
      ensures Snapshot(seen) == Unshadow(old(Snapshot(seen)))
    {
      if |openMtp| > 0 {
        ghost var before := devices;
        var todo := devices.Keys;
        while todo != {}
          invariant todo <= devices.Keys <= before.Keys
          invariant forall id :: id in devices ==> devices[id] == before[id]
          invariant forall id :: id in before && id !in todo ==> (id in devices <==> !IsShadow(before[id]))
        {
          var id :| id in todo;
          if IsShadow(devices[id]) {
            devices := devices - {id};
          }
          todo := todo - {id};
        }
      }
    }

    /**
     A whole refresh: the MTP and ADB part is the reconciliation, and the present media volumes are
     registered on top.
     */
    method Refresh(scan: Scan, disks: Volumes.Scan) returns (registered: set<string>)
      requires Valid()
      modifies this, volumes
      ensures Valid()
      ensures var after := Reconcile.Refresh(old(Snapshot({})), scan);
              && Snapshot(after.seen) == after.(devices := after.devices + map id | id in registered :: Usb(id))
      ensures disks.found.None? ==> registered == {}
      ensures disks.found.Some? ==>
                && volumes.known.Keys == Volumes.Ids(disks.found.value)
                && registered == set id | id in volumes.known && volumes.known[id].media
    {
      hide Inv, Reconcile.Refresh;
      RefreshKeepsInv(Snapshot({}), scan);
      var seen := RefreshLinks(scan);
      InvIgnoresSeen(Snapshot(seen), {});
      InvIgnoresDevices(Snapshot({}));
      registered := volumes.ScanMassStorage(disks);
      devices := devices + map id | id in registered :: Usb(id);
    }

    method RefreshLinks(scan: Scan) returns (seen: set<string>)
      requires Inv(Snapshot({}))
      modifies this
      ensures Snapshot(seen) == Reconcile.Refresh(old(Snapshot({})), scan)
    {
      hide Inv;
      ghost var before := Snapshot({});
      ghost var begun := Begin(before, scan);
      BeginKeeps(before, scan);
      devices := map[];
      seen := {};
      if scan.adb.Some? {
        var devs := scan.adb.value;
        for k := 0 to |devs|
          invariant devices == AdbDevices(devs[..k])
          invariant Snapshot({}) == begun.(devices := devices)
        {
          assert devs[..k + 1][..k] == devs[..k];
          devices := devices[devs[k].serial := Adb(devs[k].serial, devs[k].authorized)];
        }
        assert devs[..|devs|] == devs;
      }
      var mds := Listing(scan);
      assert Snapshot(seen) == begun == Steps(begun, mds[..0]);
      for k := 0 to |mds|
        invariant Inv(Snapshot({}))
        invariant Snapshot(seen) == Steps(begun, mds[..k])
      {
        assert mds[..k + 1][..k] == mds[..k];
        seen := Visit(mds[k], seen);
      }
      assert mds[..|mds|] == mds;
      CloseStale(seen);
      HideShadows(seen);
    }
  }

  /** The links with the handles of `gone` dropped. */
  ghost function SweptBy(st: Links, gone: set<string>): Links
    requires gone <= st.open.Keys
  {
    st.(open := st.open - gone, ctls := st.ctls - gone, closed := st.closed + multiset(UidsOf(st.open, gone)))
  }

  ghost function UidsOf(open: map<string, Handle>, ids: set<string>): set<nat>
    requires ids <= open.Keys
  {
    set id | id in ids :: open[id].uid
  }

  lemma SweptNone(st: Links)
    ensures SweptBy(st, {}) == st
  {
    assert UidsOf(st.open, {}) == {};
    assert st.open - {} == st.open && st.ctls - {} == st.ctls;
  }

  lemma SweptOne(st: Links, gone: set<string>, id: string)
    requires Inv(st) && gone <= st.open.Keys && id in st.open && id !in gone
    ensures var s := SweptBy(st, gone);
            && id in s.open && s.open[id] == st.open[id]
            && SweptBy(st, gone + {id})
               == s.(open := s.open - {id}, ctls := s.ctls - {id}, closed := s.closed + multiset{st.open[id].uid})
  {
    hide UidsOf, Inv;
    InvHasDistinctUids(st);
    OneMoreUid(st.open, gone, id);
    OneLess(st.open, gone, id);
    OneLess(st.ctls, gone, id);
  }

  lemma InvHasDistinctUids(st: Links)
    requires Inv(st)
    ensures DistinctUids(st.open)
  {
  }

  lemma OneMoreUid(open: map<string, Handle>, gone: set<string>, id: string)
    requires DistinctUids(open) && gone <= open.Keys && id in open && id !in gone
    ensures multiset(UidsOf(open, gone + {id})) == multiset(UidsOf(open, gone)) + multiset{open[id].uid}
  {
    var u := open[id].uid;
    assert UidsOf(open, gone + {id}) == UidsOf(open, gone) + {u};
    assert u !in UidsOf(open, gone);
  }

  lemma OneLess(m: map<string, Handle>, gone: set<string>, id: string)
    ensures m - (gone + {id}) == m - gone - {id}
  {
  }

  lemma SweptAll(st: Links, gone: set<string>)
    requires gone == st.open.Keys - st.seen
    ensures SweptBy(st, gone) == Sweep(st)
  {
    var stale := Stale(st);
    assert stale.Keys == gone;
    assert UidsOf(st.open, gone) == Uids(stale);
  }

  lemma InvIgnoresSeen(st: Links, seen: set<string>)
    requires Inv(st)
    ensures Inv(st.(seen := seen))
  {
  }

  lemma InvIgnoresDevices(st: Links)
    requires Inv(st)
    ensures forall devices :: Inv(st.(devices := devices))
  {
  }

  /**
   What a caller finds after a whole refresh that lists each bus address once: the MTP entries are
   the open handles whose identifier no volume took over, each served by its cached controller.
   */
  lemma RegisteredDevices(st: Links, scan: Scan, registered: set<string>, id: string)
    requires Inv(st) && NamedOnce(Listing(scan))
    ensures var after := Reconcile.Refresh(st, scan);
            var devices := after.devices + map v | v in registered :: Usb(v);
            && after.ctls.Keys == after.open.Keys
            && (id in devices && devices[id].Mtp? <==> id in after.open && id !in registered)
            && (id in after.open && id !in registered ==> devices[id] == Mtp(after.ctls[id]))
            && (id in devices && devices[id].Usb? <==> id in registered)
            && (id in registered ==> devices[id] == Usb(id))
            && (id in devices && devices[id].Adb? <==>
                  id in after.devices && after.devices[id].Adb? && id !in registered)
            && (id in devices && devices[id].Adb? ==> devices[id] == after.devices[id])
  {
    hide Reconcile.Refresh, Inv;
    RefreshAligns(st, scan);
  }
}
