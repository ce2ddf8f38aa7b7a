/** Writing a waypoint slot on the device: its mission file, its images and its preview. */
module SlotWriter {
  import opened Wrappers
  import opened Text
  import opened ObjectStore
  import opened SlotContent

  datatype WriteError =
    | LocateFailed | SlotNotFound | NoImageFolder | ListFailed | DeleteFailed | ReadFailed | BuildFailed | PutFailed
    | KmzNotFound

  class SlotWriter {
    const dev: Device
    const located: bool              // the classification walk ended without an error
    const waypointDir: Option<Entry>
    const previewDir: Option<Entry>

    constructor (dev: Device, located: bool, waypointDir: Option<Entry>, previewDir: Option<Entry>)
      ensures this.dev == dev && this.located == located
      ensures this.waypointDir == waypointDir && this.previewDir == previewDir
    {
      this.dev, this.located, this.waypointDir, this.previewDir := dev, located, waypointDir, previewDir;
    }

    /** Deletes a child if a listing shows it. A listing that fails counts as showing none. */
    method DropChild(parent: Option<Entry>, name: string) returns (ok: bool, ghost gone: set<nat>)
      requires dev.Valid()
      modifies dev
      ensures dev.Valid() && dev.nextId == old(dev.nextId)
      ensures dev.objects == old(dev.objects) - gone
      ensures Dropped(old(dev.objects), Named(old(dev.objects), IdOf(parent), name), dev.script, old(dev.requests),
                      dev.requests, ok, gone)
    {
      gone := {};
      assert dev.objects - gone == dev.objects;
      var existing := dev.FindChild(parent, name);
      if existing.Ok? && existing.value.Some? {
        ok := dev.Delete(existing.value.value);
        if ok {
          gone := {existing.value.value.id};
        }
        return;
      }
      ok := true;
    }

    /**
     Replaces the slot's mission file. Nothing else is removed, and at most the new one is added; an error
     after the delete leaves the slot without any.
     */
    method WriteKmz(guid: string, data: Option<Bytes>)
      returns (r: Result<nat, WriteError>, ghost gone: set<nat>, ghost made: Objects)
      requires dev.Valid()
      modifies dev
      ensures dev.Valid()
      ensures var before, wd := old(dev.objects), IdOf(waypointDir);
              && Changed(before, gone, made, dev.objects)
              && gone <= KmzFiles(before, wd, guid) && |gone| <= 1
              && (forall k :: k in gone ==> before[k].kind == File || EmptyFolder(before, k))
              && (made != map[] ==> data.Some? && MakesKmz(before, wd, guid, data.value, made))
      ensures r.Ok? <==> made != map[]
      ensures r.Ok? ==> located && data.Some? && r.value == |data.value|
      ensures r == Err(LocateFailed) <==> !located
      ensures !located ==> dev.objects == old(dev.objects) && dev.requests == old(dev.requests)
      ensures r == Err(SlotNotFound) <==> located && !dev.script(old(dev.requests)) && !dev.silent(old(dev.requests))
      ensures Slots(old(dev.objects), IdOf(waypointDir), guid) == {} ==> r.Err? && dev.objects == old(dev.objects)
      ensures data.None? ==> r.Err? && r.error in {LocateFailed, SlotNotFound, DeleteFailed, ReadFailed}
      ensures var before, wd, n := old(dev.objects), IdOf(waypointDir), old(dev.requests);
              OneKmz(before, wd, guid) ==>
                && (r.Ok? ==>
                      && (KmzFiles(dev.objects, wd, guid) == made.Keys
                          <==> KmzFiles(before, wd, guid) == {} || dev.script(n + 1))
                      && KmzFiles(dev.objects, wd, guid)
                           == made.Keys + if dev.script(n + 1) then {} else KmzFiles(before, wd, guid))
                && (r.Err? ==> KmzFiles(dev.objects, wd, guid) <= KmzFiles(before, wd, guid))
                && gone == (if located && AllSucceed(dev.script, n, n + 3) then DeletableKmz(before, wd, guid) else {})
                && (located && dev.script(n) && Slots(before, wd, guid) != {} ==>
                      (r == Err(DeleteFailed) <==> && dev.script(n + 1) && KmzFiles(before, wd, guid) != {}
                                                   && gone != KmzFiles(before, wd, guid)))
      ensures var before, wd, n := old(dev.objects), IdOf(waypointDir), old(dev.requests);
              Writable(before, wd, guid) && located && data.Some? ==>
                (r.Ok? <==> dev.script(n) && PutWorks(KmzFiles(before, wd, guid) != {}, dev.script, n + 1))
    {
      hide KmzFiles, Changed, MakesKmz, OneKmz, Writable, DeletableKmz, AllSucceed, Tree, KmzName, EmptyFolder;
      hide Named, PutWorks, Swap.Valid, Slots;
      ghost var before, wd, n := dev.objects, IdOf(waypointDir), dev.requests;
      NamedSlots(before, wd, guid);
      gone, made := {}, map[];
      NothingWritten(before, wd, guid, []);
      SucceedThree(dev.script, n);
      WritableIsThere(before, wd, guid);
      if !located {
        return Err(LocateFailed), gone, made;
      }
      var slot := dev.FindChild(waypointDir, guid);
      if slot.Err? {
        return Err(SlotNotFound), gone, made;
      }
      if slot.value.None? && dev.script(n) {
        NoSlot(before, wd, guid);
      }
      ghost var id;
      var swapped;
      swapped, gone, id := SwapKmz(slot.value, guid, data, dev.script(n));
      if swapped.Err? {
        return Err(swapped.error), gone, made;
      }
      ghost var s := Swap(before, wd, guid, slot.value.value.id, gone, id, data.value);
      made := s.Made();
      KmzSwapped(s);
      if OneKmz(before, wd, guid) {
        KmzLeft(s, dev.script, n + 1, dev.requests);
      }
      r := Ok(|data.value|);
    }

    /**
     Drops the mission file of a slot that was looked up, if a second lookup finds it, and uploads the new
     one if it could be read.
     */
    method SwapKmz(slot: Option<Entry>, guid: string, data: Option<Bytes>, ghost done: bool)
      returns (r: Result<(), WriteError>, ghost gone: set<nat>, ghost id: nat)
      requires dev.Valid() && Looked(dev.objects, IdOf(waypointDir), guid, slot, done)
      modifies dev
      ensures dev.Valid() && dev.requests > old(dev.requests)
      ensures r.Err? ==> r.error in {DeleteFailed, ReadFailed, PutFailed}
      ensures r.Err? && r.error == DeleteFailed ==> dev.objects == old(dev.objects)
      ensures r.Err? && r.error == ReadFailed ==> data.None?
      ensures data.None? ==> r.Err? && r.error in {DeleteFailed, ReadFailed}
      ensures gone <= KmzFiles(old(dev.objects), IdOf(waypointDir), guid) && |gone| <= 1
      ensures forall k :: k in gone ==> old(dev.objects)[k].kind == File || EmptyFolder(old(dev.objects), k)
      ensures slot.None? ==> r.Err? && gone == {} && dev.objects == old(dev.objects)
      ensures r.Err? ==>
                && Changed(old(dev.objects), gone, map[], dev.objects)
                && KmzFiles(dev.objects, IdOf(waypointDir), guid)
                     <= KmzFiles(old(dev.objects), IdOf(waypointDir), guid)
      ensures r.Ok? ==>
                && slot.Some? && data.Some?
                && var s := Swap(old(dev.objects), IdOf(waypointDir), guid, slot.value.id, gone, id, data.value);
                   s.Valid() && dev.objects == s.After()
      ensures slot.Some? && OneKmz(old(dev.objects), IdOf(waypointDir), guid) ==>
                var before, wd, lookup := old(dev.objects), IdOf(waypointDir), old(dev.requests);
                && gone == (if dev.script(lookup) && dev.script(lookup + 1) then DeletableKmz(before, wd, guid) else {})
                && (r.Ok? ==> OldKmzLost(before, wd, guid, gone, dev.script, lookup, dev.requests))
                && (r == Err(DeleteFailed) <==> && dev.script(lookup) && KmzFiles(before, wd, guid) != {}
                                                && gone != KmzFiles(before, wd, guid))
                && (r == Err(ReadFailed) <==> data.None? && r != Err(DeleteFailed))
      ensures slot.Some? && data.Some? && Writable(old(dev.objects), IdOf(waypointDir), guid) ==>
                (r.Ok? <==> PutWorks(KmzFiles(old(dev.objects), IdOf(waypointDir), guid) != {}, dev.script,
                                     old(dev.requests)))
    {
      hide KmzFiles, Changed, OneKmz, Writable, DeletableKmz, Dropped, KmzName, EmptyFolder, Tree, OldKmzLost;
      ghost var before, wd, lookup := dev.objects, IdOf(waypointDir), dev.requests;
      gone, id := {}, 0;
      var dropped;
      dropped, gone := DropChild(slot, KmzName(guid));
      ghost var next := dev.requests;
      KmzGone(before, wd, guid, slot, done, dev.script, lookup, next, dropped, gone);
      KmzGoneOne(before, wd, guid, slot, done, dev.script, lookup, next, dropped, gone);
      WritableSlot(before, wd, guid, slot, done, dev.script, lookup, next, dropped, gone);
      if !dropped {
        return Err(DeleteFailed), gone, id;
      }
      if data.None? {
        return Err(ReadFailed), gone, id;
      }
      var put := dev.PutFile(slot, KmzName(guid), data.value);
      if put.None? {
        return Err(PutFailed), gone, id;
      }
      id := put.value;
      r := Ok(());
    }

    /** Reads the slot's mission file back. */
    method ReadKmz(guid: string) returns (r: Result<Bytes, WriteError>)
      requires dev.Valid()
      modifies dev`requests
      ensures r.Ok? ==>
                exists k :: && k in KmzFiles(dev.objects, IdOf(waypointDir), guid)
                            && k in dev.objects && dev.objects[k].kind == File && r.value == dev.objects[k].bytes
      ensures r == Err(LocateFailed) <==> !located
      ensures !located ==> dev.requests == old(dev.requests)
      ensures r == Err(SlotNotFound) <==>
                located && (!dev.script(old(dev.requests)) || Slots(dev.objects, IdOf(waypointDir), guid) == {})
      ensures OneKmz(dev.objects, IdOf(waypointDir), guid) ==>
                (r == Err(KmzNotFound) <==>
                   && located && dev.script(old(dev.requests)) && Slots(dev.objects, IdOf(waypointDir), guid) != {}
                   && (!dev.script(old(dev.requests) + 1) || KmzFiles(dev.objects, IdOf(waypointDir), guid) == {}))
      ensures OneKmz(dev.objects, IdOf(waypointDir), guid) ==>
                (r.Ok? <==> && located && AllSucceed(dev.script, old(dev.requests), old(dev.requests) + 3)
                            && HasFile(dev.objects, KmzFiles(dev.objects, IdOf(waypointDir), guid)))
    {
      hide KmzFiles, OneKmz, AllSucceed, KmzName, Named;
      ghost var wd, n := IdOf(waypointDir), dev.requests;
      SucceedThree(dev.script, n);
      if !located {
        return Err(LocateFailed);
      }
      var slot := dev.FindChild(waypointDir, guid);
      if slot.Err? || slot.value.None? {
        if dev.script(n) {
          NoSlot(dev.objects, wd, guid);
        }
        return Err(SlotNotFound);
      }
      var file := dev.FindChild(slot.value, KmzName(guid));
      OneSlotKmz(dev.objects, wd, guid, slot.value.value.id);
      if file.Err? || file.value.None? {
        return Err(KmzNotFound);
      }
      FoundKmz(dev.objects, wd, guid, slot.value.value.id, file.value.value.id);
      var bytes := dev.GetFile(file.value.value);
      r := if bytes.Some? then Ok(bytes.value) else Err(ReadFailed);
    }

    /** Deletes the listed plain files that `pick` takes; failures are ignored. */
    method WipeFiles(entries: seq<Entry>, pick: Pick) returns (ghost gone: set<nat>)
      requires dev.Valid() && Listed(dev.objects, entries)
      modifies dev
      ensures dev.Valid() && dev.nextId == old(dev.nextId) && dev.requests >= old(dev.requests)
      ensures dev.objects == old(dev.objects) - gone
      ensures gone <= Picked(entries, pick)
      ensures AllSucceed(dev.script, old(dev.requests), dev.requests) <==> gone == Picked(entries, pick)
      ensures dev.requests == old(dev.requests) + |Picked(entries, pick)|
    {
      hide Tree, Deletable, AllSucceed, Picked, Shows, Listed, Device.Valid, WipedTo, Pick.Takes;
      gone := {};
      ghost var before, n, picked: set<nat> := dev.objects, dev.requests, {};
      NothingWiped(before, dev.script, n, pick);
      assert entries[..0] == [];
      for k := 0 to |entries|
        invariant dev.Valid() && dev.nextId == old(dev.nextId)
        invariant picked == Picked(entries[..k], pick)
        invariant WipedTo(dev.objects, before, gone, picked, dev.script, n, dev.requests)
      {
        var ch := entries[k];
        PickedOneMore(before, entries, pick, k);
        ListedAt(before, entries, k);
        if ch.kind != File || !pick.Takes(ch.name) {
          continue;
        }
        ValidIsTree(dev);
        OneMoreWiped(dev.objects, before, gone, picked, dev.script, n, dev.requests, ch);
        var ok := dev.Delete(ch);
        if ok {
          gone := gone + {ch.id};
        }
        picked := picked + {ch.id};
      }
      assert entries[..|entries|] == entries;
      WipedFacts(dev.objects, before, gone, picked, dev.script, n, dev.requests);
    }

    /**
     Replaces the rendered waypoint images. Only files of the slot's image folder that follow the naming of
     waypoint images go; on success every image and then the index have been added.
     */
    method WriteWaypointImages(guid: string, images: seq<Image>, index: seq<Image> -> Bytes)
      returns (r: Result<(), WriteError>, ghost folder: nat, ghost gone: set<nat>, ghost ids: seq<nat>, ghost puts: nat)
      requires dev.Valid()
      modifies dev
      ensures dev.Valid()
      ensures gone != {} || ids != [] ==> folder in ImageFolders(old(dev.objects), IdOf(waypointDir), guid)
      ensures gone <= OurImages(old(dev.objects), folder)
      ensures |ids| <= |images| + 1 && Numbered(old(dev.objects), ids)
      ensures dev.objects == AddImages(old(dev.objects) - gone, folder, images, index(images), ids)
      ensures r.Ok? <==> |ids| == |images| + 1
      ensures r == Err(LocateFailed) <==> !located
      ensures !located ==> dev.objects == old(dev.objects) && dev.requests == old(dev.requests)
      ensures r == Err(SlotNotFound) <==>
                located
                && (!dev.script(old(dev.requests)) || Slots(old(dev.objects), IdOf(waypointDir), guid) == {})
      ensures r.Err? && r.error in {LocateFailed, SlotNotFound, NoImageFolder, ListFailed} ==>
                dev.objects == old(dev.objects) && puts == 0
      ensures r == Err(ListFailed) ==> !dev.script(old(dev.requests) + 2) && !dev.silent(old(dev.requests) + 2)
      ensures r.Err? && puts != 0 ==> r == Err(PutFailed)
      ensures r.Ok? ==> (gone == OurImages(old(dev.objects), folder)
                         <==> || OurImages(old(dev.objects), folder) == {}
                              || AllSucceed(dev.script, old(dev.requests), dev.requests))
      ensures puts != 0 ==>
                && folder in ImageFolders(old(dev.objects), IdOf(waypointDir), guid)
                && puts == old(dev.requests) + 3
                           + (if dev.script(old(dev.requests) + 2) then |OurImages(old(dev.objects), folder)| else 0)
      ensures r.Ok? ==> puts != 0 && dev.requests == puts + |images| + 1
      ensures OneImageFolder(old(dev.objects), IdOf(waypointDir), guid) && located ==>
                (puts != 0 <==> && dev.script(old(dev.requests)) && dev.script(old(dev.requests) + 1)
                                && (dev.script(old(dev.requests) + 2) || dev.silent(old(dev.requests) + 2)))
      ensures OneImageFolder(old(dev.objects), IdOf(waypointDir), guid) && located ==>
                (r.Ok? <==> puts != 0 && AllSucceed(dev.script, puts, puts + |images| + 1))
    {
      hide AllSucceed, OurImages, AddImages, ImageFolders, Numbered, OneImageFolder, Tree, Shows, Slots, Named;
      hide Device.Valid;
      NumbersBelow(dev);
      folder, gone, ids, puts := TOP, {}, [], 0;
      ghost var before, n := dev.objects, dev.requests;
      NothingAdded(before, folder, images, index(images));
      var image := FindImageFolder(guid);
      if image.Err? {
        return Err(image.error), folder, gone, ids, puts;
      }
      folder := image.value.id;
      NothingAdded(before, folder, images, index(images));
      var listed;
      listed, gone := WipeOurs(image.value, before);
      if !listed {
        return Err(ListFailed), folder, gone, ids, puts;
      }
      puts := dev.requests;
      FolderStays(before, folder, gone);
      var ok;
      ok, ids := PutImages(image.value, images, index(images), before);
      if !ok {
        return Err(PutFailed), folder, gone, ids, puts;
      }
      SucceedFrom(dev.script, n, puts, dev.requests);
      r := Ok(());
    }

    /** The two lookups that lead to the slot's image folder. */
    method FindImageFolder(guid: string) returns (r: Result<Entry, WriteError>)
      requires dev.Valid()
      modifies dev`requests
      ensures dev.Valid() && dev.requests >= old(dev.requests)
      ensures r.Ok? ==>
                && dev.script(old(dev.requests)) && dev.script(old(dev.requests) + 1)
                && dev.requests == old(dev.requests) + 2
                && r.value.id in dev.objects && r.value.kind == dev.objects[r.value.id].kind
                && r.value.id in ImageFolders(dev.objects, IdOf(waypointDir), guid)
      ensures r == Err(LocateFailed) <==> !located
      ensures !located ==> dev.requests == old(dev.requests)
      ensures r == Err(SlotNotFound) <==>
                located && (!dev.script(old(dev.requests)) || Slots(dev.objects, IdOf(waypointDir), guid) == {})
      ensures r.Err? ==> r.error in {LocateFailed, SlotNotFound, NoImageFolder}
      ensures OneImageFolder(dev.objects, IdOf(waypointDir), guid) && located ==>
                && (r.Ok? <==> dev.script(old(dev.requests)) && dev.script(old(dev.requests) + 1))
                && (r.Ok? ==> r.value.kind != File)
    {
      hide OneImageFolder, Named, Tree, ImageFolders;
      ghost var one := OneImageFolder(dev.objects, IdOf(waypointDir), guid);
      if one {
        ImageFolderThere(dev.objects, IdOf(waypointDir), guid);
      }
      if !located {
        return Err(LocateFailed);
      }
      var slot := dev.FindChild(waypointDir, guid);
      if slot.Err? || slot.value.None? {
        return Err(SlotNotFound);
      }
      if one {
        ImageFolderFound(dev.objects, IdOf(waypointDir), guid, slot.value.value.id);
      }
      var image := dev.FindChild(slot.value, "image");
      if image.Err? || image.value.None? {
        return Err(NoImageFolder);
      }
      FoundImageFolder(dev.objects, IdOf(waypointDir), guid, slot.value.value.id, image.value.value.id);
      r := Ok(image.value.value);
    }

    /** Lists the image folder and deletes what a previous run left in it. */
    method WipeOurs(folder: Entry, ghost before: Objects) returns (listed: bool, ghost gone: set<nat>)
      requires dev.Valid() && before == dev.objects
      modifies dev
      ensures dev.Valid() && dev.nextId == old(dev.nextId) && dev.requests > old(dev.requests)
      ensures dev.objects == before - gone && gone <= OurImages(before, folder.id)
      ensures !listed ==> gone == {}
      ensures listed ==> (gone == OurImages(before, folder.id)
                          <==> || OurImages(before, folder.id) == {}
                               || AllSucceed(dev.script, old(dev.requests), dev.requests))
      ensures listed <==> dev.script(old(dev.requests)) || dev.silent(old(dev.requests))
      ensures dev.requests == old(dev.requests) + 1
                              + if dev.script(old(dev.requests)) then |OurImages(before, folder.id)| else 0
    {
      hide AllSucceed, Picked, IsListing, Shows, Tree, FilesIn, Listed;
      gone := {};
      assert before - gone == before;
      ghost var n := dev.requests;
      var existing := dev.ListDir(Some(folder));
      if existing.None? {
        return false, gone;
      }
      if !dev.script(n) {
        SucceedOne(dev.script, n);
        NothingPicked(Ours);
        NothingListed(before);
      } else {
        PickedFromListing(before, folder.id, existing.value, Ours);
        ListingIsListed(before, folder.id, existing.value);
      }
      gone := WipeFiles(existing.value, Ours);
      SucceedHalves(dev.script, n, n + 1, dev.requests);
      SucceedOne(dev.script, n);
      listed := true;
    }

    /** Uploads the images in order, then the index; stops at the first failure. */
    method PutImages(folder: Entry, images: seq<Image>, index: Bytes, ghost before: Objects)
      returns (ok: bool, ghost ids: seq<nat>)
      requires dev.Valid()
      requires forall id :: id in before ==> id < dev.nextId
      modifies dev
      ensures dev.Valid() && dev.requests >= old(dev.requests)
      ensures |ids| <= |images| + 1 && Numbered(before, ids)
      ensures dev.objects == AddImages(old(dev.objects), folder.id, images, index, ids)
      ensures ok <==> |ids| == |images| + 1
      ensures ok ==> dev.requests == old(dev.requests) + |images| + 1
      ensures ok ==> AllSucceed(dev.script, old(dev.requests), dev.requests)
      ensures folder.kind != File && folder.id in old(dev.objects) && old(dev.objects)[folder.id].kind != File ==>
                (ok <==> AllSucceed(dev.script, old(dev.requests), old(dev.requests) + |images| + 1))
    {
      hide Tree, AddImages;
      ids := [];
      ghost var start, n := dev.objects, dev.requests;
      AddNone(start, folder.id, images, index);
      for k := 0 to |images|
        invariant dev.Valid() && dev.requests == n + k && AllSucceed(dev.script, n, dev.requests)
        invariant folder.id in start ==> folder.id in dev.objects && dev.objects[folder.id] == start[folder.id]
        invariant forall id :: id in before ==> id < dev.nextId
        invariant forall j :: 0 <= j < |ids| ==> ids[j] < dev.nextId
        invariant |ids| == k && Numbered(before, ids)
        invariant dev.objects == AddImages(start, folder.id, images, index, ids)
      {
        var put := dev.PutFile(Some(folder), images[k].name, images[k].bytes);
        if put.None? {
          return false, ids;
        }
        AddOne(start, folder.id, images, index, ids, put.value);
        ids := ids + [put.value];
      }
      var put := dev.PutFile(Some(folder), INDEX_NAME, index);
      if put.None? {
        return false, ids;
      }
      AddOne(start, folder.id, images, index, ids, put.value);
      ids := ids + [put.value];
      ok := true;
    }

    /**
     Resets a slot: a placeholder in the place of its mission, no images, no preview. Nothing else on the
     device changes, and until the placeholder is in place only the mission file is touched. `at` is where
     the placeholder starts; `lookup` is the number of the request that looks for the old mission file in
     order to delete it, `wipe` and `drop` the first that concern the images and the preview.
     */
    method ClearSlot(guid: string, origin: Bytes -> Option<(real, real)>, placeholder: (real, real) -> Option<Bytes>)
      returns (r: Result<(), WriteError>, ghost gone: set<nat>, ghost made: Objects, ghost data: Bytes,
               ghost at: (real, real), ghost lookup: nat, ghost wipe: nat, ghost drop: nat)
      requires dev.Valid()
      modifies dev
      ensures dev.Valid()
      ensures Changed(old(dev.objects), gone, made, dev.objects)
      ensures MakesKmz(old(dev.objects), IdOf(waypointDir), guid, data, made)
      ensures r.Ok? <==> made != map[]
      ensures r == Err(LocateFailed) <==> !located
      ensures !located ==> dev.objects == old(dev.objects) && dev.requests == old(dev.requests)
      ensures r == Err(SlotNotFound) <==>
                located
                && (!dev.script(old(dev.requests)) || Slots(old(dev.objects), IdOf(waypointDir), guid) == {})
      ensures r == Err(BuildFailed) <==>
                && located && dev.script(old(dev.requests)) && Slots(old(dev.objects), IdOf(waypointDir), guid) != {}
                && placeholder(at.0, at.1).None?
      ensures r.Err? && r.error in {LocateFailed, SlotNotFound, BuildFailed, DeleteFailed} ==>
                dev.objects == old(dev.objects)
      ensures made != map[] ==> placeholder(at.0, at.1) == Some(data)
      ensures r.Ok? ==> old(dev.requests) < lookup < wipe < drop <= dev.requests
      ensures r.Err? ==> gone <= KmzFiles(old(dev.objects), IdOf(waypointDir), guid)
      ensures r.Err? ==> KmzFiles(dev.objects, IdOf(waypointDir), guid)
                           <= KmzFiles(old(dev.objects), IdOf(waypointDir), guid)
      ensures gone <= SlotFiles(old(dev.objects), IdOf(waypointDir), previewDir, guid)
      ensures |guid| == 36 ==>
                forall k :: k in gone ==> old(dev.objects)[k].kind == File || EmptyFolder(old(dev.objects), k)
      ensures FindsOne(old(dev.objects), IdOf(waypointDir), guid, dev.script(old(dev.requests))) && located ==>
                Placed(old(dev.objects), IdOf(waypointDir), guid, dev.script, old(dev.requests), lookup, origin, at)
      ensures Writable(old(dev.objects), IdOf(waypointDir), guid) && located ==>
                (r.Ok? <==> && dev.script(old(dev.requests)) && placeholder(at.0, at.1).Some?
                            && PutWorks(KmzFiles(old(dev.objects), IdOf(waypointDir), guid) != {}, dev.script, lookup))
      ensures r.Ok? && OneKmz(old(dev.objects), IdOf(waypointDir), guid) ==>
                var before, wd := old(dev.objects), IdOf(waypointDir);
                && wipe == (if KmzFiles(before, wd, guid) != {} && dev.script(lookup) then lookup + 3 else lookup + 2)
                && (KmzFiles(dev.objects, wd, guid) == made.Keys
                    <==> KmzFiles(before, wd, guid) == {} || dev.script(lookup))
                && KmzFiles(dev.objects, wd, guid)
                     == made.Keys + (if dev.script(lookup) then {} else KmzFiles(before, wd, guid))
      ensures r.Ok? && Unambiguous(old(dev.objects), IdOf(waypointDir), previewDir, guid) ==>
                var before, wd := old(dev.objects), IdOf(waypointDir);
                && (ImageFiles(dev.objects, wd, guid) == {}
                    <==> ImageFiles(before, wd, guid) == {} || AllSucceed(dev.script, wipe, drop))
                && PreviewFiles(dev.objects, previewDir, guid)
                     == PreviewFiles(before, previewDir, guid)
                        - (if AllSucceed(dev.script, drop, dev.requests)
                           then DeletablePreviews(before, previewDir, guid) else {})
                && (gone == SlotFiles(before, wd, previewDir, guid)
                    <==> && (KmzFiles(before, wd, guid) == {} || dev.script(lookup))
                         && ImageFiles(dev.objects, wd, guid) == {}
                         && PreviewFiles(dev.objects, previewDir, guid) == {})
      ensures Unambiguous(old(dev.objects), IdOf(waypointDir), previewDir, guid) ==>
                var before, wd, n := old(dev.objects), IdOf(waypointDir), old(dev.requests);
                (TakesFolder(before, gone) <==>
                   || (&& Swapped(located, dev.script, n, placeholder(at.0, at.1).Some?, lookup)
                       && HasEmptyFolder(before, KmzFiles(before, wd, guid)))
                   || (&& r.Ok? && AllSucceed(dev.script, drop, dev.requests)
                       && HasEmptyFolder(before, PreviewFiles(before, previewDir, guid))))
    {
      hide Named, KmzFiles, Changed, MakesKmz, ImageFiles, ImageFolders, PreviewFiles, Unambiguous, OneKmz, Placed;
      hide AllSucceed, Tree, SlotFiles, Cleaned, EmptyFolder, Writable, PutWorks, Swap.Valid, Swap.After, Swap.Made;
      hide DeletableKmz, DeletablePreviews, TakesFolder, HasEmptyFolder;
      ghost var before, wd, n := dev.objects, IdOf(waypointDir), dev.requests;
      gone, made, data, wipe, drop := {}, map[], [], 0, 0;
      NothingWritten(before, wd, guid, data);
      var placed;
      ghost var s, kmzGone;
      placed, s, kmzGone, at, lookup := Place(guid, origin, placeholder);
      gone := kmzGone;
      KmzAreContent(before, wd, previewDir, guid);
      ghost var swapped := Swapped(located, dev.script, n, placeholder(at.0, at.1).Some?, lookup);
      if Unambiguous(before, wd, previewDir, guid) {
        UnambiguousKmz(before, wd, previewDir, guid);
        FolderGoesIff(before, wd, guid, kmzGone, swapped);
      }
      if placed.Err? {
        return Err(placed.error), gone, made, data, at, lookup, wipe, drop;
      }
      made, data, wipe := s.Made(), s.data, dev.requests;
      ghost var wiped, lost;
      wiped, lost, drop := CleanUp(placed.value, guid);
      gone := kmzGone + wiped + lost;
      ResetChanges(s, previewDir, dev.script, wipe, drop, dev.requests, wiped, lost);
      if OneKmz(before, wd, guid) {
        ResetKmz(s, previewDir, dev.script, lookup, wipe, wiped, lost);
      }
      if Unambiguous(before, wd, previewDir, guid) {
        ResetContent(s, previewDir, dev.script, lookup, wipe, drop, dev.requests, wiped, lost);
        ResetFolderGoesIff(before, wd, previewDir, guid, kmzGone, swapped, wiped, lost,
                           AllSucceed(dev.script, drop, dev.requests));
      }
      r := Ok(());
    }

    /** The first half of a reset: finds the slot, builds the placeholder and swaps the mission file for it. */
    method Place(guid: string, origin: Bytes -> Option<(real, real)>, placeholder: (real, real) -> Option<Bytes>)
      returns (r: Result<Entry, WriteError>, ghost s: Swap, ghost gone: set<nat>, ghost at: (real, real),
               ghost lookup: nat)
      requires dev.Valid()
      modifies dev
      ensures dev.Valid() && dev.requests >= old(dev.requests)
      ensures r == Err(LocateFailed) <==> !located
      ensures !located ==> dev.requests == old(dev.requests)
      ensures r == Err(SlotNotFound) <==>
                located
                && (!dev.script(old(dev.requests)) || Slots(old(dev.objects), IdOf(waypointDir), guid) == {})
      ensures r == Err(BuildFailed) <==>
                && located && dev.script(old(dev.requests)) && Slots(old(dev.objects), IdOf(waypointDir), guid) != {}
                && placeholder(at.0, at.1).None?
      ensures r.Err? && r.error in {LocateFailed, SlotNotFound, BuildFailed, DeleteFailed} ==>
                dev.objects == old(dev.objects)
      ensures gone <= KmzFiles(old(dev.objects), IdOf(waypointDir), guid)
      ensures forall k :: k in gone ==> old(dev.objects)[k].kind == File || EmptyFolder(old(dev.objects), k)
      ensures r.Err? ==> Changed(old(dev.objects), gone, map[], dev.objects)
      ensures r.Err? ==> KmzFiles(dev.objects, IdOf(waypointDir), guid)
                           <= KmzFiles(old(dev.objects), IdOf(waypointDir), guid)
      ensures r.Ok? ==>
                && s == Swap(old(dev.objects), IdOf(waypointDir), guid, r.value.id, gone, s.id, s.data)
                && s.Valid() && dev.objects == s.After() && placeholder(at.0, at.1) == Some(s.data)
                && old(dev.requests) < lookup < dev.requests
      ensures FindsOne(old(dev.objects), IdOf(waypointDir), guid, dev.script(old(dev.requests))) && located ==>
                Placed(old(dev.objects), IdOf(waypointDir), guid, dev.script, old(dev.requests), lookup, origin, at)
      ensures Writable(old(dev.objects), IdOf(waypointDir), guid) && located ==>
                (r.Ok? <==> && dev.script(old(dev.requests)) && placeholder(at.0, at.1).Some?
                            && PutWorks(KmzFiles(old(dev.objects), IdOf(waypointDir), guid) != {}, dev.script, lookup))
      ensures r.Ok? && OneKmz(old(dev.objects), IdOf(waypointDir), guid) ==>
                var before, wd := old(dev.objects), IdOf(waypointDir);
                OldKmzLost(before, wd, guid, gone, dev.script, lookup, dev.requests)
      ensures OneKmz(old(dev.objects), IdOf(waypointDir), guid) ==>
                gone == if Swapped(located, dev.script, old(dev.requests), placeholder(at.0, at.1).Some?, lookup)
                        then DeletableKmz(old(dev.objects), IdOf(waypointDir), guid) else {}
    {
      hide Named, KmzFiles, Changed, OneKmz, Placed, OriginUsed, KmzName, EmptyFolder, Tree, Writable, PutWorks;
      hide Swap.Valid, Swap.After, OldKmzLost, DeletableKmz, Slots, Looked;
      ghost var before, wd, n := dev.objects, IdOf(waypointDir), dev.requests;
      NamedSlots(before, wd, guid);
      s, gone, at, lookup := Swap(map[], 0, "", 0, {}, 0, []), {}, (0.0, 0.0), 0;
      NothingWritten(before, wd, guid, []);
      WritableIsThere(before, wd, guid);
      if !located {
        return Err(LocateFailed), s, gone, at, lookup;
      }
      var slot := dev.FindChild(waypointDir, guid);
      if slot.Err? || slot.value.None? {
        if dev.script(n) {
          NoSlot(before, wd, guid);
        }
        return Err(SlotNotFound), s, gone, at, lookup;
      }
      var built;
      built, at := BuildPlaceholder(slot.value, guid, origin, placeholder);
      lookup := dev.requests;
      if OneKmz(before, wd, guid) {
        PlacedAt(before, wd, guid, slot.value.value, dev.script, n, lookup, origin, at);
      }
      if built.None? {
        return Err(BuildFailed), s, gone, at, lookup;
      }
      ghost var id;
      var swapped;
      SlotLooked(before, wd, guid, slot.value.value, dev.script(n));
      swapped, gone, id := SwapKmz(slot.value, guid, built, dev.script(n));
      if swapped.Err? {
        return Err(swapped.error), s, gone, at, lookup;
      }
      s := Swap(before, wd, guid, slot.value.value.id, gone, id, built.value);
      r := Ok(slot.value.value);
    }

    /** The placeholder starts where the old mission did, if both requests that read it are carried out. */
    method BuildPlaceholder(slot: Option<Entry>, guid: string, origin: Bytes -> Option<(real, real)>,
                            placeholder: (real, real) -> Option<Bytes>)
      returns (built: Option<Bytes>, ghost at: (real, real))
      requires dev.Valid()
      modifies dev`requests
      ensures built == placeholder(at.0, at.1) && dev.requests > old(dev.requests)
      ensures OriginUsed(dev.objects, Named(dev.objects, IdOf(slot), KmzName(guid)), dev.script, old(dev.requests),
                         dev.requests, origin, at)
    {
      var lat, lng := 0.0, 0.0;
      var existing := dev.FindChild(slot, KmzName(guid));
      if existing.Ok? && existing.value.Some? {
        var bytes := dev.GetFile(existing.value.value);
        if bytes.Some? {
          var start := origin(bytes.value);
          if start.Some? {
            lat, lng := start.value.0, start.value.1;
          }
        }
      }
      at := (lat, lng);
      built := placeholder(lat, lng);
    }

    /** Wipes the images and the preview once the placeholder is in place; failures are ignored. */
    method CleanUp(slot: Entry, guid: string) returns (ghost wiped: set<nat>, ghost dropped: set<nat>, ghost drop: nat)
      requires dev.Valid()
      modifies dev
      ensures dev.Valid() && dev.objects == old(dev.objects) - wiped - dropped
      ensures old(dev.requests) < drop <= dev.requests
      ensures Cleaned(old(dev.objects), slot.id, previewDir, guid, dev.script, old(dev.requests), drop, dev.requests,
                      wiped, dropped)
    {
      hide Named, FilesUnder, PreviewFiles, AllSucceed, OnePreview, Tree, Deletable;
      wiped := WipeImages(slot);
      drop := dev.requests;
      dropped := DropPreview(guid);
    }

    method WipeImages(slot: Entry) returns (ghost gone: set<nat>)
      requires dev.Valid()
      modifies dev
      ensures dev.Valid() && dev.requests > old(dev.requests)
      ensures dev.objects == old(dev.objects) - gone
      ensures var folders := Named(old(dev.objects), slot.id, "image");
              var files := FilesUnder(old(dev.objects), folders);
              && gone <= files
              && (|folders| <= 1 ==>
                    (gone == files <==> files == {} || AllSucceed(dev.script, old(dev.requests), dev.requests)))
    {
      hide Tree, EqualFold, AllSucceed, IsListing, Shows, Picked, Named, Listed;
      gone := {};
      ghost var before, n := dev.objects, dev.requests;
      ghost var folders := Named(before, slot.id, "image");
      assert before - {} == before;
      SucceedOne(dev.script, n);
      var image := dev.FindChild(Some(slot), "image");
      if image.Err? || image.value.None? {
        assert dev.script(n) ==> FilesUnder(before, folders) == {};
        return;
      }
      if |folders| <= 1 {
        Singleton(folders, image.value.value.id);
      }
      var children := dev.ListDir(image.value);
      SucceedHalves(dev.script, n, n + 1, n + 2);
      SucceedOne(dev.script, n + 1);
      if children.None? {
        return;
      }
      if dev.script(n + 1) {
        PickedFromListing(before, image.value.value.id, children.value, Everything);
        ListingIsListed(before, image.value.value.id, children.value);
      } else {
        NothingPicked(Everything);
        NothingListed(before);
      }
      gone := WipeFiles(children.value, Everything);
      SucceedHalves(dev.script, n, n + 2, dev.requests);
    }

    method DropPreview(guid: string) returns (ghost gone: set<nat>)
      requires dev.Valid()
      modifies dev
      ensures dev.Valid() && dev.requests >= old(dev.requests)
      ensures dev.objects == old(dev.objects) - gone
      ensures var previews := PreviewFiles(old(dev.objects), previewDir, guid);
              && gone <= previews && (forall k :: k in gone ==> Deletable(old(dev.objects), k))
              && (OnePreview(old(dev.objects), previewDir, guid) ==>
                    gone == if AllSucceed(dev.script, old(dev.requests), dev.requests)
                            then DeletablePreviews(old(dev.objects), previewDir, guid) else {})
    {
      hide Tree, EqualFold, AllSucceed, Dropped, Deletable, OnePreview;
      gone := {};
      ghost var before, n := dev.objects, dev.requests;
      assert before - {} == before;
      if previewDir.None? {
        return;
      }
      SucceedOne(dev.script, n);
      var sub := dev.FindChild(previewDir, guid);
      if sub.Err? || sub.value.None? {
        assert dev.script(n) ==> PreviewFiles(before, previewDir, guid) == {};
        return;
      }
      var ok;
      ok, gone := DropChild(sub.value, JpgName(guid));
      PreviewDropped(before, previewDir, guid, sub.value.value.id, dev.script, n, dev.requests, ok, gone);
    }
  }

  // ---- The outcome of looking the slot up and dropping its mission file -------------------

  /** From the lookup of an old mission file on: its deletion, if the lookup finds it, and the upload. */
  predicate PutWorks(old': bool, script: nat -> bool, lookup: nat) {
    if old' && script(lookup) then script(lookup + 1) && script(lookup + 2) else script(lookup + 1)
  }

  /**
   A reset asks for the old mission file to be deleted, and the request is carried out: so are the lookups of
   the slot, with request n, and of the file, and there is a placeholder to put in its place.
   */
  predicate Swapped(located: bool, script: nat -> bool, n: nat, built: bool, lookup: nat) {
    located && script(n) && built && script(lookup) && script(lookup + 1)
  }

  /** The slot as a lookup gave it: truthful if the request was carried out, else not there. */
  ghost predicate Looked(before: Objects, wd: nat, guid: string, slot: Option<Entry>, done: bool) {
    && (slot.Some? ==> done && Shows(before, slot.value) && slot.value.id in Slots(before, wd, guid))
    && (slot.None? && done ==> Slots(before, wd, guid) == {})
  }

  /** The old mission file is gone, or never was, exactly when the lookup in order to delete it worked. */
  ghost predicate OldKmzLost(before: Objects, wd: nat, guid: string, gone: set<nat>, script: nat -> bool, lookup: nat,
                             end: nat) {
    var files := KmzFiles(before, wd, guid);
    && (gone == files <==> files == {} || script(lookup))
    && (files == {} || gone != {} <==> files == {} || script(lookup))
    && end == if files != {} && script(lookup) then lookup + 3 else lookup + 2
  }

  /** One of these is a plain file. */
  ghost predicate HasFile(objects: Objects, files: set<nat>) {
    exists k :: k in files && k in objects && objects[k].kind == File
  }

  lemma NumbersBelow(dev: Device)
    requires dev.Valid()
    ensures forall id :: id in dev.objects ==> id < dev.nextId
  {
  }

  lemma SlotLooked(before: Objects, wd: nat, guid: string, slot: Entry, done: bool)
    requires done && Shows(before, slot) && slot.id in Slots(before, wd, guid)
    ensures Looked(before, wd, guid, Some(slot), done)
  {
  }

  lemma OneSlotKmz(objects: Objects, wd: nat, guid: string, slot: nat)
    requires slot in Slots(objects, wd, guid)
    ensures OneKmz(objects, wd, guid) ==> KmzFiles(objects, wd, guid) == Named(objects, slot, KmzName(guid))
  {
    if OneKmz(objects, wd, guid) {
      OneSlot(objects, wd, guid, slot);
    }
  }

  lemma FoundKmz(objects: Objects, wd: nat, guid: string, slot: nat, k: nat)
    requires slot in Slots(objects, wd, guid) && k in Named(objects, slot, KmzName(guid))
    ensures k in KmzFiles(objects, wd, guid)
    ensures OneKmz(objects, wd, guid) ==> KmzFiles(objects, wd, guid) == {k}
  {
    if OneKmz(objects, wd, guid) {
      Singleton(KmzFiles(objects, wd, guid), k);
    }
  }

  lemma WritableIsThere(before: Objects, wd: nat, guid: string)
    ensures Writable(before, wd, guid) ==> Named(before, wd, guid) != {}
  {
    assert Writable(before, wd, guid) ==> |Slots(before, wd, guid)| == 1;
  }

  /** Whatever the lookups gave, only a mission file of the slot is gone, and it was a file or an empty folder. */
  lemma KmzGone(before: Objects, wd: nat, guid: string, slot: Option<Entry>, done: bool, script: nat -> bool, m: nat,
                next: nat, ok: bool, gone: set<nat>)
    requires Tree(before) && Looked(before, wd, guid, slot, done)
    requires Dropped(before, Named(before, IdOf(slot), KmzName(guid)), script, m, next, ok, gone)
    ensures gone <= KmzFiles(before, wd, guid) && |gone| <= 1 && m < next
    ensures slot.Some? ==> gone <= Named(before, slot.value.id, KmzName(guid))
    ensures forall k :: k in gone ==> before[k].kind == File || EmptyFolder(before, k)
    ensures Changed(before, gone, map[], before - gone)
    ensures KmzFiles(before - gone, wd, guid) <= KmzFiles(before, wd, guid)
    ensures slot.None? ==> gone == {} && before - gone == before
    ensures !ok ==> gone == {}
    ensures Slots(before, wd, guid) == {} ==> slot.None?
  {
    hide Slots, KmzFiles, Changed, Dropped, Tree, EqualFold;
    DroppedFacts(before, Named(before, IdOf(slot), KmzName(guid)), script, m, next, ok, gone);
    if slot.Some? {
      KmzDropped(before, wd, guid, slot.value.id, gone);
    } else {
      NothingDroppedAtTop(before, KmzName(guid), script, m, next, ok, gone);
      NothingWritten(before, wd, guid, []);
      assert before - gone == before;
    }
  }

  /** With one slot and one mission file at most, it is clear what is gone. */
  lemma KmzGoneOne(before: Objects, wd: nat, guid: string, slot: Option<Entry>, done: bool, script: nat -> bool, m: nat,
                   next: nat, ok: bool, gone: set<nat>)
    requires Looked(before, wd, guid, slot, done)
    requires Dropped(before, Named(before, IdOf(slot), KmzName(guid)), script, m, next, ok, gone)
    ensures OneKmz(before, wd, guid) && slot.Some? ==>
              && gone == (if script(m) && script(m + 1) then DeletableKmz(before, wd, guid) else {})
              && (ok ==> OldKmzLost(before, wd, guid, gone, script, m, next + 1))
              && (ok <==> (script(m) && KmzFiles(before, wd, guid) != {} ==> gone == KmzFiles(before, wd, guid)))
  {
    hide KmzFiles, Dropped, Deletable, EqualFold;
    if OneKmz(before, wd, guid) && slot.Some? {
      OneSlot(before, wd, guid, slot.value.id);
      DroppedOne(before, KmzFiles(before, wd, guid), script, m, next, ok, gone);
      DroppedFacts(before, KmzFiles(before, wd, guid), script, m, next, ok, gone);
    }
  }

  lemma SucceedThree(script: nat -> bool, n: nat)
    ensures AllSucceed(script, n, n + 3) <==> script(n) && script(n + 1) && script(n + 2)
  {
  }

  /** In a slot that can be written, dropping the mission file fails only when its request does. */
  lemma WritableSlot(before: Objects, wd: nat, guid: string, slot: Option<Entry>, done: bool, script: nat -> bool,
                     m: nat, next: nat, ok: bool, gone: set<nat>)
    requires Tree(before) && Looked(before, wd, guid, slot, done)
    requires Dropped(before, Named(before, IdOf(slot), KmzName(guid)), script, m, next, ok, gone)
    ensures Writable(before, wd, guid) ==>
              && (slot.Some? <==> done)
              && (slot.Some? ==>
                    && slot.value.kind != File && slot.value.id in before && before[slot.value.id].kind != File
                    && slot.value.id !in gone
                    && var looks := KmzFiles(before, wd, guid) != {} && script(m);
                       (ok <==> (looks ==> script(m + 1))) && next == if looks then m + 2 else m + 1)
  {
    hide KmzFiles, Dropped, EqualFold, KmzName;
    if Writable(before, wd, guid) && slot.Some? {
      OneSlot(before, wd, guid, slot.value.id);
      var files := KmzFiles(before, wd, guid);
      DroppedFacts(before, files, script, m, next, ok, gone);
      DroppedFiles(before, files, script, m, next, ok, gone);
      NamesDiffer(guid, before[slot.value.id].name);
    }
  }

  lemma DroppedFiles(objects: Objects, files: set<nat>, script: nat -> bool, n: nat, next: nat, ok: bool,
                     gone: set<nat>)
    requires Dropped(objects, files, script, n, next, ok, gone) && forall k :: k in files ==> Deletable(objects, k)
    ensures ok <==> (files != {} && script(n) ==> script(n + 1))
    ensures next == if files != {} && script(n) then n + 2 else n + 1
  {
    hide Deletable;
  }

  // ---- The outcome of a reset -------------------------------------------------------------

  /**
   Looking for the old mission file with request n and reading it with the next: where the placeholder
   starts, given that `files` are the children of that name.
   */
  ghost predicate OriginUsed(objects: Objects, files: set<nat>, script: nat -> bool, n: nat, next: nat,
                             origin: Bytes -> Option<(real, real)>, at: (real, real)) {
    if script(n) && files != {} then
      && next == n + 2
      && exists k :: k in files && k in objects && at == StartOf(objects[k], script(n + 1), origin)
    else next == n + 1 && at == (0.0, 0.0)
  }

  function StartOf(o: Object, read: bool, origin: Bytes -> Option<(real, real)>): (real, real) {
    if read && o.kind == File && origin(o.bytes).Some? then origin(o.bytes).value else (0.0, 0.0)
  }

  /**
   For a slot looked up with request n: the placeholder starts where the old mission did if both requests
   that read it were carried out and it says where, and at the zero point otherwise.
   */
  ghost predicate Placed(before: Objects, wd: nat, guid: string, script: nat -> bool, n: nat, lookup: nat,
                         origin: Bytes -> Option<(real, real)>, at: (real, real)) {
    var files := KmzFiles(before, wd, guid);
    var start := OldOrigin(before, files, origin);
    && lookup == (if files != {} && script(n + 1) then n + 3 else n + 2)
    && at == if script(n + 1) && script(n + 2) && start.Some? then start.value else (0.0, 0.0)
  }

  /** The slot is there, without ambiguity, and its lookup is carried out. */
  ghost predicate FindsOne(before: Objects, wd: nat, guid: string, done: bool) {
    done && OneKmz(before, wd, guid) && Named(before, wd, guid) != {}
  }

  lemma PlacedAt(before: Objects, wd: nat, guid: string, slot: Entry, script: nat -> bool, n: nat, lookup: nat,
                 origin: Bytes -> Option<(real, real)>, at: (real, real))
    requires OneKmz(before, wd, guid) && slot.id in Slots(before, wd, guid)
    requires OriginUsed(before, Named(before, slot.id, KmzName(guid)), script, n + 1, lookup, origin, at)
    ensures Placed(before, wd, guid, script, n, lookup, origin, at)
  {
    hide EqualFold, KmzName;
    OneSlot(before, wd, guid, slot.id);
    var files := KmzFiles(before, wd, guid);
    if k :| k in files {
      Singleton(files, k);
    }
  }

  /** What a clean-up with requests from n to `end` removes, the preview's from `drop` on. */
  ghost predicate Cleaned(mid: Objects, slot: nat, previewDir: Option<Entry>, guid: string, script: nat -> bool,
                          n: nat, drop: nat, end: nat, wiped: set<nat>, dropped: set<nat>) {
    var folders := Named(mid, slot, "image");
    var files := FilesUnder(mid, folders);
    var previews := PreviewFiles(mid - wiped, previewDir, guid);
    && n <= drop <= end && wiped <= files && dropped <= previews
    && (|folders| <= 1 ==> (wiped == files <==> files == {} || AllSucceed(script, n, drop)))
    && (forall k :: k in dropped ==> Deletable(mid - wiped, k))
    && (OnePreview(mid - wiped, previewDir, guid) ==>
          dropped == if AllSucceed(script, drop, end) then DeletablePreviews(mid - wiped, previewDir, guid) else {})
  }

  /** What a reset changes, whether or not its names are unambiguous. */
  lemma ResetChanges(s: Swap, previewDir: Option<Entry>, script: nat -> bool, n: nat, drop: nat, end: nat,
                     wiped: set<nat>, dropped: set<nat>)
    requires s.Valid() && forall k :: k in s.gone ==> s.before[k].kind == File || EmptyFolder(s.before, k)
    requires Cleaned(s.After(), s.slot, previewDir, s.guid, script, n, drop, end, wiped, dropped)
    ensures var gone := s.gone + wiped + dropped;
            && Changed(s.before, gone, s.Made(), s.After() - wiped - dropped)
            && gone <= SlotFiles(s.before, s.waypointDir, previewDir, s.guid)
            && MakesKmz(s.before, s.waypointDir, s.guid, s.data, s.Made()) && s.Made() != map[]
            && (|s.guid| == 36 ==> forall k :: k in gone ==> s.before[k].kind == File || EmptyFolder(s.before, k))
    ensures wiped <= ImageFiles(s.before, s.waypointDir, s.guid)
    ensures dropped <= PreviewFiles(s.before, previewDir, s.guid)
  {
    hide KmzFiles, Changed, MakesKmz, PreviewFiles, Swap.Valid, SlotFiles, AllSucceed, OnePreview, Deletable;
    hide EmptyFolder;
    KmzPut(s);
    CleanedUp(s, previewDir, wiped, dropped);
    ContentIsThere(s.before, s.waypointDir, previewDir, s.guid);
    if |s.guid| == 36 {
      forall k | k in s.gone + wiped + dropped
        ensures k in s.before && (s.before[k].kind == File || EmptyFolder(s.before, k))
      {
        if k in dropped {
          StillEmpty(s, previewDir, wiped, k);
          DeletableIsNoStorage(s.before, k);
        } else if k in wiped {
          ImagesAreFiles(s.before, s.waypointDir, s.guid, k);
        }
      }
    }
  }

  lemma DeletableIsNoStorage(objects: Objects, k: nat)
    requires Deletable(objects, k)
    ensures objects[k].kind == File || EmptyFolder(objects, k)
  {
  }

  lemma ImagesAreFiles(objects: Objects, waypointDir: nat, guid: string, k: nat)
    requires k in ImageFiles(objects, waypointDir, guid)
    ensures k in objects && objects[k].kind == File
  {
  }

  /** With one preview at most, it goes exactly when it can and every request that concerns it is carried out. */
  lemma PreviewDropped(before: Objects, previewDir: Option<Entry>, guid: string, sub: nat, script: nat -> bool,
                       n: nat, next: nat, ok: bool, gone: set<nat>)
    requires Tree(before) && previewDir.Some? && sub in Named(before, previewDir.value.id, guid) && script(n)
    requires Dropped(before, Named(before, sub, JpgName(guid)), script, n + 1, next, ok, gone)
    ensures var previews := PreviewFiles(before, previewDir, guid);
            && n < next && gone <= previews && (forall k :: k in gone ==> Deletable(before, k))
            && (OnePreview(before, previewDir, guid) ==>
                  gone == if AllSucceed(script, n, next) then DeletablePreviews(before, previewDir, guid) else {})
  {
    hide Dropped, EqualFold, AllSucceed, Tree, Deletable;
    DroppedFacts(before, Named(before, sub, JpgName(guid)), script, n + 1, next, ok, gone);
    if OnePreview(before, previewDir, guid) {
      Singleton(Named(before, previewDir.value.id, guid), sub);
      var previews := PreviewFiles(before, previewDir, guid);
      assert previews == Named(before, sub, JpgName(guid));
      DroppedOne(before, previews, script, n + 1, next, ok, gone);
      SucceedHalves(script, n, n + 1, next);
      SucceedOne(script, n);
      SucceedOne(script, n + 1);
      SucceedOne(script, n + 2);
      if next == n + 3 {
        SucceedHalves(script, n + 1, n + 2, n + 3);
      }
    }
  }

  lemma KmzAreContent(before: Objects, wd: nat, previewDir: Option<Entry>, guid: string)
    ensures KmzFiles(before, wd, guid) <= SlotFiles(before, wd, previewDir, guid)
  {
  }

  lemma UnambiguousKmz(before: Objects, wd: nat, previewDir: Option<Entry>, guid: string)
    requires Unambiguous(before, wd, previewDir, guid)
    ensures OneKmz(before, wd, guid)
  {
  }

  /** With one slot and one old mission file at most, the mission files after a reset. */
  lemma ResetKmz(s: Swap, previewDir: Option<Entry>, script: nat -> bool, lookup: nat, n: nat, wiped: set<nat>,
                 dropped: set<nat>)
    requires s.Valid() && OneKmz(s.before, s.waypointDir, s.guid)
    requires wiped <= ImageFiles(s.before, s.waypointDir, s.guid)
    requires dropped <= PreviewFiles(s.before, previewDir, s.guid)
    requires OldKmzLost(s.before, s.waypointDir, s.guid, s.gone, script, lookup, n)
    ensures var kmz := KmzFiles(s.before, s.waypointDir, s.guid);
            var left := KmzFiles(s.After() - wiped - dropped, s.waypointDir, s.guid);
            && (left == s.Made().Keys <==> kmz == {} || script(lookup))
            && left == s.Made().Keys + if script(lookup) then {} else kmz
  {
    hide KmzFiles, ImageFiles, PreviewFiles, Swap.Valid, Swap.After;
    KmzAfterCleanUp(s, previewDir, wiped, dropped);
    OnlyKmz(s);
    KmzLeft(s, script, lookup, n);
  }

  /** In a slot without ambiguity, what is left of its old content after a reset. */
  lemma ResetContent(s: Swap, previewDir: Option<Entry>, script: nat -> bool, lookup: nat, n: nat, drop: nat,
                     end: nat, wiped: set<nat>, dropped: set<nat>)
    requires s.Valid() && Unambiguous(s.before, s.waypointDir, previewDir, s.guid)
    requires Cleaned(s.After(), s.slot, previewDir, s.guid, script, n, drop, end, wiped, dropped)
    requires wiped <= ImageFiles(s.before, s.waypointDir, s.guid)
    requires dropped <= PreviewFiles(s.before, previewDir, s.guid)
    requires OldKmzLost(s.before, s.waypointDir, s.guid, s.gone, script, lookup, n)
    ensures var wd, guid, after := s.waypointDir, s.guid, s.After() - wiped - dropped;
            var kmz, images := KmzFiles(s.before, wd, guid), ImageFiles(s.before, wd, guid);
            var previews := PreviewFiles(s.before, previewDir, guid);
            && (ImageFiles(after, wd, guid) == {} <==> images == {} || AllSucceed(script, n, drop))
            && dropped == (if AllSucceed(script, drop, end) then DeletablePreviews(s.before, previewDir, guid) else {})
            && PreviewFiles(after, previewDir, guid) == previews - dropped
            && (s.gone + wiped + dropped == SlotFiles(s.before, wd, previewDir, guid)
                <==> && (kmz == {} || script(lookup))
                     && ImageFiles(after, wd, guid) == {} && PreviewFiles(after, previewDir, guid) == {})
  {
    hide KmzFiles, ImageFiles, PreviewFiles, Slots, Swap.Valid, SlotFiles, AllSucceed, ImageFolders, Named, FilesUnder;
    hide Deletable, Swap.After, OnePreview, DeletablePreviews;
    ImagesStay(s);
    PreviewsStay(s, previewDir, wiped);
    PreviewsStayDeletable(s, previewDir, wiped);
    PreviewStillOne(s, previewDir, wiped);
    ContentAfter(s, previewDir, wiped, dropped);
    AllGone(s, previewDir, wiped, dropped);
    LeftOver(ImageFiles(s.before, s.waypointDir, s.guid), wiped);
    LeftOver(PreviewFiles(s.before, previewDir, s.guid), dropped);
  }

  /** The mission files after a swap, by whether the lookup before the delete worked. */
  lemma KmzLeft(s: Swap, script: nat -> bool, lookup: nat, end: nat)
    requires s.Valid() && OldKmzLost(s.before, s.waypointDir, s.guid, s.gone, script, lookup, end)
    ensures KmzFiles(s.After(), s.waypointDir, s.guid)
              == s.Made().Keys + if script(lookup) then {} else KmzFiles(s.before, s.waypointDir, s.guid)
  {
    hide KmzFiles, Swap.Valid, Swap.After;
    KmzPut(s);
    var kmz := KmzFiles(s.before, s.waypointDir, s.guid);
    assert script(lookup) ==> kmz - s.gone == {};
    assert !script(lookup) && kmz != {} ==> kmz - s.gone == kmz;
  }

  lemma LeftOver(all: set<nat>, out: set<nat>)
    requires out <= all
    ensures all - out == {} <==> out == all
  {
    if all - out == {} {
      assert forall k :: k in all ==> k !in all - out;
    }
  }

  lemma FileIsDeletable(objects: Objects, id: nat)
    requires Tree(objects) && id in objects && objects[id].kind == File
    ensures Deletable(objects, id)
  {
  }

  /** With requests n up to m, the files of `gone` were wiped out of those picked so far. */
  ghost predicate WipedTo(objects: Objects, before: Objects, gone: set<nat>, picked: set<nat>, script: nat -> bool,
                          n: nat, m: nat) {
    && objects == before - gone && gone <= picked && m == n + |picked|
    && (AllSucceed(script, n, m) <==> gone == picked)
  }

  lemma NothingWiped(before: Objects, script: nat -> bool, n: nat, pick: Pick)
    ensures WipedTo(before, before, {}, {}, script, n, n) && Picked([], pick) == {}
  {
    assert before - {} == before;
  }

  lemma WipedFacts(objects: Objects, before: Objects, gone: set<nat>, picked: set<nat>, script: nat -> bool,
                   n: nat, m: nat)
    requires WipedTo(objects, before, gone, picked, script, n, m)
    ensures objects == before - gone && gone <= picked && m == n + |picked|
    ensures AllSucceed(script, n, m) <==> gone == picked
  {
  }

  /** One more file to wipe: it can be deleted, and whether it is or not is accounted for. */
  lemma OneMoreWiped(objects: Objects, before: Objects, gone: set<nat>, picked: set<nat>, script: nat -> bool,
                     n: nat, m: nat, e: Entry)
    requires WipedTo(objects, before, gone, picked, script, n, m)
    requires Tree(objects) && Shows(before, e) && e.kind == File && e.id !in picked
    ensures Deletable(objects, e.id)
    ensures script(m) ==> WipedTo(objects - {e.id}, before, gone + {e.id}, picked + {e.id}, script, n, m + 1)
    ensures !script(m) ==> WipedTo(objects, before, gone, picked + {e.id}, script, n, m + 1)
  {
    hide Tree, Deletable, AllSucceed;
    FileIsDeletable(objects, e.id);
    SucceedHalves(script, n, m, m + 1);
    SucceedOne(script, m);
    OneMoreOfBoth(gone, picked, e.id);
    assert (before - gone) - {e.id} == before - (gone + {e.id});
  }

  lemma OneMoreOfBoth(gone: set<nat>, picked: set<nat>, id: nat)
    requires gone <= picked && id !in picked
    ensures gone + {id} <= picked + {id} && gone != picked + {id}
    ensures gone + {id} == picked + {id} <==> gone == picked
  {
    if gone + {id} == picked + {id} {
      assert forall k :: k in picked ==> k in gone + {id};
    }
  }

  lemma ValidIsTree(dev: Device)
    requires dev.Valid()
    ensures Tree(dev.objects)
  {
  }

  lemma NothingListed(objects: Objects)
    ensures Listed(objects, [])
  {
  }

  lemma NothingPicked(pick: Pick)
    ensures Picked([], pick) == {}
  {
  }

  lemma NothingAdded(objects: Objects, folder: nat, images: seq<Image>, index: Bytes)
    ensures objects - {} == objects && AddImages(objects - {}, folder, images, index, []) == objects
    ensures Numbered(objects, []) && {} <= OurImages(objects, folder)
  {
  }

  /** Two lookups that found something, then the rest. */
  lemma SucceedFrom(script: nat -> bool, n: nat, m: nat, end: nat)
    requires n + 2 <= m <= end && script(n) && script(n + 1) && AllSucceed(script, m, end)
    ensures AllSucceed(script, n, end) <==> AllSucceed(script, n + 2, m)
  {
  }

  lemma KmzSwapped(s: Swap)
    requires s.Valid()
    ensures Changed(s.before, s.gone, s.Made(), s.After())
    ensures MakesKmz(s.before, s.waypointDir, s.guid, s.data, s.Made()) && s.Made() != map[]
    ensures OneKmz(s.before, s.waypointDir, s.guid) ==>
              (KmzFiles(s.After(), s.waypointDir, s.guid) == s.Made().Keys <==>
                 KmzFiles(s.before, s.waypointDir, s.guid) == {} || s.gone != {})
  {
    hide KmzFiles, Changed, MakesKmz, Swap.Valid;
    KmzPut(s);
    if |KmzFiles(s.before, s.waypointDir, s.guid)| <= 1 {
      OnlyKmz(s);
    }
  }
}
