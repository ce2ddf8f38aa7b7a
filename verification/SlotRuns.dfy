/**
 Runs of the slot writes on a small device, for every GUID: a request or two is not carried out, the write
 reports success, and the slot is not what was written. All other requests are carried out.
 */
module SlotRuns {
  import opened Wrappers
  import opened Text
  import opened ObjectStore
  import opened SlotContent
  import opened SlotWriter

  const WAYPOINT_DIR := Entry(2, "waypoint", Folder)
  /** No request fails. */
  const NONE := -1
  const PREVIEW_DIR := Entry(7, "map_preview", Folder)

  /** A slot with a mission file and a preview, or folders of these names, and one old waypoint image. */
  function Store(guid: string, kmz: Kind, preview: Kind): Objects {
    map[1 := Object(TOP, "Internal shared storage", Storage, []),
        2 := Object(1, "waypoint", Folder, []),
        3 := Object(2, guid, Folder, []),
        4 := Object(3, guid + ".kmz", kmz, []),
        5 := Object(3, "image", Folder, []),
        6 := Object(5, "WP_1.JPG", File, []),
        7 := Object(1, "map_preview", Folder, []),
        8 := Object(7, guid, Folder, []),
        9 := Object(8, guid + ".jpg", preview, [])]
  }

  lemma StoreNames(guid: string)
    requires |guid| == 36
    ensures EqualFold(guid, guid) && EqualFold(KmzName(guid), KmzName(guid)) && EqualFold("image", "image")
    ensures EqualFold(JpgName(guid), JpgName(guid))
    ensures KmzName(guid) == guid + ".kmz" && JpgName(guid) == guid + ".jpg"
    ensures !EqualFold("image", KmzName(guid)) && !EqualFold(KmzName(guid), "image")
  {
    FoldedLength("image", KmzName(guid));
    FoldedLength(KmzName(guid), "image");
  }

  lemma StoreKmz(guid: string, kmz: Kind, preview: Kind)
    requires |guid| == 36
    ensures Slots(Store(guid, kmz, preview), 2, guid) == {3} && KmzFiles(Store(guid, kmz, preview), 2, guid) == {4}
    ensures ImageFolders(Store(guid, kmz, preview), 2, guid) == {5}
  {
    hide EqualFold, KmzName, JpgName;
    StoreNames(guid);
    assert Slots(Store(guid, kmz, preview), 2, guid) == {3};
  }

  lemma StoreImages(guid: string, kmz: Kind, preview: Kind)
    requires |guid| == 36
    ensures ImageFiles(Store(guid, kmz, preview), 2, guid) == {6} == OurImages(Store(guid, kmz, preview), 5)
  {
    hide EqualFold, KmzName, JpgName, ImageFolders, IsOurs;
    StoreKmz(guid, kmz, preview);
    OldImage();
  }

  lemma OldImage()
    ensures IsOurs("WP_1.JPG")
  {
    var up := Upper("WP_1.JPG");
    assert up[..3] == "WP_" && up[|up| - 4..] == ".JPG";
  }

  lemma StorePreview(guid: string, kmz: Kind, preview: Kind)
    requires |guid| == 36
    ensures Named(Store(guid, kmz, preview), 7, guid) == {8}
    ensures PreviewFiles(Store(guid, kmz, preview), Some(PREVIEW_DIR), guid) == {9}
  {
    hide EqualFold, KmzName, JpgName;
    StoreNames(guid);
    assert Named(Store(guid, kmz, preview), 7, guid) == {8};
  }

  lemma StoreNumbers(guid: string, kmz: Kind, preview: Kind)
    ensures forall id :: id in Store(guid, kmz, preview) ==> TOP < id < 10 && Store(guid, kmz, preview)[id].parent < 10
  {
    hide KmzName, JpgName;
  }

  lemma StoreTree(guid: string, kmz: Kind, preview: Kind)
    requires kmz != Storage && preview != Storage
    ensures Tree(Store(guid, kmz, preview))
  {
    hide KmzName, JpgName;
    var store := Store(guid, kmz, preview);
    assert forall id :: id in store ==> store[id].parent in {TOP, 1, 2, 3, 5, 7, 8};
    assert forall id :: id in store && store[id].parent == TOP ==> id == 1;
  }

  lemma StoreIsUnambiguous(guid: string, kmz: Kind, preview: Kind)
    requires |guid| == 36
    ensures Unambiguous(Store(guid, kmz, preview), 2, Some(PREVIEW_DIR), guid)
    ensures OneImageFolder(Store(guid, kmz, preview), 2, guid)
  {
    hide KmzFiles, Slots, ImageFolders, PreviewFiles, Named, KmzName, JpgName;
    StoreKmz(guid, kmz, preview);
    StorePreview(guid, kmz, preview);
  }

  lemma StoreIsWritable(guid: string, kmz: Kind, preview: Kind)
    requires |guid| == 36 && kmz != Storage
    ensures OneKmz(Store(guid, kmz, preview), 2, guid) && Writable(Store(guid, kmz, preview), 2, guid)
    ensures 4 in DeletableKmz(Store(guid, kmz, preview), 2, guid) && Store(guid, kmz, preview)[4].kind == kmz
  {
    hide KmzFiles, Slots, KmzName, JpgName;
    StoreKmz(guid, kmz, preview);
    assert forall id :: id in Store(guid, kmz, preview) ==> Store(guid, kmz, preview)[id].parent != 4;
  }

  /** A device with that store, on which request number `fails`, if any, is the only one not carried out. */
  method Start(guid: string, kmz: Kind, preview: Kind, fails: int, silently: bool) returns (w: SlotWriter)
    requires kmz != Storage && preview != Storage
    ensures fresh(w) && fresh(w.dev) && w.dev.Valid()
    ensures w.dev.objects == Store(guid, kmz, preview) && w.dev.requests == 0
    ensures forall n: nat :: w.dev.script(n) <==> n != fails
    ensures fails >= 0 ==> w.dev.silent(fails) == silently
    ensures w.located && w.waypointDir == Some(WAYPOINT_DIR) && w.previewDir == Some(PREVIEW_DIR)
  {
    StoreTree(guid, kmz, preview);
    StoreNumbers(guid, kmz, preview);
    var dev := new Device(Store(guid, kmz, preview), 10, n => n != fails, n => silently);
    w := new SlotWriter(dev, true, Some(WAYPOINT_DIR), Some(PREVIEW_DIR));
  }

  /** The lookup before the delete fails, with or without an error: a successful write leaves two mission files. */
  method WriteKeepsOldMission(guid: string, silently: bool) returns (after: Objects)
    requires |guid| == 36
    ensures |KmzFiles(after, 2, guid)| == 2 && 4 in KmzFiles(after, 2, guid)
  {
    hide Slots, KmzFiles, Named, Writable, Tree, MakesKmz, Changed, Store, AllSucceed, Unambiguous, OneImageFolder;
    hide DeletableKmz;
    StoreIsWritable(guid, File, File);
    var w := Start(guid, File, File, 1, silently);
    ghost var gone, made;
    var r;
    r, gone, made := w.WriteKmz(guid, Some([]));
    after := w.dev.objects;
    ChangedApart(Store(guid, File, File), gone, made, after);
    TwoMissions(guid, [], made, KmzFiles(after, 2, guid));
  }

  lemma TwoMissions(guid: string, data: Bytes, made: Objects, files: set<nat>)
    requires |guid| == 36 && MakesKmz(Store(guid, File, File), 2, guid, data, made) && made != map[]
    requires Store(guid, File, File).Keys !! made.Keys
    requires files == made.Keys + KmzFiles(Store(guid, File, File), 2, guid)
    ensures |files| == 2 && 4 in files
  {
    hide Slots, KmzFiles, KmzName, JpgName;
    StoreKmz(guid, File, File);
    var id, slot :| slot in Slots(Store(guid, File, File), 2, guid) && made == map[id := KmzObject(slot, guid, data)];
    assert made.Keys == {id};
    assert files == {id} + {4} && id != 4;
  }

  /** The same lookup fails in a reset: it reports success, and the placeholder joins the old mission. */
  method ResetKeepsOldMission(guid: string, silently: bool) returns (ok: bool, after: Objects)
    requires |guid| == 36
    ensures ok && |KmzFiles(after, 2, guid)| == 2 && 4 in KmzFiles(after, 2, guid)
  {
    hide Slots, KmzFiles, Named, Writable, Tree, MakesKmz, Changed, Store, AllSucceed, Unambiguous, OneImageFolder;
    hide ImageFiles, PreviewFiles, SlotFiles, Deletable, Placed, EmptyFolder, OneKmz, DeletableKmz, FindsOne;
    StoreIsUnambiguous(guid, File, File);
    StoreIsWritable(guid, File, File);
    StoreIsFound(guid, File, File);
    var w := Start(guid, File, File, 3, silently);
    ghost var script := w.dev.script;
    ghost var gone, made, data, at, lookup, wipe, drop;
    var r;
    r, gone, made, data, at, lookup, wipe, drop := w.ClearSlot(guid, NoOrigin, EmptyPlaceholder);
    LookupNumber(guid, File, script, lookup, NoOrigin, at);
    ok, after := r.Ok?, w.dev.objects;
    ChangedApart(Store(guid, File, File), gone, made, after);
    TwoMissions(guid, data, made, KmzFiles(after, 2, guid));
  }

  /** The lookup of the image folder fails in a reset: it reports success, and the old images stay. */
  method ResetKeepsImages(guid: string, silently: bool) returns (ok: bool, after: Objects)
    requires |guid| == 36
    ensures ok && ImageFiles(after, 2, guid) != {}
  {
    hide Slots, KmzFiles, Named, Writable, Tree, MakesKmz, Changed, Store, AllSucceed, Unambiguous, OneImageFolder;
    hide ImageFiles, PreviewFiles, SlotFiles, Deletable, Placed, EmptyFolder, OneKmz, DeletableKmz, FindsOne;
    StoreIsUnambiguous(guid, File, File);
    StoreIsWritable(guid, File, File);
    StoreIsFound(guid, File, File);
    StoreKmz(guid, File, File);
    StoreImages(guid, File, File);
    var w := Start(guid, File, File, 6, silently);
    ghost var script := w.dev.script;
    ghost var gone, made, data, at, lookup, wipe, drop;
    var r;
    r, gone, made, data, at, lookup, wipe, drop := w.ClearSlot(guid, NoOrigin, EmptyPlaceholder);
    LookupNumber(guid, File, script, lookup, NoOrigin, at);
    ok, after := r.Ok?, w.dev.objects;
    NotAllFrom(script, wipe, wipe, drop);
  }

  function NoOrigin(bytes: Bytes): Option<(real, real)> {
    None
  }

  function EmptyPlaceholder(lat: real, lng: real): Option<Bytes> {
    Some([])
  }

  lemma StoreIsFound(guid: string, kmz: Kind, preview: Kind)
    requires |guid| == 36
    ensures FindsOne(Store(guid, kmz, preview), 2, guid, true)
  {
    hide KmzFiles, Slots, Store;
    StoreKmz(guid, kmz, preview);
    NamedSlots(Store(guid, kmz, preview), 2, guid);
  }

  lemma LookupNumber(guid: string, preview: Kind, script: nat -> bool, lookup: nat,
                     origin: Bytes -> Option<(real, real)>, at: (real, real))
    requires |guid| == 36 && script(1)
    requires Placed(Store(guid, File, preview), 2, guid, script, 0, lookup, origin, at)
    ensures lookup == 3
  {
    hide KmzFiles, Store;
    StoreKmz(guid, File, preview);
  }

  lemma ChangedApart(before: Objects, gone: set<nat>, made: Objects, after: Objects)
    requires Changed(before, gone, made, after)
    ensures before.Keys !! made.Keys
  {
  }

  /** One deletion fails: new waypoint images are reported as written, and an old one is still there. */
  method OldImageStays(guid: string, images: seq<Image>) returns (ok: bool, after: Objects)
    requires |guid| == 36
    ensures ok && 6 in after
  {
    hide Slots, KmzFiles, Named, Writable, Tree, Store, AllSucceed, Unambiguous, OneImageFolder, ImageFiles, OurImages;
    hide ImageFolders, AddImages, Numbered;
    StoreIsUnambiguous(guid, File, File);
    StoreKmz(guid, File, File);
    StoreImages(guid, File, File);
    var w := Start(guid, File, File, 3, false);
    ghost var script, n := w.dev.script, |images|;
    ghost var folder, gone, ids, puts;
    var r;
    r, folder, gone, ids, puts := w.WriteWaypointImages(guid, images, added => []);
    ok, after := r.Ok?, w.dev.objects;
    assert folder == 5 && |OurImages(Store(guid, File, File), folder)| == 1;
    AllAfter(script, 3, puts, puts + n + 1);
    NotAllFrom(script, 0, 3, w.dev.requests);
    OldImageLeft(guid, gone, images, ids);
  }

  lemma NotAllFrom(script: nat -> bool, from: nat, fails: nat, to: nat)
    requires from <= fails < to && !script(fails)
    ensures !AllSucceed(script, from, to)
  {
  }

  lemma AllAfter(script: nat -> bool, fails: nat, from: nat, to: nat)
    requires fails < from && forall n: nat :: script(n) <==> n != fails
    ensures AllSucceed(script, from, to)
  {
  }

  lemma OldImageLeft(guid: string, gone: set<nat>, images: seq<Image>, ids: seq<nat>)
    requires |guid| == 36 && gone < OurImages(Store(guid, File, File), 5)
    requires |ids| <= |images| + 1 && Numbered(Store(guid, File, File), ids)
    ensures 6 in AddImages(Store(guid, File, File) - gone, 5, images, [], ids)
  {
    hide OurImages, AddImages;
    StoreImages(guid, File, File);
    assert gone == {};
    assert Store(guid, File, File) - gone == Store(guid, File, File);
    AddImagesAdds(Store(guid, File, File), 5, images, [], ids);
  }

  /**
   What was written is what is read back: after a successful write to a slot that had one mission file at most,
   if the lookup before the delete worked or there was none, and the three requests of the read are carried out.
   */
  method WriteThenRead(w: SlotWriter, guid: string, data: Bytes)
    returns (written: bool, read: Option<Bytes>, ghost n: nat)
    requires w.dev.Valid() && OneKmz(w.dev.objects, IdOf(w.waypointDir), guid)
    modifies w.dev
    ensures written && AllSucceed(w.dev.script, n, n + 3)
            && (KmzFiles(old(w.dev.objects), IdOf(w.waypointDir), guid) == {} || w.dev.script(old(w.dev.requests) + 1))
            ==> read == Some(data)
  {
    hide KmzFiles, OneKmz, AllSucceed, Changed, MakesKmz, Tree, Slots, Writable, HasFile, DeletableKmz;
    ghost var before, wd := w.dev.objects, IdOf(w.waypointDir);
    read, n := None, 0;
    ghost var gone, made;
    var r;
    r, gone, made := w.WriteKmz(guid, Some(data));
    written := r.Ok?;
    if !written {
      return;
    }
    n := w.dev.requests;
    ghost var after := w.dev.objects;
    if KmzFiles(after, wd, guid) == made.Keys {
      NewMission(before, wd, guid, data, gone, made, after);
    }
    var bytes := w.ReadKmz(guid);
    read := if bytes.Ok? then Some(bytes.value) else None;
  }

  lemma NewMission(before: Objects, wd: nat, guid: string, data: Bytes, gone: set<nat>, made: Objects, after: Objects)
    requires OneKmz(before, wd, guid) && Changed(before, gone, made, after) && gone <= KmzFiles(before, wd, guid)
    requires MakesKmz(before, wd, guid, data, made) && made != map[] && KmzFiles(after, wd, guid) == made.Keys
    ensures OneKmz(after, wd, guid) && HasFile(after, KmzFiles(after, wd, guid))
    ensures forall k :: k in KmzFiles(after, wd, guid) ==> k in after && after[k].bytes == data
  {
    hide KmzFiles, Slots;
    KmzFilesAfter(before, wd, guid, data, gone, made, after);
    var id, slot :| slot in Slots(before, wd, guid) && made == map[id := KmzObject(slot, guid, data)];
    assert id in made && made.Keys == {id};
  }

  /**
   Two writes of images to a slot with one image folder: when both succeed and every request of the second is
   carried out, nothing the first one added is left, and of the files named like waypoint images there are
   just those of the second.
   */
  method SecondWriteClears(w: SlotWriter, guid: string, first: seq<Image>, second: seq<Image>,
                           index: seq<Image> -> Bytes)
    returns (ok: bool, ghost folder: nat, ghost old': seq<nat>, ghost new': seq<nat>, ghost n: nat)
    requires w.dev.Valid() && OneImageFolder(w.dev.objects, IdOf(w.waypointDir), guid) && !IsOurs(guid)
    requires forall k :: 0 <= k < |first| ==> ImageName(first[k].name)
    requires forall k :: 0 <= k < |second| ==> ImageName(second[k].name)
    modifies w.dev
    ensures ok ==> |old'| == |first| + 1 && |new'| == |second| + 1 && n <= w.dev.requests
    ensures ok && AllSucceed(w.dev.script, n, w.dev.requests) ==>
              && OurImages(w.dev.objects, folder) == Members(new')
              && Members(new') !! Members(old') && w.dev.objects.Keys !! Members(old')
    ensures forall id :: id in old(w.dev.objects) && !(id in OurImages(old(w.dev.objects), folder)) ==>
              id in w.dev.objects && w.dev.objects[id] == old(w.dev.objects)[id]
  {
    hide OneImageFolder, IsOurs, ImageName, AllSucceed, OurImages, AddImages, ImageFolders, Numbered, Members, Tree;
    ghost var before, wd := w.dev.objects, IdOf(w.waypointDir);
    ok, old', new', n := false, [], [], 0;
    ghost var gone, puts;
    var r;
    r, folder, gone, old', puts := w.WriteWaypointImages(guid, first, index);
    WriteKeepsOthers(before, folder, gone, first, index(first), old', w.dev.objects);
    if r.Err? {
      return;
    }
    ghost var mid := w.dev.objects;
    n := w.dev.requests;
    AfterFirst(before, wd, guid, folder, gone, first, index(first), old', mid);
    ghost var folder', gone';
    r, folder', gone', new', puts := w.WriteWaypointImages(guid, second, index);
    OneFolder(mid, wd, guid, folder, folder', gone', new');
    AddNone(mid - gone', folder, second, index(second));
    AddNone(mid - gone', folder', second, index(second));
    WriteKeepsOthers(mid, folder, gone', second, index(second), new', w.dev.objects);
    StillOurs(before, mid, folder);
    if r.Err? {
      return;
    }
    ok := true;
    if AllSucceed(w.dev.script, n, w.dev.requests) {
      AfterSecond(mid, folder, gone', second, index(second), old', new', w.dev.objects);
    }
  }

  /** Whatever a write of images did, files that are not named like these are as they were. */
  lemma WriteKeepsOthers(before: Objects, folder: nat, gone: set<nat>, images: seq<Image>, index: Bytes,
                         ids: seq<nat>, after: Objects)
    requires gone <= OurImages(before, folder) && |ids| <= |images| + 1 && Numbered(before, ids)
    requires after == AddImages(before - gone, folder, images, index, ids)
    ensures forall id :: id in before && id !in OurImages(before, folder) ==> id in after && after[id] == before[id]
    ensures forall id :: id in before && id in after ==> after[id] == before[id]
  {
    hide OurImages, AddImages;
    AddImagesAdds(before - gone, folder, images, index, ids);
  }

  lemma StillOurs(before: Objects, mid: Objects, folder: nat)
    requires forall id :: id in before && id in mid ==> mid[id] == before[id]
    ensures forall id :: id in before && id in mid && id !in OurImages(before, folder) ==> id !in OurImages(mid, folder)
  {
    hide IsOurs;
  }

  lemma AfterFirst(before: Objects, wd: nat, guid: string, folder: nat, gone: set<nat>, images: seq<Image>,
                   index: Bytes, ids: seq<nat>, mid: Objects)
    requires Tree(before) && OneImageFolder(before, wd, guid) && folder in ImageFolders(before, wd, guid)
    requires gone <= OurImages(before, folder) && |ids| <= |images| + 1 && Numbered(before, ids)
    requires !IsOurs(guid) && forall k :: 0 <= k < |images| ==> ImageName(images[k].name)
    requires mid == AddImages(before - gone, folder, images, index, ids)
    ensures OneImageFolder(mid, wd, guid) && folder in ImageFolders(mid, wd, guid)
    ensures Members(ids) <= OurImages(mid, folder)
  {
    hide IsOurs, ImageName, AddImages, ImageFolders, OneImageFolder, Tree, OurImages, Members, Slots;
    ImageFolderStays(before, wd, guid, folder, gone, images, index, ids);
    AddedAreOurs(before - gone, folder, images, index, ids);
  }

  lemma OneFolder(mid: Objects, wd: nat, guid: string, folder: nat, folder': nat, gone: set<nat>, ids: seq<nat>)
    requires OneImageFolder(mid, wd, guid) && folder in ImageFolders(mid, wd, guid)
    requires gone != {} || ids != [] ==> folder' in ImageFolders(mid, wd, guid)
    ensures gone != {} || ids != [] ==> folder' == folder
  {
    hide ImageFolders, Slots;
    Singleton(ImageFolders(mid, wd, guid), folder);
  }

  lemma AfterSecond(mid: Objects, folder: nat, gone: set<nat>, images: seq<Image>, index: Bytes, old': seq<nat>,
                    new': seq<nat>, after: Objects)
    requires gone == OurImages(mid, folder) && Members(old') <= OurImages(mid, folder)
    requires |new'| <= |images| + 1 && Numbered(mid, new')
    requires forall k :: 0 <= k < |images| ==> ImageName(images[k].name)
    requires after == AddImages(mid - gone, folder, images, index, new')
    ensures OurImages(after, folder) == Members(new')
    ensures Members(new') !! Members(old') && after.Keys !! Members(old')
  {
    hide IsOurs, ImageName, AddImages;
    OnlyAddedAreOurs(mid, folder, images, index, new');
    AddImagesAdds(mid - gone, folder, images, index, new');
  }

  /** An empty folder that carries the mission file's name is taken for it and deleted. */
  method EmptyFolderGoes(guid: string) returns (ok: bool, after: Objects)
    requires |guid| == 36
    ensures ok && Store(guid, Folder, File)[4].kind == Folder && 4 !in after
  {
    hide Slots, KmzFiles, Named, Writable, Tree, MakesKmz, Store, AllSucceed, OneKmz, DeletableKmz, Changed;
    StoreKmz(guid, Folder, File);
    StoreIsWritable(guid, Folder, File);
    var w := Start(guid, Folder, File, NONE, false);
    ghost var gone, made;
    var r;
    r, gone, made := w.WriteKmz(guid, Some([]));
    ok, after := r.Ok?, w.dev.objects;
    NoneFails(w.dev.script, 0, 3);
    GoneForGood(Store(guid, Folder, File), gone, made, after, 4);
  }

  /** So is an empty folder that carries the preview's name, in a reset in which nothing fails. */
  method EmptyPreviewFolderGoes(guid: string) returns (ok: bool, after: Objects)
    requires |guid| == 36
    ensures ok && Store(guid, File, Folder)[9].kind == Folder && 9 !in after
  {
    hide Slots, KmzFiles, Named, Writable, Tree, MakesKmz, Changed, Store, AllSucceed, Unambiguous, OneImageFolder;
    hide ImageFiles, PreviewFiles, SlotFiles, Deletable, Placed, EmptyFolder, OneKmz, DeletableKmz, FindsOne;
    hide DeletablePreviews, TakesFolder, HasEmptyFolder, OnePreview;
    StoreIsUnambiguous(guid, File, Folder);
    StoreIsWritable(guid, File, Folder);
    PreviewIsEmpty(guid);
    var w := Start(guid, File, Folder, NONE, false);
    ghost var gone, made, data, at, lookup, wipe, drop;
    var r;
    r, gone, made, data, at, lookup, wipe, drop := w.ClearSlot(guid, NoOrigin, EmptyPlaceholder);
    ok, after := r.Ok?, w.dev.objects;
    NoneFails(w.dev.script, drop, w.dev.requests);
    PreviewGoes(guid, gone);
    GoneForGood(Store(guid, File, Folder), gone, made, after, 9);
  }

  /** The only folder a reset of this slot can delete is the one that goes for its preview. */
  lemma PreviewGoes(guid: string, gone: set<nat>)
    requires |guid| == 36 && gone <= SlotFiles(Store(guid, File, Folder), 2, Some(PREVIEW_DIR), guid)
    requires TakesFolder(Store(guid, File, Folder), gone)
    ensures 9 in gone
  {
    hide KmzFiles, ImageFiles, PreviewFiles, Store, OurImages;
    StoreKmz(guid, File, Folder);
    StoreImages(guid, File, Folder);
    StorePreview(guid, File, Folder);
    StoreFiles(guid);
  }

  lemma StoreFiles(guid: string)
    ensures 4 in Store(guid, File, Folder) && Store(guid, File, Folder)[4].kind == File
    ensures 6 in Store(guid, File, Folder) && Store(guid, File, Folder)[6].kind == File
  {
    hide KmzName, JpgName;
  }

  lemma PreviewIsEmpty(guid: string)
    requires |guid| == 36
    ensures Store(guid, File, Folder)[9].kind == Folder
    ensures HasEmptyFolder(Store(guid, File, Folder), PreviewFiles(Store(guid, File, Folder), Some(PREVIEW_DIR), guid))
  {
    hide PreviewFiles, KmzName, JpgName;
    StorePreview(guid, File, Folder);
    assert forall id :: id in Store(guid, File, Folder) ==> Store(guid, File, Folder)[id].parent != 9;
    assert EmptyFolder(Store(guid, File, Folder), 9);
  }

  lemma NoneFails(script: nat -> bool, from: nat, to: nat)
    requires forall n: nat :: script(n)
    ensures AllSucceed(script, from, to)
  {
  }

  lemma GoneForGood(before: Objects, gone: set<nat>, made: Objects, after: Objects, k: nat)
    requires Changed(before, gone, made, after) && k in gone
    ensures k !in after
  {
  }
}
