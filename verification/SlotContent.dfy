/**
 What belongs to a waypoint slot on the device, and what swapping its mission file, wiping its images and
 dropping its preview do to that.
 */
module SlotContent {
  import opened Wrappers
  import opened Text
  import opened ObjectStore

  type Objects = map<nat, Object>

  datatype Image = Image(index: int, name: string, bytes: Bytes)

  const INDEX_NAME := "ShotSnap.json"

  function KmzName(guid: string): string {
    guid + ".kmz"
  }

  function JpgName(guid: string): string {
    guid + ".jpg"
  }

  function Slots(objects: Objects, waypointDir: nat, guid: string): set<nat> {
    Named(objects, waypointDir, guid)
  }

  /** What a lookup of the slot's mission file can find. Nothing asks whether it is a file or a folder. */
  function KmzFiles(objects: Objects, waypointDir: nat, guid: string): set<nat> {
    var slots := Slots(objects, waypointDir, guid);
    set k | k in objects && objects[k].parent in slots && EqualFold(objects[k].name, KmzName(guid))
  }

  function ImageFolders(objects: Objects, waypointDir: nat, guid: string): set<nat> {
    var slots := Slots(objects, waypointDir, guid);
    set f | f in objects && objects[f].parent in slots && EqualFold(objects[f].name, "image")
  }

  /** The plain files directly in these folders. */
  function FilesUnder(objects: Objects, folders: set<nat>): set<nat> {
    set f | f in objects && objects[f].parent in folders && objects[f].kind == File
  }

  /** The plain files in a slot's image folder. */
  function ImageFiles(objects: Objects, waypointDir: nat, guid: string): set<nat> {
    FilesUnder(objects, ImageFolders(objects, waypointDir, guid))
  }

  /** What a lookup of the slot's preview can find, file or folder. */
  function PreviewFiles(objects: Objects, previewDir: Option<Entry>, guid: string): set<nat> {
    var subs := if previewDir.Some? then Named(objects, previewDir.value.id, guid) else {};
    set f | f in objects && objects[f].parent in subs && EqualFold(objects[f].name, JpgName(guid))
  }

  /** Everything clearing a slot may remove. */
  function SlotFiles(objects: Objects, waypointDir: nat, previewDir: Option<Entry>, guid: string): set<nat> {
    KmzFiles(objects, waypointDir, guid) + ImageFiles(objects, waypointDir, guid)
    + PreviewFiles(objects, previewDir, guid)
  }

  function KmzObject(slot: nat, guid: string, data: Bytes): Object {
    Object(slot, KmzName(guid), File, data)
  }

  /** `after` is `before` without `gone` and with the new objects of `made`. */
  ghost predicate Changed(before: Objects, gone: set<nat>, made: Objects, after: Objects) {
    && gone <= before.Keys && before.Keys !! made.Keys
    && after == (before - gone) + made
  }

  /** At most one new object: the mission file, in a slot folder of the GUID. */
  ghost predicate MakesKmz(before: Objects, waypointDir: nat, guid: string, data: Bytes, made: Objects) {
    || made == map[]
    || exists id, slot :: slot in Slots(before, waypointDir, guid) && made == map[id := KmzObject(slot, guid, data)]
  }

  /** The slot and its mission file are there once at most. */
  ghost predicate OneKmz(objects: Objects, waypointDir: nat, guid: string) {
    |Slots(objects, waypointDir, guid)| <= 1 && |KmzFiles(objects, waypointDir, guid)| <= 1
  }

  /** One preview at most, file or folder. */
  ghost predicate OnePreview(objects: Objects, previewDir: Option<Entry>, guid: string) {
    && (previewDir.Some? ==> |Named(objects, previewDir.value.id, guid)| <= 1)
    && |PreviewFiles(objects, previewDir, guid)| <= 1
  }

  /** Every name the slot is looked up by matches one object at most. */
  ghost predicate Unambiguous(objects: Objects, waypointDir: nat, previewDir: Option<Entry>, guid: string) {
    && |guid| == 36
    && OneKmz(objects, waypointDir, guid)
    && |ImageFolders(objects, waypointDir, guid)| <= 1
    && OnePreview(objects, previewDir, guid)
  }

  /** The slot exists once, as a folder, and what goes for its mission file can be deleted. */
  ghost predicate Writable(objects: Objects, waypointDir: nat, guid: string) {
    && |Slots(objects, waypointDir, guid)| == 1
    && (forall s :: s in Slots(objects, waypointDir, guid) ==> objects[s].kind != File)
    && (forall k :: k in KmzFiles(objects, waypointDir, guid) ==> Deletable(objects, k))
  }

  /** The slot and its image folder exist once, the latter as a folder. */
  ghost predicate OneImageFolder(objects: Objects, waypointDir: nat, guid: string) {
    && |Slots(objects, waypointDir, guid)| == 1 && |ImageFolders(objects, waypointDir, guid)| == 1
    && forall f :: f in ImageFolders(objects, waypointDir, guid) ==> objects[f].kind != File
  }

  /** The mission files that the device lets itself be asked to delete: files, and folders that are empty. */
  ghost function DeletableKmz(objects: Objects, waypointDir: nat, guid: string): set<nat> {
    set k | k in KmzFiles(objects, waypointDir, guid) && Deletable(objects, k)
  }

  /** The same of the previews. */
  ghost function DeletablePreviews(objects: Objects, previewDir: Option<Entry>, guid: string): set<nat> {
    set k | k in PreviewFiles(objects, previewDir, guid) && Deletable(objects, k)
  }

  /** Where the old mission starts, if there is a mission file and it can be made sense of. */
  ghost function OldOrigin(objects: Objects, files: set<nat>, origin: Bytes -> Option<(real, real)>)
      : Option<(real, real)> {
    if k :| k in files && k in objects && objects[k].kind == File then origin(objects[k].bytes) else None
  }

  lemma NamedSlots(objects: Objects, wd: nat, guid: string)
    ensures Slots(objects, wd, guid) == Named(objects, wd, guid)
  {
  }

  // ---- Names and small facts --------------------------------------------------------------

  lemma FoldedLength(a: string, b: string)
    requires |a| != |b|
    ensures !EqualFold(a, b)
  {
  }

  /** A name made of the GUID and a four-letter ending is neither the GUID nor another such name. */
  lemma NamesDiffer(guid: string, name: string)
    ensures EqualFold(name, KmzName(guid)) ==> !EqualFold(name, guid) && !EqualFold(name, JpgName(guid))
    ensures EqualFold(name, KmzName(guid)) ==> !EqualFold(name, "image")
    ensures EqualFold(name, JpgName(guid)) ==> !EqualFold(name, guid)
    ensures |guid| == 36 && EqualFold(name, "image") ==> !EqualFold(name, guid) && !EqualFold(name, JpgName(guid))
  {
    var a, b := Upper(KmzName(guid)), Upper(JpgName(guid));
    assert a[|guid| + 1] == 'K' && b[|guid| + 1] == 'J';
    assert a[|guid|] == '.';
    assert Upper("image")[1] == 'M';
  }

  lemma Singleton(s: set<nat>, x: nat)
    requires |s| <= 1 && x in s
    ensures s == {x}
  {
    assert |s - {x}| == 0;
  }

  lemma SubsetSize(a: set<nat>, b: set<nat>)
    requires a <= b
    ensures |a| <= |b|
  {
    assert b == a + (b - a);
  }

  ghost predicate AllSucceed(script: nat -> bool, from: nat, to: nat) {
    forall n: nat :: from <= n < to ==> script(n)
  }

  lemma SucceedHalves(script: nat -> bool, a: nat, b: nat, c: nat)
    requires a <= b <= c
    ensures AllSucceed(script, a, c) <==> AllSucceed(script, a, b) && AllSucceed(script, b, c)
  {
  }

  lemma SucceedOne(script: nat -> bool, n: nat)
    ensures AllSucceed(script, n, n) && (AllSucceed(script, n, n + 1) <==> script(n))
  {
  }

  // ---- Deleting a child by name -----------------------------------------------------------

  /**
   Looking for a child with request n and deleting it with the next: `files` are the children of that name.
   A lookup that fails counts as finding none.
   */
  ghost predicate Dropped(objects: Objects, files: set<nat>, script: nat -> bool, n: nat, next: nat, ok: bool,
                          gone: set<nat>) {
    if script(n) && files != {} then
      && next == n + 2
      && exists k :: k in files && (ok <==> script(n + 1) && Deletable(objects, k)) && gone == if ok then {k} else {}
    else next == n + 1 && ok && gone == {}
  }

  lemma DroppedFacts(objects: Objects, files: set<nat>, script: nat -> bool, n: nat, next: nat, ok: bool,
                     gone: set<nat>)
    requires Dropped(objects, files, script, n, next, ok, gone)
    ensures gone <= files && |gone| <= 1 && n < next <= n + 2
    ensures forall k :: k in gone ==> Deletable(objects, k)
    ensures !ok ==> gone == {}
    ensures ok ==> (gone != {} <==> files != {} && script(n))
  {
  }

  /** With one child of that name at most, it is clear what is gone and what the result is. */
  lemma DroppedOne(objects: Objects, files: set<nat>, script: nat -> bool, n: nat, next: nat, ok: bool,
                   gone: set<nat>)
    requires Dropped(objects, files, script, n, next, ok, gone) && |files| <= 1
    ensures next == if script(n) && files != {} then n + 2 else n + 1
    ensures gone == if script(n) && script(n + 1) then (set k | k in files && Deletable(objects, k)) else {}
    ensures ok <==> (script(n) && files != {} ==> gone == files)
  {
    if script(n) && files != {} {
      var k :| k in files && (ok <==> script(n + 1) && Deletable(objects, k)) && gone == if ok then {k} else {};
      Singleton(files, k);
    }
  }

  // ---- Swapping the mission file ----------------------------------------------------------

  lemma NothingWritten(before: Objects, waypointDir: nat, guid: string, data: Bytes)
    ensures Changed(before, {}, map[], before) && MakesKmz(before, waypointDir, guid, data, map[])
  {
    assert (before - {}) + map[] == before;
  }

  /** Swapping mission files leaves the slot folders alone and changes the mission files accordingly. */
  lemma KmzFilesAfter(before: Objects, waypointDir: nat, guid: string, data: Bytes,
                      gone: set<nat>, made: Objects, after: Objects)
    requires Changed(before, gone, made, after)
    requires gone <= KmzFiles(before, waypointDir, guid) && MakesKmz(before, waypointDir, guid, data, made)
    ensures Slots(after, waypointDir, guid) == Slots(before, waypointDir, guid)
    ensures KmzFiles(after, waypointDir, guid) == KmzFiles(before, waypointDir, guid) - gone + made.Keys
  {
    forall id | id in before && EqualFold(before[id].name, KmzName(guid))
      ensures !EqualFold(before[id].name, guid)
    {
      NamesDiffer(guid, before[id].name);
    }
    FoldedLength(KmzName(guid), guid);
    assert Slots(after, waypointDir, guid) == Slots(before, waypointDir, guid);
  }

  /** With one slot folder, the slot's mission files are that folder's. */
  lemma OneSlot(before: Objects, waypointDir: nat, guid: string, slot: nat)
    requires slot in Slots(before, waypointDir, guid) && |Slots(before, waypointDir, guid)| <= 1
    ensures KmzFiles(before, waypointDir, guid) == Named(before, slot, KmzName(guid))
    ensures ImageFolders(before, waypointDir, guid) == Named(before, slot, "image")
  {
    Singleton(Slots(before, waypointDir, guid), slot);
  }

  lemma NoSlot(before: Objects, waypointDir: nat, guid: string)
    requires Slots(before, waypointDir, guid) == {}
    ensures KmzFiles(before, waypointDir, guid) == {} && DeletableKmz(before, waypointDir, guid) == {}
  {
  }

  /** The storages at the top cannot be deleted, so a lookup there deletes nothing. */
  lemma NothingDroppedAtTop(objects: Objects, name: string, script: nat -> bool, n: nat, next: nat, ok: bool,
                            gone: set<nat>)
    requires Tree(objects) && Dropped(objects, Named(objects, TOP, name), script, n, next, ok, gone)
    ensures gone == {}
  {
    DroppedFacts(objects, Named(objects, TOP, name), script, n, next, ok, gone);
  }

  /** After the old file is dropped, whichever it was. */
  lemma KmzDropped(before: Objects, waypointDir: nat, guid: string, slot: nat, gone: set<nat>)
    requires slot in Slots(before, waypointDir, guid) && gone <= Named(before, slot, KmzName(guid))
    ensures gone <= KmzFiles(before, waypointDir, guid)
    ensures Changed(before, gone, map[], before - gone)
    ensures KmzFiles(before - gone, waypointDir, guid) <= KmzFiles(before, waypointDir, guid)
  {
    assert gone <= KmzFiles(before, waypointDir, guid);
    assert (before - gone) + map[] == before - gone;
    KmzFilesAfter(before, waypointDir, guid, [], gone, map[], before - gone);
  }

  /** A mission file dropped, or not, and a new one added under a new number. */
  datatype Swap = Swap(before: Objects, waypointDir: nat, guid: string, slot: nat, gone: set<nat>, id: nat, data: Bytes)
  {
    function Made(): Objects {
      map[id := KmzObject(slot, guid, data)]
    }

    function After(): Objects {
      (before - gone)[id := KmzObject(slot, guid, data)]
    }

    ghost predicate Valid() {
      && Tree(before) && slot in Slots(before, waypointDir, guid) && before[slot].kind != File
      && id !in before && gone <= Named(before, slot, KmzName(guid))
    }
  }

  lemma KmzPut(s: Swap)
    requires s.Valid()
    ensures s.gone <= KmzFiles(s.before, s.waypointDir, s.guid)
    ensures Changed(s.before, s.gone, s.Made(), s.After())
    ensures MakesKmz(s.before, s.waypointDir, s.guid, s.data, s.Made()) && s.Made() != map[]
    ensures KmzFiles(s.After(), s.waypointDir, s.guid)
              == KmzFiles(s.before, s.waypointDir, s.guid) - s.gone + s.Made().Keys
  {
    KmzDropped(s.before, s.waypointDir, s.guid, s.slot, s.gone);
    assert s.id in s.Made();
    assert s.After() == (s.before - s.gone) + s.Made();
    KmzFilesAfter(s.before, s.waypointDir, s.guid, s.data, s.gone, s.Made(), s.After());
  }

  /** The new mission file is the only one exactly when there was none or the old one was dropped. */
  lemma OnlyKmz(s: Swap)
    requires s.Valid() && |KmzFiles(s.before, s.waypointDir, s.guid)| <= 1
    ensures KmzFiles(s.After(), s.waypointDir, s.guid) == s.Made().Keys <==>
              KmzFiles(s.before, s.waypointDir, s.guid) == {} || s.gone != {}
  {
    hide KmzFiles;
    KmzPut(s);
    OnlyNew(KmzFiles(s.before, s.waypointDir, s.guid), s.gone, s.id);
    assert s.Made().Keys == {s.id};
    NewNumber(s);
  }

  lemma NewNumber(s: Swap)
    requires s.Valid()
    ensures s.id !in KmzFiles(s.before, s.waypointDir, s.guid)
  {
  }

  lemma OnlyNew(files: set<nat>, gone: set<nat>, id: nat)
    requires |files| <= 1 && gone <= files
    ensures id !in files ==> (files - gone + {id} == {id} <==> files == {} || gone != {})
  {
    if k :| k in gone {
      Singleton(files, k);
    }
    if id !in files && files - gone + {id} == {id} {
      assert forall k :: k in files - gone ==> k in files - gone + {id};
      assert files - gone == {};
    }
  }

  // ---- Folders --------------------------------------------------------------------------

  ghost predicate TakesFolder(before: Objects, gone: set<nat>) {
    exists k :: k in gone && k in before && before[k].kind == Folder
  }

  ghost predicate HasEmptyFolder(objects: Objects, files: set<nat>) {
    exists k :: k in files && EmptyFolder(objects, k)
  }

  /** If what can be deleted of some objects goes, a folder does exactly when one of them is an empty folder. */
  lemma FolderIn(before: Objects, files: set<nat>, gone: set<nat>, done: bool)
    requires files <= before.Keys
    requires gone == if done then (set k | k in files && Deletable(before, k)) else {}
    ensures TakesFolder(before, gone) <==> done && HasEmptyFolder(before, files)
  {
    hide Deletable;
    if done && HasEmptyFolder(before, files) {
      var k :| k in files && EmptyFolder(before, k);
      assert k in gone;
    }
  }

  lemma FolderInEither(before: Objects, a: set<nat>, files: set<nat>, b: set<nat>)
    requires forall f :: f in files ==> f in before && before[f].kind == File
    ensures TakesFolder(before, a + files + b) <==> TakesFolder(before, a) || TakesFolder(before, b)
  {
    if TakesFolder(before, a) {
      var k :| k in a && k in before && before[k].kind == Folder;
      assert k in a + files + b;
    }
    if TakesFolder(before, b) {
      var k :| k in b && k in before && before[k].kind == Folder;
      assert k in a + files + b;
    }
  }

  /** A write deletes a folder exactly when an empty one has the mission file's name and its requests work. */
  lemma FolderGoesIff(before: Objects, waypointDir: nat, guid: string, gone: set<nat>, done: bool)
    requires gone == if done then DeletableKmz(before, waypointDir, guid) else {}
    ensures TakesFolder(before, gone) <==> done && HasEmptyFolder(before, KmzFiles(before, waypointDir, guid))
  {
    hide KmzFiles, Deletable;
    ContentIsThere(before, waypointDir, None, guid);
    FolderIn(before, KmzFiles(before, waypointDir, guid), gone, done);
  }

  /**
   A reset deletes a folder exactly when an empty one has the mission file's name or the preview's and the
   requests that concern it work.
   */
  lemma ResetFolderGoesIff(before: Objects, waypointDir: nat, previewDir: Option<Entry>, guid: string,
                           kmz: set<nat>, swapped: bool, wiped: set<nat>, previews: set<nat>, cleaned: bool)
    requires kmz == if swapped then DeletableKmz(before, waypointDir, guid) else {}
    requires wiped <= ImageFiles(before, waypointDir, guid)
    requires previews == if cleaned then DeletablePreviews(before, previewDir, guid) else {}
    ensures TakesFolder(before, kmz + wiped + previews) <==>
              || (swapped && HasEmptyFolder(before, KmzFiles(before, waypointDir, guid)))
              || (cleaned && HasEmptyFolder(before, PreviewFiles(before, previewDir, guid)))
  {
    hide KmzFiles, PreviewFiles, ImageFolders, Deletable, TakesFolder;
    ContentIsThere(before, waypointDir, previewDir, guid);
    FolderGoesIff(before, waypointDir, guid, kmz, swapped);
    FolderIn(before, PreviewFiles(before, previewDir, guid), previews, cleaned);
    FolderInEither(before, kmz, wiped, previews);
  }

  /** However many objects carry the names that are looked for, no folder goes if they are all files. */
  lemma NoFolderGoes(before: Objects, waypointDir: nat, previewDir: Option<Entry>, guid: string, gone: set<nat>)
    requires gone <= SlotFiles(before, waypointDir, previewDir, guid)
    requires forall k :: k in KmzFiles(before, waypointDir, guid) ==> before[k].kind == File
    requires forall k :: k in PreviewFiles(before, previewDir, guid) ==> before[k].kind == File
    ensures !TakesFolder(before, gone)
  {
    hide KmzFiles, PreviewFiles, ImageFolders;
    ContentIsThere(before, waypointDir, previewDir, guid);
  }

  // ---- Wiping the images and dropping the preview -----------------------------------------

  /** The folder in which a clean-up looks for images is the slot's, and so are the files in it. */
  lemma ImagesWereThere(s: Swap)
    requires s.Valid()
    ensures Named(s.After(), s.slot, "image") <= ImageFolders(s.before, s.waypointDir, s.guid)
    ensures FilesUnder(s.After(), Named(s.After(), s.slot, "image")) <= ImageFiles(s.before, s.waypointDir, s.guid)
  {
    NamesDiffer(s.guid, KmzName(s.guid));
    forall p | p in Named(s.After(), s.slot, "image")
      ensures p in ImageFolders(s.before, s.waypointDir, s.guid) && p != s.slot
    {
    }
  }

  /** None of the slot's images was a mission file, so all are still there. */
  lemma ImagesStay(s: Swap)
    requires s.Valid() && |Slots(s.before, s.waypointDir, s.guid)| <= 1
    ensures Named(s.After(), s.slot, "image") == ImageFolders(s.before, s.waypointDir, s.guid)
    ensures FilesUnder(s.After(), Named(s.After(), s.slot, "image")) == ImageFiles(s.before, s.waypointDir, s.guid)
  {
    hide EqualFold, KmzName;
    OneSlot(s.before, s.waypointDir, s.guid, s.slot);
    ImagesWereThere(s);
    forall p | p in ImageFolders(s.before, s.waypointDir, s.guid)
      ensures p in Named(s.After(), s.slot, "image")
    {
      NamesDiffer(s.guid, s.before[p].name);
    }
  }

  lemma PreviewsWereThere(s: Swap, previewDir: Option<Entry>, wiped: set<nat>)
    requires s.Valid()
    ensures PreviewFiles(s.After() - wiped, previewDir, s.guid) <= PreviewFiles(s.before, previewDir, s.guid)
    ensures previewDir.Some? ==>
              Named(s.After() - wiped, previewDir.value.id, s.guid) <= Named(s.before, previewDir.value.id, s.guid)
  {
    NamesDiffer(s.guid, KmzName(s.guid));
  }

  /** Nor was a preview a mission file or an image. */
  lemma PreviewsStay(s: Swap, previewDir: Option<Entry>, wiped: set<nat>)
    requires s.Valid() && |s.guid| == 36 && wiped <= ImageFiles(s.before, s.waypointDir, s.guid)
    ensures PreviewFiles(s.After() - wiped, previewDir, s.guid) == PreviewFiles(s.before, previewDir, s.guid)
  {
    hide EqualFold, KmzName, JpgName;
    PreviewsWereThere(s, previewDir, wiped);
    forall f | f in PreviewFiles(s.before, previewDir, s.guid)
      ensures f in PreviewFiles(s.After() - wiped, previewDir, s.guid)
    {
      var q := s.before[f].parent;
      NamesDiffer(s.guid, s.before[f].name);
      NamesDiffer(s.guid, s.before[q].name);
      assert f !in s.gone && q !in s.gone && q !in wiped && f !in wiped;
    }
  }

  /** An image is neither the slot nor its image folder nor a mission file. */
  lemma ImagesAreNoFolders(s: Swap, f: nat)
    requires s.Valid() && |Slots(s.before, s.waypointDir, s.guid)| <= 1
    requires f in ImageFiles(s.before, s.waypointDir, s.guid)
    ensures f != s.slot && f !in ImageFolders(s.before, s.waypointDir, s.guid) && f != s.id
    ensures f !in KmzFiles(s.before, s.waypointDir, s.guid)
  {
    hide EqualFold, KmzName;
    OneSlot(s.before, s.waypointDir, s.guid, s.slot);
    assert s.before[s.before[f].parent].parent == s.slot;
  }

  /** Nor is a preview, and it is no image either. */
  lemma PreviewsAreNoFolders(s: Swap, previewDir: Option<Entry>, f: nat)
    requires s.Valid() && |Slots(s.before, s.waypointDir, s.guid)| <= 1 && |s.guid| == 36
    requires f in PreviewFiles(s.before, previewDir, s.guid)
    ensures f != s.slot && f !in ImageFolders(s.before, s.waypointDir, s.guid) && f != s.id
    ensures f !in KmzFiles(s.before, s.waypointDir, s.guid) && f !in ImageFiles(s.before, s.waypointDir, s.guid)
  {
    hide EqualFold, KmzName, JpgName;
    NamesDiffer(s.guid, s.before[f].name);
    NamesDiffer(s.guid, s.before[s.before[f].parent].name);
  }

  /** Removing objects that are not folders of the slot takes just them out of its contents. */
  lemma Without(objects: Objects, waypointDir: nat, guid: string, out: set<nat>)
    requires out !! Slots(objects, waypointDir, guid) && out !! ImageFolders(objects, waypointDir, guid)
    ensures KmzFiles(objects - out, waypointDir, guid) == KmzFiles(objects, waypointDir, guid) - out
    ensures ImageFiles(objects - out, waypointDir, guid) == ImageFiles(objects, waypointDir, guid) - out
  {
    hide EqualFold;
    assert Slots(objects - out, waypointDir, guid) == Slots(objects, waypointDir, guid);
    assert ImageFolders(objects - out, waypointDir, guid) == ImageFolders(objects, waypointDir, guid);
  }

  lemma WithoutPreviews(objects: Objects, previewDir: Option<Entry>, guid: string, out: set<nat>)
    requires out <= PreviewFiles(objects, previewDir, guid)
    ensures PreviewFiles(objects - out, previewDir, guid) == PreviewFiles(objects, previewDir, guid) - out
  {
    hide EqualFold, JpgName;
    forall f | f in PreviewFiles(objects, previewDir, guid)
      ensures objects[f].parent !in out
    {
      if objects[f].parent in out {
        NamesDiffer(guid, objects[objects[f].parent].name);
      }
    }
  }

  /** The slot's folders after the swap are those before. */
  lemma FoldersAfter(s: Swap)
    requires s.Valid() && |Slots(s.before, s.waypointDir, s.guid)| <= 1
    ensures Slots(s.After(), s.waypointDir, s.guid) == {s.slot}
    ensures ImageFolders(s.After(), s.waypointDir, s.guid) == ImageFolders(s.before, s.waypointDir, s.guid)
    ensures ImageFiles(s.After(), s.waypointDir, s.guid) == ImageFiles(s.before, s.waypointDir, s.guid)
  {
    hide EqualFold, KmzName, KmzFiles, ImageFolders;
    KmzPut(s);
    Singleton(Slots(s.before, s.waypointDir, s.guid), s.slot);
    KmzFilesAfter(s.before, s.waypointDir, s.guid, s.data, s.gone, s.Made(), s.After());
    OneSlot(s.After(), s.waypointDir, s.guid, s.slot);
    ImagesStay(s);
  }

  /** A clean-up does not touch the mission files, whatever the GUID looks like. */
  lemma KmzAfterCleanUp(s: Swap, previewDir: Option<Entry>, wiped: set<nat>, dropped: set<nat>)
    requires s.Valid() && |Slots(s.before, s.waypointDir, s.guid)| <= 1
    requires wiped <= ImageFiles(s.before, s.waypointDir, s.guid)
    requires dropped <= PreviewFiles(s.before, previewDir, s.guid)
    ensures KmzFiles(s.After() - wiped - dropped, s.waypointDir, s.guid)
              == KmzFiles(s.After(), s.waypointDir, s.guid)
  {
    hide KmzFiles, ImageFiles, ImageFolders, PreviewFiles, Slots, Swap.Valid, Swap.After;
    var out := wiped + dropped;
    forall f | f in out
      ensures f != s.slot && f != s.id && f !in KmzFiles(s.before, s.waypointDir, s.guid)
    {
      if f in wiped { ImagesAreNoFolders(s, f); }
      if f in dropped { PreviewsAreNoMissions(s, previewDir, f); }
    }
    FoldersAfter(s);
    KmzPut(s);
    KmzWithout(s.After(), s.waypointDir, s.guid, out);
    assert s.After() - out == s.After() - wiped - dropped;
  }

  lemma PreviewsAreNoMissions(s: Swap, previewDir: Option<Entry>, f: nat)
    requires s.Valid() && f in PreviewFiles(s.before, previewDir, s.guid)
    ensures f != s.slot && f != s.id && f !in KmzFiles(s.before, s.waypointDir, s.guid)
  {
    hide EqualFold, KmzName, JpgName;
    NamesDiffer(s.guid, s.before[f].name);
  }

  lemma KmzWithout(objects: Objects, waypointDir: nat, guid: string, out: set<nat>)
    requires out !! Slots(objects, waypointDir, guid) && out !! KmzFiles(objects, waypointDir, guid)
    ensures KmzFiles(objects - out, waypointDir, guid) == KmzFiles(objects, waypointDir, guid)
  {
    hide EqualFold;
    assert Slots(objects - out, waypointDir, guid) == Slots(objects, waypointDir, guid);
  }

  /** What is left of the slot's old content after the clean-up. */
  lemma ContentAfter(s: Swap, previewDir: Option<Entry>, wiped: set<nat>, dropped: set<nat>)
    requires s.Valid() && |s.guid| == 36 && |Slots(s.before, s.waypointDir, s.guid)| <= 1
    requires wiped <= ImageFiles(s.before, s.waypointDir, s.guid)
    requires dropped <= PreviewFiles(s.before, previewDir, s.guid)
    ensures var after := s.After() - wiped - dropped;
            && KmzFiles(after, s.waypointDir, s.guid) == KmzFiles(s.After(), s.waypointDir, s.guid)
            && ImageFiles(after, s.waypointDir, s.guid) == ImageFiles(s.before, s.waypointDir, s.guid) - wiped
            && PreviewFiles(after, previewDir, s.guid) == PreviewFiles(s.before, previewDir, s.guid) - dropped
  {
    hide KmzFiles, ImageFiles, ImageFolders, PreviewFiles, Slots, Swap.Valid, Swap.After;
    var out := wiped + dropped;
    forall f | f in out
      ensures f != s.slot && f !in ImageFolders(s.before, s.waypointDir, s.guid) && f != s.id
      ensures f !in KmzFiles(s.before, s.waypointDir, s.guid)
      ensures f in dropped ==> f !in ImageFiles(s.before, s.waypointDir, s.guid)
    {
      if f in wiped { ImagesAreNoFolders(s, f); }
      if f in dropped { PreviewsAreNoFolders(s, previewDir, f); }
    }
    FoldersAfter(s);
    KmzPut(s);
    Without(s.After(), s.waypointDir, s.guid, out);
    PreviewsStay(s, previewDir, wiped);
    WithoutPreviews(s.After() - wiped, previewDir, s.guid, dropped);
    assert s.After() - out == s.After() - wiped - dropped;
  }

  /** What the clean-up removed was there before, so the store changed as announced. */
  lemma CleanedUp(s: Swap, previewDir: Option<Entry>, wiped: set<nat>, dropped: set<nat>)
    requires s.Valid()
    requires wiped <= FilesUnder(s.After(), Named(s.After(), s.slot, "image"))
    requires dropped <= PreviewFiles(s.After() - wiped, previewDir, s.guid)
    ensures Changed(s.before, s.gone + wiped + dropped, s.Made(), s.After() - wiped - dropped)
    ensures s.gone + wiped + dropped <= SlotFiles(s.before, s.waypointDir, previewDir, s.guid)
    ensures wiped <= ImageFiles(s.before, s.waypointDir, s.guid)
    ensures dropped <= PreviewFiles(s.before, previewDir, s.guid)
  {
    hide KmzFiles, FilesUnder, ImageFolders, PreviewFiles, Slots, EqualFold;
    ImagesWereThere(s);
    PreviewsWereThere(s, previewDir, wiped);
    KmzPut(s);
    ContentIsThere(s.before, s.waypointDir, previewDir, s.guid);
    var gone := s.gone + wiped + dropped;
    assert s.After() - wiped - dropped == (s.before - gone) + s.Made();
  }

  lemma ContentIsThere(objects: Objects, waypointDir: nat, previewDir: Option<Entry>, guid: string)
    ensures SlotFiles(objects, waypointDir, previewDir, guid) <= objects.Keys
  {
  }

  /** The three kinds of content do not overlap: all is gone exactly when each is. */
  lemma AllGone(s: Swap, previewDir: Option<Entry>, wiped: set<nat>, dropped: set<nat>)
    requires s.Valid() && |s.guid| == 36 && |Slots(s.before, s.waypointDir, s.guid)| <= 1
    requires wiped <= ImageFiles(s.before, s.waypointDir, s.guid)
    requires dropped <= PreviewFiles(s.before, previewDir, s.guid)
    ensures s.gone + wiped + dropped == SlotFiles(s.before, s.waypointDir, previewDir, s.guid) <==>
              && s.gone == KmzFiles(s.before, s.waypointDir, s.guid)
              && wiped == ImageFiles(s.before, s.waypointDir, s.guid)
              && dropped == PreviewFiles(s.before, previewDir, s.guid)
  {
    hide KmzFiles, ImageFiles, ImageFolders, PreviewFiles, Slots;
    var kmz := KmzFiles(s.before, s.waypointDir, s.guid);
    var images := ImageFiles(s.before, s.waypointDir, s.guid);
    var previews := PreviewFiles(s.before, previewDir, s.guid);
    KmzPut(s);
    forall f | f in images
      ensures f !in kmz
    {
      ImagesAreNoFolders(s, f);
    }
    forall f | f in previews
      ensures f !in kmz && f !in images
    {
      PreviewsAreNoFolders(s, previewDir, f);
    }
    EachOfThree(s.gone, wiped, dropped, kmz, images, previews);
  }

  lemma EachOfThree(a: set<nat>, b: set<nat>, c: set<nat>, x: set<nat>, y: set<nat>, z: set<nat>)
    requires a <= x && b <= y && c <= z && x !! y !! z
    ensures a + b + c == x + y + z <==> a == x && b == y && c == z
  {
    if a + b + c == x + y + z {
      assert forall k :: k in x ==> k in a + b + c;
      assert forall k :: k in y ==> k in a + b + c;
      assert forall k :: k in z ==> k in a + b + c;
    }
  }

  /** What lies in a folder that could be taken for a preview stays there. */
  lemma ChildrenStay(s: Swap, previewDir: Option<Entry>, wiped: set<nat>, k: nat, c: nat)
    requires s.Valid() && |s.guid| == 36 && wiped <= ImageFiles(s.before, s.waypointDir, s.guid)
    requires k in PreviewFiles(s.before, previewDir, s.guid) && c in s.before && s.before[c].parent == k
    ensures c in s.After() - wiped && (s.After() - wiped)[c].parent == k
  {
    hide EqualFold, KmzName, JpgName;
    NamesDiffer(s.guid, s.before[k].name);
  }

  /** A folder that the clean-up may delete as a preview was empty before the mission file was swapped. */
  lemma StillEmpty(s: Swap, previewDir: Option<Entry>, wiped: set<nat>, k: nat)
    requires s.Valid() && |s.guid| == 36 && wiped <= ImageFiles(s.before, s.waypointDir, s.guid)
    requires k in PreviewFiles(s.before, previewDir, s.guid) && Deletable(s.After() - wiped, k)
    ensures Deletable(s.before, k)
  {
    hide EqualFold, KmzName, JpgName;
    PreviewsStay(s, previewDir, wiped);
    forall c | c in s.before
      ensures s.before[c].parent != k
    {
      if s.before[c].parent == k {
        ChildrenStay(s, previewDir, wiped, k, c);
      }
    }
  }

  /** And one that was empty still is: what the swap adds lies in the slot folder. */
  lemma StaysEmpty(s: Swap, wiped: set<nat>, k: nat)
    requires s.Valid() && Deletable(s.before, k) && EqualFold(s.before[k].name, JpgName(s.guid))
    requires k in s.After() - wiped
    ensures Deletable(s.After() - wiped, k)
  {
    hide EqualFold, KmzName, JpgName;
    NamesDiffer(s.guid, s.before[k].name);
    assert k != s.slot && s.After()[k] == s.before[k];
  }

  /** So the clean-up can delete the previews that could be deleted to begin with. */
  lemma PreviewsStayDeletable(s: Swap, previewDir: Option<Entry>, wiped: set<nat>)
    requires s.Valid() && |s.guid| == 36 && wiped <= ImageFiles(s.before, s.waypointDir, s.guid)
    ensures DeletablePreviews(s.After() - wiped, previewDir, s.guid)
              == DeletablePreviews(s.before, previewDir, s.guid)
  {
    hide EqualFold, KmzName, JpgName, Deletable, Swap.Valid, Swap.After, ImageFiles;
    PreviewsStay(s, previewDir, wiped);
    forall k | k in PreviewFiles(s.before, previewDir, s.guid)
      ensures Deletable(s.After() - wiped, k) <==> Deletable(s.before, k)
    {
      if Deletable(s.before, k) {
        StaysEmpty(s, wiped, k);
      }
      if Deletable(s.After() - wiped, k) {
        StillEmpty(s, previewDir, wiped, k);
      }
    }
  }

  lemma PreviewStillOne(s: Swap, previewDir: Option<Entry>, wiped: set<nat>)
    requires s.Valid() && |s.guid| == 36 && wiped <= ImageFiles(s.before, s.waypointDir, s.guid)
    requires OnePreview(s.before, previewDir, s.guid)
    ensures OnePreview(s.After() - wiped, previewDir, s.guid)
  {
    hide EqualFold, KmzName, JpgName;
    PreviewsStay(s, previewDir, wiped);
    PreviewsWereThere(s, previewDir, wiped);
    if previewDir.Some? {
      SubsetSize(Named(s.After() - wiped, previewDir.value.id, s.guid),
                 Named(s.before, previewDir.value.id, s.guid));
    }
  }

  // ---- Waypoint images --------------------------------------------------------------------

  /** The names a previous run, or the drone, gave waypoint images and their index. */
  predicate IsOurs(name: string) {
    var up := Upper(name);
    || (3 <= |up| && up[..3] == "WP_" && 4 <= |up| && up[|up| - 4..] == ".JPG")
    || EqualFold(name, INDEX_NAME)
  }

  /** Spelled out: it begins with WP_ and ends in .jpg, or it is ShotSnap.json, in whatever case. */
  ghost predicate ImageName(name: string) {
    exists wp, rest, jpg: string ::
      name == wp + rest + jpg && EqualFold(wp, "WP_") && EqualFold(jpg, ".jpg")
  }

  lemma OursExactly(name: string)
    ensures IsOurs(name) <==> ImageName(name) || EqualFold(name, "ShotSnap.json")
  {
    hide Upper, IsOurs;
    if wp, rest, jpg: string :| name == wp + rest + jpg && EqualFold(wp, "WP_") && EqualFold(jpg, ".jpg") {
      PartsAreOurs(wp, rest, jpg);
    }
    if IsOurs(name) && !EqualFold(name, "ShotSnap.json") {
      OursHasParts(name);
    }
    if EqualFold(name, "ShotSnap.json") {
      IndexIsOurs(name);
    }
  }

  lemma IndexIsOurs(name: string)
    requires EqualFold(name, "ShotSnap.json")
    ensures IsOurs(name)
  {
    hide Upper;
  }

  lemma PartsAreOurs(wp: string, rest: string, jpg: string)
    requires EqualFold(wp, "WP_") && EqualFold(jpg, ".jpg")
    ensures IsOurs(wp + rest + jpg)
  {
    hide Upper;
    UpperIs("WP_", "WP_");
    UpperIs(".jpg", ".JPG");
    UpperConcat(wp, rest, jpg);
    var up := Upper(wp + rest + jpg);
    assert up[..3] == "WP_" && up[|up| - 4..] == ".JPG";
  }

  lemma OursHasParts(name: string)
    requires IsOurs(name) && !EqualFold(name, "ShotSnap.json")
    ensures ImageName(name)
  {
    hide Upper;
    var up := Upper(name);
    UpperIs("WP_", "WP_");
    UpperIs(".jpg", ".JPG");
    NoOverlap(up);
    var wp, rest, jpg := name[..3], name[3..|name| - 4], name[|name| - 4..];
    assert name == wp + rest + jpg;
    assert Upper(wp) == up[..3] && Upper(jpg) == up[|up| - 4..];
  }

  lemma UpperIs(s: string, u: string)
    requires |s| == |u| && forall i :: 0 <= i < |s| ==> UpperChar(s[i]) == u[i]
    ensures Upper(s) == u
  {
    hide Upper;
  }

  lemma UpperConcat(a: string, b: string, c: string)
    ensures Upper(a + b + c) == Upper(a) + Upper(b) + Upper(c)
  {
    hide Upper;
  }

  lemma NoOverlap(up: string)
    requires 4 <= |up| && up[..3] == "WP_" && up[|up| - 4..] == ".JPG"
    ensures |up| >= 7
  {
    assert up[0] == up[..3][0] == 'W' && up[1] == up[..3][1] == 'P' && up[2] == up[..3][2] == '_';
    assert up[|up| - 4] == up[|up| - 4..][0] == '.';
    assert up[|up| - 3] == up[|up| - 4..][1] == 'J';
    assert up[|up| - 2] == up[|up| - 4..][2] == 'P';
  }

  /** Which files a clean-up deletes. */
  datatype Pick = Everything | Ours
  {
    predicate Takes(name: string) {
      Everything? || IsOurs(name)
    }
  }

  /** The plain files directly in a folder whose name `pick` takes. */
  function FilesIn(objects: Objects, folder: nat, pick: Pick): set<nat> {
    set f | f in objects && objects[f].parent == folder && objects[f].kind == File && pick.Takes(objects[f].name)
  }

  function OurImages(objects: Objects, folder: nat): set<nat> {
    FilesIn(objects, folder, Ours)
  }

  function Picked(entries: seq<Entry>, pick: Pick): set<nat> {
    if entries == [] then {}
    else
      var n := |entries| - 1;
      var e := entries[n];
      Picked(entries[..n], pick) + if e.kind == File && pick.Takes(e.name) then {e.id} else {}
  }

  /** These are entries of the store, each listed once. */
  ghost predicate Listed(objects: Objects, entries: seq<Entry>) {
    && (forall k :: 0 <= k < |entries| ==> Shows(objects, entries[k]))
    && (forall i, j :: 0 <= i < j < |entries| ==> entries[i].id != entries[j].id)
  }

  lemma ListedAt(objects: Objects, entries: seq<Entry>, k: nat)
    requires Listed(objects, entries) && k < |entries|
    ensures Shows(objects, entries[k])
  {
  }

  lemma ListingIsListed(objects: Objects, folder: nat, entries: seq<Entry>)
    requires IsListing(objects, folder, entries)
    ensures Listed(objects, entries)
  {
  }

  lemma {:induction false} PickedFrom(entries: seq<Entry>, pick: Pick)
    ensures forall id :: id in Picked(entries, pick) <==>
                           exists j :: 0 <= j < |entries| && entries[j].id == id && entries[j].kind == File
                                       && pick.Takes(entries[j].name)
  {
    hide Pick.Takes;
    if entries != [] {
      var n := |entries| - 1;
      PickedFrom(entries[..n], pick);
      assert forall j :: 0 <= j < n ==> entries[..n][j] == entries[j];
    }
  }

  /** One more entry: not picked, or picked and counted. */
  lemma PickedOneMore(objects: Objects, entries: seq<Entry>, pick: Pick, k: nat)
    requires k < |entries| && Listed(objects, entries)
    ensures var e, picked, more := entries[k], Picked(entries[..k], pick), Picked(entries[..k + 1], pick);
            && e.id !in picked
            && (e.kind == File && pick.Takes(e.name) ==> more == picked + {e.id} && |more| == |picked| + 1)
            && (!(e.kind == File && pick.Takes(e.name)) ==> more == picked)
  {
    hide Pick.Takes;
    PickedFrom(entries[..k], pick);
    assert entries[..k + 1][..k] == entries[..k];
  }

  lemma PickedFromListing(objects: Objects, folder: nat, entries: seq<Entry>, pick: Pick)
    requires IsListing(objects, folder, entries)
    ensures Picked(entries, pick) == FilesIn(objects, folder, pick)
  {
    hide Pick.Takes, Picked;
    PickedFrom(entries, pick);
    forall f | f in FilesIn(objects, folder, pick)
      ensures f in Picked(entries, pick)
    {
      var k :| 0 <= k < |entries| && entries[k].id == f;
      assert Shows(objects, entries[k]);
    }
  }

  lemma FoundImageFolder(objects: Objects, waypointDir: nat, guid: string, slot: nat, folder: nat)
    requires slot in Slots(objects, waypointDir, guid) && folder in Named(objects, slot, "image")
    ensures folder in ImageFolders(objects, waypointDir, guid)
  {
  }

  lemma ImageFolderThere(objects: Objects, waypointDir: nat, guid: string)
    requires OneImageFolder(objects, waypointDir, guid)
    ensures Named(objects, waypointDir, guid) != {}
  {
    assert |Slots(objects, waypointDir, guid)| == 1;
  }

  lemma ImageFolderFound(objects: Objects, waypointDir: nat, guid: string, slot: nat)
    requires OneImageFolder(objects, waypointDir, guid) && slot in Named(objects, waypointDir, guid)
    ensures Named(objects, slot, "image") != {}
    ensures forall f :: f in Named(objects, slot, "image") ==> f in objects && objects[f].kind != File
  {
    OneSlot(objects, waypointDir, guid, slot);
  }

  /** Wiping its images leaves the folder. */
  lemma FolderStays(objects: Objects, folder: nat, gone: set<nat>)
    requires gone <= OurImages(objects, folder) && folder in objects
    ensures objects[folder].kind != File ==> folder in objects - gone && (objects - gone)[folder] == objects[folder]
  {
  }

  /** New objects have new, increasing numbers. */
  ghost predicate Numbered(before: Objects, ids: seq<nat>) {
    && (forall k :: 0 <= k < |ids| ==> ids[k] !in before)
    && (forall j, k :: 0 <= j < k < |ids| ==> ids[j] < ids[k])
  }

  /** The store with the first `|ids|` of the images, and the index behind them, added to a folder. */
  function AddImages(objects: Objects, folder: nat, images: seq<Image>, index: Bytes, ids: seq<nat>): Objects
    requires |ids| <= |images| + 1
  {
    if ids == [] then objects
    else
      var n := |ids| - 1;
      AddImages(objects, folder, images, index, ids[..n])[ids[n] := NewObject(folder, images, index, n)]
  }

  function NewObject(folder: nat, images: seq<Image>, index: Bytes, n: nat): Object {
    if n < |images| then Object(folder, images[n].name, File, images[n].bytes)
    else Object(folder, INDEX_NAME, File, index)
  }

  lemma AddNone(objects: Objects, folder: nat, images: seq<Image>, index: Bytes)
    ensures AddImages(objects, folder, images, index, []) == objects
  {
  }

  lemma AddOne(objects: Objects, folder: nat, images: seq<Image>, index: Bytes, ids: seq<nat>, id: nat)
    requires |ids| <= |images|
    ensures AddImages(objects, folder, images, index, ids + [id])
         == AddImages(objects, folder, images, index, ids)[id := NewObject(folder, images, index, |ids|)]
  {
    assert (ids + [id])[..|ids|] == ids;
  }

  function Members(ids: seq<nat>): set<nat> {
    set k | 0 <= k < |ids| :: ids[k]
  }

  lemma MembersSnoc(ids: seq<nat>)
    requires ids != []
    ensures Members(ids) == Members(ids[..|ids| - 1]) + {ids[|ids| - 1]}
  {
    var init := ids[..|ids| - 1];
    assert forall k :: 0 <= k < |init| ==> init[k] == ids[k];
  }

  /** What adding images amounts to, object by object. */
  lemma {:induction false} AddImagesAdds(objects: Objects, folder: nat, images: seq<Image>, index: Bytes,
                                         ids: seq<nat>)
    requires |ids| <= |images| + 1 && Numbered(objects, ids)
    ensures var after := AddImages(objects, folder, images, index, ids);
            && after.Keys == objects.Keys + Members(ids)
            && (forall id :: id in objects ==> after[id] == objects[id])
            && (forall k :: 0 <= k < |ids| ==>
                  ids[k] in after &&
                  after[ids[k]] == if k < |images| then Object(folder, images[k].name, File, images[k].bytes)
                                   else Object(folder, "ShotSnap.json", File, index))
  {
    hide Members;
    if ids == [] {
      NoMembers();
    } else {
      var init := ids[..|ids| - 1];
      assert forall k :: 0 <= k < |init| ==> init[k] == ids[k];
      MembersSnoc(ids);
      AddImagesAdds(objects, folder, images, index, init);
    }
  }

  /** What a write of properly named images added is all among what the next write deletes. */
  lemma AddedAreOurs(objects: Objects, folder: nat, images: seq<Image>, index: Bytes, ids: seq<nat>)
    requires |ids| <= |images| + 1 && Numbered(objects, ids)
    requires forall k :: 0 <= k < |images| ==> ImageName(images[k].name)
    ensures Members(ids) <= OurImages(AddImages(objects, folder, images, index, ids), folder)
    ensures OurImages(objects, folder) <= OurImages(AddImages(objects, folder, images, index, ids), folder)
  {
    hide IsOurs, ImageName, AddImages;
    AddImagesAdds(objects, folder, images, index, ids);
    forall k | 0 <= k < |ids|
      ensures ids[k] in OurImages(AddImages(objects, folder, images, index, ids), folder)
    {
      OursExactly(if k < |images| then images[k].name else "ShotSnap.json");
    }
  }

  /** After a write that deleted all the old ones, the new ones are all there are. */
  lemma OnlyAddedAreOurs(objects: Objects, folder: nat, images: seq<Image>, index: Bytes, ids: seq<nat>)
    requires |ids| <= |images| + 1 && Numbered(objects, ids)
    requires forall k :: 0 <= k < |images| ==> ImageName(images[k].name)
    ensures var left := objects - OurImages(objects, folder);
            OurImages(AddImages(left, folder, images, index, ids), folder) == Members(ids)
  {
    hide IsOurs, ImageName, AddImages;
    var left := objects - OurImages(objects, folder);
    AddedAreOurs(left, folder, images, index, ids);
    AddImagesAdds(left, folder, images, index, ids);
    assert OurImages(left, folder) == {};
  }

  /** It is only such files that a write of images deletes. */
  lemma OthersAreNotOurs(objects: Objects, folder: nat, f: nat)
    ensures f in OurImages(objects, folder) <==>
              && f in objects && objects[f].parent == folder && objects[f].kind == File
              && (ImageName(objects[f].name) || EqualFold(objects[f].name, "ShotSnap.json"))
  {
    hide IsOurs, ImageName;
    if f in objects {
      OursExactly(objects[f].name);
    }
  }

  lemma FoldedOurs(a: string, b: string)
    requires EqualFold(a, b)
    ensures IsOurs(a) == IsOurs(b)
  {
    hide Upper;
  }

  /** A write of images leaves the slot's image folder where it is. */
  lemma ImageFolderStays(before: Objects, waypointDir: nat, guid: string, folder: nat, gone: set<nat>,
                         images: seq<Image>, index: Bytes, ids: seq<nat>)
    requires Tree(before)
    requires OneImageFolder(before, waypointDir, guid) && folder in ImageFolders(before, waypointDir, guid)
    requires gone <= OurImages(before, folder) && |ids| <= |images| + 1 && Numbered(before, ids)
    requires !IsOurs(guid) && forall k :: 0 <= k < |images| ==> ImageName(images[k].name)
    ensures var after := AddImages(before - gone, folder, images, index, ids);
            && Slots(after, waypointDir, guid) == Slots(before, waypointDir, guid)
            && ImageFolders(after, waypointDir, guid) == ImageFolders(before, waypointDir, guid)
            && OneImageFolder(after, waypointDir, guid)
  {
    hide IsOurs, ImageName, AddImages, EqualFold;
    var left := before - gone;
    var after := AddImages(left, folder, images, index, ids);
    AddImagesAdds(left, folder, images, index, ids);
    forall id | id in after && id !in left
      ensures IsOurs(after[id].name) && !EqualFold(after[id].name, guid) && !EqualFold(after[id].name, "image")
    {
      var k :| 0 <= k < |ids| && ids[k] == id;
      NamedOurs(after[id].name, guid);
    }
    forall s | s in Slots(before, waypointDir, guid)
      ensures s !in gone
    {
      Singleton(Slots(before, waypointDir, guid), s);
      assert before[folder].parent == s;
    }
    assert Slots(after, waypointDir, guid) == Slots(before, waypointDir, guid);
    assert ImageFolders(after, waypointDir, guid) == ImageFolders(before, waypointDir, guid);
  }

  lemma NamedOurs(name: string, guid: string)
    requires !IsOurs(guid) && (ImageName(name) || name == "ShotSnap.json")
    ensures IsOurs(name) && !EqualFold(name, guid) && !EqualFold(name, "image")
  {
    hide IsOurs, ImageName, Upper;
    OursExactly(name);
    if EqualFold(name, guid) { FoldedOurs(name, guid); }
    if EqualFold(name, "image") {
      FoldedOurs(name, "image");
      ImageIsNotOurs();
    }
  }

  lemma ImageIsNotOurs()
    ensures !IsOurs("image")
  {
    hide Upper;
    UpperIs("image", "IMAGE");
    FoldedLength("image", INDEX_NAME);
  }

  lemma NoMembers()
    ensures Members([]) == {}
  {
  }
}
