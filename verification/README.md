# KAM Transfer: verified model of the companion daemon

The daemon connects DJI controllers, cameras and card readers to a browser: it keeps a registry of
attached devices, writes waypoint missions into slots on a controller over MTP, lists and previews
media, and drives a small front panel. This project models the parts whose correctness does not
depend on hardware and proves what they are for.

`dafny verify dfyconfig.toml` checks everything.

## How the files are organised

| file | what it models |
|---|---|
| `Kml.dfy`, `Archive.dfy` | reading a mission: the KML token loop and the choice of entry inside a KMZ |
| `Reconcile.dfy`, `Registry.dfy`, `Volumes.dfy` | the device registry: MTP handles and ADB entries as values, the same as a class updated in place, and USB volumes with a ledger of mounts |
| `Hotplug.dfy` | the hotplug pollers and the translation of ADB state changes |
| `PosterCache.dfy`, `LocateOnce.dfy` | two concurrent protocols as step relations over any number of threads |
| `ObjectStore.dfy`, `SlotContent.dfy`, `SlotWriter.dfy`, `SlotRuns.dfy` | an MTP device as a store of objects whose requests may fail, openly or silently; what belongs to a slot; the slot writes; runs in which they go wrong |
| `MediaNames.dfy`, `StableSort.dfy`, `MediaIndex.dfy`, `MtpMedia.dfy` | media listings and their indexes, on mounted volumes and over MTP |
| `Buttons.dfy`, `DisplayLoop.dfy`, `Wrap.dfy`, `LogBuffer.dfy`, `Rgb565.dfy` | the front panel: debouncing, the idle/wake/page loop, text fitting, the log tail, pixel packing |
| `Tiles.dfy` | the map behind a slot preview: tile cover, zoom and overlay, over reals |
| `SlotOrder.dfy` | the saved slot order |
| `Wrappers.dfy`, `Text.dfy`, `Totals.dfy` | optional values, results, string helpers, sums |

Code that updates state in place is a class or a method with loops, proved equal to a specification
function; theorems about whole runs are lemmas about that function. Whatever the environment decides
(does a listing succeed, does a handle answer, which thread moves next) is a parameter quantified over.
Identifiers, file names and texts are sequences of runes.

## What the proofs found

Where the code does less than its comments say, the model follows the code and the exact condition is
proved.

- A replug with the same serial between two refreshes overwrites the filed handle without closing it, and
  the cached controller keeps wrapping the lost handle (`Reconcile.ReplugLeaks`). Handles are lost exactly
  when Open reports an identifier that is still filed (`Reconcile.RunTight`).
- The comment on `Refresh` says ADB wins when both transports report a device; the MTP entry overwrites it
  (`Reconcile.MtpWins`, run in `Reconcile.BothReport`).
- A failed MTP listing drops every open handle (`Reconcile.FailedListingDropsAll`), while the hotplug poller
  ignores failed listings (`Hotplug.PollHotplug`). A handle survives a refresh exactly when the listing has a
  device at its address that is locating or answers, and opens none elsewhere under its identifier
  (`Reconcile.SurvivesIffMetAlive`).
- An unmount that fails leaves a mount that the running daemon no longer tracks (the next start cleans its
  directory); the number of mounts lost is the number of such failures
  (`Volumes.VolumeTable.ScanMassStorage`, run in `Volumes.MountLost`).
- `WriteKMZ` and `ClearSlot` ignore a failure of the listing that looks for the old mission in order to
  delete it. The slot then has two mission files although success is reported. This happens exactly when
  there is an old one and that listing fails (`SlotWriter.SlotWriter.WriteKmz`,
  `SlotWriter.SlotWriter.ClearSlot`; runs in `SlotRuns.WriteKeepsOldMission`,
  `SlotRuns.ResetKeepsOldMission`). On Linux a failing listing comes back as an empty one without an error,
  so this is the failure to expect.
- `ClearSlot` ignores every failure after the upload. The old images are gone exactly when each request that
  concerns them works, or there were none; the preview goes exactly when the device lets it be deleted (a file
  or an empty folder) and each request that concerns it works (`SlotWriter.SlotWriter.ClearSlot`, run in
  `SlotRuns.ResetKeepsImages`).
- `ClearSlot` keeps the old mission's origin exactly when both requests that read it work and the mission
  says where it starts; otherwise the placeholder starts at latitude and longitude zero
  (`SlotWriter.SlotWriter.ClearSlot`, `SlotWriter.PlacedAt`).
- `WriteWaypointImages` ignores failures of its deletions, and of its listing when that comes back empty. On
  success the old images are gone exactly when every request worked, or there were none
  (`SlotWriter.SlotWriter.WriteWaypointImages`, run in `SlotRuns.OldImageStays`).
- Nothing checks that what carries a mission file's or a preview's name is a file: an empty folder of that name
  is deleted like one, and this is the only way a folder goes. A write deletes a folder exactly when an empty
  one has the mission file's name and its requests work (`SlotContent.FolderGoesIff`); a reset, exactly when an
  empty one has the mission file's name and the reset gets as far as deleting it, or the preview's name and the
  reset succeeds with every request that concerns the preview (`SlotWriter.SlotWriter.ClearSlot`). Runs:
  `SlotRuns.EmptyFolderGoes`, `SlotRuns.EmptyPreviewFolderGoes`.
- `WriteKMZ` reports "slot not found" exactly when listing the slots fails with an error, never because the
  slot is missing; then the write fails later, at the upload.
- The event "device.authorized" is never emitted (`Hotplug.NeverAuthorized`).
- Button B does not darken the screen when the repaint that follows samples a changed signal
  (`DisplayLoop.ManualOff`).
- The last column or row of a preview map stays bare for some positions (`Tiles.CanvasCovered`,
  `Tiles.BareColumn`).
- A saved order that lists an existing GUID twice makes the slot list longer than the device's
  (`SlotOrder.PermutationIffNoRepeats`; an order that does: `SlotOrder.ListedTwice`).
- Coordinates inside an element that is decoded whole are lost: inside `author` and `createTime`, inside
  the names of a document until one is not empty, inside other coordinates, and inside an action after the
  first waypoint. The waypoints are all the placemark coordinates that parse exactly when there are none of
  these (`Kml.AllMetIffNoneLost`; a document that loses one: `Kml.HiddenCoordinateIsLost`).

## Model

| member | source | states |
|---|---|---|
| `Kml.ParseKml` | internal/kmz/extract.go:138-234 | for the tokens of any element tree, the stack-and-token loop gives what a recursive walk of the tree gives; the stack always holds the path of open elements; a decoder fault anywhere gives a syntax error; no waypoints gives an error |
| `Kml.DecodeElement` | internal/kmz/extract.go:171-175 | decoding an element consumes exactly its subtree and yields its direct character data, and fails exactly when the tokens run out before its end tag |
| `Kml.Decides` | internal/kmz/extract.go:164-223 | looking at the stack decides "decode whole" exactly when the element's path and the mission so far say so |
| `Kml.WalkSeen` | internal/kmz/extract.go:163-228 | for every document, the walk adds the coordinates and actions of a listing that carries along two bits only: whether the mission has a name, and whether it has a waypoint |
| `Kml.AddIsWaypoints` | internal/kmz/extract.go:176-194 | attaching each action to the latest waypoint gives every coordinate exactly the actions standing between it and the next |
| `Kml.MissionWaypoints` | internal/kmz/extract.go:138-234 | for every document, waypoints are the coordinates met, in document order, each with the actions met before the next; earlier actions are dropped |
| `Kml.NoMissionIff` | internal/kmz/extract.go:230-233 | any document yields no waypoints exactly when no coordinate that is met parses |
| `Kml.AllMetIffNoneLost` | internal/kmz/extract.go:167-222 | every placemark coordinate that parses is met or lost; all are met, in order, exactly when none lies inside an element that is decoded whole |
| `Kml.HiddenCoordinateIsLost` | internal/kmz/extract.go:211-222 | a document whose only coordinate is lost |
| `Kml.MissionDetails` | internal/kmz/extract.go:195-222 | of every document: the author is the trimmed text of the last author element met, the date that of the last creation time that can be read, the name the first non-empty name met directly in a Document; each is absent when there is none |
| `Kml.MetOnly` | internal/kmz/extract.go:164-223 | of every document: only coordinates, actions, authors, creation times and names are decoded whole, the first two under a placemark only |
| `Kml.MetOrInside` | internal/kmz/extract.go:195-210 | no author or creation time is passed over: each is met or lies inside an element that is decoded whole |
| `Kml.SampleMission` | internal/kmz/extract.go:138-234 | a whole document, with an action before the coordinate and a coordinate and an action outside the placemark, and its mission |
| `Kml.CoordinateFields` | internal/kmz/extract.go:240-260 | comma-separated fields are longitude, latitude and an optional altitude, whatever white space surrounds them; exactly when there are two or more and the first two can be read |
| `Archive.ExtractMission` | internal/kmz/extract.go:55-117 | the first entry, in candidate order and then archive order, that is not merely without waypoints decides: its mission or its error; "nothing usable" exactly when every one is without waypoints |
| `Archive.ExtractOther` | internal/kmz/extract.go:89-116 | the catch-all pass over other KML-like entries continues that rule |
| `Archive.ByName` | internal/kmz/extract.go:68-71 | the name table holds the last entry of each name |
| `Archive.FirstDecidesIsUnique` | internal/kmz/extract.go:55-117 | the rule admits one answer only |
| `Archive.EarliestDecides` | internal/kmz/extract.go:55-117 | in terms of the archive itself: what is returned is what the entry says whose turn comes first (the last entry named wpmz/template.kml, the last named wpmz/waylines.wpml, then those ending in .kml or .wpml in whatever case, in order) among those not merely without waypoints |
| `Reconcile.RunKeepsInv` | internal/device/detector.go:192-301 | in every run, whatever listings, opens and pings do: handles are filed under their own identifier, no two share a bus address, the controller cache has the same identifiers, no handle is closed twice or while in use |
| `Reconcile.RunNeverServesClosed` | internal/device/detector.go:220-274 | in every run, collisions included, no cached controller wraps a closed handle, and one that wraps a filed handle is cached under its identifier; so no MTP entry of the device map wraps a closed handle when the last listing names each address once |
| `Reconcile.RefreshAligns` | internal/device/detector.go:192-301 | after a refresh that lists each address once, the MTP entries of the device map are exactly the open handles, each served by its cached controller |
| `Reconcile.MtpWins` | internal/device/detector.go:162-165 | an identifier reported by both transports ends up served over MTP |
| `Reconcile.BothReport` | internal/device/detector.go:162-165 | a refresh in which both transports report one identifier |
| `Reconcile.AdbEntries` | internal/device/detector.go:182-300 | by the ADB listing itself: a serial has an ADB entry if and only if it is listed, not open over MTP, and, while any MTP handle is open, was last listed as authorized; the entry says what was last listed |
| `Reconcile.FailedListingDropsAll` | internal/device/detector.go:199-202 | a failed MTP listing drops and closes every open handle, each once |
| `Reconcile.SurvivesIffMetAlive` | internal/device/detector.go:208-274 | an open handle is still filed after a refresh if and only if a listed device at its address is locating or answers and none at another address is opened under its identifier |
| `Reconcile.NoneSurvives` | internal/device/detector.go:199-202 | so a failed or empty listing leaves none |
| `Reconcile.StepLeaks` | internal/device/detector.go:220-253 | handling one listed device loses a handle exactly when it collides with a filed identifier |
| `Reconcile.RunTight` | internal/device/detector.go:220-274 | over a whole run, controllers wrap exactly the filed handles and every handle ever opened is filed or closed, if and only if Open never reports an identifier that is still filed |
| `Reconcile.ReplugLeaks` | internal/device/detector.go:252-253 | the run of a replug: first handle lost, old controller kept |
| `Registry.Registry.FindOpenByBusDev` | internal/device/detector.go:498-505 | finds the one handle at a bus address, or says there is none |
| `Registry.Registry.ControllerFor` | internal/device/detector.go:463-474 | returns the cached controller of the handle's identifier and otherwise files a new one around the handle; nothing else changes |
| `Registry.Registry.Visit` | internal/device/detector.go:208-254 | one device of the listing moves the maps as the specification's step does, and keeps the invariant |
| `Registry.Registry.CloseStale` | internal/device/detector.go:264-274 | every handle not met is dropped with its controller and handed over to be closed once |
| `Registry.Registry.HideShadows` | internal/device/detector.go:284-300 | unauthorized ADB entries are hidden exactly while an MTP handle is open |
| `Registry.Registry.RefreshLinks` | internal/device/detector.go:166-302 | the whole ADB and MTP part, in place, equals the specification on values |
| `Registry.Registry.Refresh` | internal/device/detector.go:166-307 | a whole refresh: that result with the present media volumes registered on top |
| `Registry.RegisteredDevices` | internal/device/detector.go:166-307 | what an identifier resolves to after a whole refresh: a present media volume, else the cached controller of its open handle, else its ADB entry |
| `Volumes.VolumeTable.ScanMassStorage` | internal/device/detector.go:313-345 | after a successful scan the table holds exactly the present volumes, each probed once when new, registered exactly when it holds media; the mounts the daemon made are those of its entries plus one per failed unmount; a failed scan changes nothing |
| `Volumes.MountLost` | internal/device/detector.go:351-383 | a run in which a mount is lost |
| `Volumes.VolumeTable.ProbeVolume` | internal/device/detector.go:351-383 | what a probe records, and which mounts it leaves behind |
| `Volumes.VolumeTable.RegisterPresent` | internal/device/detector.go:320-330 | the first loop: unknown volumes probed, media volumes registered |
| `Volumes.VolumeTable.DropAbsent` | internal/device/detector.go:332-344 | absent volumes go, unmounted once if the daemon mounted them |
| `Volumes.NewRecord` | internal/device/detector.go:351-383 | what is recorded of a volume seen for the first time, by its first entry: when it is media, when the daemon must unmount it, and its directory |
| `Volumes.SanitizedName` | internal/device/detector.go:419-432 | a mount directory is a direct child of the root, named by the identifier with every rune replaced that is not an ASCII letter or digit, a minus or an underscore |
| `Volumes.VisitsRecord` | internal/device/detector.go:320-330 | a pass keeps what is on record and probes every other listed volume by its first entry |
| `Volumes.VisitsProbeOnce` | internal/device/detector.go:322-326 | each of those volumes is probed exactly once |
| `Volumes.VisitsLose` | internal/device/detector.go:365-374 | a pass loses one mount per probe whose unmount fails |
| `Hotplug.PollHotplug` | internal/device/detector.go:935-980 | for every sequence of scans, replaying the events from nothing gives the last successful scan, each device's events alternate starting with connected, failed scans emit nothing, and a tick emits each difference once |
| `Hotplug.Tick` | internal/device/detector.go:960-977 | one comparison emits exactly what went, then exactly what came |
| `Hotplug.SensibleAlternates` | internal/device/detector.go:960-977 | events that never connect a present device or disconnect an absent one alternate, device by device |
| `Hotplug.EdgesAlternate` | internal/device/detector.go:1032-1046 | along any chain of ADB states, connected and disconnected alternate and tell at the end whether the device is there |
| `Hotplug.NeverAuthorized` | internal/device/detector.go:1041-1042 | no state change is ever announced as authorized |
| `Hotplug.Announced` | internal/device/detector.go:1032-1046 | which change of state is announced as which event, each if and only if |
| `PosterCache.OneExtraction` | internal/device/massstorage_controller.go:280-315 | in any interleaving at most one call extracts or stores, and only for a path not cached |
| `PosterCache.ExtractedOnce` | internal/device/massstorage_controller.go:280-331 | a path is stored at most once; extractions begun for it exceed the ones ended by a missing tool by at most one |
| `PosterCache.CacheIsStable` | internal/device/massstorage_controller.go:324-331 | cache entries, posters or refusals, never change |
| `PosterCache.NeverExtractedAgain` | internal/device/massstorage_controller.go:290-303 | once a path has an entry, no extraction of it begins |
| `PosterCache.AnswersAgree` | internal/device/massstorage_controller.go:280-322 | all calls returning a poster for a path return the same bytes |
| `PosterCache.EntriesAreExtracted` | internal/device/massstorage_controller.go:303-315 | over every run, told from its actions: an entry is a poster if and only if some call for the path extracted that poster and then stored it, and a failure if and only if one failed and then stored that |
| `PosterCache.AnswersAreExtracted` | internal/device/massstorage_controller.go:280-315 | a call whose own extraction succeeded returns that poster, one whose failed or found no tool returns none; any poster returned was extracted for its path, and there is none only if a call for the path failed or found no tool |
| `PosterCache.CachedNeedsNoTurn` | internal/device/massstorage_controller.go:281-286 | a cached path is answered without waiting for the semaphore |
| `PosterCache.NoDeadlock` | internal/device/massstorage_controller.go:290-291 | while a call is unfinished, some call can move |
| `PosterCache.EveryCallFinishes` | internal/device/massstorage_controller.go:280-331 | a run of n calls has at most 7n steps however they alternate, and when nothing but a new call is possible every call has its answer |
| `LocateOnce.OneWalk` | internal/device/mtp_controller.go:115-151 | in any interleaving the walk starts at most once, its channel is closed at most once, its callback runs at most once |
| `LocateOnce.CloseIsSafe` | internal/device/mtp_controller.go:141-151 | the channel is open and not nil when it is closed |
| `LocateOnce.WaitersAreServed` | internal/device/mtp_controller.go:130-139 | no waiter blocks on a nil channel or returns before the walk has written its results |
| `LocateOnce.ResultsAreStable` | internal/device/mtp_controller.go:167-239 | after the channel is closed, kind, folders and error never change |
| `LocateOnce.UnlockedReadsAgree` | internal/device/mtp_controller.go:130-139 | unlocked reads after awaiting all see the same final fields |
| `LocateOnce.ResultsAreTheVerdict` | internal/device/mtp_controller.go:141-239 | over every run: once the channel is closed there has been one verdict, fields and error are what it says, and so are every error returned by awaiting and every unlocked read |
| `LocateOnce.NothingBeforeTheClose` | internal/device/mtp_controller.go:124-139 | before the close nobody is past its wait and nothing has been read, and before the verdict nothing is written |
| `LocateOnce.LocatingMeansWalking` | internal/device/mtp_controller.go:97-109 | `isLocating` is true exactly while the walk is being started or has not closed its channel |
| `LocateOnce.NoDeadlock` | internal/device/mtp_controller.go:115-151 | an unfinished thread can always be moved along |
| `LocateOnce.EveryThreadFinishes` | internal/device/mtp_controller.go:97-151 | n calls take at most 10n steps, the walk's included, besides reads of the fields; when nothing but a new call or such a read is possible every thread has finished or got past its wait |
| `LocateOnce.AwaitGetsTheVerdict` | internal/device/mtp_controller.go:115-151 | once nothing but a new call or a read is possible and somebody started or awaited the walk: one verdict, channel closed once, callback run once, and whoever awaited returns what the verdict says |
| `ObjectStore.Device.ListDir` | internal/mtp/client_linux.go:188-201 | a listing that is carried out shows the folder's children, each once; one that is not is an error or comes back empty |
| `ObjectStore.Device.GetFile` | internal/mtp/client.go:139-143 | reads files only |
| `ObjectStore.Device.Delete` | internal/mtp/client.go:182-187 | deletes exactly the object, and only a file or an empty folder |
| `ObjectStore.Device.PutFile` | internal/mtp/client.go:173-180 | adds exactly one new file, or nothing |
| `ObjectStore.Device.FindChild` | internal/device/mtp_controller.go:613-624 | finds a child of that name ignoring case, or, if the listing was carried out, says truly that there is none |
| `SlotWriter.SlotWriter.DropChild` | internal/device/mtp_controller.go:403-407 | deletes the child a lookup finds; a lookup that fails counts as finding none |
| `SlotWriter.SlotWriter.WriteKmz` | internal/device/mtp_controller.go:389-422 | removes at most what goes for the slot's mission file and adds at most the new one, nothing else; success if and only if the new one is there; with one old file at most, the exact mission files afterwards, and exactly when the new one is the only one; exactly what is deleted, a file or an empty folder; exactly when the slot is reported missing; in a writable slot, exactly which requests success needs; exactly when a failed deletion is reported |
| `SlotWriter.SlotWriter.ReadKmz` | internal/device/mtp_controller.go:493-507 | returns the bytes of a mission file of the slot; with one at most, exactly when it succeeds; which error says what |
| `SlotWriter.SlotWriter.SwapKmz` | internal/device/mtp_controller.go:399-415 | the lookup, deletion and upload common to a write and a reset |
| `SlotWriter.SlotWriter.WriteWaypointImages` | internal/device/mtp_controller.go:436-488 | only files of the slot's image folder that follow the naming of waypoint images go; success if and only if every image and the index were added, in order; on success all old ones are gone if and only if every request worked or there were none; with one image folder, exactly which requests success needs; when the classification failed or the slot is missing, and what is then untouched |
| `SlotWriter.SlotWriter.WipeFiles` | internal/device/mtp_controller.go:454-466 | deletes only listed plain files that are picked, one request each, and all of them if and only if every request works |
| `SlotWriter.SlotWriter.PutImages` | internal/device/mtp_controller.go:467-486 | uploads in order, stops at the first failure, succeeds if and only if every request works |
| `SlotWriter.SlotWriter.ClearSlot` | internal/device/mtp_controller.go:546-609 | only the slot's mission, image files and preview go, and no folder that is not empty; until the placeholder is in place only the mission file is touched; exactly when reset succeeds, where the placeholder starts, which mission files there are afterwards, when the images are all gone and which previews are; exactly when a folder goes, whether or not the reset succeeds; when the classification failed or the slot is missing, and what is then untouched |
| `SlotWriter.SlotWriter.Place` | internal/device/mtp_controller.go:550-583 | the first half of a reset: exactly when the placeholder is in place, and which mission file is deleted |
| `SlotWriter.SlotWriter.CleanUp` | internal/device/mtp_controller.go:585-607 | the wiping after the placeholder: all images go if and only if each of their requests works; with one preview at most, file or folder, it goes if and only if it can be deleted and each of its requests works |
| `SlotWriter.SlotWriter.BuildPlaceholder` | internal/device/mtp_controller.go:555-572 | the placeholder starts at the found mission's origin if it can be read and says so, else at zero |
| `SlotWriter.PlacedAt` | internal/device/mtp_controller.go:555-572 | with one mission file at most, exactly when its origin is kept |
| `SlotWriter.ResetKmz` | internal/device/mtp_controller.go:574-607 | with one old mission file at most, the exact mission files after a reset, and exactly when the new one is the only one |
| `SlotWriter.ResetContent` | internal/device/mtp_controller.go:574-607 | from what the requests did to what is left of the slot's old mission, images and preview, the last a file or a folder |
| `SlotContent.KmzFilesAfter` | internal/device/mtp_controller.go:389-422 | swapping mission files leaves the slot folders alone |
| `SlotContent.OnlyKmz` | internal/device/mtp_controller.go:403-415 | the new mission file is the only one if and only if there was none or the old one was deleted |
| `SlotContent.ContentAfter` | internal/device/mtp_controller.go:585-607 | the slot's contents after a clean-up are those before without what was removed |
| `SlotContent.AllGone` | internal/device/mtp_controller.go:574-607 | mission, images and preview do not overlap: everything is gone if and only if each is |
| `SlotContent.FolderGoesIff` | internal/device/mtp_controller.go:403-407 | a write deletes a folder if and only if an empty one has the mission file's name and the requests work |
| `SlotContent.ResetFolderGoesIff` | internal/device/mtp_controller.go:574-607 | a reset deletes a folder if and only if an empty one has the mission file's name or the preview's and the requests that concern it work |
| `SlotContent.PreviewsStayDeletable` | internal/device/mtp_controller.go:574-607 | swapping the mission and wiping the images does not change which previews can be deleted |
| `SlotContent.NoFolderGoes` | internal/device/mtp_controller.go:546-609 | even if names match several objects, no folder goes when only files carry them |
| `SlotContent.AddImagesAdds` | internal/device/mtp_controller.go:467-486 | the added files are new, in the image folder, image by image with its name and bytes and then ShotSnap.json, and nothing else changed |
| `SlotContent.OursExactly` | internal/device/mtp_controller.go:459-465 | a file counts as a rendered image or its index if and only if, in whatever case, it begins with WP_ and ends in .jpg, or is ShotSnap.json |
| `SlotContent.AddedAreOurs` | internal/device/mtp_controller.go:459-486 | all that a write of properly named images adds, the index included, is among what the next write deletes |
| `SlotContent.OnlyAddedAreOurs` | internal/device/mtp_controller.go:454-486 | after a write that deleted all the old ones, the files that count as such are exactly the new ones |
| `SlotContent.ImageFolderStays` | internal/device/mtp_controller.go:436-488 | a write of images leaves the slot and its image folder where they are |
| `SlotRuns.WriteKeepsOldMission` | internal/device/mtp_controller.go:403-407 | a run in which the write succeeds and the slot has two mission files |
| `SlotRuns.ResetKeepsOldMission` | internal/device/mtp_controller.go:576-580 | the same in a reset |
| `SlotRuns.ResetKeepsImages` | internal/device/mtp_controller.go:588-598 | a reset that succeeds with old images left |
| `SlotRuns.OldImageStays` | internal/device/mtp_controller.go:454-466 | a write of images that succeeds with an old one left |
| `SlotRuns.SecondWriteClears` | internal/device/mtp_controller.go:436-488 | on any device with one image folder: after two successful writes, the second with every request carried out, nothing the first added is left, the images there are those of the second, and every other file is as it was |
| `SlotRuns.WriteThenRead` | internal/device/mtp_controller.go:389-507 | on any device: what a write put there is what a read returns, unless the lookup before the delete failed with an old file there |
| `SlotRuns.EmptyFolderGoes` | internal/device/mtp_controller.go:403-407 | a write that deletes an empty folder |
| `SlotRuns.EmptyPreviewFolderGoes` | internal/device/mtp_controller.go:601-607 | a reset that deletes an empty folder named like the preview |
| `MediaNames.FsKeysMeanSameClip` | internal/device/massstorage_controller.go:361-364 | two paths have one key exactly when they share directory and base name, ignoring case |
| `MediaNames.MtpKeysMeanSameClip` | internal/device/mtp_controller.go:824-827 | two entries have one key exactly when they share parent and base name, ignoring case |
| `MediaNames.ParseFormat` | internal/device/mtp_controller.go:843-849 | a formatted identifier parses back to its number exactly when that fits 32 bits |
| `MediaNames.IdentifiersOf` | internal/device/mtp_controller.go:843-849 | the texts that parse to a number are its decimal digits after any zeros, with white space around them, for numbers below 2^32 |
| `MediaNames.PathParts` | internal/device/massstorage_controller.go:361-364 | directory, name, extension and stem of a path put together from them |
| `MediaNames.Kinds` | internal/device/mtp_controller.go:830-839 | which extensions, in whatever case, make a photo, a video and a proxy clip |
| `StableSort.SortedIsStable` | internal/device/massstorage_controller.go:140 | newest first, a permutation, and stable |
| `MediaIndex.ListedNewestFirst` | internal/device/massstorage_controller.go:140 | the same for the files of a listing |
| `MediaIndex.Visit` | internal/device/massstorage_controller.go:109-135 | the walk's callback collects the media files in order and pairs each recording with its last proxy clip |
| `MediaIndex.Volume.Scan` | internal/device/massstorage_controller.go:99-168 | the listing shows the found files newest first with identifiers counting from 1, and rebuilds the index to match |
| `MediaIndex.Volume.EnsureIndex` | internal/device/massstorage_controller.go:172-180 | the index is built once and then left alone |
| `MediaIndex.Volume.PathFor` | internal/device/massstorage_controller.go:183-198 | an identifier resolves to the file at its list position, and only those of the listing resolve |
| `MediaIndex.Volume.PreviewFilePath` | internal/device/massstorage_controller.go:339-357 | what plays for an identifier is the preview of its own file |
| `MediaIndex.ListedIdsResolve` | internal/device/massstorage_controller.go:145-149 | up to 2^32 files, every listed identifier leads back to its own position |
| `MediaIndex.ItemsShowFiles` | internal/device/massstorage_controller.go:99-168 | a scan shows the readable photos and videos of the walk and nothing else, each with its name, kind, size and time |
| `MediaIndex.MediaConcat` | internal/device/massstorage_controller.go:109-135 | files are collected in the order of the walk |
| `MediaIndex.PreviewIsOwnClip` | internal/device/massstorage_controller.go:339-357 | a video plays a proxy clip of its own recording when the walk found one, else itself; a photo never previews |
| `MtpMedia.CollectFiles` | internal/device/mtp_controller.go:709-731 | the recursion returns the files at most nine listings deep, in order, and fails exactly when a folder within that depth cannot be listed |
| `MtpMedia.Camera.ScanMedia` | internal/device/mtp_controller.go:665-706 | the listing is the media files sorted newest first, the index holds exactly them, each video paired with its proxy clip; a failed walk changes nothing |
| `MtpMedia.PairUp` | internal/device/mtp_controller.go:672-677 | the pairing table holds, for every file, the last proxy clip of its recording |
| `MtpMedia.ListedIdsResolve` | internal/device/mtp_controller.go:753-768 | every listed identifier leads back to its own file, and previews exactly when it is paired |
| `MtpMedia.ItemsShowFiles` | internal/device/mtp_controller.go:665-706 | a scan shows the media files collected and nothing else, each with its name, kind, size and time, previewing if and only if it is a video with a proxy clip |
| `MtpMedia.ScanReaches` | internal/device/mtp_controller.go:709-731 | by paths: a file is collected if and only if it is at the end of a path of nine steps at most through folders that can be listed; the walk fails if and only if a path of eight at most ends at a folder that cannot |
| `MtpMedia.BelowConcat` | internal/device/mtp_controller.go:709-731 | files are collected in the order of the listings |
| `Buttons.Debouncer.Tick` | internal/display/hat_linux.go:185-215 | after any samples the level is the last reading seen twice in a row, and the presses emitted are one per hold of the steady samples: long once held past the threshold, else short on release |
| `Buttons.OneEventPerHold` | internal/display/hat_linux.go:200-215 | every finished hold has exactly one event; one under way at most one |
| `Buttons.OneHold` | internal/display/hat_linux.go:200-215 | a hold is reported long if and only if some steady sample saw it past the threshold |
| `Buttons.LongAndShort` | internal/display/hat_linux.go:200-215 | three seconds make a long press, reported at once; less makes a short one, reported on release |
| `Buttons.GlitchIgnored` | internal/display/hat_linux.go:186-197 | a one-sample glitch changes neither the level nor the presses |
| `DisplayLoop.Loop.constructor` | internal/display/display.go:138-194 | starts on the status page, lit, with one repaint |
| `DisplayLoop.Loop.Handle` | internal/display/display.go:196-255 | for everything received, the loop's state is the specification's run; after every command: the backlight is at the configured level exactly when the screen is on, nothing was painted on a dark panel, the status LED is lit exactly when the screen is, a lit screen shows the current page, power-off was commanded exactly when the loop ended |
| `DisplayLoop.Loop.OnTick` | internal/display/display.go:201-205 | one tick, and exactly which commands it gives |
| `DisplayLoop.Loop.OnChange` | internal/display/display.go:207-219 | a registry event wakes and repaints, and exactly which commands that takes |
| `DisplayLoop.Loop.OnPress` | internal/display/display.go:221-253 | a press does what the specification's step says, and exactly which commands that takes: farewell and power-off at the gesture |
| `DisplayLoop.Loop.Draw` | internal/display/display.go:177-193 | repaints only while lit, wakes exactly on a changed signal, and these are all the commands |
| `DisplayLoop.QuietRun` | internal/display/display.go:201-205 | while nothing happens the whole state stays, except that the screen is dark from the first tick that finds the idle limit passed |
| `DisplayLoop.TimerRunsFromActivity` | internal/display/display.go:157-186 | the idle timer runs from the last event, press or changed signal and from nothing else |
| `DisplayLoop.LitMeansRecent` | internal/display/display.go:201-205 | a screen still lit after a tick has seen activity within the limit |
| `DisplayLoop.LightAndDark` | internal/display/display.go:157-255 | exactly what lights a dark screen (an event, a press, a tick with a new signal) and what darkens a lit one (an idle tick, B without a new signal) |
| `DisplayLoop.ShutdownNeedsGesture` | internal/display/display.go:242-246 | power-off happens exactly at a long press of Y on a lit screen with shutdown allowed |
| `DisplayLoop.BlindPressOnlyWakes` | internal/display/display.go:225-231 | a press on a dark screen wakes it and does nothing else |
| `DisplayLoop.FlipsGoRound` | internal/display/display.go:233-239 | presses of A and X go round the pages, one at a time |
| `DisplayLoop.CodeComesAndGoes` | internal/display/display.go:233-252 | Y overlays the address code; A, X or Y take it away and lead to the status page |
| `DisplayLoop.ManualOff` | internal/display/display.go:240-253 | B darkens the screen except when a new signal is sampled at once, and leaves the page as it is |
| `Wrap.WrapToWidth` | internal/display/render.go:379-415 | for any notion of fitting: rows lie in the text in order with only spaces between them, none begins with a space, each fits or is one rune, and no row could have taken the next word, or the next rune of a broken word |
| `Wrap.WrappedIsSound` | internal/display/render.go:379-415 | such rows hold the text up to spaces |
| `Wrap.TruncateToWidth` | internal/display/render.go:512-525 | the text if it fits, else its longest proper prefix that fits with an ellipsis, else the ellipsis |
| `Wrap.LogRows` | internal/display/render.go:341-373 | the Logs page shows the last rows of all lines wrapped, continuation and newest rows marked |
| `LogBuffer.Buffer.Push` | internal/display/servicelog.go:52-63 | for every history, the buffer is the last entries of its run-length encoding |
| `LogBuffer.Buffer.Snapshot` | internal/display/servicelog.go:65-77 | shows those entries, with a count when repeated |
| `LogBuffer.FoldedHasMaximalRuns` | internal/display/servicelog.go:55-58 | runs are never empty and never next to a run of the same line |
| `LogBuffer.UnfoldedFolded` | internal/display/servicelog.go:55-58 | expanding the encoding gives the history back |
| `LogBuffer.BufferIsSuffix` | internal/display/servicelog.go:52-63 | the buffer stands for a suffix of the history, the whole of it while it is not full |
| `LogBuffer.FloodTakesOneEntry` | internal/display/servicelog.go:52-63 | however often a line is repeated it takes one entry with its count, so a flood drives out nothing else |
| `LogBuffer.LineSays` | internal/display/servicelog.go:65-77 | a line is shown alone if it came once, and with its count if it came twice or more |
| `LogBuffer.SamplePage` | internal/display/servicelog.go:65-77 | a history with repeats and its page |
| `Rgb565.ToRgb565` | internal/display/st7789_linux.go:167-187 | fills exactly two bytes a pixel, big-endian; rotated output is the unrotated words in reverse |
| `Rgb565.PixelIsSent` | internal/display/st7789_linux.go:167-187 | where the pixel in column x of row y ends up, upright and upside down, and that its byte pair is (r/8)*2048 + (g/4)*32 + b/8 of its own bytes |
| `Rgb565.WordValue` | internal/display/st7789_linux.go:180 | a word is (r/8)*2048 + (g/4)*32 + b/8 |
| `Rgb565.ChannelLoss` | internal/display/st7789_linux.go:180 | a channel loses less than 8, 4 and 8 levels and never brightens |
| `Rgb565.Send` | internal/display/st7789_linux.go:150-156 | chunks of at most 4096 bytes, full but for the last, concatenate to the buffer, or on failure to the part before the failing transfer |
| `Tiles.DrawMap` | internal/preview/generator.go:200-243 | centres on the padded box at the deepest zoom that fits, and draws every tile of the canvas row by row, or stops at the first that cannot be fetched |
| `Tiles.DrawTiles` | internal/preview/generator.go:231-241 | the two loops |
| `Tiles.CoverTiles` | internal/preview/generator.go:226-241 | the draws are one for each tile of the range, at the place of its own column and row |
| `Tiles.CoverInOrder` | internal/preview/generator.go:231-241 | draw number j times the columns plus i is the tile in column i of row j |
| `Tiles.CanvasCovered` | internal/preview/generator.go:226-241 | a pixel is painted if and only if it is not in a bare last column or row |
| `Tiles.CoveredColumns` | internal/preview/generator.go:226-241 | on one axis a position is covered if and only if it is not the last one with the tiles ending short of it |
| `Tiles.BareColumn` | internal/preview/generator.go:200-241 | a mission with one waypoint whose map, on the default canvas, has its last column bare |
| `Tiles.NeighboursTouch` | internal/preview/generator.go:237-239 | neighbouring tiles touch, or overlap by one column where the offset changes sign |
| `Tiles.PlacedWithinAPixel` | internal/preview/generator.go:237-239 | a tile is drawn less than a pixel from its exact place |
| `Tiles.RangeMeetsCanvas` | internal/preview/generator.go:226-229 | the range is not empty, starts at or before the canvas, and every tile of it shows |
| `Tiles.OverlayMeetsTiles` | internal/preview/generator.go:191-194 | for every tile drawn: overlay and imagery agree to less than a pixel, across and down |
| `Tiles.WaypointsOnCanvas` | internal/preview/generator.go:200-243 | when the padded box fits, every waypoint's column is on the canvas |
| `Tiles.BoundingBox` | internal/preview/generator.go:581-599 | the box holds every waypoint, and is tight for coordinates in the usual ranges |
| `Tiles.ChooseZoom` | internal/preview/generator.go:604-614 | the deepest zoom that fits, or the shallowest when none does |
| `Tiles.FitsOnCanvas` | internal/preview/generator.go:604-626 | a box fits if and only if it is no wider and no higher on the canvas than the canvas |
| `Tiles.PaddedWidens` | internal/preview/generator.go:204-216 | padding keeps the middle and adds three tenths each way, 0.00015 degrees to a box without width |
| `Tiles.CentredOnMiddle` | internal/preview/generator.go:218-224 | the middle of the padded box is the middle of the canvas |
| `Tiles.FitsShallower` | internal/preview/generator.go:604-626 | what fits at one zoom fits at every shallower one |
| `SlotOrder.Reorder` | internal/slotorder/store.go:89-111 | the table-and-marks loops give the listed items in the list's order, then the rest as they came |
| `SlotOrder.LastCounts` | internal/slotorder/store.go:93-96 | of items with one GUID the last counts |
| `SlotOrder.ListedFirst` | internal/slotorder/store.go:97-104 | listed items appear in the list's order, one per mention of a GUID that exists |
| `SlotOrder.RestUnlisted` | internal/slotorder/store.go:105-109 | the rest are exactly the items not listed |
| `SlotOrder.Idempotent` | internal/slotorder/store.go:89-111 | applying the order again changes nothing, for all inputs |
| `SlotOrder.GrowsByRepeats` | internal/slotorder/store.go:97-104 | with distinct GUIDs the output has the items' GUIDs once, and once more per repeated mention |
| `SlotOrder.PermutationIffNoRepeats` | internal/slotorder/store.go:89-111 | with distinct GUIDs the output is a rearrangement if and only if no existing GUID is listed twice |
| `SlotOrder.ListedTwice` | internal/slotorder/store.go:97-104 | an order that lists a slot twice shows it twice |

## Left out

- HTTP handlers, authentication, the command line, configuration, the web interface and the install scripts: wiring without a property of this kind.
- libmtp, ADB, mounting, SPI and GPIO, ffmpeg, journalctl and tile fetching: each appears only as an outcome the environment chooses.
- XML and ZIP lexing, and the size limit on a KMZ: a document is a well-nested token sequence or a prefix of one ending in a fault; the decoder's nesting limit of 10000 is not modelled.
- Number readers (`ParseFloat`, `ParseInt`) are parameters; coordinates are reals, without NaN or rounding.
- Letter case and white space: case mapping is that of ASCII letters.
- Reconcile.RefreshAligns: for listings that name each bus address once; the source takes this from the bus.
- Reconcile.RunNeverServesClosed: what it says of the device map is for last listings that name each bus address once.
- Reconcile.SurvivesIffMetAlive: for listings that name each bus address once.
- Reconcile.RunTight: closing a stale handle is counted when it is handed over to the goroutine that closes it.
- Registry.Registry.Refresh: handles are values with the number of their Open call, not shared objects; a handle's identifier changing while it is open is not modelled.
- Hotplug.PollHotplug: the events are those the poller sends; a context cancelled in the middle of a tick is not modelled. `pollBlockHotplug` is the same loop over volume identifiers.
- Volumes.VolumeTable.ScanMassStorage: `cleanMassStorageDir` at start-up, and what makes a media layout, are not modelled.
- LocateOnce.ResultsAreStable: the walk's content (`classify`) is an arbitrary verdict; which folders it prefers is not modelled.
- ObjectStore.Device.PutFile: a failed upload leaves no partial object; identifiers are never reused and do not wrap.
- SlotWriter.SlotWriter.ClearSlot: reading a mission's origin and building a placeholder are function parameters; what is left of the images and the preview, and when a folder goes, is stated for names that match one object each, file or folder, and a GUID of 36 characters, which is what the API accepts; what is left of the mission files, for one slot and one old file at most.
- SlotContent.NoFolderGoes: with several objects of one name the device's order of listing decides which is deleted, so here only that no folder goes when none has the name; the exact condition for one object each is `SlotContent.ResetFolderGoesIff`.
- SlotWriter.SlotWriter.WriteWaypointImages: the contents of the image index are a function of the images, not its JSON.
- MediaIndex.Volume.Scan: which directories the walk enters (hidden ones are skipped) is the environment's; the order of visits is a parameter. More than 2^32 files would reuse identifiers.
- MtpMedia.Camera.ScanMedia: the index is described for distinct object identifiers, as MTP assigns them.
- Buttons.Debouncer.Tick: an event dropped because the reader is busy still counts as emitted; rotating the button with the screen is not modelled.
- DisplayLoop.Loop.Handle: what the pages and the status LED show, and failures of panel commands, are not modelled; the clock is two readings per input.
- Wrap.WrapToWidth: fonts are an arbitrary predicate on texts.
- Rgb565.Send: the address-window commands before the pixels.
- Tiles.WaypointsOnCanvas: only the column; the vertical centre is the mean latitude, which the projection does not map to the middle of the canvas.
- Tiles.DrawMap: the projection of latitudes is an arbitrary function; conversion of huge coordinates to integers does not overflow.
- The names and managed stores, PiSugar readings, the health LED, `parseLsblk`, `RewriteForGUID`: true but easy, or little that the code itself promises.
