/**
 The media listing of a mounted volume. What the directory walk visits, in its order, comes from the
 environment; so do sizes and times.
 */
module MediaIndex {
  import opened Wrappers
  import opened MediaNames
  import StableSort

  /** A file the walk visits; its information may be unreadable. */
  datatype File = File(path: string, modified: int, size: int, readable: bool)

  datatype Item = Item(id: string, name: string, kind: Kind, size: int, modified: int, hasPreview: bool)

  datatype Error = MediaNotFound

  function KindOf(f: File): Kind {
    MediaKind(Base(f.path))
  }

  /** The photos and videos among the visited files. */
  function Media(visits: seq<File>): seq<File> {
    if visits == [] then []
    else
      var f := visits[|visits| - 1];
      Media(visits[..|visits| - 1]) +
      if !IsProxy(f.path) && KindOf(f) != NoMedia && f.readable then [f] else []
  }

  /** The last visited proxy clip of this recording. */
  function ProxyOf(visits: seq<File>, path: string): Option<string> {
    if visits == [] then None
    else
      var f := visits[|visits| - 1];
      if IsProxy(f.path) && SameClip(f.path, path) then Some(f.path) else ProxyOf(visits[..|visits| - 1], path)
  }

  /** Newest first; files of the same moment stay in the order of the walk. */
  function Sorted(files: seq<File>): seq<File> {
    StableSort.Sorted(files, ModifiedOf)
  }

  function ModifiedOf(f: File): int {
    f.modified
  }

  lemma ListedNewestFirst(files: seq<File>)
    ensures forall i, j :: 0 <= i < j < |Sorted(files)| ==> Sorted(files)[i].modified >= Sorted(files)[j].modified
    ensures multiset(Sorted(files)) == multiset(files)
    ensures forall t :: StableSort.Of(Sorted(files), ModifiedOf, t) == StableSort.Of(files, ModifiedOf, t)
  {
    StableSort.SortedIsStable(files, ModifiedOf);
    var sorted := Sorted(files);
    forall i, j | 0 <= i < j < |sorted|
      ensures sorted[i].modified >= sorted[j].modified
    {
      assert ModifiedOf(sorted[i]) >= ModifiedOf(sorted[j]);
    }
  }

  // ---- Identifiers ------------------------------------------------------------------------

  /** The identifier of list position i: counting from 1 in 32 bits. */
  function Id(i: nat): (id: nat)
    ensures id < UINT32
  {
    (i + 1) % UINT32
  }

  /** The list position a request's identifier names, if any. */
  function PositionOf(n: nat, id: string): (i: Option<nat>)
    ensures i.Some? ==> i.value < n
  {
    match ParseObjectId(id)
    case None => None
    case Some(oid) =>
      var i := if oid == 0 then UINT32 - 1 else oid - 1;
      if i < n then Some(i) else None
  }

  lemma IdsDiffer(i: nat, j: nat)
    requires i < UINT32 && j < UINT32
    ensures Id(i) == Id(j) <==> i == j
    ensures i == if Id(i) == 0 then UINT32 - 1 else Id(i) - 1
  {
  }

  /** Every identifier in a listing leads back to its own position, until the listing outgrows 32 bits. */
  lemma ListedIdsResolve(n: nat, i: nat)
    requires i < n <= UINT32
    ensures PositionOf(n, Format(Id(i))) == Some(i)
  {
    hide Format, ParseObjectId;
    ParseFormat(Id(i));
    IdsDiffer(i, i);
  }

  function ItemFor(i: nat, f: File): Item {
    Item(Format(Id(i)), Base(f.path), KindOf(f), f.size, f.modified, KindOf(f) == Video)
  }

  /** The file a preview plays: the recording's proxy clip if one was found, else the video itself. */
  function PreviewOf(visits: seq<File>, f: File): Result<string, Error> {
    if KindOf(f) != Video then Err(MediaNotFound)
    else
      match ProxyOf(visits, f.path)
      case Some(proxy) => Ok(proxy)
      case None => Ok(f.path)
  }

  // ---- The controller's index -------------------------------------------------------------

  /** The pairing table of a walk: a key is there exactly when a file with that key has a proxy clip. */
  ghost predicate Pairs(lrf: map<string, string>, visits: seq<File>) {
    forall path :: (FsProxyKey(path) in lrf <==> ProxyOf(visits, path).Some?)
                   && (FsProxyKey(path) in lrf ==> ProxyOf(visits, path) == Some(lrf[FsProxyKey(path)]))
  }

  /** The tables hold the first n files. */
  ghost predicate Holds(byId: map<nat, string>, proxies: map<nat, string>, visits: seq<File>, files: seq<File>,
                        n: nat)
    requires n <= |files|
  {
    && (forall id :: id in byId ==> exists i :: 0 <= i < n && Id(i) == id)
    && proxies.Keys <= byId.Keys
    && forall i :: 0 <= i < n ==> Entry(byId, proxies, visits, files[i], Id(i))
  }

  ghost predicate Entry(byId: map<nat, string>, proxies: map<nat, string>, visits: seq<File>, f: File, id: nat) {
    && id in byId && byId[id] == f.path
    && (id in proxies <==> KindOf(f) == Video && ProxyOf(visits, f.path).Some?)
    && (id in proxies ==> ProxyOf(visits, f.path) == Some(proxies[id]))
  }

  class Volume {
    var mediaById: Option<map<nat, string>>
    var lrfByVideo: map<nat, string>
    ghost var visits: seq<File>

    /** What the last scan listed. */
    ghost function Files(): seq<File>
      reads this
    {
      Sorted(Media(visits))
    }

    ghost predicate Valid()
      reads this
    {
      mediaById.Some? && |Files()| <= UINT32 ==> Holds(mediaById.value, lrfByVideo, visits, Files(), |Files()|)
    }

    constructor ()
      ensures Valid() && mediaById.None?
    {
      mediaById, lrfByVideo, visits := None, map[], [];
    }

    /** Walks the volume and rebuilds the index. */
    method Scan(walk: seq<File>) returns (items: seq<Item>)
      modifies this
      ensures Valid() && mediaById.Some? && visits == walk
      ensures |items| == |Sorted(Media(walk))|
      ensures forall i :: 0 <= i < |items| ==> items[i] == ItemFor(i, Sorted(Media(walk))[i])
      ensures forall i, j :: 0 <= i < j < |items| ==> items[i].modified >= items[j].modified
    {
      hide Holds, Media, Sorted, ProxyOf, Pairs, Base, MediaKind, FsProxyKey, Format;
      var files, lrf := Visit(walk);
      files := Sorted(files);
      var byId: map<nat, string> := map[];
      var proxies: map<nat, string> := map[];
      items := [];
      HoldsNothing(walk, files);
      for i := 0 to |files|
        invariant |items| == i
        invariant forall k :: 0 <= k < i ==> items[k] == ItemFor(k, files[k])
        invariant |files| <= UINT32 ==> Holds(byId, proxies, walk, files, i)
      {
        var f, id := files[i], (i + 1) % UINT32;
        ghost var before := proxies;
        var kind := MediaKind(Base(f.path));
        items := items + [Item(Format(id), Base(f.path), kind, f.size, f.modified, kind == Video)];
        PairsFor(lrf, walk, f.path);
        if kind == Video && FsProxyKey(f.path) in lrf {
          proxies := proxies[id := lrf[FsProxyKey(f.path)]];
        }
        if |files| <= UINT32 {
          HoldsOneMore(byId, before, proxies, walk, files, i);
        }
        byId := byId[id := f.path];
      }
      mediaById, lrfByVideo := Some(byId), proxies;
      visits := walk;
      ListedNewestFirst(Media(walk));
    }

    /** The index is built once if a reader comes first. */
    method EnsureIndex(walk: seq<File>)
      requires Valid()
      modifies this
      ensures Valid() && mediaById.Some?
      ensures visits == if old(mediaById.Some?) then old(visits) else walk
      ensures old(mediaById.Some?) ==> mediaById == old(mediaById) && lrfByVideo == old(lrfByVideo)
    {
      if mediaById.Some? {
        return;
      }
      var _ := Scan(walk);
    }

    method PathFor(id: string, walk: seq<File>) returns (r: Result<string, Error>)
      requires Valid()
      modifies this
      ensures Valid()
      ensures visits == if old(mediaById.Some?) || ParseObjectId(id).None? then old(visits) else walk
      ensures |Files()| <= UINT32 ==>
                r == match PositionOf(|Files()|, id)
                     case Some(i) => Ok(Files()[i].path)
                     case None => Err(MediaNotFound)
    {
      hide Sorted, Media, ParseObjectId, Holds, ProxyOf, Entry;
      var oid := ParseObjectId(id);
      if oid.None? {
        return Err(MediaNotFound);
      }
      EnsureIndex(walk);
      if |Files()| <= UINT32 {
        ReadPath(mediaById.value, lrfByVideo, visits, Files(), oid.value);
      }
      if oid.value !in mediaById.value {
        return Err(MediaNotFound);
      }
      return Ok(mediaById.value[oid.value]);
    }

    /** The local file to play for a video. */
    method PreviewFilePath(id: string, walk: seq<File>) returns (r: Result<string, Error>)
      requires Valid()
      modifies this
      ensures Valid()
      ensures visits == if old(mediaById.Some?) || ParseObjectId(id).None? then old(visits) else walk
      ensures |Files()| <= UINT32 ==>
                r == match PositionOf(|Files()|, id)
                     case Some(i) => PreviewOf(visits, Files()[i])
                     case None => Err(MediaNotFound)
    {
      hide Sorted, Media, ParseObjectId, Holds, ProxyOf, PreviewOf, MediaKind, Base;
      var oid := ParseObjectId(id);
      if oid.None? {
        return Err(MediaNotFound);
      }
      EnsureIndex(walk);
      if |Files()| <= UINT32 {
        ReadPreview(mediaById.value, lrfByVideo, visits, Files(), oid.value);
      }
      if oid.value in lrfByVideo {
        return Ok(lrfByVideo[oid.value]);
      }
      if oid.value !in mediaById.value || MediaKind(Base(mediaById.value[oid.value])) != Video {
        return Err(MediaNotFound);
      }
      return Ok(mediaById.value[oid.value]);
    }
  }

  /** The callback of the walk: proxy clips go into the pairing table, photos and videos onto the list. */
  method Visit(walk: seq<File>) returns (files: seq<File>, lrf: map<string, string>)
    ensures files == Media(walk) && Pairs(lrf, walk)
  {
    hide Media, Pairs, IsProxy, FsProxyKey, MediaKind, Base;
    files, lrf := [], map[];
    NothingVisited();
    assert walk[..0] == [];
    for k := 0 to |walk|
      invariant files == Media(walk[..k])
      invariant Pairs(lrf, walk[..k])
    {
      var f := walk[k];
      assert walk[..k + 1] == walk[..k] + [f];
      MediaOneMore(walk[..k], f);
      PairsOneMore(lrf, walk[..k], f);
      if IsProxy(f.path) {
        lrf := lrf[FsProxyKey(f.path) := f.path];
        continue;
      }
      if MediaKind(Base(f.path)) == NoMedia {
        continue;
      }
      if !f.readable {
        continue;
      }
      files := files + [f];
    }
    assert walk[..|walk|] == walk;
  }

  lemma NothingVisited()
    ensures Media([]) == [] && Pairs(map[], [])
  {
  }

  lemma MediaOneMore(visits: seq<File>, f: File)
    ensures Media(visits + [f]) ==
              if !IsProxy(f.path) && KindOf(f) != NoMedia && f.readable then Media(visits) + [f] else Media(visits)
  {
    assert (visits + [f])[..|visits|] == visits;
  }

  lemma ProxyOneMore(visits: seq<File>, f: File, path: string)
    ensures ProxyOf(visits + [f], path) ==
              if IsProxy(f.path) && SameClip(f.path, path) then Some(f.path) else ProxyOf(visits, path)
  {
    assert (visits + [f])[..|visits|] == visits;
  }

  lemma PairsOneMore(lrf: map<string, string>, visits: seq<File>, f: File)
    requires Pairs(lrf, visits)
    ensures Pairs(if IsProxy(f.path) then lrf[FsProxyKey(f.path) := f.path] else lrf, visits + [f])
  {
    hide ProxyOf, SameClip, FsProxyKey, IsProxy;
    var more := if IsProxy(f.path) then lrf[FsProxyKey(f.path) := f.path] else lrf;
    forall path
      ensures FsProxyKey(path) in more <==> ProxyOf(visits + [f], path).Some?
      ensures FsProxyKey(path) in more ==> ProxyOf(visits + [f], path) == Some(more[FsProxyKey(path)])
    {
      ProxyOneMore(visits, f, path);
      FsKeysMeanSameClip(f.path, path);
    }
  }

  lemma PairsFor(lrf: map<string, string>, visits: seq<File>, path: string)
    requires Pairs(lrf, visits)
    ensures FsProxyKey(path) in lrf <==> ProxyOf(visits, path).Some?
    ensures FsProxyKey(path) in lrf ==> ProxyOf(visits, path) == Some(lrf[FsProxyKey(path)])
  {
  }

  lemma HoldsNothing(visits: seq<File>, files: seq<File>)
    ensures Holds(map[], map[], visits, files, 0)
  {
  }

  lemma HoldsOneMore(byId: map<nat, string>, before: map<nat, string>, proxies: map<nat, string>,
                     visits: seq<File>, files: seq<File>, i: nat)
    requires i < |files| <= UINT32 && Holds(byId, before, visits, files, i)
    requires var p := ProxyOf(visits, files[i].path);
             proxies == if KindOf(files[i]) == Video && p.Some? then before[Id(i) := p.value] else before
    ensures Holds(byId[Id(i) := files[i].path], proxies, visits, files, i + 1)
  {
    hide ProxyOf, KindOf, Id;
    var more := byId[Id(i) := files[i].path];
    FreshId(byId, before, visits, files, i);
    forall k | 0 <= k < i + 1
      ensures Entry(more, proxies, visits, files[k], Id(k))
    {
      IdsDiffer(k, i);
      if k < i {
        assert Entry(byId, before, visits, files[k], Id(k));
      }
    }
  }

  lemma FreshId(byId: map<nat, string>, before: map<nat, string>, visits: seq<File>, files: seq<File>, i: nat)
    requires i < |files| <= UINT32 && Holds(byId, before, visits, files, i)
    ensures Id(i) !in byId && Id(i) !in before
  {
    hide Id, Entry;
    if Id(i) in byId {
      var k :| 0 <= k < i && Id(k) == Id(i);
      IdsDiffer(k, i);
    }
  }

  lemma LookUp(byId: map<nat, string>, proxies: map<nat, string>, visits: seq<File>, files: seq<File>, oid: nat)
    requires |files| <= UINT32 && Holds(byId, proxies, visits, files, |files|) && oid < UINT32
    ensures var i := if oid == 0 then UINT32 - 1 else oid - 1;
            && (oid in byId <==> i < |files|)
            && proxies.Keys <= byId.Keys
            && (i < |files| ==> Entry(byId, proxies, visits, files[i], oid))
  {
    hide Entry, Id;
    var i := if oid == 0 then UINT32 - 1 else oid - 1;
    IdsDiffer(i, i);
    IdOf(oid);
    if oid in byId {
      var k :| 0 <= k < |files| && Id(k) == oid;
      IdsDiffer(k, i);
    }
    if i < |files| {
      assert Entry(byId, proxies, visits, files[i], Id(i));
      EntryIsThere(byId, proxies, visits, files[i], Id(i));
    }
  }

  lemma ReadPath(byId: map<nat, string>, proxies: map<nat, string>, visits: seq<File>, files: seq<File>, oid: nat)
    requires |files| <= UINT32 && Holds(byId, proxies, visits, files, |files|) && oid < UINT32
    ensures var i := if oid == 0 then UINT32 - 1 else oid - 1;
            && (oid in byId <==> i < |files|)
            && (i < |files| ==> byId[oid] == files[i].path)
  {
    hide Holds, ProxyOf;
    LookUp(byId, proxies, visits, files, oid);
  }

  lemma ReadPreview(byId: map<nat, string>, proxies: map<nat, string>, visits: seq<File>, files: seq<File>, oid: nat)
    requires |files| <= UINT32 && Holds(byId, proxies, visits, files, |files|) && oid < UINT32
    ensures var i := if oid == 0 then UINT32 - 1 else oid - 1;
            (if oid in proxies then Ok(proxies[oid])
             else if oid !in byId || MediaKind(Base(byId[oid])) != Video then Err(MediaNotFound)
             else Ok(byId[oid]))
            == if i < |files| then PreviewOf(visits, files[i]) else Err(MediaNotFound)
  {
    hide Holds, ProxyOf, MediaKind, Base;
    LookUp(byId, proxies, visits, files, oid);
  }

  lemma IdOf(oid: nat)
    requires oid < UINT32
    ensures Id(if oid == 0 then UINT32 - 1 else oid - 1) == oid
  {
  }

  lemma EntryIsThere(byId: map<nat, string>, proxies: map<nat, string>, visits: seq<File>, f: File, id: nat)
    requires Entry(byId, proxies, visits, f, id)
    ensures id in byId
  {
  }

  // ---- What a preview plays ---------------------------------------------------------------

  lemma {:induction false} ProxyOfFinds(visits: seq<File>, path: string)
    ensures ProxyOf(visits, path).Some? <==>
              exists k :: 0 <= k < |visits| && IsProxy(visits[k].path) && SameClip(visits[k].path, path)
    ensures ProxyOf(visits, path).Some? ==>
              IsProxy(ProxyOf(visits, path).value) && SameClip(ProxyOf(visits, path).value, path)
  {
    hide SameClip, IsProxy;
    if visits != [] {
      var n := |visits| - 1;
      ProxyOfFinds(visits[..n], path);
      assert forall k :: 0 <= k < n ==> visits[..n][k] == visits[k];
    }
  }

  /** Visit number k is the last proxy clip of this recording. */
  ghost predicate LastProxy(visits: seq<File>, path: string, k: int) {
    && 0 <= k < |visits| && IsProxy(visits[k].path) && SameClip(visits[k].path, path)
    && forall j :: k < j < |visits| ==> !(IsProxy(visits[j].path) && SameClip(visits[j].path, path))
  }

  lemma ProxyThere(visits: seq<File>, path: string, k: int)
    requires LastProxy(visits, path, k)
    ensures 0 <= k < |visits|
  {
  }

  lemma {:induction false} ProxyOfLast(visits: seq<File>, path: string, k: int)
    requires LastProxy(visits, path, k)
    ensures ProxyOf(visits, path) == Some(visits[k].path)
  {
    hide SameClip, IsProxy;
    var n := |visits| - 1;
    if k < n {
      assert forall j :: 0 <= j < n ==> visits[..n][j] == visits[j];
      ProxyOfLast(visits[..n], path, k);
    }
  }

  /** A video plays the last proxy clip of its own recording when the walk found one, else itself; a photo nothing. */
  lemma PreviewIsOwnClip(visits: seq<File>, f: File)
    ensures PreviewOf(visits, f).Ok? <==> KindOf(f) == Video
    ensures PreviewOf(visits, f).Ok? ==>
              var p := PreviewOf(visits, f).value;
              if exists k :: 0 <= k < |visits| && IsProxy(visits[k].path) && SameClip(visits[k].path, f.path)
              then IsProxy(p) && SameClip(p, f.path)
              else p == f.path
    ensures PreviewOf(visits, f).Ok? ==>
              forall k :: LastProxy(visits, f.path, k) ==> PreviewOf(visits, f).value == visits[k].path
  {
    hide SameClip, IsProxy, KindOf, LastProxy;
    ProxyOfFinds(visits, f.path);
    forall k | LastProxy(visits, f.path, k)
      ensures 0 <= k < |visits| && ProxyOf(visits, f.path) == Some(visits[k].path)
    {
      ProxyThere(visits, f.path, k);
      ProxyOfLast(visits, f.path, k);
    }
  }

  // ---- What a scan lists ------------------------------------------------------------------

  lemma {:induction false} MediaAre(visits: seq<File>)
    ensures forall f :: f in Media(visits) <==>
                          f in visits && !IsProxy(f.path) && MediaKind(Base(f.path)) != NoMedia && f.readable
  {
    hide IsProxy, MediaKind, Base;
    if visits != [] {
      var n := |visits| - 1;
      MediaAre(visits[..n]);
      assert visits == visits[..n] + [visits[n]];
    }
  }

  /** They come in the order of the walk. */
  lemma {:induction false} MediaConcat(a: seq<File>, b: seq<File>)
    ensures Media(a + b) == Media(a) + Media(b)
  {
    hide IsProxy, MediaKind, Base;
    if b == [] {
      assert a + b == a;
    } else {
      var n := |b| - 1;
      assert (a + b)[..|a| + n] == a + b[..n];
      MediaConcat(a, b[..n]);
    }
  }

  /** The item tells the file's name, kind, size and time; every video previews. */
  predicate Shows(item: Item, f: File) {
    && item.name == Base(f.path) && item.kind == MediaKind(Base(f.path)) != NoMedia
    && item.size == f.size && item.modified == f.modified
    && (item.hasPreview <==> item.kind == Video)
  }

  /** Number i of a scan shows a readable photo or video of the walk, and every such file has its number. */
  lemma ItemsShowFiles(walk: seq<File>)
    ensures |Sorted(Media(walk))| == |Media(walk)|
    ensures forall i: nat :: i < |Sorted(Media(walk))| ==>
              Sorted(Media(walk))[i] in walk && Shows(ItemFor(i, Sorted(Media(walk))[i]), Sorted(Media(walk))[i])
    ensures forall f :: f in walk && !IsProxy(f.path) && MediaKind(Base(f.path)) != NoMedia && f.readable ==>
              f in Sorted(Media(walk))
  {
    hide IsProxy, MediaKind, Base, Media, Sorted, Format;
    var sorted := Sorted(Media(walk));
    ListedNewestFirst(Media(walk));
    MediaAre(walk);
    assert |multiset(sorted)| == |sorted| && |multiset(Media(walk))| == |Media(walk)|;
    forall f
      ensures f in sorted <==> f in Media(walk)
    {
      assert f in multiset(sorted) <==> f in multiset(Media(walk));
    }
    assert forall i: nat :: i < |sorted| ==> sorted[i] in sorted;
  }
}
