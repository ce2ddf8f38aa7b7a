/** The media listing of a camera over MTP: the folder walk with its depth limit, and the index built from it. */
module MtpMedia {
  import opened Wrappers
  import opened Text
  import opened MediaNames
  import StableSort

  datatype Entry = Entry(objectId: nat, parentId: nat, name: string, size: int, modified: int)

  /** A file, or a folder with what it holds and whether the request to list it succeeds. */
  datatype Node = File(entry: Entry) | Folder(entry: Entry, lists: bool, nodes: seq<Node>)

  const MAX_DEPTH := 8

  // ---- The walk ---------------------------------------------------------------------------

  /** The files at most so many folders further down, in listing order. */
  function Below(nodes: seq<Node>, levels: int): seq<Entry>
    decreases nodes
  {
    if nodes == [] then []
    else FilesOf(nodes[0], levels) + Below(nodes[1..], levels)
  }

  function FilesOf(node: Node, levels: int): seq<Entry>
    decreases node
  {
    match node
    case File(e) => [e]
    case Folder(_, lists, nodes) => if levels > 0 && lists then Below(nodes, levels - 1) else []
  }

  /** Every folder that near can be listed. */
  predicate AllList(nodes: seq<Node>, levels: int)
    decreases nodes
  {
    nodes == [] || (NodeLists(nodes[0], levels) && AllList(nodes[1..], levels))
  }

  predicate NodeLists(node: Node, levels: int)
    decreases node
  {
    node.Folder? && levels > 0 ==> node.lists && AllList(node.nodes, levels - 1)
  }

  /**
   Collects the files below a folder met at some depth. It fails exactly when a folder at most MAX_DEPTH deep
   cannot be listed; deeper folders are neither listed nor counted.
   */
  method CollectFiles(lists: bool, nodes: seq<Node>, depth: nat) returns (r: Option<seq<Entry>>)
    ensures depth > MAX_DEPTH ==> r == Some([])
    ensures depth <= MAX_DEPTH ==>
              r == if lists && AllList(nodes, MAX_DEPTH - depth) then Some(Below(nodes, MAX_DEPTH - depth)) else None
    decreases nodes
  {
    if depth > MAX_DEPTH {
      return Some([]);
    }
    if !lists {
      return None;
    }
    var levels := MAX_DEPTH - depth;
    var out: seq<Entry> := [];
    assert nodes[0..] == nodes;
    for i := 0 to |nodes|
      invariant AllList(nodes, levels) <==> AllList(nodes[i..], levels)
      invariant Below(nodes, levels) == out + Below(nodes[i..], levels)
    {
      var e := nodes[i];
      assert nodes[i..][1..] == nodes[i + 1..];
      match e
      case Folder(_, sublists, subnodes) =>
        var files := CollectFiles(sublists, subnodes, depth + 1);
        if files.None? {
          return None;
        }
        Associate(out, files.value, Below(nodes[i + 1..], levels));
        out := out + files.value;
      case File(entry) =>
        Associate(out, [entry], Below(nodes[i + 1..], levels));
        out := out + [entry];
    }
    assert nodes[|nodes|..] == [] && out + [] == out;
    r := Some(out);
  }

  lemma Associate(a: seq<Entry>, b: seq<Entry>, c: seq<Entry>)
    ensures a + (b + c) == (a + b) + c
  {
  }

  // ---- The index --------------------------------------------------------------------------

  datatype Item = Item(id: string, name: string, kind: Kind, size: int, modified: int, hasPreview: bool)

  predicate IsMedia(f: Entry) {
    MediaKind(f.name) != NoMedia
  }

  /** The proxy clip of a recording: in the same folder, of the same name but for extension and case. */
  predicate IsProxyOf(p: Entry, f: Entry) {
    IsProxy(p.name) && p.parentId == f.parentId
    && EqualFold(TrimSuffix(p.name, Ext(p.name)), TrimSuffix(f.name, Ext(f.name)))
  }

  /** The last one collected. */
  function ProxyFor(files: seq<Entry>, f: Entry): Option<Entry> {
    if files == [] then None
    else
      var n := |files| - 1;
      if IsProxyOf(files[n], f) then Some(files[n]) else ProxyFor(files[..n], f)
  }

  function Media(files: seq<Entry>): seq<Entry> {
    if files == [] then []
    else
      var n := |files| - 1;
      Media(files[..n]) + if IsMedia(files[n]) then [files[n]] else []
  }

  function ItemFor(files: seq<Entry>, f: Entry): Item {
    Item(Format(f.objectId), f.name, MediaKind(f.name), f.size, f.modified,
         MediaKind(f.name) == Video && ProxyFor(files, f).Some?)
  }

  function ItemsFor(files: seq<Entry>, media: seq<Entry>): seq<Item> {
    seq(|media|, k requires 0 <= k < |media| => ItemFor(files, media[k]))
  }

  function ModifiedOf(item: Item): int {
    item.modified
  }

  /** The pairing table agrees with the files. */
  ghost predicate Pairs(lrf: map<string, Entry>, files: seq<Entry>) {
    forall f :: ProxyFor(files, f) == if ProxyKey(f.parentId, f.name) in lrf
                                      then Some(lrf[ProxyKey(f.parentId, f.name)]) else None
  }

  ghost predicate DistinctIds(media: seq<Entry>) {
    forall i, j :: 0 <= i < j < |media| ==> media[i].objectId != media[j].objectId
  }

  /** The tables hold these media files and nothing else, each video paired with its proxy clip. */
  ghost predicate Indexes(byId: map<nat, Entry>, proxies: map<nat, Entry>, files: seq<Entry>, media: seq<Entry>) {
    && (forall id :: id in byId ==> exists k :: 0 <= k < |media| && media[k].objectId == id)
    && proxies.Keys <= byId.Keys
    && (DistinctIds(media) ==> forall k :: 0 <= k < |media| ==> Holds(byId, proxies, files, media[k]))
  }

  ghost predicate Holds(byId: map<nat, Entry>, proxies: map<nat, Entry>, files: seq<Entry>, f: Entry) {
    var proxy := if MediaKind(f.name) == Video then ProxyFor(files, f) else None;
    && f.objectId in byId && byId[f.objectId] == f
    && (f.objectId in proxies <==> proxy.Some?)
    && (f.objectId in proxies ==> proxy == Some(proxies[f.objectId]))
  }

  class Camera {
    var mediaById: Option<map<nat, Entry>>
    var lrfByVideo: map<nat, Entry>

    constructor ()
      ensures mediaById.None?
    {
      mediaById, lrfByVideo := None, map[];
    }

    /** Walks the media folder and rebuilds the index; a failed walk leaves the old one in place. */
    method ScanMedia(lists: bool, root: seq<Node>) returns (items: Option<seq<Item>>)
      modifies this
      ensures items.Some? <==> lists && AllList(root, MAX_DEPTH)
      ensures items.None? ==> unchanged(this)
      ensures items.Some? ==>
                var files := Below(root, MAX_DEPTH);
                && mediaById.Some? && Indexes(mediaById.value, lrfByVideo, files, Media(files))
                && items.value == StableSort.Sorted(ItemsFor(files, Media(files)), ModifiedOf)
                && (forall i, j :: 0 <= i < j < |items.value| ==> items.value[i].modified >= items.value[j].modified)
    {
      hide Below, AllList, Pairs, Indexes, Media, IsProxy, ItemFor;
      var collected := CollectFiles(lists, root, 0);
      if collected.None? {
        return None;
      }
      var files := collected.value;
      var lrf := PairUp(files);
      var byId: map<nat, Entry> := map[];
      var proxies: map<nat, Entry> := map[];
      var found: seq<Item> := [];
      NothingIndexed(files);
      assert files[..0] == [];
      for k := 0 to |files|
        invariant Indexes(byId, proxies, files, Media(files[..k]))
        invariant found == ItemsFor(files, Media(files[..k]))
      {
        var f := files[k];
        MediaOneMore(files, k);
        var kind := MediaKind(f.name);
        if kind == NoMedia {
          continue;
        }
        PairOf(lrf, files, f);
        ghost var before := proxies;
        var key := ProxyKey(f.parentId, f.name);
        var preview := kind == Video && key in lrf;
        if preview {
          proxies := proxies[f.objectId := lrf[key]];
        }
        found := found + [Item(Format(f.objectId), f.name, kind, f.size, f.modified, preview)];
        ItemsOneMore(files, Media(files[..k]), f);
        IndexOneMore(byId, before, proxies, files, Media(files[..k]), f);
        byId := byId[f.objectId := f];
      }
      assert files[..|files|] == files;
      mediaById, lrfByVideo := Some(byId), proxies;
      items := Some(StableSort.Sorted(found, ModifiedOf));
      NewestFirst(found);
    }
  }

  /** The first pass: proxy clips by folder and name. */
  method PairUp(files: seq<Entry>) returns (lrf: map<string, Entry>)
    ensures Pairs(lrf, files)
  {
    hide Pairs, IsProxy, ProxyKey;
    lrf := map[];
    NothingIndexed(files);
    assert files[..0] == [];
    for k := 0 to |files|
      invariant Pairs(lrf, files[..k])
    {
      PairsOneMore(lrf, files, k);
      if IsProxy(files[k].name) {
        lrf := lrf[ProxyKey(files[k].parentId, files[k].name) := files[k]];
      }
    }
    assert files[..|files|] == files;
  }

  lemma PairsOneMore(lrf: map<string, Entry>, files: seq<Entry>, k: nat)
    requires k < |files| && Pairs(lrf, files[..k])
    ensures var p := files[k];
            Pairs(if IsProxy(p.name) then lrf[ProxyKey(p.parentId, p.name) := p] else lrf, files[..k + 1])
  {
    hide ProxyKey, IsProxy, EqualFold, TrimSuffix, Ext;
    var p := files[k];
    var more := if IsProxy(p.name) then lrf[ProxyKey(p.parentId, p.name) := p] else lrf;
    assert files[..k + 1][..k] == files[..k];
    forall f
      ensures ProxyFor(files[..k + 1], f) == if ProxyKey(f.parentId, f.name) in more
                                             then Some(more[ProxyKey(f.parentId, f.name)]) else None
    {
      MtpKeysMeanSameClip(p.parentId, p.name, f.parentId, f.name);
    }
  }

  lemma PairOf(lrf: map<string, Entry>, files: seq<Entry>, f: Entry)
    requires Pairs(lrf, files)
    ensures ProxyFor(files, f) == if ProxyKey(f.parentId, f.name) in lrf
                                  then Some(lrf[ProxyKey(f.parentId, f.name)]) else None
  {
    hide ProxyFor, ProxyKey;
  }

  lemma NothingIndexed(files: seq<Entry>)
    ensures Pairs(map[], []) && Media([]) == [] && ItemsFor(files, []) == []
    ensures Indexes(map[], map[], files, [])
  {
  }

  lemma MediaOneMore(files: seq<Entry>, k: nat)
    requires k < |files|
    ensures Media(files[..k + 1]) == if IsMedia(files[k]) then Media(files[..k]) + [files[k]] else Media(files[..k])
  {
    assert files[..k + 1][..k] == files[..k];
  }

  lemma ItemsOneMore(files: seq<Entry>, media: seq<Entry>, f: Entry)
    ensures ItemsFor(files, media + [f]) == ItemsFor(files, media) + [ItemFor(files, f)]
    ensures ItemFor(files, f) == Item(Format(f.objectId), f.name, MediaKind(f.name), f.size, f.modified,
                                      MediaKind(f.name) == Video && ProxyFor(files, f).Some?)
  {
  }

  lemma IndexOneMore(byId: map<nat, Entry>, before: map<nat, Entry>, proxies: map<nat, Entry>, files: seq<Entry>,
                     media: seq<Entry>, f: Entry)
    requires Indexes(byId, before, files, media)
    requires var p := ProxyFor(files, f);
             proxies == if MediaKind(f.name) == Video && p.Some? then before[f.objectId := p.value] else before
    ensures Indexes(byId[f.objectId := f], proxies, files, media + [f])
  {
    hide ProxyFor, MediaKind;
    var more, all := byId[f.objectId := f], media + [f];
    forall id | id in more
      ensures exists k :: 0 <= k < |all| && all[k].objectId == id
    {
      if id in byId {
        var k :| 0 <= k < |media| && media[k].objectId == id;
        assert all[k].objectId == id;
      } else {
        assert all[|media|].objectId == id;
      }
    }
    if DistinctIds(all) {
      DistinctOneLess(media, f);
      forall k | 0 <= k < |all|
        ensures Holds(more, proxies, files, all[k])
      {
        if k < |media| {
          assert all[k] == media[k] && Holds(byId, before, files, media[k]);
        }
      }
    }
  }

  lemma DistinctOneLess(media: seq<Entry>, f: Entry)
    requires DistinctIds(media + [f])
    ensures DistinctIds(media) && forall k :: 0 <= k < |media| ==> media[k].objectId != f.objectId
  {
    var all := media + [f];
    assert all[|media|] == f && forall k :: 0 <= k < |media| ==> all[k] == media[k];
  }

  /** Every listed item's identifier leads back to its own file. */
  lemma ListedIdsResolve(byId: map<nat, Entry>, proxies: map<nat, Entry>, files: seq<Entry>, item: Item)
    requires Indexes(byId, proxies, files, Media(files)) && DistinctIds(Media(files))
    requires forall f :: f in files ==> f.objectId < UINT32
    requires item in StableSort.Sorted(ItemsFor(files, Media(files)), ModifiedOf)
    ensures var oid := ParseObjectId(item.id);
            && oid.Some? && oid.value in byId && item == ItemFor(files, byId[oid.value])
            && (item.hasPreview <==> oid.value in proxies)
  {
    hide ProxyFor, MediaKind, Media, Format, ParseObjectId;
    var media := Media(files);
    var items := ItemsFor(files, media);
    StableSort.SortedIsStable(items, ModifiedOf);
    assert item in multiset(items);
    var k :| 0 <= k < |items| && items[k] == item;
    MediaAreFiles(files);
    assert media[k] in media;
    assert Holds(byId, proxies, files, media[k]);
    ParseFormat(media[k].objectId);
  }

  lemma {:induction false} MediaAreFiles(files: seq<Entry>)
    ensures forall f :: f in Media(files) <==> f in files && IsMedia(f)
  {
    if files != [] {
      var n := |files| - 1;
      MediaAreFiles(files[..n]);
      assert files == files[..n] + [files[n]];
    }
  }

  lemma NewestFirst(items: seq<Item>)
    ensures var sorted := StableSort.Sorted(items, ModifiedOf);
            forall i, j :: 0 <= i < j < |sorted| ==> sorted[i].modified >= sorted[j].modified
  {
    StableSort.SortedIsStable(items, ModifiedOf);
    var sorted := StableSort.Sorted(items, ModifiedOf);
    forall i, j | 0 <= i < j < |sorted|
      ensures sorted[i].modified >= sorted[j].modified
    {
      assert ModifiedOf(sorted[i]) >= ModifiedOf(sorted[j]);
    }
  }

  /** The item tells the file's name, kind, size and time, and previews if it is a video with a proxy clip. */
  ghost predicate Shows(files: seq<Entry>, item: Item, f: Entry) {
    && item.id == Format(f.objectId) && item.name == f.name && item.kind == MediaKind(f.name) != NoMedia
    && item.size == f.size && item.modified == f.modified
    && (item.hasPreview <==> MediaKind(f.name) == Video && exists p :: p in files && IsProxyOf(p, f))
  }

  /** Number k is the last proxy clip of this file's recording. */
  ghost predicate LastProxy(files: seq<Entry>, f: Entry, k: int) {
    0 <= k < |files| && IsProxyOf(files[k], f) && forall j :: k < j < |files| ==> !IsProxyOf(files[j], f)
  }

  lemma {:induction false} ProxyForFinds(files: seq<Entry>, f: Entry)
    ensures ProxyFor(files, f).Some? <==> exists p :: p in files && IsProxyOf(p, f)
    ensures forall k :: LastProxy(files, f, k) ==> ProxyFor(files, f) == Some(files[k])
  {
    hide IsProxyOf;
    if files != [] {
      var n := |files| - 1;
      var init := files[..n];
      ProxyForFinds(init, f);
      assert files == init + [files[n]];
      assert forall k :: 0 <= k < n ==> init[k] == files[k];
      assert forall k :: LastProxy(files, f, k) && k < n ==> LastProxy(init, f, k);
    }
  }

  lemma ItemShows(files: seq<Entry>, f: Entry)
    requires MediaKind(f.name) != NoMedia
    ensures Shows(files, ItemFor(files, f), f)
  {
    hide ProxyFor, MediaKind, Format, IsProxyOf;
    ProxyForFinds(files, f);
  }

  /** What a scan lists: an item for each media file of the walk, and nothing else. */
  lemma ItemsShowFiles(files: seq<Entry>)
    ensures var items := StableSort.Sorted(ItemsFor(files, Media(files)), ModifiedOf);
            && |items| == |Media(files)|
            && (forall item :: item in items ==> exists f :: f in files && Shows(files, item, f))
            && (forall f :: f in files && MediaKind(f.name) != NoMedia ==> ItemFor(files, f) in items
                                                                           && Shows(files, ItemFor(files, f), f))
  {
    hide ItemFor, MediaKind, Media, Shows;
    var media := Media(files);
    var items := ItemsFor(files, media);
    var sorted := StableSort.Sorted(items, ModifiedOf);
    StableSort.SortedIsStable(items, ModifiedOf);
    assert |multiset(sorted)| == |sorted| && |multiset(items)| == |items|;
    MediaAreFiles(files);
    forall item | item in sorted
      ensures exists f :: f in files && Shows(files, item, f)
    {
      assert item in multiset(items);
      var k :| 0 <= k < |items| && items[k] == item;
      assert media[k] in media;
      ItemShows(files, media[k]);
    }
    forall f | f in files && MediaKind(f.name) != NoMedia
      ensures ItemFor(files, f) in sorted && Shows(files, ItemFor(files, f), f)
    {
      var k :| 0 <= k < |media| && media[k] == f;
      assert items[k] in multiset(sorted);
      ItemShows(files, f);
    }
  }

  /** The file found by going down a path of positions, if every folder on the way can be listed. */
  function FileAt(nodes: seq<Node>, path: seq<nat>): Option<Entry>
    decreases |path|
  {
    if path == [] || path[0] >= |nodes| then None
    else
      match nodes[path[0]]
      case File(e) => if |path| == 1 then Some(e) else None
      case Folder(_, lists, inner) => if lists then FileAt(inner, path[1..]) else None
  }

  /** What a walk collects is what such paths lead to, at most so many folders down. */
  lemma {:induction false} BelowIsReachable(nodes: seq<Node>, levels: nat, e: Entry)
    ensures e in Below(nodes, levels)
            <==> exists path: seq<nat> :: |path| <= levels + 1 && FileAt(nodes, path) == Some(e)
    decreases nodes
  {
    hide FileAt;
    if nodes == [] {
      NoFileAt();
    } else {
      FilesOfReachable(nodes[0], levels, e);
      BelowIsReachable(nodes[1..], levels, e);
      if e in FilesOf(nodes[0], levels) {
        var path: seq<nat> :| |path| <= levels + 1 && FileAt([nodes[0]], path) == Some(e);
        FirstOrRest(nodes, path);
      }
      if e in Below(nodes[1..], levels) {
        var path: seq<nat> :| |path| <= levels + 1 && FileAt(nodes[1..], path) == Some(e);
        Further(nodes, path);
      }
      if path: seq<nat> :| |path| <= levels + 1 && FileAt(nodes, path) == Some(e) {
        FirstOrRest(nodes, path);
      }
    }
  }

  lemma NoFileAt()
    ensures forall path: seq<nat> :: FileAt([], path) == None
  {
  }

  lemma FirstOrRest(nodes: seq<Node>, path: seq<nat>)
    requires nodes != []
    ensures FileAt(nodes, path).Some? ==>
              || FileAt([nodes[0]], path) == FileAt(nodes, path)
              || exists other: seq<nat> :: |other| == |path| && FileAt(nodes[1..], other) == FileAt(nodes, path)
    ensures FileAt([nodes[0]], path).Some? ==> FileAt(nodes, path) == FileAt([nodes[0]], path)
  {
    if path != [] && path[0] > 0 {
      var other: seq<nat> := [path[0] - 1] + path[1..];
      assert other[1..] == path[1..] && FileAt(nodes[1..], other) == FileAt(nodes, path);
    }
  }

  lemma Further(nodes: seq<Node>, path: seq<nat>)
    requires nodes != [] && FileAt(nodes[1..], path).Some?
    ensures exists other: seq<nat> :: |other| == |path| && FileAt(nodes, other) == FileAt(nodes[1..], path)
  {
    var other: seq<nat> := [path[0] + 1] + path[1..];
    assert other[1..] == path[1..] && FileAt(nodes, other) == FileAt(nodes[1..], path);
  }

  lemma {:induction false} FilesOfReachable(node: Node, levels: nat, e: Entry)
    ensures e in FilesOf(node, levels)
            <==> exists path: seq<nat> :: |path| <= levels + 1 && FileAt([node], path) == Some(e)
    decreases node
  {
    match node {
      case File(f) =>
        if e == f {
          assert FileAt([node], [0]) == Some(e);
        }
      case Folder(_, lists, inner) =>
        if levels > 0 && lists {
          BelowIsReachable(inner, levels - 1, e);
          if e in Below(inner, levels - 1) {
            var path: seq<nat> :| |path| <= levels && FileAt(inner, path) == Some(e);
            var longer: seq<nat> := [0] + path;
            assert longer[1..] == path && FileAt([node], longer) == Some(e);
          }
        }
        if path: seq<nat> :| |path| <= levels + 1 && FileAt([node], path) == Some(e) {
          assert path[0] == 0 && FileAt(inner, path[1..]) == Some(e);
          assert path[1..] != [];
        }
    }
  }

  /** The path leads to a folder that cannot be listed, through folders that can. */
  predicate Blocked(nodes: seq<Node>, path: seq<nat>)
    decreases |path|
  {
    path != [] && path[0] < |nodes| && nodes[path[0]].Folder?
    && var folder := nodes[path[0]];
    if |path| == 1 then !folder.lists else folder.lists && Blocked(folder.nodes, path[1..])
  }

  lemma {:induction false} AllListUnlessBlocked(nodes: seq<Node>, levels: nat)
    ensures !AllList(nodes, levels) <==> exists path: seq<nat> :: |path| <= levels && Blocked(nodes, path)
    decreases nodes
  {
    if nodes != [] {
      NodeListsUnlessBlocked(nodes[0], levels);
      AllListUnlessBlocked(nodes[1..], levels);
      if !NodeLists(nodes[0], levels) {
        var path: seq<nat> :| |path| <= levels && Blocked([nodes[0]], path);
        assert path[0] == 0 && Blocked(nodes, path);
      }
      if !AllList(nodes[1..], levels) {
        var path: seq<nat> :| |path| <= levels && Blocked(nodes[1..], path);
        var shifted := [path[0] + 1] + path[1..];
        assert shifted[1..] == path[1..] && Blocked(nodes, shifted);
      }
      if path: seq<nat> :| |path| <= levels && Blocked(nodes, path) {
        if path[0] == 0 {
          assert Blocked([nodes[0]], path);
        } else {
          var shifted: seq<nat> := [path[0] - 1] + path[1..];
          assert shifted[1..] == path[1..] && Blocked(nodes[1..], shifted);
        }
      }
    }
  }

  lemma {:induction false} NodeListsUnlessBlocked(node: Node, levels: nat)
    ensures !NodeLists(node, levels) <==> exists path: seq<nat> :: |path| <= levels && Blocked([node], path)
    decreases node
  {
    if node.Folder? {
      if levels > 0 && !node.lists {
        assert Blocked([node], [0]);
      }
      if levels > 0 && node.lists {
        AllListUnlessBlocked(node.nodes, levels - 1);
        if !AllList(node.nodes, levels - 1) {
          var path: seq<nat> :| |path| <= levels - 1 && Blocked(node.nodes, path);
          var longer: seq<nat> := [0] + path;
          assert longer[1..] == path && Blocked([node], longer);
        }
      }
      if path: seq<nat> :| |path| <= levels && Blocked([node], path) {
        assert path[0] == 0;
        if |path| > 1 {
          assert Blocked(node.nodes, path[1..]) && |path[1..]| <= levels - 1;
        }
      }
    }
  }

  /**
   A whole scan, by paths from the media folder: it shows the files at the end of paths of nine steps at most,
   and fails exactly when a path of eight at most ends at a folder that cannot be listed.
   */
  lemma ScanReaches(root: seq<Node>, e: Entry)
    ensures e in Below(root, MAX_DEPTH) <==> exists path: seq<nat> :: |path| <= 9 && FileAt(root, path) == Some(e)
    ensures !AllList(root, MAX_DEPTH) <==> exists path: seq<nat> :: |path| <= 8 && Blocked(root, path)
  {
    BelowIsReachable(root, MAX_DEPTH, e);
    AllListUnlessBlocked(root, MAX_DEPTH);
  }

  /** Files come in the order of the listings, and media files in the order of the files. */
  lemma {:induction false} BelowConcat(a: seq<Node>, b: seq<Node>, levels: int)
    ensures Below(a + b, levels) == Below(a, levels) + Below(b, levels)
  {
    if a == [] {
      assert a + b == b;
    } else {
      assert (a + b)[1..] == a[1..] + b;
      BelowConcat(a[1..], b, levels);
    }
  }

  lemma {:induction false} MediaConcat(a: seq<Entry>, b: seq<Entry>)
    ensures Media(a + b) == Media(a) + Media(b)
  {
    hide IsMedia;
    if b == [] {
      assert a + b == a;
    } else {
      var n := |b| - 1;
      assert (a + b)[..|a| + n] == a + b[..n];
      MediaConcat(a, b[..n]);
    }
  }
}
