/**
 An MTP device as the transport shows it: a store of objects, each knowing its parent, behind requests
 that may fail. Request number n is carried out only if `script(n)` says so. A listing that is not carried
 out is an error, or, where `silent(n)`, comes back empty as if it had been: the device library reports no
 error for it.
 */
module ObjectStore {
  import opened Wrappers
  import opened Text

  type Bytes = seq<bv8>

  datatype Kind = Storage | Folder | File

  datatype Object = Object(parent: nat, name: string, kind: Kind, bytes: Bytes)

  /** A directory entry as a listing shows it. */
  datatype Entry = Entry(id: nat, name: string, kind: Kind)

  /** The parent of the storages: what listing without a folder lists. */
  const TOP: nat := 0

  function IdOf(folder: Option<Entry>): nat {
    if folder.Some? then folder.value.id else TOP
  }

  /** The children of `parent` with the given name, ignoring case. */
  function Named(objects: map<nat, Object>, parent: nat, name: string): set<nat> {
    set id | id in objects && objects[id].parent == parent && EqualFold(objects[id].name, name)
  }

  predicate Shows(objects: map<nat, Object>, e: Entry) {
    e.id in objects && objects[e.id].name == e.name && objects[e.id].kind == e.kind
  }

  /** The entries are the children of `parent`, each once, in some order. */
  ghost predicate IsListing(objects: map<nat, Object>, parent: nat, entries: seq<Entry>) {
    && (forall k :: 0 <= k < |entries| ==> Shows(objects, entries[k]) && objects[entries[k].id].parent == parent)
    && (forall id :: id in objects && objects[id].parent == parent ==>
          exists k :: 0 <= k < |entries| && entries[k].id == id)
    && (forall j, k :: 0 <= j < k < |entries| ==> entries[j].id != entries[k].id)
  }

  /** What the device lets itself be asked to delete: not a storage, and nothing that still has children. */
  ghost predicate Deletable(objects: map<nat, Object>, id: nat) {
    id in objects && objects[id].kind != Storage && !exists c :: c in objects && objects[c].parent == id
  }

  ghost predicate EmptyFolder(objects: map<nat, Object>, id: nat) {
    Deletable(objects, id) && objects[id].kind == Folder
  }

  /** Only storages are at the top, nothing is its own parent, and no plain file is a parent. */
  ghost predicate Tree(objects: map<nat, Object>) {
    forall id :: id in objects ==>
      && (objects[id].parent == TOP ==> objects[id].kind == Storage)
      && objects[id].parent != id
      && (objects[id].parent in objects ==> objects[objects[id].parent].kind != File)
  }

  class Device {
    var objects: map<nat, Object>
    var nextId: nat
    var requests: nat
    const script: nat -> bool
    const silent: nat -> bool

    ghost predicate Valid()
      reads this
    {
      && nextId > TOP
      && (forall id :: id in objects ==> TOP < id < nextId && objects[id].parent < nextId)
      && Tree(objects)
    }

    constructor (objects: map<nat, Object>, nextId: nat, script: nat -> bool, silent: nat -> bool)
      requires nextId > TOP && forall id :: id in objects ==> TOP < id < nextId && objects[id].parent < nextId
      requires Tree(objects)
      ensures Valid() && this.objects == objects && this.nextId == nextId && requests == 0
      ensures this.script == script && this.silent == silent
    {
      this.objects, this.nextId, this.requests := objects, nextId, 0;
      this.script, this.silent := script, silent;
    }

    method ListDir(folder: Option<Entry>) returns (r: Option<seq<Entry>>)
      modifies this`requests
      ensures requests == old(requests) + 1
      ensures script(old(requests)) ==> r.Some? && IsListing(objects, IdOf(folder), r.value)
      ensures !script(old(requests)) ==> r == if silent(old(requests)) then Some([]) else None
    {
      requests := requests + 1;
      if !script(requests - 1) {
        return if silent(requests - 1) then Some([]) else None;
      }
      var entries: seq<Entry> := [];
      ghost var done: set<nat> := {};
      var todo := objects.Keys;
      while todo != {}
        invariant done + todo == objects.Keys && done !! todo
        invariant forall k :: 0 <= k < |entries| ==>
                    Shows(objects, entries[k]) && objects[entries[k].id].parent == IdOf(folder) && entries[k].id in done
        invariant forall id :: id in done && objects[id].parent == IdOf(folder) ==>
                    exists k :: 0 <= k < |entries| && entries[k].id == id
        invariant forall j, k :: 0 <= j < k < |entries| ==> entries[j].id != entries[k].id
      {
        var id :| id in todo;
        if objects[id].parent == IdOf(folder) {
          ghost var before := entries;
          entries := entries + [Entry(id, objects[id].name, objects[id].kind)];
          assert entries[|before|].id == id;
          assert forall k :: 0 <= k < |before| ==> entries[k] == before[k];
        }
        todo, done := todo - {id}, done + {id};
      }
      r := Some(entries);
    }

    /** Reads a file. Folders have no content to transfer. */
    method GetFile(e: Entry) returns (r: Option<Bytes>)
      modifies this`requests
      ensures requests == old(requests) + 1
      ensures r == if script(old(requests)) && e.id in objects && objects[e.id].kind == File
                   then Some(objects[e.id].bytes) else None
    {
      requests := requests + 1;
      if !script(requests - 1) || e.id !in objects || objects[e.id].kind != File {
        return None;
      }
      r := Some(objects[e.id].bytes);
    }

    /** Removes a file, or a folder that is empty. */
    method Delete(e: Entry) returns (ok: bool)
      requires Valid()
      modifies this`requests, this`objects
      ensures Valid() && requests == old(requests) + 1
      ensures ok <==> script(old(requests)) && Deletable(old(objects), e.id)
      ensures objects == if ok then old(objects) - {e.id} else old(objects)
    {
      requests := requests + 1;
      ok := script(requests - 1) && e.id in objects && objects[e.id].kind != Storage
            && !exists id :: id in objects && objects[id].parent == e.id;
      if ok {
        objects := objects - {e.id};
      }
    }

    method PutFile(parent: Option<Entry>, name: string, bytes: Bytes) returns (r: Option<nat>)
      requires Valid()
      modifies this`requests, this`objects, this`nextId
      ensures Valid() && requests == old(requests) + 1 && nextId >= old(nextId)
      ensures r.Some? <==> && script(old(requests)) && parent.Some? && parent.value.kind != File
                           && parent.value.id in old(objects) && old(objects)[parent.value.id].kind != File
      ensures r.Some? ==> r.value == old(nextId) && r.value < nextId && r.value !in old(objects)
      ensures objects == if r.Some? then old(objects)[r.value := Object(IdOf(parent), name, File, bytes)]
                         else old(objects)
    {
      requests := requests + 1;
      if !script(requests - 1) || parent.None? || parent.value.kind == File { return None; }
      if parent.value.id !in objects || objects[parent.value.id].kind == File { return None; }
      objects := objects[nextId := Object(parent.value.id, name, File, bytes)];
      r := Some(nextId);
      nextId := nextId + 1;
    }

    /** The first child a listing shows under that name; not finding one is no error. */
    method FindChild(parent: Option<Entry>, name: string) returns (r: Result<Option<Entry>, ()>)
      modifies this`requests
      ensures requests == old(requests) + 1
      ensures !script(old(requests)) ==> r == if silent(old(requests)) then Ok(None) else Err(())
      ensures script(old(requests)) ==> r.Ok? && (r.value.None? ==> Named(objects, IdOf(parent), name) == {})
      ensures r.Ok? && r.value.Some? ==> script(old(requests))
      ensures r.Ok? && r.value.Some? ==>
                Shows(objects, r.value.value) && r.value.value.id in Named(objects, IdOf(parent), name)
    {
      var entries := ListDir(parent);
      if entries.None? {
        return Err(());
      }
      for k := 0 to |entries.value|
        invariant forall j :: 0 <= j < k ==> !EqualFold(entries.value[j].name, name)
      {
        if EqualFold(entries.value[k].name, name) {
          return Ok(Some(entries.value[k]));
        }
      }
      r := Ok(None);
    }
  }
}
