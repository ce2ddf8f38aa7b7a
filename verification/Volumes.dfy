/**
 USB mass-storage volumes: mounting, probing and unmounting, against scans and system calls that
 may fail. Ghost ledgers record which directories the daemon has mounts on, which mounts it lost
 track of because an unmount failed, and how often each volume was probed.
 */
module Volumes {
  import opened Wrappers

  /** A volume the scan lists; `mountpoint` is empty unless the system has it mounted already. */
  datatype Volume = Volume(id: string, mountpoint: string)

  /** A listed volume and how probing it would go: mounting, the media layout check, unmounting. */
  datatype Listed = Listed(volume: Volume, mounts: bool, media: bool, unmounts: bool)

  /** `None` is a failed scan; `stuck` holds the volumes whose unmount would fail once they are gone. */
  datatype Scan = Scan(found: Option<seq<Listed>>, stuck: set<string>)

  /** The record kept of a volume. A media volume carries its controller. */
  datatype Known = Known(dir: string, ours: bool, media: bool)

  function SafeChar(c: char): char {
    if 'a' <= c <= 'z' || 'A' <= c <= 'Z' || '0' <= c <= '9' || c == '-' || c == '_' then c else '_'
  }

  function Sanitize(id: string): string {
    seq(|id|, i requires 0 <= i < |id| => SafeChar(id[i]))
  }

  function MountDir(root: string, id: string): string {
    root + "/" + Sanitize(id)
  }

  /** The record a probe leaves behind. */
  function Inspect(root: string, p: Listed): Known {
    if p.volume.mountpoint != "" then Known(p.volume.mountpoint, false, p.media)
    else if p.mounts && p.media then Known(MountDir(root, p.volume.id), true, true)
    else Known("", false, false)
  }

  /** The probe mounted a volume without media and could not unmount it again. */
  predicate ProbeLoses(p: Listed) {
    p.volume.mountpoint == "" && p.mounts && !p.media && !p.unmounts
  }

  function Ids(found: seq<Listed>): set<string> {
    set k | 0 <= k < |found| :: found[k].volume.id
  }

  /** The listing's first entry for an identifier: the one that gets probed. */
  function First(found: seq<Listed>, id: string): Listed
    requires id in Ids(found)
  {
    if found[0].volume.id == id then found[0]
    else
      assert forall k :: 0 < k < |found| ==> found[k] == found[1..][k - 1];
      First(found[1..], id)
  }

  function OursAt(known: map<string, Known>, dir: string): set<string> {
    set id | id in known && known[id].ours && known[id].dir == dir
  }

  /** Every mount of the daemon is one it keeps a record of, or one it lost to a failed unmount. */
  ghost predicate Balanced(known: map<string, Known>, mounted: multiset<string>, lost: multiset<string>) {
    forall dir :: mounted[dir] == |OursAt(known, dir)| + lost[dir]
  }

  lemma BalanceAdd(known: map<string, Known>, id: string, mv: Known, mounted: multiset<string>, lost: multiset<string>)
    requires Balanced(known, mounted, lost) && id !in known
    ensures Balanced(known[id := mv], if mv.ours then mounted + multiset{mv.dir} else mounted, lost)
  {
    forall dir
      ensures OursAt(known[id := mv], dir) == OursAt(known, dir) + if mv.ours && mv.dir == dir then {id} else {}
    {
    }
  }

  lemma BalanceRemove(known: map<string, Known>, id: string, mounted: multiset<string>, lost: multiset<string>)
    requires Balanced(known, mounted, lost) && id in known
    ensures known[id].ours ==> known[id].dir in mounted
    ensures Balanced(known - {id}, if known[id].ours then mounted - multiset{known[id].dir} else mounted, lost)
  {
    hide OursAt;
    var mv := known[id];
    OneFewerAt(known, id, mv.dir);
    forall dir
      ensures (if mv.ours then mounted - multiset{mv.dir} else mounted)[dir]
                == |OursAt(known - {id}, dir)| + lost[dir]
    {
      OneFewerAt(known, id, dir);
    }
  }

  /** Forgetting a volume frees its directory, and only that. */
  lemma OneFewerAt(known: map<string, Known>, id: string, dir: string)
    requires id in known
    ensures |OursAt(known, dir)|
              == |OursAt(known - {id}, dir)| + if known[id].ours && known[id].dir == dir then 1 else 0
  {
    var here := known[id].ours && known[id].dir == dir;
    assert OursAt(known, dir) == OursAt(known - {id}, dir) + if here then {id} else {};
  }

  lemma BalanceLose(known: map<string, Known>, dir: string, mounted: multiset<string>, lost: multiset<string>)
    requires Balanced(known, mounted, lost)
    ensures Balanced(known, mounted + multiset{dir}, lost + multiset{dir})
  {
  }

  /** The records, probe counts and lost mounts a pass over a listing leaves. */
  datatype Ledger = Ledger(known: map<string, Known>, probes: multiset<string>, lost: multiset<string>)

  function Visit(l: Ledger, root: string, p: Listed): Ledger {
    var id := p.volume.id;
    if id in l.known then l
    else Ledger(l.known[id := Inspect(root, p)], l.probes + multiset{id},
                l.lost + if ProbeLoses(p) then multiset{MountDir(root, id)} else multiset{})
  }

  function Visits(l: Ledger, root: string, ps: seq<Listed>): Ledger {
    if ps == [] then l else Visit(Visits(l, root, ps[..|ps| - 1]), root, ps[|ps| - 1])
  }

  lemma VisitsNone(l: Ledger, root: string)
    ensures Visits(l, root, []) == l && Ids([]) == {}
  {
  }

  lemma VisitsSnoc(l: Ledger, root: string, ps: seq<Listed>, k: nat)
    requires k < |ps|
    ensures Visits(l, root, ps[..k + 1]) == Visit(Visits(l, root, ps[..k]), root, ps[k])
  {
    assert ps[..k + 1][..k] == ps[..k];
  }

  /** Volumes that must be probed: listed and not on record. */
  function Unknown(known: map<string, Known>, ps: seq<Listed>): set<string> {
    Ids(ps) - known.Keys
  }

  function LosingProbes(known: map<string, Known>, ps: seq<Listed>): set<string> {
    set id | id in Unknown(known, ps) && ProbeLoses(First(ps, id))
  }

  /** A pass keeps what is on record and probes every other listed volume, by its first entry. */
  lemma {:induction false} VisitsRecord(l: Ledger, root: string, ps: seq<Listed>)
    ensures var r := Visits(l, root, ps);
            && r.known.Keys == l.known.Keys + Ids(ps)
            && (forall id :: id in l.known ==> r.known[id] == l.known[id])
            && (forall id :: id in Unknown(l.known, ps) ==> r.known[id] == Inspect(root, First(ps, id)))
  {
    hide First, Inspect, ProbeLoses, MountDir, LosingProbes, Ids;
    if ps == [] {
      NoProbes(l.known);
    } else {
      VisitsRecord(l, root, ps[..|ps| - 1]);
      ProbesSnoc(l.known, ps);
    }
  }

  /** The pass probes each of those volumes once. */
  lemma {:induction false} VisitsProbeOnce(l: Ledger, root: string, ps: seq<Listed>)
    ensures Visits(l, root, ps).probes == l.probes + multiset(Unknown(l.known, ps))
  {
    hide First, Inspect, ProbeLoses, MountDir, LosingProbes, Unknown, Ids;
    if ps == [] {
      NoProbes(l.known);
    } else {
      var init, p := ps[..|ps| - 1], ps[|ps| - 1];
      var id := p.volume.id;
      VisitsProbeOnce(l, root, init);
      VisitsRecord(l, root, init);
      ProbesSnoc(l.known, ps);
      var before := Unknown(l.known, init);
      if id in Visits(l, root, init).known {
        assert Unknown(l.known, ps) == before;
      } else {
        OneMore(before, id);
        assert Unknown(l.known, ps) == before + {id};
      }
    }
  }

  lemma OneMore(s: set<string>, id: string)
    ensures id !in s ==> multiset(s + {id}) == multiset(s) + multiset{id}
  {
  }

  /** The pass loses a mount per unmount that fails. */
  lemma {:induction false} VisitsLose(l: Ledger, root: string, ps: seq<Listed>)
    ensures l.lost <= Visits(l, root, ps).lost
    ensures |Visits(l, root, ps).lost| == |l.lost| + |LosingProbes(l.known, ps)|
  {
    hide First, Inspect, ProbeLoses, MountDir, LosingProbes, Unknown, Ids;
    if ps == [] {
      NoProbes(l.known);
    } else {
      var init, p := ps[..|ps| - 1], ps[|ps| - 1];
      VisitsLose(l, root, init);
      VisitsRecord(l, root, init);
      ProbesSnoc(l.known, ps);
    }
  }

  lemma NoProbes(known: map<string, Known>)
    ensures Ids([]) == Unknown(known, []) == LosingProbes(known, []) == {}
  {
  }

  lemma ProbesSnoc(known: map<string, Known>, ps: seq<Listed>)
    requires ps != []
    ensures var init, p := ps[..|ps| - 1], ps[|ps| - 1];
            var id := p.volume.id;
            var isNew := id !in Ids(init) && id !in known;
            && Ids(ps) == Ids(init) + {id}
            && Unknown(known, ps) == Unknown(known, init) + (if isNew then {id} else {})
            && LosingProbes(known, ps) == LosingProbes(known, init) + (if isNew && ProbeLoses(p) then {id} else {})
            && (isNew ==> id !in Unknown(known, init) && id !in LosingProbes(known, init) && First(ps, id) == p)
            && (forall i :: i in Unknown(known, init) ==> First(ps, i) == First(init, i))
  {
    hide First, ProbeLoses;
    var init, p := ps[..|ps| - 1], ps[|ps| - 1];
    var id := p.volume.id;
    assert ps[..|ps|] == ps;
    IdsSnoc(ps, |init|);
    FirstOfPrefix(ps, |init|);
    if id !in Ids(init) && id !in known {
      FirstAt(ps, |init|);
    }
  }

  /** Longer listings do not change which entry is an identifier's first. */
  lemma {:induction false} FirstOfPrefix(ps: seq<Listed>, n: nat)
    requires n <= |ps|
    ensures forall id :: id in Ids(ps[..n]) ==> id in Ids(ps) && First(ps, id) == First(ps[..n], id)
  {
    forall id | id in Ids(ps[..n])
      ensures id in Ids(ps) && First(ps, id) == First(ps[..n], id)
    {
      var j :| 0 <= j < n && ps[..n][j].volume.id == id;
      assert ps[j].volume.id == id;
      if ps[0].volume.id != id {
        assert ps[1..][..n - 1] == ps[..n][1..];
        assert ps[..n][1..][j - 1].volume.id == id;
        FirstOfPrefix(ps[1..], n - 1);
      }
    }
  }

  class VolumeTable {
    const mountRoot: string
    var known: map<string, Known>
    ghost var mounted: multiset<string>
    ghost var lost: multiset<string>
    ghost var probes: multiset<string>

    ghost predicate Valid()
      reads this
    {
      && Balanced(known, mounted, lost)
      && forall id :: id in known && known[id].ours ==> known[id].media && known[id].dir == MountDir(mountRoot, id)
    }

    constructor (mountRoot: string)
      ensures Valid() && this.mountRoot == mountRoot
      ensures known == map[] && mounted == lost == probes == multiset{}
    {
      this.mountRoot := mountRoot;
      known, mounted, lost, probes := map[], multiset{}, multiset{}, multiset{};
    }

    /** `mount(2)` on a directory. */
    method Mount(dir: string, succeeds: bool) returns (ok: bool)
      modifies this`mounted
      ensures ok == succeeds
      ensures mounted == old(mounted) + if ok then multiset{dir} else multiset{}
    {
      ok := succeeds;
      if ok { mounted := mounted + multiset{dir}; }
    }

    /** `umount2(2)`; after a failure this run of the daemon keeps no record of the mount. */
    method Unmount(dir: string, succeeds: bool)
      requires dir in mounted
      modifies this`mounted, this`lost
      ensures succeeds ==> mounted == old(mounted) - multiset{dir} && lost == old(lost)
      ensures !succeeds ==> mounted == old(mounted) && lost == old(lost) + multiset{dir}
    {
      if succeeds {
        mounted := mounted - multiset{dir};
      } else {
        lost := lost + multiset{dir};
      }
    }

    method ProbeVolume(p: Listed) returns (mv: Known)
      modifies this`mounted, this`lost, this`probes
      ensures mv == Inspect(mountRoot, p)
      ensures var dir := MountDir(mountRoot, p.volume.id);
              && mounted == old(mounted) + (if mv.ours || ProbeLoses(p) then multiset{dir} else multiset{})
              && lost == old(lost) + (if ProbeLoses(p) then multiset{dir} else multiset{})
      ensures probes == old(probes) + multiset{p.volume.id}
    {
      probes := probes + multiset{p.volume.id};
      mv := Known("", false, false);
      var mountpoint := p.volume.mountpoint;
      if mountpoint == "" {
        mountpoint := MountDir(mountRoot, p.volume.id);
        var ok := Mount(mountpoint, p.mounts);
        if !ok { return; }
        mv := mv.(ours := true);
      }
      mv := mv.(dir := mountpoint);
      if !p.media {
        if mv.ours {
          Unmount(mountpoint, p.unmounts);
          mv := mv.(ours := false, dir := "");
        }
        return;
      }
      mv := mv.(media := true);
    }

    /**
     One scan. Newly listed volumes are probed once each, volumes that went away are unmounted if
     the daemon mounted them, and the media volumes present are the ones registered.
     */
    method ScanMassStorage(scan: Scan) returns (registered: set<string>)
      requires Valid()
      modifies this
      ensures Valid()
      ensures scan.found.None? ==> unchanged(this) && registered == {}
      ensures scan.found.Some? ==>
                && known.Keys == Ids(scan.found.value)
                && probes == old(probes) + multiset(Unknown(old(known), scan.found.value))
                && registered == set id | id in known && known[id].media
      ensures scan.found.Some? ==> forall id :: id in known ==>
                known[id] == if id in old(known) then old(known)[id]
                             else Inspect(mountRoot, First(scan.found.value, id))
      ensures |lost| == old(|lost|) + |FailedUnmounts(old(known), scan)|
    {
      hide Balanced, Visits, Inspect, First, Ids, Unknown, StuckUnmounts, LosingProbes;
      registered := {};
      if scan.found.None? { return; }
      var vols := scan.found.value;
      ghost var l := Ledger(known, probes, lost);
      ScanResult(l, mountRoot, vols, scan.stuck);
      VisitsProbeOnce(l, mountRoot, vols);
      VisitsLose(l, mountRoot, vols);
      registered := RegisterPresent(vols);
      DropAbsent(Ids(vols), scan.stuck);
    }

    method RegisterPresent(vols: seq<Listed>) returns (registered: set<string>)
      requires Valid()
      modifies this`known, this`mounted, this`lost, this`probes
      ensures Valid()
      ensures Ledger(known, probes, lost) == Visits(old(Ledger(known, probes, lost)), mountRoot, vols)
      ensures Ids(vols) <= known.Keys
      ensures registered == set id | id in Ids(vols) && known[id].media
    {
      hide Balanced, Inspect, Visits, Visit, Ids, ProbeLoses, MountDir, MediaAmong;
      registered := {};
      ghost var l := Ledger(known, probes, lost);
      VisitsNone(l, mountRoot);
      NoMedia(known);
      for k := 0 to |vols|
        invariant Valid()
        invariant Ledger(known, probes, lost) == Visits(l, mountRoot, vols[..k])
        invariant Ids(vols[..k]) <= known.Keys
        invariant registered == MediaAmong(known, Ids(vols[..k]))
      {
        IdsSnoc(vols, k);
        VisitsSnoc(l, mountRoot, vols, k);
        ghost var before := Ledger(known, probes, lost);
        VisitVolume(vols[k]);
        var id := vols[k].volume.id;
        VisitKnows(before, mountRoot, vols[k]);
        OneMoreMedia(before.known, known, Ids(vols[..k]), id);
        if known[id].media {
          registered := registered + {id};
        }
      }
      assert vols[..|vols|] == vols;
      MediaAre(known, Ids(vols));
    }

    method VisitVolume(p: Listed)
      requires Valid()
      modifies this`known, this`mounted, this`lost, this`probes
      ensures Valid()
      ensures Ledger(known, probes, lost) == Visit(old(Ledger(known, probes, lost)), mountRoot, p)
    {
      var id := p.volume.id;
      if id in known { return; }
      ghost var mounted0, lost0 := mounted, lost;
      var mv := ProbeVolume(p);
      if ProbeLoses(p) {
        BalanceLose(known, MountDir(mountRoot, id), mounted0, lost0);
      }
      BalanceAdd(known, id, mv, if mv.ours then mounted0 else mounted, lost);
      known := known[id := mv];
    }

    method DropAbsent(seen: set<string>, stuck: set<string>)
      requires Valid()
      modifies this`known, this`mounted, this`lost
      ensures Valid()
      ensures known == old(known) - (old(known).Keys - seen)
      ensures |lost| == old(|lost|) + |StuckUnmounts(old(known), seen, stuck)|
    {
      hide Balanced, StuckUnmounts;
      ghost var before := known;
      var todo := known.Keys - seen;
      ghost var gone: set<string> := {};
      StuckStart(before, stuck);
      while todo != {}
        invariant Valid()
        invariant gone + todo == before.Keys - seen && gone !! todo
        invariant known == before - gone
        invariant |lost| == old(|lost|) + |StuckUnmounts(before, before.Keys - gone, stuck)|
      {
        var id :| id in todo;
        StuckStep(before, gone, id, stuck);
        DropVolume(id, id in stuck);
        OneMoreGone(before, gone, todo, id, before.Keys - seen);
        todo, gone := todo - {id}, gone + {id};
      }
      StuckEnd(before, seen, stuck);
    }

    method DropVolume(id: string, stuck: bool)
      requires Valid() && id in known
      modifies this`known, this`mounted, this`lost
      ensures Valid()
      ensures known == old(known) - {id}
      ensures lost == old(lost) + if old(known)[id].ours && stuck then multiset{old(known)[id].dir} else multiset{}
    {
      var mv := known[id];
      ghost var mounted0, lost0 := mounted, lost;
      BalanceRemove(known, id, mounted, lost);
      if mv.ours && mv.dir != "" {
        Unmount(mv.dir, !stuck);
        if stuck {
          BalanceLose(known - {id}, mv.dir, mounted0 - multiset{mv.dir}, lost0);
          assert mounted0 - multiset{mv.dir} + multiset{mv.dir} == mounted0;
        }
      }
      known := known - {id};
    }
  }

  /** Volumes that are gone and whose unmount fails. */
  function StuckUnmounts(known: map<string, Known>, seen: set<string>, stuck: set<string>): set<string> {
    set id | id in known && id !in seen && known[id].ours && id in stuck
  }

  lemma OneMoreGone(known: map<string, Known>, gone: set<string>, todo: set<string>, id: string, all: set<string>)
    requires id in todo && gone + todo == all && gone !! todo
    ensures (known - gone) - {id} == known - (gone + {id})
    ensures (gone + {id}) + (todo - {id}) == all && (gone + {id}) !! (todo - {id})
  {
  }

  lemma StuckStart(known: map<string, Known>, stuck: set<string>)
    ensures StuckUnmounts(known, known.Keys - {}, stuck) == {}
  {
  }

  lemma StuckStep(known: map<string, Known>, gone: set<string>, id: string, stuck: set<string>)
    requires id in known && id !in gone
    ensures |StuckUnmounts(known, known.Keys - (gone + {id}), stuck)|
         == |StuckUnmounts(known, known.Keys - gone, stuck)| + if known[id].ours && id in stuck then 1 else 0
  {
    assert StuckUnmounts(known, known.Keys - (gone + {id}), stuck)
        == StuckUnmounts(known, known.Keys - gone, stuck) + if known[id].ours && id in stuck then {id} else {};
  }

  lemma StuckEnd(known: map<string, Known>, seen: set<string>, stuck: set<string>)
    ensures StuckUnmounts(known, known.Keys - (known.Keys - seen), stuck) == StuckUnmounts(known, seen, stuck)
  {
  }

  /** The unmounts a scan attempts in vain: after probing a volume without media, or of a volume that is gone. */
  function FailedUnmounts(known: map<string, Known>, scan: Scan): set<string> {
    if scan.found.None? then {}
    else LosingProbes(known, scan.found.value) + StuckUnmounts(known, Ids(scan.found.value), scan.stuck)
  }

  lemma ScanResult(l: Ledger, root: string, ps: seq<Listed>, stuck: set<string>)
    ensures var present := Visits(l, root, ps).known;
            var left := present - (present.Keys - Ids(ps));
            && left.Keys == Ids(ps) <= present.Keys
            && (forall id :: id in left ==> left[id] == present[id])
            && (forall id :: id in left && id in l.known ==> left[id] == l.known[id])
            && (forall id :: id in left && id !in l.known ==> left[id] == Inspect(root, First(ps, id)))
            && |StuckUnmounts(present, Ids(ps), stuck)| + |LosingProbes(l.known, ps)|
            == |LosingProbes(l.known, ps) + StuckUnmounts(l.known, Ids(ps), stuck)|
  {
    hide Inspect, First, ProbeLoses, Visits;
    VisitsRecord(l, root, ps);
    var present := Visits(l, root, ps).known;
    assert StuckUnmounts(present, Ids(ps), stuck) == StuckUnmounts(l.known, Ids(ps), stuck);
    assert LosingProbes(l.known, ps) !! StuckUnmounts(l.known, Ids(ps), stuck);
  }

  /** The media volumes among these. */
  function MediaAmong(known: map<string, Known>, ids: set<string>): set<string> {
    set id | id in ids && id in known && known[id].media
  }

  lemma NoMedia(known: map<string, Known>)
    ensures MediaAmong(known, {}) == {}
  {
  }

  lemma MediaAre(known: map<string, Known>, ids: set<string>)
    requires ids <= known.Keys
    ensures MediaAmong(known, ids) == set id | id in ids && known[id].media
  {
  }

  /** A visited volume is on record, and the others stay as they were. */
  lemma VisitKnows(l: Ledger, root: string, p: Listed)
    ensures var after := Visit(l, root, p).known;
            && p.volume.id in after && l.known.Keys <= after.Keys
            && forall id :: id in l.known ==> after[id] == l.known[id]
  {
    hide Inspect, ProbeLoses, MountDir;
  }

  lemma OneMoreMedia(before: map<string, Known>, after: map<string, Known>, ids: set<string>, id: string)
    requires ids <= before.Keys <= after.Keys && id in after && forall i :: i in before ==> after[i] == before[i]
    ensures MediaAmong(after, ids + {id}) == MediaAmong(before, ids) + if after[id].media then {id} else {}
  {
  }

  lemma IdsSnoc(found: seq<Listed>, k: nat)
    requires k < |found|
    ensures Ids(found[..k + 1]) == Ids(found[..k]) + {found[k].volume.id}
    ensures found[k].volume.id in Ids(found)
    ensures Ids(found[..k]) <= Ids(found)
  {
    forall id | id in Ids(found[..k])
      ensures id in Ids(found[..k + 1]) && id in Ids(found)
    {
      var j :| 0 <= j < k && found[..k][j].volume.id == id;
      assert found[..k + 1][j].volume.id == id && found[j].volume.id == id;
    }
    assert found[..k + 1][k].volume.id == found[k].volume.id;
  }

  /** An entry whose identifier is new to the listing is that identifier's first. */
  lemma {:induction false} FirstAt(found: seq<Listed>, k: nat)
    requires k < |found| && found[k].volume.id !in Ids(found[..k])
    ensures found[k].volume.id in Ids(found) && First(found, found[k].volume.id) == found[k]
  {
    if k > 0 {
      assert found[..k][0] == found[0];
      var rest := found[1..][..k - 1];
      forall j | 0 <= j < |rest|
        ensures rest[j].volume.id != found[k].volume.id
      {
        assert rest[j] == found[..k][j + 1];
      }
      FirstAt(found[1..], k - 1);
    }
  }

  /** A run: a volume without media is mounted to look at it, cannot be unmounted, and is recorded as not mounted. */
  method MountLost(root: string) returns (table: VolumeTable)
    ensures fresh(table) && table.Valid() && |table.lost| == 1
    ensures table.known == map["sda1" := Known("", false, false)]
  {
    var p := Listed(Volume("sda1", ""), true, false, false);
    table := new VolumeTable(root);
    OneListed(p);
    var registered := table.ScanMassStorage(Scan(Some([p]), {}));
  }

  lemma OneListed(p: Listed)
    ensures Ids([p]) == {p.volume.id} && First([p], p.volume.id) == p
    ensures FailedUnmounts(map[], Scan(Some([p]), {})) == if ProbeLoses(p) then {p.volume.id} else {}
  {
    assert [p][0] == p;
  }

  /**
   What a scan records of a volume it lists and had no record of, by the volume's first entry: it is media if
   that has a media layout and is mounted, by the system or by the daemon; it is the daemon's to unmount if
   the daemon mounted it and it is media; and then its directory is the daemon's own, else the system's if any.
   */
  lemma NewRecord(root: string, found: seq<Listed>, k: nat)
    requires k < |found| && forall j :: 0 <= j < k ==> found[j].volume.id != found[k].volume.id
    ensures found[k].volume.id in Ids(found)
    ensures var p := found[k];
            var mv := Inspect(root, First(found, p.volume.id));
            && (mv.media <==> p.media && (p.volume.mountpoint != "" || p.mounts))
            && (mv.ours <==> p.media && p.volume.mountpoint == "" && p.mounts)
            && mv.dir == if p.volume.mountpoint != "" then p.volume.mountpoint
                         else if mv.ours then root + "/" + Sanitize(p.volume.id) else ""
  {
    assert forall j :: 0 <= j < k ==> found[..k][j] == found[j];
    FirstAt(found, k);
  }

  /** Letters and digits of ASCII, the minus and the underscore. */
  predicate IsPlain(c: char) {
    var n := c as int;
    48 <= n <= 57 || 65 <= n <= 90 || 97 <= n <= 122 || n == 45 || n == 95
  }

  /** A mount directory is named by the identifier, with every rune that is not plain replaced by an underscore. */
  lemma SanitizedName(root: string, id: string)
    ensures MountDir(root, id) == root + "/" + Sanitize(id)
    ensures |Sanitize(id)| == |id| && '/' !in Sanitize(id)
    ensures forall i :: 0 <= i < |id| ==> Sanitize(id)[i] == if IsPlain(id[i]) then id[i] else '_'
  {
    forall i | 0 <= i < |id|
      ensures Sanitize(id)[i] != '/' && Sanitize(id)[i] == if IsPlain(id[i]) then id[i] else '_'
    {
      assert Sanitize(id)[i] == SafeChar(id[i]);
    }
  }
}
