/**
 The hotplug pollers: scan, compare with the last scan that succeeded, emit what changed. Also the
 translation of the ADB server's state changes into the same kind of events.
 */
module Hotplug {
  import opened Wrappers

  datatype Event = Connected(id: string) | Disconnected(id: string)

  /** The identifiers a listing names. */
  function Ids(listing: seq<string>): set<string> {
    set id | id in listing
  }

  /** The set of devices a reader of the events believes to be there. */
  function Replay(present: set<string>, events: seq<Event>): set<string>
    decreases |events|
  {
    if events == [] then present
    else
      var e := events[0];
      Replay(if e.Connected? then present + {e.id} else present - {e.id}, events[1..])
  }

  /** Nothing connects twice or disconnects without being there. */
  predicate Sensible(present: set<string>, events: seq<Event>)
    decreases |events|
  {
    events == [] ||
    var e := events[0];
    if e.Connected? then e.id !in present && Sensible(present + {e.id}, events[1..])
    else e.id in present && Sensible(present - {e.id}, events[1..])
  }

  lemma {:induction false} ReplayConcat(present: set<string>, a: seq<Event>, b: seq<Event>)
    ensures Replay(present, a + b) == Replay(Replay(present, a), b)
    ensures Sensible(present, a + b) <==> Sensible(present, a) && Sensible(Replay(present, a), b)
    decreases |a|
  {
    if a == [] {
      assert a + b == b;
    } else {
      var e := a[0];
      assert (a + b)[1..] == a[1..] + b && (a + b)[0] == e;
      ReplayConcat(if e.Connected? then present + {e.id} else present - {e.id}, a[1..], b);
    }
  }

  lemma NoEvents(present: set<string>)
    ensures Replay(present, []) == present && Sensible(present, [])
  {
  }

  /** The last scan that succeeded, or what was known before. */
  function LastSeen(known: set<string>, scans: seq<Option<seq<string>>>): set<string> {
    if scans == [] then known
    else
      var last := scans[|scans| - 1];
      if last.Some? then Ids(last.value) else LastSeen(known, scans[..|scans| - 1])
  }

  function Flatten(batches: seq<seq<Event>>): seq<Event> {
    if batches == [] then [] else Flatten(batches[..|batches| - 1]) + batches[|batches| - 1]
  }

  /** One tick's events: everything that went away, then everything that came, each exactly once. */
  ghost predicate Difference(prev: set<string>, curr: set<string>, events: seq<Event>) {
    exists gone: seq<string>, come: seq<string> ::
      && events == Disconnects(gone) + Connects(come)
      && multiset(gone) == multiset(prev - curr) && multiset(come) == multiset(curr - prev)
  }

  function Disconnects(ids: seq<string>): seq<Event> {
    seq(|ids|, i requires 0 <= i < |ids| => Disconnected(ids[i]))
  }

  function Connects(ids: seq<string>): seq<Event> {
    seq(|ids|, i requires 0 <= i < |ids| => Connected(ids[i]))
  }

  /** The poller's loop: one batch of events per tick. */
  method PollHotplug(scans: seq<Option<seq<string>>>) returns (batches: seq<seq<Event>>)
    ensures |batches| == |scans|
    ensures forall k :: 0 <= k < |scans| && scans[k].None? ==> batches[k] == []
    ensures forall k :: 0 <= k < |scans| && scans[k].Some? ==>
              Difference(LastSeen({}, scans[..k]), Ids(scans[k].value), batches[k])
    ensures Replay({}, Flatten(batches)) == LastSeen({}, scans)
    ensures Sensible({}, Flatten(batches))
    ensures forall id :: TakesTurns(Of(Flatten(batches), id), true)
  {
    hide Replay, Sensible, Difference, TakesTurns, Of, LastSeen, Flatten, Ids;
    batches := [];
    var prev: set<string> := {};
    NoEvents({});
    NothingScanned();
    for k := 0 to |scans|
      invariant |batches| == k
      invariant prev == LastSeen({}, scans[..k])
      invariant forall j :: 0 <= j < k && scans[j].None? ==> batches[j] == []
      invariant forall j :: 0 <= j < k && scans[j].Some? ==>
                  Difference(LastSeen({}, scans[..j]), Ids(scans[j].value), batches[j])
      invariant Replay({}, Flatten(batches)) == prev
      invariant Sensible({}, Flatten(batches))
    {
      OneMoreScan(scans, k);
      var batch: seq<Event> := [];
      if scans[k].Some? {
        var curr := Ids(scans[k].value);
        batch := Tick(prev, curr);
        prev := curr;
      } else {
        NoEvents(prev);
      }
      ReplayConcat({}, Flatten(batches), batch);
      OneMoreBatch(batches, batch);
      batches := batches + [batch];
    }
    assert scans[..|scans|] == scans;
    forall id
      ensures TakesTurns(Of(Flatten(batches), id), true)
    {
      SensibleAlternates({}, Flatten(batches), id);
    }
  }

  lemma NothingScanned()
    ensures LastSeen({}, []) == {} && Flatten([]) == []
  {
  }

  lemma OneMoreScan(scans: seq<Option<seq<string>>>, k: nat)
    requires k < |scans|
    ensures LastSeen({}, scans[..k + 1])
         == if scans[k].Some? then Ids(scans[k].value) else LastSeen({}, scans[..k])
  {
    assert scans[..k + 1][..k] == scans[..k];
  }

  lemma OneMoreBatch(batches: seq<seq<Event>>, batch: seq<Event>)
    ensures Flatten(batches + [batch]) == Flatten(batches) + batch
  {
    assert (batches + [batch])[..|batches|] == batches;
  }

  /** Compares two scans; maps are walked in no particular order. */
  method Tick(prev: set<string>, curr: set<string>) returns (batch: seq<Event>)
    ensures Difference(prev, curr, batch)
    ensures Replay(prev, batch) == curr && Sensible(prev, batch)
  {
    var gone := Missing(prev, curr);
    var come := Missing(curr, prev);
    batch := Disconnects(gone) + Connects(come);
    TickReplays(prev, curr, gone, come);
  }

  /** The identifiers of one scan that the other lacks, each once. */
  method Missing(ids: set<string>, other: set<string>) returns (missing: seq<string>)
    ensures multiset(missing) == multiset(ids - other)
  {
    missing := [];
    var todo := ids;
    while todo != {}
      invariant todo <= ids
      invariant multiset(missing) == multiset((ids - todo) - other)
    {
      var id :| id in todo;
      OneFewer(ids, todo, other, id);
      todo := todo - {id};
      if id !in other {
        missing := missing + [id];
      }
    }
    assert (ids - todo) - other == ids - other;
  }

  lemma OneFewer(ids: set<string>, todo: set<string>, other: set<string>, id: string)
    requires todo <= ids && id in todo
    ensures (ids - (todo - {id})) - other == ((ids - todo) - other) + (if id in other then {} else {id})
    ensures id !in (ids - todo) - other
  {
  }

  lemma TickReplays(prev: set<string>, curr: set<string>, gone: seq<string>, come: seq<string>)
    requires multiset(gone) == multiset(prev - curr) && multiset(come) == multiset(curr - prev)
    ensures Replay(prev, Disconnects(gone) + Connects(come)) == curr
    ensures Sensible(prev, Disconnects(gone) + Connects(come))
  {
    hide Replay, Sensible, Disconnects, Connects;
    DisconnectAll(prev, gone, prev - curr);
    ConnectAll(prev - (prev - curr), come, curr - prev);
    ReplayConcat(prev, Disconnects(gone), Connects(come));
    assert prev - (prev - curr) + (curr - prev) == curr;
  }

  lemma {:induction false} DisconnectAll(present: set<string>, ids: seq<string>, s: set<string>)
    requires multiset(ids) == multiset(s) && s <= present
    ensures Replay(present, Disconnects(ids)) == present - s && Sensible(present, Disconnects(ids))
    decreases |ids|
  {
    if ids == [] {
      NothingListed(ids, s);
    } else {
      var rest := ids[1..];
      SplitFirst(ids, s);
      assert Disconnects(ids)[1..] == Disconnects(rest);
      DisconnectAll(present - {ids[0]}, rest, s - {ids[0]});
    }
  }

  lemma {:induction false} ConnectAll(present: set<string>, ids: seq<string>, s: set<string>)
    requires multiset(ids) == multiset(s) && s !! present
    ensures Replay(present, Connects(ids)) == present + s && Sensible(present, Connects(ids))
    decreases |ids|
  {
    if ids == [] {
      NothingListed(ids, s);
    } else {
      var rest := ids[1..];
      SplitFirst(ids, s);
      assert Connects(ids)[1..] == Connects(rest);
      assert present + {ids[0]} + (s - {ids[0]}) == present + s;
      ConnectAll(present + {ids[0]}, rest, s - {ids[0]});
    }
  }

  lemma NothingListed(ids: seq<string>, s: set<string>)
    requires multiset(ids) == multiset(s) && ids == []
    ensures s == {}
  {
    assert forall x :: x in s ==> multiset(ids)[x] == 1;
  }

  lemma SplitFirst(ids: seq<string>, s: set<string>)
    requires multiset(ids) == multiset(s) && ids != []
    ensures ids[0] in s && multiset(ids[1..]) == multiset(s - {ids[0]})
  {
    assert ids == [ids[0]] + ids[1..];
    assert multiset(ids)[ids[0]] >= 1;
    assert ids[0] in multiset(s);
    forall x
      ensures multiset(ids[1..])[x] == multiset(s - {ids[0]})[x]
    {
      assert multiset(ids)[x] == multiset(s)[x];
    }
  }

  // ---- One device's events ----------------------------------------------------------------

  /** What happened to this device, in order: true for a connect, false for a disconnect. */
  function Of(events: seq<Event>, id: string): seq<bool>
    decreases |events|
  {
    if events == [] then []
    else (if events[0].id == id then [events[0].Connected?] else []) + Of(events[1..], id)
  }

  /** Connected and disconnected take turns, beginning as told. */
  predicate TakesTurns(flags: seq<bool>, first: bool) {
    forall k :: 0 <= k < |flags| ==> flags[k] == ((k % 2 == 0) == first)
  }

  lemma NoTurns(first: bool)
    ensures TakesTurns([], first)
  {
  }

  lemma OneMoreTurn(flags: seq<bool>, first: bool)
    requires TakesTurns(flags, !first)
    ensures TakesTurns([first] + flags, first)
  {
    var all := [first] + flags;
    forall k | 0 <= k < |all|
      ensures all[k] == ((k % 2 == 0) == first)
    {
      if k > 0 {
        assert all[k] == flags[k - 1];
      }
    }
  }

  lemma {:induction false} SensibleAlternates(present: set<string>, events: seq<Event>, id: string)
    requires Sensible(present, events)
    ensures TakesTurns(Of(events, id), id !in present)
    decreases |events|
  {
    hide TakesTurns;
    if events == [] {
      NoTurns(id !in present);
    } else {
      var e := events[0];
      var rest := Of(events[1..], id);
      SensibleAlternates(if e.Connected? then present + {e.id} else present - {e.id}, events[1..], id);
      if e.id == id {
        OneMoreTurn(rest, e.Connected?);
        assert Of(events, id) == [e.Connected?] + rest;
      } else {
        assert Of(events, id) == rest;
      }
    }
  }

  // ---- ADB state changes ------------------------------------------------------------------

  datatype AdbState = Device | Unauthorized | Offline | Other

  datatype AdbEvent = AdbConnected | AdbDisconnected | AdbUnauthorized | AdbAuthorized | AdbStateChange

  function TranslateStateChange(previous: AdbState, current: AdbState): AdbEvent {
    if current == Device && previous != Device then AdbConnected
    else if current != Device && previous == Device then AdbDisconnected
    else if current == Unauthorized then AdbUnauthorized
    else if current == Device && previous == Unauthorized then AdbAuthorized
    else AdbStateChange
  }

  /** The connect (true) and disconnect (false) events of a device going through these states. */
  function Edges(states: seq<AdbState>): seq<bool> {
    if |states| < 2 then []
    else
      var e := TranslateStateChange(states[0], states[1]);
      (if e == AdbConnected || e == AdbDisconnected then [e == AdbConnected] else []) + Edges(states[1..])
  }

  /** They alternate, and say at the end whether the device is there. */
  lemma {:induction false} EdgesAlternate(states: seq<AdbState>)
    requires states != []
    ensures TakesTurns(Edges(states), states[0] != Device)
    ensures (states[|states| - 1] == Device) == ((states[0] == Device) == (|Edges(states)| % 2 == 0))
  {
    hide TakesTurns;
    if |states| == 1 {
      NoTurns(states[0] != Device);
    } else {
      var rest := states[1..];
      EdgesAlternate(rest);
      assert rest[|rest| - 1] == states[|states| - 1];
      if (states[0] == Device) != (states[1] == Device) {
        OneMoreTurn(Edges(rest), states[1] == Device);
        assert Edges(states) == [states[1] == Device] + Edges(rest);
      } else {
        assert Edges(states) == Edges(rest);
      }
    }
  }

  /** The "authorized" event is announced in the event type but cannot occur. */
  lemma NeverAuthorized()
    ensures forall previous, current :: TranslateStateChange(previous, current) != AdbAuthorized
  {
    forall previous, current
      ensures TranslateStateChange(previous, current) != AdbAuthorized
    {
    }
  }

  /** What each change of state is announced as. */
  lemma Announced(previous: AdbState, current: AdbState)
    ensures var e := TranslateStateChange(previous, current);
            && (e == AdbConnected <==> previous != Device && current == Device)
            && (e == AdbDisconnected <==> previous == Device && current != Device)
            && (e == AdbUnauthorized <==> previous != Device && current == Unauthorized)
            && (e == AdbStateChange <==> (previous == Device <==> current == Device) && current != Unauthorized)
  {
  }
}
