/** Choosing the mission inside a KMZ: two preferred entries, then any other KML-like one. */
module Archive {
  import opened Wrappers
  import opened Text
  import Kml

  /** An archive member, with what opening and parsing it yields. */
  datatype Entry = Entry(name: string, content: Result<Kml.Mission, Kml.ParseError>)

  datatype Extraction = Found(mission: Kml.Mission, source: string) | Broken(entry: string) | NothingUsable

  const CANDIDATES: seq<string> := ["wpmz/template.kml", "wpmz/waylines.wpml"]

  predicate HasSuffix(s: string, suffix: string) {
    |suffix| <= |s| && s[|s| - |suffix|..] == suffix
  }

  predicate IsKmlLike(name: string) {
    HasSuffix(Upper(name), ".KML") || HasSuffix(Upper(name), ".WPML")
  }

  /** The archive's directory as a map: of entries with one name, the last one counts. */
  function LastNamed(entries: seq<Entry>, name: string): seq<Entry> {
    if entries == [] then []
    else if entries[|entries| - 1].name == name then [entries[|entries| - 1]]
    else LastNamed(entries[..|entries| - 1], name)
  }

  function Others(entries: seq<Entry>): seq<Entry> {
    if entries == [] then []
    else
      var e := entries[|entries| - 1];
      Others(entries[..|entries| - 1]) + if IsKmlLike(e.name) && e.name !in CANDIDATES then [e] else []
  }

  /** The entries in the order they are tried. */
  function Attempts(entries: seq<Entry>): seq<Entry> {
    LastNamed(entries, CANDIDATES[0]) + LastNamed(entries, CANDIDATES[1]) + Others(entries)
  }

  predicate Skipped(e: Entry) {
    e.content == Err(Kml.NoWaypoints)
  }

  function Verdict(e: Entry): Extraction {
    if e.content.Ok? then Found(e.content.value, e.name) else Broken(e.name)
  }

  /** `r` is what the first entry that is not merely empty says, and nothing when all are empty. */
  ghost predicate FirstDecides(attempts: seq<Entry>, r: Extraction) {
    || (r == NothingUsable && forall e :: e in attempts ==> Skipped(e))
    || (exists k :: 0 <= k < |attempts| && !Skipped(attempts[k]) && r == Verdict(attempts[k])
                    && forall j :: 0 <= j < k ==> Skipped(attempts[j]))
  }

  lemma FirstDecidesExtend(before: seq<Entry>, e: Entry, after: seq<Entry>)
    requires forall x :: x in before ==> Skipped(x)
    requires !Skipped(e)
    ensures FirstDecides(before + [e] + after, Verdict(e))
  {
    var all := before + [e] + after;
    assert all[|before|] == e;
    forall j | 0 <= j < |before|
      ensures Skipped(all[j])
    {
      assert all[j] == before[j] && before[j] in before;
    }
  }

  /** The map from name to entry the archive's directory becomes. */
  method ByName(entries: seq<Entry>) returns (byName: map<string, Entry>)
    ensures forall name :: LastNamed(entries, name) == if name in byName then [byName[name]] else []
  {
    byName := map[];
    for i := 0 to |entries|
      invariant forall name :: LastNamed(entries[..i], name) == if name in byName then [byName[name]] else []
    {
      assert entries[..i + 1][..i] == entries[..i];
      byName := byName[entries[i].name := entries[i]];
    }
    assert entries[..|entries|] == entries;
  }

  method ExtractMission(entries: seq<Entry>) returns (r: Extraction)
    ensures FirstDecides(Attempts(entries), r)
  {
    hide FirstDecides, LastNamed, Others, Untried, Attempts;
    var byName := ByName(entries);
    ghost var tried: seq<Entry> := [];
    UntriedStart(entries);
    for c := 0 to |CANDIDATES|
      invariant tried + Untried(entries, c) == Attempts(entries)
      invariant forall x :: x in tried ==> Skipped(x)
    {
      var name := CANDIDATES[c];
      UntriedStep(entries, tried, c);
      if name in byName {
        var e := byName[name];
        LastIsNamed(entries, name);
        if !Skipped(e) {
          FirstDecidesExtend(tried, e, Untried(entries, c + 1));
          return if e.content.Ok? then Found(e.content.value, name) else Broken(name);
        }
        tried := tried + [e];
      }
    }
    UntriedEnd(entries);
    r := ExtractOther(entries, tried);
  }

  lemma UntriedEnd(entries: seq<Entry>)
    ensures Untried(entries, |CANDIDATES|) == Others(entries)
  {
  }

  lemma UntriedStart(entries: seq<Entry>)
    ensures [] + Untried(entries, 0) == Attempts(entries)
  {
  }

  lemma UntriedStep(entries: seq<Entry>, tried: seq<Entry>, c: nat)
    requires c < |CANDIDATES|
    ensures tried + Untried(entries, c) == tried + LastNamed(entries, CANDIDATES[c]) + Untried(entries, c + 1)
  {
    hide LastNamed, Others;
    assert LastNamed(entries, CANDIDATES[c]) + Untried(entries, c + 1) == Untried(entries, c);
  }

  lemma {:induction false} LastIsNamed(entries: seq<Entry>, name: string)
    ensures forall e :: e in LastNamed(entries, name) ==> e.name == name
  {
    if entries != [] {
      LastIsNamed(entries[..|entries| - 1], name);
    }
  }

  /** The attempts from candidate `c` on. */
  function Untried(entries: seq<Entry>, c: nat): seq<Entry>
    requires c <= |CANDIDATES|
  {
    if c == 0 then LastNamed(entries, CANDIDATES[0]) + (LastNamed(entries, CANDIDATES[1]) + Others(entries))
    else if c == 1 then LastNamed(entries, CANDIDATES[1]) + Others(entries)
    else Others(entries)
  }

  /** The catch-all pass over entries that are not candidates. */
  method ExtractOther(entries: seq<Entry>, ghost tried: seq<Entry>) returns (r: Extraction)
    requires forall x :: x in tried ==> Skipped(x)
    ensures FirstDecides(tried + Others(entries), r)
  {
    hide FirstDecides, HasSuffix, LastNamed;
    for i := 0 to |entries|
      invariant forall x :: x in Others(entries[..i]) ==> Skipped(x)
    {
      OthersSnoc(entries, i);
      var e := entries[i];
      if !IsKmlLike(e.name) || e.name in CANDIDATES {
        continue;
      }
      if !Skipped(e) {
        OtherDecides(entries, tried, i);
        return if e.content.Ok? then Found(e.content.value, e.name) else Broken(e.name);
      }
    }
    assert entries[..|entries|] == entries;
    r := NothingUsable;
    AllSkipped(tried, Others(entries));
  }

  lemma OthersSnoc(entries: seq<Entry>, i: nat)
    requires i < |entries|
    ensures var e := entries[i];
            Others(entries[..i + 1])
              == Others(entries[..i]) + if IsKmlLike(e.name) && e.name !in CANDIDATES then [e] else []
  {
    assert entries[..i + 1][..i] == entries[..i];
  }

  lemma OtherDecides(entries: seq<Entry>, tried: seq<Entry>, i: nat)
    requires i < |entries| && IsKmlLike(entries[i].name) && entries[i].name !in CANDIDATES && !Skipped(entries[i])
    requires forall x :: x in tried ==> Skipped(x)
    requires forall x :: x in Others(entries[..i]) ==> Skipped(x)
    ensures FirstDecides(tried + Others(entries), Verdict(entries[i]))
  {
    hide FirstDecides, IsKmlLike, Others, Skipped, Verdict;
    var e, pre, all := entries[i], Others(entries[..i]), Others(entries);
    OthersSnoc(entries, i);
    OthersPrefix(entries, i + 1);
    Splice(tried, pre, e, all);
    BothSkipped(tried, pre);
    FirstDecidesExtend(tried + pre, e, all[|pre| + 1..]);
  }

  lemma BothSkipped(a: seq<Entry>, b: seq<Entry>)
    requires (forall x :: x in a ==> Skipped(x)) && forall x :: x in b ==> Skipped(x)
    ensures forall x :: x in a + b ==> Skipped(x)
  {
    hide Skipped;
  }

  lemma Splice(tried: seq<Entry>, pre: seq<Entry>, e: Entry, all: seq<Entry>)
    requires pre + [e] <= all
    ensures tried + all == tried + pre + [e] + all[|pre| + 1..]
  {
  }

  lemma AllSkipped(a: seq<Entry>, b: seq<Entry>)
    requires (forall x :: x in a ==> Skipped(x)) && forall x :: x in b ==> Skipped(x)
    ensures FirstDecides(a + b, NothingUsable)
  {
  }

  lemma {:induction false} OthersPrefix(entries: seq<Entry>, n: nat)
    requires n <= |entries|
    ensures Others(entries[..n]) <= Others(entries)
  {
    if n < |entries| {
      OthersPrefix(entries[..|entries| - 1], n);
      assert entries[..|entries| - 1][..n] == entries[..n];
    } else {
      assert entries[..n] == entries;
    }
  }

  /** The rule fixes the answer: no two verdicts satisfy it. */
  lemma FirstDecidesIsUnique(attempts: seq<Entry>, r: Extraction, s: Extraction)
    requires FirstDecides(attempts, r) && FirstDecides(attempts, s)
    ensures r == s
  {
    if r != NothingUsable && s != NothingUsable {
      var j :| 0 <= j < |attempts| && !Skipped(attempts[j]) && r == Verdict(attempts[j])
               && forall i :: 0 <= i < j ==> Skipped(attempts[i]);
      var k :| 0 <= k < |attempts| && !Skipped(attempts[k]) && s == Verdict(attempts[k])
               && forall i :: 0 <= i < k ==> Skipped(attempts[i]);
      assert j == k;
    }
  }

  // ---- The rule on the archive itself -----------------------------------------------------

  predicate EndsIn(name: string, ext: string) {
    |ext| <= |name| && EqualFold(name[|name| - |ext|..], ext)
  }

  /** No later entry has the name. */
  ghost predicate LastOfName(entries: seq<Entry>, k: int) {
    0 <= k < |entries| && forall j :: k < j < |entries| ==> entries[j].name != entries[k].name
  }

  /** When entry k is tried: the template first, then the waylines, then whatever else looks like KML; 3 is never. */
  ghost function Turn(entries: seq<Entry>, k: int): nat {
    if !(0 <= k < |entries|) then 3
    else
      var name := entries[k].name;
      if name == "wpmz/template.kml" then if LastOfName(entries, k) then 0 else 3
      else if name == "wpmz/waylines.wpml" then if LastOfName(entries, k) then 1 else 3
      else if EndsIn(name, ".kml") || EndsIn(name, ".wpml") then 2 else 3
  }

  ghost predicate Earlier(entries: seq<Entry>, j: int, k: int) {
    Turn(entries, j) < Turn(entries, k) || (Turn(entries, j) == Turn(entries, k) && j < k)
  }

  /** Where the attempts stand in the archive. */
  function LastAt(entries: seq<Entry>, name: string): seq<int> {
    if entries == [] then []
    else
      var n := |entries| - 1;
      if entries[n].name == name then [n] else LastAt(entries[..n], name)
  }

  function OthersAt(entries: seq<Entry>): seq<int> {
    if entries == [] then []
    else
      var n := |entries| - 1;
      OthersAt(entries[..n]) + if IsKmlLike(entries[n].name) && entries[n].name !in CANDIDATES then [n] else []
  }

  /** These positions hold these entries. */
  predicate Stand(entries: seq<Entry>, at: seq<int>, some: seq<Entry>) {
    |at| == |some| && forall i :: 0 <= i < |at| ==> 0 <= at[i] < |entries| && entries[at[i]] == some[i]
  }

  lemma StandConcat(entries: seq<Entry>, a: seq<int>, x: seq<Entry>, b: seq<int>, y: seq<Entry>)
    requires Stand(entries, a, x) && Stand(entries, b, y)
    ensures Stand(entries, a + b, x + y)
  {
  }

  lemma StandLonger(entries: seq<Entry>, n: nat, at: seq<int>, some: seq<Entry>)
    requires n <= |entries| && Stand(entries[..n], at, some)
    ensures Stand(entries, at, some)
  {
  }

  lemma {:induction false} LastStands(entries: seq<Entry>, name: string)
    ensures Stand(entries, LastAt(entries, name), LastNamed(entries, name)) && |LastAt(entries, name)| <= 1
    ensures forall k :: k in LastAt(entries, name) <==>
                          0 <= k < |entries| && entries[k].name == name && LastOfName(entries, k)
  {
    if entries != [] && entries[|entries| - 1].name != name {
      LastStands(entries[..|entries| - 1], name);
    }
  }

  predicate IsOther(name: string) {
    IsKmlLike(name) && name !in CANDIDATES
  }

  lemma {:induction false} OthersStand(entries: seq<Entry>)
    ensures Stand(entries, OthersAt(entries), Others(entries))
    ensures forall i, j :: 0 <= i < j < |OthersAt(entries)| ==> OthersAt(entries)[i] < OthersAt(entries)[j]
    ensures forall k :: k in OthersAt(entries) <==> 0 <= k < |entries| && IsOther(entries[k].name)
  {
    hide IsOther, OthersAt, Others, Stand;
    OthersAtLast(entries);
    if entries != [] {
      var n := |entries| - 1;
      var init := entries[..n];
      OthersStand(init);
      StandLonger(entries, n, OthersAt(init), Others(init));
      if IsOther(entries[n].name) {
        OneStands(entries, n);
        StandConcat(entries, OthersAt(init), Others(init), [n], [entries[n]]);
        InAppended(OthersAt(init), n);
      }
    } else {
      NoneStand();
    }
  }

  lemma OthersAtLast(entries: seq<Entry>)
    ensures entries == [] ==> OthersAt(entries) == [] && Others(entries) == []
    ensures entries != [] ==>
              var n := |entries| - 1;
              if IsOther(entries[n].name) then
                && OthersAt(entries) == OthersAt(entries[..n]) + [n]
                && Others(entries) == Others(entries[..n]) + [entries[n]]
              else OthersAt(entries) == OthersAt(entries[..n]) && Others(entries) == Others(entries[..n])
  {
    hide IsKmlLike;
  }

  lemma OneStands(entries: seq<Entry>, n: nat)
    requires n < |entries|
    ensures Stand(entries, [n], [entries[n]])
  {
  }

  lemma NoneStand()
    ensures Stand([], [], [])
  {
  }

  lemma InAppended(at: seq<int>, n: int)
    requires (forall i, j :: 0 <= i < j < |at| ==> at[i] < at[j]) && forall k :: k in at ==> k < n
    ensures forall i, j :: 0 <= i < j < |at + [n]| ==> (at + [n])[i] < (at + [n])[j]
    ensures forall k :: k in at + [n] <==> k in at || k == n
  {
    assert forall i :: 0 <= i < |at| ==> at[i] in at;
  }

  lemma KmlLikeEnds(name: string)
    ensures IsKmlLike(name) <==> EndsIn(name, ".kml") || EndsIn(name, ".wpml")
  {
    hide Upper;
    UpperEnds(name, ".kml", ".KML");
    UpperEnds(name, ".wpml", ".WPML");
  }

  lemma UpperEnds(name: string, ext: string, up: string)
    requires |ext| == |up| && forall i :: 0 <= i < |ext| ==> UpperChar(ext[i]) == up[i]
    ensures HasSuffix(Upper(name), up) <==> EndsIn(name, ext)
  {
    hide Upper;
    assert Upper(ext) == up;
    if |ext| <= |name| {
      var n := |name| - |ext|;
      assert Upper(name)[n..] == Upper(name[n..]);
    }
  }

  lemma AttemptsStand(entries: seq<Entry>) returns (at: seq<int>)
    ensures Stand(entries, at, Attempts(entries))
    ensures forall i, j :: 0 <= i < j < |at| ==> Earlier(entries, at[i], at[j])
    ensures forall k :: k in at <==> Turn(entries, k) < 3
  {
    hide LastNamed, Others, LastAt, OthersAt, IsKmlLike, EndsIn, LastOfName, Turn, Stand, Earlier;
    var a, b, c := LastAt(entries, CANDIDATES[0]), LastAt(entries, CANDIDATES[1]), OthersAt(entries);
    LastStands(entries, CANDIDATES[0]);
    LastStands(entries, CANDIDATES[1]);
    OthersStand(entries);
    TurnsOf(entries, a, b, c);
    Turns(entries, a, b, c);
    StandConcat(entries, a, LastNamed(entries, CANDIDATES[0]), b, LastNamed(entries, CANDIDATES[1]));
    StandConcat(entries, a + b, LastNamed(entries, CANDIDATES[0]) + LastNamed(entries, CANDIDATES[1]),
                c, Others(entries));
    at := a + b + c;
  }

  lemma TurnsOf(entries: seq<Entry>, a: seq<int>, b: seq<int>, c: seq<int>)
    requires forall k :: k in a <==> 0 <= k < |entries| && entries[k].name == CANDIDATES[0] && LastOfName(entries, k)
    requires forall k :: k in b <==> 0 <= k < |entries| && entries[k].name == CANDIDATES[1] && LastOfName(entries, k)
    requires forall k :: k in c <==>
                           0 <= k < |entries| && IsKmlLike(entries[k].name) && entries[k].name !in CANDIDATES
    ensures forall k :: (k in a <==> Turn(entries, k) == 0)
    ensures forall k :: (k in b <==> Turn(entries, k) == 1)
    ensures forall k :: (k in c <==> Turn(entries, k) == 2)
  {
    hide IsKmlLike, EndsIn, LastOfName, Turn;
    forall k
      ensures k in a <==> Turn(entries, k) == 0
      ensures k in b <==> Turn(entries, k) == 1
      ensures k in c <==> Turn(entries, k) == 2
    {
      TurnOf(entries, k);
    }
  }

  lemma Turns(entries: seq<Entry>, a: seq<int>, b: seq<int>, c: seq<int>)
    requires |a| <= 1 && |b| <= 1 && forall i, j :: 0 <= i < j < |c| ==> c[i] < c[j]
    requires forall k :: (k in a <==> Turn(entries, k) == 0)
    requires forall k :: (k in b <==> Turn(entries, k) == 1)
    requires forall k :: (k in c <==> Turn(entries, k) == 2)
    ensures var at := a + b + c;
            && (forall i, j :: 0 <= i < j < |at| ==> Earlier(entries, at[i], at[j]))
            && (forall k :: (k in at <==> Turn(entries, k) < 3))
  {
    hide Turn;
    var at := a + b + c;
    forall i | 0 <= i < |at|
      ensures i < |a| ==> at[i] == a[i] && Turn(entries, at[i]) == 0
      ensures |a| <= i < |a| + |b| ==> at[i] == b[i - |a|] && Turn(entries, at[i]) == 1
      ensures |a| + |b| <= i ==> at[i] == c[i - |a| - |b|] && Turn(entries, at[i]) == 2
    {
      assert i < |a| ==> at[i] in a;
      assert |a| <= i < |a| + |b| ==> at[i] in b;
      assert |a| + |b| <= i ==> at[i] in c;
    }
  }

  /** Which entries are tried at which turn. */
  lemma TurnOf(entries: seq<Entry>, k: int)
    ensures Turn(entries, k) == 0 <==>
              0 <= k < |entries| && entries[k].name == CANDIDATES[0] && LastOfName(entries, k)
    ensures Turn(entries, k) == 1 <==>
              0 <= k < |entries| && entries[k].name == CANDIDATES[1] && LastOfName(entries, k)
    ensures Turn(entries, k) == 2 <==>
              0 <= k < |entries| && IsKmlLike(entries[k].name) && entries[k].name !in CANDIDATES
  {
    hide IsKmlLike, EndsIn, LastOfName;
    if 0 <= k < |entries| {
      KmlLikeEnds(entries[k].name);
    }
  }

  /** What an entry that decides says. */
  predicate SaidBy(e: Entry, r: Extraction) {
    match e.content
    case Ok(mission) => r == Found(mission, e.name)
    case Err(_) => r == Broken(e.name)
  }

  lemma FirstTried(attempts: seq<Entry>, r: Extraction) returns (k: nat)
    requires FirstDecides(attempts, r) && !r.NothingUsable?
    ensures k < |attempts| && !Skipped(attempts[k]) && SaidBy(attempts[k], r)
    ensures forall j :: 0 <= j < k ==> Skipped(attempts[j])
  {
    k :| 0 <= k < |attempts| && !Skipped(attempts[k]) && r == Verdict(attempts[k])
         && forall j :: 0 <= j < k ==> Skipped(attempts[j]);
  }

  lemma AllEmpty(attempts: seq<Entry>, e: Entry)
    requires FirstDecides(attempts, NothingUsable) && e in attempts
    ensures Skipped(e)
  {
  }

  /**
   The mission, or the error, is that of the entry whose turn comes first among those that can be tried and are
   not merely without waypoints; there is nothing usable when all of these are.
   */
  lemma EarliestDecides(entries: seq<Entry>, r: Extraction)
    requires FirstDecides(Attempts(entries), r)
    ensures r.NothingUsable? ==>
              forall k :: 0 <= k < |entries| && Turn(entries, k) < 3 ==> entries[k].content == Err(Kml.NoWaypoints)
    ensures !r.NothingUsable? ==>
              exists k :: && 0 <= k < |entries| && Turn(entries, k) < 3
                          && entries[k].content != Err(Kml.NoWaypoints) && SaidBy(entries[k], r)
                          && forall j :: 0 <= j < |entries| && Earlier(entries, j, k) ==>
                                           entries[j].content == Err(Kml.NoWaypoints)
  {
    hide Attempts, Turn, FirstDecides;
    var at := AttemptsStand(entries);
    var tried := Attempts(entries);
    if r.NothingUsable? {
      forall k | 0 <= k < |entries| && Turn(entries, k) < 3
        ensures entries[k].content == Err(Kml.NoWaypoints)
      {
        var i :| 0 <= i < |at| && at[i] == k;
        assert tried[i] in tried;
        AllEmpty(tried, tried[i]);
      }
    } else {
      var i := FirstTried(tried, r);
      var k := at[i];
      assert k in at && entries[k] == tried[i];
      forall j | 0 <= j < |entries| && Earlier(entries, j, k)
        ensures entries[j].content == Err(Kml.NoWaypoints)
      {
        assert j in at;
        var q :| 0 <= q < |at| && at[q] == j;
        assert q < i;
      }
      assert SaidBy(entries[k], r);
    }
  }
}
