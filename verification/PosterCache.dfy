/**
 The poster protocol: any number of concurrent calls share a cache under a mutex and a one-slot
 semaphore around the extraction. Each action below is one step that no other call can interrupt.
 */
module PosterCache {
  import opened Totals
  import opened Wrappers

  type Jpeg = seq<bv8>

  datatype Answer = Poster(jpeg: Jpeg) | NotFound

  /** Where a call is. From `Rechecking` to `Leaving` it holds the semaphore. */
  datatype Pc =
    | Looking
    | Waiting
    | Rechecking
    | Extracting
    | Storing(entry: Option<Jpeg>)
    | Leaving(answer: Answer)
    | Done(answer: Answer)

  datatype Call = Call(path: string, pc: Pc)

  /** What happened so far: extractions begun, cache entries stored, extractions ended by a missing ffmpeg. */
  datatype Event = Begun(path: string) | Stored(path: string, entry: Option<Jpeg>) | ToolMissing(path: string)

  /** A cache entry of `None` is a remembered failure. */
  datatype State = State(calls: map<nat, Call>, cache: map<string, Option<Jpeg>>, sem: Option<nat>, log: seq<Event>)

  const START := State(map[], map[], None, [])

  datatype Action =
    | Enter(call: nat, path: string)
    | LookUp(call: nat)
    | Acquire(call: nat)
    | Recheck(call: nat)
    | Succeed(call: nat, jpeg: Jpeg)
    | Fail(call: nat)
    | MissTool(call: nat)
    | Store(call: nat)
    | Release(call: nat)

  predicate Enabled(s: State, a: Action) {
    match a
    case Enter(t, _) => t !in s.calls
    case LookUp(t) => t in s.calls && s.calls[t].pc == Looking
    case Acquire(t) => t in s.calls && s.calls[t].pc == Waiting && s.sem == None
    case Recheck(t) => t in s.calls && s.calls[t].pc == Rechecking
    case Succeed(t, _) => t in s.calls && s.calls[t].pc == Extracting
    case Fail(t) => t in s.calls && s.calls[t].pc == Extracting
    case MissTool(t) => t in s.calls && s.calls[t].pc == Extracting
    case Store(t) => t in s.calls && s.calls[t].pc.Storing?
    case Release(t) => t in s.calls && s.calls[t].pc.Leaving?
  }

  function AnswerOf(entry: Option<Jpeg>): Answer {
    if entry.Some? then Poster(entry.value) else NotFound
  }

  function Goto(s: State, t: nat, pc: Pc): State
    requires t in s.calls
  {
    s.(calls := s.calls[t := s.calls[t].(pc := pc)])
  }

  function Apply(s: State, a: Action): State
    requires Enabled(s, a)
  {
    match a
    case Enter(t, path) => s.(calls := s.calls[t := Call(path, Looking)])
    case LookUp(t) =>
      var p := s.calls[t].path;
      Goto(s, t, if p in s.cache then Done(AnswerOf(s.cache[p])) else Waiting)
    case Acquire(t) => Goto(s, t, Rechecking).(sem := Some(t))
    case Recheck(t) =>
      var p := s.calls[t].path;
      if p in s.cache then Goto(s, t, Leaving(AnswerOf(s.cache[p])))
      else Goto(s, t, Extracting).(log := s.log + [Begun(p)])
    case Succeed(t, jpeg) => Goto(s, t, Storing(Some(jpeg)))
    case Fail(t) => Goto(s, t, Storing(None))
    case MissTool(t) => Goto(s, t, Leaving(NotFound)).(log := s.log + [ToolMissing(s.calls[t].path)])
    case Store(t) =>
      var p, entry := s.calls[t].path, s.calls[t].pc.entry;
      Goto(s, t, Leaving(AnswerOf(entry))).(cache := s.cache[p := entry], log := s.log + [Stored(p, entry)])
    case Release(t) => Goto(s, t, Done(s.calls[t].pc.answer)).(sem := None)
  }

  /** The actions can be taken one after the other. */
  predicate Possible(s: State, run: seq<Action>)
    decreases |run|
  {
    run == [] || (Enabled(s, run[0]) && Possible(Apply(s, run[0]), run[1..]))
  }

  function After(s: State, run: seq<Action>): State
    requires Possible(s, run)
    decreases |run|
  {
    if run == [] then s else After(Apply(s, run[0]), run[1..])
  }

  // ---- What holds in every state a run can reach ------------------------------------------

  predicate Holds(pc: Pc) {
    pc.Rechecking? || pc.Extracting? || pc.Storing? || pc.Leaving?
  }

  predicate Producing(pc: Pc) {
    pc.Extracting? || pc.Storing?
  }

  predicate Answered(pc: Pc) {
    pc.Leaving? || pc.Done?
  }

  function Begins(log: seq<Event>, path: string): nat {
    if log == [] then 0 else Begins(log[..|log| - 1], path) + if log[|log| - 1] == Begun(path) then 1 else 0
  }

  function Misses(log: seq<Event>, path: string): nat {
    if log == [] then 0 else Misses(log[..|log| - 1], path) + if log[|log| - 1] == ToolMissing(path) then 1 else 0
  }

  function Stores(log: seq<Event>, path: string): nat {
    if log == [] then 0
    else
      var last := log[|log| - 1];
      Stores(log[..|log| - 1], path) + if last.Stored? && last.path == path then 1 else 0
  }

  /** Extractions of `path` under way: the semaphore holder's, if that is what it is doing. */
  function InFlight(s: State, path: string): nat {
    if s.sem.Some? && s.sem.value in s.calls && s.calls[s.sem.value].path == path
       && Producing(s.calls[s.sem.value].pc) then 1 else 0
  }

  /** The semaphore's holder is the one call inside the guarded section. */
  ghost predicate Guarded(s: State) {
    && (forall t :: t in s.calls && Holds(s.calls[t].pc) ==> s.sem == Some(t))
    && (s.sem.Some? ==> s.sem.value in s.calls && Holds(s.calls[s.sem.value].pc))
  }

  /** Posters are only produced for paths not cached, and every answer has its reason on record. */
  ghost predicate Honest(s: State) {
    && (forall t :: t in s.calls && Producing(s.calls[t].pc) ==> s.calls[t].path !in s.cache)
    && (forall t :: t in s.calls && Answered(s.calls[t].pc) ==> Justified(s, s.calls[t]))
  }

  /** Extractions begun are stored, missed their tool, or are still under way. */
  ghost predicate Accounted(s: State) {
    && (forall p :: Stores(s.log, p) == if p in s.cache then 1 else 0)
    && (forall p :: Begins(s.log, p) == Stores(s.log, p) + Misses(s.log, p) + InFlight(s, p))
  }

  ghost predicate Inv(s: State) {
    Guarded(s) && Honest(s) && Accounted(s)
  }

  /** A poster is the cached one; a refusal is a cached failure or a missing tool. */
  predicate Justified(s: State, c: Call)
    requires Answered(c.pc)
  {
    match c.pc.answer
    case Poster(jpeg) => c.path in s.cache && s.cache[c.path] == Some(jpeg)
    case NotFound => (c.path in s.cache && s.cache[c.path] == None) || Misses(s.log, c.path) > 0
  }

  lemma LogSnoc(log: seq<Event>, e: Event, p: string)
    ensures Begins(log + [e], p) == Begins(log, p) + if e == Begun(p) then 1 else 0
    ensures Misses(log + [e], p) == Misses(log, p) + if e == ToolMissing(p) then 1 else 0
    ensures Stores(log + [e], p) == Stores(log, p) + if e.Stored? && e.path == p then 1 else 0
  {
    assert (log + [e])[..|log|] == log;
  }

  lemma StaysGuarded(s: State, a: Action)
    requires Guarded(s) && Enabled(s, a)
    ensures Guarded(Apply(s, a))
  {
  }

  lemma LogGrows(s: State, a: Action, p: string)
    requires Enabled(s, a)
    ensures Misses(s.log, p) <= Misses(Apply(s, a).log, p)
    ensures a.MissTool? && s.calls[a.call].path == p ==> Misses(Apply(s, a).log, p) > 0
  {
    var log := Apply(s, a).log;
    if |log| > |s.log| {
      LogSnoc(s.log, log[|s.log|], p);
      assert log == s.log + [log[|s.log|]];
    }
  }

  lemma StaysHonest(s: State, a: Action)
    requires Guarded(s) && Honest(s) && Enabled(s, a)
    ensures Honest(Apply(s, a))
  {
    hide Misses;
    var s' := Apply(s, a);
    forall t | t in s'.calls && Answered(s'.calls[t].pc)
      ensures Justified(s', s'.calls[t])
    {
      LogGrows(s, a, s'.calls[t].path);
    }
  }

  lemma StaysAccounted(s: State, a: Action)
    requires Guarded(s) && Honest(s) && Accounted(s) && Enabled(s, a)
    ensures Accounted(Apply(s, a))
  {
    hide Begins, Misses, Stores;
    var s' := Apply(s, a);
    forall p
      ensures Stores(s'.log, p) == if p in s'.cache then 1 else 0
      ensures Begins(s'.log, p) == Stores(s'.log, p) + Misses(s'.log, p) + InFlight(s', p)
    {
      if |s'.log| > |s.log| {
        LogSnoc(s.log, s'.log[|s.log|], p);
        assert s'.log == s.log + [s'.log[|s.log|]];
      }
    }
  }

  lemma ApplyKeepsInv(s: State, a: Action)
    requires Inv(s) && Enabled(s, a)
    ensures Inv(Apply(s, a))
  {
    hide Guarded, Honest, Accounted;
    StaysGuarded(s, a);
    StaysHonest(s, a);
    StaysAccounted(s, a);
  }

  lemma {:induction false} AfterKeepsInv(s: State, run: seq<Action>)
    requires Inv(s) && Possible(s, run)
    ensures Inv(After(s, run))
    decreases |run|
  {
    if run != [] {
      ApplyKeepsInv(s, run[0]);
      AfterKeepsInv(Apply(s, run[0]), run[1..]);
    }
  }

  // ---- The protocol's guarantees ----------------------------------------------------------

  /** At most one call extracts or stores at any time, and only for a path not cached. */
  lemma OneExtraction(run: seq<Action>, t: nat, u: nat)
    requires Possible(START, run)
    requires var s := After(START, run);
             t in s.calls && u in s.calls && Producing(s.calls[t].pc) && Producing(s.calls[u].pc)
    ensures t == u
    ensures After(START, run).calls[t].path !in After(START, run).cache
  {
    AfterKeepsInv(START, run);
  }

  /**
   A path is stored at most once, and extracted once more than ffmpeg was found missing for it at
   the very most: never again once an entry is cached.
   */
  lemma ExtractedOnce(run: seq<Action>, path: string)
    requires Possible(START, run)
    ensures var s := After(START, run);
            && Stores(s.log, path) == (if path in s.cache then 1 else 0)
            && Misses(s.log, path) <= Begins(s.log, path) <= Misses(s.log, path) + 1
            && (path in s.cache ==> Begins(s.log, path) == Misses(s.log, path) + 1)
  {
    AfterKeepsInv(START, run);
  }

  /** Cache entries appear but never change, whatever happens next; the log only grows. */
  lemma {:induction false} CacheIsStable(s: State, run: seq<Action>)
    requires Inv(s) && Possible(s, run)
    ensures forall p :: p in s.cache ==> p in After(s, run).cache && After(s, run).cache[p] == s.cache[p]
    decreases |run|
  {
    if run != [] {
      ApplyKeepsInv(s, run[0]);
      CacheIsStable(Apply(s, run[0]), run[1..]);
    }
  }

  /** Once a path has an entry, no extraction of it ever begins again. */
  lemma {:induction false} NeverExtractedAgain(s: State, run: seq<Action>, path: string)
    requires Inv(s) && Possible(s, run) && path in s.cache
    ensures Begins(After(s, run).log, path) == Begins(s.log, path)
    decreases |run|
  {
    if run != [] {
      var s' := Apply(s, run[0]);
      ApplyKeepsInv(s, run[0]);
      if |s'.log| > |s.log| {
        LogSnoc(s.log, s'.log[|s.log|], path);
        assert s'.log == s.log + [s'.log[|s.log|]];
      }
      NeverExtractedAgain(s', run[1..], path);
    }
  }

  /** All calls that got a poster for a path got the same bytes; a refusal has a reason on record. */
  lemma AnswersAgree(run: seq<Action>, t: nat, u: nat)
    requires Possible(START, run)
    requires var s := After(START, run);
             && t in s.calls && s.calls[t].pc.Done?
             && u in s.calls && s.calls[u].pc.Done? && s.calls[t].path == s.calls[u].path
    ensures var s := After(START, run);
            && (s.calls[t].pc.answer.Poster? && s.calls[u].pc.answer.Poster? ==> s.calls[t].pc == s.calls[u].pc)
            && (s.calls[t].pc.answer.NotFound? && s.calls[u].pc.answer.Poster? ==> Misses(s.log, s.calls[t].path) > 0)
  {
    AfterKeepsInv(START, run);
  }

  /** As long as some call is not done, some call can take a step. */
  lemma NoDeadlock(run: seq<Action>, t: nat)
    requires Possible(START, run)
    requires t in After(START, run).calls && !After(START, run).calls[t].pc.Done?
    ensures exists a :: Enabled(After(START, run), a) && !a.Enter?
  {
    var s := After(START, run);
    AfterKeepsInv(START, run);
    var u := if s.sem.Some? then s.sem.value else t;
    var pc := s.calls[u].pc;
    var a := if pc.Looking? then LookUp(u) else if pc.Waiting? then Acquire(u) else if pc.Rechecking? then Recheck(u)
             else if pc.Extracting? then Fail(u) else if pc.Storing? then Store(u) else Release(u);
    assert Enabled(s, a);
  }

  /** How many steps a call has before it at most. */
  function Rank(pc: Pc): nat {
    match pc
    case Looking => 6
    case Waiting => 5
    case Rechecking => 4
    case Extracting => 3
    case Storing(_) => 2
    case Leaving(_) => 1
    case Done(_) => 0
  }

  function Ranks(calls: map<nat, Call>): map<nat, nat> {
    map t | t in calls :: Rank(calls[t].pc)
  }

  lemma RanksUpdate(calls: map<nat, Call>, t: nat, c: Call)
    ensures Total(Ranks(calls[t := c]))
              == Total(Ranks(calls)) + Rank(c.pc) - if t in calls then Rank(calls[t].pc) else 0
  {
    assert Ranks(calls[t := c]) == Ranks(calls)[t := Rank(c.pc)];
    TotalUpdate(Ranks(calls), t, Rank(c.pc));
  }

  /** Every step but a new call leaves less to do. */
  lemma StepsCount(s: State, a: Action)
    requires Enabled(s, a)
    ensures var s' := Apply(s, a);
            if a.Enter? then |s'.calls| == |s.calls| + 1 && Total(Ranks(s'.calls)) == Total(Ranks(s.calls)) + 6
            else s'.calls.Keys == s.calls.Keys && Total(Ranks(s'.calls)) < Total(Ranks(s.calls))
  {
    hide Ranks, Rank, Apply, Enabled;
    RankDrops(s, a);
    RanksUpdate(s.calls, a.call, Apply(s, a).calls[a.call]);
  }

  lemma RankDrops(s: State, a: Action)
    requires Enabled(s, a)
    ensures a.call in Apply(s, a).calls && Apply(s, a).calls == s.calls[a.call := Apply(s, a).calls[a.call]]
    ensures var rank := Rank(Apply(s, a).calls[a.call].pc);
            if a.Enter? then a.call !in s.calls && rank == 6
            else a.call in s.calls && rank < Rank(s.calls[a.call].pc)
  {
  }

  lemma {:induction false} RunIsBounded(s: State, run: seq<Action>)
    requires Possible(s, run)
    ensures var s' := After(s, run);
            |run| + Total(Ranks(s'.calls)) + 7 * |s.calls| <= Total(Ranks(s.calls)) + 7 * |s'.calls|
    decreases |run|
  {
    hide Ranks;
    if run != [] {
      StepsCount(s, run[0]);
      RunIsBounded(Apply(s, run[0]), run[1..]);
    }
  }

  /**
   Every call comes to its end, however the steps of the calls alternate: a run of n calls has at most 7 n
   steps, and when no step is left but to begin another call, every call has its answer.
   */
  lemma EveryCallFinishes(run: seq<Action>)
    requires Possible(START, run)
    ensures var s := After(START, run);
            && |run| <= 7 * |s.calls|
            && ((forall a :: Enabled(s, a) ==> a.Enter?) ==> forall t :: t in s.calls ==> s.calls[t].pc.Done?)
  {
    hide Enabled, After, Apply, Ranks;
    var s := After(START, run);
    RunIsBounded(START, run);
    NothingToDo();
    forall t | t in s.calls && !s.calls[t].pc.Done?
      ensures exists a :: Enabled(s, a) && !a.Enter?
    {
      NoDeadlock(run, t);
    }
  }

  lemma NothingToDo()
    ensures Total(Ranks(START.calls)) == 0
  {
    assert Ranks(START.calls) == map[];
  }

  // ---- Where entries and answers come from ------------------------------------------------

  /** The one action is taken, and the other at some later point. */
  ghost predicate Then(run: seq<Action>, first: Action, second: Action) {
    exists i, j :: 0 <= i < j < |run| && run[i] == first && run[j] == second
  }

  /** A call for this path extracted a poster and stored it. */
  ghost predicate MadePoster(run: seq<Action>, t: nat, path: string, jpeg: Jpeg) {
    Then(run, Enter(t, path), Succeed(t, jpeg)) && Then(run, Succeed(t, jpeg), Store(t))
  }

  /** A call for this path failed to extract one and stored that. */
  ghost predicate MadeFailure(run: seq<Action>, t: nat, path: string) {
    Then(run, Enter(t, path), Fail(t)) && Then(run, Fail(t), Store(t))
  }

  /** A call for this path found no tool to extract one with. */
  ghost predicate FoundNoTool(run: seq<Action>, t: nat, path: string) {
    Then(run, Enter(t, path), MissTool(t))
  }

  ghost predicate Made(run: seq<Action>, path: string, entry: Option<Jpeg>) {
    match entry
    case Some(jpeg) => exists t :: MadePoster(run, t, path, jpeg)
    case None => exists t :: MadeFailure(run, t, path)
  }

  predicate Early(pc: Pc) {
    pc.Looking? || pc.Waiting? || pc.Rechecking? || pc.Extracting?
  }

  /** What a call has done, by where it is. */
  ghost predicate Kept(run: seq<Action>, cache: map<string, Option<Jpeg>>, t: nat, c: Call) {
    && (Early(c.pc) ==>
          Fail(t) !in run && MissTool(t) !in run && Store(t) !in run && forall j :: Succeed(t, j) !in run)
    && (c.pc.Storing? ==>
          && MissTool(t) !in run && Store(t) !in run
          && (forall j :: Succeed(t, j) in run ==> c.pc.entry == Some(j))
          && (Fail(t) in run ==> c.pc.entry == None)
          && (c.pc.entry.Some? ==> Then(run, Enter(t, c.path), Succeed(t, c.pc.entry.value)))
          && (c.pc.entry.None? ==> Then(run, Enter(t, c.path), Fail(t))))
    && (Answered(c.pc) ==>
          && (forall j :: Succeed(t, j) in run ==>
                c.path in cache && cache[c.path] == Some(j) && c.pc.answer == Poster(j))
          && (Fail(t) in run ==> c.path in cache && cache[c.path] == None && c.pc.answer == NotFound)
          && (MissTool(t) in run ==> Store(t) !in run && c.pc.answer == NotFound)
          && (c.pc.answer.Poster? ==> c.path in cache && cache[c.path] == Some(c.pc.answer.jpeg))
          && (c.pc.answer.NotFound? ==>
                (c.path in cache && cache[c.path] == None) || exists u :: FoundNoTool(run, u, c.path)))
  }

  /** The state of a run told from its actions. */
  ghost predicate Told(run: seq<Action>, s: State) {
    && (forall t :: t in s.calls ==> Enter(t, s.calls[t].path) in run && Kept(run, s.cache, t, s.calls[t]))
    && (forall t, p :: Enter(t, p) in run ==> t in s.calls && s.calls[t].path == p)
    && (forall a :: a in run && !a.Enter? ==> a.call in s.calls)
    && (forall p :: p in s.cache ==> Made(run, p, s.cache[p]))
  }

  lemma ThenGrows(run: seq<Action>, a: Action, first: Action, second: Action)
    ensures Then(run, first, second) ==> Then(run + [a], first, second)
    ensures first in run ==> Then(run + [a], first, a)
    ensures Then(run + [a], first, second) ==> first in run && second in run + [a]
  {
    var more := run + [a];
    if Then(run, first, second) {
      var i, j :| 0 <= i < j < |run| && run[i] == first && run[j] == second;
      assert more[i] == first && more[j] == second;
    }
    if first in run {
      var i :| 0 <= i < |run| && run[i] == first;
      assert more[i] == first && more[|run|] == a;
    }
    if Then(more, first, second) {
      var i, j :| 0 <= i < j < |more| && more[i] == first && more[j] == second;
      assert i < |run| && run[i] == first;
    }
  }

  lemma MadeGrows(run: seq<Action>, a: Action, path: string, entry: Option<Jpeg>)
    requires Made(run, path, entry)
    ensures Made(run + [a], path, entry)
  {
    hide Then;
    match entry {
      case Some(jpeg) =>
        var t :| MadePoster(run, t, path, jpeg);
        ThenGrows(run, a, Enter(t, path), Succeed(t, jpeg));
        ThenGrows(run, a, Succeed(t, jpeg), Store(t));
        assert MadePoster(run + [a], t, path, jpeg);
      case None =>
        var t :| MadeFailure(run, t, path);
        ThenGrows(run, a, Enter(t, path), Fail(t));
        ThenGrows(run, a, Fail(t), Store(t));
        assert MadeFailure(run + [a], t, path);
    }
  }

  /** A call that does not move keeps its history, as long as the cache only grows. */
  lemma OthersKeep(run: seq<Action>, a: Action, cache: map<string, Option<Jpeg>>, cache': map<string, Option<Jpeg>>,
                   t: nat, c: Call)
    requires Kept(run, cache, t, c) && a.call != t
    requires forall p :: p in cache ==> p in cache' && cache'[p] == cache[p]
    ensures Kept(run + [a], cache', t, c)
  {
    hide Then;
    if c.pc.Storing? {
      if c.pc.entry.Some? {
        ThenGrows(run, a, Enter(t, c.path), Succeed(t, c.pc.entry.value));
      } else {
        ThenGrows(run, a, Enter(t, c.path), Fail(t));
      }
    }
    ToolsGrow(run, a, c.path);
  }

  lemma ToolsGrow(run: seq<Action>, a: Action, path: string)
    ensures (exists u :: FoundNoTool(run, u, path)) ==> exists u :: FoundNoTool(run + [a], u, path)
  {
    if u :| FoundNoTool(run, u, path) {
      ThenGrows(run, a, Enter(u, path), MissTool(u));
      assert FoundNoTool(run + [a], u, path);
    }
  }

  /** The call that moves has its history extended: when it comes, */
  lemma EnterKeeps(run: seq<Action>, cache: map<string, Option<Jpeg>>, t: nat, path: string)
    requires forall a :: a in run && !a.Enter? ==> a.call != t
    ensures Kept(run + [Enter(t, path)], cache, t, Call(path, Looking))
  {
    hide Then;
  }

  /** moves on, */
  lemma MoveKeeps(run: seq<Action>, cache: map<string, Option<Jpeg>>, t: nat, c: Call, a: Action, pc: Pc)
    requires Kept(run, cache, t, c) && Early(c.pc) && (a.LookUp? || a.Acquire? || a.Recheck?)
    requires Early(pc) || (c.path in cache && Answered(pc) && pc.answer == AnswerOf(cache[c.path]))
    ensures Kept(run + [a], cache, t, c.(pc := pc))
  {
    hide Then;
  }

  /** extracts, */
  lemma ExtractKeeps(run: seq<Action>, cache: map<string, Option<Jpeg>>, t: nat, c: Call, a: Action,
                     entry: Option<Jpeg>)
    requires Kept(run, cache, t, c) && Early(c.pc) && Enter(t, c.path) in run
    requires a == if entry.Some? then Succeed(t, entry.value) else Fail(t)
    ensures Kept(run + [a], cache, t, c.(pc := Storing(entry)))
  {
    hide Then;
    ThenGrows(run, a, Enter(t, c.path), a);
  }

  /** gives up, */
  lemma GiveUpKeeps(run: seq<Action>, cache: map<string, Option<Jpeg>>, t: nat, c: Call)
    requires Kept(run, cache, t, c) && Early(c.pc) && Enter(t, c.path) in run
    ensures Kept(run + [MissTool(t)], cache, t, c.(pc := Leaving(NotFound)))
  {
    hide Then;
    ThenGrows(run, MissTool(t), Enter(t, c.path), MissTool(t));
    assert FoundNoTool(run + [MissTool(t)], t, c.path);
  }

  /** stores */
  lemma StoreKeeps(run: seq<Action>, cache: map<string, Option<Jpeg>>, t: nat, c: Call)
    requires Kept(run, cache, t, c) && c.pc.Storing?
    ensures Kept(run + [Store(t)], cache[c.path := c.pc.entry], t, c.(pc := Leaving(AnswerOf(c.pc.entry))))
  {
    hide Then;
  }

  /** and leaves. */
  lemma LeaveKeeps(run: seq<Action>, cache: map<string, Option<Jpeg>>, t: nat, c: Call)
    requires Kept(run, cache, t, c) && c.pc.Leaving?
    ensures Kept(run + [Release(t)], cache, t, c.(pc := Done(c.pc.answer)))
  {
    hide Then;
    ToolsGrow(run, Release(t), c.path);
  }

  lemma MoverKeeps(run: seq<Action>, s: State, a: Action)
    requires Told(run, s) && Enabled(s, a)
    ensures Kept(run + [a], Apply(s, a).cache, a.call, Apply(s, a).calls[a.call])
  {
    hide Kept, Made;
    var t := a.call;
    if a.Enter? {
      EnterKeeps(run, s.cache, t, a.path);
    } else if a.LookUp? || a.Acquire? || a.Recheck? {
      MoveKeeps(run, s.cache, t, s.calls[t], a, Apply(s, a).calls[t].pc);
    } else if a.Succeed? {
      ExtractKeeps(run, s.cache, t, s.calls[t], a, Some(a.jpeg));
    } else if a.Fail? {
      ExtractKeeps(run, s.cache, t, s.calls[t], a, None);
    } else if a.MissTool? {
      GiveUpKeeps(run, s.cache, t, s.calls[t]);
    } else if a.Store? {
      StoreKeeps(run, s.cache, t, s.calls[t]);
    } else {
      LeaveKeeps(run, s.cache, t, s.calls[t]);
    }
  }

  /** The entry that a store adds. */
  lemma StoreMakes(run: seq<Action>, s: State, t: nat)
    requires t in s.calls && s.calls[t].pc.Storing? && Told(run, s)
    ensures Made(run + [Store(t)], s.calls[t].path, s.calls[t].pc.entry)
  {
    hide Then;
    var path, entry := s.calls[t].path, s.calls[t].pc.entry;
    assert Kept(run, s.cache, t, s.calls[t]);
    var done := if entry.Some? then Succeed(t, entry.value) else Fail(t);
    ThenIn(run, Enter(t, path), done);
    ThenGrows(run, Store(t), Enter(t, path), done);
    ThenGrows(run, Store(t), done, Store(t));
    if entry.Some? {
      assert MadePoster(run + [Store(t)], t, path, entry.value);
    } else {
      assert MadeFailure(run + [Store(t)], t, path);
    }
  }

  lemma ThenIn(run: seq<Action>, first: Action, second: Action)
    requires Then(run, first, second)
    ensures first in run && second in run
  {
  }

  lemma CacheGrows(s: State, a: Action)
    requires Honest(s) && Enabled(s, a)
    ensures forall p :: p in s.cache ==> p in Apply(s, a).cache && Apply(s, a).cache[p] == s.cache[p]
    ensures forall p :: p in Apply(s, a).cache && p !in s.cache ==>
              a.Store? && s.calls[a.call].path == p && Apply(s, a).cache[p] == s.calls[a.call].pc.entry
    ensures Apply(s, a).calls.Keys == s.calls.Keys + {a.call}
    ensures forall t :: t in s.calls && t != a.call ==> Apply(s, a).calls[t] == s.calls[t]
    ensures Apply(s, a).calls[a.call].path == if a.Enter? then a.path else s.calls[a.call].path
    ensures a.call in s.calls <==> !a.Enter?
  {
  }

  lemma TellOneMore(run: seq<Action>, s: State, a: Action)
    requires Inv(s) && Told(run, s) && Enabled(s, a)
    ensures Told(run + [a], Apply(s, a))
  {
    hide Kept, Made, Honest, Accounted, Guarded, Apply;
    var s' := Apply(s, a);
    CacheGrows(s, a);
    forall t | t in s'.calls
      ensures Enter(t, s'.calls[t].path) in run + [a] && Kept(run + [a], s'.cache, t, s'.calls[t])
    {
      if t == a.call {
        MoverKeeps(run, s, a);
      } else {
        OthersKeep(run, a, s.cache, s'.cache, t, s.calls[t]);
      }
    }
    forall p | p in s'.cache
      ensures Made(run + [a], p, s'.cache[p])
    {
      if p in s.cache {
        MadeGrows(run, a, p, s.cache[p]);
      } else {
        StoreMakes(run, s, a.call);
      }
    }
  }

  lemma {:induction false} PossibleInit(s: State, run: seq<Action>)
    requires run != [] && Possible(s, run)
    ensures var init, a := run[..|run| - 1], run[|run| - 1];
            Possible(s, init) && Enabled(After(s, init), a) && After(s, run) == Apply(After(s, init), a)
    decreases |run|
  {
    if |run| > 1 {
      PossibleInit(Apply(s, run[0]), run[1..]);
      assert run[..|run| - 1][1..] == run[1..][..|run| - 2];
    }
  }

  lemma {:induction false} RunTells(run: seq<Action>)
    requires Possible(START, run)
    ensures Inv(After(START, run)) && Told(run, After(START, run))
    decreases |run|
  {
    hide Told, Inv, Apply;
    AfterKeepsInv(START, run);
    if run == [] {
      NothingTold();
    } else {
      var init, a := run[..|run| - 1], run[|run| - 1];
      PossibleInit(START, run);
      RunTells(init);
      assert run == init + [a];
      TellOneMore(init, After(START, init), a);
    }
  }

  lemma NothingTold()
    ensures Told([], START) && Inv(START)
  {
  }

  /**
   In every run: a path's entry is a poster exactly when some call for it extracted that poster and stored it,
   and a failure exactly when some call for it failed and stored that.
   */
  lemma EntriesAreExtracted(run: seq<Action>, path: string)
    requires Possible(START, run)
    ensures var cache := After(START, run).cache;
            && (forall jpeg :: path in cache && cache[path] == Some(jpeg) <==>
                                 exists t :: MadePoster(run, t, path, jpeg))
            && (path in cache && cache[path] == None <==> exists t :: MadeFailure(run, t, path))
  {
    hide Then, Inv, Possible;
    RunTells(run);
    var s := After(START, run);
    forall t, jpeg | MadePoster(run, t, path, jpeg)
      ensures path in s.cache && s.cache[path] == Some(jpeg)
    {
      ThenIn(run, Enter(t, path), Succeed(t, jpeg));
      ThenIn(run, Succeed(t, jpeg), Store(t));
      assert Kept(run, s.cache, t, s.calls[t]);
    }
    forall t | MadeFailure(run, t, path)
      ensures path in s.cache && s.cache[path] == None
    {
      ThenIn(run, Enter(t, path), Fail(t));
      ThenIn(run, Fail(t), Store(t));
      assert Kept(run, s.cache, t, s.calls[t]);
    }
  }

  /**
   In every run, of a call that has its answer: if its own extraction succeeded, that is its poster, and if it
   failed or found no tool, there is none. Any poster was extracted by a call for its path, and only if such a
   call failed or found no tool is there no poster.
   */
  lemma AnswersAreExtracted(run: seq<Action>, t: nat)
    requires Possible(START, run) && t in After(START, run).calls && After(START, run).calls[t].pc.Done?
    ensures var c := After(START, run).calls[t];
            && (forall path :: Enter(t, path) in run <==> path == c.path)
            && (forall jpeg :: Succeed(t, jpeg) in run ==> c.pc.answer == Poster(jpeg))
            && (Fail(t) in run || MissTool(t) in run ==> c.pc.answer == NotFound)
            && (c.pc.answer.Poster? ==> exists u :: MadePoster(run, u, c.path, c.pc.answer.jpeg))
            && (c.pc.answer.NotFound? ==>
                  exists u :: MadeFailure(run, u, c.path) || FoundNoTool(run, u, c.path))
  {
    hide Then, Inv, Possible;
    RunTells(run);
    var s := After(START, run);
    var c := s.calls[t];
    assert Kept(run, s.cache, t, c);
    EntriesAreExtracted(run, c.path);
  }

  /** A call for a path that has an entry is answered from it at once, whoever holds the semaphore. */
  lemma CachedNeedsNoTurn(run: seq<Action>, t: nat)
    requires Possible(START, run) && Enabled(After(START, run), LookUp(t))
    requires After(START, run).calls[t].path in After(START, run).cache
    ensures var s := After(START, run);
            var s' := Apply(s, LookUp(t));
            && s'.calls[t].pc == Done(match s.cache[s.calls[t].path]
                                      case Some(jpeg) => Poster(jpeg)
                                      case None => NotFound)
            && s' == s.(calls := s'.calls)
  {
  }
}
