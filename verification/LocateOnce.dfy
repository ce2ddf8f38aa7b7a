/**
 The one-shot background classification of an MTP controller: callers on any number of threads
 start it, wait for it, or peek at it; at most one goroutine walks the device. Each action is one
 critical section of the source, or one step taken outside the lock.
 */
module LocateOnce {
  import opened Totals
  import opened Wrappers

  datatype Kind = NotYet | IsController | IsCamera | IsUnknown

  /** What classification resolves: the kind and the folders later calls read without the lock. */
  datatype Fields = Fields(kind: Kind, waypointDir: Option<nat>, previewDir: Option<nat>, mediaRoot: Option<nat>)

  const UNRESOLVED := Fields(NotYet, None, None, None)

  /** The walk's verdict: an I/O error, which leaves the fields alone, or their values. */
  datatype Verdict = Broke(error: string) | Found(fields: Fields)

  datatype Channel = Nil | Open | Closed

  datatype Op = Kickoff | Await | IsLocating | Info

  /** Where a calling thread is. */
  datatype Pc =
    | Entering(op: Op)
    | Spawning(op: Op)            // won the race: about to start the goroutine
    | Fetching                    // await: about to read the channel
    | Blocked(chan: Channel)      // await: receiving from the channel as it was fetched (only nil or not matters)
    | Resuming                    // await: woken, about to read the error
    | Awaited(error: Option<string>)
    | Finished

  /** Where a walking goroutine is. */
  datatype Walk =
    | Walking
    | Reporting(error: Option<string>)
    | Closing(chan: Channel)
    | Notifying
    | Ended

  datatype State = State(threads: map<nat, Pc>, walks: map<nat, Walk>, started: bool, done: Channel,
                         error: Option<string>, fields: Fields, closes: nat, notified: nat, observed: seq<Fields>)

  const START := State(map[], map[], false, Nil, None, UNRESOLVED, 0, 0, [])

  datatype Action =
    | Call(t: nat, op: Op)
    | Lock(t: nat)                          // the critical section of kickoffLocate
    | Spawn(t: nat)
    | Fetch(t: nat)
    | Wake(t: nat)
    | ReadError(t: nat)
    | ReadFields(t: nat)                    // unlocked, after awaiting
    | Probe(t: nat)                         // the critical section of isLocating, or of Info
    | Classify(w: nat, verdict: Verdict)
    | Report(w: nat)
    | Close(w: nat)
    | Notify(w: nat)

  predicate At(s: State, t: nat, pc: Pc) {
    t in s.threads && s.threads[t] == pc
  }

  predicate Enabled(s: State, a: Action) {
    match a
    case Call(t, _) => t !in s.threads
    case Lock(t) => At(s, t, Entering(Kickoff)) || At(s, t, Entering(Await))
    case Spawn(t) => t in s.threads && s.threads[t].Spawning?
    case Fetch(t) => At(s, t, Fetching)
    case Wake(t) => t in s.threads && s.threads[t].Blocked? && s.threads[t].chan != Nil && s.done == Closed
    case ReadError(t) => At(s, t, Resuming)
    case ReadFields(t) => t in s.threads && s.threads[t].Awaited?
    case Probe(t) => At(s, t, Entering(IsLocating)) || At(s, t, Entering(Info))
    case Classify(w, _) => w in s.walks && s.walks[w] == Walking
    case Report(w) => w in s.walks && s.walks[w].Reporting?
    case Close(w) => w in s.walks && s.walks[w].Closing?
    case Notify(w) => w in s.walks && s.walks[w] == Notifying
  }

  function Goto(s: State, t: nat, pc: Pc): State {
    s.(threads := s.threads[t := pc])
  }

  /** Where a call continues once kickoffLocate returned. */
  function Kicked(op: Op): Pc {
    if op == Await then Fetching else Finished
  }

  function Apply(s: State, a: Action): State
    requires Enabled(s, a)
  {
    match a
    case Call(t, op) => Goto(s, t, Entering(op))
    case Lock(t) =>
      var op := s.threads[t].op;
      if s.started then Goto(s, t, Kicked(op))
      else Goto(s, t, Spawning(op)).(started := true, done := Open)
    case Spawn(t) => Goto(s, t, Kicked(s.threads[t].op)).(walks := s.walks[|s.walks| := Walking])
    case Fetch(t) => Goto(s, t, Blocked(s.done))
    case Wake(t) => Goto(s, t, Resuming)
    case ReadError(t) => Goto(s, t, Awaited(s.error))
    case ReadFields(t) => s.(observed := s.observed + [s.fields])
    case Probe(t) => Goto(s, t, Finished)
    case Classify(w, Broke(e)) => s.(walks := s.walks[w := Reporting(Some(e))])
    case Classify(w, Found(f)) => s.(walks := s.walks[w := Reporting(None)], fields := f)
    case Report(w) => s.(walks := s.walks[w := Closing(s.done)], error := s.walks[w].error)
    case Close(w) => s.(walks := s.walks[w := Notifying], done := Closed, closes := s.closes + 1)
    case Notify(w) => s.(walks := s.walks[w := Ended], notified := s.notified + 1)
  }

  predicate Possible(s: State, run: seq<Action>)
    decreases |run|
  {
    run == [] || (Enabled(s, run[0]) && Possible(Apply(s, run[0]), run[1..]))
  }

  function After(s: State, run: seq<Action>): State
    requires Possible(s, run)
    decreases |run|
  {
    if run == [] then s else After(Apply(s, run[0]), run[1..])
  }

  /** What `isLocating` answers. */
  predicate Locating(s: State) {
    s.started && s.done != Nil && s.done != Closed
  }

  // ---- The invariant ----------------------------------------------------------------------

  /** One walk at most: being spawned by the thread that set the flag, or running as walk 0. */
  ghost predicate Single(s: State) {
    && (s.started <==> s.done != Nil)
    && s.walks.Keys <= {0}
    && (forall t :: t in s.threads && s.threads[t].Spawning? ==> s.started && s.walks == map[])
    && (forall t, u :: t in s.threads && u in s.threads && s.threads[t].Spawning? && s.threads[u].Spawning? ==> t == u)
    && (s.started && s.walks == map[] ==> exists t :: t in s.threads && s.threads[t].Spawning?)
    && (!s.started ==> s.walks == map[])
  }

  predicate PastKickoff(pc: Pc) {
    pc.Fetching? || pc.Blocked? || pc.Resuming? || pc.Awaited?
  }

  /** Nobody waits on a nil channel, and nobody gets past a channel that is still open. */
  ghost predicate Waits(s: State) {
    && (forall t :: t in s.threads && PastKickoff(s.threads[t]) ==> s.started)
    && (forall t :: t in s.threads && s.threads[t].Blocked? ==> s.threads[t].chan != Nil)
    && (forall t :: t in s.threads && (s.threads[t].Resuming? || s.threads[t].Awaited?) ==> s.done == Closed)
    && (forall t :: t in s.threads && s.threads[t].Awaited? ==> s.threads[t].error == s.error)
  }

  /** The walk's progress: fields written before the error, the error before the close, the close once. */
  ghost predicate Ordered(s: State) {
    && (s.walks == map[] ==> s.done != Closed && s.closes == 0 && s.notified == 0 && s.fields == UNRESOLVED)
    && (forall w :: w in s.walks ==>
          && (s.walks[w].Closing? ==> s.walks[w].chan == Open)
          && (s.walks[w].Walking? ==> s.fields == UNRESOLVED)
          && (s.walks[w].Walking? || s.walks[w].Reporting? || s.walks[w].Closing? ==>
                s.done == Open && s.closes == 0 && s.notified == 0)
          && (s.walks[w].Notifying? ==> s.done == Closed && s.closes == 1 && s.notified == 0)
          && (s.walks[w].Ended? ==> s.done == Closed && s.closes == 1 && s.notified == 1))
    && (s.observed != [] ==> s.done == Closed)
    && (forall k :: 0 <= k < |s.observed| ==> s.observed[k] == s.fields)
  }

  ghost predicate Inv(s: State) {
    Single(s) && Waits(s) && Ordered(s)
  }

  lemma StaysSingle(s: State, a: Action)
    requires Inv(s) && Enabled(s, a)
    ensures Single(Apply(s, a))
  {
    var s' := Apply(s, a);
    if s.started && s.walks == map[] {
      var t :| t in s.threads && s.threads[t].Spawning?;
      if !a.Spawn? { assert t in s'.threads && s'.threads[t].Spawning?; }
    } else if a.Lock? && !s.started {
      assert s'.threads[a.t].Spawning?;
    }
    assert s.walks == map[] ==> |s.walks| == 0;
  }

  lemma StaysWaiting(s: State, a: Action)
    requires Inv(s) && Enabled(s, a)
    ensures Waits(Apply(s, a))
  {
  }

  lemma StaysOrdered(s: State, a: Action)
    requires Inv(s) && Enabled(s, a)
    ensures Ordered(Apply(s, a))
  {
    assert s.walks == map[] || 0 in s.walks;
    assert s.walks == map[] ==> |s.walks| == 0;
  }

  lemma ApplyKeepsInv(s: State, a: Action)
    requires Inv(s) && Enabled(s, a)
    ensures Inv(Apply(s, a))
  {
    hide Single, Waits, Ordered;
    StaysSingle(s, a);
    StaysWaiting(s, a);
    StaysOrdered(s, a);
  }

  lemma {:induction false} AfterKeepsInv(s: State, run: seq<Action>)
    requires Inv(s) && Possible(s, run)
    ensures Inv(After(s, run))
    decreases |run|
  {
    if run != [] {
      ApplyKeepsInv(s, run[0]);
      AfterKeepsInv(Apply(s, run[0]), run[1..]);
    }
  }

  // ---- The protocol's guarantees ----------------------------------------------------------

  /** The walk starts at most once, its channel is closed at most once and its callback runs at most once. */
  lemma OneWalk(run: seq<Action>)
    requires Possible(START, run)
    ensures var s := After(START, run);
            |s.walks| <= 1 && s.closes <= 1 && s.notified <= s.closes
  {
    var s := After(START, run);
    AfterKeepsInv(START, run);
    assert s.walks == map[] || s.walks == map[0 := s.walks[0]];
  }

  /** `close` never panics: the channel it is called on exists and is open. */
  lemma CloseIsSafe(run: seq<Action>, w: nat)
    requires Possible(START, run) && Enabled(After(START, run), Close(w))
    ensures After(START, run).done == Open && After(START, run).walks[w].chan != Nil
  {
    AfterKeepsInv(START, run);
  }

  /** A waiter never blocks on a nil channel, and gets past it only after the walk has written its results. */
  lemma WaitersAreServed(run: seq<Action>, t: nat)
    requires Possible(START, run) && t in After(START, run).threads
    ensures var s := After(START, run);
            && (s.threads[t].Blocked? ==> s.threads[t].chan != Nil)
            && (s.threads[t].Resuming? || s.threads[t].Awaited? ==>
                  0 in s.walks && (s.walks[0].Notifying? || s.walks[0].Ended?))
            && (s.threads[t].Awaited? ==> s.threads[t].error == s.error)
  {
    AfterKeepsInv(START, run);
  }

  /** Once the channel is closed, kind, folders and error never change again. */
  lemma {:induction false} ResultsAreStable(s: State, run: seq<Action>)
    requires Inv(s) && Possible(s, run) && s.done == Closed
    ensures After(s, run).done == Closed && After(s, run).fields == s.fields && After(s, run).error == s.error
    decreases |run|
  {
    if run != [] {
      ApplyKeepsInv(s, run[0]);
      ResultsAreStable(Apply(s, run[0]), run[1..]);
    }
  }

  /** All unlocked reads after awaiting see the same, final fields. */
  lemma UnlockedReadsAgree(run: seq<Action>, j: nat, k: nat)
    requires Possible(START, run) && j < |After(START, run).observed| && k < |After(START, run).observed|
    ensures var s := After(START, run);
            s.observed[j] == s.observed[k] == s.fields && s.done == Closed
  {
    AfterKeepsInv(START, run);
  }

  /** `isLocating` answers true exactly while the walk is being started or has not closed its channel. */
  lemma LocatingMeansWalking(run: seq<Action>)
    requires Possible(START, run)
    ensures var s := After(START, run);
            Locating(s) <==>
            || (exists t :: t in s.threads && s.threads[t].Spawning?)
            || (0 in s.walks && !s.walks[0].Notifying? && !s.walks[0].Ended?)
  {
    AfterKeepsInv(START, run);
  }

  /** A thread that has not come to its end can always be moved along by some action. */
  lemma NoDeadlock(run: seq<Action>, t: nat)
    requires Possible(START, run) && t in After(START, run).threads
    requires !After(START, run).threads[t].Finished? && !After(START, run).threads[t].Awaited?
    ensures exists a :: Enabled(After(START, run), a) && !a.Call? && !a.ReadFields?
  {
    var s := After(START, run);
    AfterKeepsInv(START, run);
    var pc := s.threads[t];
    var a: Action;
    if pc.Blocked? && s.done != Closed {
      if s.walks == map[] {
        var u :| u in s.threads && s.threads[u].Spawning?;
        a := Spawn(u);
      } else {
        assert 0 in s.walks;
        a := if s.walks[0].Walking? then Classify(0, Broke(""))
             else if s.walks[0].Reporting? then Report(0) else Close(0);
      }
    } else {
      a := if pc.Spawning? then Spawn(t) else if pc.Fetching? then Fetch(t) else if pc.Blocked? then Wake(t)
           else if pc.Resuming? then ReadError(t)
           else if pc.op == Kickoff || pc.op == Await then Lock(t) else Probe(t);
    }
    assert Enabled(s, a);
  }

  /** How many steps a thread has before it at most, those of the walk it may start included. */
  function Rank(pc: Pc): nat {
    match pc
    case Entering(_) => 9
    case Spawning(_) => 8
    case Fetching => 3
    case Blocked(_) => 2
    case Resuming => 1
    case Awaited(_) => 0
    case Finished => 0
  }

  function WalkRank(walk: Walk): nat {
    match walk
    case Walking => 4
    case Reporting(_) => 3
    case Closing(_) => 2
    case Notifying => 1
    case Ended => 0
  }

  function Ranks(threads: map<nat, Pc>): map<nat, nat> {
    map t | t in threads :: Rank(threads[t])
  }

  function WalkRanks(walks: map<nat, Walk>): map<nat, nat> {
    map w | w in walks :: WalkRank(walks[w])
  }

  ghost function Left(s: State): nat {
    Total(Ranks(s.threads)) + Total(WalkRanks(s.walks))
  }

  lemma RanksUpdate(threads: map<nat, Pc>, t: nat, pc: Pc)
    ensures Total(Ranks(threads[t := pc]))
              == Total(Ranks(threads)) + Rank(pc) - if t in threads then Rank(threads[t]) else 0
  {
    assert Ranks(threads[t := pc]) == Ranks(threads)[t := Rank(pc)];
    TotalUpdate(Ranks(threads), t, Rank(pc));
  }

  lemma WalkRanksUpdate(walks: map<nat, Walk>, w: nat, walk: Walk)
    ensures Total(WalkRanks(walks[w := walk]))
              == Total(WalkRanks(walks)) + WalkRank(walk) - if w in walks then WalkRank(walks[w]) else 0
  {
    assert WalkRanks(walks[w := walk]) == WalkRanks(walks)[w := WalkRank(walk)];
    TotalUpdate(WalkRanks(walks), w, WalkRank(walk));
  }

  predicate WalkStep(a: Action) {
    a.Classify? || a.Report? || a.Close? || a.Notify?
  }

  lemma WalkStepsCount(s: State, a: Action)
    requires Enabled(s, a) && WalkStep(a)
    ensures Apply(s, a).threads == s.threads && Apply(s, a).observed == s.observed && Left(Apply(s, a)) < Left(s)
  {
    hide Ranks, WalkRanks;
    WalkRanksUpdate(s.walks, a.w, Apply(s, a).walks[a.w]);
  }

  lemma SpawnCounts(s: State, t: nat)
    requires Enabled(s, Spawn(t))
    ensures var s' := Apply(s, Spawn(t));
            s'.threads.Keys == s.threads.Keys && s'.observed == s.observed && Left(s') < Left(s)
  {
    hide Ranks, WalkRanks;
    RanksUpdate(s.threads, t, Kicked(s.threads[t].op));
    WalkRanksUpdate(s.walks, |s.walks|, Walking);
  }

  lemma ThreadStepsCount(s: State, a: Action)
    requires Enabled(s, a) && !WalkStep(a) && !a.Spawn? && !a.Call? && !a.ReadFields?
    ensures var s' := Apply(s, a);
            s'.threads.Keys == s.threads.Keys && s'.observed == s.observed && Left(s') < Left(s)
  {
    hide Ranks, WalkRanks;
    RanksUpdate(s.threads, a.t, Apply(s, a).threads[a.t]);
  }

  /** Every step but a new call and a read of the fields leaves less to do. */
  lemma StepsCount(s: State, a: Action)
    requires Enabled(s, a)
    ensures var s' := Apply(s, a);
            if a.Call? then
              |s'.threads| == |s.threads| + 1 && |s'.observed| == |s.observed| && Left(s') == Left(s) + 9
            else if a.ReadFields? then
              |s'.threads| == |s.threads| && |s'.observed| == |s.observed| + 1 && Left(s') == Left(s)
            else
              s'.threads.Keys == s.threads.Keys && |s'.observed| == |s.observed| && Left(s') < Left(s)
  {
    if a.Call? {
      RanksUpdate(s.threads, a.t, Entering(a.op));
    } else if a.Spawn? {
      SpawnCounts(s, a.t);
    } else if WalkStep(a) {
      WalkStepsCount(s, a);
    } else if !a.ReadFields? {
      hide Left;
      ThreadStepsCount(s, a);
    }
  }

  lemma {:induction false} RunIsBounded(s: State, run: seq<Action>)
    requires Possible(s, run)
    ensures var s' := After(s, run);
            |run| + Left(s') + 10 * |s.threads| + |s.observed| <= Left(s) + 10 * |s'.threads| + |s'.observed|
    decreases |run|
  {
    hide Left;
    if run != [] {
      StepsCount(s, run[0]);
      RunIsBounded(Apply(s, run[0]), run[1..]);
    }
  }

  /**
   Every thread comes to its end, however the steps alternate: n calls take at most 10 n steps besides the
   reads of the fields, and when no step is left but a new call or a read, every thread has finished or got
   past its wait.
   */
  lemma EveryThreadFinishes(run: seq<Action>)
    requires Possible(START, run)
    ensures var s := After(START, run);
            && |run| <= 10 * |s.threads| + |s.observed|
            && ((forall a :: Enabled(s, a) ==> a.Call? || a.ReadFields?) ==>
                  forall t :: t in s.threads ==> s.threads[t].Finished? || s.threads[t].Awaited?)
  {
    hide Enabled, After, Apply, Left;
    var s := After(START, run);
    RunIsBounded(START, run);
    NothingToDo();
    forall t | t in s.threads && !s.threads[t].Finished? && !s.threads[t].Awaited?
      ensures exists a :: Enabled(s, a) && !a.Call? && !a.ReadFields?
    {
      NoDeadlock(run, t);
    }
  }

  lemma NothingToDo()
    ensures Left(START) == 0
  {
    assert Ranks(START.threads) == map[] && WalkRanks(START.walks) == map[];
  }

  // ---- The results are the walk's verdict -------------------------------------------------

  /** The verdicts that walks came to, in order. */
  function Verdicts(run: seq<Action>): seq<Verdict> {
    if run == [] then []
    else
      var last := run[|run| - 1];
      Verdicts(run[..|run| - 1]) + if last.Classify? then [last.verdict] else []
  }

  /** The kind and folders found, and no error; or none of them, and the error. */
  predicate Says(v: Verdict, fields: Fields, error: Option<string>) {
    match v
    case Found(f) => fields == f && error == None
    case Broke(e) => fields == Fields(NotYet, None, None, None) && error == Some(e)
  }

  /** Where the verdict is: not yet there, with the walk, or in the controller's fields. */
  ghost predicate Decided(run: seq<Action>, s: State) {
    if s.walks == map[] || (0 in s.walks && s.walks[0].Walking?) then
      Verdicts(run) == [] && s.fields == UNRESOLVED && s.error == None
    else
      0 in s.walks && |Verdicts(run)| == 1
      && Says(Verdicts(run)[0], s.fields, if s.walks[0].Reporting? then s.walks[0].error else s.error)
  }

  lemma DecideOneMore(run: seq<Action>, s: State, a: Action)
    requires Inv(s) && Decided(run, s) && Enabled(s, a)
    ensures Decided(run + [a], Apply(s, a))
  {
    hide Waits;
    assert (run + [a])[..|run|] == run;
    assert s.walks == map[] || 0 in s.walks;
    assert s.walks == map[] ==> |s.walks| == 0;
  }

  lemma {:induction false} PossibleInit(s: State, run: seq<Action>)
    requires run != [] && Possible(s, run)
    ensures var init, a := run[..|run| - 1], run[|run| - 1];
            Possible(s, init) && Enabled(After(s, init), a) && After(s, run) == Apply(After(s, init), a)
    decreases |run|
  {
    if |run| > 1 {
      PossibleInit(Apply(s, run[0]), run[1..]);
      assert run[..|run| - 1][1..] == run[1..][..|run| - 2];
    }
  }

  lemma {:induction false} RunDecides(run: seq<Action>)
    requires Possible(START, run)
    ensures Inv(After(START, run)) && Decided(run, After(START, run))
    decreases |run|
  {
    hide Decided, Inv, Apply;
    AfterKeepsInv(START, run);
    if run == [] {
      NotDecided();
    } else {
      var init, a := run[..|run| - 1], run[|run| - 1];
      PossibleInit(START, run);
      RunDecides(init);
      assert run == init + [a];
      DecideOneMore(init, After(START, init), a);
    }
  }

  lemma NotDecided()
    ensures Decided([], START)
  {
  }

  /**
   In every run, once the channel is closed there has been one verdict, and the controller's fields and error
   are what it says; that is the error every thread gets that waited, and the fields every unlocked read sees.
   */
  lemma ResultsAreTheVerdict(run: seq<Action>)
    requires Possible(START, run) && After(START, run).done == Closed
    ensures var s := After(START, run);
            && |Verdicts(run)| == 1 && Says(Verdicts(run)[0], s.fields, s.error)
            && (forall t :: t in s.threads && s.threads[t].Awaited? ==>
                  Says(Verdicts(run)[0], s.fields, s.threads[t].error))
            && (forall k :: 0 <= k < |s.observed| ==> Says(Verdicts(run)[0], s.observed[k], s.error))
  {
    RunDecides(run);
  }

  /** Before that nobody has got past its wait or read anything, and until there is a verdict nothing is written. */
  lemma NothingBeforeTheClose(run: seq<Action>)
    requires Possible(START, run) && After(START, run).done != Closed
    ensures var s := After(START, run);
            && s.observed == [] && (forall t :: t in s.threads ==> !s.threads[t].Awaited? && !s.threads[t].Resuming?)
            && (Verdicts(run) == [] ==> s.fields == UNRESOLVED && s.error == None)
  {
    RunDecides(run);
  }

  // ---- Every call gets what it asked for --------------------------------------------------

  /** Where a thread can be that made this call. */
  predicate Serves(op: Op, pc: Pc) {
    || pc == Entering(op) || pc == Spawning(op)
    || (op == Await && (pc.Fetching? || pc.Blocked? || pc.Resuming? || pc.Awaited?))
    || (op != Await && pc.Finished?)
  }

  /** Threads are those that made a call, and each serves its own; a walk is started for the first that needs one. */
  ghost predicate Called(run: seq<Action>, s: State) {
    && (forall t, op :: Call(t, op) in run ==> t in s.threads && Serves(op, s.threads[t]))
    && (forall t, op :: Call(t, op) in run && op in {Kickoff, Await} && s.threads[t] != Entering(op) ==> s.started)
  }

  lemma CallOneMore(run: seq<Action>, s: State, a: Action)
    requires Called(run, s) && Enabled(s, a)
    ensures Called(run + [a], Apply(s, a))
  {
    var s' := Apply(s, a);
    forall t, op | Call(t, op) in run + [a]
      ensures t in s'.threads && Serves(op, s'.threads[t])
      ensures op in {Kickoff, Await} && s'.threads[t] != Entering(op) ==> s'.started
    {
      if Call(t, op) in run {
        assert Serves(op, s.threads[t]);
      }
    }
  }

  lemma {:induction false} RunServes(run: seq<Action>)
    requires Possible(START, run)
    ensures Called(run, After(START, run))
    decreases |run|
  {
    hide Called, Apply;
    if run == [] {
      NobodyCalled();
    } else {
      var init, a := run[..|run| - 1], run[|run| - 1];
      PossibleInit(START, run);
      RunServes(init);
      assert run == init + [a];
      CallOneMore(init, After(START, init), a);
    }
  }

  lemma NobodyCalled()
    ensures Called([], START)
  {
  }

  /**
   Once no step is left but a new call or a read, and some thread has started the classification or waited for
   it, the walk has come to its verdict, closed its channel and notified, each once; and whoever waited has got
   past its wait with what the verdict says.
   */
  lemma AwaitGetsTheVerdict(run: seq<Action>, t: nat, op: Op)
    requires Possible(START, run) && Call(t, op) in run && op in {Kickoff, Await}
    requires forall a :: Enabled(After(START, run), a) ==> a.Call? || a.ReadFields?
    ensures var s := After(START, run);
            && s.done == Closed && s.closes == 1 && s.notified == 1 && |Verdicts(run)| == 1
            && t in s.threads
            && (op == Await ==> s.threads[t].Awaited? && Says(Verdicts(run)[0], s.fields, s.threads[t].error))
            && (op == Kickoff ==> s.threads[t].Finished?)
  {
    hide After, Apply, Possible, Verdicts, Says, Inv;
    var s := After(START, run);
    RunServes(run);
    EveryThreadFinishes(run);
    AfterKeepsInv(START, run);
    Quiescent(s);
    ResultsAreTheVerdict(run);
  }

  /** With nothing left to do, a walk that was started is over. */
  lemma Quiescent(s: State)
    requires Inv(s) && s.started && forall a :: Enabled(s, a) ==> a.Call? || a.ReadFields?
    ensures s.done == Closed && s.closes == 1 && s.notified == 1
  {
    if s.walks == map[] {
      var t :| t in s.threads && s.threads[t].Spawning?;
      assert Enabled(s, Spawn(t));
    } else {
      assert 0 in s.walks;
      assert !Enabled(s, Classify(0, Broke(""))) && !Enabled(s, Report(0)) && !Enabled(s, Close(0))
             && !Enabled(s, Notify(0));
    }
  }
}
