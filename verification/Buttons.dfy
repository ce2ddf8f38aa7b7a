/** The debouncing of one panel button, sampled at every tick. */
module Buttons {
  import opened Wrappers

  const DEBOUNCE := 2
  const LONG_PRESS := 3000          // milliseconds

  datatype Press = Short | Long

  /** One sample: whether the button reads as pressed, and when. */
  datatype Sample = Sample(pressed: bool, at: int)

  /** A sample that repeats its predecessor's reading: the only kind that is acted upon. */
  predicate Steady(samples: seq<Sample>, k: nat)
    requires k < |samples|
  {
    k > 0 && samples[k].pressed == samples[k - 1].pressed
  }

  function SteadySamples(samples: seq<Sample>): seq<Sample> {
    if samples == [] then []
    else
      var k := |samples| - 1;
      SteadySamples(samples[..k]) + if Steady(samples, k) then [samples[k]] else []
  }

  /** The last reading seen twice in a row. */
  function Level(samples: seq<Sample>): bool {
    if samples == [] then false
    else
      var k := |samples| - 1;
      if Steady(samples, k) then samples[k].pressed else Level(samples[..k])
  }

  /** How many steady samples in a row, from the first, read as pressed. */
  function HoldLength(steady: seq<Sample>): (n: nat)
    ensures n <= |steady|
  {
    if steady != [] && steady[0].pressed then 1 + HoldLength(steady[1..]) else 0
  }

  /** Some sample of the hold lies the threshold or more after its first. */
  predicate HeldLong(hold: seq<Sample>) {
    exists k :: 0 < k < |hold| && hold[k].at - hold[0].at >= LONG_PRESS
  }

  /** One event per hold: long once it has been held long enough, else short when it ends. */
  function Presses(steady: seq<Sample>): seq<Press>
    decreases |steady|
  {
    if steady == [] then []
    else if !steady[0].pressed then Presses(steady[1..])
    else
      var n := HoldLength(steady);
      var now := if HeldLong(steady[..n]) then [Long] else if n < |steady| then [Short] else [];
      now + Presses(steady[n..])
  }

  /** The state kept per button, and its update. */
  class Debouncer {
    var level: bool
    var raw: bool
    var stable: nat
    var pressed: bool
    var since: int
    var longFired: bool
    ghost var history: seq<Sample>
    ghost var emitted: seq<Press>

    constructor ()
      ensures Valid() && history == [] && emitted == []
    {
      level, raw, stable, pressed, since, longFired := false, false, 0, false, 0, false;
      history, emitted := [], [];
      new;
      assert Splits([], [], [], false, 0, false, []);
    }

    ghost predicate Valid()
      reads this
    {
      && level == Level(history)
      && (history == [] ==> stable == 0 && !raw)
      && (history != [] ==> raw == history[|history| - 1].pressed)
      && (history != [] ==> stable == if Steady(history, |history| - 1) then DEBOUNCE else 1)
      && Follows(SteadySamples(history), pressed, since, longFired, emitted)
    }

    /** One tick for this button. */
    method Tick(reading: bool, now: int) returns (event: Option<Press>)
      requires Valid()
      modifies this
      ensures Valid()
      ensures history == old(history) + [Sample(reading, now)]
      ensures emitted == old(emitted) + if event.Some? then [event.value] else []
      ensures emitted == Presses(SteadySamples(history))
      ensures level == Level(history)
    {
      hide Follows, Presses, SteadySamples, Level;
      event := None;
      assert emitted + [] == emitted;
      ghost var x, steady := Sample(reading, now), SteadySamples(history);
      OneMoreSample(history, x);
      history := history + [x];
      if reading == raw {
        if stable < DEBOUNCE { stable := stable + 1; }
      } else {
        raw := reading;
        stable := 1;
      }
      if stable < DEBOUNCE {
        FollowsMeansPresses(steady, pressed, since, longFired, emitted);
        return;
      }
      level := raw;
      if level && !pressed {
        FollowsPress(steady, x, since, longFired, emitted);
        pressed := true;
        longFired := false;
        since := now;
      } else if level && pressed {
        FollowsHold(steady, x, since, longFired, emitted);
        if !longFired && now - since >= LONG_PRESS {
          longFired := true;
          event := Some(Long);
        }
      } else if !level && pressed {
        FollowsRelease(steady, x, since, longFired, emitted);
        pressed := false;
        if !longFired {
          event := Some(Short);
        }
      } else {
        FollowsIdle(steady, x, since, longFired, emitted);
      }
      emitted := emitted + if event.Some? then [event.value] else [];
      FollowsMeansPresses(SteadySamples(history), pressed, since, longFired, emitted);
    }
  }

  lemma OneMoreSample(history: seq<Sample>, x: Sample)
    ensures var all := history + [x];
            var steady := history != [] && history[|history| - 1].pressed == x.pressed;
            && Steady(all, |history|) == steady
            && SteadySamples(all) == (if steady then SteadySamples(history) + [x] else SteadySamples(history))
            && Level(all) == if steady then x.pressed else Level(history)
  {
    hide Presses, Follows;
    var all := history + [x];
    assert all[..|history|] == history && all[|history|] == x;
    assert SteadySamples(history) + [] == SteadySamples(history);
  }

  /** How many steady samples come before the hold under way, if one is. */
  function Idle(steady: seq<Sample>): (n: nat)
    ensures n <= |steady|
  {
    if steady == [] || !steady[|steady| - 1].pressed then |steady| else Idle(steady[..|steady| - 1])
  }

  /** No hold is under way. */
  predicate Released(steady: seq<Sample>) {
    steady == [] || !steady[|steady| - 1].pressed
  }

  predicate Held(hold: seq<Sample>) {
    forall k :: 0 <= k < |hold| ==> hold[k].pressed
  }

  lemma {:induction false} IdleSplits(steady: seq<Sample>)
    ensures Released(steady[..Idle(steady)]) && Held(steady[Idle(steady)..])
  {
    if !Released(steady) {
      var init := steady[..|steady| - 1];
      IdleSplits(init);
      assert init[..Idle(init)] == steady[..Idle(steady)];
      assert steady[Idle(steady)..] == init[Idle(init)..] + [steady[|steady| - 1]];
    }
  }

  lemma {:induction false} HoldLengthOf(hold: seq<Sample>, rest: seq<Sample>)
    requires Held(hold) && (rest == [] || !rest[0].pressed)
    ensures HoldLength(hold + rest) == |hold|
  {
    if hold == [] {
      assert hold + rest == rest;
    } else {
      assert (hold + rest)[1..] == hold[1..] + rest;
      HoldLengthOf(hold[1..], rest);
    }
  }

  lemma {:induction false} HoldLengthConcat(a: seq<Sample>, b: seq<Sample>)
    requires Released(a) && a != []
    ensures HoldLength(a + b) == HoldLength(a) < |a|
  {
    assert (a + b)[1..] == a[1..] + b;
    if |a| > 1 {
      assert Released(a[1..]);
      HoldLengthConcat(a[1..], b);
    }
  }

  /** The first hold, up to where it ends, and what comes after it. */
  lemma FirstHold(steady: seq<Sample>)
    requires steady != [] && steady[0].pressed
    ensures var n := HoldLength(steady);
            && 0 < n <= |steady|
            && Presses(steady) ==
                 (if HeldLong(steady[..n]) then [Long] else if n < |steady| then [Short] else []) + Presses(steady[n..])
  {
    hide HeldLong;
  }

  lemma FirstIdle(steady: seq<Sample>)
    requires steady != [] && !steady[0].pressed
    ensures Presses(steady) == Presses(steady[1..])
  {
  }

  lemma {:induction false} PressesConcat(a: seq<Sample>, b: seq<Sample>)
    requires Released(a)
    ensures Presses(a + b) == Presses(a) + Presses(b)
    decreases |a|
  {
    hide HeldLong, HoldLength, Presses;
    if a == [] {
      NoPresses();
      assert a + b == b && [] + Presses(b) == Presses(b);
    } else if !a[0].pressed {
      assert (a + b)[1..] == a[1..] + b;
      FirstIdle(a);
      FirstIdle(a + b);
      PressesConcat(a[1..], b);
    } else {
      FirstHold(a);
      FirstHold(a + b);
      HoldLengthConcat(a, b);
      var n := HoldLength(a);
      assert (a + b)[n..] == a[n..] + b && (a + b)[..n] == a[..n];
      PressesConcat(a[n..], b);
      Associate(if HeldLong(a[..n]) then [Long] else [Short], Presses(a[n..]), Presses(b));
    }
  }

  lemma Associate(a: seq<Press>, b: seq<Press>, c: seq<Press>)
    ensures a + (b + c) == (a + b) + c
  {
  }

  /** A hold is reported as soon as it is long, and otherwise when it ends. */
  lemma OneHold(hold: seq<Sample>, release: Sample)
    requires Held(hold) && hold != [] && !release.pressed
    ensures Presses(hold) == if HeldLong(hold) then [Long] else []
    ensures Presses(hold + [release]) == [if HeldLong(hold) then Long else Short]
  {
    HoldLengthOf(hold, []);
    assert hold + [] == hold && hold[..|hold|] == hold;
    HoldLengthOf(hold, [release]);
    var all := hold + [release];
    assert all[..|hold|] == hold && all[|hold|..] == [release];
    assert Presses([release]) == Presses([]) == [];
  }

  /** The machine's state after some steady samples: the finished holds are reported, the open one is watched. */
  ghost predicate Follows(steady: seq<Sample>, pressed: bool, since: int, longFired: bool, emitted: seq<Press>) {
    exists idle, hold :: Splits(steady, idle, hold, pressed, since, longFired, emitted)
  }

  ghost predicate Splits(steady: seq<Sample>, idle: seq<Sample>, hold: seq<Sample>, pressed: bool, since: int,
                         longFired: bool, emitted: seq<Press>) {
    && steady == idle + hold && Released(idle) && Held(hold)
    && (pressed <==> hold != [])
    && (pressed ==> since == hold[0].at && (longFired <==> HeldLong(hold)))
    && emitted == Presses(idle) + if pressed && longFired then [Long] else []
  }

  lemma FollowsMeansPresses(steady: seq<Sample>, pressed: bool, since: int, longFired: bool, emitted: seq<Press>)
    requires Follows(steady, pressed, since, longFired, emitted)
    ensures emitted == Presses(steady)
  {
    var idle, hold :| Splits(steady, idle, hold, pressed, since, longFired, emitted);
    PressesConcat(idle, hold);
    if hold != [] {
      OneHold(hold, Sample(false, 0));
    }
  }

  lemma FollowsPress(steady: seq<Sample>, x: Sample, since: int, longFired: bool, emitted: seq<Press>)
    requires Follows(steady, false, since, longFired, emitted) && x.pressed
    ensures Follows(steady + [x], true, x.at, false, emitted)
  {
    var idle, hold :| Splits(steady, idle, hold, false, since, longFired, emitted);
    assert Splits(steady + [x], idle, [x], true, x.at, false, emitted);
  }

  lemma FollowsIdle(steady: seq<Sample>, x: Sample, since: int, longFired: bool, emitted: seq<Press>)
    requires Follows(steady, false, since, longFired, emitted) && !x.pressed
    ensures Follows(steady + [x], false, since, longFired, emitted)
  {
    var idle, hold :| Splits(steady, idle, hold, false, since, longFired, emitted);
    PressesConcat(idle, [x]);
    assert Presses([x]) == Presses([]) == [];
    assert Splits(steady + [x], idle + [x], [], false, since, longFired, emitted);
  }

  lemma FollowsHold(steady: seq<Sample>, x: Sample, since: int, longFired: bool, emitted: seq<Press>)
    requires Follows(steady, true, since, longFired, emitted) && x.pressed
    ensures var fires := !longFired && x.at - since >= LONG_PRESS;
            Follows(steady + [x], true, since, longFired || fires, emitted + if fires then [Long] else [])
  {
    var idle, hold :| Splits(steady, idle, hold, true, since, longFired, emitted);
    var fires := !longFired && x.at - since >= LONG_PRESS;
    var more := hold + [x];
    assert HeldLong(more) <==> HeldLong(hold) || x.at - since >= LONG_PRESS by {
      assert more[|hold|] == x && more[..|hold|] == hold && more[0] == hold[0];
      if k :| 0 < k < |hold| && hold[k].at - hold[0].at >= LONG_PRESS {
        assert more[k] == hold[k];
      }
    }
    assert idle + hold + [x] == idle + more;
    assert Splits(steady + [x], idle, more, true, since, longFired || fires,
                  emitted + if fires then [Long] else []);
  }

  lemma LastReleased(steady: seq<Sample>, x: Sample)
    requires !x.pressed
    ensures Released(steady + [x]) && Held([])
  {
  }

  lemma FollowsRelease(steady: seq<Sample>, x: Sample, since: int, longFired: bool, emitted: seq<Press>)
    requires Follows(steady, true, since, longFired, emitted) && !x.pressed
    ensures Follows(steady + [x], false, since, longFired, emitted + if longFired then [] else [Short])
  {
    hide Presses, HeldLong, Released, Held;
    var idle, hold :| Splits(steady, idle, hold, true, since, longFired, emitted);
    OneHold(hold, x);
    PressesConcat(idle, hold + [x]);
    assert steady + [x] == idle + (hold + [x]);
    LastReleased(steady, x);
    assert Splits(steady + [x], steady + [x], [], false, since, longFired,
                  emitted + if longFired then [] else [Short]);
  }

  /** How many holds the steady samples begin. */
  function Holds(steady: seq<Sample>): nat {
    if steady == [] then 0
    else
      var k := |steady| - 1;
      Holds(steady[..k]) + if steady[k].pressed && Released(steady[..k]) then 1 else 0
  }

  /** Every hold has exactly one event once it is over; one under way has at most one. */
  lemma {:induction false} OneEventPerHold(steady: seq<Sample>)
    ensures |Presses(steady)| <= Holds(steady) <= |Presses(steady)| + 1
    ensures Released(steady) ==> |Presses(steady)| == Holds(steady)
  {
    var n := Idle(steady);
    IdleSplits(steady);
    assert steady[..n] + steady[n..] == steady;
    PressesConcat(steady[..n], steady[n..]);
    HoldsConcat(steady[..n], steady[n..]);
    if n < |steady| {
      OneHold(steady[n..], Sample(false, 0));
    }
    HoldsWhenReleased(steady[..n]);
  }

  lemma {:induction false} HoldsConcat(idle: seq<Sample>, hold: seq<Sample>)
    requires Released(idle) && Held(hold)
    ensures Holds(idle + hold) == Holds(idle) + if hold == [] then 0 else 1
  {
    if hold == [] {
      assert idle + hold == idle;
    } else {
      var m := |hold| - 1;
      assert (idle + hold)[..|idle| + m] == idle + hold[..m];
      HoldsConcat(idle, hold[..m]);
    }
  }

  lemma {:induction false} HoldsWhenReleased(steady: seq<Sample>)
    requires Released(steady)
    ensures |Presses(steady)| == Holds(steady)
    decreases |steady|
  {
    hide Presses, Idle, Held;
    if steady == [] {
      NoPresses();
    } else {
      var init, x := steady[..|steady| - 1], steady[|steady| - 1];
      var n := Idle(init);
      IdleSplits(init);
      var idle, hold := init[..n], init[n..];
      assert init == idle + hold;
      HoldsConcat(idle, hold);
      HoldsWhenReleased(idle);
      assert steady == idle + (hold + [x]);
      PressesConcat(idle, hold + [x]);
      PressesOfEndedHold(hold, x);
    }
  }

  lemma NoPresses()
    ensures Presses([]) == []
  {
  }

  lemma PressesOfEndedHold(hold: seq<Sample>, x: Sample)
    requires Held(hold) && !x.pressed
    ensures |Presses(hold + [x])| == if hold == [] then 0 else 1
  {
    if hold == [] {
      assert hold + [x] == [x];
      assert Presses([x]) == Presses([]) == [];
    } else {
      OneHold(hold, x);
    }
  }

  /** A reading that lasts for one sample is never acted upon: it neither starts nor ends a press. */
  lemma GlitchIgnored(history: seq<Sample>, glitch: Sample, back: Sample)
    requires history != [] && glitch.pressed != history[|history| - 1].pressed == back.pressed
    ensures var after := history + [glitch, back];
            && SteadySamples(after) == SteadySamples(history) && Level(after) == Level(history)
            && Presses(SteadySamples(after)) == Presses(SteadySamples(history))
  {
    var one := history + [glitch];
    var two := history + [glitch, back];
    assert one[..|history|] == history && two[..|history| + 1] == one;
    assert !Steady(one, |history|) && !Steady(two, |history| + 1);
    assert SteadySamples(one) == SteadySamples(history);
  }

  /** Three seconds down are a long press, reported once they are over; less is a short one, reported at the end. */
  lemma LongAndShort(at: int)
    ensures Presses([Sample(true, at), Sample(true, at + 3000)]) == [Long]
    ensures Presses([Sample(true, at), Sample(true, at + 2999)]) == []
    ensures Presses([Sample(true, at), Sample(true, at + 2999), Sample(false, at + 3010)]) == [Short]
    ensures Presses([Sample(true, at), Sample(true, at + 3000), Sample(false, at + 3010)]) == [Long]
  {
    var long, short := [Sample(true, at), Sample(true, at + 3000)], [Sample(true, at), Sample(true, at + 2999)];
    var up := Sample(false, at + 3010);
    assert long[1].at - long[0].at >= LONG_PRESS;
    assert HeldLong(long) && !HeldLong(short);
    OneHold(long, up);
    OneHold(short, up);
    assert long + [up] == [Sample(true, at), Sample(true, at + 3000), up];
    assert short + [up] == [Sample(true, at), Sample(true, at + 2999), up];
  }
}
