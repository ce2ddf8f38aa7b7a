/**
 The status screen's loop: page flips, idle blanking, waking and the shutdown gesture. The clock is
 whatever the environment reads out; a tick reads it twice, once if drawing finds new activity and once
 to compare with the idle limit.
 */
module DisplayLoop {

  datatype Button = A | B | X | Y

  const PAGE_STATUS := 0
  const PAGE_COUNT := 4
  const PAGE_QR := -1
  const DEFAULT_BRIGHTNESS := 80

  predicate IsPage(page: int) {
    page == PAGE_QR || 0 <= page < PAGE_COUNT
  }

  /** What counts as activity when it changes between two samples. */
  datatype Signal = Signal(transferring: bool, controller: bool, state: string, name: string,
                           network: bool, iface: string, ssid: string)

  datatype Config = Config(brightness: int, idleOff: int, allowShutdown: bool)
  {
    function Level(): (level: int)
      ensures level > 0
    {
      if brightness <= 0 then DEFAULT_BRIGHTNESS else brightness
    }

    predicate Expired(last: int, now: int) {
      idleOff > 0 && now - last >= idleOff
    }
  }

  /** What the loop can receive; the signal is the one sampled when it then draws. */
  datatype Input =
    | Tick(signal: Signal, drawn: int, checked: int)
    | Change(signal: Signal, at: int, drawn: int)
    | Press(button: Button, long: bool, signal: Signal, at: int, drawn: int)
    | FeedClosed

  /** Commands to the panel and the machine. */
  datatype Op = Backlight(level: int) | LedHealth | LedOff | Blit(page: int) | Farewell | PowerOff

  datatype State = State(page: int, on: bool, lastActivity: int, signal: Signal, done: bool)

  // ---- What one input means ---------------------------------------------------------------

  /** The page a press leads to. */
  function PageAfter(page: int, button: Button): int {
    match button
    case B => page
    case Y => if page == PAGE_QR then PAGE_STATUS else PAGE_QR
    case _ => if page == PAGE_QR then PAGE_STATUS else (page + 1) % PAGE_COUNT
  }

  /** The gesture that powers the machine off. */
  predicate Shutdown(cfg: Config, s: State, input: Input) {
    s.on && input.Press? && input.button == Y && input.long && cfg.allowShutdown
  }

  /** When the input shows activity: new signals count when drawn, events and presses when they arrive. */
  function ActivityAfter(s: State, input: Input): int {
    match input
    case Tick(signal, drawn, _) => if signal != s.signal then drawn else s.lastActivity
    case Change(signal, at, drawn) => if signal != s.signal then drawn else at
    case Press(_, _, signal, at, drawn) => if signal != s.signal then drawn else at
    case FeedClosed => s.lastActivity
  }

  /** Whether the screen is lit once the input has been handled. */
  predicate LitAfter(cfg: Config, s: State, input: Input) {
    match input
    case Tick(signal, _, checked) =>
      (s.on || signal != s.signal) && !cfg.Expired(ActivityAfter(s, input), checked)
    case Change(_, _, _) => true
    case Press(button, _, signal, _, _) => s.on && button == B ==> signal != s.signal
    case FeedClosed => s.on
  }

  function Step(cfg: Config, s: State, input: Input): State {
    if s.done || input.FeedClosed? then s
    else if Shutdown(cfg, s, input) then s.(lastActivity := input.at, done := true)
    else
      State(if input.Press? && s.on then PageAfter(s.page, input.button) else s.page,
            LitAfter(cfg, s, input), ActivityAfter(s, input), input.signal, false)
  }

  function Run(cfg: Config, s: State, inputs: seq<Input>): State {
    if inputs == [] then s else Step(cfg, Run(cfg, s, inputs[..|inputs| - 1]), inputs[|inputs| - 1])
  }

  // ---- What the panel shows ---------------------------------------------------------------

  /** The level the backlight is at after these commands. */
  function LevelAfter(level: int, ops: seq<Op>): int {
    if ops == [] then level
    else
      var last := ops[|ops| - 1];
      if last.Backlight? then last.level else LevelAfter(level, ops[..|ops| - 1])
  }

  /** Nothing is painted on a dark panel. */
  ghost predicate PaintsLit(level: int, ops: seq<Op>) {
    forall k :: 0 <= k < |ops| && (ops[k].Blit? || ops[k].Farewell? || ops[k].LedHealth?) ==>
      LevelAfter(level, ops[..k]) > 0
  }

  /** Whether the status LED is lit after these commands. */
  function LedAfter(ops: seq<Op>): bool {
    if ops == [] then false
    else
      var last := ops[|ops| - 1];
      if last.LedHealth? then true else if last.LedOff? then false else LedAfter(ops[..|ops| - 1])
  }

  /** The page painted last. */
  function PageShown(ops: seq<Op>): int {
    if ops == [] then PAGE_STATUS
    else
      var last := ops[|ops| - 1];
      if last.Blit? then last.page else PageShown(ops[..|ops| - 1])
  }

  lemma PanelAfterOne(ops: seq<Op>, op: Op)
    ensures LedAfter(ops + [op]) == if op.LedHealth? then true else if op.LedOff? then false else LedAfter(ops)
    ensures PageShown(ops + [op]) == if op.Blit? then op.page else PageShown(ops)
  {
    assert (ops + [op])[..|ops|] == ops;
  }

  lemma LevelOfOne(level: int, ops: seq<Op>, op: Op)
    ensures LevelAfter(level, ops + [op]) == if op.Backlight? then op.level else LevelAfter(level, ops)
    ensures PaintsLit(level, ops + [op]) <==>
              PaintsLit(level, ops) &&
              ((op.Blit? || op.Farewell? || op.LedHealth?) ==> LevelAfter(level, ops) > 0)
  {
    var all := ops + [op];
    assert all[..|ops|] == ops;
    forall k | 0 <= k < |ops|
      ensures all[k] == ops[k] && all[..k] == ops[..k]
    {
    }
    assert all[|ops|] == op;
  }

  // ---- The loop ---------------------------------------------------------------------------

  class Loop {
    const cfg: Config
    var page: int
    var screenOn: bool
    var lastActivity: int
    var lastSig: Signal
    var sigInit: bool
    var done: bool
    ghost var log: seq<Op>
    ghost var first: State
    ghost var inputs: seq<Input>

    ghost predicate Shows()
      reads this
    {
      && LevelAfter(0, log) == (if screenOn then cfg.Level() else 0)
      && PaintsLit(0, log)
      && (PowerOff in log <==> done)
    }

    function Now(): State
      reads this
    {
      State(page, screenOn, lastActivity, lastSig, done)
    }

    ghost predicate Valid()
      reads this
    {
      && Shows() && IsPage(page) && sigInit && first.on && !first.done && Now() == Run(cfg, first, inputs)
      && LedAfter(log) == screenOn && (screenOn && !done ==> PageShown(log) == page)
    }

    constructor (cfg: Config, signal: Signal, at: int)
      ensures Valid() && this.cfg == cfg && inputs == []
      ensures first == State(PAGE_STATUS, true, at, signal, false)
      ensures log == [Backlight(if cfg.brightness > 0 then cfg.brightness else 80), Blit(0), LedHealth]
    {
      this.cfg := cfg;
      page, screenOn, lastActivity, sigInit, done := PAGE_STATUS, true, at, false, false;
      lastSig := Signal(false, false, "", "", false, "", "");
      log, inputs := [Backlight(cfg.Level())], [];
      first := State(PAGE_STATUS, true, at, signal, false);
      new;
      LevelOfOne(0, [], Backlight(cfg.Level()));
      assert [] + [Backlight(cfg.Level())] == log;
      Draw(signal, at);
    }

    /** Commands are only ever appended. */
    ghost method Do(op: Op)
      modifies `log
      ensures log == old(log) + [op] && old(log) <= log
      ensures LevelAfter(0, log) == if op.Backlight? then op.level else LevelAfter(0, old(log))
      ensures PaintsLit(0, log) <==>
                PaintsLit(0, old(log)) &&
                ((op.Blit? || op.Farewell? || op.LedHealth?) ==> LevelAfter(0, old(log)) > 0)
      ensures PowerOff in log <==> PowerOff in old(log) || op == PowerOff
      ensures LedAfter(log) == if op.LedHealth? then true else if op.LedOff? then false else LedAfter(old(log))
      ensures PageShown(log) == if op.Blit? then op.page else PageShown(old(log))
    {
      LevelOfOne(0, log, op);
      PanelAfterOne(log, op);
      log := log + [op];
    }

    method Wake(at: int)
      requires Shows()
      modifies `lastActivity, `screenOn, `log
      ensures Shows() && screenOn && lastActivity == at && old(log) <= log
      ensures LedAfter(log) == LedAfter(old(log))
      ensures log == old(log) + if old(screenOn) then [] else [Backlight(cfg.Level())]
    {
      hide LevelAfter, PaintsLit, LedAfter, PageShown;
      lastActivity := at;
      if !screenOn {
        screenOn := true;
        Do(Backlight(cfg.Level()));
      }
    }

    method Sleep()
      requires Shows()
      modifies `screenOn, `log
      ensures Shows() && !screenOn && old(log) <= log
      ensures LedAfter(log) == (!old(screenOn) && LedAfter(old(log)))
      ensures log == old(log) + if old(screenOn) then [Backlight(0), LedOff] else []
    {
      hide LevelAfter, PaintsLit, LedAfter, PageShown;
      if !screenOn {
        return;
      }
      screenOn := false;
      Do(Backlight(0));
      Do(LedOff);
    }

    /** Samples the daemon, wakes on new activity, repaints while awake. */
    method Draw(signal: Signal, at: int)
      requires Shows()
      modifies `lastActivity, `screenOn, `lastSig, `sigInit, `log
      ensures Shows() && sigInit && lastSig == signal && old(log) <= log
      ensures LedAfter(log) == (screenOn || LedAfter(old(log))) && (screenOn ==> PageShown(log) == page)
      ensures screenOn == (old(screenOn) || (old(sigInit) && signal != old(lastSig)))
      ensures lastActivity == if old(sigInit) && signal != old(lastSig) then at else old(lastActivity)
      ensures log == old(log) + (if screenOn && !old(screenOn) then [Backlight(cfg.Level())] else [])
                              + (if screenOn then [Blit(page), LedHealth] else [])
    {
      hide LevelAfter, PaintsLit, LedAfter, PageShown;
      if sigInit && signal != lastSig {
        lastSig := signal;
        Wake(at);
      } else {
        lastSig, sigInit := signal, true;
      }
      if !screenOn {
        return;
      }
      Do(Blit(page));
      Do(LedHealth);
    }

    method OnTick(signal: Signal, drawn: int, checked: int)
      requires Valid() && !done
      modifies this
      ensures Valid() && first == old(first) && inputs == old(inputs) + [Tick(signal, drawn, checked)]
      ensures old(log) <= log && (!old(screenOn) && signal == old(lastSig) ==> log == old(log))
      ensures log == old(log) + (if !old(screenOn) && signal != old(lastSig) then [Backlight(cfg.Level())] else [])
                              + (if old(screenOn) || signal != old(lastSig) then [Blit(page), LedHealth] else [])
                              + (if (old(screenOn) || signal != old(lastSig)) && !screenOn
                                 then [Backlight(0), LedOff] else [])
    {
      hide LevelAfter, PaintsLit, LedAfter, PageShown, Run;
      ghost var input := Tick(signal, drawn, checked);
      RunOneMore(cfg, first, inputs, input);
      inputs := inputs + [input];
      Draw(signal, drawn);
      if cfg.idleOff > 0 && screenOn && checked - lastActivity >= cfg.idleOff {
        Sleep();
      }
    }

    method OnChange(signal: Signal, at: int, drawn: int)
      requires Valid() && !done
      modifies this
      ensures Valid() && first == old(first) && inputs == old(inputs) + [Change(signal, at, drawn)]
      ensures log == old(log) + (if old(screenOn) then [] else [Backlight(cfg.Level())]) + [Blit(page), LedHealth]
    {
      hide LevelAfter, PaintsLit, LedAfter, PageShown, Run;
      ghost var input := Change(signal, at, drawn);
      RunOneMore(cfg, first, inputs, input);
      inputs := inputs + [input];
      Wake(at);
      Draw(signal, drawn);
    }

    method OnPress(button: Button, long: bool, signal: Signal, at: int, drawn: int)
      requires Valid() && !done
      modifies this
      ensures Valid() && first == old(first) && inputs == old(inputs) + [Press(button, long, signal, at, drawn)]
      ensures log == old(log) +
                     if !old(screenOn) then [Backlight(cfg.Level()), Blit(page), LedHealth]
                     else if done then [Farewell, PowerOff]
                     else if button != B then [Blit(page), LedHealth]
                     else if screenOn then [Backlight(0), LedOff, Backlight(cfg.Level()), Blit(page), LedHealth]
                     else [Backlight(0), LedOff]
    {
      hide LevelAfter, PaintsLit, LedAfter, PageShown, Run;
      ghost var input := Press(button, long, signal, at, drawn);
      RunOneMore(cfg, first, inputs, input);
      inputs := inputs + [input];
      if !screenOn {
        Wake(at);
        Draw(signal, drawn);
        return;
      }
      Wake(at);
      Act(button, long);
      if !done {
        Draw(signal, drawn);
      }
    }

    /** What a press on a lit screen does, before the repaint. */
    method Act(button: Button, long: bool)
      requires Shows() && IsPage(page) && screenOn && !done
      modifies `page, `screenOn, `done, `log
      ensures Shows() && IsPage(page) && old(log) <= log
      ensures done == (button == Y && long && cfg.allowShutdown)
      ensures page == if done then old(page) else PageAfter(old(page), button)
      ensures screenOn == (button != B)
      ensures LedAfter(log) == (screenOn && LedAfter(old(log)))
      ensures log == old(log) + if done then [Farewell, PowerOff]
                                else if button == B then [Backlight(0), LedOff] else []
    {
      hide LevelAfter, PaintsLit, LedAfter, PageShown;
      match button
      case B => Sleep();
      case Y =>
        if long && cfg.allowShutdown {
          Do(Farewell);
          Do(PowerOff);
          done := true;
          return;
        }
        page := if page == PAGE_QR then PAGE_STATUS else PAGE_QR;
      case _ =>
        page := if page == PAGE_QR then PAGE_STATUS else (page + 1) % PAGE_COUNT;
    }

    /** The select loop over everything received, until the shutdown gesture ends it. */
    method Handle(received: seq<Input>)
      requires Valid() && inputs == [] && !done
      modifies this
      ensures Valid() && first == old(first)
      ensures Now() == Run(cfg, first, received)
      ensures old(log) <= log
    {
      hide LevelAfter, PaintsLit, LedAfter, PageShown, Run, Step, IsPage;
      NothingReceived(cfg, first);
      for k := 0 to |received|
        invariant Valid() && first == old(first) && old(log) <= log
        invariant Now() == Run(cfg, first, received[..k])
        invariant done || inputs == received[..k]
      {
        RunOneMore(cfg, first, received[..k], received[k]);
        NothingNew(cfg, Now(), received[k]);
        assert received[..k] + [received[k]] == received[..k + 1];
        if !done {
          match received[k]
          case Tick(signal, drawn, checked) => OnTick(signal, drawn, checked);
          case Change(signal, at, drawn) => OnChange(signal, at, drawn);
          case Press(button, long, signal, at, drawn) => OnPress(button, long, signal, at, drawn);
          case FeedClosed =>
            RunOneMore(cfg, first, inputs, FeedClosed);
            inputs := inputs + [FeedClosed];
        }
      }
      assert received[..|received|] == received;
    }
  }

  lemma NothingReceived(cfg: Config, s: State)
    ensures Run(cfg, s, []) == s
  {
  }

  lemma NothingNew(cfg: Config, s: State, input: Input)
    ensures s.done || input.FeedClosed? ==> Step(cfg, s, input) == s
  {
  }

  lemma RunOneMore(cfg: Config, s: State, inputs: seq<Input>, input: Input)
    ensures Run(cfg, s, inputs + [input]) == Step(cfg, Run(cfg, s, inputs), input)
  {
    assert (inputs + [input])[..|inputs|] == inputs;
  }

  // ---- Whole runs -------------------------------------------------------------------------

  /** A tick that samples nothing new. */
  predicate Quiet(signal: Signal, input: Input) {
    input.FeedClosed? || (input.Tick? && input.signal == signal)
  }

  /** Whether this tick finds the idle limit passed. */
  predicate Late(cfg: Config, last: int, input: Input) {
    input.Tick? && cfg.idleOff > 0 && input.checked - last >= cfg.idleOff
  }

  /**
   As long as nothing happens, one thing can change: the screen goes dark at the first tick that finds the
   idle limit passed, and is dark from then on.
   */
  lemma {:induction false} QuietRun(cfg: Config, s: State, inputs: seq<Input>)
    requires !s.done && forall k :: 0 <= k < |inputs| ==> Quiet(s.signal, inputs[k])
    ensures var late := exists k :: 0 <= k < |inputs| && Late(cfg, s.lastActivity, inputs[k]);
            Run(cfg, s, inputs) == s.(on := s.on && !late)
  {
    if inputs != [] {
      var n := |inputs| - 1;
      var init := inputs[..n];
      QuietRun(cfg, s, init);
      assert forall k :: 0 <= k < n ==> inputs[k] == init[k];
      assert Quiet(s.signal, inputs[n]);
      assert Late(cfg, s.lastActivity, inputs[n]) || !Late(cfg, s.lastActivity, inputs[n]);
    }
  }

  /** A lit screen has seen activity within the idle limit of the last tick. */
  lemma LitMeansRecent(cfg: Config, s: State, inputs: seq<Input>, signal: Signal, drawn: int, checked: int)
    requires !Run(cfg, s, inputs).done
    ensures var end := Run(cfg, s, inputs + [Tick(signal, drawn, checked)]);
            end.on ==> !(cfg.idleOff > 0 && checked - end.lastActivity >= cfg.idleOff)
  {
    RunOneMore(cfg, s, inputs, Tick(signal, drawn, checked));
  }

  /** The signal sampled last. */
  function LastSignal(signal: Signal, inputs: seq<Input>): Signal {
    if inputs == [] then signal
    else
      var n := |inputs| - 1;
      if inputs[n].FeedClosed? then LastSignal(signal, inputs[..n]) else inputs[n].signal
  }

  /** This input shows activity, at this time. */
  predicate Active(signal: Signal, inputs: seq<Input>, k: nat)
    requires k < |inputs|
  {
    !Quiet(LastSignal(signal, inputs[..k]), inputs[k])
  }

  function ActiveAt(signal: Signal, inputs: seq<Input>, k: nat): int
    requires k < |inputs| && Active(signal, inputs, k)
  {
    var input := inputs[k];
    if input.Tick? || input.signal != LastSignal(signal, inputs[..k]) then input.drawn else input.at
  }

  /** The idle timer runs from the last activity: an event, a press or a changed signal, and nothing else. */
  lemma {:induction false} TimerRunsFromActivity(cfg: Config, s: State, inputs: seq<Input>)
    requires !Run(cfg, s, inputs).done
    ensures !s.done && Run(cfg, s, inputs).signal == LastSignal(s.signal, inputs)
    ensures forall k :: 0 <= k < |inputs| && Active(s.signal, inputs, k)
                        && (forall j :: k < j < |inputs| ==> !Active(s.signal, inputs, j)) ==>
                          Run(cfg, s, inputs).lastActivity == ActiveAt(s.signal, inputs, k)
    ensures (forall j :: 0 <= j < |inputs| ==> !Active(s.signal, inputs, j)) ==>
              Run(cfg, s, inputs).lastActivity == s.lastActivity
  {
    if inputs != [] {
      var n := |inputs| - 1;
      var init := inputs[..n];
      TimerRunsFromActivity(cfg, s, init);
      forall k | 0 <= k < n
        ensures Active(s.signal, init, k) == Active(s.signal, inputs, k)
        ensures Active(s.signal, inputs, k) ==> ActiveAt(s.signal, init, k) == ActiveAt(s.signal, inputs, k)
      {
        assert init[..k] == inputs[..k];
      }
      LastStep(cfg, s, inputs);
    }
  }

  lemma LastStep(cfg: Config, s: State, inputs: seq<Input>)
    requires inputs != []
    requires !Run(cfg, s, inputs).done
    ensures var n := |inputs| - 1;
            var before := Run(cfg, s, inputs[..n]);
            !before.done &&
            (before.signal == LastSignal(s.signal, inputs[..n]) ==>
               Run(cfg, s, inputs).lastActivity ==
                 if Active(s.signal, inputs, n) then ActiveAt(s.signal, inputs, n) else before.lastActivity)
  {
  }

  /** The machine is powered off exactly when a lit screen, with shutdown allowed, sees a long press of Y. */
  lemma {:induction false} ShutdownNeedsGesture(cfg: Config, s: State, inputs: seq<Input>)
    requires !s.done
    ensures Run(cfg, s, inputs).done <==>
              exists k :: 0 <= k < |inputs| && ShutsDownAt(cfg, s, inputs, k)
  {
    if inputs != [] {
      var n := |inputs| - 1;
      var init := inputs[..n];
      ShutdownNeedsGesture(cfg, s, init);
      forall k | 0 <= k < n
        ensures ShutsDownAt(cfg, s, init, k) == ShutsDownAt(cfg, s, inputs, k)
      {
        assert init[..k] == inputs[..k];
      }
      assert ShutsDownAt(cfg, s, inputs, n) == (!Run(cfg, s, init).done && Shutdown(cfg, Run(cfg, s, init), inputs[n]));
    }
  }

  predicate ShutsDownAt(cfg: Config, s: State, inputs: seq<Input>, k: nat)
    requires k < |inputs|
  {
    var before, input := Run(cfg, s, inputs[..k]), inputs[k];
    && !before.done && before.on && cfg.allowShutdown
    && input.Press? && input.button == Y && input.long
  }

  /** A press on a dark screen wakes it and does nothing else, whatever the button and however long. */
  lemma BlindPressOnlyWakes(cfg: Config, s: State, inputs: seq<Input>, press: Input)
    requires press.Press? && !Run(cfg, s, inputs).done && !Run(cfg, s, inputs).on
    ensures var end := Run(cfg, s, inputs + [press]);
            end.on && !end.done && end.page == Run(cfg, s, inputs).page
  {
    RunOneMore(cfg, s, inputs, press);
  }

  /** B darkens the screen, except when the repaint that follows samples a new signal and lights it again. */
  lemma ManualOff(cfg: Config, s: State, inputs: seq<Input>, press: Input)
    requires press.Press? && press.button == B && !Run(cfg, s, inputs).done && Run(cfg, s, inputs).on
    ensures Run(cfg, s, inputs + [press]).on <==> press.signal != LastSignal(s.signal, inputs)
    ensures Run(cfg, s, inputs + [press]).page == Run(cfg, s, inputs).page && !Run(cfg, s, inputs + [press]).done
  {
    RunOneMore(cfg, s, inputs, press);
    TimerRunsFromActivity(cfg, s, inputs);
  }

  /** Presses of A or X on a lit screen go round the pages, one at a time. */
  lemma {:induction false} FlipsGoRound(cfg: Config, s: State, flips: seq<Input>)
    requires s.on && !s.done && 0 <= s.page < PAGE_COUNT
    requires forall k :: 0 <= k < |flips| ==> flips[k].Press? && flips[k].button in {A, X}
    ensures var end := Run(cfg, s, flips);
            end.on && !end.done && end.page == (s.page + |flips|) % 4
  {
    if flips != [] {
      var n := |flips| - 1;
      FlipsGoRound(cfg, s, flips[..n]);
      assert flips[n].button in {A, X};
      assert (s.page + n) % PAGE_COUNT + 1 <= PAGE_COUNT;
    }
  }

  /** Y overlays the address code and takes it away again, leaving the status page; A and X take it away too. */
  lemma CodeComesAndGoes(cfg: Config, s: State, show: Input, leave: Input)
    requires s.on && !s.done && 0 <= s.page < PAGE_COUNT
    requires show.Press? && show.button == Y && !(show.long && cfg.allowShutdown)
    requires leave.Press? && leave.button != B && !(leave.button == Y && leave.long && cfg.allowShutdown)
    ensures Run(cfg, s, [show]).page == PAGE_QR && Run(cfg, s, [show, leave]).page == PAGE_STATUS
  {
    assert [show][..0] == [] && [show, leave][..1] == [show];
    assert Run(cfg, s, [show]) == Step(cfg, s, show);
  }

  /** What a tick finds passed: the idle limit since the last activity, a signal sampled at that tick included. */
  predicate Idle(cfg: Config, s: State, input: Input)
    requires input.Tick?
  {
    cfg.idleOff > 0 && input.checked - (if input.signal != s.signal then input.drawn else s.lastActivity) >= cfg.idleOff
  }

  /**
   A dark screen is lit by an event, by a press and by a tick that samples a new signal, and by nothing else; a
   lit one goes dark at an idle tick and at a press of B that samples nothing new, and at nothing else.
   */
  lemma LightAndDark(cfg: Config, s: State, inputs: seq<Input>, input: Input)
    requires !Run(cfg, s, inputs).done
    ensures var before, after := Run(cfg, s, inputs), Run(cfg, s, inputs + [input]);
            && (!before.on ==>
                  (after.on <==> || input.Change? || input.Press?
                                 || (input.Tick? && input.signal != before.signal && !Idle(cfg, before, input))))
            && (before.on ==>
                  (!after.on <==> || (input.Tick? && Idle(cfg, before, input))
                                  || (input.Press? && input.button == B && input.signal == before.signal)))
            && (!input.Press? ==> after.page == before.page && !after.done)
  {
    RunOneMore(cfg, s, inputs, input);
  }
}
